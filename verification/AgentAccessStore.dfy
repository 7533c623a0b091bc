/**
 * The agent-access tables and the batches that change them (agent-access-store.ts). Every database
 * batch is one atomic step; inside a batch the statements run in order. `Store` executes them
 * statement by statement; the functions on `Tables` say what a whole batch does.
 */
module AgentAccessStore {
  import opened Common
  import opened Tickets

  const CONSENT_LIFETIME_SECONDS := 10 * 60

  datatype Decision = Approved | Denied

  datatype Consent = Consent(session: Id, client: Id, redirectUri: string)

  type Flows = Rows<Consent, Decision>

  datatype Status = Pending | Active | Revoked

  /** `terms` stands for what the owner granted: scopes, folders and restored sources. */
  datatype Grant = Grant(client: Id, vault: Id, audience: Id, terms: Id, status: Status,
                         createdAt: int, activatedAt: Option<int>, revokedAt: Option<int>,
                         lastUsedAt: Option<int>)

  datatype Edge = Edge(successor: Id, replacedAt: int)

  datatype HandoffStatus = Prepared | Claiming | Consumed | Closed

  datatype Handoff = Handoff(grant: Id, vault: Id, status: HandoffStatus,
                             revokedAt: Option<int>, claimExpiresAt: Option<int>)

  datatype Collaboration = Collaboration(source: Id, status: Status, revokedAt: Option<int>)

  type Grants = map<Id, Grant>

  /**
   * Owner sessions, vault states and vault profiles belong to other stores; of the profiles it only
   * matters which vaults have one that cannot be read.
   */
  datatype Tables = Tables(
    flows: Flows,
    grants: Grants,
    replacements: map<Id, Edge>,
    handoffs: map<Id, Handoff>,
    collaborations: map<Id, Collaboration>,
    activeVaults: set<Id>,
    sessions: set<Id>,
    unreadableProfiles: set<Id>)

  predicate Live(h: Handoff) {
    h.status.Prepared? || h.status.Claiming?
  }

  predicate Unrevoked(g: Grant) {
    g.status.Active? || g.status.Pending?
  }

  predicate SamePair(a: Grant, b: Grant) {
    a.client == b.client && a.vault == b.vault
  }

  function CloseHandoff(h: Handoff, now: int): Handoff {
    h.(status := Closed, revokedAt := Some(now), claimExpiresAt := None)
  }

  /** Ends a grant; one that has ended already keeps its moment. */
  function EndGrant(g: Grant, now: int): Grant {
    g.(status := Revoked, revokedAt := if g.revokedAt.Some? then g.revokedAt else Some(now))
  }

  function EndCollaboration(c: Collaboration, now: int): Collaboration {
    c.(status := Revoked, revokedAt := if c.revokedAt.Some? then c.revokedAt else Some(now))
  }

  // ---- What each batch does ---------------------------------------------------------------

  /** The hash is free once old rows are swept, and the session that the row refers to exists. */
  predicate CreatesFlow(t: Tables, hash: Id, consent: Consent, now: int) {
    hash !in Swept(t.flows, now) && consent.session in t.sessions
  }

  function FlowCreated(t: Tables, hash: Id, consent: Consent, now: int): Tables {
    t.(flows := Issued(t.flows, hash, consent, now, CONSENT_LIFETIME_SECONDS))
  }

  predicate ConsumesFlow(t: Tables, hash: Id, session: Id, now: int) {
    Redeemable(t.flows, hash, now) && t.flows[hash].body.session == session
  }

  function FlowConsumed(t: Tables, hash: Id, session: Id, decision: Decision, now: int): Tables {
    if ConsumesFlow(t, hash, session, now) then t.(flows := Used(t.flows, hash, now, decision)) else t
  }

  predicate CreatesPending(t: Tables, id: Id, vault: Id) {
    vault in t.activeVaults && id !in t.grants
  }

  function PendingCreated(t: Tables, id: Id, client: Id, vault: Id, audience: Id, terms: Id, now: int): Tables {
    if CreatesPending(t, id, vault)
    then t.(grants := t.grants[id := Grant(client, vault, audience, terms, Pending, now, None, None, None)])
    else t
  }

  predicate Activates(t: Tables, id: Id) {
    id in t.grants && t.grants[id].status.Pending?
  }

  /** `g` is an active grant of the same client and vault that a live grant `id` displaces. */
  predicate Displaced(t: Tables, id: Id, g: Id) {
    && id in t.grants && Unrevoked(t.grants[id])
    && g in t.grants && g != id && t.grants[g].status.Active? && SamePair(t.grants[g], t.grants[id])
  }

  /** The displaced grants and those already revoked for the same client and vault. */
  predicate Superseded(t: Tables, id: Id, g: Id) {
    && id in t.grants && Unrevoked(t.grants[id])
    && g in t.grants && g != id && !t.grants[g].status.Pending? && SamePair(t.grants[g], t.grants[id])
  }

  function GrantsAfterActivation(t: Tables, id: Id, now: int): Grants {
    map g | g in t.grants ::
      if g == id && t.grants[g].status.Pending? then t.grants[g].(status := Active, activatedAt := Some(now))
      else if Displaced(t, id, g) then EndGrant(t.grants[g], now)
      else t.grants[g]
  }

  /** An edge to `id` for each of `gaining`; the other keys are mapped to themselves and taken out again. */
  function EdgesTo(keys: set<Id>, gaining: set<Id>, id: Id, now: int): map<Id, Edge> {
    (map p | p in keys :: if p in gaining then Edge(id, now) else Edge(p, 0)) - (keys - gaining)
  }

  function EdgesAfterActivation(t: Tables, id: Id, now: int): map<Id, Edge> {
    var gaining := set p | p in t.grants && Displaced(t, id, p) && p !in t.replacements;
    t.replacements + EdgesTo(t.grants.Keys, gaining, id, now)
  }

  function HandoffsAfterActivation(t: Tables, id: Id, now: int): map<Id, Handoff> {
    map h | h in t.handoffs ::
      if Live(t.handoffs[h]) && Superseded(t, id, t.handoffs[h].grant) then CloseHandoff(t.handoffs[h], now)
      else t.handoffs[h]
  }

  function Activated(t: Tables, id: Id, now: int): Tables {
    t.(grants := GrantsAfterActivation(t, id, now),
       replacements := EdgesAfterActivation(t, id, now),
       handoffs := HandoffsAfterActivation(t, id, now))
  }

  /** The batches that revoke a set of grants: one grant, one vault, or all of them. */
  datatype Scope = One(grant: Id) | OfVault(vault: Id) | Everything

  predicate InScope(t: Tables, scope: Scope, id: Id) {
    id in t.grants &&
    match scope
    case One(grant) => id == grant
    case OfVault(vault) => t.grants[id].vault == vault
    case Everything => true
  }

  predicate HandoffInScope(scope: Scope, h: Handoff) {
    match scope
    case One(grant) => h.grant == grant
    case OfVault(vault) => h.vault == vault
    case Everything => true
  }

  /** Single revocations match by id alone; the other two only reach collaborations of known grants. */
  predicate CollaborationInScope(t: Tables, scope: Scope, c: Collaboration) {
    match scope
    case One(grant) => c.source == grant
    case OfVault(vault) => InScope(t, scope, c.source)
    case Everything => c.source in t.grants && Unrevoked(t.grants[c.source])
  }

  function GrantsAfterRevocation(t: Tables, scope: Scope, now: int): Grants {
    map g | g in t.grants ::
      if !InScope(t, scope, g) || !Unrevoked(t.grants[g]) then t.grants[g]
      else if scope.OfVault? then EndGrant(t.grants[g], now)
      else t.grants[g].(status := Revoked, revokedAt := Some(now))
  }

  function HandoffsAfterRevocation(t: Tables, scope: Scope, now: int): map<Id, Handoff> {
    map h | h in t.handoffs ::
      if Live(t.handoffs[h]) && HandoffInScope(scope, t.handoffs[h]) then CloseHandoff(t.handoffs[h], now)
      else t.handoffs[h]
  }

  function CollaborationsAfterRevocation(t: Tables, scope: Scope, now: int): map<Id, Collaboration> {
    map c | c in t.collaborations ::
      if !t.collaborations[c].status.Revoked? && CollaborationInScope(t, scope, t.collaborations[c])
      then EndCollaboration(t.collaborations[c], now)
      else t.collaborations[c]
  }

  function RevokedIn(t: Tables, scope: Scope, now: int): Tables {
    t.(grants := GrantsAfterRevocation(t, scope, now),
       handoffs := HandoffsAfterRevocation(t, scope, now),
       collaborations := CollaborationsAfterRevocation(t, scope, now),
       activeVaults := if scope.OfVault? then t.activeVaults - {scope.vault} else t.activeVaults)
  }

  function Touched(t: Tables, id: Id, now: int): Tables {
    if id in t.grants && t.grants[id].status.Active?
    then t.(grants := t.grants[id := t.grants[id].(lastUsedAt := Some(now))]) else t
  }

  datatype PendingOutcome = Created | VaultInactive | DuplicateId

  // The statements of the activation batch, each on the rows the previous one left.

  predicate ActivePrior(rows: Grants, g: Id, id: Id) {
    && id in rows && rows[id].status.Active?
    && g in rows && g != id && rows[g].status.Active? && SamePair(rows[g], rows[id])
  }

  predicate RevokedPrior(rows: Grants, g: Id, id: Id) {
    && id in rows && rows[id].status.Active?
    && g in rows && g != id && rows[g].status.Revoked? && SamePair(rows[g], rows[id])
  }

  function MarkActive(rows: Grants, id: Id, now: int): Grants {
    if id in rows && rows[id].status.Pending?
    then rows[id := rows[id].(status := Active, activatedAt := Some(now))] else rows
  }

  /** The insert is one that ignores conflicts: a prior that already has a successor keeps it. */
  function RecordEdges(known: map<Id, Edge>, rows: Grants, id: Id, now: int): map<Id, Edge> {
    var gaining := set p | p in rows && ActivePrior(rows, p, id) && p !in known;
    known + EdgesTo(rows.Keys, gaining, id, now)
  }

  function EndPriors(rows: Grants, id: Id, now: int): Grants {
    map g | g in rows :: if ActivePrior(rows, g, id) then EndGrant(rows[g], now) else rows[g]
  }

  function CloseHandoffsOfPriors(open: map<Id, Handoff>, rows: Grants, id: Id, now: int): map<Id, Handoff> {
    map h | h in open ::
      if Live(open[h]) && RevokedPrior(rows, open[h].grant, id) then CloseHandoff(open[h], now) else open[h]
  }

  lemma {:induction false} PriorsAreDisplaced(t: Tables, id: Id, now: int)
    ensures forall g :: ActivePrior(MarkActive(t.grants, id, now), g, id) <==> Displaced(t, id, g)
  {
  }

  lemma {:induction false} GrantStatements(t: Tables, id: Id, now: int)
    ensures EndPriors(MarkActive(t.grants, id, now), id, now) == GrantsAfterActivation(t, id, now)
  {
    PriorsAreDisplaced(t, id, now);
  }

  lemma {:induction false} EdgeStatement(t: Tables, id: Id, now: int)
    ensures RecordEdges(t.replacements, MarkActive(t.grants, id, now), id, now) == EdgesAfterActivation(t, id, now)
  {
    PriorsAreDisplaced(t, id, now);
    assert MarkActive(t.grants, id, now).Keys == t.grants.Keys;
  }

  lemma {:induction false} HandoffStatement(t: Tables, id: Id, now: int)
    ensures CloseHandoffsOfPriors(t.handoffs, GrantsAfterActivation(t, id, now), id, now)
         == HandoffsAfterActivation(t, id, now)
  {
    assert forall g :: RevokedPrior(GrantsAfterActivation(t, id, now), g, id) <==> Superseded(t, id, g);
  }

  // The statements of the revoke-all batch and of the vault batch.

  function CloseLiveHandoffs(open: map<Id, Handoff>, now: int): map<Id, Handoff> {
    map h | h in open :: if Live(open[h]) then CloseHandoff(open[h], now) else open[h]
  }

  function EndCollaborationsOfLive(joined: map<Id, Collaboration>, rows: Grants, now: int): map<Id, Collaboration> {
    map c | c in joined ::
      if !joined[c].status.Revoked? && joined[c].source in rows && Unrevoked(rows[joined[c].source])
      then EndCollaboration(joined[c], now) else joined[c]
  }

  function LiveGrants(rows: Grants): set<Id> {
    set g | g in rows && Unrevoked(rows[g])
  }

  function EndLiveGrants(rows: Grants, now: int): Grants {
    map g | g in rows :: if g in LiveGrants(rows) then rows[g].(status := Revoked, revokedAt := Some(now)) else rows[g]
  }

  lemma {:induction false} RevokeAllStatements(t: Tables, now: int)
    ensures CloseLiveHandoffs(t.handoffs, now) == HandoffsAfterRevocation(t, Everything, now)
    ensures EndCollaborationsOfLive(t.collaborations, t.grants, now)
            == CollaborationsAfterRevocation(t, Everything, now)
    ensures EndLiveGrants(t.grants, now) == GrantsAfterRevocation(t, Everything, now)
  {
  }

  function CloseVaultHandoffs(open: map<Id, Handoff>, vault: Id, now: int): map<Id, Handoff> {
    map h | h in open :: if open[h].vault == vault && Live(open[h]) then CloseHandoff(open[h], now) else open[h]
  }

  function EndVaultCollaborations(joined: map<Id, Collaboration>, rows: Grants, vault: Id, now: int)
    : map<Id, Collaboration>
  {
    map c | c in joined ::
      if !joined[c].status.Revoked? && joined[c].source in rows && rows[joined[c].source].vault == vault
      then EndCollaboration(joined[c], now) else joined[c]
  }

  function EndVaultGrants(rows: Grants, vault: Id, now: int): Grants {
    map g | g in rows :: if rows[g].vault == vault && Unrevoked(rows[g]) then EndGrant(rows[g], now) else rows[g]
  }

  lemma {:induction false} VaultStatements(t: Tables, vault: Id, now: int)
    ensures CloseVaultHandoffs(t.handoffs, vault, now) == HandoffsAfterRevocation(t, OfVault(vault), now)
    ensures EndVaultCollaborations(t.collaborations, t.grants, vault, now)
         == CollaborationsAfterRevocation(t, OfVault(vault), now)
    ensures EndVaultGrants(t.grants, vault, now) == GrantsAfterRevocation(t, OfVault(vault), now)
  {
  }

  // ---- The store, statement by statement --------------------------------------------------

  predicate Readable(t: Tables, id: Id, client: Id, audience: Id) {
    && id in t.grants && t.grants[id].status.Active?
    && t.grants[id].client == client && t.grants[id].audience == audience
    && t.grants[id].vault in t.activeVaults && t.grants[id].vault !in t.unreadableProfiles
  }

  class Store {
    var flows: Flows
    var grants: Grants
    var replacements: map<Id, Edge>
    var handoffs: map<Id, Handoff>
    var collaborations: map<Id, Collaboration>
    var activeVaults: set<Id>
    var sessions: set<Id>
    var unreadableProfiles: set<Id>

    constructor ()
      ensures State() == Tables(map[], map[], map[], map[], map[], {}, {}, {})
    {
      flows, grants, replacements := map[], map[], map[];
      handoffs, collaborations, activeVaults := map[], map[], {};
      sessions, unreadableProfiles := {}, {};
    }

    function State(): Tables
      reads this
    {
      Tables(flows, grants, replacements, handoffs, collaborations, activeVaults, sessions, unreadableProfiles)
    }

    /** A hash that is still taken, or a session that is gone, undoes the whole batch. */
    method CreateConsentFlow(hash: Id, consent: Consent, now: int) returns (created: bool)
      modifies this
      ensures created == CreatesFlow(old(State()), hash, consent, now)
      ensures State() == if created then FlowCreated(old(State()), hash, consent, now) else old(State())
    {
      var kept := Swept(flows, now);
      created := hash !in kept && consent.session in sessions;
      if created {
        flows := kept[hash := Ticket(consent, now + CONSENT_LIFETIME_SECONDS, None)];
      }
    }

    method ConsumeConsentFlow(hash: Id, session: Id, decision: Decision, now: int)
      returns (flow: Option<Consent>)
      modifies this
      ensures State() == FlowConsumed(old(State()), hash, session, decision, now)
      ensures flow.Some? <==> ConsumesFlow(old(State()), hash, session, now)
      ensures flow.Some? ==> hash in old(flows) && flow.value == old(flows)[hash].body
    {
      flow := None;
      if hash in flows {
        var row := flows[hash];
        if row.body.session == session && row.used.None? && row.expiresAt > now {
          flows := flows[hash := row.(used := Some((now, decision)))];
          flow := Some(row.body);
        }
      }
    }

    /** The new row is read off the active vault row; a duplicate primary key undoes the batch. */
    method CreatePendingAgentGrant(id: Id, client: Id, vault: Id, audience: Id, terms: Id, now: int)
      returns (outcome: PendingOutcome)
      modifies this
      ensures State() == PendingCreated(old(State()), id, client, vault, audience, terms, now)
      ensures outcome.Created? <==> CreatesPending(old(State()), id, vault)
      ensures outcome.VaultInactive? <==> vault !in old(activeVaults)
    {
      if vault !in activeVaults {
        return VaultInactive;
      }
      if id in grants {
        return DuplicateId;
      }
      grants := grants[id := Grant(client, vault, audience, terms, Pending, now, None, None, None)];
      outcome := Created;
    }

    /**
     * The order of the statements matters: the edges must be recorded before the priors are revoked.
     * As in every batch below, the statements work on copies that are committed together.
     */
    method ActivateAgentGrant(id: Id, now: int) returns (activated: bool)
      modifies this
      ensures State() == Activated(old(State()), id, now)
      ensures activated == Activates(old(State()), id)
    {
      activated := id in grants && grants[id].status.Pending?;
      var marked := MarkActive(grants, id, now);
      var edges := RecordEdges(replacements, marked, id, now);
      var ended := EndPriors(marked, id, now);
      var closed := CloseHandoffsOfPriors(handoffs, ended, id, now);
      GrantStatements(State(), id, now);
      EdgeStatement(State(), id, now);
      HandoffStatement(State(), id, now);
      grants, replacements, handoffs := ended, edges, closed;
    }

    /** Handoffs and collaborations first, then the grant itself. */
    method RevokeAgentGrant(id: Id, now: int) returns (revoked: bool)
      modifies this
      ensures State() == RevokedIn(old(State()), One(id), now)
      ensures revoked <==> id in old(grants) && Unrevoked(old(grants)[id])
    {
      ghost var t := State();
      var open, joined, rows := handoffs, collaborations, grants;
      var closed := map h | h in open ::
          if open[h].grant == id && Live(open[h]) then CloseHandoff(open[h], now) else open[h];
      assert closed == HandoffsAfterRevocation(t, One(id), now);
      var left := map c | c in joined ::
          if joined[c].source == id && !joined[c].status.Revoked? then EndCollaboration(joined[c], now) else joined[c];
      assert left == CollaborationsAfterRevocation(t, One(id), now);
      revoked := id in rows && Unrevoked(rows[id]);
      if revoked {
        rows := rows[id := rows[id].(status := Revoked, revokedAt := Some(now))];
      }
      assert rows == GrantsAfterRevocation(t, One(id), now);
      handoffs, collaborations, grants := closed, left, rows;
    }

    /** Collaborations are matched while their source grants are still live, so before the last update. */
    method RevokeAllAgentGrants(now: int) returns (count: nat)
      modifies this
      ensures State() == RevokedIn(old(State()), Everything, now)
      ensures count == |LiveGrants(old(grants))|
    {
      var closed := CloseLiveHandoffs(handoffs, now);
      var left := EndCollaborationsOfLive(collaborations, grants, now);
      count := |LiveGrants(grants)|;
      var rows := EndLiveGrants(grants, now);
      RevokeAllStatements(State(), now);
      handoffs, collaborations, grants := closed, left, rows;
    }

    /** The part of the vault revocation batch that touches these tables (pairing-store.ts). */
    method RevokeVault(vault: Id, now: int)
      modifies this
      ensures State() == RevokedIn(old(State()), OfVault(vault), now)
    {
      var closed := CloseVaultHandoffs(handoffs, vault, now);
      var left := EndVaultCollaborations(collaborations, grants, vault, now);
      var rows := EndVaultGrants(grants, vault, now);
      VaultStatements(State(), vault, now);
      activeVaults := activeVaults - {vault};
      handoffs, collaborations, grants := closed, left, rows;
    }

    method TouchAgentGrant(id: Id, now: int)
      modifies this
      ensures State() == Touched(old(State()), id, now)
    {
      if id in grants && grants[id].status.Active? {
        grants := grants[id := grants[id].(lastUsedAt := Some(now))];
      }
    }

    /** The authorization read: an active grant of that client and audience, its vault active and readable. */
    method ReadActiveAgentGrant(id: Id, client: Id, audience: Id) returns (row: Option<Grant>)
      ensures row.Some? <==>
                && id in grants && grants[id].status.Active?
                && grants[id].client == client && grants[id].audience == audience
                && grants[id].vault in activeVaults && grants[id].vault !in unreadableProfiles
      ensures row.Some? ==> id in grants && row.value == grants[id]
    {
      row := None;
      if id in grants {
        var g := grants[id];
        if g.client == client && g.audience == audience && g.status.Active? && g.vault in activeVaults {
          if g.vault in unreadableProfiles {
            return None;
          }
          row := Some(g);
        }
      }
    }
  }
}
