/**
 * What every run of the agent-access batches keeps: one active grant per client and vault, statuses
 * that only move forward, and replacement edges that form disjoint finite chains.
 */
module GrantRuns {
  import opened Common
  import opened Tickets
  import opened AgentAccessStore

  datatype Event =
    | CreateFlow(hash: Id, consent: Consent, now: int)
    | ConsumeFlow(hash: Id, session: Id, decision: Decision, now: int)
    | CreatePending(id: Id, client: Id, vault: Id, audience: Id, terms: Id, now: int)
    | Activate(id: Id, now: int)
    | Revoke(scope: Scope, now: int)
    | Touch(id: Id, now: int)
    | Elsewhere

  ghost predicate HandoffGrounded(grants: Grants, h: Handoff) {
    h.grant in grants && grants[h.grant].status.Active? && grants[h.grant].vault == h.vault
  }

  /**
   * Changes made by other stores: sessions come and go and cascade to consent flows, vaults become
   * active and report profiles, and handoffs and collaborations come and go. A handoff only becomes
   * live for an active grant, in the vault of that grant (prepared-project-handoff-store.ts:152-189).
   */
  ghost predicate MadeElsewhere(t: Tables, t': Tables) {
    && t'.grants == t.grants && t'.replacements == t.replacements
    && (forall h :: h in t'.flows ==> h in t.flows && t'.flows[h] == t.flows[h])
    && (forall h :: h in t'.handoffs && Live(t'.handoffs[h]) ==>
          || (h in t.handoffs && Live(t.handoffs[h]) && t.handoffs[h].grant == t'.handoffs[h].grant
              && t.handoffs[h].vault == t'.handoffs[h].vault)
          || HandoffGrounded(t.grants, t'.handoffs[h]))
  }

  /** One batch, or one change made elsewhere. */
  ghost predicate Step(t: Tables, e: Event, t': Tables) {
    match e
    case CreateFlow(hash, consent, now) =>
      t' == (if CreatesFlow(t, hash, consent, now) then FlowCreated(t, hash, consent, now) else t)
    case ConsumeFlow(hash, session, decision, now) => t' == FlowConsumed(t, hash, session, decision, now)
    case CreatePending(id, client, vault, audience, terms, now) =>
      t' == PendingCreated(t, id, client, vault, audience, terms, now)
    case Activate(id, now) => t' == Activated(t, id, now)
    case Revoke(scope, now) => t' == RevokedIn(t, scope, now)
    case Touch(id, now) => t' == Touched(t, id, now)
    case Elsewhere => MadeElsewhere(t, t')
  }

  // ---- Lineage -----------------------------------------------------------------------------

  /** The grant reached from `a` by following `n` replacement edges, if there are that many. */
  function Follow(r: map<Id, Edge>, a: Id, n: nat): Option<Id>
    decreases n
  {
    if n == 0 then Some(a) else if a in r then Follow(r, r[a].successor, n - 1) else None
  }

  ghost predicate Acyclic(r: map<Id, Edge>) {
    forall a, n: nat :: n > 0 ==> Follow(r, a, n) != Some(a)
  }

  lemma {:induction false} FollowJoins(r: map<Id, Edge>, a: Id, m: nat, n: nat)
    requires Follow(r, a, m).Some?
    ensures Follow(r, a, m + n) == Follow(r, Follow(r, a, m).value, n)
    decreases m
  {
    if m > 0 {
      FollowJoins(r, r[a].successor, m - 1, n);
    }
  }

  /** Adding edges that all point at a grant without a successor creates no way out of that grant. */
  lemma {:induction false} FollowOldEdges(r: map<Id, Edge>, r': map<Id, Edge>, id: Id,
                                          a: Id, b: Id, n: nat)
    requires forall p :: p in r ==> p in r' && r'[p] == r[p]
    requires forall p :: p in r' && p !in r ==> r'[p].successor == id
    requires id !in r' && b != id
    requires Follow(r', a, n) == Some(b)
    ensures Follow(r, a, n) == Some(b)
    decreases n
  {
    if n > 0 {
      assert Follow(r', r'[a].successor, n - 1) == Some(b);
      assert Follow(r', id, n - 1) == if n == 1 then Some(id) else None;
      FollowOldEdges(r, r', id, r[a].successor, b, n - 1);
    }
  }

  ghost predicate LeadsTo(r: map<Id, Edge>, x: Id, a: Id) {
    exists k: nat :: k > 0 && Follow(r, x, k) == Some(a)
  }

  /** Following edges from `a` comes to a grant without a successor. */
  ghost predicate ChainEnds(r: map<Id, Edge>, a: Id) {
    exists n: nat :: Follow(r, a, n).Some? && Follow(r, a, n).value !in r
  }

  lemma {:induction false} OneMore(r: map<Id, Edge>, x: Id, a: Id, k: nat)
    requires a in r && Follow(r, x, k) == Some(a)
    ensures LeadsTo(r, x, r[a].successor)
  {
    FollowJoins(r, x, k, 1);
    assert Follow(r, a, 1) == Follow(r, r[a].successor, 0);
    assert Follow(r, x, k + 1) == Some(r[a].successor);
  }

  /** In an acyclic lineage every chain ends: the grants already seen are never met again. */
  lemma {:induction false} AcyclicChainsEnd(r: map<Id, Edge>, a: Id, seen: set<Id>)
    requires Acyclic(r) && seen <= r.Keys
    requires forall x :: x in seen ==> LeadsTo(r, x, a)
    ensures ChainEnds(r, a)
    decreases r.Keys - seen
  {
    if a !in r {
      assert Follow(r, a, 0) == Some(a);
    } else {
      assert a !in seen;
      var next := r[a].successor;
      assert Follow(r, a, 0) == Some(a);
      OneMore(r, a, a, 0);
      forall x | x in seen ensures LeadsTo(r, x, next) {
        var k: nat :| k > 0 && Follow(r, x, k) == Some(a);
        OneMore(r, x, a, k);
      }
      assert a in (r.Keys - seen) - (r.Keys - (seen + {a}));
      AcyclicChainsEnd(r, next, seen + {a});
      var n: nat :| Follow(r, next, n).Some? && Follow(r, next, n).value !in r;
      assert Follow(r, a, n + 1) == Follow(r, next, n);
    }
  }

  // ---- The invariant -----------------------------------------------------------------------

  ghost predicate AtMostOneActive(grants: Grants) {
    forall a, b ::
      (a in grants && b in grants && grants[a].status.Active? && grants[b].status.Active?
       && SamePair(grants[a], grants[b])) ==> a == b
  }

  /** An edge leads from a revoked grant to a grant of the same client and vault that was activated. */
  ghost predicate EdgeSound(grants: Grants, p: Id, s: Id) {
    && p in grants && grants[p].status.Revoked?
    && s in grants && s != p && SamePair(grants[p], grants[s])
    && grants[s].activatedAt.Some?
  }

  ghost predicate EdgesSound(grants: Grants, r: map<Id, Edge>) {
    forall p :: p in r ==> EdgeSound(grants, p, r[p].successor)
  }

  ghost predicate OnePredecessor(r: map<Id, Edge>) {
    forall p, q :: p in r && q in r && r[p].successor == r[q].successor ==> p == q
  }

  ghost predicate TimesFit(grants: Grants) {
    forall g :: g in grants ==>
      match grants[g].status
      case Pending => grants[g].activatedAt.None? && grants[g].revokedAt.None?
      case Active => grants[g].activatedAt.Some? && grants[g].revokedAt.None?
      case Revoked => grants[g].revokedAt.Some?
  }

  ghost predicate HandoffsGrounded(grants: Grants, handoffs: map<Id, Handoff>) {
    forall h :: h in handoffs && Live(handoffs[h]) ==> HandoffGrounded(grants, handoffs[h])
  }

  ghost predicate Inv(t: Tables) {
    && TimesFit(t.grants)
    && AtMostOneActive(t.grants)
    && EdgesSound(t.grants, t.replacements)
    && OnePredecessor(t.replacements)
    && Acyclic(t.replacements)
    && HandoffsGrounded(t.grants, t.handoffs)
  }

  function Stage(s: Status): nat {
    match s case Pending => 0 case Active => 1 case Revoked => 2
  }

  /** A grant keeps its identity, and its status only moves forward. */
  ghost predicate Onward(a: Grant, b: Grant) {
    && SamePair(a, b) && b.audience == a.audience && b.terms == a.terms && b.createdAt == a.createdAt
    && Stage(a.status) <= Stage(b.status)
    && (a.activatedAt.Some? ==> b.activatedAt == a.activatedAt)
  }

  ghost predicate Forward(grants: Grants, grants': Grants) {
    forall g :: g in grants ==> g in grants' && Onward(grants[g], grants'[g])
  }

  ghost predicate EdgesKept(r: map<Id, Edge>, r': map<Id, Edge>) {
    forall p :: p in r ==> p in r' && r'[p] == r[p]
  }

  lemma {:induction false} KeptAgain(a: map<Id, Edge>, b: map<Id, Edge>, c: map<Id, Edge>)
    requires EdgesKept(a, b) && EdgesKept(b, c)
    ensures EdgesKept(a, c)
  {
  }

  /** Edges are never lost or changed, and only a grant that was active gains one. */
  ghost predicate EdgesGrow(t: Tables, t': Tables) {
    && EdgesKept(t.replacements, t'.replacements)
    && (forall p :: p in t'.replacements && p !in t.replacements ==> p in t.grants && t.grants[p].status.Active?)
  }

  lemma {:induction false} EdgesStaySound(grants: Grants, grants': Grants, r: map<Id, Edge>)
    requires EdgesSound(grants, r) && Forward(grants, grants')
    ensures EdgesSound(grants', r)
  {
  }

  // ---- Activation keeps it -----------------------------------------------------------------

  lemma {:induction false} DisplacedIsActive(t: Tables, id: Id, p: Id)
    requires TimesFit(t.grants) && AtMostOneActive(t.grants) && EdgesSound(t.grants, t.replacements)
    requires Displaced(t, id, p)
    ensures p !in t.replacements && Activates(t, id) && id !in t.replacements
    ensures forall q :: q in t.replacements ==> t.replacements[q].successor != id
    ensures forall q :: Displaced(t, id, q) ==> q == p
  {
    assert p in t.replacements ==> EdgeSound(t.grants, p, t.replacements[p].successor);
    assert id in t.replacements ==> EdgeSound(t.grants, id, t.replacements[id].successor);
    forall q | q in t.replacements ensures t.replacements[q].successor != id {
      assert EdgeSound(t.grants, q, t.replacements[q].successor);
    }
  }

  lemma {:induction false} OneEdgeTo(r: map<Id, Edge>, keys: set<Id>, p: Id, id: Id, now: int)
    requires p in keys
    ensures r + EdgesTo(keys, {p}, id, now) == r[p := Edge(id, now)]
  {
  }

  lemma {:induction false} NoEdgeTo(r: map<Id, Edge>, keys: set<Id>, id: Id, now: int)
    ensures r + EdgesTo(keys, {}, id, now) == r
  {
  }

  /** A rotation adds exactly one edge, from the displaced grant to the activated one. */
  lemma {:induction false} ActivationEdges(t: Tables, id: Id, now: int)
    requires TimesFit(t.grants) && AtMostOneActive(t.grants) && EdgesSound(t.grants, t.replacements)
    ensures var r := Activated(t, id, now).replacements;
            || (r == t.replacements && forall p :: !Displaced(t, id, p))
            || (exists p :: Displaced(t, id, p) && r == t.replacements[p := Edge(id, now)])
  {
    var gaining := set p | p in t.grants && Displaced(t, id, p) && p !in t.replacements;
    if p :| Displaced(t, id, p) {
      DisplacedIsActive(t, id, p);
      assert gaining == {p};
      OneEdgeTo(t.replacements, t.grants.Keys, p, id, now);
    } else {
      assert gaining == {};
      NoEdgeTo(t.replacements, t.grants.Keys, id, now);
    }
  }

  lemma {:induction false} OneMoreEdge(r: map<Id, Edge>, p: Id, id: Id, now: int)
    requires p !in r && id !in r && p != id && OnePredecessor(r) && Acyclic(r)
    requires forall q :: q in r ==> r[q].successor != id
    ensures OnePredecessor(r[p := Edge(id, now)]) && Acyclic(r[p := Edge(id, now)])
  {
    var r' := r[p := Edge(id, now)];
    forall a, n: nat | n > 0 ensures Follow(r', a, n) != Some(a) {
      if Follow(r', a, n) == Some(a) {
        assert a in r';
        FollowOldEdges(r, r', id, a, a, n);
      }
    }
  }

  lemma {:induction false} ActivationMovesForward(t: Tables, id: Id, now: int)
    requires TimesFit(t.grants)
    ensures Forward(t.grants, GrantsAfterActivation(t, id, now)) && TimesFit(GrantsAfterActivation(t, id, now))
  {
  }

  lemma {:induction false} ActivationLeavesOneActive(t: Tables, id: Id, now: int)
    requires AtMostOneActive(t.grants)
    ensures AtMostOneActive(GrantsAfterActivation(t, id, now))
  {
  }

  lemma {:induction false} NewEdgeIsSound(t: Tables, id: Id, p: Id, now: int)
    requires TimesFit(t.grants) && Displaced(t, id, p)
    ensures EdgeSound(GrantsAfterActivation(t, id, now), p, id)
  {
  }

  lemma {:induction false} OneMoreSound(grants: Grants, r: map<Id, Edge>, p: Id, id: Id, now: int)
    requires EdgesSound(grants, r) && EdgeSound(grants, p, id)
    ensures EdgesSound(grants, r[p := Edge(id, now)])
  {
  }

  lemma {:induction false} ActivationKeepsEdges(t: Tables, id: Id, now: int)
    requires TimesFit(t.grants) && AtMostOneActive(t.grants) && EdgesSound(t.grants, t.replacements)
    requires OnePredecessor(t.replacements) && Acyclic(t.replacements)
    ensures var t' := Activated(t, id, now);
            EdgesSound(t'.grants, t'.replacements) && OnePredecessor(t'.replacements) && Acyclic(t'.replacements)
  {
    var t' := Activated(t, id, now);
    ActivationMovesForward(t, id, now);
    EdgesStaySound(t.grants, t'.grants, t.replacements);
    ActivationEdges(t, id, now);
    if p :| Displaced(t, id, p) && t'.replacements == t.replacements[p := Edge(id, now)] {
      DisplacedIsActive(t, id, p);
      OneMoreEdge(t.replacements, p, id, now);
      NewEdgeIsSound(t, id, p, now);
      OneMoreSound(t'.grants, t.replacements, p, id, now);
    }
  }

  lemma {:induction false} ActivationKeepsHandoffs(t: Tables, id: Id, now: int)
    requires TimesFit(t.grants) && HandoffsGrounded(t.grants, t.handoffs)
    ensures HandoffsGrounded(GrantsAfterActivation(t, id, now), HandoffsAfterActivation(t, id, now))
  {
    var handoffs := HandoffsAfterActivation(t, id, now);
    var grants := GrantsAfterActivation(t, id, now);
    forall h | h in handoffs && Live(handoffs[h]) ensures HandoffGrounded(grants, handoffs[h]) {
      assert HandoffGrounded(t.grants, t.handoffs[h]);
    }
  }

  lemma {:induction false} ActivationKeepsInv(t: Tables, id: Id, now: int)
    requires Inv(t)
    ensures Inv(Activated(t, id, now))
  {
    ActivationMovesForward(t, id, now);
    ActivationLeavesOneActive(t, id, now);
    ActivationKeepsEdges(t, id, now);
    ActivationKeepsHandoffs(t, id, now);
  }

  /** Activating a grant that is not pending, in particular a second time, changes nothing. */
  lemma {:induction false} ActivationIsIdempotent(t: Tables, id: Id, now: int)
    requires Inv(t) && !Activates(t, id)
    ensures Activated(t, id, now) == t
  {
    ActivationEdges(t, id, now);
    forall p ensures !Displaced(t, id, p) {
      if Displaced(t, id, p) {
        DisplacedIsActive(t, id, p);
      }
    }
    forall h | h in t.handoffs && Live(t.handoffs[h]) ensures !Superseded(t, id, t.handoffs[h].grant) {
      assert HandoffGrounded(t.grants, t.handoffs[h]);
    }
    assert GrantsAfterActivation(t, id, now) == t.grants;
    assert HandoffsAfterActivation(t, id, now) == t.handoffs;
  }

  // ---- Every other step keeps it -----------------------------------------------------------

  lemma {:induction false} RevocationMovesForward(t: Tables, scope: Scope, now: int)
    ensures Forward(t.grants, GrantsAfterRevocation(t, scope, now))
    ensures TimesFit(t.grants) ==> TimesFit(GrantsAfterRevocation(t, scope, now))
  {
  }

  lemma {:induction false} RevocationKeepsHandoffs(t: Tables, scope: Scope, now: int)
    requires HandoffsGrounded(t.grants, t.handoffs)
    ensures HandoffsGrounded(GrantsAfterRevocation(t, scope, now), HandoffsAfterRevocation(t, scope, now))
  {
    var handoffs := HandoffsAfterRevocation(t, scope, now);
    var grants := GrantsAfterRevocation(t, scope, now);
    forall h | h in handoffs && Live(handoffs[h]) ensures HandoffGrounded(grants, handoffs[h]) {
      assert HandoffGrounded(t.grants, t.handoffs[h]);
      assert !InScope(t, scope, t.handoffs[h].grant);
    }
  }

  lemma {:induction false} RevocationKeepsInv(t: Tables, scope: Scope, now: int)
    requires Inv(t)
    ensures Inv(RevokedIn(t, scope, now))
  {
    RevocationMovesForward(t, scope, now);
    EdgesStaySound(t.grants, GrantsAfterRevocation(t, scope, now), t.replacements);
    RevocationKeepsHandoffs(t, scope, now);
  }

  /** Steps that neither revoke nor activate: handoffs stay grounded when active grants stay active. */
  lemma {:induction false} GrantRowKeepsInv(t: Tables, t': Tables, id: Id)
    requires Inv(t) && t'.replacements == t.replacements && t'.handoffs == t.handoffs
    requires id in t'.grants && t'.grants == t.grants[id := t'.grants[id]]
    requires if id in t.grants
             then t'.grants[id].(lastUsedAt := t.grants[id].lastUsedAt) == t.grants[id]
             else t'.grants[id].status.Pending? && t'.grants[id].activatedAt.None? && t'.grants[id].revokedAt.None?
    ensures Inv(t')
  {
    assert Forward(t.grants, t'.grants);
    EdgesStaySound(t.grants, t'.grants, t.replacements);
    assert forall h :: h in t.handoffs && Live(t.handoffs[h]) ==> HandoffGrounded(t.grants, t.handoffs[h]);
  }

  lemma {:induction false} ElsewhereKeepsInv(t: Tables, t': Tables)
    requires Inv(t) && MadeElsewhere(t, t')
    ensures Inv(t')
  {
  }

  /** Every single batch, and every change made elsewhere, keeps the invariant. */
  lemma {:induction false} StepKeepsInv(t: Tables, e: Event, t': Tables)
    requires Inv(t) && Step(t, e, t')
    ensures Inv(t')
  {
    match e
    case Activate(id, now) => ActivationKeepsInv(t, id, now);
    case Revoke(scope, now) => RevocationKeepsInv(t, scope, now);
    case CreatePending(id, _, vault, _, _, _) =>
      if CreatesPending(t, id, vault) {
        GrantRowKeepsInv(t, t', id);
      }
    case Touch(id, _) =>
      if t' != t {
        GrantRowKeepsInv(t, t', id);
      }
    case Elsewhere => ElsewhereKeepsInv(t, t');
    case CreateFlow(_, _, _) =>
    case ConsumeFlow(_, _, _, _) =>
  }

  lemma {:induction false} ActivationGrowsEdges(t: Tables, id: Id, now: int)
    requires TimesFit(t.grants) && AtMostOneActive(t.grants) && EdgesSound(t.grants, t.replacements)
    ensures EdgesGrow(t, Activated(t, id, now))
  {
    ActivationEdges(t, id, now);
    if p :| Displaced(t, id, p) {
      DisplacedIsActive(t, id, p);
    }
  }

  lemma {:induction false} OtherRowsMoveForward(grants: Grants, grants': Grants, id: Id)
    requires id in grants' && grants' == grants[id := grants'[id]]
    requires id in grants ==> Onward(grants[id], grants'[id])
    ensures Forward(grants, grants')
  {
  }

  lemma {:induction false} StepMovesForward(t: Tables, e: Event, t': Tables)
    requires TimesFit(t.grants) && Step(t, e, t')
    ensures Forward(t.grants, t'.grants)
  {
    match e
    case Activate(id, now) => ActivationMovesForward(t, id, now);
    case Revoke(scope, now) => RevocationMovesForward(t, scope, now);
    case CreatePending(id, client, vault, audience, terms, now) =>
      if CreatesPending(t, id, vault) {
        OtherRowsMoveForward(t.grants, t'.grants, id);
      }
    case Touch(id, now) =>
      if t' != t {
        OtherRowsMoveForward(t.grants, t'.grants, id);
      }
    case _ =>
  }

  lemma {:induction false} StepGrowsEdges(t: Tables, e: Event, t': Tables)
    requires Inv(t) && Step(t, e, t')
    ensures EdgesGrow(t, t')
  {
    match e
    case Activate(id, now) => ActivationGrowsEdges(t, id, now);
    case _ =>
  }

  // ---- Runs --------------------------------------------------------------------------------

  const EMPTY := Tables(map[], map[], map[], map[], map[], {}, {}, {})

  /** A run from empty tables: `ts[i]` is the state before event `es[i]`. */
  ghost predicate Run(ts: seq<Tables>, es: seq<Event>) {
    && |ts| == |es| + 1 && ts[0] == EMPTY
    && (forall i :: 0 <= i < |es| ==> Step(ts[i], es[i], ts[i + 1]))
  }

  lemma {:induction false} RunKeepsInv(ts: seq<Tables>, es: seq<Event>, i: nat)
    requires Run(ts, es) && i < |ts|
    ensures Inv(ts[i])
  {
    if i > 0 {
      RunKeepsInv(ts, es, i - 1);
      StepKeepsInv(ts[i - 1], es[i - 1], ts[i]);
    } else {
      forall a, n: nat | n > 0 ensures Follow(EMPTY.replacements, a, n) != Some(a) {
      }
    }
  }

  lemma {:induction false} RunStepsForward(ts: seq<Tables>, es: seq<Event>, n: nat)
    requires Run(ts, es) && n < |es|
    ensures Forward(ts[n].grants, ts[n + 1].grants) && EdgesKept(ts[n].replacements, ts[n + 1].replacements)
  {
    RunKeepsInv(ts, es, n);
    StepMovesForward(ts[n], es[n], ts[n + 1]);
    StepGrowsEdges(ts[n], es[n], ts[n + 1]);
  }

  lemma {:induction false} ForwardAgain(a: Grants, b: Grants, c: Grants)
    requires Forward(a, b) && Forward(b, c)
    ensures Forward(a, c)
  {
  }

  /** Over every run statuses only move pending, active, revoked, and edges are never lost or changed. */
  lemma {:induction false} RunMovesForward(ts: seq<Tables>, es: seq<Event>, i: nat, j: nat)
    requires Run(ts, es) && i <= j < |ts|
    ensures Forward(ts[i].grants, ts[j].grants) && EdgesKept(ts[i].replacements, ts[j].replacements)
    decreases j
  {
    if i < j {
      RunMovesForward(ts, es, i, j - 1);
      RunStepsForward(ts, es, j - 1);
      ForwardAgain(ts[i].grants, ts[j - 1].grants, ts[j].grants);
      KeptAgain(ts[i].replacements, ts[j - 1].replacements, ts[j].replacements);
    }
  }

  /** At every point of every run: one active grant per pair, and disjoint, finite replacement chains. */
  lemma {:induction false} LineageOverRuns(ts: seq<Tables>, es: seq<Event>, i: nat)
    requires Run(ts, es) && i < |ts|
    ensures AtMostOneActive(ts[i].grants)
    ensures OnePredecessor(ts[i].replacements) && Acyclic(ts[i].replacements)
    ensures EdgesSound(ts[i].grants, ts[i].replacements)
    ensures HandoffsGrounded(ts[i].grants, ts[i].handoffs)
    ensures forall a :: ChainEnds(ts[i].replacements, a)
  {
    RunKeepsInv(ts, es, i);
    forall a ensures ChainEnds(ts[i].replacements, a) {
      AcyclicChainsEnd(ts[i].replacements, a, {});
    }
  }

  /** An explicitly revoked grant stays revoked and never gains a successor. */
  lemma {:induction false} ExplicitRevocationIsFinal(ts: seq<Tables>, es: seq<Event>, g: Id, i: nat, j: nat)
    requires Run(ts, es) && i <= j < |ts|
    requires g in ts[i].grants && ts[i].grants[g].status.Revoked? && g !in ts[i].replacements
    ensures g in ts[j].grants && ts[j].grants[g].status.Revoked? && g !in ts[j].replacements
    ensures forall n: nat :: n > 0 ==> Follow(ts[j].replacements, g, n).None?
    decreases j
  {
    if i < j {
      ExplicitRevocationIsFinal(ts, es, g, i, j - 1);
      RunKeepsInv(ts, es, j - 1);
      StepMovesForward(ts[j - 1], es[j - 1], ts[j]);
      StepGrowsEdges(ts[j - 1], es[j - 1], ts[j]);
    }
  }

  /** `es[i]` is the rotation that revoked `g`: another grant of its pair was activated. */
  ghost predicate RotatedAway(ts: seq<Tables>, es: seq<Event>, g: Id, i: nat)
    requires i < |es| && |ts| == |es| + 1
  {
    && es[i].Activate? && Activates(ts[i], es[i].id) && Displaced(ts[i], es[i].id, g)
    && g in ts[i + 1].replacements && ts[i + 1].replacements[g].successor == es[i].id
  }

  lemma {:induction false} NewEdgeMeansRotation(ts: seq<Tables>, es: seq<Event>, g: Id, i: nat)
    requires Run(ts, es) && i < |es|
    requires g !in ts[i].replacements && g in ts[i + 1].replacements
    ensures RotatedAway(ts, es, g, i)
  {
    RunKeepsInv(ts, es, i);
    assert Step(ts[i], es[i], ts[i + 1]);
    assert es[i].Activate?;
    ActivationEdges(ts[i], es[i].id, es[i].now);
    DisplacedIsActive(ts[i], es[i].id, g);
  }

  lemma {:induction false} RotationLeavesAnEdge(ts: seq<Tables>, es: seq<Event>, g: Id, i: nat, j: nat)
    requires Run(ts, es) && i < j < |ts| && RotatedAway(ts, es, g, i)
    ensures g in ts[j].replacements && ts[j].replacements[g].successor == es[i].id
  {
    RunMovesForward(ts, es, i + 1, j);
  }

  lemma {:induction false} SuccessorMeansRotation(ts: seq<Tables>, es: seq<Event>, g: Id, j: nat) returns (i: nat)
    requires Run(ts, es) && j < |ts| && g in ts[j].replacements
    ensures i < j && RotatedAway(ts, es, g, i)
  {
    assert j > 0;
    i := j - 1;
    if g in ts[i].replacements {
      i := SuccessorMeansRotation(ts, es, g, j - 1);
    } else {
      NewEdgeMeansRotation(ts, es, g, i);
    }
  }

  /** A grant has a successor exactly when a rotation, and not a revocation, ended it. */
  lemma {:induction false} SuccessorIffRotated(ts: seq<Tables>, es: seq<Event>, g: Id, j: nat)
    requires Run(ts, es) && j < |ts|
    ensures g in ts[j].replacements <==> exists i: nat :: i < j && RotatedAway(ts, es, g, i)
  {
    if g in ts[j].replacements {
      var i := SuccessorMeansRotation(ts, es, g, j);
    } else if i: nat :| i < j && RotatedAway(ts, es, g, i) {
      RotationLeavesAnEdge(ts, es, g, i, j);
    }
  }

  /** Revoke-all ends every grant there is, for good, together with every live handoff. */
  lemma {:induction false} RevokeAllIsFinal(ts: seq<Tables>, es: seq<Event>, i: nat, j: nat)
    requires Run(ts, es) && i < j < |ts| && es[i].Revoke? && es[i].scope.Everything?
    ensures forall g :: g in ts[i].grants ==> g in ts[j].grants && ts[j].grants[g].status.Revoked?
    ensures var t, t' := ts[i], ts[i + 1];
            && (forall h :: h in t'.handoffs ==> !Live(t'.handoffs[h]))
            && (forall c :: c in t.collaborations && t.collaborations[c].source in t.grants
                            && Unrevoked(t.grants[t.collaborations[c].source])
                            ==> t'.collaborations[c].status.Revoked?)
  {
    assert Step(ts[i], es[i], ts[i + 1]);
    forall g | g in ts[i].grants ensures g in ts[j].grants && ts[j].grants[g].status.Revoked? {
      assert ts[i + 1].grants[g].status.Revoked?;
      RunMovesForward(ts, es, i + 1, j);
    }
  }

  /** A single revocation ends the grant for good and every collaboration and handoff built on it. */
  lemma {:induction false} RevocationIsFinal(ts: seq<Tables>, es: seq<Event>, i: nat, j: nat, g: Id)
    requires Run(ts, es) && i < j < |ts| && es[i].Revoke? && es[i].scope == One(g) && g in ts[i].grants
    ensures g in ts[j].grants && ts[j].grants[g].status.Revoked?
    ensures ts[i].grants[g].status.Revoked? || g !in ts[j].replacements
    ensures var t' := ts[i + 1];
            && (forall h :: h in t'.handoffs && t'.handoffs[h].grant == g ==> !Live(t'.handoffs[h]))
            && (forall c :: c in t'.collaborations && t'.collaborations[c].source == g
                            ==> t'.collaborations[c].status.Revoked?)
  {
    assert Step(ts[i], es[i], ts[i + 1]);
    RunKeepsInv(ts, es, i);
    RunMovesForward(ts, es, i + 1, j);
    if !ts[i].grants[g].status.Revoked? {
      assert g !in ts[i].replacements by {
        assert g in ts[i].replacements ==> EdgeSound(ts[i].grants, g, ts[i].replacements[g].successor);
      }
      ExplicitRevocationIsFinal(ts, es, g, i + 1, j);
    }
  }

  /** What a rotation does: the one active grant of the pair, if any, hands over to the activated one. */
  lemma {:induction false} RotationHandsOver(t: Tables, id: Id, now: int, p: Id)
    requires Inv(t) && Activates(t, id)
    requires p in t.grants && p != id && t.grants[p].status.Active? && SamePair(t.grants[p], t.grants[id])
    ensures var t' := Activated(t, id, now);
            && t'.grants[id].status.Active? && t'.grants[p].status.Revoked? && t'.grants[p].revokedAt == Some(now)
            && t'.replacements == t.replacements[p := Edge(id, now)]
            && (forall g :: g in t.grants && g != id && g != p ==> t'.grants[g] == t.grants[g])
            && (forall h :: h in t.handoffs && t.handoffs[h].grant == p ==> !Live(t'.handoffs[h]))
            && (forall h :: h in t.handoffs && t.handoffs[h].grant != p ==> t'.handoffs[h] == t.handoffs[h])
            && t'.collaborations == t.collaborations
  {
    assert Displaced(t, id, p);
    DisplacedIsActive(t, id, p);
    ActivationEdges(t, id, now);
    forall h | h in t.handoffs && Live(t.handoffs[h]) && t.handoffs[h].grant != p
      ensures !Superseded(t, id, t.handoffs[h].grant)
    {
      assert HandoffGrounded(t.grants, t.handoffs[h]);
    }
  }

  /** The terms of a grant never change, so an edge joins what its rotation joined. */
  lemma {:induction false} RotationFixesTerms(ts: seq<Tables>, es: seq<Event>, g: Id, i: nat, j: nat)
    requires Run(ts, es) && i < j < |ts| && RotatedAway(ts, es, g, i)
    ensures g in ts[j].replacements && ts[j].replacements[g].successor == es[i].id
    ensures g in ts[j].grants && es[i].id in ts[j].grants
    ensures ts[j].grants[g].terms == ts[i].grants[g].terms
    ensures ts[j].grants[es[i].id].terms == ts[i].grants[es[i].id].terms
  {
    RotationLeavesAnEdge(ts, es, g, i, j);
    RunMovesForward(ts, es, i, j);
  }

  /** The grants that an edge joins were granted on the same terms. */
  ghost predicate JoinsEqualTerms(t: Tables, p: Id) {
    && p in t.replacements && p in t.grants && t.replacements[p].successor in t.grants
    && t.grants[p].terms == t.grants[t.replacements[p].successor].terms
  }

  /**
   * An edge says nothing about the terms of its two grants: all edges join equal terms exactly when
   * every activation that displaced a grant was on the terms of that grant.
   */
  lemma {:induction false} EdgesJoinEqualTermsIff(ts: seq<Tables>, es: seq<Event>, j: nat)
    requires Run(ts, es) && j < |ts|
    ensures (forall p <- ts[j].replacements :: JoinsEqualTerms(ts[j], p)) <==>
            (forall i: nat, g :: i < j && RotatedAway(ts, es, g, i) ==>
               ts[i].grants[g].terms == ts[i].grants[es[i].id].terms)
  {
    if forall p <- ts[j].replacements :: JoinsEqualTerms(ts[j], p) {
      forall i: nat, g | i < j && RotatedAway(ts, es, g, i)
        ensures ts[i].grants[g].terms == ts[i].grants[es[i].id].terms
      {
        RotationFixesTerms(ts, es, g, i, j);
        assert JoinsEqualTerms(ts[j], g);
      }
    }
    if forall i: nat, g :: i < j && RotatedAway(ts, es, g, i) ==>
         ts[i].grants[g].terms == ts[i].grants[es[i].id].terms
    {
      forall p <- ts[j].replacements ensures JoinsEqualTerms(ts[j], p) {
        var i := SuccessorMeansRotation(ts, es, p, j);
        RotationFixesTerms(ts, es, p, i, j);
      }
    }
  }

  lemma {:induction false} OneMoreStep(ts: seq<Tables>, es: seq<Event>, e: Event, t: Tables)
    returns (more: seq<Tables>, events: seq<Event>)
    requires Run(ts, es) && Step(ts[|es|], e, t)
    ensures Run(more, events) && |more| == |ts| + 1 && more[|ts|] == t
  {
    more, events := ts + [t], es + [e];
  }

  lemma {:induction false} LoneGrantActivates(t: Tables, id: Id, now: int)
    requires Activates(t, id) && t.grants.Keys == {id} && t.replacements == map[] && t.handoffs == map[]
    ensures Activated(t, id, now)
         == t.(grants := map[id := t.grants[id].(status := Active, activatedAt := Some(now))])
  {
    assert forall p :: !Displaced(t, id, p);
    assert Activated(t, id, now).replacements == map[];
    assert Activated(t, id, now).handoffs == map[];
  }

  lemma {:induction false} DisplacingLeavesAnEdge(t: Tables, id: Id, now: int, p: Id)
    requires Displaced(t, id, p) && p !in t.replacements
    ensures var t' := Activated(t, id, now);
            && p in t'.replacements && t'.replacements[p] == Edge(id, now)
            && p in t'.grants && t'.grants[p].terms == t.grants[p].terms
            && id in t'.grants && t'.grants[id].terms == t.grants[id].terms
  {
  }

  /** Client and vault alone make a rotation: on any two terms there is a run that leaves an edge. */
  lemma {:induction false} EdgeBetweenAnyTerms(a: Id, b: Id, client: Id, vault: Id, audience: Id, x: Id, y: Id)
    returns (ts: seq<Tables>, es: seq<Event>)
    requires a != b
    ensures Run(ts, es) && |ts| == 6
    ensures a in ts[5].replacements && ts[5].replacements[a].successor == b
    ensures a in ts[5].grants && ts[5].grants[a].terms == x
    ensures b in ts[5].grants && ts[5].grants[b].terms == y
  {
    ts, es := [EMPTY], [];
    var t1 := EMPTY.(activeVaults := {vault});
    var t2 := PendingCreated(t1, a, client, vault, audience, x, 0);
    var t3 := Activated(t2, a, 0);
    var t4 := PendingCreated(t3, b, client, vault, audience, y, 0);
    var t5 := Activated(t4, b, 0);
    ts, es := OneMoreStep(ts, es, Elsewhere, t1);
    ts, es := OneMoreStep(ts, es, CreatePending(a, client, vault, audience, x, 0), t2);
    ts, es := OneMoreStep(ts, es, Activate(a, 0), t3);
    ts, es := OneMoreStep(ts, es, CreatePending(b, client, vault, audience, y, 0), t4);
    ts, es := OneMoreStep(ts, es, Activate(b, 0), t5);
    LoneGrantActivates(t2, a, 0);
    DisplacingLeavesAnEdge(t4, b, 0, a);
  }

  /** A grant that can be read was activated by exactly one event of the run. */
  lemma {:induction false} ActivatedOnce(ts: seq<Tables>, es: seq<Event>, g: Id, j: nat)
    requires Run(ts, es) && j < |ts| && g in ts[j].grants && ts[j].grants[g].activatedAt.Some?
    ensures exists i: nat :: i < j && es[i].Activate? && es[i].id == g && Activates(ts[i], g)
    ensures forall i: nat, k: nat :: i < k < j && es[i].Activate? && es[i].id == g && Activates(ts[i], g)
              ==> !Activates(ts[k], g)
  {
    RunKeepsInv(ts, es, j);
    forall i: nat, k: nat | i < k < j && es[i].Activate? && es[i].id == g && Activates(ts[i], g)
      ensures !Activates(ts[k], g)
    {
      assert Step(ts[i], es[i], ts[i + 1]);
      assert ts[i + 1].grants[g].status.Active?;
      RunMovesForward(ts, es, i + 1, k);
    }
    var i := j - 1;
    RunKeepsInv(ts, es, i);
    assert Step(ts[i], es[i], ts[j]);
    if !(es[i].Activate? && es[i].id == g && Activates(ts[i], g)) {
      ActivatedOnce(ts, es, g, i);
    }
  }
}
