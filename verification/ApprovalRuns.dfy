/**
 * The vault approval handler (agent-access-routes.ts), cut at every await into separate moves and
 * interleaved with other approvals, denials, owner revocations and changes made by other stores.
 * A handler may stop forever between two moves: a run in which it makes no further move.
 */
module ApprovalRuns {
  import opened Common
  import opened Tickets
  import opened AgentAccessStore
  import GrantRuns

  /** Where one POST /api/agent/oauth/approve request stands. */
  datatype Approval =
    | Waiting(hash: Id, session: Id)                // nothing done yet
    | Reviewing(hash: Id, consent: Consent)         // flow consumed, checks under way
    | Authorizing(hash: Id, grant: Id)              // pending grant inserted, completeAuthorization called
    | Undoing(hash: Id, grant: Id)                  // completeAuthorization threw
    | Activating(hash: Id, grant: Id)               // completeAuthorization returned
    | Unanswered(hash: Id, grant: Id)               // the grant was activated, no answer yet
    | Failing(hash: Id, grant: Id)                  // the grant is revoked, no answer yet
    | Succeeded(hash: Id, grant: Id)                // answered with the redirect
    | Failed(hash: Id, grant: Id)                   // answered 503 authorization_failed
    | Refused(hash: Id)                             // answered with an error before a grant existed

  /** Holds a grant whose activation is still to come. */
  predicate InFlight(p: Approval) {
    p.Authorizing? || p.Undoing? || p.Activating?
  }

  /** Its activation turned the grant active. */
  predicate Passed(p: Approval) {
    p.Unanswered? || p.Succeeded?
  }

  predicate GaveUp(p: Approval) {
    p.Failing? || p.Failed?
  }

  predicate HasGrant(p: Approval) {
    InFlight(p) || Passed(p) || GaveUp(p)
  }

  predicate UsedFlow(p: Approval) {
    p.Reviewing? || HasGrant(p)
  }

  datatype Move =
    | Issue(hash: Id, consent: Consent, now: int)
    | Arrive(pid: nat, hash: Id, session: Id)
    | Consume(pid: nat, now: int)
    | Refuse(pid: nat)
    | Create(pid: nat, id: Id, vault: Id, audience: Id, terms: Id, now: int)
    | OAuthCompletes(pid: nat)
    | OAuthFails(pid: nat)
    | Undo(pid: nat, now: int)
    | Finish(pid: nat, now: int)
    | Answer(pid: nat)
    | Deny(hash: Id, session: Id, now: int)
    | OwnerRevokes(scope: Scope, now: int)
    | Touch(id: Id, now: int)
    | Other

  /**
   * The tables and the requests, with three records of the past that no code reads: the token hashes
   * issued, the decision each spent one was used with, and the request that inserted each grant.
   */
  datatype World = World(t: Tables, approvals: map<nat, Approval>,
                         issued: set<Id>, spent: map<Id, Decision>, inserter: map<Id, nat>)

  /** What a move asks of the request it belongs to. */
  ghost predicate Enabled(w: World, m: Move) {
    match m
    case Issue(hash, _, _) => hash !in w.issued
    case Arrive(pid, _, _) => pid !in w.approvals
    case Consume(pid, _) => pid in w.approvals && w.approvals[pid].Waiting?
    case Refuse(pid) => pid in w.approvals && w.approvals[pid].Reviewing?
    case Create(pid, _, _, _, _, _) => pid in w.approvals && w.approvals[pid].Reviewing?
    case OAuthCompletes(pid) => pid in w.approvals && w.approvals[pid].Authorizing?
    case OAuthFails(pid) => pid in w.approvals && w.approvals[pid].Authorizing?
    case Undo(pid, _) => pid in w.approvals && w.approvals[pid].Undoing?
    case Finish(pid, _) => pid in w.approvals && w.approvals[pid].Activating?
    case Answer(pid) => pid in w.approvals && (w.approvals[pid].Unanswered? || w.approvals[pid].Failing?)
    case _ => true
  }

  /** The batch a move runs on the tables. */
  ghost function Batch(w: World, m: Move): GrantRuns.Event {
    if !Enabled(w, m) then GrantRuns.Elsewhere else
    match m
    case Issue(hash, consent, now) => GrantRuns.CreateFlow(hash, consent, now)
    case Consume(pid, now) =>
      GrantRuns.ConsumeFlow(w.approvals[pid].hash, w.approvals[pid].session, Approved, now)
    case Create(pid, id, vault, audience, terms, now) =>
      GrantRuns.CreatePending(id, w.approvals[pid].consent.client, vault, audience, terms, now)
    case Undo(pid, now) => GrantRuns.Revoke(One(w.approvals[pid].grant), now)
    case Finish(pid, now) => GrantRuns.Activate(w.approvals[pid].grant, now)
    case Deny(hash, session, now) => GrantRuns.ConsumeFlow(hash, session, Denied, now)
    case OwnerRevokes(scope, now) => GrantRuns.Revoke(scope, now)
    case Touch(id, now) => GrantRuns.Touch(id, now)
    case _ => GrantRuns.Elsewhere
  }

  ghost function ApprovalsAfter(w: World, m: Move): map<nat, Approval>
    requires Enabled(w, m)
  {
    match m
    case Arrive(pid, hash, session) => w.approvals[pid := Waiting(hash, session)]
    case Consume(pid, now) =>
      var p := w.approvals[pid];
      w.approvals[pid := if ConsumesFlow(w.t, p.hash, p.session, now)
                         then Reviewing(p.hash, w.t.flows[p.hash].body) else Refused(p.hash)]
    case Refuse(pid) => w.approvals[pid := Refused(w.approvals[pid].hash)]
    case Create(pid, id, vault, _, _, _) =>
      var p := w.approvals[pid];
      w.approvals[pid := if CreatesPending(w.t, id, vault) then Authorizing(p.hash, id) else Refused(p.hash)]
    case OAuthCompletes(pid) => w.approvals[pid := Activating(w.approvals[pid].hash, w.approvals[pid].grant)]
    case OAuthFails(pid) => w.approvals[pid := Undoing(w.approvals[pid].hash, w.approvals[pid].grant)]
    case Undo(pid, _) => w.approvals[pid := Failing(w.approvals[pid].hash, w.approvals[pid].grant)]
    case Finish(pid, _) =>
      var p := w.approvals[pid];
      w.approvals[pid := if Activates(w.t, p.grant) then Unanswered(p.hash, p.grant) else Failing(p.hash, p.grant)]
    case Answer(pid) =>
      var p := w.approvals[pid];
      w.approvals[pid := if p.Unanswered? then Succeeded(p.hash, p.grant) else Failed(p.hash, p.grant)]
    case _ => w.approvals
  }

  /** The token hash a move consumes, if it does. */
  ghost function Spends(w: World, m: Move): Option<(Id, Decision)>
    requires Enabled(w, m)
  {
    match m
    case Consume(pid, now) =>
      var p := w.approvals[pid];
      if ConsumesFlow(w.t, p.hash, p.session, now) then Some((p.hash, Approved)) else None
    case Deny(hash, session, now) => if ConsumesFlow(w.t, hash, session, now) then Some((hash, Denied)) else None
    case _ => None
  }

  /** What a move does to everything but the tables. */
  ghost predicate Records(w: World, m: Move, w': World)
    requires Enabled(w, m)
  {
    && w'.approvals == ApprovalsAfter(w, m)
    && w'.issued == (if m.Issue? then w.issued + {m.hash} else w.issued)
    && w'.spent == (if Spends(w, m).Some? then w.spent[Spends(w, m).value.0 := Spends(w, m).value.1] else w.spent)
    && w'.inserter == (if m.Create? && CreatesPending(w.t, m.id, m.vault)
                       then w.inserter[m.id := m.pid] else w.inserter)
  }

  ghost predicate Next(w: World, m: Move, w': World) {
    && Enabled(w, m)
    && GrantRuns.Step(w.t, Batch(w, m), w'.t)
    && (Batch(w, m).Elsewhere? && !m.Other? ==> w'.t == w.t)
    && Records(w, m, w')
  }

  // ---- The invariant -----------------------------------------------------------------------

  /** A grant is active only if its own request activated it; a failing request's grant is revoked. */
  ghost predicate PhaseFits(p: Approval, g: Grant) {
    && (InFlight(p) ==> g.activatedAt.None? && !g.status.Active?)
    && (Passed(p) ==> g.activatedAt.Some? && !g.status.Pending?)
    && (GaveUp(p) ==> g.status.Revoked? && g.activatedAt.None?)
  }

  /** Grant `g` was inserted by the request that now holds it. */
  ghost predicate Held(w: World, g: Id) {
    && g in w.inserter && g in w.t.grants && w.inserter[g] in w.approvals
    && HasGrant(w.approvals[w.inserter[g]]) && w.approvals[w.inserter[g]].grant == g
    && PhaseFits(w.approvals[w.inserter[g]], w.t.grants[g])
  }

  ghost predicate GrantsMatchRequests(w: World) {
    && (forall g :: g in w.t.grants ==> Held(w, g))
    && (forall pid :: pid in w.approvals && HasGrant(w.approvals[pid]) ==>
          w.approvals[pid].grant in w.t.grants && w.inserter[w.approvals[pid].grant] == pid)
  }

  ghost predicate UsedFlowsAreSpent(approvals: map<nat, Approval>, spent: map<Id, Decision>) {
    forall pid :: pid in approvals && UsedFlow(approvals[pid]) ==>
      approvals[pid].hash in spent && spent[approvals[pid].hash] == Approved
  }

  ghost predicate OneRequestPerFlow(approvals: map<nat, Approval>) {
    forall p, q ::
      (p in approvals && q in approvals && UsedFlow(approvals[p]) && UsedFlow(approvals[q])
       && approvals[p].hash == approvals[q].hash) ==> p == q
  }

  ghost predicate RequestsUsedTheirFlows(approvals: map<nat, Approval>, spent: map<Id, Decision>) {
    UsedFlowsAreSpent(approvals, spent) && OneRequestPerFlow(approvals)
  }

  ghost predicate Inv(w: World) {
    && GrantRuns.Inv(w.t)
    && Accounted(w.t.flows, w.issued, w.spent)
    && RequestsUsedTheirFlows(w.approvals, w.spent)
    && GrantsMatchRequests(w)
  }

  lemma {:induction false} FlowsStayAccounted(w: World, m: Move, w': World)
    requires Accounted(w.t.flows, w.issued, w.spent) && Next(w, m, w')
    ensures Accounted(w'.t.flows, w'.issued, w'.spent)
    ensures Spends(w, m).Some? ==> Spends(w, m).value.0 !in w.spent
  {
    match m
    case Issue(hash, consent, now) =>
      IssueAccounted(w.t.flows, w.issued, w.spent, hash, consent, now, CONSENT_LIFETIME_SECONDS);
    case Consume(pid, now) =>
      if Spends(w, m).Some? {
        UseAccounted(w.t.flows, w.issued, w.spent, w.approvals[pid].hash, now, Approved);
      }
    case Deny(hash, _, now) =>
      if Spends(w, m).Some? {
        UseAccounted(w.t.flows, w.issued, w.spent, hash, now, Denied);
      }
    case Other => DropAccounted(w.t.flows, w'.t.flows, w.issued, w.spent);
    case _ =>
  }

  /** A request comes to have used a flow only by consuming it, and then keeps it. */
  lemma {:induction false} UsedFlowMoves(w: World, m: Move, w': World, pid: nat)
    requires Enabled(w, m) && Records(w, m, w') && pid in w'.approvals && UsedFlow(w'.approvals[pid])
    ensures var hash := w'.approvals[pid].hash;
            || (pid in w.approvals && UsedFlow(w.approvals[pid]) && w.approvals[pid].hash == hash)
            || (m.Consume? && m.pid == pid && Spends(w, m) == Some((hash, Approved)))
  {
  }

  lemma {:induction false} FlowsStaySpent(w: World, m: Move, w': World)
    requires UsedFlowsAreSpent(w.approvals, w.spent) && Enabled(w, m) && Records(w, m, w')
    requires Spends(w, m).Some? ==> Spends(w, m).value.0 !in w.spent
    ensures UsedFlowsAreSpent(w'.approvals, w'.spent)
  {
    forall pid | pid in w'.approvals && UsedFlow(w'.approvals[pid])
      ensures w'.approvals[pid].hash in w'.spent && w'.spent[w'.approvals[pid].hash] == Approved
    {
      UsedFlowMoves(w, m, w', pid);
    }
  }

  lemma {:induction false} FlowsStaySeparate(w: World, m: Move, w': World)
    requires RequestsUsedTheirFlows(w.approvals, w.spent) && Enabled(w, m) && Records(w, m, w')
    requires Spends(w, m).Some? ==> Spends(w, m).value.0 !in w.spent
    ensures OneRequestPerFlow(w'.approvals)
  {
    forall p, q | p in w'.approvals && q in w'.approvals && UsedFlow(w'.approvals[p]) && UsedFlow(w'.approvals[q])
                  && w'.approvals[p].hash == w'.approvals[q].hash
      ensures p == q
    {
      UsedFlowMoves(w, m, w', p);
      UsedFlowMoves(w, m, w', q);
    }
  }

  lemma {:induction false} RequestsKeepTheirFlows(w: World, m: Move, w': World)
    requires RequestsUsedTheirFlows(w.approvals, w.spent) && Enabled(w, m) && Records(w, m, w')
    requires Spends(w, m).Some? ==> Spends(w, m).value.0 !in w.spent
    ensures RequestsUsedTheirFlows(w'.approvals, w'.spent)
  {
    FlowsStaySpent(w, m, w');
    FlowsStaySeparate(w, m, w');
  }

  /** What an event may do to grant `g`: only its own activation makes it active. */
  ghost predicate GrantStep(e: GrantRuns.Event, g: Id, a: Grant, b: Grant) {
    && (if e.Activate? && e.id == g && a.status.Pending?
        then b.activatedAt.Some? && b.status.Active?
        else b.activatedAt == a.activatedAt && (b.status.Active? ==> a.status.Active?))
    && (a.status.Revoked? ==> b.status.Revoked?)
    && (b.status.Pending? ==> a.status.Pending?)
    && (e.Revoke? && e.scope == One(g) ==> b.status.Revoked?)
  }

  lemma {:induction false} OnlyActivationActivates(t: Tables, e: GrantRuns.Event, t': Tables, g: Id)
    requires GrantRuns.TimesFit(t.grants) && GrantRuns.Step(t, e, t') && g in t.grants
    ensures g in t'.grants && GrantStep(e, g, t.grants[g], t'.grants[g])
  {
  }

  /** A request that holds a grant keeps it, and this is how it goes on. */
  lemma {:induction false} PhaseMoves(w: World, m: Move, w': World, pid: nat)
    requires Enabled(w, m) && Records(w, m, w') && pid in w.approvals && HasGrant(w.approvals[pid])
    ensures pid in w'.approvals && HasGrant(w'.approvals[pid])
    ensures var p, p' := w.approvals[pid], w'.approvals[pid];
            && p'.grant == p.grant && p'.hash == p.hash
            && (InFlight(p') ==> InFlight(p) && !(m.Finish? && m.pid == pid))
            && (Passed(p) ==> Passed(p')) && (GaveUp(p) ==> GaveUp(p'))
            && (Passed(p') && !Passed(p) ==> m.Finish? && m.pid == pid && InFlight(p) && Activates(w.t, p.grant))
            && (GaveUp(p') && !GaveUp(p) ==>
                  && InFlight(p) && (m.Undo? || m.Finish?) && m.pid == pid
                  && (m.Finish? ==> !Activates(w.t, p.grant)))
  {
  }

  lemma {:induction false} RequestOfGrantStays(w: World, m: Move, w': World, g: Id)
    requires Enabled(w, m) && Records(w, m, w') && g in w.t.grants && Held(w, g)
    ensures g in w'.inserter && w'.inserter[g] == w.inserter[g] && w'.inserter[g] in w'.approvals
    ensures HasGrant(w'.approvals[w'.inserter[g]]) && w'.approvals[w'.inserter[g]].grant == g
  {
    PhaseMoves(w, m, w', w.inserter[g]);
  }

  /** A grant is only ever activated for the request that inserted it. */
  lemma {:induction false} OwnActivation(w: World, m: Move, g: Id)
    requires Enabled(w, m) && GrantsMatchRequests(w) && g in w.t.grants
    requires Batch(w, m).Activate? && Batch(w, m).id == g
    ensures m.Finish? && m.pid == w.inserter[g]
  {
  }

  lemma {:induction false} PhaseStillFits(w: World, m: Move, w': World, g: Id)
    requires Enabled(w, m) && Records(w, m, w') && g in w.t.grants && Held(w, g)
    requires w.inserter[g] in w'.approvals
    requires Batch(w, m).Activate? && Batch(w, m).id == g ==> m.Finish? && m.pid == w.inserter[g]
    requires g in w'.t.grants && GrantStep(Batch(w, m), g, w.t.grants[g], w'.t.grants[g])
    requires GrantRuns.TimesFit(w.t.grants)
    ensures PhaseFits(w'.approvals[w.inserter[g]], w'.t.grants[g])
  {
    PhaseMoves(w, m, w', w.inserter[g]);
  }

  lemma {:induction false} HeldStaysHeld(w: World, m: Move, w': World, g: Id)
    requires Enabled(w, m) && Records(w, m, w') && g in w.t.grants && GrantRuns.TimesFit(w.t.grants)
    requires GrantsMatchRequests(w)
    requires g in w'.t.grants && GrantStep(Batch(w, m), g, w.t.grants[g], w'.t.grants[g])
    ensures Held(w', g) && w'.inserter[g] == w.inserter[g]
  {
    RequestOfGrantStays(w, m, w', g);
    if Batch(w, m).Activate? && Batch(w, m).id == g {
      OwnActivation(w, m, g);
    }
    PhaseStillFits(w, m, w', g);
  }

  lemma {:induction false} NewGrants(t: Tables, e: GrantRuns.Event, t': Tables)
    requires GrantRuns.Step(t, e, t')
    ensures t'.grants.Keys == if e.CreatePending? && CreatesPending(t, e.id, e.vault)
                              then t.grants.Keys + {e.id} else t.grants.Keys
    ensures e.CreatePending? && CreatesPending(t, e.id, e.vault) ==>
              t'.grants[e.id].status.Pending? && t'.grants[e.id].activatedAt.None?
  {
  }

  lemma {:induction false} RequestMatchesGrant(w: World, m: Move, w': World, pid: nat)
    requires GrantsMatchRequests(w) && Enabled(w, m) && Records(w, m, w')
    requires w'.t.grants.Keys == if m.Create? && CreatesPending(w.t, m.id, m.vault)
                                 then w.t.grants.Keys + {m.id} else w.t.grants.Keys
    requires pid in w'.approvals && HasGrant(w'.approvals[pid])
    ensures var g := w'.approvals[pid].grant; g in w'.t.grants && g in w'.inserter && w'.inserter[g] == pid
  {
    if pid in w.approvals && HasGrant(w.approvals[pid]) {
      PhaseMoves(w, m, w', pid);
      assert w.approvals[pid].grant in w.t.grants;
    } else {
      assert m.Create? && m.pid == pid && CreatesPending(w.t, m.id, m.vault);
    }
  }

  lemma {:induction false} RequestsMatchGrants(w: World, m: Move, w': World)
    requires GrantsMatchRequests(w) && Enabled(w, m) && Records(w, m, w')
    requires w'.t.grants.Keys == if m.Create? && CreatesPending(w.t, m.id, m.vault)
                                 then w.t.grants.Keys + {m.id} else w.t.grants.Keys
    ensures forall pid :: pid in w'.approvals && HasGrant(w'.approvals[pid]) ==>
              && w'.approvals[pid].grant in w'.t.grants && w'.approvals[pid].grant in w'.inserter
              && w'.inserter[w'.approvals[pid].grant] == pid
  {
    forall pid | pid in w'.approvals && HasGrant(w'.approvals[pid])
      ensures w'.approvals[pid].grant in w'.t.grants && w'.approvals[pid].grant in w'.inserter
      ensures w'.inserter[w'.approvals[pid].grant] == pid
    {
      RequestMatchesGrant(w, m, w', pid);
    }
  }

  lemma {:induction false} GrantsStayMatched(w: World, m: Move, w': World)
    requires GrantRuns.TimesFit(w.t.grants) && GrantsMatchRequests(w) && Next(w, m, w')
    ensures GrantsMatchRequests(w')
  {
    var e := Batch(w, m);
    NewGrants(w.t, e, w'.t);
    forall g | g in w.t.grants ensures Held(w', g) && w'.inserter[g] == w.inserter[g] {
      OnlyActivationActivates(w.t, e, w'.t, g);
      HeldStaysHeld(w, m, w', g);
    }
    RequestsMatchGrants(w, m, w');
  }

  lemma {:induction false} NextKeepsInv(w: World, m: Move, w': World)
    requires Inv(w) && Next(w, m, w')
    ensures Inv(w')
  {
    GrantRuns.StepKeepsInv(w.t, Batch(w, m), w'.t);
    FlowsStayAccounted(w, m, w');
    RequestsKeepTheirFlows(w, m, w');
    GrantsStayMatched(w, m, w');
  }

  // ---- Runs --------------------------------------------------------------------------------

  const START := World(GrantRuns.EMPTY, map[], {}, map[], map[])

  ghost predicate Run(ws: seq<World>, ms: seq<Move>) {
    && |ws| == |ms| + 1 && ws[0] == START
    && (forall i :: 0 <= i < |ms| ==> Next(ws[i], ms[i], ws[i + 1]))
  }

  lemma {:induction false} RunKeepsInv(ws: seq<World>, ms: seq<Move>, i: nat)
    requires Run(ws, ms) && i < |ws|
    ensures Inv(ws[i])
  {
    if i > 0 {
      RunKeepsInv(ws, ms, i - 1);
      NextKeepsInv(ws[i - 1], ms[i - 1], ws[i]);
    } else {
      GrantRuns.RunKeepsInv([GrantRuns.EMPTY], [], 0);
    }
  }

  /** Seen from the tables, a run of approvals is a run of batches. */
  lemma {:induction false} TablesRun(ws: seq<World>, ms: seq<Move>) returns (ts: seq<Tables>, es: seq<GrantRuns.Event>)
    requires Run(ws, ms)
    ensures GrantRuns.Run(ts, es) && |ts| == |ws|
    ensures forall i :: 0 <= i < |ws| ==> ts[i] == ws[i].t
    ensures forall i :: 0 <= i < |ms| ==> Enabled(ws[i], ms[i]) && es[i] == Batch(ws[i], ms[i])
  {
    ts := seq(|ws|, i requires 0 <= i < |ws| => ws[i].t);
    es := seq(|ms|, i requires 0 <= i < |ms| => Batch(ws[i], ms[i]));
    forall i | 0 <= i < |es| ensures GrantRuns.Step(ts[i], es[i], ts[i + 1]) && Enabled(ws[i], ms[i]) {
      assert Next(ws[i], ms[i], ws[i + 1]);
    }
  }

  /** `ms[i]` is the activation by which request `pid` turned its pending grant active. */
  ghost predicate ActivatesAt(ws: seq<World>, ms: seq<Move>, pid: nat, g: Id, i: nat)
    requires i < |ms| && |ws| == |ms| + 1
  {
    && ms[i].Finish? && ms[i].pid == pid
    && g in ws[i].t.grants && ws[i].t.grants[g].status.Pending?
    && g in ws[i + 1].t.grants && ws[i + 1].t.grants[g].status.Active?
    && pid in ws[i].approvals && ws[i].approvals[pid].Activating? && ws[i].approvals[pid].grant == g
  }

  lemma {:induction false} FinishActivates(w: World, m: Move, w': World, pid: nat)
    requires Next(w, m, w') && GrantRuns.TimesFit(w.t.grants)
    requires pid in w'.approvals && Passed(w'.approvals[pid])
    requires pid in w.approvals ==> !Passed(w.approvals[pid])
    ensures var g := w'.approvals[pid].grant;
            && m.Finish? && m.pid == pid
            && g in w.t.grants && w.t.grants[g].status.Pending?
            && g in w'.t.grants && w'.t.grants[g].status.Active?
            && pid in w.approvals && w.approvals[pid].Activating? && w.approvals[pid].grant == g
  {
    assert m.Finish? && m.pid == pid;
    OnlyActivationActivates(w.t, Batch(w, m), w'.t, w'.approvals[pid].grant);
  }

  /** A request that activated its grant can only go on to answer with success. */
  lemma {:induction false} PassedStands(ws: seq<World>, ms: seq<Move>, pid: nat, i: nat, j: nat)
    requires Run(ws, ms) && i <= j < |ws| && pid in ws[i].approvals && Passed(ws[i].approvals[pid])
    ensures pid in ws[j].approvals && Passed(ws[j].approvals[pid])
    ensures ws[j].approvals[pid].grant == ws[i].approvals[pid].grant
    decreases j
  {
    if i < j {
      PassedStands(ws, ms, pid, i, j - 1);
      assert Next(ws[j - 1], ms[j - 1], ws[j]);
      PhaseMoves(ws[j - 1], ms[j - 1], ws[j], pid);
    }
  }

  /** A success response means that the grant went from pending to active by that very request. */
  lemma {:induction false} SuccessMeansActivated(ws: seq<World>, ms: seq<Move>, j: nat, pid: nat) returns (i: nat)
    requires Run(ws, ms) && j < |ws| && pid in ws[j].approvals && Passed(ws[j].approvals[pid])
    ensures i < j && ActivatesAt(ws, ms, pid, ws[j].approvals[pid].grant, i)
  {
    assert j > 0;
    i := j - 1;
    assert Next(ws[i], ms[i], ws[j]);
    if pid in ws[i].approvals && Passed(ws[i].approvals[pid]) {
      PassedStands(ws, ms, pid, i, j);
      i := SuccessMeansActivated(ws, ms, i, pid);
    } else {
      RunKeepsInv(ws, ms, i);
      FinishActivates(ws[i], ms[i], ws[j], pid);
    }
  }

  /** An answered request keeps its answer. */
  lemma {:induction false} AnswersStand(ws: seq<World>, ms: seq<Move>, pid: nat, i: nat, j: nat)
    requires Run(ws, ms) && i <= j < |ws| && pid in ws[i].approvals
    requires ws[i].approvals[pid].Succeeded? || ws[i].approvals[pid].Failed? || ws[i].approvals[pid].Refused?
    ensures pid in ws[j].approvals && ws[j].approvals[pid] == ws[i].approvals[pid]
    decreases j
  {
    if i < j {
      AnswersStand(ws, ms, pid, i, j - 1);
      assert Next(ws[j - 1], ms[j - 1], ws[j]);
    }
  }

  lemma {:induction false} GaveUpStands(ws: seq<World>, ms: seq<Move>, pid: nat, i: nat, j: nat)
    requires Run(ws, ms) && i <= j < |ws| && pid in ws[i].approvals && GaveUp(ws[i].approvals[pid])
    ensures pid in ws[j].approvals && GaveUp(ws[j].approvals[pid])
    ensures ws[j].approvals[pid].grant == ws[i].approvals[pid].grant
    decreases j
  {
    if i < j {
      GaveUpStands(ws, ms, pid, i, j - 1);
      assert Next(ws[j - 1], ms[j - 1], ws[j]);
      PhaseMoves(ws[j - 1], ms[j - 1], ws[j], pid);
    }
  }

  /**
   * A failure response leaves the grant revoked, never activated, and it stays so; and it is so
   * already when the request has only decided to fail.
   */
  lemma {:induction false} FailureLeavesRevoked(ws: seq<World>, ms: seq<Move>, pid: nat, i: nat, j: nat)
    requires Run(ws, ms) && i <= j < |ws| && pid in ws[i].approvals && GaveUp(ws[i].approvals[pid])
    ensures var g := ws[i].approvals[pid].grant;
            g in ws[j].t.grants && ws[j].t.grants[g].status.Revoked? && ws[j].t.grants[g].activatedAt.None?
  {
    GaveUpStands(ws, ms, pid, i, j);
    RunKeepsInv(ws, ms, j);
  }

  /** Event `i` is the answer of request `pid`. */
  ghost predicate AnswersAt(ms: seq<Move>, pid: nat, i: nat)
    requires i < |ms|
  {
    ms[i].Answer? && ms[i].pid == pid
  }

  lemma {:induction false} PassedAnswersOnce(ws: seq<World>, ms: seq<Move>, pid: nat, i: nat, j: nat)
    requires Run(ws, ms) && i <= j < |ws| && pid in ws[i].approvals && ws[i].approvals[pid].Unanswered?
    ensures pid in ws[j].approvals && Passed(ws[j].approvals[pid])
    ensures ws[j].approvals[pid].Succeeded? <==> exists k: nat :: i <= k < j && AnswersAt(ms, pid, k)
    decreases j
  {
    PassedStands(ws, ms, pid, i, j);
    if i < j {
      PassedAnswersOnce(ws, ms, pid, i, j - 1);
      assert Next(ws[j - 1], ms[j - 1], ws[j]);
      if AnswersAt(ms, pid, j - 1) {
        assert ws[j].approvals[pid].Succeeded?;
      }
    }
  }

  /**
   * Every active grant belongs to a request that activated it, and that request has answered with
   * success exactly if it made its answering move since. A request that stops before its activation
   * leaves its grant pending or revoked; one that stops behind it leaves an active grant unanswered.
   */
  lemma {:induction false} ActiveMeansOwnActivation(ws: seq<World>, ms: seq<Move>, j: nat, g: Id)
    returns (pid: nat, i: nat)
    requires Run(ws, ms) && j < |ws| && g in ws[j].t.grants && ws[j].t.grants[g].status.Active?
    ensures g in ws[j].inserter && ws[j].inserter[g] == pid && pid in ws[j].approvals
    ensures Passed(ws[j].approvals[pid]) && ws[j].approvals[pid].grant == g
    ensures i < j && ActivatesAt(ws, ms, pid, g, i)
    ensures ws[j].approvals[pid].Succeeded? <==> exists k: nat :: i < k < j && AnswersAt(ms, pid, k)
  {
    RunKeepsInv(ws, ms, j);
    pid := ws[j].inserter[g];
    i := SuccessMeansActivated(ws, ms, j, pid);
    assert Next(ws[i], ms[i], ws[i + 1]);
    PassedAnswersOnce(ws, ms, pid, i + 1, j);
  }

  lemma {:induction false} RevokeAllReaches(ws: seq<World>, ms: seq<Move>, i: nat, j: nat, g: Id)
    requires Run(ws, ms) && i < j < |ws| && ms[i].OwnerRevokes? && ms[i].scope.Everything?
    requires g in ws[i].t.grants
    ensures g in ws[j].t.grants && ws[j].t.grants[g].status.Revoked?
  {
    var ts, es := TablesRun(ws, ms);
    GrantRuns.RevokeAllIsFinal(ts, es, i, j);
  }

  lemma {:induction false} HeldGrantsExist(ws: seq<World>, ms: seq<Move>, pid: nat, i: nat)
    requires Run(ws, ms) && i < |ws| && pid in ws[i].approvals && HasGrant(ws[i].approvals[pid])
    ensures ws[i].approvals[pid].grant in ws[i].t.grants
  {
    RunKeepsInv(ws, ms, i);
  }

  lemma {:induction false} ActivationAnswers(ws: seq<World>, ms: seq<Move>, pid: nat, g: Id, k: nat, i: nat)
    requires Run(ws, ms) && k < i < |ws| && ActivatesAt(ws, ms, pid, g, k)
    ensures pid in ws[i].approvals && Passed(ws[i].approvals[pid])
  {
    assert Next(ws[k], ms[k], ws[k + 1]);
    PassedStands(ws, ms, pid, k + 1, i);
  }

  lemma {:induction false} PassedBeforeRevokeAll(ws: seq<World>, ms: seq<Move>, pid: nat, i: nat, j: nat)
    requires Run(ws, ms) && i < j < |ws| && ms[i].OwnerRevokes? && ms[i].scope.Everything?
    requires pid in ws[j].approvals && Passed(ws[j].approvals[pid])
    requires ws[j].approvals[pid].grant in ws[i].t.grants
    ensures pid in ws[i].approvals && Passed(ws[i].approvals[pid])
  {
    var g := ws[j].approvals[pid].grant;
    var k := SuccessMeansActivated(ws, ms, j, pid);
    if k < i {
      ActivationAnswers(ws, ms, pid, g, k, i);
    } else if k > i {
      RevokeAllReaches(ws, ms, i, k, g);
    }
  }

  lemma {:induction false} GrantsOfRequestsStay(ws: seq<World>, ms: seq<Move>, pid: nat, i: nat, j: nat)
    requires Run(ws, ms) && i <= j < |ws| && pid in ws[i].approvals && HasGrant(ws[i].approvals[pid])
    ensures pid in ws[j].approvals && HasGrant(ws[j].approvals[pid])
    ensures ws[j].approvals[pid].grant == ws[i].approvals[pid].grant
    ensures ws[j].approvals[pid].hash == ws[i].approvals[pid].hash
    decreases j
  {
    if i < j {
      GrantsOfRequestsStay(ws, ms, pid, i, j - 1);
      assert Next(ws[j - 1], ms[j - 1], ws[j]);
      PhaseMoves(ws[j - 1], ms[j - 1], ws[j], pid);
    }
  }

  lemma {:induction false} RevokedGrantNeverSucceeds(ws: seq<World>, ms: seq<Move>, pid: nat, i: nat, j: nat)
    requires Run(ws, ms) && i < j < |ws| && ms[i].OwnerRevokes? && ms[i].scope.Everything?
    requires pid in ws[i].approvals && InFlight(ws[i].approvals[pid])
    ensures pid in ws[j].approvals && !Passed(ws[j].approvals[pid])
  {
    var g := ws[i].approvals[pid].grant;
    GrantsOfRequestsStay(ws, ms, pid, i, j);
    HeldGrantsExist(ws, ms, pid, i);
    if Passed(ws[j].approvals[pid]) {
      PassedBeforeRevokeAll(ws, ms, pid, i, j);
    }
  }

  /**
   * After a revoke-all no grant of that time is ever active, and no request that then held a grant
   * still to be activated succeeds: of the grants there were, only one activated before can have its
   * request answer with success. A request that held none yet can succeed: see SuccessAfterRevokeAll.
   */
  lemma {:induction false} RevokeAllStopsApprovals(ws: seq<World>, ms: seq<Move>, i: nat, j: nat)
    requires Run(ws, ms) && i < j < |ws| && ms[i].OwnerRevokes? && ms[i].scope.Everything?
    ensures forall g :: g in ws[i].t.grants ==> g in ws[j].t.grants && ws[j].t.grants[g].status.Revoked?
    ensures forall pid :: pid in ws[i].approvals && InFlight(ws[i].approvals[pid])
              ==> pid in ws[j].approvals && !Passed(ws[j].approvals[pid])
    ensures forall pid :: pid in ws[j].approvals && Passed(ws[j].approvals[pid])
                          && ws[j].approvals[pid].grant in ws[i].t.grants
              ==> pid in ws[i].approvals && Passed(ws[i].approvals[pid])
  {
    forall g | g in ws[i].t.grants ensures g in ws[j].t.grants && ws[j].t.grants[g].status.Revoked? {
      RevokeAllReaches(ws, ms, i, j, g);
    }
    forall pid | pid in ws[i].approvals && InFlight(ws[i].approvals[pid])
      ensures pid in ws[j].approvals && !Passed(ws[j].approvals[pid])
    {
      RevokedGrantNeverSucceeds(ws, ms, pid, i, j);
    }
    forall pid | pid in ws[j].approvals && Passed(ws[j].approvals[pid])
                 && ws[j].approvals[pid].grant in ws[i].t.grants
      ensures pid in ws[i].approvals && Passed(ws[i].approvals[pid])
    {
      PassedBeforeRevokeAll(ws, ms, pid, i, j);
    }
  }

  lemma {:induction false} SpentIsKept(w: World, m: Move, w': World, hash: Id)
    requires Accounted(w.t.flows, w.issued, w.spent) && Next(w, m, w') && hash in w.spent
    ensures hash in w'.spent && w'.spent[hash] == w.spent[hash]
  {
    FlowsStayAccounted(w, m, w');
  }

  lemma {:induction false} SpentOneMoveOn(ws: seq<World>, ms: seq<Move>, hash: Id, i: nat)
    requires Run(ws, ms) && i < |ms| && hash in ws[i].spent
    ensures hash in ws[i + 1].spent && ws[i + 1].spent[hash] == ws[i].spent[hash]
  {
    RunKeepsInv(ws, ms, i);
    var w, m, w' := ws[i], ms[i], ws[i + 1];
    assert Next(w, m, w');
    SpentIsKept(w, m, w', hash);
  }

  lemma {:induction false} SpentStaysSpent(ws: seq<World>, ms: seq<Move>, hash: Id, i: nat, j: nat)
    requires Run(ws, ms) && i <= j < |ws| && hash in ws[i].spent
    ensures hash in ws[j].spent && ws[j].spent[hash] == ws[i].spent[hash]
    decreases j
  {
    if i < j {
      SpentStaysSpent(ws, ms, hash, i, j - 1);
      SpentOneMoveOn(ws, ms, hash, j - 1);
    }
  }

  /**
   * Each consent flow is used at most once, approved or denied, however rows are swept or deleted in
   * between; and only while its row is there, unused, and not yet expired.
   */
  lemma {:induction false} FlowsAreUsedOnce(
      ws: seq<World>, ms: seq<Move>, i: nat, j: nat, hash: Id, a: Decision, b: Decision)
    requires Run(ws, ms) && i <= j < |ms|
    requires Enabled(ws[i], ms[i]) && Spends(ws[i], ms[i]) == Some((hash, a))
    requires Enabled(ws[j], ms[j]) && Spends(ws[j], ms[j]) == Some((hash, b))
    ensures i == j && a == b
    ensures hash in ws[i].t.flows && ws[i].t.flows[hash].used.None? && ws[i].t.flows[hash].expiresAt > ms[i].now
  {
    assert Next(ws[i], ms[i], ws[i + 1]);
    if i < j {
      assert hash in ws[i + 1].spent;
      SpentStaysSpent(ws, ms, hash, i + 1, j);
      RunKeepsInv(ws, ms, j);
      assert Next(ws[j], ms[j], ws[j + 1]);
      FlowsStayAccounted(ws[j], ms[j], ws[j + 1]);
    }
  }

  /** Every grant traces to one flow consumed as approved, and no two grants to the same flow. */
  lemma {:induction false} GrantsTraceToApprovedFlows(ws: seq<World>, ms: seq<Move>, j: nat, g: Id, h: Id)
    requires Run(ws, ms) && j < |ws| && g in ws[j].t.grants && h in ws[j].t.grants
    ensures g in ws[j].inserter && ws[j].inserter[g] in ws[j].approvals
    ensures h in ws[j].inserter && ws[j].inserter[h] in ws[j].approvals
    ensures var p, q := ws[j].approvals[ws[j].inserter[g]], ws[j].approvals[ws[j].inserter[h]];
            && p.hash in ws[j].spent && ws[j].spent[p.hash] == Approved
            && (p.hash == q.hash ==> g == h)
  {
    RunKeepsInv(ws, ms, j);
  }

  /** A denied flow yields no grant: no request ever holds it. */
  lemma {:induction false} DeniedFlowsYieldNothing(ws: seq<World>, ms: seq<Move>, i: nat, j: nat, hash: Id)
    requires Run(ws, ms) && i < j < |ws| && Enabled(ws[i], ms[i]) && Spends(ws[i], ms[i]) == Some((hash, Denied))
    ensures forall pid :: pid in ws[j].approvals && HasGrant(ws[j].approvals[pid]) ==> ws[j].approvals[pid].hash != hash
  {
    assert Next(ws[i], ms[i], ws[i + 1]);
    SpentStaysSpent(ws, ms, hash, i + 1, j);
    RunKeepsInv(ws, ms, j);
  }

  // ---- The way of one request --------------------------------------------------------------

  /** The flow is there, belongs to this session, and is neither used nor expired. */
  ghost predicate FlowIsOpen(t: Tables, hash: Id, session: Id, now: int) {
    && hash in t.flows && t.flows[hash].body.session == session
    && t.flows[hash].used.None? && now < t.flows[hash].expiresAt
  }

  /**
   * How request `pid` comes into phase `p` by move `m`: every phase has its own entrances, from the
   * phase before it and under a condition on the tables.
   */
  ghost predicate Enters(w: World, m: Move, pid: nat, p: Approval) {
    var before := if pid in w.approvals then Some(w.approvals[pid]) else None;
    match p
    case Waiting(hash, session) => before.None? && m == Arrive(pid, hash, session)
    case Reviewing(hash, consent) =>
      && m.Consume? && m.pid == pid && before.Some? && before.value.Waiting? && before.value.hash == hash
      && FlowIsOpen(w.t, hash, before.value.session, m.now) && w.t.flows[hash].body == consent
    case Authorizing(hash, grant) =>
      && m.Create? && m.pid == pid && m.id == grant && before.Some? && before.value.Reviewing?
      && before.value.hash == hash && m.vault in w.t.activeVaults && grant !in w.t.grants
    case Undoing(hash, grant) => m == OAuthFails(pid) && before == Some(Authorizing(hash, grant))
    case Activating(hash, grant) => m == OAuthCompletes(pid) && before == Some(Authorizing(hash, grant))
    case Unanswered(hash, grant) =>
      && m.Finish? && m.pid == pid && before == Some(Activating(hash, grant))
      && grant in w.t.grants && w.t.grants[grant].status.Pending?
    case Failing(hash, grant) =>
      || (m.Undo? && m.pid == pid && before == Some(Undoing(hash, grant)))
      || (&& m.Finish? && m.pid == pid && before == Some(Activating(hash, grant))
          && (grant in w.t.grants ==> !w.t.grants[grant].status.Pending?))
    case Succeeded(hash, grant) => m == Answer(pid) && before == Some(Unanswered(hash, grant))
    case Failed(hash, grant) => m == Answer(pid) && before == Some(Failing(hash, grant))
    case Refused(hash) =>
      && before.Some? && before.value.hash == hash
      && (|| (m == Refuse(pid) && before.value.Reviewing?)
          || (m.Consume? && m.pid == pid && before.value.Waiting?
              && !FlowIsOpen(w.t, hash, before.value.session, m.now))
          || (m.Create? && m.pid == pid && before.value.Reviewing?
              && (m.vault in w.t.activeVaults ==> m.id in w.t.grants)))
  }

  /** The request a move belongs to. */
  function OwnerOf(m: Move): Option<nat> {
    match m
    case Arrive(pid, _, _) => Some(pid)
    case Consume(pid, _) => Some(pid)
    case Refuse(pid) => Some(pid)
    case Create(pid, _, _, _, _, _) => Some(pid)
    case OAuthCompletes(pid) => Some(pid)
    case OAuthFails(pid) => Some(pid)
    case Undo(pid, _) => Some(pid)
    case Finish(pid, _) => Some(pid)
    case Answer(pid) => Some(pid)
    case _ => None
  }

  /** A request changes its phase exactly by its own moves, and enters the new one as it has to. */
  lemma {:induction false} OwnMovesChangePhases(w: World, m: Move, w': World, pid: nat)
    requires Next(w, m, w')
    ensures OwnerOf(m) == Some(pid) ==> pid in w'.approvals && Enters(w, m, pid, w'.approvals[pid])
    ensures OwnerOf(m) != Some(pid) ==>
              (pid in w'.approvals <==> pid in w.approvals)
              && (pid in w.approvals ==> w'.approvals[pid] == w.approvals[pid])
  {
  }

  /** The move by which a request came into its phase. */
  lemma {:induction false} EntranceOf(ws: seq<World>, ms: seq<Move>, pid: nat, j: nat) returns (i: nat)
    requires Run(ws, ms) && j < |ws| && pid in ws[j].approvals
    ensures i < j && OwnerOf(ms[i]) == Some(pid) && Enters(ws[i], ms[i], pid, ws[j].approvals[pid])
    ensures Next(ws[i], ms[i], ws[i + 1]) && pid in ws[i + 1].approvals
    ensures ws[i + 1].approvals[pid] == ws[j].approvals[pid]
  {
    i := j - 1;
    assert Next(ws[i], ms[i], ws[j]);
    OwnMovesChangePhases(ws[i], ms[i], ws[j], pid);
    if OwnerOf(ms[i]) != Some(pid) {
      i := EntranceOf(ws, ms, pid, i);
    }
  }

  /** The request arrived and then consumed the flow it names, which was open. */
  lemma {:induction false} WayToReview(ws: seq<World>, ms: seq<Move>, pid: nat, j: nat) returns (a: nat, c: nat)
    requires Run(ws, ms) && j < |ws| && pid in ws[j].approvals && ws[j].approvals[pid].Reviewing?
    ensures a < c < j && ms[a].Arrive? && ms[a].pid == pid && ms[a].hash == ws[j].approvals[pid].hash
    ensures ms[c].Consume? && ms[c].pid == pid && FlowIsOpen(ws[c].t, ms[a].hash, ms[a].session, ms[c].now)
  {
    c := EntranceOf(ws, ms, pid, j);
    a := EntranceOf(ws, ms, pid, c);
  }

  /** And then inserted its grant, which is new, in an active vault. */
  lemma {:induction false} WayToAuthorization(ws: seq<World>, ms: seq<Move>, pid: nat, j: nat)
    returns (a: nat, c: nat, d: nat)
    requires Run(ws, ms) && j < |ws| && pid in ws[j].approvals && ws[j].approvals[pid].Authorizing?
    ensures a < c < d < j && ms[a].Arrive? && ms[a].pid == pid && ms[a].hash == ws[j].approvals[pid].hash
    ensures ms[c].Consume? && ms[c].pid == pid && FlowIsOpen(ws[c].t, ms[a].hash, ms[a].session, ms[c].now)
    ensures ms[d].Create? && ms[d].pid == pid && ms[d].id == ws[j].approvals[pid].grant
    ensures ms[d].vault in ws[d].t.activeVaults && ms[d].id !in ws[d].t.grants
  {
    d := EntranceOf(ws, ms, pid, j);
    a, c := WayToReview(ws, ms, pid, d);
  }

  lemma {:induction false} ActivationTurnsActive(ws: seq<World>, ms: seq<Move>, f: nat, pid: nat, g: Id)
    requires Run(ws, ms) && f < |ms| && ms[f].Finish? && ms[f].pid == pid
    requires pid in ws[f].approvals && ws[f].approvals[pid].Activating? && ws[f].approvals[pid].grant == g
    requires g in ws[f].t.grants && ws[f].t.grants[g].status.Pending?
    ensures ActivatesAt(ws, ms, pid, g, f)
  {
    RunKeepsInv(ws, ms, f);
    assert Next(ws[f], ms[f], ws[f + 1]);
    OnlyActivationActivates(ws[f].t, Batch(ws[f], ms[f]), ws[f + 1].t, g);
  }

  /**
   * A request that activated its grant came this way and no other: it arrived, consumed an open flow,
   * inserted a new grant, completeAuthorization returned, and the grant was still pending.
   */
  lemma {:induction false} WayToActivation(ws: seq<World>, ms: seq<Move>, pid: nat, j: nat)
    returns (a: nat, c: nat, d: nat, o: nat, f: nat)
    requires Run(ws, ms) && j < |ws| && pid in ws[j].approvals && Passed(ws[j].approvals[pid])
    ensures a < c < d < o < f < j && ms[a].Arrive? && ms[a].pid == pid && ms[a].hash == ws[j].approvals[pid].hash
    ensures ms[c].Consume? && ms[c].pid == pid && FlowIsOpen(ws[c].t, ms[a].hash, ms[a].session, ms[c].now)
    ensures ms[d].Create? && ms[d].pid == pid && ms[d].id == ws[j].approvals[pid].grant
    ensures ms[d].vault in ws[d].t.activeVaults && ms[d].id !in ws[d].t.grants
    ensures ms[o] == OAuthCompletes(pid)
    ensures ms[f].Finish? && ActivatesAt(ws, ms, pid, ws[j].approvals[pid].grant, f)
    ensures ws[j].approvals[pid].Succeeded? ==> exists n :: f < n < j && ms[n] == Answer(pid)
  {
    var n := EntranceOf(ws, ms, pid, j);
    f := n;
    if ws[j].approvals[pid].Succeeded? {
      f := EntranceOf(ws, ms, pid, n);
    }
    ActivationTurnsActive(ws, ms, f, pid, ws[j].approvals[pid].grant);
    o := EntranceOf(ws, ms, pid, f);
    a, c, d := WayToAuthorization(ws, ms, pid, o);
  }

  /**
   * A request gave up for one of two reasons: completeAuthorization threw and the grant was revoked,
   * or it returned and the grant was no longer pending.
   */
  lemma {:induction false} WayToFailure(ws: seq<World>, ms: seq<Move>, pid: nat, j: nat) returns (o: nat, f: nat)
    requires Run(ws, ms) && j < |ws| && pid in ws[j].approvals && GaveUp(ws[j].approvals[pid])
    ensures o < f < j
    ensures || (ms[o] == OAuthFails(pid) && ms[f].Undo? && ms[f].pid == pid)
            || (&& ms[o] == OAuthCompletes(pid) && ms[f].Finish? && ms[f].pid == pid
                && var g := ws[j].approvals[pid].grant;
                   g in ws[f].t.grants ==> !ws[f].t.grants[g].status.Pending?)
    ensures ws[j].approvals[pid].Failed? ==> exists n :: f < n < j && ms[n] == Answer(pid)
  {
    var n := EntranceOf(ws, ms, pid, j);
    f := n;
    if ws[j].approvals[pid].Failed? {
      f := EntranceOf(ws, ms, pid, n);
    }
    o := EntranceOf(ws, ms, pid, f);
  }

  /** From a failed authorization there is no way to an active grant. */
  lemma {:induction false} UndoingStands(ws: seq<World>, ms: seq<Move>, pid: nat, i: nat, j: nat)
    requires Run(ws, ms) && i < j < |ws| && ms[i] == OAuthFails(pid)
    ensures pid in ws[j].approvals && (ws[j].approvals[pid].Undoing? || GaveUp(ws[j].approvals[pid]))
    ensures (exists k: nat :: i < k < j && ms[k].Undo? && ms[k].pid == pid) ==> GaveUp(ws[j].approvals[pid])
    decreases j
  {
    var w, m, w' := ws[j - 1], ms[j - 1], ws[j];
    assert Next(w, m, w');
    OwnMovesChangePhases(w, m, w', pid);
    if i < j - 1 {
      UndoingStands(ws, ms, pid, i, j - 1);
    }
  }

  /**
   * When completeAuthorization throws, the request never succeeds and its grant is never active; and
   * once the request has undone it, the grant is revoked.
   */
  lemma {:induction false} FailedAuthorizationIsUndone(ws: seq<World>, ms: seq<Move>, pid: nat, i: nat, j: nat)
    requires Run(ws, ms) && i < j < |ws| && ms[i] == OAuthFails(pid)
    ensures pid in ws[j].approvals && HasGrant(ws[j].approvals[pid]) && !Passed(ws[j].approvals[pid])
    ensures var g := ws[j].approvals[pid].grant;
            && g in ws[j].t.grants && !ws[j].t.grants[g].status.Active? && ws[j].t.grants[g].activatedAt.None?
            && ((exists k: nat :: i < k < j && ms[k].Undo? && ms[k].pid == pid) ==>
                  ws[j].t.grants[g].status.Revoked?)
  {
    UndoingStands(ws, ms, pid, i, j);
    RunKeepsInv(ws, ms, j);
    assert Held(ws[j], ws[j].approvals[pid].grant);
  }

  // ---- Where the guarantees end ------------------------------------------------------------

  const ASKED := Consent("session", "client", "https://client")

  lemma {:induction false} OneMoreMove(ws: seq<World>, ms: seq<Move>, m: Move, t: Tables)
    returns (more: seq<World>, moves: seq<Move>)
    requires Run(ws, ms)
    requires var w := ws[|ms|];
             && Enabled(w, m) && GrantRuns.Step(w.t, Batch(w, m), t)
             && (Batch(w, m).Elsewhere? && !m.Other? ==> t == w.t)
    ensures Run(more, moves) && moves == ms + [m] && |more| == |ws| + 1 && more[..|ws|] == ws
    ensures more[|ws|].t == t && more[|ws|].approvals == ApprovalsAfter(ws[|ms|], m)
    ensures more[|ws|].issued == (if m.Issue? then ws[|ms|].issued + {m.hash} else ws[|ms|].issued)
  {
    var w := ws[|ms|];
    var spent := if Spends(w, m).Some? then w.spent[Spends(w, m).value.0 := Spends(w, m).value.1] else w.spent;
    var inserter := if m.Create? && CreatesPending(w.t, m.id, m.vault) then w.inserter[m.id := m.pid] else w.inserter;
    var issued := if m.Issue? then w.issued + {m.hash} else w.issued;
    more, moves := ws + [World(t, ApprovalsAfter(w, m), issued, spent, inserter)], ms + [m];
  }

  /** An active vault, a session, a consent flow of that session and a request that arrived with it. */
  lemma {:induction false} ArrivedRequest() returns (ws: seq<World>, ms: seq<Move>)
    ensures Run(ws, ms) && |ms| == 3
    ensures ws[3].approvals == map[0 := Waiting("flow", "session")]
    ensures "flow" in ws[3].t.flows && ws[3].t.flows["flow"] == Ticket(ASKED, 600, None)
    ensures "vault" in ws[3].t.activeVaults && "grant" !in ws[3].t.grants
  {
    var t := GrantRuns.EMPTY.(sessions := {"session"}, activeVaults := {"vault"});
    ws, ms := OneMoreMove([START], [], Other, t);
    ws, ms := OneMoreMove(ws, ms, Issue("flow", ASKED, 0), FlowCreated(t, "flow", ASKED, 0));
    ws, ms := OneMoreMove(ws, ms, Arrive(0, "flow", "session"), FlowCreated(t, "flow", ASKED, 0));
  }

  /** It consumed its flow and has inserted nothing yet when the owner revokes everything. */
  lemma {:induction false} ReviewingAtRevokeAll() returns (ws: seq<World>, ms: seq<Move>)
    ensures Run(ws, ms) && |ms| == 5 && ms[4] == OwnerRevokes(Everything, 2)
    ensures ws[4].approvals == ws[5].approvals == map[0 := Reviewing("flow", ASKED)]
    ensures "vault" in ws[5].t.activeVaults && "grant" !in ws[5].t.grants
  {
    ws, ms := ArrivedRequest();
    ws, ms := OneMoreMove(ws, ms, Consume(0, 1), FlowConsumed(ws[3].t, "flow", "session", Approved, 1));
    ws, ms := OneMoreMove(ws, ms, OwnerRevokes(Everything, 2), RevokedIn(ws[4].t, Everything, 2));
  }

  /** A pending grant whose authorization was completed. */
  lemma {:induction false} ActivatingAfterRevokeAll() returns (ws: seq<World>, ms: seq<Move>)
    ensures Run(ws, ms) && |ms| == 7 && ms[4] == OwnerRevokes(Everything, 2)
    ensures ws[4].approvals == map[0 := Reviewing("flow", ASKED)]
    ensures ws[7].approvals == map[0 := Activating("flow", "grant")]
    ensures "grant" in ws[7].t.grants && ws[7].t.grants["grant"].status.Pending?
  {
    ws, ms := ReviewingAtRevokeAll();
    var t := PendingCreated(ws[5].t, "grant", "client", "vault", "audience", "terms", 3);
    ws, ms := OneMoreMove(ws, ms, Create(0, "grant", "vault", "audience", "terms", 3), t);
    ws, ms := OneMoreMove(ws, ms, OAuthCompletes(0), t);
  }

  /** A request may stop between its activation and its answer: the grant is active, nobody was told. */
  lemma {:induction false} ActiveWithoutAnswer() returns (ws: seq<World>, ms: seq<Move>)
    ensures Run(ws, ms) && |ms| == 8 && ms[4] == OwnerRevokes(Everything, 2)
    ensures ws[4].approvals == map[0 := Reviewing("flow", ASKED)]
    ensures ws[8].approvals == map[0 := Unanswered("flow", "grant")]
    ensures "grant" in ws[8].t.grants && ws[8].t.grants["grant"].status.Active?
  {
    ws, ms := ActivatingAfterRevokeAll();
    var t, t' := ws[7].t, Activated(ws[7].t, "grant", 4);
    RunKeepsInv(ws, ms, 7);
    OnlyActivationActivates(t, GrantRuns.Activate("grant", 4), t', "grant");
    ws, ms := OneMoreMove(ws, ms, Finish(0, 4), t');
  }

  /**
   * A revoke-all does not stop a request that consumed its flow and has not inserted its grant yet:
   * it goes on to create the grant, activate it and answer with success.
   */
  lemma {:induction false} SuccessAfterRevokeAll() returns (ws: seq<World>, ms: seq<Move>)
    ensures Run(ws, ms) && |ms| == 9 && ms[4] == OwnerRevokes(Everything, 2)
    ensures ws[4].approvals == map[0 := Reviewing("flow", ASKED)]
    ensures ws[9].approvals == map[0 := Succeeded("flow", "grant")]
    ensures "grant" in ws[9].t.grants && ws[9].t.grants["grant"].status.Active?
  {
    ws, ms := ActiveWithoutAnswer();
    ws, ms := OneMoreMove(ws, ms, Answer(0), ws[8].t);
  }
}
