/**
 * Consent flows told by their history: until when an issued flow can be used, from the moves of all
 * requests and their times alone.
 */
module FlowHistory {
  import opened Common
  import opened Tickets
  import opened AgentAccessStore
  import opened ApprovalRuns
  import GrantRuns

  /** Move `i` issues a flow: the session that it is bound to exists. */
  ghost predicate IssuesAt(ws: seq<World>, ms: seq<Move>, i: int)
    requires |ws| == |ms| + 1
  {
    0 <= i < |ms| && ms[i].Issue? && ms[i].consent.session in ws[i].t.sessions
  }

  /** Within ten minutes, a request of its session consumes it, or its session denies it. */
  ghost predicate UsesAt(ws: seq<World>, ms: seq<Move>, i: int, k: int)
    requires |ws| == |ms| + 1 && IssuesAt(ws, ms, i)
  {
    && 0 <= k < |ms| && (ms[k].Consume? || ms[k].Deny?) && ms[k].now < ms[i].now + 600
    && if ms[k].Deny? then ms[k].hash == ms[i].hash && ms[k].session == ms[i].consent.session
       else ms[k].pid in ws[k].approvals
            && ws[k].approvals[ms[k].pid] == Waiting(ms[i].hash, ms[i].consent.session)
  }

  /** The next flow that is issued when it has expired sweeps it. */
  ghost predicate SweepsAt(ws: seq<World>, ms: seq<Move>, i: int, k: int)
    requires |ws| == |ms| + 1 && IssuesAt(ws, ms, i)
  {
    IssuesAt(ws, ms, k) && ms[i].now + 600 <= ms[k].now
  }

  /** Another store deletes it, as happens when its session ends. */
  ghost predicate DropsAt(ws: seq<World>, ms: seq<Move>, i: int, k: int)
    requires |ws| == |ms| + 1 && IssuesAt(ws, ms, i)
  {
    0 <= k < |ms| && ms[k].Other? && ms[i].hash !in ws[k + 1].t.flows
  }

  ghost predicate ClosesAt(ws: seq<World>, ms: seq<Move>, i: int, k: int)
    requires |ws| == |ms| + 1 && IssuesAt(ws, ms, i)
  {
    UsesAt(ws, ms, i, k) || SweepsAt(ws, ms, i, k) || DropsAt(ws, ms, i, k)
  }

  ghost predicate IsOpen(t: Tables, hash: Id) {
    hash in t.flows && t.flows[hash].used.None?
  }

  /** While it is open its row is as it was issued. */
  ghost predicate RowIs(t: Tables, m: Move)
    requires m.Issue?
  {
    IsOpen(t, m.hash) ==> t.flows[m.hash].body == m.consent && t.flows[m.hash].expiresAt == m.now + 600
  }

  lemma {:induction false} IssueStep(w: World, m: Move, w': World)
    requires Accounted(w.t.flows, w.issued, w.spent) && Next(w, m, w') && m.Issue?
    ensures IsOpen(w'.t, m.hash) <==> m.consent.session in w.t.sessions
    ensures RowIs(w'.t, m)
  {
  }

  lemma {:induction false} OpenStep(ws: seq<World>, ms: seq<Move>, i: nat, n: nat)
    requires Run(ws, ms) && i < n < |ms| && IssuesAt(ws, ms, i)
    requires RowIs(ws[n].t, ms[i]) && Accounted(ws[n].t.flows, ws[n].issued, ws[n].spent) && ms[i].hash in ws[n].issued
    ensures RowIs(ws[n + 1].t, ms[i]) && ms[i].hash in ws[n + 1].issued
    ensures IsOpen(ws[n + 1].t, ms[i].hash) <==> IsOpen(ws[n].t, ms[i].hash) && !ClosesAt(ws, ms, i, n)
  {
    assert Next(ws[n], ms[n], ws[n + 1]);
  }

  /**
   * An issued flow can be used exactly as long as nobody used it, no other store dropped it and it was
   * not swept after its ten minutes; and nothing of it changes until then.
   */
  lemma {:induction false} FlowIsOpenIff(ws: seq<World>, ms: seq<Move>, i: nat, j: nat)
    requires Run(ws, ms) && i < j < |ws| && IssuesAt(ws, ms, i)
    ensures RowIs(ws[j].t, ms[i]) && ms[i].hash in ws[j].issued
    ensures IsOpen(ws[j].t, ms[i].hash) <==> forall k :: i < k < j ==> !ClosesAt(ws, ms, i, k)
    decreases j
  {
    var n := j - 1;
    RunKeepsInv(ws, ms, n);
    assert Next(ws[n], ms[n], ws[j]);
    if n == i {
      IssueStep(ws[n], ms[n], ws[j]);
    } else {
      FlowIsOpenIff(ws, ms, i, n);
      OpenStep(ws, ms, i, n);
      assert (forall k :: i < k < j ==> !ClosesAt(ws, ms, i, k)) <==>
             (forall k :: i < k < n ==> !ClosesAt(ws, ms, i, k)) && !ClosesAt(ws, ms, i, n);
    }
  }

  /** A flow is issued exactly when its session exists. */
  lemma {:induction false} IssueCommitsIff(ws: seq<World>, ms: seq<Move>, i: nat)
    requires Run(ws, ms) && i < |ms| && ms[i].Issue?
    ensures IsOpen(ws[i + 1].t, ms[i].hash) <==> ms[i].consent.session in ws[i].t.sessions
  {
    RunKeepsInv(ws, ms, i);
    assert Next(ws[i], ms[i], ws[i + 1]);
    IssueStep(ws[i], ms[i], ws[i + 1]);
  }
}
