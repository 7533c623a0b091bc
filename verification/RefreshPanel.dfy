/**
 * The collaboration panel's refresh: loads start and come back in any order, only the newest may
 * change what is shown, and a connection revoked here is shown as revoked from then on, whatever an
 * answer that was already under way says about it.
 */
module RefreshPanel {
  import opened Common

  datatype Status = Active | Revoked

  datatype Connection = Connection(grantId: Id, details: Id, status: Status, revokedAt: Option<int>)

  /** What loading and parsing the five answers comes to. */
  datatype Response = LoadFailed | Malformed | Loaded(connections: seq<Connection>)

  datatype Outcome = Applied | Stale | Thrown

  function WithRevocation(c: Connection, revokedAtByGrant: map<Id, int>): Connection {
    if c.grantId in revokedAtByGrant then
      c.(revokedAt := Some(revokedAtByGrant[c.grantId]), status := Revoked)
    else c
  }

  function ApplyLocalRevocations(connections: seq<Connection>, revokedAtByGrant: map<Id, int>): seq<Connection> {
    seq(|connections|, i requires 0 <= i < |connections| => WithRevocation(connections[i], revokedAtByGrant))
  }

  // ---- The panel's state ----

  /**
   * `loaded` is the list in the answer applied last; together with the revocations it determines
   * what is shown. `inFlight` are the loads that have not come back.
   */
  datatype State = State(
    generation: nat,
    revokedAtByGrant: map<Id, int>,
    shown: seq<Connection>,
    loaded: seq<Connection>,
    inFlight: set<nat>)

  function OutcomeOf(s: State, generation: nat, response: Response): Outcome {
    if generation != s.generation then Stale
    else if response.Loaded? then Applied
    else Thrown
  }

  ghost predicate Started(s: State, t: State, generation: nat) {
    generation == s.generation + 1
    && t == s.(generation := generation, inFlight := s.inFlight + {generation})
  }

  ghost predicate Completed(s: State, t: State, generation: nat, response: Response, outcome: Outcome) {
    && outcome == OutcomeOf(s, generation, response)
    && t.generation == s.generation && t.revokedAtByGrant == s.revokedAtByGrant
    && t.inFlight == s.inFlight - {generation}
    && t.loaded == (if outcome == Applied then response.connections else s.loaded)
    && t.shown == (if outcome == Applied then ApplyLocalRevocations(response.connections, s.revokedAtByGrant)
                   else s.shown)
  }

  ghost predicate Marked(s: State, t: State, grantId: Id, now: int) {
    var revoked := s.revokedAtByGrant[grantId := now];
    t == s.(revokedAtByGrant := revoked, shown := ApplyLocalRevocations(s.shown, revoked))
  }

  ghost predicate Unmounted(s: State, t: State) {
    t == s.(generation := s.generation + 1)
  }

  class Panel {
    var refreshGeneration: nat
    var revokedAtByGrant: map<Id, int>
    var connections: seq<Connection>
    ghost var loaded: seq<Connection>
    ghost var inFlight: set<nat>

    ghost function View(): State
      reads this
    {
      State(refreshGeneration, revokedAtByGrant, connections, loaded, inFlight)
    }

    constructor ()
      ensures View() == State(0, map[], [], [], {})
    {
      refreshGeneration, revokedAtByGrant, connections, loaded, inFlight := 0, map[], [], [], {};
    }

    /** The synchronous beginning of a refresh. */
    method StartRefresh() returns (generation: nat)
      modifies this
      ensures Started(old(View()), View(), generation)
    {
      generation := refreshGeneration + 1;
      refreshGeneration := generation;
      inFlight := inFlight + {generation};
    }

    /** What happens when the load begun as `generation` comes back. */
    method ApplyLatestRefresh(generation: nat, response: Response) returns (outcome: Outcome)
      modifies this
      ensures Completed(old(View()), View(), generation, response, outcome)
    {
      inFlight := inFlight - {generation};
      if response.LoadFailed? {
        if generation != refreshGeneration {
          return Stale;
        }
        return Thrown;
      }
      if generation != refreshGeneration {
        return Stale;
      }
      if response.Malformed? {
        return Thrown;
      }
      connections := ApplyLocalRevocations(response.connections, revokedAtByGrant);
      loaded := response.connections;
      return Applied;
    }

    method MarkRevoked(grantId: Id, now: int)
      modifies this
      ensures Marked(old(View()), View(), grantId, now)
    {
      revokedAtByGrant := revokedAtByGrant[grantId := now];
      connections := ApplyLocalRevocations(connections, revokedAtByGrant);
    }

    method Unmount()
      modifies this
      ensures Unmounted(old(View()), View())
    {
      refreshGeneration := refreshGeneration + 1;
    }

    /** Nothing is marked unless the server accepted; then the mark comes before the refresh. */
    method RevokeLocallyThenRefresh(grantId: Id, accepted: bool, now: int) returns (generation: Option<nat>)
      modifies this
      ensures !accepted ==> generation == None && View() == old(View())
      ensures accepted ==>
                && generation.Some?
                && exists marked ::
                     Marked(old(View()), marked, grantId, now) && Started(marked, View(), generation.value)
    {
      if !accepted {
        return None;
      }
      MarkRevoked(grantId, now);
      ghost var marked := View();
      var started := StartRefresh();
      assert Marked(old(View()), marked, grantId, now) && Started(marked, View(), started);
      return Some(started);
    }
  }

  // ---- Runs ----

  datatype Event =
    | Start(generation: nat)
    | Complete(generation: nat, response: Response, outcome: Outcome)
    | Mark(grantId: Id, now: int)
    | Leave

  ghost predicate Step(s: State, e: Event, t: State) {
    match e
    case Start(generation) => Started(s, t, generation)
    case Complete(generation, response, outcome) =>
      generation in s.inFlight && Completed(s, t, generation, response, outcome)
    case Mark(grantId, now) => Marked(s, t, grantId, now)
    case Leave => Unmounted(s, t)
  }

  ghost predicate Run(states: seq<State>, events: seq<Event>) {
    && |states| == |events| + 1
    && states[0] == State(0, map[], [], [], {})
    && forall i :: 0 <= i < |events| ==> Step(states[i], events[i], states[i + 1])
  }

  /** What is shown is the answer applied last with all local revocations laid over it. */
  ghost predicate Inv(s: State) {
    && s.shown == ApplyLocalRevocations(s.loaded, s.revokedAtByGrant)
    && forall g <- s.inFlight :: g <= s.generation
  }

  /** Laying on one more revocation is the same as laying all of them on afresh. */
  lemma {:induction false} RevocationsAccumulate(
      connections: seq<Connection>, revoked: map<Id, int>, grantId: Id, now: int)
    ensures ApplyLocalRevocations(ApplyLocalRevocations(connections, revoked), revoked[grantId := now])
            == ApplyLocalRevocations(connections, revoked[grantId := now])
  {
    var more := revoked[grantId := now];
    forall i | 0 <= i < |connections|
      ensures WithRevocation(WithRevocation(connections[i], revoked), more) == WithRevocation(connections[i], more)
    {
    }
  }

  lemma {:induction false} StepKeepsInv(s: State, e: Event, t: State)
    requires Inv(s) && Step(s, e, t)
    ensures Inv(t)
    ensures s.generation <= t.generation && s.revokedAtByGrant.Keys <= t.revokedAtByGrant.Keys
    ensures forall g <- t.inFlight :: g in s.inFlight || g > s.generation
  {
    if e.Mark? {
      RevocationsAccumulate(s.loaded, s.revokedAtByGrant, e.grantId, e.now);
    }
  }

  lemma {:induction false} RunKeepsInv(states: seq<State>, events: seq<Event>, i: nat)
    requires Run(states, events) && i < |states|
    ensures Inv(states[i])
  {
    if i > 0 {
      RunKeepsInv(states, events, i - 1);
      StepKeepsInv(states[i - 1], events[i - 1], states[i]);
    }
  }

  lemma {:induction false} RunMovesForward(states: seq<State>, events: seq<Event>, i: nat, j: nat)
    requires Run(states, events) && i <= j < |states|
    ensures states[i].generation <= states[j].generation
    ensures states[i].revokedAtByGrant.Keys <= states[j].revokedAtByGrant.Keys
    ensures forall g <- states[j].inFlight :: g in states[i].inFlight || g > states[i].generation
    decreases j
  {
    if i < j {
      RunMovesForward(states, events, i, j - 1);
      RunKeepsInv(states, events, j - 1);
      StepKeepsInv(states[j - 1], events[j - 1], states[j]);
    }
  }

  ghost predicate AppliedAt(events: seq<Event>, i: nat) {
    i < |events| && events[i].Complete? && events[i].outcome == Applied
  }

  /** Latest wins: what is applied later was started later. */
  lemma {:induction false} AppliedGenerationsIncrease(states: seq<State>, events: seq<Event>, i: nat, j: nat)
    requires Run(states, events) && i < j && AppliedAt(events, i) && AppliedAt(events, j)
    ensures events[i].generation < events[j].generation
  {
    RunMovesForward(states, events, i + 1, j);
    RunKeepsInv(states, events, i);
    assert Step(states[i], events[i], states[i + 1]) && Step(states[j], events[j], states[j + 1]);
  }

  lemma {:induction false} QuietStretch(states: seq<State>, events: seq<Event>, i: nat, j: nat)
    requires Run(states, events) && i <= j < |states|
    requires forall k :: i <= k < j ==> !events[k].Start? && !events[k].Leave?
    ensures states[j].generation == states[i].generation
    decreases j
  {
    if i < j {
      QuietStretch(states, events, i, j - 1);
      assert Step(states[j - 1], events[j - 1], states[j]);
    }
  }

  /** An applied answer belongs to the refresh started last, and to no other. */
  lemma {:induction false} AppliedIsNewest(states: seq<State>, events: seq<Event>, i: nat, j: nat)
    requires Run(states, events) && i < j && AppliedAt(events, j) && i < |events| && events[i].Start?
    ensures events[i].generation <= events[j].generation
    ensures events[i].generation == events[j].generation <==>
            forall k :: i < k < j ==> !events[k].Start? && !events[k].Leave?
  {
    assert Step(states[i], events[i], states[i + 1]) && Step(states[j], events[j], states[j + 1]);
    RunMovesForward(states, events, i + 1, j);
    if k :| i < k < j && (events[k].Start? || events[k].Leave?) {
      assert Step(states[k], events[k], states[k + 1]);
      RunMovesForward(states, events, i + 1, k);
      RunMovesForward(states, events, k + 1, j);
    } else {
      QuietStretch(states, events, i + 1, j);
    }
  }

  lemma {:induction false} StartOf(states: seq<State>, events: seq<Event>, i: nat, j: nat, generation: nat)
    returns (k: nat)
    requires Run(states, events) && i <= j < |states|
    requires generation in states[j].inFlight && generation !in states[i].inFlight
    ensures i <= k < j && events[k] == Start(generation)
    decreases j
  {
    assert Step(states[j - 1], events[j - 1], states[j]);
    if generation in states[j - 1].inFlight {
      k := StartOf(states, events, i, j - 1, generation);
    } else {
      k := j - 1;
    }
  }

  /** Once the panel is gone, no answer to an earlier refresh is applied. */
  lemma {:induction false} NothingAppliesAfterLeaving(states: seq<State>, events: seq<Event>, i: nat, j: nat)
    requires Run(states, events) && i < j && AppliedAt(events, j) && events[i].Leave?
    ensures exists k :: i < k < j && events[k] == Start(events[j].generation)
  {
    assert Step(states[i], events[i], states[i + 1]) && Step(states[j], events[j], states[j + 1]);
    RunKeepsInv(states, events, i);
    RunMovesForward(states, events, i + 1, j);
    var k := StartOf(states, events, i + 1, j, events[j].generation);
  }

  /** Once a grant is marked revoked, no list that is shown later has it active. */
  lemma {:induction false} RevocationSticks(states: seq<State>, events: seq<Event>, i: nat, j: nat)
    requires Run(states, events) && i < j < |states| && events[i].Mark?
    ensures forall c <- states[j].shown :: c.grantId == events[i].grantId ==>
              && c.status == Revoked
              && c.grantId in states[j].revokedAtByGrant
              && c.revokedAt == Some(states[j].revokedAtByGrant[c.grantId])
  {
    assert Step(states[i], events[i], states[i + 1]);
    RunMovesForward(states, events, i + 1, j);
    RunKeepsInv(states, events, j);
    assert events[i].grantId in states[j].revokedAtByGrant.Keys;
  }

  lemma {:induction false} LoadedStays(states: seq<State>, events: seq<Event>, i: nat, j: nat)
    requires Run(states, events) && i <= j < |states|
    requires forall k :: i <= k < j ==> !AppliedAt(events, k)
    ensures states[j].loaded == states[i].loaded
    decreases j
  {
    if i < j {
      LoadedStays(states, events, i, j - 1);
      assert Step(states[j - 1], events[j - 1], states[j]) && !AppliedAt(events, j - 1);
    }
  }

  /**
   * And nothing else is touched: what is shown is, place by place, the answer applied last, except
   * for the grants that were marked revoked.
   */
  lemma {:induction false} ShownIsLatestAnswer(states: seq<State>, events: seq<Event>, i: nat, j: nat)
    requires Run(states, events) && i < j < |states| && AppliedAt(events, i)
    requires forall k :: i < k < j ==> !AppliedAt(events, k)
    ensures events[i].response.Loaded? && |states[j].shown| == |events[i].response.connections|
    ensures forall n :: 0 <= n < |states[j].shown| ==>
              states[j].shown[n] == WithRevocation(events[i].response.connections[n], states[j].revokedAtByGrant)
  {
    assert Step(states[i], events[i], states[i + 1]);
    LoadedStays(states, events, i + 1, j);
    RunKeepsInv(states, events, j);
  }

  /** Refresh `generation` was started at `i`, and nothing was started or left until `j`. */
  ghost predicate NewestSince(events: seq<Event>, i: int, j: nat, generation: nat)
    requires j <= |events|
  {
    && 0 <= i < j && events[i] == Start(generation)
    && forall k :: i < k < j ==> !events[k].Start? && !events[k].Leave?
  }

  lemma {:induction false} StartsDiffer(states: seq<State>, events: seq<Event>, i: nat, l: nat)
    requires Run(states, events) && i < |events| && l < |events|
    requires events[i].Start? && events[l].Start? && events[i].generation == events[l].generation
    ensures i == l
  {
    assert Step(states[i], events[i], states[i + 1]) && Step(states[l], events[l], states[l + 1]);
    if i < l {
      RunMovesForward(states, events, i + 1, l);
    } else if l < i {
      RunMovesForward(states, events, l + 1, i);
    }
  }

  lemma {:induction false} NewestIff(states: seq<State>, events: seq<Event>, j: nat, generation: nat)
    requires Run(states, events) && j < |states| && generation in states[j].inFlight
    ensures states[j].generation == generation <==> exists i :: NewestSince(events, i, j, generation)
  {
    var i := StartOf(states, events, 0, j, generation);
    assert Step(states[i], events[i], states[i + 1]);
    if k :| i < k < j && (events[k].Start? || events[k].Leave?) {
      assert Step(states[k], events[k], states[k + 1]);
      RunMovesForward(states, events, i + 1, k);
      RunMovesForward(states, events, k + 1, j);
      forall l | NewestSince(events, l, j, generation) ensures l == i {
        StartsDiffer(states, events, i, l);
      }
    } else {
      QuietStretch(states, events, i + 1, j);
      assert NewestSince(events, i, j, generation);
    }
  }

  /**
   * An answer is stale exactly when something was started or left since its refresh; otherwise it is
   * applied if it was loaded, and thrown if not. So the newest answer that arrives whole is shown.
   */
  lemma {:induction false} OutcomesIff(states: seq<State>, events: seq<Event>, j: nat)
    requires Run(states, events) && j < |events| && events[j].Complete?
    ensures var newest := exists i :: NewestSince(events, i, j, events[j].generation);
            && (events[j].outcome == Applied <==> newest && events[j].response.Loaded?)
            && (events[j].outcome == Thrown <==> newest && !events[j].response.Loaded?)
            && (events[j].outcome == Stale <==> !newest)
  {
    assert Step(states[j], events[j], states[j + 1]);
    NewestIff(states, events, j, events[j].generation);
  }

  /** The last mark on this grant before `j`. */
  ghost predicate LastMark(events: seq<Event>, m: int, j: nat, grantId: Id)
    requires j <= |events|
  {
    && 0 <= m < j && events[m].Mark? && events[m].grantId == grantId
    && forall k :: m < k < j ==> !(events[k].Mark? && events[k].grantId == grantId)
  }

  lemma {:induction false} MarksAreKept(states: seq<State>, events: seq<Event>, j: nat, grantId: Id)
    requires Run(states, events) && j < |states|
    ensures grantId in states[j].revokedAtByGrant <==> exists m :: LastMark(events, m, j, grantId)
    ensures forall m :: LastMark(events, m, j, grantId) ==>
              grantId in states[j].revokedAtByGrant && states[j].revokedAtByGrant[grantId] == events[m].now
  {
    if j > 0 {
      var n := j - 1;
      MarksAreKept(states, events, n, grantId);
      assert Step(states[n], events[n], states[j]);
      if events[n].Mark? && events[n].grantId == grantId {
        assert LastMark(events, n, j, grantId);
      } else {
        forall m ensures LastMark(events, m, j, grantId) <==> LastMark(events, m, n, grantId) {
        }
      }
    }
  }

  /** One connection as it is shown at `j`: as it was answered, unless its grant was marked revoked. */
  ghost predicate ShownAs(events: seq<Event>, j: nat, answered: Connection, shown: Connection)
    requires j <= |events|
  {
    && shown.grantId == answered.grantId && shown.details == answered.details
    && ((forall m :: !LastMark(events, m, j, answered.grantId)) ==> shown == answered)
    && (forall m :: LastMark(events, m, j, answered.grantId) ==>
          shown.status == Revoked && shown.revokedAt == Some(events[m].now))
  }

  /**
   * What is shown, told by the events: place by place the answer applied last, and over it the last
   * mark on each grant, with its time.
   */
  lemma {:induction false} ShownByHistory(states: seq<State>, events: seq<Event>, i: nat, j: nat)
    requires Run(states, events) && i < j < |states| && AppliedAt(events, i)
    requires forall k :: i < k < j ==> !AppliedAt(events, k)
    ensures events[i].response.Loaded? && |states[j].shown| == |events[i].response.connections|
    ensures forall n :: 0 <= n < |states[j].shown| ==>
              ShownAs(events, j, events[i].response.connections[n], states[j].shown[n])
  {
    ShownIsLatestAnswer(states, events, i, j);
    forall n | 0 <= n < |states[j].shown|
      ensures ShownAs(events, j, events[i].response.connections[n], states[j].shown[n])
    {
      MarksAreKept(states, events, j, events[i].response.connections[n].grantId);
    }
  }
}
