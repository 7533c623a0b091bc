/**
 * What every run of the owner authentication batches keeps: one session, one owner whose two rows
 * agree, challenges used once, counters that are maxima, and one consumed invitation per owner.
 */
module OwnerAuthRuns {
  import opened Common
  import opened Tickets
  import opened OwnerAuth

  datatype Event =
    | Create(hash: Id, body: Challenge, now: int, claim: Option<OwnerClaim>)
    | Consume(hash: Id, ceremony: Ceremony, now: int)
    | ClaimOwner(registrant: Registrant, token: Id, session: Session, now: int, managed: bool)
    | Authenticate(
        credentialId: Id, counter: nat, device: Device, backedUp: bool, token: Id, session: Session, now: int)
    | AddCredential(registrant: Registrant)
    | Logout(token: Id)
    | RotateCsrf(token: Id, csrfHash: Id, now: int)
    | Install(hostname: Id, configuredAt: nat, token: Id, reference: Id, expiresAt: int)

  /** The outcome of a batch that may be undone. */
  predicate Commits(next: Option<Auth>, a: Auth, a': Auth) {
    a' == if next.Some? then next.value else a
  }

  ghost predicate Step(a: Auth, e: Event, a': Auth) {
    match e
    case Create(hash, body, now, claim) => Commits(ChallengeCreated(a, hash, body, now, claim), a, a')
    case Consume(hash, ceremony, now) => a' == ChallengeConsumed(a, hash, ceremony, now)
    case ClaimOwner(r, token, session, now, managed) => FirstOwner(a, r, token, session, now, managed, a')
    case Authenticate(credentialId, counter, device, backedUp, token, session, now) =>
      Commits(AuthenticationCommitted(a, credentialId, counter, device, backedUp, token, session, now), a, a')
    case AddCredential(r) => a' == CredentialAdded(a, r)
    case Logout(token) => a' == SessionRevoked(a, token)
    case RotateCsrf(token, csrfHash, now) => a' == CsrfRotated(a, token, csrfHash, now)
    case Install(hostname, configuredAt, token, reference, expiresAt) =>
      Commits(InvitationInstalled(a, hostname, configuredAt, token, reference, expiresAt), a, a')
  }

  // ---- Invariants --------------------------------------------------------------------------

  ghost predicate AtMostOneSession(sessions: map<Id, Session>) {
    forall s, t :: s in sessions && t in sessions ==> s == t
  }

  /** Sessions and passkeys exist only with an owner, whose own row equals one of the passkeys. */
  ghost predicate OwnerRowsAgree(a: Auth) {
    match a.owner
    case None => a.sessions == map[] && a.credentials == map[]
    case Some(o) => o.credentialId in a.credentials && a.credentials[o.credentialId] == o.passkey
  }

  ghost predicate AccountInv(a: Auth) {
    AtMostOneSession(a.sessions) && OwnerRowsAgree(a) && OneClaimPerUser(a.claims)
  }

  lemma {:induction false} ClaimKeepsAccount(
      a: Auth, r: Registrant, token: Id, session: Session, now: int, managed: bool, a': Auth)
    requires AccountInv(a) && FirstOwner(a, r, token, session, now, managed, a')
    ensures AccountInv(a')
  {
  }

  lemma {:induction false} ChallengeKeepsAccount(
      a: Auth, hash: Id, body: Challenge, now: int, claim: Option<OwnerClaim>)
    requires AccountInv(a) && ChallengeCreated(a, hash, body, now, claim).Some?
    ensures AccountInv(ChallengeCreated(a, hash, body, now, claim).value)
  {
    var a' := ChallengeCreated(a, hash, body, now, claim).value;
    assert a.owner.None? ==> a'.sessions == map[];
  }

  lemma {:induction false} StepKeepsAccount(a: Auth, e: Event, a': Auth)
    requires AccountInv(a) && Step(a, e, a')
    ensures AccountInv(a')
  {
    match e
    case Create(hash, body, now, claim) =>
      if a' != a {
        ChallengeKeepsAccount(a, hash, body, now, claim);
      }
    case ClaimOwner(r, token, session, now, managed) => ClaimKeepsAccount(a, r, token, session, now, managed, a');
    case Logout(token) =>
      assert a.owner.None? ==> a'.sessions == map[];
    case _ =>
  }

  // ---- Runs --------------------------------------------------------------------------------

  const EMPTY := Auth(map[], map[], None, map[], None, map[], map[])

  /** A run from an empty store; every challenge is created under a token that was never used before. */
  ghost predicate Run(states: seq<Auth>, es: seq<Event>) {
    && |states| == |es| + 1 && states[0] == EMPTY
    && (forall i :: 0 <= i < |es| ==> Step(states[i], es[i], states[i + 1]))
    && (forall i, j :: 0 <= i < j < |es| && es[i].Create? && es[j].Create? ==> es[i].hash != es[j].hash)
  }

  /** At every point of every run there is at most one session, and the owner's two rows agree. */
  lemma {:induction false} AccountOverRuns(states: seq<Auth>, es: seq<Event>, i: nat)
    requires Run(states, es) && i < |states|
    ensures AccountInv(states[i]) && |states[i].sessions| <= 1
  {
    if i > 0 {
      AccountOverRuns(states, es, i - 1);
      StepKeepsAccount(states[i - 1], es[i - 1], states[i]);
    }
    if t :| t in states[i].sessions {
      assert states[i].sessions.Keys == {t};
      assert |states[i].sessions| == |states[i].sessions.Keys|;
    }
  }

  // ---- Challenges are used once ------------------------------------------------------------

  function Hashes(es: seq<Event>): set<Id> {
    set i | 0 <= i < |es| && es[i].Create? :: es[i].hash
  }

  /** The challenge hashes consumed so far. */
  ghost function Spent(states: seq<Auth>, es: seq<Event>): map<Id, ()>
    requires |states| >= |es|
  {
    if es == [] then map[] else
    var i := |es| - 1;
    var before := Spent(states, es[..i]);
    if es[i].Consume? && ConsumesChallenge(states[i], es[i].hash, es[i].ceremony, es[i].now)
    then before[es[i].hash := ()] else before
  }

  /** One step with the token hashes issued and spent before it. */
  lemma {:induction false} StepAccounted(a: Auth, e: Event, a': Auth, issued: set<Id>, spent: map<Id, ()>)
    requires Step(a, e, a') && Accounted(a.challenges, issued, spent)
    requires e.Create? ==> e.hash !in issued
    ensures Accounted(
              a'.challenges,
              issued + if e.Create? then {e.hash} else {},
              if e.Consume? && ConsumesChallenge(a, e.hash, e.ceremony, e.now) then spent[e.hash := ()] else spent)
  {
    match e
    case Create(hash, body, now, _) =>
      IssueAccounted(a.challenges, issued, spent, hash, body, now, CHALLENGE_SECONDS);
      assert a'.challenges == a.challenges || a'.challenges == Issued(a.challenges, hash, body, now, CHALLENGE_SECONDS);
    case Consume(hash, ceremony, now) =>
      if ConsumesChallenge(a, hash, ceremony, now) {
        UseAccounted(a.challenges, issued, spent, hash, now, ());
      }
    case _ => assert a'.challenges == a.challenges;
  }

  lemma {:induction false} HashesGrow(es: seq<Event>, n: nat)
    requires 0 < n <= |es|
    requires forall i, j :: 0 <= i < j < |es| && es[i].Create? && es[j].Create? ==> es[i].hash != es[j].hash
    ensures Hashes(es[..n]) == Hashes(es[..n - 1]) + (if es[n - 1].Create? then {es[n - 1].hash} else {})
    ensures es[n - 1].Create? ==> es[n - 1].hash !in Hashes(es[..n - 1])
  {
    forall h | h in Hashes(es[..n])
      ensures h in Hashes(es[..n - 1]) + (if es[n - 1].Create? then {es[n - 1].hash} else {})
    {
      var i :| 0 <= i < n && es[..n][i].Create? && es[..n][i].hash == h;
      assert i < n - 1 ==> es[..n - 1][i] == es[i];
    }
    forall h | h in Hashes(es[..n - 1]) ensures h in Hashes(es[..n]) {
      var i :| 0 <= i < n - 1 && es[..n - 1][i].Create? && es[..n - 1][i].hash == h;
      assert es[..n][i] == es[i];
    }
    if es[n - 1].Create? {
      assert es[..n][n - 1].hash in Hashes(es[..n]);
    }
  }

  lemma {:induction false} ChallengesAccounted(states: seq<Auth>, es: seq<Event>, n: nat)
    requires Run(states, es) && n <= |es|
    ensures Accounted(states[n].challenges, Hashes(es[..n]), Spent(states, es[..n]))
  {
    if n > 0 {
      ChallengesAccounted(states, es, n - 1);
      var a, e, a' := states[n - 1], es[n - 1], states[n];
      assert es[..n][..n - 1] == es[..n - 1] && es[..n][n - 1] == e;
      assert Step(a, e, a');
      HashesGrow(es, n);
      StepAccounted(a, e, a', Hashes(es[..n - 1]), Spent(states, es[..n - 1]));
    }
  }

  lemma {:induction false} SpentStaysSpent(states: seq<Auth>, es: seq<Event>, i: nat, j: nat)
    requires |states| >= |es| && i < j <= |es| && es[i].Consume?
    requires ConsumesChallenge(states[i], es[i].hash, es[i].ceremony, es[i].now)
    ensures es[i].hash in Spent(states, es[..j])
  {
    assert es[..j][..j - 1] == es[..j - 1] && es[..j][j - 1] == es[j - 1];
    if i < j - 1 {
      SpentStaysSpent(states, es, i, j - 1);
    }
  }

  /** A passkey challenge is consumed at most once, and only while it has not expired. */
  lemma {:induction false} ChallengesAreUsedOnce(states: seq<Auth>, es: seq<Event>, i: nat, j: nat)
    requires Run(states, es) && i <= j < |es| && es[i].Consume? && es[j].Consume? && es[i].hash == es[j].hash
    requires ConsumesChallenge(states[i], es[i].hash, es[i].ceremony, es[i].now)
    requires ConsumesChallenge(states[j], es[j].hash, es[j].ceremony, es[j].now)
    ensures i == j && states[i].challenges[es[i].hash].expiresAt > es[i].now
  {
    if i < j {
      SpentStaysSpent(states, es, i, j);
      ChallengesAccounted(states, es, j);
    }
  }

  // ---- Counters are maxima -----------------------------------------------------------------

  /**
   * The counter that an event presents for credential `c`: the registrant's when it is registered,
   * the authenticator's when it signs in.
   */
  function Presented(a: Auth, e: Event, a': Auth, c: Id): Option<nat> {
    match e
    case ClaimOwner(r, _, _, _, _) =>
      if r.credentialId == c && a.owner.None? && a'.owner.Some? then Some(r.passkey.counter) else None
    case AddCredential(r) =>
      if r.credentialId == c && AddsCredential(a, r) then Some(r.passkey.counter) else None
    case Authenticate(credentialId, counter, _, _, _, _, _) =>
      if credentialId == c && c in a.credentials then Some(counter) else None
    case _ => None
  }

  ghost predicate IsMaximum(ps: seq<Option<nat>>, m: nat) {
    Some(m) in ps && forall i :: 0 <= i < |ps| && ps[i].Some? ==> ps[i].value <= m
  }

  function CounterOf(a: Auth, c: Id): Option<nat> {
    if c in a.credentials then Some(a.credentials[c].counter) else None
  }

  /** How a counter moves when a value is presented, or none. */
  predicate Moves(before: Option<nat>, presented: Option<nat>, after: Option<nat>) {
    match before
    case None => after == presented
    case Some(m) => after == Some(if presented.Some? && presented.value > m then presented.value else m)
  }

  lemma {:induction false} MovesReachMaximum(counters: seq<Option<nat>>, ps: seq<Option<nat>>)
    requires |counters| == |ps| + 1 && counters[0].None?
    requires forall i :: 0 <= i < |ps| ==> Moves(counters[i], ps[i], counters[i + 1])
    ensures counters[|ps|].Some? ==> IsMaximum(ps, counters[|ps|].value)
    ensures counters[|ps|].None? ==> forall i :: 0 <= i < |ps| ==> ps[i].None?
  {
    if |ps| > 0 {
      var n := |ps| - 1;
      MovesReachMaximum(counters[..|ps|], ps[..n]);
      assert Moves(counters[n], ps[n], counters[n + 1]);
      if counters[n].Some? {
        var i :| 0 <= i < n && ps[..n][i] == Some(counters[n].value);
        assert ps[i] == Some(counters[n].value);
      }
      assert ps[n] in ps;
      forall i | 0 <= i < |ps| && ps[i].Some? ensures i == n || ps[..n][i] == ps[i] {
      }
    }
  }

  lemma {:induction false} CounterMoves(a: Auth, e: Event, a': Auth, c: Id)
    requires AccountInv(a) && Step(a, e, a')
    ensures Moves(CounterOf(a, c), Presented(a, e, a', c), CounterOf(a', c))
  {
  }

  ghost function Presentations(states: seq<Auth>, es: seq<Event>, n: nat, c: Id): seq<Option<nat>>
    requires n <= |es| < |states|
  {
    seq(n, i requires 0 <= i < n => Presented(states[i], es[i], states[i + 1], c))
  }

  /** A credential's counter is the maximum of the initial and all later presented values. */
  lemma {:induction false} CounterIsMaximum(states: seq<Auth>, es: seq<Event>, n: nat, c: Id)
    requires Run(states, es) && n <= |es| && c in states[n].credentials
    ensures IsMaximum(Presentations(states, es, n, c), states[n].credentials[c].counter)
  {
    var counters := seq(n + 1, i requires 0 <= i <= n => CounterOf(states[i], c));
    var ps := Presentations(states, es, n, c);
    forall i | 0 <= i < n ensures Moves(counters[i], ps[i], counters[i + 1]) {
      AccountOverRuns(states, es, i);
      assert Step(states[i], es[i], states[i + 1]);
      CounterMoves(states[i], es[i], states[i + 1], c);
    }
    MovesReachMaximum(counters, ps);
  }

  // ---- The first-owner claim ---------------------------------------------------------------

  function Consumed(invitations: map<Id, Invitation>): set<Id> {
    set t | t in invitations && invitations[t].consumedAt.Some?
  }

  /** The host was configured, and so far either nothing was claimed or one invitation was consumed. */
  ghost predicate ClaimInv(a: Auth) {
    && a.configuration.Some?
    && (a.configuration.value.claimedAt.Some? <==> a.owner.Some?)
    && |Consumed(a.invitations)| == (if a.owner.Some? then 1 else 0)
  }

  lemma {:induction false} ConsumesOneMore(a: Auth, r: Registrant, token: Id, session: Session, f: Id, now: int)
    requires Permits(a, f, r.passkey.userId, now)
    ensures var a' := InvitationUsed(OwnerInserted(a, r, token, session), f, now);
            && Consumed(a'.invitations) == Consumed(a.invitations) + {a.claims[f].invitation}
            && a.claims[f].invitation !in Consumed(a.invitations)
  {
  }

  lemma {:induction false} ClaimKeepsClaimInv(a: Auth, r: Registrant, token: Id, session: Session, now: int, a': Auth)
    requires ClaimInv(a) && FirstOwner(a, r, token, session, now, true, a')
    ensures ClaimInv(a')
  {
    if a' != a {
      var f :| Permits(a, f, r.passkey.userId, now)
               && a' == InvitationUsed(OwnerInserted(a, r, token, session), f, now);
      ConsumesOneMore(a, r, token, session, f, now);
    }
  }

  lemma {:induction false} InstallConsumesNothing(
      a: Auth, hostname: Id, configuredAt: nat, token: Id, reference: Id, expiresAt: int)
    requires InvitationInstalled(a, hostname, configuredAt, token, reference, expiresAt).Some?
    ensures var a' := InvitationInstalled(a, hostname, configuredAt, token, reference, expiresAt).value;
            Consumed(a'.invitations) == Consumed(a.invitations)
  {
  }

  lemma {:induction false} StepKeepsClaim(a: Auth, e: Event, a': Auth)
    requires ClaimInv(a) && Step(a, e, a') && (e.ClaimOwner? ==> e.managed)
    ensures ClaimInv(a')
  {
    match e
    case ClaimOwner(r, token, session, now, _) => ClaimKeepsClaimInv(a, r, token, session, now, a');
    case Install(hostname, configuredAt, token, reference, expiresAt) =>
      if a' != a {
        InstallConsumesNothing(a, hostname, configuredAt, token, reference, expiresAt);
      }
    case _ => assert a'.invitations == a.invitations && a'.configuration == a.configuration;
  }

  lemma {:induction false} OwnersStay(a: Auth, e: Event, a': Auth)
    requires Step(a, e, a')
    ensures a.owner.Some? ==> a'.owner.Some? && a'.owner.value.credentialId == a.owner.value.credentialId
    ensures a'.owner.None? ==> a'.configuration == a.configuration || e.Install?
  {
  }

  lemma {:induction false} UnownedMeansUnclaimed(states: seq<Auth>, es: seq<Event>, n: nat)
    requires Run(states, es) && n < |states| && states[n].owner.None?
    ensures states[n].configuration.Some? ==> states[n].configuration.value.claimedAt.None?
    ensures Consumed(states[n].invitations) == {}
  {
    if n > 0 {
      assert Step(states[n - 1], es[n - 1], states[n]);
      OwnersStay(states[n - 1], es[n - 1], states[n]);
      UnownedMeansUnclaimed(states, es, n - 1);
      assert forall t :: t in states[n].invitations && states[n].invitations[t].consumedAt.Some? ==>
                           t in Consumed(states[n - 1].invitations);
    }
  }

  /**
   * From the moment the host is configured, while every claim is made in managed mode and nothing was
   * claimed before: consumed invitations = owners <= 1, and the host is claimed exactly when owned.
   */
  lemma {:induction false} InvitationsMatchOwners(states: seq<Auth>, es: seq<Event>, k: nat, n: nat)
    requires Run(states, es) && k <= n < |states|
    requires states[k].configuration.Some? && states[k].owner.None?
    requires forall i :: 0 <= i < |es| && es[i].ClaimOwner? ==> es[i].managed
    ensures ClaimInv(states[n])
    decreases n
  {
    if n > k {
      InvitationsMatchOwners(states, es, k, n - 1);
      assert Step(states[n - 1], es[n - 1], states[n]);
      StepKeepsClaim(states[n - 1], es[n - 1], states[n]);
    } else {
      UnownedMeansUnclaimed(states, es, k);
    }
  }

  /** One managed claim is all or nothing: it takes the only invitation it may, or leaves no trace. */
  lemma {:induction false} ClaimIsAllOrNothing(a: Auth, e: Event, a': Auth)
    requires ClaimInv(a) && AccountInv(a) && e.ClaimOwner? && e.managed && Step(a, e, a')
    ensures || a' == a
            || (&& a.owner.None? && a'.owner == Some(Owner(e.registrant.credentialId, e.registrant.passkey))
                && a'.credentials == map[e.registrant.credentialId := e.registrant.passkey]
                && a'.sessions == map[e.token := e.session]
                && a'.configuration == Some(a.configuration.value.(claimedAt := Some(e.now)))
                && (exists f :: Permits(a, f, e.registrant.passkey.userId, e.now)
                                && Consumed(a'.invitations) == {a.claims[f].invitation})
                && a'.challenges == a.challenges && a'.claims == a.claims)
    ensures a' != a <==>
            a.owner.None? && exists f :: Permits(a, f, e.registrant.passkey.userId, e.now) && ClockFits(a, f, e.now)
  {
    if a' != a {
      var f :| Permits(a, f, e.registrant.passkey.userId, e.now)
               && a' == InvitationUsed(OwnerInserted(a, e.registrant, e.token, e.session), f, e.now);
      ConsumesOneMore(a, e.registrant, e.token, e.session, f, e.now);
      assert Consumed(a.invitations) == {};
      assert Consumed(a'.invitations) == {a.claims[f].invitation};
    }
  }
}
