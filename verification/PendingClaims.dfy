/**
 * What becomes of a managed registration between its two batches. Its claim row lives only as long
 * as its challenge row, and a consumed challenge row is swept by the next challenge that is created.
 * On a managed host without an owner only a holder of a live invitation can create one, the same
 * holder asking again or another one (auth-routes.ts:282-360).
 */
module PendingClaims {
  import opened Common
  import opened Tickets
  import opened OwnerAuth
  import opened OwnerAuthRuns

  /** Event `k` is a challenge creation that committed. */
  ghost predicate CreatesAt(states: seq<Auth>, es: seq<Event>, k: int)
    requires |states| == |es| + 1
  {
    && 0 <= k < |es| && es[k].Create?
    && ChallengeCreated(states[k], es[k].hash, es[k].body, es[k].now, es[k].claim).Some?
  }

  /** No creation committed between events `i` and `j`. */
  ghost predicate NoneCreated(states: seq<Auth>, es: seq<Event>, i: nat, j: nat)
    requires |states| == |es| + 1
  {
    forall k :: i < k < j ==> !CreatesAt(states, es, k)
  }

  /** Event `i` consumed challenge `f`, and `f` carries a claim. */
  ghost predicate ConsumesClaimAt(states: seq<Auth>, es: seq<Event>, i: nat, f: Id)
    requires |states| == |es| + 1
  {
    && i < |es| && es[i].Consume? && es[i].hash == f
    && ConsumesChallenge(states[i], f, es[i].ceremony, es[i].now)
    && f in states[i].claims
  }

  /** A committed creation under another hash drops the claim of a used challenge, and only creations do. */
  lemma {:induction false} StepOnClaim(a: Auth, e: Event, a': Auth, f: Id)
    requires Step(a, e, a') && f in a.claims
    requires f in a.challenges ==> a.challenges[f].used.Some?
    requires e.Create? ==> e.hash != f
    ensures f in a'.claims <==>
            !(e.Create? && ChallengeCreated(a, e.hash, e.body, e.now, e.claim).Some?)
    ensures f in a'.claims ==> a'.claims[f] == a.claims[f]
  {
  }

  lemma {:induction false} LostClaimsStayLost(a: Auth, e: Event, a': Auth, f: Id)
    requires Step(a, e, a') && f !in a.claims
    requires e.Create? ==> e.hash != f
    ensures f !in a'.claims
  {
  }

  /** A hash whose challenge was consumed is not used for another challenge, and its row stays used. */
  lemma {:induction false} ConsumedIsSettled(states: seq<Auth>, es: seq<Event>, i: nat, j: nat, f: Id)
    requires Run(states, es) && ConsumesClaimAt(states, es, i, f) && i < j < |es|
    ensures f in states[j].challenges ==> states[j].challenges[f].used.Some?
    ensures es[j].Create? ==> es[j].hash != f
  {
    ChallengesAccounted(states, es, i);
    ChallengesAccounted(states, es, j);
    SpentStaysSpent(states, es, i, j);
    assert f in Hashes(es[..i]);
    var k :| 0 <= k < i && es[..i][k].Create? && es[..i][k].hash == f;
    assert es[k].Create? && es[k].hash == f;
  }

  lemma {:induction false} OneMoreNotCreated(states: seq<Auth>, es: seq<Event>, i: nat, n: nat)
    requires |states| == |es| + 1 && i < n
    ensures NoneCreated(states, es, i, n + 1) <==> NoneCreated(states, es, i, n) && !CreatesAt(states, es, n)
  {
  }

  lemma {:induction false} OneMoreEvent(states: seq<Auth>, es: seq<Event>, n: nat, f: Id)
    requires Run(states, es) && n < |es|
    requires f in states[n].challenges ==> states[n].challenges[f].used.Some?
    requires es[n].Create? ==> es[n].hash != f
    ensures f in states[n + 1].claims <==> f in states[n].claims && !CreatesAt(states, es, n)
    ensures f in states[n + 1].claims ==> states[n + 1].claims[f] == states[n].claims[f]
  {
    assert Step(states[n], es[n], states[n + 1]);
    if f in states[n].claims {
      StepOnClaim(states[n], es[n], states[n + 1], f);
    } else {
      LostClaimsStayLost(states[n], es[n], states[n + 1], f);
    }
  }

  lemma {:induction false} ClaimOneEventOn(states: seq<Auth>, es: seq<Event>, i: nat, n: nat, f: Id)
    requires Run(states, es) && ConsumesClaimAt(states, es, i, f) && i < n < |es|
    requires f in states[n].claims <==> NoneCreated(states, es, i, n)
    requires f in states[n].claims ==> states[n].claims[f] == states[i].claims[f]
    ensures f in states[n + 1].claims <==> NoneCreated(states, es, i, n + 1)
    ensures f in states[n + 1].claims ==> states[n + 1].claims[f] == states[i].claims[f]
  {
    ConsumedIsSettled(states, es, i, n, f);
    OneMoreEvent(states, es, n, f);
    OneMoreNotCreated(states, es, i, n);
  }

  lemma {:induction false} ConsumingKeepsClaims(states: seq<Auth>, es: seq<Event>, i: nat)
    requires Run(states, es) && i < |es| && es[i].Consume?
    ensures states[i + 1].claims == states[i].claims
  {
    assert Step(states[i], es[i], states[i + 1]);
  }

  /**
   * After its challenge was consumed, a claim is there exactly as long as nobody creates a challenge;
   * and while it is there it does not change.
   */
  lemma {:induction false} ClaimSurvivesIffNoChallenge(states: seq<Auth>, es: seq<Event>, i: nat, j: nat, f: Id)
    requires Run(states, es) && ConsumesClaimAt(states, es, i, f) && i < j < |states|
    ensures f in states[j].claims <==> NoneCreated(states, es, i, j)
    ensures f in states[j].claims ==> states[j].claims[f] == states[i].claims[f]
    decreases j
  {
    if j == i + 1 {
      ConsumingKeepsClaims(states, es, i);
    } else {
      var n: nat := j - 1;
      ClaimSurvivesIffNoChallenge(states, es, i, n, f);
      ClaimOneEventOn(states, es, i, n, f);
    }
  }

  // ---- The commit --------------------------------------------------------------------------

  /** Where a claim row came from: the creation of its challenge, for that user. */
  lemma {:induction false} ClaimOrigin(states: seq<Auth>, es: seq<Event>, n: nat, f: Id) returns (k: nat)
    requires Run(states, es) && n < |states| && f in states[n].claims
    ensures k < n && es[k].Create? && es[k].hash == f && es[k].claim.Some?
    ensures es[k].body.userId == Some(states[n].claims[f].userId)
  {
    assert n > 0;
    assert Step(states[n - 1], es[n - 1], states[n]);
    if f in states[n - 1].claims && states[n].claims[f] == states[n - 1].claims[f] {
      k := ClaimOrigin(states, es, n - 1, f);
    } else {
      k := n - 1;
    }
  }

  /** Claims name known invitations, and invitations exist only on a configured host. */
  ghost predicate Grounded(a: Auth) {
    && (forall f <- a.claims :: a.claims[f].invitation in a.invitations)
    && (a.invitations != map[] ==> a.configuration.Some?)
  }

  lemma {:induction false} StepKeepsGrounded(a: Auth, e: Event, a': Auth)
    requires Grounded(a) && Step(a, e, a')
    ensures Grounded(a')
    ensures a.configuration.Some? ==> a'.configuration.Some?
  {
  }

  lemma {:induction false} GroundedOverRuns(states: seq<Auth>, es: seq<Event>, n: nat)
    requires Run(states, es) && n < |states|
    ensures Grounded(states[n])
  {
    if n > 0 {
      GroundedOverRuns(states, es, n - 1);
      StepKeepsGrounded(states[n - 1], es[n - 1], states[n]);
    }
  }

  lemma {:induction false} SomeStays(states: seq<Auth>, i: nat, j: nat)
    requires i <= j < |states| && states[i].configuration.Some?
    requires forall n :: i <= n < j && states[n].configuration.Some? ==> states[n + 1].configuration.Some?
    ensures states[j].configuration.Some?
    decreases j
  {
    if i < j {
      SomeStays(states, i, j - 1);
    }
  }

  lemma {:induction false} ConfigurationIsKept(states: seq<Auth>, es: seq<Event>, n: nat)
    requires Run(states, es) && n < |es| && states[n].configuration.Some?
    ensures states[n + 1].configuration.Some?
  {
    GroundedOverRuns(states, es, n);
    StepKeepsGrounded(states[n], es[n], states[n + 1]);
  }

  lemma {:induction false} ConfigurationStays(states: seq<Auth>, es: seq<Event>, i: nat, j: nat)
    requires Run(states, es) && i <= j < |states| && states[i].configuration.Some?
    ensures states[j].configuration.Some?
  {
    forall n | i <= n < j && states[n].configuration.Some? ensures states[n + 1].configuration.Some? {
      ConfigurationIsKept(states, es, n);
    }
    SomeStays(states, i, j);
  }

  /** Everything about host, claim and invitation that a managed commit at time `now` asks for. */
  predicate Usable(a: Auth, claim: Claim, now: int) {
    && a.configuration.Some? && claim.invitation in a.invitations
    && var (host, invitation) := (a.configuration.value, a.invitations[claim.invitation]);
       && host.claimedAt.None? && host.configuredAt <= now
       && claim.hostname == host.hostname && now < claim.expiresAt
       && invitation.hostname == host.hostname && invitation.consumedAt.None?
       && invitation.createdAt <= now < invitation.expiresAt
  }

  lemma {:induction false} PermittedIffUsable(a: Auth, f: Id, userId: Id, now: int)
    requires forall g <- a.claims :: a.claims[g].userId == userId ==> g == f
    ensures (exists g :: Permits(a, g, userId, now) && ClockFits(a, g, now)) <==>
            f in a.claims && a.claims[f].userId == userId && Usable(a, a.claims[f], now)
  {
    if f in a.claims && a.claims[f].userId == userId && Usable(a, a.claims[f], now) {
      assert Permits(a, f, userId, now) && ClockFits(a, f, now);
    }
  }

  ghost predicate CommitsAt(states: seq<Auth>, j: nat)
    requires j + 1 < |states|
  {
    states[j].owner.None? && states[j + 1].owner.Some?
  }

  lemma {:induction false} ManagedCommitIffPermitted(a: Auth, e: Event, a': Auth)
    requires AccountInv(a) && Step(a, e, a') && e.ClaimOwner? && e.managed && a.configuration.Some?
    ensures a.owner.None? && a'.owner.Some? <==>
            a.owner.None? && exists g :: Permits(a, g, e.registrant.passkey.userId, e.now) && ClockFits(a, g, e.now)
  {
  }

  /** A random user id appears in one challenge only. */
  ghost predicate UserIdIsFresh(es: seq<Event>, f: Id, userId: Id) {
    forall k :: 0 <= k < |es| && es[k].Create? && es[k].claim.Some? && es[k].body.userId == Some(userId) ==>
      es[k].hash == f
  }

  /**
   * A managed registration whose challenge was consumed commits exactly when nobody created a
   * challenge in between, there is no owner yet, and host, claim and invitation are still usable.
   */
  lemma {:induction false} PendingClaimCommitsIff(states: seq<Auth>, es: seq<Event>, i: nat, j: nat, f: Id)
    requires Run(states, es) && ConsumesClaimAt(states, es, i, f) && i < j < |es|
    requires es[j].ClaimOwner? && es[j].managed && es[j].registrant.passkey.userId == states[i].claims[f].userId
    requires UserIdIsFresh(es, f, states[i].claims[f].userId)
    ensures CommitsAt(states, j) <==>
            && NoneCreated(states, es, i, j)
            && states[j].owner.None?
            && Usable(states[j], states[i].claims[f], es[j].now)
  {
    var userId := states[i].claims[f].userId;
    ClaimSurvivesIffNoChallenge(states, es, i, j, f);
    GroundedOverRuns(states, es, i);
    ConfigurationStays(states, es, i, j);
    AccountOverRuns(states, es, j);
    assert Step(states[j], es[j], states[j + 1]);
    forall g <- states[j].claims | states[j].claims[g].userId == userId ensures g == f {
      var k := ClaimOrigin(states, es, j, g);
    }
    ManagedCommitIffPermitted(states[j], es[j], states[j + 1]);
    PermittedIffUsable(states[j], f, userId, es[j].now);
  }

  // ---- A registration that is lost ---------------------------------------------------------

  lemma {:induction false} OneMoreStep(states: seq<Auth>, es: seq<Event>, e: Event, a: Auth)
    returns (more: seq<Auth>, events: seq<Event>)
    requires Run(states, es) && Step(states[|es|], e, a)
    requires e.Create? ==> forall k :: 0 <= k < |es| && es[k].Create? ==> es[k].hash != e.hash
    ensures Run(more, events) && more == states + [a] && events == es + [e]
  {
    more, events := states + [a], es + [e];
  }

  function Registration(userId: Id): Challenge {
    Challenge(Ceremony.Registration, "challenge", Some(userId), "https://host", "host")
  }

  function Person(userId: Id): Registrant {
    Registrant("credential", Passkey(userId, "key", 0, SingleDevice, false, 4, None))
  }

  const FIRST := Create("first", Registration("one"), 1, Some(OwnerClaim("host", "a")))
  const SECOND := Create("second", Registration("two"), 3, Some(OwnerClaim("host", "b")))
  const COMMIT := ClaimOwner(Person("one"), "token", Session("csrf", 9000), 4, true)

  /** A configured host without owner, with two live invitations. */
  ghost predicate Invited(a: Auth) {
    && a.owner.None? && a.sessions == map[]
    && a.configuration == Some(Configuration("host", 0, None))
    && "a" in a.invitations && a.invitations["a"] == Invitation("ref-a", "host", 0, 9000, None)
    && "b" in a.invitations && a.invitations["b"] == Invitation("ref-b", "host", 0, 9000, None)
  }

  lemma {:induction false} InvitedHost() returns (states: seq<Auth>, es: seq<Event>)
    ensures Run(states, es) && es == [Install("host", 0, "a", "ref-a", 9000), Install("host", 0, "b", "ref-b", 9000)]
    ensures Invited(states[2]) && states[2].challenges == map[] && states[2].claims == map[]
  {
    var a := Invitation("ref-a", "host", 0, 9000, None);
    var b := Invitation("ref-b", "host", 0, 9000, None);
    var s1 := EMPTY.(configuration := Some(Configuration("host", 0, None)), invitations := map["a" := a]);
    var s2 := s1.(invitations := s1.invitations["b" := b]);
    states, es := OneMoreStep([EMPTY], [], Install("host", 0, "a", "ref-a", 9000), s1);
    states, es := OneMoreStep(states, es, Install("host", 0, "b", "ref-b", 9000), s2);
  }

  lemma {:induction false} FirstChallenge(a: Auth) returns (a': Auth)
    requires Invited(a) && a.challenges == map[] && a.claims == map[]
    ensures Step(a, FIRST, a') && Invited(a')
    ensures "first" in a'.claims && a'.claims["first"] == Claim("one", "a", "host", 301)
    ensures forall f <- a'.claims :: f == "first"
    ensures "first" in a'.challenges && a'.challenges["first"] == Ticket(Registration("one"), 301, None)
    ensures forall f <- a'.challenges :: f == "first"
  {
    a' := ChallengeCreated(a, "first", Registration("one"), 1, Some(OwnerClaim("host", "a"))).value;
  }

  /** The first registrant asks for a challenge and uses it. */
  lemma {:induction false} ConsumedRegistration() returns (states: seq<Auth>, es: seq<Event>)
    ensures Run(states, es) && |es| == 4
    ensures es[2] == FIRST && !es[0].Create? && !es[1].Create? && !es[3].Create?
    ensures ConsumesClaimAt(states, es, 3, "first") && Invited(states[4])
    ensures states[3].claims["first"] == Claim("one", "a", "host", 301)
    ensures "first" in states[4].claims && states[4].claims["first"] == Claim("one", "a", "host", 301)
    ensures forall f <- states[4].claims :: f == "first"
    ensures forall f <- states[4].challenges :: f == "first" && states[4].challenges[f].used.Some?
  {
    states, es := InvitedHost();
    var s3 := FirstChallenge(states[2]);
    var s4 := ChallengeConsumed(s3, "first", Ceremony.Registration, 2);
    states, es := OneMoreStep(states, es, FIRST, s3);
    states, es := OneMoreStep(states, es, Consume("first", Ceremony.Registration, 2), s4);
  }

  /** The holder of the second invitation asks for a challenge; the used one is swept with its claim. */
  lemma {:induction false} SecondChallenge(a: Auth) returns (a': Auth)
    requires Invited(a) && (forall f <- a.claims :: f == "first" && a.claims[f].userId == "one")
    requires forall f <- a.challenges :: f == "first" && a.challenges[f].used.Some?
    ensures ChallengeCreated(a, "second", Registration("two"), 3, Some(OwnerClaim("host", "b"))) == Some(a')
    ensures Invited(a')
    ensures forall f <- a'.claims :: a'.claims[f].userId == "two"
  {
    a' := ChallengeCreated(a, "second", Registration("two"), 3, Some(OwnerClaim("host", "b"))).value;
  }

  lemma {:induction false} CommitIsLost(a: Auth)
    requires Invited(a) && forall f <- a.claims :: a.claims[f].userId == "two"
    ensures Step(a, COMMIT, a) && a.owner.None?
  {
    assert forall f :: !Permits(a, f, "one", 4);
  }

  /**
   * One reachable state, two continuations. If the first registrant commits at once, the host has an
   * owner; if the holder of the second invitation asks for a challenge before, the commit changes
   * nothing although the first invitation is live.
   */
  lemma {:induction false} SpoiledWay(ss: seq<Auth>, before: seq<Event>)
    returns (spoiled: seq<Auth>, events: seq<Event>)
    requires Run(ss, before) && |before| == 4 && before[2] == FIRST
    requires !before[0].Create? && !before[1].Create? && !before[3].Create?
    requires Invited(ss[4]) && (forall f <- ss[4].claims :: f == "first" && ss[4].claims[f].userId == "one")
    requires forall f <- ss[4].challenges :: f == "first" && ss[4].challenges[f].used.Some?
    ensures Run(spoiled, events) && events == before + [SECOND, COMMIT] && spoiled[..5] == ss
    ensures Invited(spoiled[5]) && spoiled[6] == spoiled[5] && CreatesAt(spoiled, events, 4)
  {
    var s5 := SecondChallenge(ss[4]);
    spoiled, events := OneMoreStep(ss, before, SECOND, s5);
    CommitIsLost(s5);
    spoiled, events := OneMoreStep(spoiled, events, COMMIT, s5);
  }

  lemma {:induction false} FirstCommits(a: Auth) returns (a': Auth)
    requires Invited(a) && "first" in a.claims && a.claims["first"] == Claim("one", "a", "host", 301)
    ensures Step(a, COMMIT, a') && a.owner.None? && a'.owner.Some?
  {
    assert Permits(a, "first", "one", 4) && ClockFits(a, "first", 4);
    a' := InvitationUsed(OwnerInserted(a, Person("one"), "token", Session("csrf", 9000)), "first", 4);
  }

  lemma {:induction false} SecondInvitationSpoilsTheFirst()
    returns (states: seq<Auth>, es: seq<Event>, spoiled: seq<Auth>, events: seq<Event>)
    ensures Run(states, es) && |es| == 5 && CommitsAt(states, 4)
    ensures Run(spoiled, events) && |events| == 6 && !CommitsAt(spoiled, 5) && spoiled[6] == spoiled[5]
    ensures events[..4] == es[..4] && events[5] == es[4] == COMMIT
    ensures ConsumesClaimAt(states, es, 3, "first") && ConsumesClaimAt(spoiled, events, 3, "first")
    ensures CreatesAt(spoiled, events, 4) && Usable(spoiled[5], spoiled[3].claims["first"], events[5].now)
  {
    var ss, before := ConsumedRegistration();
    var owned := FirstCommits(ss[4]);
    states, es := OneMoreStep(ss, before, COMMIT, owned);
    spoiled, events := SpoiledWay(ss, before);
    assert spoiled[3] == spoiled[..5][3] == ss[3] && spoiled[4] == spoiled[..5][4] == ss[4];
  }
}
