/**
 * The owner tables told by their history: which session is there, what a passkey row holds and
 * whether a challenge can still be consumed, each from the events of the run and their times alone.
 */
module OwnerHistory {
  import opened Common
  import opened Tickets
  import opened OwnerAuth
  import opened OwnerAuthRuns

  /** Event `k` changed the tables: its batch was not undone. */
  ghost predicate Changes(states: seq<Auth>, es: seq<Event>, k: int)
    requires |states| == |es| + 1
  {
    0 <= k < |es| && states[k + 1] != states[k]
  }

  /** Event `k` is a first-owner claim that committed. */
  ghost predicate ClaimsAt(states: seq<Auth>, es: seq<Event>, k: int)
    requires |states| == |es| + 1
  {
    Changes(states, es, k) && es[k].ClaimOwner?
  }

  /** Event `k` is a sign-in that committed: there was an owner to sign in. */
  ghost predicate SignsInAt(states: seq<Auth>, es: seq<Event>, k: int)
    requires |states| == |es| + 1
  {
    0 <= k < |es| && es[k].Authenticate? && states[k].owner.Some?
  }

  // ---- Sessions ----------------------------------------------------------------------------

  /** Event `k` puts this session in the place of all others. */
  ghost predicate InstallsAt(states: seq<Auth>, es: seq<Event>, k: int, token: Id, session: Session)
    requires |states| == |es| + 1
  {
    && (ClaimsAt(states, es, k) || SignsInAt(states, es, k))
    && es[k].token == token && es[k].session == session
  }

  /** Event `k` ends the session: another one is installed, or a logout, or a sweep after it expired. */
  ghost predicate EndsAt(states: seq<Auth>, es: seq<Event>, k: int, token: Id, expiresAt: int)
    requires |states| == |es| + 1
  {
    || ClaimsAt(states, es, k) || SignsInAt(states, es, k)
    || (0 <= k < |es| && es[k] == Logout(token))
    || (Changes(states, es, k) && es[k].Create? && expiresAt <= es[k].now)
  }

  /** Event `k` gives the session another token hash: asked for in time. */
  ghost predicate RotatesAt(es: seq<Event>, k: int, token: Id, expiresAt: int) {
    0 <= k < |es| && es[k].RotateCsrf? && es[k].token == token && es[k].now < expiresAt
  }

  ghost predicate LastsFrom(states: seq<Auth>, es: seq<Event>, i: int, j: nat, token: Id, session: Session)
    requires |states| == |es| + 1
  {
    i < j && InstallsAt(states, es, i, token, session)
    && forall k :: i < k < j ==> !EndsAt(states, es, k, token, session.expiresAt)
  }

  /** The hash of the last rotation in time behind event `i`, or the one the session began with. */
  ghost predicate HashIs(es: seq<Event>, i: int, j: nat, token: Id, session: Session, csrfHash: Id) {
    || (csrfHash == session.csrfHash && forall k :: i < k < j ==> !RotatesAt(es, k, token, session.expiresAt))
    || (exists r :: i < r < j && RotatesAt(es, r, token, session.expiresAt) && es[r].csrfHash == csrfHash
                    && forall k :: r < k < j ==> !RotatesAt(es, k, token, session.expiresAt))
  }

  lemma {:induction false} InstallStep(a: Auth, e: Event, a': Auth)
    requires AccountInv(a) && Step(a, e, a')
    requires (e.ClaimOwner? && a' != a) || (e.Authenticate? && a.owner.Some?)
    ensures a'.sessions == map[e.token := e.session]
  {
  }

  /** Any other event leaves a session alone, ends it, or changes its token hash. */
  lemma {:induction false} OtherStep(a: Auth, e: Event, a': Auth, token: Id)
    requires Step(a, e, a') && !(e.ClaimOwner? && a' != a) && !(e.Authenticate? && a.owner.Some?)
    ensures token in a'.sessions <==>
            && token in a.sessions && e != Logout(token)
            && !(a' != a && e.Create? && a.sessions[token].expiresAt <= e.now)
    ensures token in a'.sessions ==>
              a'.sessions[token] ==
              if e.RotateCsrf? && e.token == token && e.now < a.sessions[token].expiresAt
              then a.sessions[token].(csrfHash := e.csrfHash) else a.sessions[token]
  {
  }

  ghost predicate SessionIs(states: seq<Auth>, es: seq<Event>, i: int, j: nat, token: Id, session: Session)
    requires |states| == |es| + 1 && j < |states|
  {
    && token in states[j].sessions
    && states[j].sessions[token].expiresAt == session.expiresAt
    && HashIs(es, i, j, token, session, states[j].sessions[token].csrfHash)
  }

  lemma {:induction false} HashMovesOn(
      es: seq<Event>, i: int, n: nat, token: Id, session: Session, before: Id, after: Id)
    requires i < n < |es| && HashIs(es, i, n, token, session, before)
    requires after == if RotatesAt(es, n, token, session.expiresAt) then es[n].csrfHash else before
    ensures HashIs(es, i, n + 1, token, session, after)
  {
  }

  /** From its installation on the session is there as long as nothing ends it, with its latest hash. */
  lemma {:induction false} SessionLasts(
      states: seq<Auth>, es: seq<Event>, i: nat, j: nat, token: Id, session: Session)
    requires Run(states, es) && j < |states| && LastsFrom(states, es, i, j, token, session)
    ensures SessionIs(states, es, i, j, token, session)
    decreases j
  {
    var n := j - 1;
    AccountOverRuns(states, es, n);
    assert Step(states[n], es[n], states[j]);
    if n == i {
      InstallStep(states[n], es[n], states[j]);
    } else {
      SessionLasts(states, es, i, n, token, session);
      assert !EndsAt(states, es, n, token, session.expiresAt);
      OtherStep(states[n], es[n], states[j], token);
      HashMovesOn(
        es, i, n, token, session, states[n].sessions[token].csrfHash, states[j].sessions[token].csrfHash);
    }
  }

  /** And a session that is there was installed by some event and has lasted since. */
  lemma {:induction false} SessionHasOrigin(states: seq<Auth>, es: seq<Event>, j: nat, token: Id)
    returns (i: nat, session: Session)
    requires Run(states, es) && j < |states| && token in states[j].sessions
    ensures LastsFrom(states, es, i, j, token, session)
  {
    var n := j - 1;
    AccountOverRuns(states, es, n);
    assert Step(states[n], es[n], states[j]);
    if ClaimsAt(states, es, n) || SignsInAt(states, es, n) {
      InstallStep(states[n], es[n], states[j]);
      i, session := n, es[n].session;
    } else {
      OtherStep(states[n], es[n], states[j], token);
      i, session := SessionHasOrigin(states, es, n, token);
      SessionLasts(states, es, i, n, token, session);
    }
  }

  /**
   * A session is there exactly when it was installed by a committed claim or sign-in and since then
   * none other was, nobody logged out with it, and no challenge was created after it had expired.
   */
  lemma {:induction false} SessionsIff(states: seq<Auth>, es: seq<Event>, j: nat, token: Id)
    requires Run(states, es) && j < |states|
    ensures token in states[j].sessions <==>
            exists i, session :: LastsFrom(states, es, i, j, token, session)
    ensures forall i, session :: LastsFrom(states, es, i, j, token, session) ==>
              SessionIs(states, es, i, j, token, session)
  {
    if token in states[j].sessions {
      var i, session := SessionHasOrigin(states, es, j, token);
    }
    forall i, session | LastsFrom(states, es, i, j, token, session)
      ensures SessionIs(states, es, i, j, token, session)
    {
      SessionLasts(states, es, i, j, token, session);
    }
  }

  /** Right behind a committed claim or sign-in its session is the only one. */
  lemma {:induction false} SignInLeavesOneSession(states: seq<Auth>, es: seq<Event>, n: nat)
    requires Run(states, es) && (ClaimsAt(states, es, n) || SignsInAt(states, es, n))
    ensures states[n + 1].sessions == map[es[n].token := es[n].session]
  {
    AccountOverRuns(states, es, n);
    assert Step(states[n], es[n], states[n + 1]);
    InstallStep(states[n], es[n], states[n + 1]);
  }

  // ---- Owner and passkeys ------------------------------------------------------------------

  /** Event `k` registers a passkey under `c`: with the claim, or for the owner's user id and a new id. */
  ghost predicate RegistersAt(states: seq<Auth>, es: seq<Event>, k: int, c: Id)
    requires |states| == |es| + 1
  {
    || (ClaimsAt(states, es, k) && es[k].registrant.credentialId == c)
    || (0 <= k < |es| && es[k].AddCredential? && es[k].registrant.credentialId == c
        && c !in states[k].credentials && states[k].owner.Some?
        && states[k].owner.value.passkey.userId == es[k].registrant.passkey.userId)
  }

  ghost predicate SignsInWith(states: seq<Auth>, es: seq<Event>, k: int, c: Id)
    requires |states| == |es| + 1
  {
    SignsInAt(states, es, k) && es[k].credentialId == c
  }

  /** What of a passkey is settled at its registration. */
  ghost predicate SameIdentity(p: Passkey, q: Passkey) {
    p.userId == q.userId && p.publicKey == q.publicKey && p.createdAt == q.createdAt
  }

  /** What of a passkey follows the last sign-in with it, if there was one behind event `i`. */
  ghost predicate FollowsSignIns(states: seq<Auth>, es: seq<Event>, i: int, j: nat, c: Id, first: Passkey, p: Passkey)
    requires |states| == |es| + 1
  {
    || (p.device == first.device && p.backedUp == first.backedUp
        && p.lastAuthenticatedAt == first.lastAuthenticatedAt
        && forall k :: i < k < j ==> !SignsInWith(states, es, k, c))
    || (exists s :: i < s < j && SignsInWith(states, es, s, c)
                    && p.device == es[s].device && p.backedUp == es[s].backedUp
                    && p.lastAuthenticatedAt == Some(es[s].now)
                    && forall k :: s < k < j ==> !SignsInWith(states, es, k, c))
  }

  lemma {:induction false} RegistrationStep(a: Auth, e: Event, a': Auth)
    requires AccountInv(a) && Step(a, e, a')
    requires (e.ClaimOwner? && a' != a)
             || (e.AddCredential? && e.registrant.credentialId !in a.credentials && a.owner.Some?
                 && a.owner.value.passkey.userId == e.registrant.passkey.userId)
    ensures e.registrant.credentialId in a'.credentials
    ensures a'.credentials[e.registrant.credentialId] == e.registrant.passkey
    ensures e.ClaimOwner? ==> a.credentials == map[] && a.owner.None?
  {
  }

  lemma {:induction false} PasskeyStep(a: Auth, e: Event, a': Auth, c: Id)
    requires AccountInv(a) && Step(a, e, a') && c in a.credentials
    ensures c in a'.credentials && SameIdentity(a'.credentials[c], a.credentials[c])
    ensures var p, p' := a.credentials[c], a'.credentials[c];
            if e.Authenticate? && e.credentialId == c
            then p'.device == e.device && p'.backedUp == e.backedUp && p'.lastAuthenticatedAt == Some(e.now)
            else p' == p
  {
  }

  lemma {:induction false} NewPasskeyStep(states: seq<Auth>, es: seq<Event>, n: nat, c: Id)
    requires Run(states, es) && n < |es| && c !in states[n].credentials
    ensures c in states[n + 1].credentials <==> RegistersAt(states, es, n, c)
  {
    AccountOverRuns(states, es, n);
    assert Step(states[n], es[n], states[n + 1]);
  }

  /** The row of a passkey: its registration, with the device data of the last sign-in. */
  ghost predicate PasskeyIs(states: seq<Auth>, es: seq<Event>, i: int, j: nat, c: Id)
    requires |states| == |es| + 1 && 0 <= i < j < |states| && RegistersAt(states, es, i, c)
  {
    && c in states[j].credentials
    && SameIdentity(states[j].credentials[c], es[i].registrant.passkey)
    && FollowsSignIns(states, es, i, j, c, es[i].registrant.passkey, states[j].credentials[c])
  }

  lemma {:induction false} SignInsMoveOn(states: seq<Auth>, es: seq<Event>, i: nat, n: nat, c: Id)
    requires |states| == |es| + 1 && i < n < |es| && RegistersAt(states, es, i, c) && PasskeyIs(states, es, i, n, c)
    requires c in states[n + 1].credentials && AccountInv(states[n])
    requires var p, p', e := states[n].credentials[c], states[n + 1].credentials[c], es[n];
             if e.Authenticate? && e.credentialId == c
             then p'.device == e.device && p'.backedUp == e.backedUp && p'.lastAuthenticatedAt == Some(e.now)
             else p' == p
    ensures FollowsSignIns(states, es, i, n + 1, c, es[i].registrant.passkey, states[n + 1].credentials[c])
  {
  }

  lemma {:induction false} PasskeyLasts(states: seq<Auth>, es: seq<Event>, i: nat, j: nat, c: Id)
    requires Run(states, es) && i < j < |states| && RegistersAt(states, es, i, c)
    ensures PasskeyIs(states, es, i, j, c)
    decreases j
  {
    var n := j - 1;
    AccountOverRuns(states, es, n);
    assert Step(states[n], es[n], states[j]);
    if n == i {
      RegistrationStep(states[n], es[n], states[j]);
    } else {
      PasskeyLasts(states, es, i, n, c);
      PasskeyStep(states[n], es[n], states[j], c);
      SignInsMoveOn(states, es, i, n, c);
    }
  }

  lemma {:induction false} RegistrationOf(states: seq<Auth>, es: seq<Event>, j: nat, c: Id) returns (i: nat)
    requires Run(states, es) && j < |states| && c in states[j].credentials
    ensures i < j && RegistersAt(states, es, i, c)
  {
    i := j - 1;
    if c in states[i].credentials {
      i := RegistrationOf(states, es, i, c);
    } else {
      NewPasskeyStep(states, es, i, c);
    }
  }

  /**
   * A passkey is there exactly when it was registered; its key, user and time of creation stay what
   * they were then, and its device, backup flag and last sign-in are those of the last sign-in with it.
   */
  lemma {:induction false} PasskeysIff(states: seq<Auth>, es: seq<Event>, j: nat, c: Id)
    requires Run(states, es) && j < |states|
    ensures c in states[j].credentials <==> exists i :: 0 <= i < j && RegistersAt(states, es, i, c)
    ensures forall i :: 0 <= i < j && RegistersAt(states, es, i, c) ==> PasskeyIs(states, es, i, j, c)
  {
    forall i | 0 <= i < j && RegistersAt(states, es, i, c) ensures PasskeyIs(states, es, i, j, c) {
      PasskeyLasts(states, es, i, j, c);
    }
    if c in states[j].credentials {
      var i := RegistrationOf(states, es, j, c);
    }
  }

  ghost predicate OwnerMoves(states: seq<Auth>, es: seq<Event>, n: nat)
    requires |states| == |es| + 1 && n < |es|
  {
    && (ClaimsAt(states, es, n) ==>
          && states[n].owner.None? && states[n + 1].owner.Some?
          && states[n + 1].owner.value.credentialId == es[n].registrant.credentialId)
    && (states[n].owner.Some? ==>
          states[n + 1].owner.Some?
          && states[n + 1].owner.value.credentialId == states[n].owner.value.credentialId)
    && (states[n].owner.None? && states[n + 1].owner.Some? ==> ClaimsAt(states, es, n))
  }

  lemma {:induction false} OwnerStep(states: seq<Auth>, es: seq<Event>, n: nat)
    requires Run(states, es) && n < |es|
    ensures OwnerMoves(states, es, n)
  {
    AccountOverRuns(states, es, n);
    assert Step(states[n], es[n], states[n + 1]);
  }

  ghost predicate OwnerTold(states: seq<Auth>, es: seq<Event>, j: nat)
    requires |states| == |es| + 1 && j < |states|
  {
    && (states[j].owner.Some? <==> exists i :: 0 <= i < j && ClaimsAt(states, es, i))
    && (forall i :: 0 <= i < j && ClaimsAt(states, es, i) ==>
          states[j].owner.Some? && states[j].owner.value.credentialId == es[i].registrant.credentialId)
  }

  lemma {:induction false} OwnerByMoves(states: seq<Auth>, es: seq<Event>, j: nat)
    requires |states| == |es| + 1 && j < |states| && states[0].owner.None?
    requires forall n :: 0 <= n < j ==> OwnerMoves(states, es, n)
    ensures OwnerTold(states, es, j)
  {
    if j > 0 {
      var n := j - 1;
      OwnerByMoves(states, es, n);
      assert OwnerMoves(states, es, n);
      if states[n].owner.Some? {
        var i :| 0 <= i < n && ClaimsAt(states, es, i);
        assert 0 <= i < j && ClaimsAt(states, es, i);
      }
    }
  }

  /** There is an owner exactly when a claim committed; the passkey of that claim stays the owner's. */
  lemma {:induction false} OwnerIff(states: seq<Auth>, es: seq<Event>, j: nat)
    requires Run(states, es) && j < |states|
    ensures states[j].owner.Some? <==> exists i :: 0 <= i < j && ClaimsAt(states, es, i)
    ensures forall i :: 0 <= i < j && ClaimsAt(states, es, i) ==>
              states[j].owner.Some? && states[j].owner.value.credentialId == es[i].registrant.credentialId
  {
    forall n | 0 <= n < j ensures OwnerMoves(states, es, n) {
      OwnerStep(states, es, n);
    }
    OwnerByMoves(states, es, j);
    assert OwnerTold(states, es, j);
  }

  /** On a community host the first claim commits and no other does. */
  lemma {:induction false} UnmanagedClaimCommitsIff(states: seq<Auth>, es: seq<Event>, n: nat)
    requires Run(states, es) && n < |es| && es[n].ClaimOwner? && !es[n].managed
    ensures ClaimsAt(states, es, n) <==> states[n].owner.None?
  {
    AccountOverRuns(states, es, n);
    assert Step(states[n], es[n], states[n + 1]);
  }

  // ---- Challenges --------------------------------------------------------------------------

  /** Event `k` uses up the challenge that event `i` created, or sweeps it because it has expired. */
  ghost predicate ClosesAt(states: seq<Auth>, es: seq<Event>, i: int, k: int)
    requires |states| == |es| + 1 && 0 <= i < |es| && es[i].Create?
  {
    0 <= k < |es| &&
    (|| (es[k].Consume? && es[k].hash == es[i].hash && es[k].ceremony == es[i].body.ceremony
         && es[k].now < es[i].now + 300)
     || (es[k].Create? && Changes(states, es, k) && es[i].now + 300 <= es[k].now))
  }

  ghost predicate IsOpen(a: Auth, f: Id) {
    f in a.challenges && a.challenges[f].used.None?
  }

  /** The row that a creation inserts, as long as nobody uses it. */
  ghost predicate RowIs(a: Auth, e: Event)
    requires e.Create?
  {
    IsOpen(a, e.hash) ==> a.challenges[e.hash].body == e.body && a.challenges[e.hash].expiresAt == e.now + 300
  }

  lemma {:induction false} CreationStep(a: Auth, e: Event, a': Auth)
    requires Step(a, e, a') && e.Create? && a' != a
    ensures IsOpen(a', e.hash) && RowIs(a', e)
  {
  }

  lemma {:induction false} NextCreationStep(a: Auth, e: Event, a': Auth, first: Event)
    requires Step(a, e, a') && first.Create? && RowIs(a, first) && e.Create? && e.hash != first.hash
    ensures RowIs(a', first)
    ensures IsOpen(a', first.hash) <==> IsOpen(a, first.hash) && !(a' != a && first.now + 300 <= e.now)
  {
  }

  lemma {:induction false} ConsumptionStep(a: Auth, e: Event, a': Auth, first: Event)
    requires Step(a, e, a') && first.Create? && RowIs(a, first) && e.Consume?
    ensures RowIs(a', first)
    ensures IsOpen(a', first.hash) <==>
            && IsOpen(a, first.hash)
            && !(e.hash == first.hash && e.ceremony == first.body.ceremony && e.now < first.now + 300)
  {
  }

  lemma {:induction false} OpenStep(a: Auth, e: Event, a': Auth, first: Event)
    requires Step(a, e, a') && first.Create? && RowIs(a, first) && (e.Create? ==> e.hash != first.hash)
    ensures RowIs(a', first)
    ensures IsOpen(a', first.hash) <==>
            && IsOpen(a, first.hash)
            && !(e.Consume? && e.hash == first.hash && e.ceremony == first.body.ceremony && e.now < first.now + 300)
            && !(e.Create? && a' != a && first.now + 300 <= e.now)
  {
    if e.Create? {
      NextCreationStep(a, e, a', first);
    } else if e.Consume? {
      ConsumptionStep(a, e, a', first);
    } else {
      assert a'.challenges == a.challenges;
    }
  }

  /**
   * A challenge can be consumed exactly until it is: it stays open for five minutes and until a
   * consumption of its ceremony in that time, and then only until the next challenge sweeps it.
   */
  lemma {:induction false} ChallengeIsOpenIff(states: seq<Auth>, es: seq<Event>, i: nat, j: nat)
    requires Run(states, es) && i < j < |states| && es[i].Create? && Changes(states, es, i)
    ensures RowIs(states[j], es[i])
    ensures IsOpen(states[j], es[i].hash) <==> forall k :: i < k < j ==> !ClosesAt(states, es, i, k)
    decreases j
  {
    var n := j - 1;
    assert Step(states[n], es[n], states[j]);
    if n == i {
      CreationStep(states[n], es[n], states[j]);
    } else {
      ChallengeIsOpenIff(states, es, i, n);
      OpenStep(states[n], es[n], states[j], es[i]);
      assert (forall k :: i < k < j ==> !ClosesAt(states, es, i, k)) <==>
             (forall k :: i < k < n ==> !ClosesAt(states, es, i, k)) && !ClosesAt(states, es, i, n);
    }
  }

  /** A claim of this user that a creation at `now` would leave in place. */
  ghost predicate BlocksClaim(a: Auth, f: Id, userId: Id, now: int) {
    && f in a.claims && a.claims[f].userId == userId && now < a.claims[f].expiresAt
    && IsOpen(a, f) && now < a.challenges[f].expiresAt
  }

  lemma {:induction false} HashIsNew(states: seq<Auth>, es: seq<Event>, n: nat)
    requires Run(states, es) && n < |es| && es[n].Create?
    ensures es[n].hash !in states[n].challenges
  {
    ChallengesAccounted(states, es, n);
    HashesGrow(es, n + 1);
  }

  lemma {:induction false} FitsIffNothingBlocks(a: Auth, live: map<Id, Claim>, e: Event)
    requires e.Create? && e.hash !in a.challenges && e.claim.Some? && e.body.userId.Some?
    requires live == LiveClaims(ClaimsOf(a.claims, Swept(a.challenges, e.now)), e.now)
    ensures ClaimFits(live, a.invitations, e.hash, e.body.userId.value, e.claim.value.invitation) <==>
            && e.claim.value.invitation in a.invitations
            && forall f :: !BlocksClaim(a, f, e.body.userId.value, e.now)
  {
    forall f ensures f in live && live[f].userId == e.body.userId.value <==>
                     BlocksClaim(a, f, e.body.userId.value, e.now)
    {
    }
  }

  lemma {:induction false} CreationStepCommitsIff(a: Auth, e: Event, a': Auth)
    requires Step(a, e, a') && e.Create? && e.hash !in a.challenges
    ensures a' != a <==>
            || e.claim.None?
            || (&& e.body.userId.Some? && e.claim.value.invitation in a.invitations
                && forall f :: !BlocksClaim(a, f, e.body.userId.value, e.now))
    ensures a' != a && e.claim.Some? ==>
              && e.hash in a'.claims
              && a'.claims[e.hash] == Claim(
                   e.body.userId.value, e.claim.value.invitation, e.claim.value.hostname, e.now + 300)
  {
    if e.claim.Some? && e.body.userId.Some? {
      var live := LiveClaims(ClaimsOf(a.claims, Swept(a.challenges, e.now)), e.now);
      FitsIffNothingBlocks(a, live, e);
    }
    if e.claim.None? {
      assert e.hash in a'.challenges;
    }
  }

  /**
   * A challenge is always created, unless it is to carry a claim: then the invitation has to be known
   * and the user to have no other claim that is still alive. The claim lives as long as the challenge.
   */
  lemma {:induction false} CreationCommitsIff(states: seq<Auth>, es: seq<Event>, n: nat)
    requires Run(states, es) && n < |es| && es[n].Create?
    ensures Changes(states, es, n) <==>
            || es[n].claim.None?
            || (&& es[n].body.userId.Some? && es[n].claim.value.invitation in states[n].invitations
                && forall f :: !BlocksClaim(states[n], f, es[n].body.userId.value, es[n].now))
    ensures Changes(states, es, n) && es[n].claim.Some? ==>
              && es[n].hash in states[n + 1].claims
              && states[n + 1].claims[es[n].hash] == Claim(
                   es[n].body.userId.value, es[n].claim.value.invitation, es[n].claim.value.hostname, es[n].now + 300)
  {
    HashIsNew(states, es, n);
    assert Step(states[n], es[n], states[n + 1]);
    CreationStepCommitsIff(states[n], es[n], states[n + 1]);
  }

  // ---- Invitations -------------------------------------------------------------------------

  /** What an invitation was installed as; it may have been consumed since. */
  ghost predicate InstalledAs(row: Invitation, e: Event)
    requires e.Install?
  {
    row.reference == e.reference && row.hostname == e.hostname
    && row.createdAt == e.configuredAt && row.expiresAt == e.expiresAt
  }

  ghost predicate InvitesAt(states: seq<Auth>, es: seq<Event>, k: int, t: Id)
    requires |states| == |es| + 1
  {
    Changes(states, es, k) && es[k].Install? && es[k].token == t
  }

  /** An installation commits exactly for a new digest and reference, this host and a time to live. */
  lemma {:induction false} InstallCommitsIff(a: Auth, e: Event, a': Auth)
    requires Step(a, e, a') && e.Install?
    ensures a' != a <==>
            && e.token !in a.invitations && e.configuredAt < e.expiresAt
            && (forall t <- a.invitations :: a.invitations[t].reference != e.reference)
            && (a.configuration.Some? ==> a.configuration.value.hostname == e.hostname)
    ensures a' != a ==>
              && e.token in a'.invitations && InstalledAs(a'.invitations[e.token], e)
              && a'.invitations[e.token].consumedAt.None?
              && a'.configuration == if a.configuration.Some? then a.configuration
                                     else Some(Configuration(e.hostname, e.configuredAt, None))
  {
  }

  lemma {:induction false} InvitationStep(a: Auth, e: Event, a': Auth, t: Id)
    requires Step(a, e, a')
    ensures t in a'.invitations <==> t in a.invitations || (e.Install? && a' != a && e.token == t)
    ensures t in a.invitations ==>
              a'.invitations[t].(consumedAt := None) == a.invitations[t].(consumedAt := None)
    ensures e.Install? && a' != a && e.token == t ==> t !in a.invitations && InstalledAs(a'.invitations[t], e)
  {
  }

  /** The invitations are those that were installed, and stay what they were installed as. */
  lemma {:induction false} InvitationsIff(states: seq<Auth>, es: seq<Event>, j: nat, t: Id)
    requires Run(states, es) && j < |states|
    ensures t in states[j].invitations <==> exists i :: 0 <= i < j && InvitesAt(states, es, i, t)
    ensures forall i :: 0 <= i < j && InvitesAt(states, es, i, t) ==>
              t in states[j].invitations && InstalledAs(states[j].invitations[t], es[i])
  {
    if j > 0 {
      var n := j - 1;
      InvitationsIff(states, es, n, t);
      assert Step(states[n], es[n], states[j]);
      InvitationStep(states[n], es[n], states[j], t);
      if t in states[n].invitations {
        var i :| 0 <= i < n && InvitesAt(states, es, i, t);
        assert 0 <= i < j && InvitesAt(states, es, i, t);
      }
      assert InvitesAt(states, es, n, t) <==> es[n].Install? && states[j] != states[n] && es[n].token == t;
    }
  }
}
