/**
 * The owner authentication tables and their batches (auth-store.ts, owner-claim-store.ts). A batch
 * that violates a key, a foreign key or a CHECK constraint is undone as a whole. `Store` runs the
 * statements one by one; the functions on `Auth` say what a committed batch does.
 */
module OwnerAuth {
  import opened Common
  import opened Tickets

  const CHALLENGE_SECONDS := 300

  datatype Ceremony = Authentication | Registration

  datatype Challenge = Challenge(ceremony: Ceremony, challenge: Id, userId: Option<Id>, origin: Id, rpId: Id)

  type Challenges = Rows<Challenge, ()>

  datatype Session = Session(csrfHash: Id, expiresAt: int)

  datatype Device = SingleDevice | MultiDevice

  /** The columns that `owners` and `owner_credentials` share. */
  datatype Passkey = Passkey(userId: Id, publicKey: Id, counter: nat, device: Device, backedUp: bool,
                             createdAt: int, lastAuthenticatedAt: Option<int>)

  datatype Owner = Owner(credentialId: Id, passkey: Passkey)

  datatype Configuration = Configuration(hostname: Id, configuredAt: nat, claimedAt: Option<int>)

  datatype Invitation = Invitation(
    reference: Id, hostname: Id, createdAt: nat, expiresAt: int, consumedAt: Option<int>)

  datatype Claim = Claim(userId: Id, invitation: Id, hostname: Id, expiresAt: int)

  datatype Auth = Auth(
    challenges: Challenges,
    sessions: map<Id, Session>,
    owner: Option<Owner>,
    credentials: map<Id, Passkey>,
    configuration: Option<Configuration>,
    invitations: map<Id, Invitation>,
    claims: map<Id, Claim>)

  // ---- What each committed batch does ------------------------------------------------------

  function LiveSessions(sessions: map<Id, Session>, now: int): map<Id, Session> {
    sessions - set t | t in sessions && sessions[t].expiresAt <= now
  }

  /** Deleting a challenge deletes its claim, which refers to it by a cascading foreign key. */
  function ClaimsOf(claims: map<Id, Claim>, challenges: Challenges): map<Id, Claim> {
    claims - (claims.Keys - challenges.Keys)
  }

  function LiveClaims(claims: map<Id, Claim>, now: int): map<Id, Claim> {
    claims - set f | f in claims && claims[f].expiresAt <= now
  }

  datatype OwnerClaim = OwnerClaim(hostname: Id, invitation: Id)

  predicate ClaimFits(claims: map<Id, Claim>, invitations: map<Id, Invitation>, hash: Id, userId: Id, invitation: Id) {
    hash !in claims && invitation in invitations && (forall f :: f in claims ==> claims[f].userId != userId)
  }

  /** The batch of createChallenge; the rate-limit cleanup in it is modelled in RateLimiter. */
  function ChallengeCreated(a: Auth, hash: Id, body: Challenge, now: int, claim: Option<OwnerClaim>): Option<Auth> {
    var kept := Swept(a.challenges, now);
    var claims := ClaimsOf(a.claims, kept);
    var next := a.(challenges := Issued(a.challenges, hash, body, now, CHALLENGE_SECONDS),
                   sessions := LiveSessions(a.sessions, now),
                   claims := claims);
    if hash in kept then None
    else if claim.None? then Some(next)
    else if body.userId.None? then None
    else
      var live := LiveClaims(claims, now);
      if !ClaimFits(live, a.invitations, hash, body.userId.value, claim.value.invitation) then None
      else Some(next.(claims := live[hash := Claim(body.userId.value, claim.value.invitation, claim.value.hostname,
                                                   now + CHALLENGE_SECONDS)]))
  }

  predicate ConsumesChallenge(a: Auth, hash: Id, ceremony: Ceremony, now: int) {
    Redeemable(a.challenges, hash, now) && a.challenges[hash].body.ceremony == ceremony
  }

  function ChallengeConsumed(a: Auth, hash: Id, ceremony: Ceremony, now: int): Auth {
    if ConsumesChallenge(a, hash, ceremony, now) then a.(challenges := Used(a.challenges, hash, now, ())) else a
  }

  datatype Registrant = Registrant(credentialId: Id, passkey: Passkey)

  /** An unexpired claim of `userId` on an unconsumed, unexpired invitation to this unclaimed host. */
  predicate Permits(a: Auth, f: Id, userId: Id, now: int) {
    && f in a.claims && a.configuration.Some? && a.claims[f].userId == userId
    && a.configuration.value.claimedAt.None?
    && a.claims[f].hostname == a.configuration.value.hostname
    && a.claims[f].expiresAt > now
    && a.claims[f].invitation in a.invitations
    && a.invitations[a.claims[f].invitation].hostname == a.configuration.value.hostname
    && a.invitations[a.claims[f].invitation].consumedAt.None?
    && a.invitations[a.claims[f].invitation].expiresAt > now
  }

  /** The clock is not behind the moments at which the invitation and the configuration were made. */
  predicate ClockFits(a: Auth, f: Id, now: int)
    requires f in a.claims && a.claims[f].invitation in a.invitations && a.configuration.Some?
  {
    now >= a.invitations[a.claims[f].invitation].createdAt && now >= a.configuration.value.configuredAt
  }

  function OwnerInserted(a: Auth, r: Registrant, token: Id, session: Session): Auth {
    a.(owner := Some(Owner(r.credentialId, r.passkey)),
       credentials := if r.credentialId in a.credentials then a.credentials
                      else a.credentials[r.credentialId := r.passkey],
       sessions := a.sessions[token := session])
  }

  function InvitationUsed(a: Auth, f: Id, now: int): Auth
    requires f in a.claims && a.claims[f].invitation in a.invitations && a.configuration.Some?
  {
    var t := a.claims[f].invitation;
    a.(invitations := a.invitations[t := a.invitations[t].(consumedAt := Some(now))],
       configuration := Some(a.configuration.value.(claimedAt := Some(now))))
  }

  /** The first-owner batch: undone, or committed with what it inserted and consumed. */
  ghost predicate FirstOwner(a: Auth, r: Registrant, token: Id, session: Session, now: int, managed: bool, a': Auth) {
    if a.owner.Some? || token in a.sessions then a' == a
    else if !managed || a.configuration.None? then a' == OwnerInserted(a, r, token, session)
    else
      || (a' == a && forall f :: Permits(a, f, r.passkey.userId, now) ==> !ClockFits(a, f, now))
      || (exists f :: Permits(a, f, r.passkey.userId, now) && ClockFits(a, f, now)
                      && a' == InvitationUsed(OwnerInserted(a, r, token, session), f, now))
  }

  function Authenticated(p: Passkey, counter: nat, device: Device, backedUp: bool, now: int): Passkey {
    p.(counter := if p.counter < counter then counter else p.counter,
       device := device, backedUp := backedUp, lastAuthenticatedAt := Some(now))
  }

  function AuthenticationCommitted(a: Auth, credentialId: Id, counter: nat, device: Device, backedUp: bool,
                                   token: Id, session: Session, now: int): Option<Auth> {
    if a.owner.None? then None  // the session row references the owner
    else
      Some(a.(sessions := map[token := session],
              credentials := if credentialId in a.credentials
                             then a.credentials[credentialId := Authenticated(
                                    a.credentials[credentialId], counter, device, backedUp, now)]
                             else a.credentials,
              owner := if a.owner.value.credentialId == credentialId
                       then Some(a.owner.value.(passkey := Authenticated(
                                   a.owner.value.passkey, counter, device, backedUp, now)))
                       else a.owner))
  }

  predicate AddsCredential(a: Auth, r: Registrant) {
    a.owner.Some? && a.owner.value.passkey.userId == r.passkey.userId && r.credentialId !in a.credentials
  }

  function CredentialAdded(a: Auth, r: Registrant): Auth {
    if AddsCredential(a, r) then a.(credentials := a.credentials[r.credentialId := r.passkey]) else a
  }

  function SessionRevoked(a: Auth, token: Id): Auth {
    a.(sessions := a.sessions - {token})
  }

  function CsrfRotated(a: Auth, token: Id, csrfHash: Id, now: int): Auth {
    if token in a.sessions && a.sessions[token].expiresAt > now
    then a.(sessions := a.sessions[token := a.sessions[token].(csrfHash := csrfHash)]) else a
  }

  predicate KnownReference(invitations: map<Id, Invitation>, reference: Id) {
    exists t <- invitations :: invitations[t].reference == reference
  }

  /**
   * The first installation decides the host; a later invitation must name the same one. Digests and
   * references of invitations are unique.
   */
  function InvitationInstalled(
      a: Auth, hostname: Id, configuredAt: nat, token: Id, reference: Id, expiresAt: int): Option<Auth>
  {
    var c := if a.configuration.Some? then a.configuration.value else Configuration(hostname, configuredAt, None);
    if || token in a.invitations || KnownReference(a.invitations, reference)
       || c.hostname != hostname || expiresAt <= configuredAt
    then None
    else
      var row := Invitation(reference, hostname, configuredAt, expiresAt, None);
      Some(a.(configuration := Some(c), invitations := a.invitations[token := row]))
  }

  /** Constraints the schema keeps: one claim per user id, every claim on a known invitation. */
  ghost predicate OneClaimPerUser(claims: map<Id, Claim>) {
    forall f, g :: f in claims && g in claims && claims[f].userId == claims[g].userId ==> f == g
  }

  // ---- The store, statement by statement --------------------------------------------------

  class Store {
    var challenges: Challenges
    var sessions: map<Id, Session>
    var owner: Option<Owner>
    var credentials: map<Id, Passkey>
    var configuration: Option<Configuration>
    var invitations: map<Id, Invitation>
    var claims: map<Id, Claim>

    constructor ()
      ensures State() == Auth(map[], map[], None, map[], None, map[], map[])
    {
      challenges, sessions, owner, credentials := map[], map[], None, map[];
      configuration, invitations, claims := None, map[], map[];
    }

    function State(): Auth
      reads this
    {
      Auth(challenges, sessions, owner, credentials, configuration, invitations, claims)
    }

    method CreateChallenge(hash: Id, body: Challenge, now: int, claim: Option<OwnerClaim>) returns (ok: bool)
      modifies this
      ensures ok == ChallengeCreated(old(State()), hash, body, now, claim).Some?
      ensures State() == if ok then ChallengeCreated(old(State()), hash, body, now, claim).value else old(State())
    {
      if claim.Some? && body.userId.None? {
        return false;
      }
      var kept := Swept(challenges, now);
      var bound := ClaimsOf(claims, kept);
      var live := LiveSessions(sessions, now);
      if hash in kept {
        return false;
      }
      if claim.Some? {
        bound := LiveClaims(bound, now);
        if !ClaimFits(bound, invitations, hash, body.userId.value, claim.value.invitation) {
          return false;
        }
        bound := bound[hash := Claim(
            body.userId.value, claim.value.invitation, claim.value.hostname, now + CHALLENGE_SECONDS)];
      }
      challenges := kept[hash := Ticket(body, now + CHALLENGE_SECONDS, None)];
      sessions, claims := live, bound;
      ok := true;
    }

    method ConsumeChallenge(hash: Id, ceremony: Ceremony, now: int) returns (row: Option<Challenge>)
      modifies this
      ensures State() == ChallengeConsumed(old(State()), hash, ceremony, now)
      ensures row.Some? <==> ConsumesChallenge(old(State()), hash, ceremony, now)
      ensures row.Some? ==> hash in old(challenges) && row.value == old(challenges)[hash].body
    {
      row := None;
      if hash in challenges {
        var c := challenges[hash];
        if c.body.ceremony == ceremony && c.used.None? && c.expiresAt > now {
          challenges := challenges[hash := c.(used := Some((now, ())))];
          row := Some(c.body);
        }
      }
    }

    /**
     * The statements of a managed claim behind the guarded insert: consume the invitation of the
     * user's claim and mark the host as claimed, with a CHECK on both moments.
     */
    method SpendInvitation(userId: Id, now: int)
      returns (ok: bool, invs: map<Id, Invitation>, conf: Option<Configuration>, ghost claim: Id)
      requires OneClaimPerUser(claims)
      requires configuration.None? || exists f :: Permits(State(), f, userId, now)
      ensures configuration.None? ==> ok && invs == invitations && conf == configuration
      ensures configuration.Some? && !ok ==>
                forall f :: Permits(State(), f, userId, now) ==> !ClockFits(State(), f, now)
      ensures configuration.Some? && ok ==>
                && Permits(State(), claim, userId, now) && ClockFits(State(), claim, now)
                && State().(invitations := invs, configuration := conf) == InvitationUsed(State(), claim, now)
    {
      invs, conf, claim := invitations, configuration, "";
      ghost var a := State();
      var changes := 0;
      if f :| f in claims && claims[f].userId == userId && claims[f].expiresAt > now {
        claim := f;
        assert forall g :: Permits(a, g, userId, now) ==> g == f;
        var t := claims[f].invitation;
        if t in invs && conf.Some? && invs[t].consumedAt.None? && invs[t].expiresAt > now {
          if !(invs[t].createdAt <= now < invs[t].expiresAt) {
            return false, invs, conf, claim;
          }
          invs := invs[t := invs[t].(consumedAt := Some(now))];
          changes := 1;
        }
      }
      if conf.Some? && conf.value.claimedAt.None? {
        var claimedAt := if changes == 1 then now else -1;
        if claimedAt < conf.value.configuredAt {
          return false, invs, conf, claim;
        }
        conf := Some(conf.value.(claimedAt := Some(claimedAt)));
      }
      return true, invs, conf, claim;
    }

    /**
     * First-owner claim. A managed host asserts that the guarded insert inserted, consumes the
     * invitation of the claim, and lets a CHECK fail when nothing was consumed.
     */
    method CommitFirstOwner(r: Registrant, token: Id, session: Session, now: int, managed: bool) returns (ok: bool)
      requires OneClaimPerUser(claims)
      modifies this
      ensures ok <==> owner.Some? && old(owner).None?
      ensures ok <==> && old(owner).None? && token !in old(sessions)
                      && (managed ==>
                            || old(configuration).None?
                            || exists f :: Permits(old(State()), f, r.passkey.userId, now)
                                           && ClockFits(old(State()), f, now))
      ensures FirstOwner(old(State()), r, token, session, now, managed, State())
    {
      var invs, conf := invitations, configuration;
      ghost var a, claim := State(), "";
      if managed {
        var permitted := configuration.None? || exists f :: f in claims && Permits(State(), f, r.passkey.userId, now);
        var changes := if permitted then 1 else 0;
        if permitted && owner.Some? {
          return false;
        }
        if changes != 1 {
          return false;
        }
        var kept;
        kept, invs, conf, claim := SpendInvitation(r.passkey.userId, now);
        assert State() == a;
        if !kept {
          assert forall f :: Permits(a, f, r.passkey.userId, now) ==> !ClockFits(a, f, now);
          return false;
        }
      } else if owner.Some? {
        return false;
      }
      if token in sessions {
        return false;
      }
      owner := Some(Owner(r.credentialId, r.passkey));
      if r.credentialId !in credentials {
        credentials := credentials[r.credentialId := r.passkey];
      }
      sessions := sessions[token := session];
      invitations, configuration := invs, conf;
      ok := true;
      if managed && configuration.Some? {
        assert State() == InvitationUsed(OwnerInserted(a, r, token, session), claim, now);
      }
    }

    method CommitAuthentication(credentialId: Id, counter: nat, device: Device, backedUp: bool,
                                token: Id, session: Session, now: int) returns (ok: bool)
      modifies this
      ensures ok == old(owner).Some?
      ensures var next := AuthenticationCommitted(
                            old(State()), credentialId, counter, device, backedUp, token, session, now);
              ok == next.Some? && State() == if ok then next.value else old(State())
    {
      if owner.None? {
        return false;
      }
      if credentialId in credentials {
        var p := credentials[credentialId];
        credentials := credentials[credentialId := p.(
            counter := if p.counter < counter then counter else p.counter,
            device := device, backedUp := backedUp, lastAuthenticatedAt := Some(now))];
      }
      if owner.value.credentialId == credentialId {
        var p := owner.value.passkey;
        owner := Some(owner.value.(passkey := p.(
            counter := if p.counter < counter then counter else p.counter,
            device := device, backedUp := backedUp, lastAuthenticatedAt := Some(now))));
      }
      sessions := map[token := session];
      ok := true;
    }

    method AddOwnerCredential(r: Registrant) returns (added: bool)
      modifies this
      ensures State() == CredentialAdded(old(State()), r)
      ensures added == AddsCredential(old(State()), r)
    {
      added := false;
      if owner.Some? && owner.value.passkey.userId == r.passkey.userId && r.credentialId !in credentials {
        credentials := credentials[r.credentialId := r.passkey];
        added := true;
      }
    }

    method RevokeSession(token: Id)
      modifies this
      ensures State() == SessionRevoked(old(State()), token)
    {
      sessions := sessions - {token};
    }

    method RotateSessionCsrf(token: Id, csrfHash: Id, now: int) returns (rotated: bool)
      modifies this
      ensures State() == CsrfRotated(old(State()), token, csrfHash, now)
      ensures rotated <==> token in old(sessions) && old(sessions)[token].expiresAt > now
    {
      rotated := token in sessions && sessions[token].expiresAt > now;
      if rotated {
        sessions := sessions[token := sessions[token].(csrfHash := csrfHash)];
      }
    }

    method InstallManagedOwnerInvitation(
        hostname: Id, configuredAt: nat, token: Id, reference: Id, expiresAt: int)
      returns (ok: bool)
      modifies this
      ensures var next := InvitationInstalled(old(State()), hostname, configuredAt, token, reference, expiresAt);
              ok == next.Some? && State() == if ok then next.value else old(State())
    {
      if expiresAt <= configuredAt {
        return false;
      }
      var c := if configuration.Some? then configuration.value else Configuration(hostname, configuredAt, None);
      if c.hostname != hostname || token in invitations || KnownReference(invitations, reference) {
        return false;
      }
      configuration := Some(c);
      invitations := invitations[token := Invitation(reference, hostname, configuredAt, expiresAt, None)];
      ok := true;
    }
  }
}
