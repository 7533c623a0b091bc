/**
 * Agent grants told by their history: which rows there are, their status and the authorization read,
 * each from the events of the run alone. And what a revocation does, row by row.
 */
module GrantHistory {
  import opened Common
  import opened Tickets
  import opened AgentAccessStore
  import opened GrantRuns

  /** Event `k` inserts grant `g`: its vault is active and the id is new. */
  ghost predicate InsertsAt(ts: seq<Tables>, es: seq<Event>, k: int, g: Id)
    requires |ts| == |es| + 1
  {
    && 0 <= k < |es| && es[k].CreatePending? && es[k].id == g
    && es[k].vault in ts[k].activeVaults && g !in ts[k].grants
  }

  /** This revocation reaches grant `g` of that vault. */
  predicate Reaches(e: Event, g: Id, vault: Id) {
    e.Revoke? &&
    match e.scope
    case One(id) => id == g
    case OfVault(v) => v == vault
    case Everything => true
  }

  predicate IsActivationOf(e: Event, g: Id) {
    e.Activate? && e.id == g
  }

  /** Event `k` activates another pending grant of the same client and vault. */
  ghost predicate SupplantsAt(ts: seq<Tables>, es: seq<Event>, k: int, g: Id, client: Id, vault: Id)
    requires |ts| == |es| + 1
  {
    && 0 <= k < |es| && es[k].Activate? && es[k].id != g
    && es[k].id in ts[k].grants && ts[k].grants[es[k].id].status.Pending?
    && ts[k].grants[es[k].id].client == client && ts[k].grants[es[k].id].vault == vault
  }

  /** Inserted at `i`, the grant is still pending: no activation and no revocation since. */
  ghost predicate PendingSince(ts: seq<Tables>, es: seq<Event>, i: int, j: nat, g: Id)
    requires |ts| == |es| + 1 && j < |ts|
  {
    && i < j && InsertsAt(ts, es, i, g)
    && forall k :: i < k < j ==> !IsActivationOf(es[k], g) && !Reaches(es[k], g, es[i].vault)
  }

  /** Activated at `a` while it was pending, it is still active: no revocation, nobody took its place. */
  ghost predicate ActiveSince(ts: seq<Tables>, es: seq<Event>, i: int, a: int, j: nat, g: Id)
    requires |ts| == |es| + 1 && j < |ts|
  {
    && 0 <= a < j && PendingSince(ts, es, i, a, g) && IsActivationOf(es[a], g)
    && forall k :: a < k < j ==>
         !Reaches(es[k], g, es[i].vault) && !SupplantsAt(ts, es, k, g, es[i].client, es[i].vault)
  }

  /** What a grant is inserted with stays. */
  ghost predicate SameOrigin(row: Grant, e: Event)
    requires e.CreatePending?
  {
    && row.client == e.client && row.vault == e.vault && row.audience == e.audience
    && row.terms == e.terms && row.createdAt == e.now
  }

  /** The time of the last use behind the activation, or none. */
  ghost predicate LastUse(es: seq<Event>, a: int, j: nat, g: Id, lastUsedAt: Option<int>)
    requires j <= |es| && 0 <= a
  {
    || (lastUsedAt.None? && forall k :: a < k < j ==> !(es[k].Touch? && es[k].id == g))
    || (exists u :: a < u < j && es[u].Touch? && es[u].id == g && lastUsedAt == Some(es[u].now)
                    && forall k :: u < k < j ==> !(es[k].Touch? && es[k].id == g))
  }

  // ---- One step on one row -----------------------------------------------------------------

  lemma {:induction false} InsertionStep(t: Tables, e: Event, t': Tables, g: Id)
    requires Step(t, e, t') && g !in t.grants
    ensures g in t'.grants <==> e.CreatePending? && e.id == g && e.vault in t.activeVaults
    ensures g in t'.grants ==>
              && SameOrigin(t'.grants[g], e) && t'.grants[g].status.Pending?
              && t'.grants[g].activatedAt.None? && t'.grants[g].revokedAt.None? && t'.grants[g].lastUsedAt.None?
  {
  }

  lemma {:induction false} PendingStep(t: Tables, e: Event, t': Tables, g: Id)
    requires TimesFit(t.grants) && Step(t, e, t') && g in t.grants && t.grants[g].status.Pending?
    ensures g in t'.grants
    ensures var row, row' := t.grants[g], t'.grants[g];
            if IsActivationOf(e, g) then row' == row.(status := Active, activatedAt := Some(e.now))
            else if Reaches(e, g, row.vault) then row' == row.(status := Revoked, revokedAt := Some(e.now))
            else row' == row
  {
  }

  lemma {:induction false} ActiveStep(ts: seq<Tables>, es: seq<Event>, n: nat, g: Id)
    requires Run(ts, es) && n < |es| && g in ts[n].grants && ts[n].grants[g].status.Active?
    ensures g in ts[n + 1].grants
    ensures var row, row', e := ts[n].grants[g], ts[n + 1].grants[g], es[n];
            if Reaches(e, g, row.vault) || SupplantsAt(ts, es, n, g, row.client, row.vault)
            then row' == row.(status := Revoked, revokedAt := Some(e.now))
            else if e.Touch? && e.id == g then row' == row.(lastUsedAt := Some(e.now))
            else row' == row
  {
    RunKeepsInv(ts, es, n);
    assert Step(ts[n], es[n], ts[n + 1]);
  }

  lemma {:induction false} RevokedStep(t: Tables, e: Event, t': Tables, g: Id)
    requires TimesFit(t.grants) && Step(t, e, t') && g in t.grants && t.grants[g].status.Revoked?
    ensures g in t'.grants && t'.grants[g] == t.grants[g]
  {
  }

  // ---- The history of a row ----------------------------------------------------------------

  /** The row of a grant inserted at `i`: its origin, and its status by what happened since. */
  ghost predicate RowIs(ts: seq<Tables>, es: seq<Event>, i: int, j: nat, g: Id)
    requires |ts| == |es| + 1 && j < |ts| && 0 <= i < |es| && es[i].CreatePending?
  {
    && g in ts[j].grants && SameOrigin(ts[j].grants[g], es[i])
    && (ts[j].grants[g].status.Pending? <==> PendingSince(ts, es, i, j, g))
    && (ts[j].grants[g].status.Active? <==> exists a :: ActiveSince(ts, es, i, a, j, g))
    && (forall a :: ActiveSince(ts, es, i, a, j, g) ==>
          && ts[j].grants[g].activatedAt == Some(es[a].now)
          && LastUse(es, a, j, g, ts[j].grants[g].lastUsedAt))
    && (ts[j].grants[g].status.Pending? ==> ts[j].grants[g].lastUsedAt.None?)
  }

  lemma {:induction false} PendingRowMovesOn(ts: seq<Tables>, es: seq<Event>, i: nat, n: nat, g: Id)
    requires |ts| == |es| + 1 && i < n < |es| && InsertsAt(ts, es, i, g) && RowIs(ts, es, i, n, g)
    requires ts[n].grants[g].status.Pending? && g in ts[n + 1].grants
    requires var row, row', e := ts[n].grants[g], ts[n + 1].grants[g], es[n];
             if IsActivationOf(e, g) then row' == row.(status := Active, activatedAt := Some(e.now))
             else if Reaches(e, g, row.vault) then row' == row.(status := Revoked, revokedAt := Some(e.now))
             else row' == row
    ensures RowIs(ts, es, i, n + 1, g)
  {
    if IsActivationOf(es[n], g) {
      assert ActiveSince(ts, es, i, n, n + 1, g);
    }
    var m := n + 1;
    forall a | ActiveSince(ts, es, i, a, m, g) ensures a == n {
    }
  }

  lemma {:induction false} LastUseMovesOn(
      es: seq<Event>, a: int, n: nat, g: Id, before: Option<int>, after: Option<int>)
    requires 0 <= a < n < |es| && LastUse(es, a, n, g, before)
    requires after == if es[n].Touch? && es[n].id == g then Some(es[n].now) else before
    ensures LastUse(es, a, n + 1, g, after)
  {
  }

  lemma {:induction false} ActivationsAgree(ts: seq<Tables>, es: seq<Event>, i: int, a: nat, b: nat, g: Id)
    requires |ts| == |es| + 1 && a < |es| && b < |es|
    requires PendingSince(ts, es, i, a, g) && IsActivationOf(es[a], g)
    requires PendingSince(ts, es, i, b, g) && IsActivationOf(es[b], g)
    ensures a == b
  {
  }

  /** Active since `a` leaves no other moment from which it could be active or pending. */
  lemma {:induction false} OneActivation(ts: seq<Tables>, es: seq<Event>, i: nat, a: int, n: nat, m: nat, g: Id)
    requires |ts| == |es| + 1 && n < m < |ts| && ActiveSince(ts, es, i, a, n, g)
    ensures forall b :: ActiveSince(ts, es, i, b, m, g) ==> b == a
    ensures !PendingSince(ts, es, i, m, g)
  {
    forall b | ActiveSince(ts, es, i, b, m, g) ensures b == a {
      ActivationsAgree(ts, es, i, a, b, g);
    }
  }

  lemma {:induction false} ActiveOneMore(ts: seq<Tables>, es: seq<Event>, i: nat, a: int, n: nat, g: Id)
    requires |ts| == |es| + 1 && n < |es| && ActiveSince(ts, es, i, a, n, g)
    ensures ActiveSince(ts, es, i, a, n + 1, g) <==>
            !Reaches(es[n], g, es[i].vault) && !SupplantsAt(ts, es, n, g, es[i].client, es[i].vault)
  {
  }

  lemma {:induction false} ActiveRowMovesOn(ts: seq<Tables>, es: seq<Event>, i: nat, n: nat, g: Id)
    requires |ts| == |es| + 1 && i < n < |es| && InsertsAt(ts, es, i, g) && RowIs(ts, es, i, n, g)
    requires ts[n].grants[g].status.Active? && g in ts[n + 1].grants
    requires var row, row', e := ts[n].grants[g], ts[n + 1].grants[g], es[n];
             if Reaches(e, g, row.vault) || SupplantsAt(ts, es, n, g, row.client, row.vault)
             then row' == row.(status := Revoked, revokedAt := Some(e.now))
             else if e.Touch? && e.id == g then row' == row.(lastUsedAt := Some(e.now))
             else row' == row
    ensures RowIs(ts, es, i, n + 1, g)
  {
    var a :| ActiveSince(ts, es, i, a, n, g);
    OneActivation(ts, es, i, a, n, n + 1, g);
    ActiveOneMore(ts, es, i, a, n, g);
    if !Reaches(es[n], g, es[i].vault) && !SupplantsAt(ts, es, n, g, es[i].client, es[i].vault) {
      LastUseMovesOn(es, a, n, g, ts[n].grants[g].lastUsedAt, ts[n + 1].grants[g].lastUsedAt);
    }
  }

  lemma {:induction false} ShorterActive(ts: seq<Tables>, es: seq<Event>, i: int, a: int, n: nat, m: nat, g: Id)
    requires |ts| == |es| + 1 && n < m < |ts|
    ensures ActiveSince(ts, es, i, a, m, g) && a < n ==> ActiveSince(ts, es, i, a, n, g)
  {
  }

  /** Neither pending nor active, it does not become so again. */
  lemma {:induction false} NeverActiveLater(ts: seq<Tables>, es: seq<Event>, i: nat, n: nat, m: nat, g: Id)
    requires |ts| == |es| + 1 && m == n + 1 < |ts| && i < n
    requires !PendingSince(ts, es, i, n, g) && forall a :: !ActiveSince(ts, es, i, a, n, g)
    ensures !PendingSince(ts, es, i, m, g) && forall a :: !ActiveSince(ts, es, i, a, m, g)
  {
    forall a ensures !ActiveSince(ts, es, i, a, m, g) {
      ShorterActive(ts, es, i, a, n, m, g);
    }
  }

  lemma {:induction false} RevokedRowMovesOn(ts: seq<Tables>, es: seq<Event>, i: nat, n: nat, g: Id)
    requires |ts| == |es| + 1 && i < n < |es| && InsertsAt(ts, es, i, g) && RowIs(ts, es, i, n, g)
    requires ts[n].grants[g].status.Revoked? && g in ts[n + 1].grants && ts[n + 1].grants[g] == ts[n].grants[g]
    ensures RowIs(ts, es, i, n + 1, g)
  {
    NeverActiveLater(ts, es, i, n, n + 1, g);
  }

  lemma {:induction false} RowMovesOn(ts: seq<Tables>, es: seq<Event>, i: nat, n: nat, g: Id)
    requires Run(ts, es) && i < n < |es| && InsertsAt(ts, es, i, g) && RowIs(ts, es, i, n, g)
    ensures RowIs(ts, es, i, n + 1, g)
  {
    RunKeepsInv(ts, es, n);
    assert Step(ts[n], es[n], ts[n + 1]);
    match ts[n].grants[g].status {
      case Pending =>
        PendingStep(ts[n], es[n], ts[n + 1], g);
        PendingRowMovesOn(ts, es, i, n, g);
      case Active =>
        ActiveStep(ts, es, n, g);
        ActiveRowMovesOn(ts, es, i, n, g);
      case Revoked =>
        RevokedStep(ts[n], es[n], ts[n + 1], g);
        RevokedRowMovesOn(ts, es, i, n, g);
    }
  }

  lemma {:induction false} GrantRowIs(ts: seq<Tables>, es: seq<Event>, i: nat, j: nat, g: Id)
    requires Run(ts, es) && i < j < |ts| && InsertsAt(ts, es, i, g)
    ensures RowIs(ts, es, i, j, g)
    decreases j
  {
    if i == j - 1 {
      assert Step(ts[i], es[i], ts[j]);
      InsertionStep(ts[i], es[i], ts[j], g);
    } else {
      GrantRowIs(ts, es, i, j - 1, g);
      RowMovesOn(ts, es, i, j - 1, g);
    }
  }

  lemma {:induction false} InsertionOf(ts: seq<Tables>, es: seq<Event>, j: nat, g: Id) returns (i: nat)
    requires Run(ts, es) && j < |ts| && g in ts[j].grants
    ensures i < j && InsertsAt(ts, es, i, g)
  {
    i := j - 1;
    assert Step(ts[i], es[i], ts[j]);
    if g in ts[i].grants {
      i := InsertionOf(ts, es, i, g);
    } else {
      InsertionStep(ts[i], es[i], ts[j], g);
    }
  }

  /**
   * The grants are those that were inserted. Each keeps what it was inserted with; it is pending until
   * its activation or a revocation, active from then until a revocation or the activation of another
   * grant of its client and vault, and carries the times of its activation and its last use.
   */
  lemma {:induction false} GrantsIff(ts: seq<Tables>, es: seq<Event>, j: nat, g: Id)
    requires Run(ts, es) && j < |ts|
    ensures g in ts[j].grants <==> exists i :: 0 <= i < j && InsertsAt(ts, es, i, g)
    ensures forall i :: 0 <= i < j && InsertsAt(ts, es, i, g) ==> RowIs(ts, es, i, j, g)
  {
    forall i | 0 <= i < j && InsertsAt(ts, es, i, g) ensures RowIs(ts, es, i, j, g) {
      GrantRowIs(ts, es, i, j, g);
    }
    if g in ts[j].grants {
      var i := InsertionOf(ts, es, j, g);
    }
  }

  // ---- The authorization read --------------------------------------------------------------

  /**
   * The read yields a grant exactly when it was inserted for this client and audience, activated while
   * pending and not ended since, and its vault is active and its profile readable at that moment.
   */
  lemma {:induction false} ReadableIff(ts: seq<Tables>, es: seq<Event>, j: nat, g: Id, client: Id, audience: Id)
    requires Run(ts, es) && j < |ts|
    ensures Readable(ts[j], g, client, audience) <==>
            exists i, a ::
              && ActiveSince(ts, es, i, a, j, g)
              && es[i].client == client && es[i].audience == audience
              && es[i].vault in ts[j].activeVaults && es[i].vault !in ts[j].unreadableProfiles
  {
    GrantsIff(ts, es, j, g);
    if Readable(ts[j], g, client, audience) {
      var i :| 0 <= i < j && InsertsAt(ts, es, i, g);
      assert RowIs(ts, es, i, j, g);
      var a :| ActiveSince(ts, es, i, a, j, g);
    }
    if i, a :| && ActiveSince(ts, es, i, a, j, g)
               && es[i].client == client && es[i].audience == audience
               && es[i].vault in ts[j].activeVaults && es[i].vault !in ts[j].unreadableProfiles
    {
      assert 0 <= i < j && InsertsAt(ts, es, i, g);
      assert RowIs(ts, es, i, j, g);
    }
  }

  /** Once a revocation reached a grant, no later read yields it. */
  lemma {:induction false} NoReadAfterRevocation(
      ts: seq<Tables>, es: seq<Event>, k: nat, j: nat, g: Id, client: Id, audience: Id)
    requires Run(ts, es) && k < j < |ts| && g in ts[k].grants && Reaches(es[k], g, ts[k].grants[g].vault)
    ensures !Readable(ts[j], g, client, audience)
  {
    GrantsIff(ts, es, k, g);
    var i :| 0 <= i < k && InsertsAt(ts, es, i, g);
    assert RowIs(ts, es, i, k, g);
    GrantRowIs(ts, es, i, j, g);
    forall a ensures !ActiveSince(ts, es, i, a, j, g) {
    }
    RunMovesForward(ts, es, k, j);
  }

  // ---- What a revocation does --------------------------------------------------------------

  ghost predicate ReachesHandoff(e: Event, h: Handoff) {
    e.Revoke? && (h.status.Prepared? || h.status.Claiming?) &&
    match e.scope
    case One(id) => h.grant == id
    case OfVault(v) => h.vault == v
    case Everything => true
  }

  ghost predicate ReachesCollaboration(t: Tables, e: Event, c: Collaboration) {
    e.Revoke? && !c.status.Revoked? &&
    match e.scope
    case One(id) => c.source == id
    case OfVault(v) => c.source in t.grants && t.grants[c.source].vault == v
    case Everything => c.source in t.grants && !t.grants[c.source].status.Revoked?
  }

  lemma {:induction false} RevokedGrantRows(t: Tables, e: Event, t': Tables)
    requires TimesFit(t.grants) && Step(t, e, t') && e.Revoke?
    ensures t'.grants.Keys == t.grants.Keys && forall g <- t.grants ::
              t'.grants[g] == if Reaches(e, g, t.grants[g].vault) && !t.grants[g].status.Revoked?
                              then t.grants[g].(status := Revoked, revokedAt := Some(e.now)) else t.grants[g]
  {
  }

  lemma {:induction false} RevokedHandoffRows(t: Tables, e: Event, t': Tables)
    requires TimesFit(t.grants) && Step(t, e, t') && e.Revoke?
    ensures t'.handoffs.Keys == t.handoffs.Keys && forall h <- t.handoffs ::
              t'.handoffs[h] == if ReachesHandoff(e, t.handoffs[h])
                                then t.handoffs[h].(status := Closed, revokedAt := Some(e.now), claimExpiresAt := None)
                                else t.handoffs[h]
  {
  }

  lemma {:induction false} RevokedCollaborationRows(t: Tables, e: Event, t': Tables)
    requires TimesFit(t.grants) && Step(t, e, t') && e.Revoke?
    ensures t'.collaborations.Keys == t.collaborations.Keys && forall c <- t.collaborations ::
              var row := t.collaborations[c];
              t'.collaborations[c] == if ReachesCollaboration(t, e, row)
                                      then row.(status := Revoked,
                                                revokedAt := if row.revokedAt.Some? then row.revokedAt else Some(e.now))
                                      else row
  {
  }

  /**
   * A revocation ends the grants that it reaches and that had not ended, closes the live handoffs it
   * reaches and ends the collaborations built on those grants, all at its own time; every other row is
   * as before, and only the revocation of a vault deactivates it.
   */
  lemma {:induction false} RevocationTouchesWhatItReaches(t: Tables, e: Event, t': Tables)
    requires Inv(t) && Step(t, e, t') && e.Revoke?
    ensures t'.flows == t.flows && t'.replacements == t.replacements && t'.sessions == t.sessions
    ensures t'.unreadableProfiles == t.unreadableProfiles
    ensures t'.activeVaults == if e.scope.OfVault? then t.activeVaults - {e.scope.vault} else t.activeVaults
    ensures t'.grants.Keys == t.grants.Keys && forall g <- t.grants ::
              t'.grants[g] == if Reaches(e, g, t.grants[g].vault) && !t.grants[g].status.Revoked?
                              then t.grants[g].(status := Revoked, revokedAt := Some(e.now)) else t.grants[g]
    ensures t'.handoffs.Keys == t.handoffs.Keys && forall h <- t.handoffs ::
              t'.handoffs[h] == if ReachesHandoff(e, t.handoffs[h])
                                then t.handoffs[h].(status := Closed, revokedAt := Some(e.now), claimExpiresAt := None)
                                else t.handoffs[h]
    ensures t'.collaborations.Keys == t.collaborations.Keys && forall c <- t.collaborations ::
              var row := t.collaborations[c];
              t'.collaborations[c] == if ReachesCollaboration(t, e, row)
                                      then row.(status := Revoked,
                                                revokedAt := if row.revokedAt.Some? then row.revokedAt else Some(e.now))
                                      else row
  {
    RevokedGrantRows(t, e, t');
    RevokedHandoffRows(t, e, t');
    RevokedCollaborationRows(t, e, t');
  }
}
