/**
 * The bucketed rate limiter and the row cleanup that runs beside it (auth-store.ts:240-242, 571-597).
 */
module RateLimiter {
  import opened Common

  const RETENTION_SECONDS := 86_400

  datatype Key = Key(keyHash: Id, action: string, bucketStart: int)

  datatype Row = Row(count: int, updatedAt: int)

  type Rows = map<Key, Row>

  datatype Request = Request(keyHash: Id, action: string, limit: int, now: int, windowSeconds: int)

  /** The start of the window that holds `now`. Division floors for a positive divisor. */
  function BucketStart(now: int, windowSeconds: int): int
    requires windowSeconds > 0
  {
    now / windowSeconds * windowSeconds
  }

  function KeyOf(r: Request): Key
    requires r.windowSeconds > 0
  {
    Key(r.keyHash, r.action, BucketStart(r.now, r.windowSeconds))
  }

  /** The row's count if the statement returns it: a new row, or an old one still below the limit. */
  function Returned(rows: Rows, r: Request): Option<int>
    requires r.windowSeconds > 0
  {
    var k := KeyOf(r);
    if k !in rows then Some(1) else if rows[k].count < r.limit then Some(rows[k].count + 1) else None
  }

  function Counted(rows: Rows, r: Request): Rows
    requires r.windowSeconds > 0
  {
    match Returned(rows, r)
    case Some(count) => rows[KeyOf(r) := Row(count, r.now)]
    case None => rows
  }

  predicate Allows(rows: Rows, r: Request)
    requires r.windowSeconds > 0
  {
    Returned(rows, r).Some? && Returned(rows, r).value <= r.limit
  }

  /** The rows that are left when those not updated within the retention time are deleted. */
  function Cleaned(rows: Rows, now: int): Rows {
    rows - set k | k in rows && rows[k].updatedAt < now - RETENTION_SECONDS
  }

  class Limiter {
    var rows: Rows

    constructor ()
      ensures rows == map[]
    {
      rows := map[];
    }

    method EnforceRateLimit(r: Request) returns (allowed: bool)
      requires r.windowSeconds > 0
      modifies this
      ensures rows == Counted(old(rows), r)
      ensures allowed == Allows(old(rows), r)
    {
      var bucketStart := r.now / r.windowSeconds * r.windowSeconds;
      var k := Key(r.keyHash, r.action, bucketStart);
      var count := r.limit + 1;
      if k !in rows {
        rows := rows[k := Row(1, r.now)];
        count := 1;
      } else if rows[k].count < r.limit {
        count := rows[k].count + 1;
        rows := rows[k := Row(count, r.now)];
      }
      allowed := count <= r.limit;
    }

    /** The statement of createChallenge that touches this table. */
    method DeleteStaleRows(now: int)
      modifies this
      ensures rows == Cleaned(old(rows), now)
    {
      var stale := set k | k in rows && rows[k].updatedAt < now - RETENTION_SECONDS;
      rows := rows - stale;
    }
  }

  // ---- Traces ------------------------------------------------------------------------------

  datatype Event = Call(request: Request) | Clean(now: int) {
    function Time(): int {
      if Call? then request.now else now
    }
  }

  /** One caller and action, which always uses the same limit and window. */
  datatype Policy = Policy(keyHash: Id, action: string, limit: int, windowSeconds: int)

  predicate Tracked(p: Policy, e: Event) {
    e.Call? && e.request.keyHash == p.keyHash && e.request.action == p.action
  }

  ghost predicate Trace(p: Policy, es: seq<Event>) {
    && (forall i :: 0 <= i < |es| && es[i].Call? ==> es[i].request.windowSeconds > 0)
    && (forall i :: 0 <= i < |es| && Tracked(p, es[i]) ==>
          es[i].request.limit == p.limit && es[i].request.windowSeconds == p.windowSeconds)
    && (forall i, j :: 0 <= i < j < |es| ==> es[i].Time() <= es[j].Time())
  }

  function RowsAfter(es: seq<Event>): Rows {
    if es == [] then map[] else
    var rows, e := RowsAfter(es[..|es| - 1]), es[|es| - 1];
    match e
    case Call(r) => if r.windowSeconds > 0 then Counted(rows, r) else rows
    case Clean(now) => Cleaned(rows, now)
  }

  /** Call `i` of the trace was let through. */
  predicate Allowed(es: seq<Event>, i: nat)
    requires i < |es|
  {
    es[i].Call? && es[i].request.windowSeconds > 0 && Allows(RowsAfter(es[..i]), es[i].request)
  }

  /** How many tracked calls fall in the bucket that starts at `b`. */
  function CallsIn(p: Policy, es: seq<Event>, b: int): nat
    requires p.windowSeconds > 0
  {
    if es == [] then 0 else
    var e := es[|es| - 1];
    CallsIn(p, es[..|es| - 1], b) + if Tracked(p, e) && BucketStart(e.request.now, p.windowSeconds) == b then 1 else 0
  }

  /** Exactly the first `limit` calls of every bucket are allowed. */
  ghost predicate FirstLimitOnly(p: Policy, es: seq<Event>)
    requires p.windowSeconds > 0
  {
    forall i: nat :: i < |es| && Tracked(p, es[i]) ==>
      (Allowed(es, i) <==> CallsIn(p, es[..i], BucketStart(es[i].request.now, p.windowSeconds)) < p.limit)
  }

  lemma {:induction false} InBucket(now: int, windowSeconds: int)
    requires windowSeconds > 0
    ensures BucketStart(now, windowSeconds) <= now < BucketStart(now, windowSeconds) + windowSeconds
  {
  }

  /** The multiples of the window that lie within one window of each other are the same one. */
  lemma {:induction false} OneMultiple(q: int, k: int, w: int)
    requires w > 0 && q * w < k * w + w && k * w < q * w + w
    ensures q == k
  {
    assert (k + 1) * w == k * w + w && (q + 1) * w == q * w + w;
  }

  lemma {:induction false} SameBucket(now: int, b: int, windowSeconds: int, k: int)
    requires windowSeconds > 0 && b == k * windowSeconds && b <= now < b + windowSeconds
    ensures BucketStart(now, windowSeconds) == b
  {
    var q := now / windowSeconds;
    InBucket(now, windowSeconds);
    OneMultiple(q, k, windowSeconds);
  }

  /** What is known of the row of bucket `b` while the bucket can still receive calls. */
  ghost predicate RowFits(p: Policy, rows: Rows, calls: nat, b: int) {
    var k := Key(p.keyHash, p.action, b);
    && (k in rows <==> calls > 0)
    && (k in rows ==> rows[k].count == (if calls < p.limit then calls else p.limit) && rows[k].updatedAt >= b)
  }

  /** No cleanup can take a row that still counts: the window is short enough, or nothing is cleaned up. */
  ghost predicate RowsKept(p: Policy, es: seq<Event>) {
    p.windowSeconds <= RETENTION_SECONDS + 1 || forall e <- es :: e.Call?
  }

  /** The last moment at which something still matters to bucket `b`: a call in it can yet arrive. */
  lemma {:induction false} RowsCount(p: Policy, es: seq<Event>, b: int)
    requires Trace(p, es) && 0 < p.windowSeconds && RowsKept(p, es) && p.limit >= 1
    requires es != [] ==> es[|es| - 1].Time() < b + p.windowSeconds
    ensures RowFits(p, RowsAfter(es), CallsIn(p, es, b), b)
  {
    if es != [] {
      var init, e := es[..|es| - 1], es[|es| - 1];
      assert Trace(p, init) && e in es;
      RowsCount(p, init, b);
      match e
      case Call(r) =>
        assert Tracked(p, e) ==> r.limit == p.limit && r.windowSeconds == p.windowSeconds;
        InBucket(r.now, r.windowSeconds);
      case Clean(now) =>
    }
  }

  lemma {:induction false} CountsArePositive(es: seq<Event>)
    ensures forall k :: k in RowsAfter(es) ==> RowsAfter(es)[k].count >= 1
  {
    if es != [] {
      CountsArePositive(es[..|es| - 1]);
    }
  }

  lemma {:induction false} NothingBelowOne(p: Policy, es: seq<Event>)
    requires Trace(p, es) && p.windowSeconds > 0 && p.limit < 1
    ensures FirstLimitOnly(p, es)
  {
    forall i: nat | i < |es| && Tracked(p, es[i]) ensures !Allowed(es, i) {
      CountsArePositive(es[..i]);
    }
  }

  /**
   * With a window of at most 86401 seconds, or without cleanups, no row that still counts is
   * forgotten, and exactly the first calls of each bucket are allowed.
   */
  lemma {:induction false} FirstLimitCallsAllowed(p: Policy, es: seq<Event>)
    requires Trace(p, es) && 0 < p.windowSeconds && RowsKept(p, es)
    ensures FirstLimitOnly(p, es)
  {
    if p.limit < 1 {
      NothingBelowOne(p, es);
      return;
    }
    forall i: nat | i < |es| && Tracked(p, es[i])
      ensures Allowed(es, i) <==> CallsIn(p, es[..i], BucketStart(es[i].request.now, p.windowSeconds)) < p.limit
    {
      var b := BucketStart(es[i].request.now, p.windowSeconds);
      InBucket(es[i].request.now, p.windowSeconds);
      if i > 0 {
        assert es[i - 1].Time() <= es[i].Time();
        assert es[..i][i - 1] == es[i - 1];
      }
      RowsCount(p, es[..i], b);
    }
  }

  /** `n` calls at one moment. */
  function BurstAt(p: Policy, n: nat, now: int): seq<Event> {
    seq(n, i => Call(Request(p.keyHash, p.action, p.limit, now, p.windowSeconds)))
  }

  function Burst(p: Policy, n: nat): seq<Event> {
    BurstAt(p, n, 0)
  }

  lemma {:induction false} BurstCounts(p: Policy, n: nat)
    requires p.windowSeconds > 0
    ensures CallsIn(p, Burst(p, n), 0) == n
  {
    if n > 0 {
      assert Burst(p, n)[..n - 1] == Burst(p, n - 1);
      BurstCounts(p, n - 1);
    }
  }

  lemma {:induction false} BurstStampsZero(p: Policy, n: nat)
    requires p.windowSeconds > 0
    ensures forall k :: k in RowsAfter(Burst(p, n)) ==> RowsAfter(Burst(p, n))[k].updatedAt == 0
  {
    if n > 0 {
      assert Burst(p, n)[..n - 1] == Burst(p, n - 1);
      BurstStampsZero(p, n - 1);
    }
  }

  /** A longer window lets a full bucket start again: calls at time 0, a cleanup, and one more call. */
  function ForgettingTrace(p: Policy): seq<Event>
    requires p.limit >= 1
  {
    var late := RETENTION_SECONDS + 1;
    Burst(p, p.limit) + [Clean(late), Call(Request(p.keyHash, p.action, p.limit, late, p.windowSeconds))]
  }

  lemma {:induction false} LongWindowsForget(p: Policy)
    requires p.windowSeconds > RETENTION_SECONDS + 1 && p.limit >= 1
    ensures Trace(p, ForgettingTrace(p)) && !FirstLimitOnly(p, ForgettingTrace(p))
  {
    var es := ForgettingTrace(p);
    var n: nat := p.limit;
    var late := RETENTION_SECONDS + 1;
    BurstCounts(p, n);
    BurstStampsZero(p, n);
    SameBucket(late, 0, p.windowSeconds, 0);
    assert es[..n] == Burst(p, n);
    assert es[..n + 1][..n] == Burst(p, n) && es[..n + 1][n] == Clean(late);
    assert KeyOf(es[n + 1].request) !in RowsAfter(es[..n + 1]);
    assert Allowed(es, n + 1);
    assert CallsIn(p, es[..n + 1], 0) == n;
    assert Tracked(p, es[n + 1]);
  }

  /**
   * The limiter is exact on every trace if and only if its window is at most 86401 seconds, one more
   * than the retention time. (A limit below one lets nothing through, whatever the window.)
   */
  lemma {:induction false} ExactIffWindowFits(p: Policy)
    requires p.windowSeconds > 0
    ensures (forall es :: Trace(p, es) ==> FirstLimitOnly(p, es))
       <==> p.windowSeconds <= RETENTION_SECONDS + 1 || p.limit < 1
  {
    if p.limit < 1 {
      forall es | Trace(p, es) ensures FirstLimitOnly(p, es) {
        NothingBelowOne(p, es);
      }
    } else if p.windowSeconds <= RETENTION_SECONDS + 1 {
      forall es | Trace(p, es) ensures FirstLimitOnly(p, es) {
        FirstLimitCallsAllowed(p, es);
      }
    } else {
      LongWindowsForget(p);
    }
  }

  // ---- Sliding intervals -------------------------------------------------------------------

  /** How many tracked calls with lo <= now < hi were allowed. */
  function AllowedBetween(p: Policy, es: seq<Event>, lo: int, hi: int): nat
  {
    if es == [] then 0 else
    var n := |es| - 1;
    AllowedBetween(p, es[..n], lo, hi)
    + if Tracked(p, es[n]) && lo <= es[n].request.now < hi && Allowed(es, n) then 1 else 0
  }

  lemma {:induction false} AllowedSplits(p: Policy, es: seq<Event>, lo: int, mid: int, hi: int, hi': int)
    requires lo <= mid && hi <= hi'
    ensures AllowedBetween(p, es, lo, hi) <= AllowedBetween(p, es, lo, mid) + AllowedBetween(p, es, mid, hi')
  {
    if es != [] {
      AllowedSplits(p, es[..|es| - 1], lo, mid, hi, hi');
    }
  }

  lemma {:induction false} AllowedShrinks(p: Policy, es: seq<Event>, lo: int, lo': int, hi: int)
    requires lo <= lo'
    ensures AllowedBetween(p, es, lo', hi) <= AllowedBetween(p, es, lo, hi)
  {
    if es != [] {
      AllowedShrinks(p, es[..|es| - 1], lo, lo', hi);
    }
  }

  /** In one bucket as many calls are allowed as were made, up to the limit. */
  lemma {:induction false} AllowedInBucket(p: Policy, es: seq<Event>, k: int)
    requires Trace(p, es) && 0 < p.windowSeconds && RowsKept(p, es) && p.limit >= 0
    ensures var b := k * p.windowSeconds; var calls := CallsIn(p, es, b);
            AllowedBetween(p, es, b, b + p.windowSeconds) == if calls < p.limit then calls else p.limit
  {
    if es != [] {
      var n := |es| - 1;
      var b := k * p.windowSeconds;
      assert Trace(p, es[..n]);
      AllowedInBucket(p, es[..n], k);
      FirstLimitCallsAllowed(p, es);
      if Tracked(p, es[n]) {
        InBucket(es[n].request.now, p.windowSeconds);
        if b <= es[n].request.now < b + p.windowSeconds {
          SameBucket(es[n].request.now, b, p.windowSeconds, k);
        }
      }
    }
  }

  /** Any interval as long as the window holds at most twice the limit, whatever is cleaned up when. */
  lemma {:induction false} SlidingBound(p: Policy, es: seq<Event>, start: int)
    requires Trace(p, es) && 0 < p.windowSeconds && RowsKept(p, es) && p.limit >= 0
    ensures AllowedBetween(p, es, start, start + p.windowSeconds) <= 2 * p.limit
  {
    var w := p.windowSeconds;
    var k := start / w;
    var b := k * w;
    InBucket(start, w);
    assert (k + 1) * w == b + w;
    AllowedInBucket(p, es, k);
    AllowedInBucket(p, es, k + 1);
    AllowedShrinks(p, es, b, start, start + w);
    AllowedSplits(p, es, b, b + w, start + w, b + w + w);
  }

  /** The limit used up in the last second of a bucket and again in the first second of the next. */
  function TwoBursts(p: Policy): seq<Event>
    requires p.limit >= 1
  {
    BurstAt(p, p.limit, p.windowSeconds - 1) + BurstAt(p, p.limit, p.windowSeconds)
  }

  lemma {:induction false} BurstFallsIn(p: Policy, before: seq<Event>, n: nat, now: int, b: int)
    requires p.windowSeconds > 0
    ensures CallsIn(p, before + BurstAt(p, n, now), b)
         == CallsIn(p, before, b) + if BucketStart(now, p.windowSeconds) == b then n else 0
  {
    var es := before + BurstAt(p, n, now);
    if n == 0 {
      assert es == before;
    } else {
      assert es[..|es| - 1] == before + BurstAt(p, n - 1, now);
      BurstFallsIn(p, before, n - 1, now, b);
    }
  }

  lemma {:induction false} TwoBurstsFillTwoBuckets(p: Policy)
    requires p.limit >= 1 && p.windowSeconds >= 2
    ensures CallsIn(p, TwoBursts(p), 0) == p.limit && CallsIn(p, TwoBursts(p), p.windowSeconds) == p.limit
  {
    var w := p.windowSeconds;
    var first := BurstAt(p, p.limit, w - 1);
    SameBucket(w - 1, 0, w, 0);
    SameBucket(w, w, w, 1);
    assert [] + first == first;
    BurstFallsIn(p, [], p.limit, w - 1, 0);
    BurstFallsIn(p, [], p.limit, w - 1, w);
    BurstFallsIn(p, first, p.limit, w, 0);
    BurstFallsIn(p, first, p.limit, w, w);
  }

  /** Nothing in the trace happens outside the interval, so both buckets count in full. */
  lemma {:induction false} AllowedWithin(p: Policy, es: seq<Event>, lo: int, mid: int, hi: int, lo': int, hi': int)
    requires forall e <- es :: e.Call? ==> lo' <= e.request.now < hi'
    requires lo <= lo' && hi' <= hi && lo' <= mid <= hi'
    ensures AllowedBetween(p, es, lo', hi') == AllowedBetween(p, es, lo, mid) + AllowedBetween(p, es, mid, hi)
  {
    if es != [] {
      AllowedWithin(p, es[..|es| - 1], lo, mid, hi, lo', hi');
      assert es[|es| - 1] in es;
    }
  }

  lemma {:induction false} TwoBurstsAreATrace(p: Policy)
    requires p.limit >= 1 && p.windowSeconds >= 2
    ensures Trace(p, TwoBursts(p))
    ensures forall e <- TwoBursts(p) :: e.Call? && p.windowSeconds - 1 <= e.request.now <= p.windowSeconds
  {
  }

  /** Twice is not pessimistic: every policy with a window of two seconds or more can be driven there. */
  lemma {:induction false} SlidingBoundIsReached(p: Policy)
    requires p.limit >= 1 && p.windowSeconds >= 2
    ensures Trace(p, TwoBursts(p))
    ensures AllowedBetween(p, TwoBursts(p), 1, 1 + p.windowSeconds) == 2 * p.limit
  {
    var w, es := p.windowSeconds, TwoBursts(p);
    TwoBurstsAreATrace(p);
    TwoBurstsFillTwoBuckets(p);
    AllowedInBucket(p, es, 0);
    AllowedInBucket(p, es, 1);
    AllowedWithin(p, es, 0, w, w + w, 1, 1 + w);
  }
}
