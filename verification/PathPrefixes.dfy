/**
 * Sets of path prefixes: sorting, dropping every prefix that another one already covers, and meeting
 * two sets. A key is covered when one of the prefixes starts it; `<=` on strings is "starts".
 */
module PathPrefixes {

  // ---- Order ----

  /** A character as one or two UTF-16 code units. */
  function UnitsOf(c: char): seq<int> {
    var n := c as int;
    if n < 0x10000 then [n] else [0xD800 + (n - 0x10000) / 0x400, 0xDC00 + (n - 0x10000) % 0x400]
  }

  function Units(s: string): seq<int> {
    if s == [] then [] else UnitsOf(s[0]) + Units(s[1..])
  }

  predicate UnitsBefore(a: seq<int>, b: seq<int>) {
    b != [] && (a == [] || a[0] < b[0] || (a[0] == b[0] && UnitsBefore(a[1..], b[1..])))
  }

  /** Where a character stands in the order of code units: surrogate pairs come before U+E000. */
  function Rank(c: char): int {
    var n := c as int;
    if n < 0xD800 then n else if n < 0x10000 then n + 0x100000 else n - 0x2800
  }

  /** The order of string comparison, code unit by code unit. */
  predicate Before(a: string, b: string) {
    b != [] && (a == [] || Rank(a[0]) < Rank(b[0]) || (a[0] == b[0] && Before(a[1..], b[1..])))
  }

  lemma {:induction false} UnitsDecide(x: char, y: char, a: seq<int>, b: seq<int>)
    requires x != y
    ensures UnitsBefore(UnitsOf(x) + a, UnitsOf(y) + b) <==> Rank(x) < Rank(y)
  {
    var u, v := UnitsOf(x) + a, UnitsOf(y) + b;
    if u[0] == v[0] {
      assert |UnitsOf(x)| == 2 && |UnitsOf(y)| == 2;
      assert u[1..][0] == UnitsOf(x)[1] && v[1..][0] == UnitsOf(y)[1];
      assert UnitsBefore(u, v) == UnitsBefore(u[1..], v[1..]);
    }
  }

  lemma {:induction false} SameUnitsFirst(u: seq<int>, a: seq<int>, b: seq<int>)
    ensures UnitsBefore(u + a, u + b) <==> UnitsBefore(a, b)
  {
    if u == [] {
      assert u + a == a && u + b == b;
    } else {
      assert (u + a)[1..] == u[1..] + a && (u + b)[1..] == u[1..] + b;
      SameUnitsFirst(u[1..], a, b);
    }
  }

  /** Comparing characters by rank is comparing the strings by their code units. */
  lemma {:induction false} OrderIsByCodeUnits(a: string, b: string)
    ensures Before(a, b) <==> UnitsBefore(Units(a), Units(b))
  {
    if a != [] && b != [] {
      if a[0] == b[0] {
        OrderIsByCodeUnits(a[1..], b[1..]);
        SameUnitsFirst(UnitsOf(a[0]), Units(a[1..]), Units(b[1..]));
      } else {
        UnitsDecide(a[0], b[0], Units(a[1..]), Units(b[1..]));
      }
    }
  }

  lemma {:induction false} BeforeTrichotomy(a: string, b: string)
    ensures a == b || Before(a, b) || Before(b, a)
  {
    if a != [] && b != [] && a[0] == b[0] {
      BeforeTrichotomy(a[1..], b[1..]);
      assert a == [a[0]] + a[1..] && b == [b[0]] + b[1..];
    }
  }

  lemma {:induction false} BeforeIsStrict(a: string, b: string)
    requires Before(a, b)
    ensures a != b && !Before(b, a)
  {
    if a != [] && a[0] == b[0] {
      BeforeIsStrict(a[1..], b[1..]);
    }
  }

  lemma {:induction false} BeforeIsTransitive(a: string, b: string, c: string)
    requires Before(a, b) && Before(b, c)
    ensures Before(a, c)
  {
    if a != [] && a[0] == b[0] == c[0] {
      BeforeIsTransitive(a[1..], b[1..], c[1..]);
    }
  }

  ghost predicate Sorted(s: seq<string>) {
    forall i, j :: 0 <= i < j < |s| ==> Before(s[i], s[j])
  }

  function Insert(x: string, s: seq<string>): seq<string> {
    if s == [] then [x]
    else if x == s[0] then s
    else if Before(x, s[0]) then [x] + s
    else [s[0]] + Insert(x, s[1..])
  }

  /** The distinct values in order. */
  function SortUnique(values: seq<string>): seq<string> {
    if values == [] then [] else Insert(values[0], SortUnique(values[1..]))
  }

  lemma {:induction false} InsertHas(x: string, s: seq<string>, y: string)
    ensures y in Insert(x, s) <==> y == x || y in s
  {
    if s != [] && x != s[0] && !Before(x, s[0]) {
      InsertHas(x, s[1..], y);
      assert s == [s[0]] + s[1..];
    }
  }

  lemma {:induction false} InsertKeepsOrder(x: string, s: seq<string>)
    requires Sorted(s)
    ensures Sorted(Insert(x, s))
  {
    if s == [] || x == s[0] {
    } else if Before(x, s[0]) {
      forall j | 1 <= j < |s| ensures Before(x, s[j]) {
        BeforeIsTransitive(x, s[0], s[j]);
      }
    } else {
      BeforeTrichotomy(x, s[0]);
      var rest := Insert(x, s[1..]);
      InsertKeepsOrder(x, s[1..]);
      forall j | 0 <= j < |rest| ensures Before(s[0], rest[j]) {
        InsertHas(x, s[1..], rest[j]);
      }
    }
  }

  lemma {:induction false} SortUniqueSorts(values: seq<string>)
    ensures Sorted(SortUnique(values))
    ensures forall x :: x in SortUnique(values) <==> x in values
  {
    if values != [] {
      SortUniqueSorts(values[1..]);
      InsertKeepsOrder(values[0], SortUnique(values[1..]));
      assert values == [values[0]] + values[1..];
      forall x ensures x in SortUnique(values) <==> x in values {
        InsertHas(values[0], SortUnique(values[1..]), x);
      }
    }
  }

  ghost predicate SameElements(a: seq<string>, b: seq<string>) {
    forall x :: x in a <==> x in b
  }

  lemma {:induction false} FirstIsLeast(s: seq<string>, x: string)
    requires Sorted(s) && x in s
    ensures x == s[0] || Before(s[0], x)
  {
  }

  lemma {:induction false} SortedTail(s: seq<string>)
    requires Sorted(s) && s != []
    ensures Sorted(s[1..]) && forall x :: x in s[1..] <==> x in s && x != s[0]
  {
    forall x ensures x in s[1..] <==> x in s && x != s[0] {
      if x in s[1..] {
        BeforeIsStrict(s[0], x);
      }
      assert s == [s[0]] + s[1..];
    }
  }

  /** A sorted list is determined by what is in it. */
  lemma {:induction false} SortedIsCanonical(a: seq<string>, b: seq<string>)
    requires Sorted(a) && Sorted(b) && SameElements(a, b)
    ensures a == b
  {
    if a == [] {
      assert forall i :: 0 <= i < |b| ==> b[i] in b;
    } else {
      assert a[0] in b && b[0] in a;
      FirstIsLeast(a, b[0]);
      FirstIsLeast(b, a[0]);
      if a[0] != b[0] {
        BeforeIsStrict(a[0], b[0]);
      }
      SortedTail(a);
      SortedTail(b);
      SortedIsCanonical(a[1..], b[1..]);
      assert a == [a[0]] + a[1..] && b == [b[0]] + b[1..];
    }
  }

  // ---- Minimal sets ----

  /** Whether another value at a different place starts the one at `i`. */
  predicate Redundant(unique: seq<string>, i: nat)
    requires i < |unique|
  {
    exists other | 0 <= other < |unique| :: other != i && unique[other] <= unique[i]
  }

  function Irredundant(unique: seq<string>, i: nat): seq<string>
    requires i <= |unique|
    decreases |unique| - i
  {
    if i == |unique| then []
    else (if Redundant(unique, i) then [] else [unique[i]]) + Irredundant(unique, i + 1)
  }

  function Minimal(values: seq<string>): seq<string> {
    Irredundant(SortUnique(values), 0)
  }

  predicate Covers(prefixes: seq<string>, key: string) {
    exists prefix <- prefixes :: prefix <= key
  }

  ghost predicate SameCover(a: seq<string>, b: seq<string>) {
    forall key :: Covers(a, key) <==> Covers(b, key)
  }

  ghost predicate Antichain(prefixes: seq<string>) {
    forall i, j :: 0 <= i < |prefixes| && 0 <= j < |prefixes| && i != j ==> !(prefixes[i] <= prefixes[j])
  }

  /** In `values`, and started by no other value. */
  ghost predicate MinimalIn(values: seq<string>, x: string) {
    x in values && forall y <- values :: y <= x ==> y == x
  }

  lemma {:induction false} RedundantIff(unique: seq<string>, i: nat)
    requires Sorted(unique) && i < |unique|
    ensures Redundant(unique, i) <==> !MinimalIn(unique, unique[i])
  {
    if Redundant(unique, i) {
      var other :| 0 <= other < |unique| && other != i && unique[other] <= unique[i];
      if other < i {
        BeforeIsStrict(unique[other], unique[i]);
      } else {
        BeforeIsStrict(unique[i], unique[other]);
      }
      assert unique[other] in unique;
    }
    if !MinimalIn(unique, unique[i]) {
      var y :| y in unique && y <= unique[i] && y != unique[i];
      var other :| 0 <= other < |unique| && unique[other] == y;
    }
  }

  lemma {:induction false} IrredundantHas(unique: seq<string>, i: nat)
    requires Sorted(unique) && i <= |unique|
    ensures Sorted(Irredundant(unique, i))
    ensures forall x :: x in Irredundant(unique, i) <==> x in unique[i..] && MinimalIn(unique, x)
    decreases |unique| - i
  {
    if i < |unique| {
      IrredundantHas(unique, i + 1);
      RedundantIff(unique, i);
      assert unique[i..] == [unique[i]] + unique[i + 1..];
      var rest := Irredundant(unique, i + 1);
      forall j | 0 <= j < |rest| ensures Before(unique[i], rest[j]) {
        assert rest[j] in rest;
      }
    }
  }

  lemma {:induction false} MinimalHas(values: seq<string>)
    ensures Sorted(Minimal(values))
    ensures forall x :: x in Minimal(values) <==> MinimalIn(values, x)
  {
    SortUniqueSorts(values);
    var unique := SortUnique(values);
    IrredundantHas(unique, 0);
    assert unique[0..] == unique;
  }

  /** Some minimal value starts each value: follow proper prefixes down. */
  lemma {:induction false} MinimalBelow(values: seq<string>, v: string) returns (m: string)
    requires v in values
    ensures MinimalIn(values, m) && m <= v
    decreases |v|
  {
    if MinimalIn(values, v) {
      m := v;
    } else {
      var y :| y in values && y <= v && y != v;
      m := MinimalBelow(values, y);
    }
  }

  lemma {:induction false} DistinctPlaces(s: seq<string>, i: nat, j: nat)
    requires Sorted(s) && i < |s| && j < |s| && i != j
    ensures s[i] != s[j]
  {
    if i < j {
      BeforeIsStrict(s[i], s[j]);
    } else {
      BeforeIsStrict(s[j], s[i]);
    }
  }

  /**
   * Minimising keeps the meaning: the result covers the same keys, no prefix in it covers another,
   * everything in it was given, and a restriction never becomes the empty list.
   */
  lemma {:induction false} MinimalKeepsMeaning(values: seq<string>)
    ensures SameCover(Minimal(values), values)
    ensures Antichain(Minimal(values))
    ensures forall x <- Minimal(values) :: x in values
    ensures Minimal(values) == [] <==> values == []
  {
    var minimal := Minimal(values);
    MinimalHas(values);
    forall key ensures Covers(minimal, key) <==> Covers(values, key) {
      if Covers(values, key) {
        var v :| v in values && v <= key;
        var m := MinimalBelow(values, v);
        assert m in minimal && m <= key;
      }
    }
    forall i, j | 0 <= i < |minimal| && 0 <= j < |minimal| && i != j
      ensures !(minimal[i] <= minimal[j])
    {
      DistinctPlaces(minimal, i, j);
      assert MinimalIn(values, minimal[i]) && MinimalIn(values, minimal[j]);
    }
    if values != [] {
      var m := MinimalBelow(values, values[0]);
      assert m in minimal;
    }
  }

  /** A minimal value is a covered key none of whose proper prefixes is covered. */
  lemma {:induction false} MinimalByCover(values: seq<string>, x: string)
    ensures MinimalIn(values, x) <==>
            Covers(values, x) && forall y: string :: y <= x && y != x ==> !Covers(values, y)
  {
    if Covers(values, x) && forall y: string :: y <= x && y != x ==> !Covers(values, y) {
      var v :| v in values && v <= x;
      assert Covers(values, v);
      forall y <- values | y <= x ensures y == x {
        assert Covers(values, y);
      }
    }
  }

  /** The minimal list is a normal form: two lists minimise alike exactly when they cover the same keys. */
  lemma {:induction false} MinimalIsNormalForm(a: seq<string>, b: seq<string>)
    ensures Minimal(a) == Minimal(b) <==> SameCover(a, b)
  {
    MinimalKeepsMeaning(a);
    MinimalKeepsMeaning(b);
    if Minimal(a) == Minimal(b) {
      forall key ensures Covers(a, key) <==> Covers(b, key) {
        assert Covers(Minimal(a), key) <==> Covers(a, key);
        assert Covers(Minimal(b), key) <==> Covers(b, key);
      }
    }
    if SameCover(a, b) {
      MinimalHas(a);
      MinimalHas(b);
      forall x ensures x in Minimal(a) <==> x in Minimal(b) {
        MinimalByCover(a, x);
        MinimalByCover(b, x);
      }
      SortedIsCanonical(Minimal(a), Minimal(b));
    }
  }

  lemma {:induction false} MinimalIsIdempotent(values: seq<string>)
    ensures Minimal(Minimal(values)) == Minimal(values)
  {
    MinimalKeepsMeaning(values);
    MinimalIsNormalForm(Minimal(values), values);
  }

  // ---- Meeting two sets ----

  function Meet(grant: string, profile: string): seq<string> {
    if grant <= profile then [profile] else if profile <= grant then [grant] else []
  }

  function MeetEach(grant: string, profiles: seq<string>): seq<string> {
    if profiles == [] then [] else Meet(grant, profiles[0]) + MeetEach(grant, profiles[1..])
  }

  /** Every grant against every profile root, in that order. */
  function Meets(grants: seq<string>, profiles: seq<string>): seq<string> {
    if grants == [] then [] else MeetEach(grants[0], profiles) + Meets(grants[1..], profiles)
  }

  lemma {:induction false} MeetCovers(grant: string, profile: string, key: string)
    ensures Covers(Meet(grant, profile), key) <==> grant <= key && profile <= key
  {
    if grant <= key && profile <= key {
      if |grant| <= |profile| {
        assert grant == key[..|grant|] == profile[..|grant|];
      } else {
        assert profile == key[..|profile|] == grant[..|profile|];
      }
      assert forall s <- Meet(grant, profile) :: s <= key;
      assert Meet(grant, profile)[0] in Meet(grant, profile);
    }
  }

  lemma {:induction false} CoversAppend(a: seq<string>, b: seq<string>, key: string)
    ensures Covers(a + b, key) <==> Covers(a, key) || Covers(b, key)
  {
    if Covers(a, key) {
      var prefix :| prefix in a && prefix <= key;
      assert prefix in a + b;
    }
    if Covers(b, key) {
      var prefix :| prefix in b && prefix <= key;
      assert prefix in a + b;
    }
  }

  lemma {:induction false} MeetEachCovers(grant: string, profiles: seq<string>, key: string)
    ensures Covers(MeetEach(grant, profiles), key) <==> grant <= key && Covers(profiles, key)
  {
    if profiles != [] {
      MeetCovers(grant, profiles[0], key);
      MeetEachCovers(grant, profiles[1..], key);
      CoversAppend(Meet(grant, profiles[0]), MeetEach(grant, profiles[1..]), key);
      CoversAppend([profiles[0]], profiles[1..], key);
      assert profiles == [profiles[0]] + profiles[1..];
      assert profiles[0] in [profiles[0]];
    }
  }

  /** What the pairs cover is exactly what both sets cover. */
  lemma {:induction false} MeetsCoverTheIntersection(grants: seq<string>, profiles: seq<string>, key: string)
    ensures Covers(Meets(grants, profiles), key) <==> Covers(grants, key) && Covers(profiles, key)
  {
    if grants != [] {
      MeetEachCovers(grants[0], profiles, key);
      MeetsCoverTheIntersection(grants[1..], profiles, key);
      CoversAppend(MeetEach(grants[0], profiles), Meets(grants[1..], profiles), key);
      CoversAppend([grants[0]], grants[1..], key);
      assert grants == [grants[0]] + grants[1..];
      assert grants[0] in [grants[0]];
    }
  }
}
