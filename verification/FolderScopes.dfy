/**
 * The folders an owner ticks when approving an agent, brought into the two lists that are stored:
 * folder keys and, entry by entry, the folders as they were spelled.
 */
module FolderScopes {
  import opened Common
  import opened PathPrefixes
  import V = Visibility

  /**
   * Lower-casing, the rules for vault paths that have nothing to do with slashes, and the name of
   * the note that stands in for a folder, "__owd_agent_scope__.md". Any name serves that lower-casing
   * keeps.
   */
  datatype PathRules = PathRules(lower: string -> string, otherRules: string -> bool, sentinel: string)

  datatype Failure = FolderScopeInvalid

  datatype Scope = Scope(pathKeyPrefixes: seq<string>, pathPrefixes: seq<string>)

  predicate HasEmptySegment(path: string) {
    exists i | 0 <= i < |path| - 1 :: path[i] == '/' && path[i + 1] == '/'
  }

  predicate ValidPath(rules: PathRules, path: string) {
    && path != ""
    && path[0] != '/'
    && !HasEmptySegment(path)
    && path[|path| - 1] != '/'
    && rules.otherRules(path)
  }

  /** One trailing slash is forgiven; more are not. */
  function Directory(raw: string): string {
    if raw != "" && raw[|raw| - 1] == '/' then raw[..|raw| - 1] else raw
  }

  /** A folder is checked by checking a note inside it. */
  function NoteInside(rules: PathRules, raw: string): string {
    Directory(raw) + "/" + rules.sentinel
  }

  function DropSentinel(rules: PathRules, s: string): string {
    if |s| < |rules.sentinel| then "" else s[..|s| - |rules.sentinel|]
  }

  function PathOf(rules: PathRules, raw: string): string {
    DropSentinel(rules, NoteInside(rules, raw))
  }

  function KeyOf(rules: PathRules, raw: string): string {
    DropSentinel(rules, rules.lower(NoteInside(rules, raw)))
  }

  function KeysOf(rules: PathRules, values: seq<string>): seq<string> {
    seq(|values|, i requires 0 <= i < |values| => KeyOf(rules, values[i]))
  }

  predicate Unrestricted(values: seq<string>) {
    values == [] || "" in values
  }

  predicate AllValid(rules: PathRules, values: seq<string>) {
    forall raw <- values :: ValidPath(rules, NoteInside(rules, raw))
  }

  /**
   * A folder, without the one slash that is forgiven at its end: not empty, no slash at either end,
   * and no two in a row.
   */
  ghost predicate IsFolder(rules: PathRules, folder: string) {
    && folder != "" && folder[0] != '/' && folder[|folder| - 1] != '/'
    && (forall i :: 0 <= i < |folder| - 1 ==> !(folder[i] == '/' && folder[i + 1] == '/'))
    && rules.otherRules(folder + "/" + rules.sentinel)
  }

  lemma {:induction false} FolderInPath(folder: string, name: string)
    requires name != "" && '/' !in name
    ensures var path := folder + "/" + name;
            (path[0] != '/' && path[|path| - 1] != '/' && !HasEmptySegment(path)) <==>
            && folder != "" && folder[0] != '/' && folder[|folder| - 1] != '/'
            && forall i :: 0 <= i < |folder| - 1 ==> !(folder[i] == '/' && folder[i + 1] == '/')
  {
    var path, n := folder + "/" + name, |folder|;
    assert path[n] == '/' && path[|path| - 1] == name[|name| - 1];
    assert forall i :: 0 <= i < n ==> path[i] == folder[i];
    assert forall i :: n < i < |path| ==> path[i] == name[i - n - 1];
  }

  /** Checking a note inside a ticked folder is checking the folder. */
  lemma {:induction false} FolderIsValidIff(rules: PathRules, raw: string)
    requires rules.sentinel != "" && '/' !in rules.sentinel
    ensures ValidPath(rules, NoteInside(rules, raw)) <==>
            IsFolder(rules, raw) || (raw != "" && raw[|raw| - 1] == '/' && IsFolder(rules, raw[..|raw| - 1]))
  {
    FolderInPath(Directory(raw), rules.sentinel);
  }

  /** `i` is the last of the first `n` values with this key. */
  ghost predicate LastWithKey(rules: PathRules, values: seq<string>, n: nat, i: int, key: string)
    requires n <= |values|
  {
    && 0 <= i < n
    && KeyOf(rules, values[i]) == key
    && forall j :: i < j < n ==> KeyOf(rules, values[j]) != key
  }

  /** The path stored beside a key: the last spelling of it. */
  ghost predicate SpelledLast(rules: PathRules, values: seq<string>, n: nat, key: string, path: string)
    requires n <= |values|
  {
    exists i :: LastWithKey(rules, values, n, i, key) && path == PathOf(rules, values[i])
  }

  /** The minimal keys and, place by place, their last spellings. */
  ghost predicate Normalizes(rules: PathRules, values: seq<string>, scope: Scope) {
    && scope.pathKeyPrefixes == Minimal(KeysOf(rules, values))
    && |scope.pathPrefixes| == |scope.pathKeyPrefixes|
    && forall i :: 0 <= i < |scope.pathPrefixes| ==>
         SpelledLast(rules, values, |values|, scope.pathKeyPrefixes[i], scope.pathPrefixes[i])
  }

  lemma {:induction false} StillLast(rules: PathRules, values: seq<string>, n: nat, i: int, key: string)
    requires n < |values| && LastWithKey(rules, values, n, i, key) && KeyOf(rules, values[n]) != key
    ensures LastWithKey(rules, values, n + 1, i, key)
  {
  }

  lemma {:induction false} SpellingMovesOn(
      rules: PathRules, values: seq<string>, n: nat, key: string, path: string)
    requires n < |values| && SpelledLast(rules, values, n, key, path) && KeyOf(rules, values[n]) != key
    ensures SpelledLast(rules, values, n + 1, key, path)
  {
    var i :| LastWithKey(rules, values, n, i, key) && path == PathOf(rules, values[i]);
    StillLast(rules, values, n, i, key);
  }

  lemma {:induction false} NewestSpelling(rules: PathRules, values: seq<string>, n: nat)
    requires n < |values|
    ensures SpelledLast(rules, values, n + 1, KeyOf(rules, values[n]), PathOf(rules, values[n]))
  {
    assert LastWithKey(rules, values, n + 1, n, KeyOf(rules, values[n]));
  }

  lemma {:induction false} SameElementsMinimiseAlike(a: seq<string>, b: seq<string>)
    requires SameElements(a, b)
    ensures Minimal(a) == Minimal(b)
  {
    MinimalIsNormalForm(a, b);
  }

  /** The keys collected from the first `n` values, each with its last spelling. */
  ghost predicate Collected(
      rules: PathRules, values: seq<string>, n: nat, keys: seq<string>, unique: map<string, string>)
    requires n <= |values|
  {
    && (forall key :: key in unique <==> key in keys)
    && (forall i :: 0 <= i < n ==> KeyOf(rules, values[i]) in unique)
    && (forall key <- unique :: SpelledLast(rules, values, n, key, unique[key]))
  }

  lemma {:induction false} OneMoreCollected(
      rules: PathRules, values: seq<string>, n: nat, keys: seq<string>, unique: map<string, string>)
    requires n < |values| && Collected(rules, values, n, keys, unique)
    ensures var key := KeyOf(rules, values[n]);
            Collected(
              rules, values, n + 1, if key in keys then keys else keys + [key],
              unique[key := PathOf(rules, values[n])])
  {
    var key := KeyOf(rules, values[n]);
    var more := unique[key := PathOf(rules, values[n])];
    NewestSpelling(rules, values, n);
    forall other <- more ensures SpelledLast(rules, values, n + 1, other, more[other]) {
      if other != key {
        SpellingMovesOn(rules, values, n, other, unique[other]);
      }
    }
  }

  lemma {:induction false} OneMoreValid(rules: PathRules, values: seq<string>, n: nat)
    requires n < |values| && AllValid(rules, values[..n])
    ensures AllValid(rules, values[..n + 1]) <==> ValidPath(rules, NoteInside(rules, values[n]))
    ensures AllValid(rules, values) ==> ValidPath(rules, NoteInside(rules, values[n]))
  {
    assert values[..n + 1] == values[..n] + [values[n]];
    assert values[n] in values;
  }

  method CollectFolders(rules: PathRules, values: seq<string>)
    returns (ok: bool, keys: seq<string>, unique: map<string, string>)
    ensures ok <==> AllValid(rules, values)
    ensures ok ==> Collected(rules, values, |values|, keys, unique)
  {
    keys, unique := [], map[];
    for n := 0 to |values|
      invariant AllValid(rules, values[..n])
      invariant Collected(rules, values, n, keys, unique)
    {
      var raw := values[n];
      OneMoreValid(rules, values, n);
      if !ValidPath(rules, NoteInside(rules, raw)) {
        return false, keys, unique;
      }
      OneMoreCollected(rules, values, n, keys, unique);
      var key := KeyOf(rules, raw);
      // A map remembers its keys in the order of their first insertion.
      if key !in keys {
        keys := keys + [key];
      }
      unique := unique[key := PathOf(rules, raw)];
    }
    assert values[..|values|] == values;
    return true, keys, unique;
  }

  lemma {:induction false} SpellingsAreOfValues(rules: PathRules, values: seq<string>, unique: map<string, string>)
    requires forall i :: 0 <= i < |values| ==> KeyOf(rules, values[i]) in unique
    requires forall key <- unique :: SpelledLast(rules, values, |values|, key, unique[key])
    ensures forall key :: key in unique <==> key in KeysOf(rules, values)
  {
    forall key ensures key in unique <==> key in KeysOf(rules, values) {
      if key in unique {
        var i :| LastWithKey(rules, values, |values|, i, key) && unique[key] == PathOf(rules, values[i]);
        assert KeysOf(rules, values)[i] == key;
      }
    }
  }

  lemma {:induction false} CollectedNormalizes(
      rules: PathRules, values: seq<string>, keys: seq<string>, unique: map<string, string>, scope: Scope)
    requires Collected(rules, values, |values|, keys, unique)
    requires scope.pathKeyPrefixes == Minimal(keys) && |scope.pathPrefixes| == |scope.pathKeyPrefixes|
    requires forall i :: 0 <= i < |scope.pathPrefixes| && scope.pathKeyPrefixes[i] in unique ==>
               scope.pathPrefixes[i] == unique[scope.pathKeyPrefixes[i]]
    ensures Normalizes(rules, values, scope)
  {
    SpellingsAreOfValues(rules, values, unique);
    SameElementsMinimiseAlike(keys, KeysOf(rules, values));
    MinimalKeepsMeaning(keys);
    forall i | 0 <= i < |scope.pathPrefixes|
      ensures SpelledLast(rules, values, |values|, scope.pathKeyPrefixes[i], scope.pathPrefixes[i])
    {
      assert scope.pathKeyPrefixes[i] in Minimal(keys);
    }
  }

  method NormalizePathPrefixes(rules: PathRules, values: seq<string>) returns (r: Result<Scope, Failure>)
    ensures values == [] || "" in values ==> r == Ok(Scope([], []))
    ensures values != [] && "" !in values && !AllValid(rules, values) ==> r == Err(FolderScopeInvalid)
    ensures values != [] && "" !in values && AllValid(rules, values) ==> r.Ok? && Normalizes(rules, values, r.value)
  {
    if |values| == 0 || "" in values {
      return Ok(Scope([], []));
    }
    var ok, keys, unique := CollectFolders(rules, values);
    if !ok {
      return Err(FolderScopeInvalid);
    }
    var minimalKeys := Minimal(keys);
    var paths := seq(|minimalKeys|, i requires 0 <= i < |minimalKeys| =>
      if minimalKeys[i] in unique then unique[minimalKeys[i]] else minimalKeys[i]);
    CollectedNormalizes(rules, values, keys, unique, Scope(minimalKeys, paths));
    return Ok(Scope(minimalKeys, paths));
  }

  // ---- What the stored lists mean ----

  /** Lower-casing goes segment by segment, makes no slashes, and leaves the sentinel alone. */
  ghost predicate LowersBySegment(rules: PathRules) {
    && (forall a, b {:trigger rules.lower(a + "/" + b)} ::
          rules.lower(a + "/" + b) == rules.lower(a) + "/" + rules.lower(b))
    && (forall a :: a != "" && a[|a| - 1] != '/' ==>
          rules.lower(a) != "" && rules.lower(a)[|rules.lower(a)| - 1] != '/')
    && rules.lower(rules.sentinel) == rules.sentinel
  }

  lemma {:induction false} DropAppended(rules: PathRules, s: string)
    ensures DropSentinel(rules, s + rules.sentinel) == s
  {
    assert (s + rules.sentinel)[..|s|] == s;
  }

  lemma {:induction false} KeyIsFolder(rules: PathRules, raw: string)
    requires LowersBySegment(rules)
    ensures PathOf(rules, raw) == Directory(raw) + "/"
    ensures KeyOf(rules, raw) == rules.lower(Directory(raw)) + "/"
  {
    DropAppended(rules, Directory(raw) + "/");
    DropAppended(rules, rules.lower(Directory(raw)) + "/");
  }

  lemma {:induction false} ValidFolderKey(rules: PathRules, raw: string)
    requires LowersBySegment(rules) && ValidPath(rules, NoteInside(rules, raw))
    ensures Directory(raw) != "" && Directory(raw)[|Directory(raw)| - 1] != '/'
    ensures V.IsFolderKey(KeyOf(rules, raw)) && KeyOf(rules, raw) != "/"
  {
    var d, path := Directory(raw), NoteInside(rules, raw);
    assert path[|d|] == '/';
    if d != "" {
      assert path[|d| - 1] == d[|d| - 1];
    }
    KeyIsFolder(rules, raw);
    var lowered := rules.lower(d);
    assert (lowered + "/")[..|lowered|] == lowered;
  }

  lemma {:induction false} KeysAreLowered(rules: PathRules, values: seq<string>)
    requires LowersBySegment(rules)
    ensures forall i :: 0 <= i < |values| ==> KeysOf(rules, values)[i] == rules.lower(Directory(values[i])) + "/"
  {
    forall i | 0 <= i < |values|
      ensures KeysOf(rules, values)[i] == rules.lower(Directory(values[i])) + "/"
    {
      KeyIsFolder(rules, values[i]);
    }
  }

  lemma {:induction false} KeysCover(rules: PathRules, values: seq<string>, key: string)
    requires forall i :: 0 <= i < |values| ==> KeysOf(rules, values)[i] == rules.lower(Directory(values[i])) + "/"
    ensures Covers(KeysOf(rules, values), key) <==>
            exists raw <- values :: rules.lower(Directory(raw)) + "/" <= key
  {
    var keys := KeysOf(rules, values);
    if Covers(keys, key) {
      var k :| k in keys && k <= key;
      var i :| 0 <= i < |keys| && keys[i] == k;
      assert values[i] in values;
    }
    if raw :| raw in values && rules.lower(Directory(raw)) + "/" <= key {
      var i :| 0 <= i < |values| && values[i] == raw;
      assert keys[i] in keys;
    }
  }

  /** The stored keys cover exactly what the ticked folders cover, and none lies inside another. */
  lemma {:induction false} StoredKeysKeepMeaning(rules: PathRules, values: seq<string>, scope: Scope)
    requires LowersBySegment(rules) && Normalizes(rules, values, scope)
    ensures forall key :: Covers(scope.pathKeyPrefixes, key) <==>
              exists raw <- values :: rules.lower(Directory(raw)) + "/" <= key
    ensures Antichain(scope.pathKeyPrefixes)
    ensures scope.pathKeyPrefixes == [] <==> values == []
  {
    MinimalKeepsMeaning(KeysOf(rules, values));
    forall key
      ensures Covers(scope.pathKeyPrefixes, key) <==>
              exists raw <- values :: rules.lower(Directory(raw)) + "/" <= key
    {
      assert Covers(scope.pathKeyPrefixes, key) <==> Covers(KeysOf(rules, values), key);
      KeysAreLowered(rules, values);
      KeysCover(rules, values, key);
    }
  }

  lemma {:induction false} SpellingOf(rules: PathRules, values: seq<string>, key: string, path: string)
    returns (raw: string)
    requires SpelledLast(rules, values, |values|, key, path)
    ensures raw in values && key == KeyOf(rules, raw) && path == PathOf(rules, raw)
  {
    var i :| LastWithKey(rules, values, |values|, i, key) && path == PathOf(rules, values[i]);
    raw := values[i];
  }

  /** Every stored pair is one ticked folder: its spelling, and the proper folder key of that spelling. */
  lemma {:induction false} StoredPairsAreFolders(rules: PathRules, values: seq<string>, scope: Scope, i: nat)
    returns (raw: string)
    requires LowersBySegment(rules) && AllValid(rules, values) && Normalizes(rules, values, scope)
    requires i < |scope.pathKeyPrefixes|
    ensures raw in values
    ensures scope.pathPrefixes[i] == Directory(raw) + "/"
    ensures scope.pathKeyPrefixes[i] == rules.lower(Directory(raw)) + "/"
    ensures V.IsFolderKey(scope.pathKeyPrefixes[i]) && scope.pathKeyPrefixes[i] != "/"
  {
    raw := SpellingOf(rules, values, scope.pathKeyPrefixes[i], scope.pathPrefixes[i]);
    ValidFolderKey(rules, raw);
    KeyIsFolder(rules, raw);
  }

  /** The scope stored for these ticked folders. */
  ghost predicate Stores(rules: PathRules, values: seq<string>, scope: Scope) {
    if Unrestricted(values) then scope == Scope([], []) else Normalizes(rules, values, scope)
  }

  lemma {:induction false} ScopeCovers(rules: PathRules, values: seq<string>, scope: Scope, key: string)
    requires LowersBySegment(rules) && values != [] && Normalizes(rules, values, scope)
    ensures scope.pathKeyPrefixes != []
    ensures Covers(scope.pathKeyPrefixes, key) <==>
            exists raw <- values :: rules.lower(Directory(raw)) + "/" <= key
  {
    StoredKeysKeepMeaning(rules, values, scope);
  }

  /**
   * From the tick boxes to the paths of a vault without a profile: a path is visible exactly when
   * everything was ticked or its folded form begins with a lower-cased ticked folder. That is not
   * quite to lie in a ticked folder: see TickedFoldersAreSeenIff.
   */
  lemma {:induction false} TickedFoldersAreVisible(
      rules: PathRules, fold: V.Fold, values: seq<string>, scope: Scope, pathKey: string)
    requires LowersBySegment(rules)
    requires Stores(rules, values, scope)
    ensures V.AllowsPath(fold, V.VisibilityFor(fold, V.Grant(scope.pathKeyPrefixes, None)), pathKey) <==>
            Unrestricted(values) || exists raw <- values :: rules.lower(Directory(raw)) + "/" <= fold(pathKey)
  {
    V.VisibleWithoutProfile(fold, scope.pathKeyPrefixes, pathKey);
    if !Unrestricted(values) {
      ScopeCovers(rules, values, scope, fold(pathKey));
    }
  }

  /** The folded path of a ticked folder. */
  function FoldedKey(rules: PathRules, fold: V.Fold, raw: string): string {
    fold(rules.lower(Directory(raw))) + "/"
  }

  lemma {:induction false} StoredKeyIsFolded(rules: PathRules, fold: V.Fold, raw: string)
    requires LowersBySegment(rules) && V.FoldsBySegment(fold) && ValidPath(rules, NoteInside(rules, raw))
    ensures V.FolderKey(fold, KeyOf(rules, raw)) == FoldedKey(rules, fold, raw)
  {
    ValidFolderKey(rules, raw);
    KeyIsFolder(rules, raw);
    V.FoldedFolder(fold, KeyOf(rules, raw));
    var lowered := rules.lower(Directory(raw));
    assert V.StripSlashes(lowered + "/") == lowered by {
      assert (lowered + "/")[..|lowered|] == lowered;
    }
  }

  /** The stored key of a ticked folder is canonical exactly when folding leaves the lowered folder alone. */
  lemma {:induction false} StoredKeyCanonicalIff(rules: PathRules, fold: V.Fold, raw: string)
    requires LowersBySegment(rules) && V.FoldsBySegment(fold) && ValidPath(rules, NoteInside(rules, raw))
    ensures V.Canonical(fold, KeyOf(rules, raw)) <==> fold(rules.lower(Directory(raw))) == rules.lower(Directory(raw))
  {
    StoredKeyIsFolded(rules, fold, raw);
    KeyIsFolder(rules, raw);
    var folded, lowered := fold(rules.lower(Directory(raw))), rules.lower(Directory(raw));
    if folded + "/" == lowered + "/" {
      assert folded == (folded + "/")[..|folded + "/"| - 1] == lowered;
    }
  }

  /** A stored key is a ticked folder's, and starts the key of every other ticked folder it replaced. */
  lemma {:induction false} StoredKeyOf(rules: PathRules, values: seq<string>, scope: Scope, raw: string)
    returns (m: string)
    requires Normalizes(rules, values, scope) && raw in values
    ensures m in scope.pathKeyPrefixes && m <= KeyOf(rules, raw)
  {
    var i :| 0 <= i < |values| && values[i] == raw;
    var keys := KeysOf(rules, values);
    assert keys[i] == KeyOf(rules, raw) && keys[i] in keys;
    MinimalKeepsMeaning(keys);
    assert Covers(keys, keys[i]);
    assert Covers(Minimal(keys), keys[i]);
    m :| m in Minimal(keys) && m <= keys[i];
  }

  lemma {:induction false} TickedFolderOf(rules: PathRules, values: seq<string>, scope: Scope, m: string)
    returns (raw: string)
    requires Normalizes(rules, values, scope) && m in scope.pathKeyPrefixes
    ensures raw in values && m == KeyOf(rules, raw)
  {
    var i :| 0 <= i < |scope.pathKeyPrefixes| && scope.pathKeyPrefixes[i] == m;
    raw := SpellingOf(rules, values, m, scope.pathPrefixes[i]);
  }

  /** Folded, a ticked folder lies inside the folded folder of some stored key. */
  lemma {:induction false} FoldedBelow(
      rules: PathRules, fold: V.Fold, values: seq<string>, scope: Scope, raw: string)
    returns (m: string)
    requires LowersBySegment(rules) && V.FoldsBySegment(fold)
    requires AllValid(rules, values) && Normalizes(rules, values, scope) && raw in values
    ensures m in scope.pathKeyPrefixes && V.FolderKey(fold, m) <= FoldedKey(rules, fold, raw)
  {
    m := StoredKeyOf(rules, values, scope, raw);
    var other := TickedFolderOf(rules, values, scope, m);
    ValidFolderKey(rules, raw);
    ValidFolderKey(rules, other);
    V.FoldedFoldersNest(fold, m, KeyOf(rules, raw));
    StoredKeyIsFolded(rules, fold, raw);
  }

  lemma {:induction false} FoldedFolderOf(
      rules: PathRules, fold: V.Fold, values: seq<string>, scope: Scope, m: string)
    returns (raw: string)
    requires LowersBySegment(rules) && V.FoldsBySegment(fold)
    requires AllValid(rules, values) && Normalizes(rules, values, scope) && m in scope.pathKeyPrefixes
    ensures raw in values && V.FolderKey(fold, m) == FoldedKey(rules, fold, raw)
  {
    raw := TickedFolderOf(rules, values, scope, m);
    StoredKeyIsFolded(rules, fold, raw);
  }

  /** Folding the stored keys again covers what folding all the ticked folders covers. */
  lemma {:induction false} FoldedScopeCovers(
      rules: PathRules, fold: V.Fold, values: seq<string>, scope: Scope, key: string)
    requires LowersBySegment(rules) && V.FoldsBySegment(fold)
    requires AllValid(rules, values) && Normalizes(rules, values, scope)
    ensures (exists m <- scope.pathKeyPrefixes :: V.FolderKey(fold, m) <= key) <==>
            exists raw <- values :: FoldedKey(rules, fold, raw) <= key
  {
    if m :| m in scope.pathKeyPrefixes && V.FolderKey(fold, m) <= key {
      var raw := FoldedFolderOf(rules, fold, values, scope, m);
    }
    if raw :| raw in values && FoldedKey(rules, fold, raw) <= key {
      var m := FoldedBelow(rules, fold, values, scope, raw);
    }
  }

  /**
   * From the tick boxes to the paths of a vault with a profile: a path is visible exactly when all
   * was ticked or it lies in the folded path of a ticked folder, and it lies in a content root, and
   * its name is not one that is never exposed.
   */
  lemma {:induction false} TickedFoldersUnderProfile(
      rules: PathRules, fold: V.Fold, values: seq<string>, scope: Scope, profile: V.Profile, path: string)
    requires LowersBySegment(rules) && V.FoldsBySegment(fold)
    requires Unrestricted(values) || AllValid(rules, values)
    requires Stores(rules, values, scope)
    ensures V.AllowsPath(fold, V.VisibilityFor(fold, V.Grant(scope.pathKeyPrefixes, Some(profile))), path) <==>
            && (Unrestricted(values) || exists raw <- values :: FoldedKey(rules, fold, raw) <= fold(path))
            && (exists root <- profile.contentRoots :: V.FolderKey(fold, root) <= fold(path))
            && (forall name <- profile.neverExposeFileNames :: V.FileName(fold(path)) != fold(name))
  {
    V.VisibleIffInBoth(fold, V.Grant(scope.pathKeyPrefixes, Some(profile)), profile, path);
    if !Unrestricted(values) {
      ScopeCovers(rules, values, scope, fold(path));
      FoldedScopeCovers(rules, fold, values, scope, fold(path));
    }
  }

  ghost predicate FoldsInto(rules: PathRules, fold: V.Fold, values: seq<string>, raw: string) {
    exists other <- values :: rules.lower(Directory(other)) + "/" <= FoldedKey(rules, fold, raw)
  }

  /** Every ticked folder, folded, still lies in a ticked folder. */
  ghost predicate FoldsInside(rules: PathRules, fold: V.Fold, values: seq<string>) {
    forall raw {:trigger FoldsInto(rules, fold, values, raw)} ::
      raw in values ==> FoldsInto(rules, fold, values, raw)
  }

  lemma {:induction false} GrantedAround(rules: PathRules, values: seq<string>, scope: Scope, key: string)
    returns (raw: string)
    requires LowersBySegment(rules) && values != [] && Normalizes(rules, values, scope)
    requires Covers(scope.pathKeyPrefixes, key)
    ensures raw in values && rules.lower(Directory(raw)) + "/" <= key
  {
    ScopeCovers(rules, values, scope, key);
    raw :| raw in values && rules.lower(Directory(raw)) + "/" <= key;
  }

  lemma {:induction false} FolderAround(
      rules: PathRules, fold: V.Fold, values: seq<string>, scope: Scope, raw: string)
    returns (other: string)
    requires LowersBySegment(rules) && V.FoldsBySegment(fold)
    requires values != [] && AllValid(rules, values) && Normalizes(rules, values, scope) && raw in values
    requires forall m <- scope.pathKeyPrefixes :: Covers(scope.pathKeyPrefixes, V.FolderKey(fold, m))
    ensures other in values && rules.lower(Directory(other)) + "/" <= FoldedKey(rules, fold, raw)
  {
    var m := FoldedBelow(rules, fold, values, scope, raw);
    other := GrantedAround(rules, values, scope, V.FolderKey(fold, m));
  }

  lemma {:induction false} FolderInside(rules: PathRules, fold: V.Fold, values: seq<string>, raw: string)
    returns (other: string)
    requires FoldsInside(rules, fold, values) && raw in values
    ensures other in values && rules.lower(Directory(other)) + "/" <= FoldedKey(rules, fold, raw)
  {
    assert FoldsInto(rules, fold, values, raw);
    other :| other in values && rules.lower(Directory(other)) + "/" <= FoldedKey(rules, fold, raw);
  }

  lemma {:induction false} TickedIsCovered(
      rules: PathRules, values: seq<string>, scope: Scope, raw: string, key: string)
    requires LowersBySegment(rules) && values != [] && Normalizes(rules, values, scope)
    requires raw in values && rules.lower(Directory(raw)) + "/" <= key
    ensures Covers(scope.pathKeyPrefixes, key)
  {
    ScopeCovers(rules, values, scope, key);
  }

  lemma {:induction false} FoldedKeyStaysGranted(
      rules: PathRules, fold: V.Fold, values: seq<string>, scope: Scope, m: string)
    requires LowersBySegment(rules) && V.FoldsBySegment(fold)
    requires values != [] && AllValid(rules, values) && Normalizes(rules, values, scope)
    requires FoldsInside(rules, fold, values) && m in scope.pathKeyPrefixes
    ensures Covers(scope.pathKeyPrefixes, V.FolderKey(fold, m))
  {
    var raw := FoldedFolderOf(rules, fold, values, scope, m);
    var other := FolderInside(rules, fold, values, raw);
    TickedIsCovered(rules, values, scope, other, FoldedKey(rules, fold, raw));
  }

  lemma {:induction false} KeysStayGrantedIff(rules: PathRules, fold: V.Fold, values: seq<string>, scope: Scope)
    requires LowersBySegment(rules) && V.FoldsBySegment(fold)
    requires values != [] && AllValid(rules, values) && Normalizes(rules, values, scope)
    ensures V.KeysStayGranted(fold, scope.pathKeyPrefixes) <==> FoldsInside(rules, fold, values)
  {
    MinimalKeepsMeaning(KeysOf(rules, values));
    if V.KeysStayGranted(fold, scope.pathKeyPrefixes) {
      forall raw | raw in values ensures FoldsInto(rules, fold, values, raw) {
        var other := FolderAround(rules, fold, values, scope, raw);
      }
    }
    if FoldsInside(rules, fold, values) {
      forall m <- scope.pathKeyPrefixes ensures Covers(scope.pathKeyPrefixes, V.FolderKey(fold, m)) {
        FoldedKeyStaysGranted(rules, fold, values, scope, m);
      }
    }
  }

  /** The key of a note, or of anything else, in a ticked folder. */
  function InFolder(rules: PathRules, raw: string, rest: string): string {
    rules.lower(Directory(raw)) + "/" + rest
  }

  ghost predicate SeenIn(rules: PathRules, fold: V.Fold, scope: Scope, raw: string, rest: string) {
    V.AllowsPath(fold, V.VisibilityFor(fold, V.Grant(scope.pathKeyPrefixes, None)), InFolder(rules, raw, rest))
  }

  lemma {:induction false} FoldsIntoShows(
      rules: PathRules, fold: V.Fold, values: seq<string>, scope: Scope, raw: string, rest: string)
    requires LowersBySegment(rules) && V.FoldsBySegment(fold)
    requires !Unrestricted(values) && Stores(rules, values, scope) && FoldsInto(rules, fold, values, raw)
    ensures SeenIn(rules, fold, scope, raw, rest)
  {
    TickedFoldersAreVisible(rules, fold, values, scope, InFolder(rules, raw, rest));
    var other :| other in values && rules.lower(Directory(other)) + "/" <= FoldedKey(rules, fold, raw);
    assert fold(InFolder(rules, raw, rest)) == FoldedKey(rules, fold, raw) + fold(rest);
  }

  /** Even one note seen in the folder tells that the folder, folded, lies in a ticked one. */
  lemma {:induction false} NoteSeenFoldsInto(
      rules: PathRules, fold: V.Fold, values: seq<string>, scope: Scope, raw: string)
    requires LowersBySegment(rules) && V.FoldsBySegment(fold) && AllValid(rules, values)
    requires !Unrestricted(values) && Stores(rules, values, scope)
    requires SeenIn(rules, fold, scope, raw, V.Repeated(1))
    ensures FoldsInto(rules, fold, values, raw)
  {
    TickedFoldersAreVisible(rules, fold, values, scope, InFolder(rules, raw, V.Repeated(1)));
    V.FoldedFileIn(fold, rules.lower(Directory(raw)), 1);
    var path := FoldedKey(rules, fold, raw) + V.Repeated(1);
    assert fold(InFolder(rules, raw, V.Repeated(1))) == path;
    var other :| other in values && rules.lower(Directory(other)) + "/" <= path;
    ValidFolderKey(rules, other);
    KeyIsFolder(rules, other);
    V.KeyBeforeName(rules.lower(Directory(other)) + "/", FoldedKey(rules, fold, raw));
  }

  /**
   * What ticking folders is for: without a profile the agent can read every note in every ticked
   * folder. It can exactly when every ticked folder is still inside a ticked one after folding.
   */
  lemma {:induction false} TickedFoldersAreSeenIff(
      rules: PathRules, fold: V.Fold, values: seq<string>, scope: Scope)
    requires LowersBySegment(rules) && V.FoldsBySegment(fold)
    requires Unrestricted(values) || AllValid(rules, values)
    requires Stores(rules, values, scope)
    ensures (forall raw, rest :: raw in values && rest != "" ==> SeenIn(rules, fold, scope, raw, rest)) <==>
            Unrestricted(values) || FoldsInside(rules, fold, values)
  {
    if Unrestricted(values) {
      forall raw, rest ensures SeenIn(rules, fold, scope, raw, rest) {
        TickedFoldersAreVisible(rules, fold, values, scope, InFolder(rules, raw, rest));
      }
    } else if FoldsInside(rules, fold, values) {
      forall raw, rest | raw in values && rest != "" ensures SeenIn(rules, fold, scope, raw, rest) {
        assert FoldsInto(rules, fold, values, raw);
        FoldsIntoShows(rules, fold, values, scope, raw, rest);
      }
    } else {
      var raw :| raw in values && !FoldsInto(rules, fold, values, raw);
      if SeenIn(rules, fold, scope, raw, V.Repeated(1)) {
        NoteSeenFoldsInto(rules, fold, values, scope, raw);
      }
    }
  }

  lemma {:induction false} OnlyFolderHolds(rules: PathRules, raw: string, key: string)
    ensures (exists other <- [raw] :: rules.lower(Directory(other)) + "/" <= key) <==>
            rules.lower(Directory(raw)) + "/" <= key
  {
    assert raw in [raw];
  }

  lemma {:induction false} OneTickedFolder(
      rules: PathRules, fold: V.Fold, scope: Scope, raw: string, path: string)
    requires LowersBySegment(rules) && raw != "" && Stores(rules, [raw], scope)
    ensures V.AllowsPath(fold, V.VisibilityFor(fold, V.Grant(scope.pathKeyPrefixes, None)), path) <==>
            rules.lower(Directory(raw)) + "/" <= fold(path)
  {
    TickedFoldersAreVisible(rules, fold, [raw], scope, path);
    OnlyFolderHolds(rules, raw, fold(path));
  }

  lemma {:induction false} LowerFolderIsHidden(
      rules: PathRules, fold: V.Fold, scope: Scope, raw: string, lowered: string, rest: string)
    requires LowersBySegment(rules) && V.FoldsBySegment(fold) && Stores(rules, [raw], scope)
    requires raw != "" && Directory(raw) == raw && rules.lower(raw) == lowered
    requires lowered != "" && fold(lowered) != "" && fold(lowered)[0] != lowered[0]
    ensures !SeenIn(rules, fold, scope, raw, rest)
  {
    OneTickedFolder(rules, fold, scope, raw, InFolder(rules, raw, rest));
    assert fold(InFolder(rules, raw, rest)) == fold(lowered) + "/" + fold(rest);
    assert (lowered + "/")[0] != (fold(lowered) + "/" + fold(rest))[0];
  }

  /**
   * It is not always so. With only the folder named by a capital J with caron ticked, and no profile,
   * every path in that folder is refused.
   */
  lemma {:induction false} TickedFolderIsHidden(rules: PathRules, fold: V.Fold, scope: Scope, rest: string)
    requires LowersBySegment(rules) && V.FoldsBySegment(fold)
    requires rules.lower("J\U{30C}") == "j\U{30C}" && fold("j\U{30C}") == "\U{1F0}"
    requires Stores(rules, ["J\U{30C}"], scope)
    ensures !SeenIn(rules, fold, scope, "J\U{30C}", rest)
  {
    var raw, lowered := "J\U{30C}", "j\U{30C}";
    assert raw[1] == '\U{30C}' && lowered[0] == 'j' && "\U{1F0}"[0] == '\U{1F0}';
    LowerFolderIsHidden(rules, fold, scope, raw, lowered, rest);
  }

  /**
   * For a stored scope, no profile shows a path that the scope alone does not, exactly when every
   * ticked folder is still inside a ticked one after folding; in particular when folding leaves
   * the lowered folders alone. Ordinary profiles and note paths are enough to tell.
   */
  lemma {:induction false} StoredScopeNarrowsIff(rules: PathRules, fold: V.Fold, values: seq<string>, scope: Scope)
    requires LowersBySegment(rules) && V.FoldsBySegment(fold)
    requires Unrestricted(values) || AllValid(rules, values)
    requires Stores(rules, values, scope)
    ensures (forall profile, path :: V.NarrowsAt(fold, scope.pathKeyPrefixes, profile, path)) <==>
            Unrestricted(values) || FoldsInside(rules, fold, values)
    ensures (forall profile, path :: V.Ordinary(profile, path) ==>
               V.NarrowsAt(fold, scope.pathKeyPrefixes, profile, path)) <==>
            Unrestricted(values) || FoldsInside(rules, fold, values)
    ensures (forall raw <- values :: V.Canonical(fold, KeyOf(rules, raw))) ==>
            Unrestricted(values) || FoldsInside(rules, fold, values)
  {
    V.ProfilesNarrowIff(fold, scope.pathKeyPrefixes);
    if !Unrestricted(values) {
      forall m <- scope.pathKeyPrefixes ensures V.IsFolderKey(m) && m != "/" {
        var raw := TickedFolderOf(rules, values, scope, m);
        ValidFolderKey(rules, raw);
      }
      KeysStayGrantedIff(rules, fold, values, scope);
      if forall raw <- values :: V.Canonical(fold, KeyOf(rules, raw)) {
        forall raw | raw in values ensures FoldsInto(rules, fold, values, raw) {
          StoredKeyCanonicalIff(rules, fold, raw);
        }
      }
    }
  }

  lemma {:induction false} SpelledAgain(rules: PathRules, raw: string)
    requires LowersBySegment(rules) && ValidPath(rules, NoteInside(rules, raw))
    ensures ValidPath(rules, NoteInside(rules, PathOf(rules, raw))) && PathOf(rules, raw) != ""
    ensures KeyOf(rules, PathOf(rules, raw)) == KeyOf(rules, raw)
    ensures PathOf(rules, PathOf(rules, raw)) == PathOf(rules, raw)
  {
    KeyIsFolder(rules, raw);
    assert (Directory(raw) + "/")[..|Directory(raw)|] == Directory(raw);
    assert Directory(PathOf(rules, raw)) == Directory(raw);
  }

  lemma {:induction false} OwnLastSpelling(
      rules: PathRules, paths: seq<string>, keys: seq<string>, i: nat)
    requires Sorted(keys) && i < |paths| && keys == KeysOf(rules, paths)
    requires PathOf(rules, paths[i]) == paths[i]
    ensures SpelledLast(rules, paths, |paths|, keys[i], paths[i])
  {
    forall j | i < j < |paths| ensures KeyOf(rules, paths[j]) != keys[i] {
      DistinctPlaces(keys, i, j);
    }
    assert LastWithKey(rules, paths, |paths|, i, keys[i]);
  }

  /** A pair that normalises to itself. */
  ghost predicate Stable(rules: PathRules, key: string, path: string) {
    && path != ""
    && ValidPath(rules, NoteInside(rules, path))
    && KeyOf(rules, path) == key
    && PathOf(rules, path) == path
  }

  lemma {:induction false} PairIsStable(rules: PathRules, values: seq<string>, key: string, path: string)
    requires LowersBySegment(rules) && AllValid(rules, values)
    requires SpelledLast(rules, values, |values|, key, path)
    ensures Stable(rules, key, path)
  {
    var raw := SpellingOf(rules, values, key, path);
    SpelledAgain(rules, raw);
  }

  lemma {:induction false} StablePairs(rules: PathRules, keys: seq<string>, paths: seq<string>)
    requires |keys| == |paths| && forall i :: 0 <= i < |paths| ==> Stable(rules, keys[i], paths[i])
    ensures AllValid(rules, paths) && "" !in paths
    ensures KeysOf(rules, paths) == keys
    ensures forall path <- paths :: PathOf(rules, path) == path
  {
  }

  lemma {:induction false} StableSpellings(rules: PathRules, values: seq<string>, scope: Scope)
    requires scope.pathKeyPrefixes == Minimal(KeysOf(rules, values))
    requires KeysOf(rules, scope.pathPrefixes) == scope.pathKeyPrefixes
    requires forall path <- scope.pathPrefixes :: PathOf(rules, path) == path
    ensures Normalizes(rules, scope.pathPrefixes, scope)
  {
    MinimalIsIdempotent(KeysOf(rules, values));
    MinimalHas(KeysOf(rules, values));
    forall i | 0 <= i < |scope.pathPrefixes|
      ensures SpelledLast(
                rules, scope.pathPrefixes, |scope.pathPrefixes|, scope.pathKeyPrefixes[i], scope.pathPrefixes[i])
    {
      OwnLastSpelling(rules, scope.pathPrefixes, scope.pathKeyPrefixes, i);
    }
  }

  /** Normalising the stored spellings once more is valid and changes nothing. */
  lemma {:induction false} NormalizingAgainChangesNothing(rules: PathRules, values: seq<string>, scope: Scope)
    requires LowersBySegment(rules) && AllValid(rules, values) && Normalizes(rules, values, scope)
    ensures AllValid(rules, scope.pathPrefixes) && "" !in scope.pathPrefixes
    ensures Normalizes(rules, scope.pathPrefixes, scope)
  {
    forall i | 0 <= i < |scope.pathPrefixes|
      ensures Stable(rules, scope.pathKeyPrefixes[i], scope.pathPrefixes[i])
    {
      PairIsStable(rules, values, scope.pathKeyPrefixes[i], scope.pathPrefixes[i]);
    }
    StablePairs(rules, scope.pathKeyPrefixes, scope.pathPrefixes);
    StableSpellings(rules, values, scope);
  }
}
