/**
 * What an agent grant may see: the folders it was given, narrowed by the runtime profile of its
 * vault. `fold` stands for Unicode normalisation followed by lower-casing.
 */
module Visibility {
  import opened Common
  import opened PathPrefixes

  type Fold = string -> string

  datatype Profile = Profile(contentRoots: seq<string>, neverExposeFileNames: seq<string>)

  datatype Grant = Grant(pathKeyPrefixes: seq<string>, runtimeProfile: Option<Profile>)

  /** An empty list of prefixes means everything, unless `denyAll` is set. */
  datatype AgentVisibility = AgentVisibility(
    denyAll: bool,
    excludePrivate: bool,
    neverExposeFileNames: seq<string>,
    pathKeyPrefixes: seq<string>,
    runtimeProfile: Option<Profile>)

  // ---- Keys ----

  function StripSlashes(s: string): (r: string)
    ensures r <= s
    ensures r != [] ==> r[|r| - 1] != '/'
  {
    if s != [] && s[|s| - 1] == '/' then StripSlashes(s[..|s| - 1]) else s
  }

  function FolderKey(fold: Fold, value: string): string {
    StripSlashes(fold(value)) + "/"
  }

  function FolderKeys(fold: Fold, values: seq<string>): seq<string> {
    seq(|values|, i requires 0 <= i < |values| => FolderKey(fold, values[i]))
  }

  function FoldAll(fold: Fold, values: seq<string>): seq<string> {
    seq(|values|, i requires 0 <= i < |values| => fold(values[i]))
  }

  /** Ends in exactly one slash, as every folder key does. */
  ghost predicate IsFolderKey(prefix: string) {
    prefix == StripSlashes(prefix) + "/"
  }

  lemma {:induction false} FolderKeysAreFolderKeys(fold: Fold, value: string)
    ensures IsFolderKey(FolderKey(fold, value))
  {
    var root := StripSlashes(fold(value));
    var key := root + "/";
    assert key[|key| - 1] == '/' && key[..|key| - 1] == root;
    assert StripSlashes(key) == StripSlashes(root) == root;
  }

  function Repeated(n: nat): (s: string)
    ensures |s| == n && forall i :: 0 <= i < n ==> s[i] == 'a'
  {
    if n == 0 then "" else "a" + Repeated(n - 1)
  }

  /** What follows the last slash. */
  function FileName(key: string): (name: string)
    ensures '/' !in name
    ensures |name| <= |key| && key[|key| - |name|..] == name
    ensures |name| < |key| ==> key[|key| - |name| - 1] == '/'
  {
    if key == [] || key[|key| - 1] == '/' then []
    else
      var before := FileName(key[..|key| - 1]);
      assert key[..|key| - 1][|key| - 1 - |before|..] == before;
      before + [key[|key| - 1]]
  }

  // ---- Intersecting grants with a profile ----

  function IntersectPrefixes(fold: Fold, granted: seq<string>, roots: seq<string>): seq<string> {
    if granted == [] then Minimal(FolderKeys(fold, roots))
    else Minimal(Meets(FolderKeys(fold, granted), FolderKeys(fold, roots)))
  }

  lemma {:induction false} MeetEachSnoc(grant: string, profiles: seq<string>, n: nat)
    requires n < |profiles|
    ensures MeetEach(grant, profiles[..n + 1]) == MeetEach(grant, profiles[..n]) + Meet(grant, profiles[n])
  {
    if n == 0 {
      assert profiles[..1] == [profiles[0]];
    } else {
      var rest := profiles[1..];
      MeetEachSnoc(grant, rest, n - 1);
      assert profiles[..n + 1][1..] == rest[..n] && profiles[..n][1..] == rest[..n - 1];
    }
  }

  lemma {:induction false} MeetsSnoc(grants: seq<string>, profiles: seq<string>, n: nat)
    requires n < |grants|
    ensures Meets(grants[..n + 1], profiles) == Meets(grants[..n], profiles) + MeetEach(grants[n], profiles)
  {
    if n == 0 {
      assert grants[..1] == [grants[0]];
    } else {
      var rest := grants[1..];
      MeetsSnoc(rest, profiles, n - 1);
      assert grants[..n + 1][1..] == rest[..n] && grants[..n][1..] == rest[..n - 1];
    }
  }

  method ComputeIntersection(fold: Fold, grantedPrefixes: seq<string>, profileRoots: seq<string>)
    returns (r: seq<string>)
    ensures r == IntersectPrefixes(fold, grantedPrefixes, profileRoots)
  {
    var profiles := FolderKeys(fold, profileRoots);
    if |grantedPrefixes| == 0 {
      return Minimal(profiles);
    }
    var granted := FolderKeys(fold, grantedPrefixes);
    var intersections: seq<string> := [];
    for i := 0 to |granted|
      invariant intersections == Meets(granted[..i], profiles)
    {
      ghost var before := intersections;
      for j := 0 to |profiles|
        invariant intersections == before + MeetEach(granted[i], profiles[..j])
      {
        if granted[i] <= profiles[j] {
          intersections := intersections + [profiles[j]];
        } else if profiles[j] <= granted[i] {
          intersections := intersections + [granted[i]];
        }
        MeetEachSnoc(granted[i], profiles, j);
      }
      assert profiles[..|profiles|] == profiles;
      MeetsSnoc(granted, profiles, i);
    }
    assert granted[..|granted|] == granted;
    return Minimal(intersections);
  }

  function VisibilityFor(fold: Fold, grant: Grant): AgentVisibility {
    match grant.runtimeProfile
    case None => AgentVisibility(false, false, [], grant.pathKeyPrefixes, None)
    case Some(profile) =>
      var prefixes := IntersectPrefixes(fold, grant.pathKeyPrefixes, profile.contentRoots);
      AgentVisibility(
        prefixes == [], true, FoldAll(fold, profile.neverExposeFileNames), prefixes, grant.runtimeProfile)
  }

  method AgentVisibilityForGrant(fold: Fold, grant: Grant) returns (v: AgentVisibility)
    ensures v == VisibilityFor(fold, grant)
  {
    if grant.runtimeProfile.None? {
      return AgentVisibility(false, false, [], grant.pathKeyPrefixes, None);
    }
    var profile := grant.runtimeProfile.value;
    var prefixes := ComputeIntersection(fold, grant.pathKeyPrefixes, profile.contentRoots);
    return AgentVisibility(
        |prefixes| == 0, true, FoldAll(fold, profile.neverExposeFileNames), prefixes, grant.runtimeProfile);
  }

  predicate AllowsPath(fold: Fold, v: AgentVisibility, pathKey: string) {
    if v.denyAll then false
    else
      var normalized := fold(pathKey);
      FileName(normalized) !in v.neverExposeFileNames
      && (v.pathKeyPrefixes == [] || Covers(v.pathKeyPrefixes, normalized))
  }

  predicate AllowsPrefix(fold: Fold, v: AgentVisibility, pathKey: string) {
    if v.denyAll then false
    else
      var normalized := StripSlashes(fold(pathKey));
      v.pathKeyPrefixes == [] ||
      exists prefix <- v.pathKeyPrefixes ::
        var root := StripSlashes(prefix);
        normalized == root || root + "/" <= normalized
  }

  // ---- Visibility is exactly the intersection ----

  /** In a folder of the list, or no list was given. */
  ghost predicate Within(fold: Fold, folders: seq<string>, key: string) {
    folders == [] || exists folder <- folders :: FolderKey(fold, folder) <= key
  }

  lemma {:induction false} FolderKeysCover(fold: Fold, folders: seq<string>, key: string)
    ensures Covers(FolderKeys(fold, folders), key) <==> exists folder <- folders :: FolderKey(fold, folder) <= key
  {
    var keys := FolderKeys(fold, folders);
    if Covers(keys, key) {
      var k :| k in keys && k <= key;
      var i :| 0 <= i < |keys| && keys[i] == k;
      assert folders[i] in folders && FolderKey(fold, folders[i]) <= key;
    }
    if folder :| folder in folders && FolderKey(fold, folder) <= key {
      var i :| 0 <= i < |folders| && folders[i] == folder;
      assert keys[i] in keys;
    }
  }

  lemma {:induction false} IntersectionCovers(fold: Fold, granted: seq<string>, roots: seq<string>, key: string)
    ensures Covers(IntersectPrefixes(fold, granted, roots), key) <==>
            Within(fold, granted, key) && exists root <- roots :: FolderKey(fold, root) <= key
  {
    FolderKeysCover(fold, granted, key);
    FolderKeysCover(fold, roots, key);
    MeetsCoverTheIntersection(FolderKeys(fold, granted), FolderKeys(fold, roots), key);
    if granted == [] {
      MinimalKeepsMeaning(FolderKeys(fold, roots));
    } else {
      MinimalKeepsMeaning(Meets(FolderKeys(fold, granted), FolderKeys(fold, roots)));
    }
  }

  lemma {:induction false} FoldedNames(fold: Fold, names: seq<string>, x: string)
    ensures x in FoldAll(fold, names) <==> exists name <- names :: fold(name) == x
  {
    if name :| name in names && fold(name) == x {
      var i :| 0 <= i < |names| && names[i] == name;
      assert FoldAll(fold, names)[i] == x;
    }
  }

  /**
   * With a profile a path is visible exactly when it lies in a granted folder (or all were granted),
   * and in a content root, and does not carry a name that is never exposed. So folders without
   * a common path deny everything instead of falling back to the empty list.
   */
  lemma {:induction false} VisibleIffInBoth(fold: Fold, grant: Grant, profile: Profile, pathKey: string)
    requires grant.runtimeProfile == Some(profile)
    ensures AllowsPath(fold, VisibilityFor(fold, grant), pathKey) <==>
            && Within(fold, grant.pathKeyPrefixes, fold(pathKey))
            && (exists root <- profile.contentRoots :: FolderKey(fold, root) <= fold(pathKey))
            && (forall name <- profile.neverExposeFileNames :: FileName(fold(pathKey)) != fold(name))
  {
    FoldedNames(fold, profile.neverExposeFileNames, FileName(fold(pathKey)));
    IntersectionCovers(fold, grant.pathKeyPrefixes, profile.contentRoots, fold(pathKey));
  }

  /** Without a profile the granted prefixes decide, taken as they are. */
  lemma {:induction false} VisibleWithoutProfile(fold: Fold, prefixes: seq<string>, pathKey: string)
    ensures AllowsPath(fold, VisibilityFor(fold, Grant(prefixes, None)), pathKey) <==>
            prefixes == [] || Covers(prefixes, fold(pathKey))
  {
  }

  /** The check on a materialized note, whose key is compared as it is stored and which may be private. */
  predicate AllowsNote(v: AgentVisibility, pathKey: string, agentPrivate: bool) {
    if v.denyAll || (v.excludePrivate && agentPrivate) then false
    else
      FileName(pathKey) !in v.neverExposeFileNames
      && (v.pathKeyPrefixes == [] || Covers(v.pathKeyPrefixes, pathKey))
  }

  // ---- What folding does to folders ----

  predicate EndsInSlash(s: string) {
    s != [] && s[|s| - 1] == '/'
  }

  /** Folding goes segment by segment, makes no slashes, and leaves a plain name alone. */
  ghost predicate FoldsBySegment(fold: Fold) {
    && (forall a, b {:trigger fold(a + "/" + b)} :: fold(a + "/" + b) == fold(a) + "/" + fold(b))
    && (forall a :: EndsInSlash(fold(a)) ==> EndsInSlash(a))
    && (forall n: nat :: fold(Repeated(n)) == Repeated(n))
  }

  lemma {:induction false} FoldedEnd(fold: Fold, folder: string)
    requires FoldsBySegment(fold)
    ensures fold("") == "" && fold(folder + "/") == fold(folder) + "/"
  {
    assert Repeated(0) == "";
    assert folder + "/" + "" == folder + "/";
    assert fold(folder) + "/" + "" == fold(folder) + "/";
  }

  lemma {:induction false} StripFolds(fold: Fold, s: string)
    requires FoldsBySegment(fold)
    ensures StripSlashes(fold(s)) == fold(StripSlashes(s))
  {
    if EndsInSlash(s) {
      var shorter := s[..|s| - 1];
      assert s == shorter + "/";
      FoldedEnd(fold, shorter);
      assert (fold(shorter) + "/")[..|fold(shorter)|] == fold(shorter);
      StripFolds(fold, shorter);
    }
  }

  /** The folder key of a value is the folded path of that folder. */
  lemma {:induction false} FoldedFolder(fold: Fold, value: string)
    requires FoldsBySegment(fold)
    ensures FolderKey(fold, value) == fold(StripSlashes(value) + "/") == fold(StripSlashes(value)) + "/"
  {
    StripFolds(fold, value);
    FoldedEnd(fold, StripSlashes(value));
  }

  lemma {:induction false} FoldedFileIn(fold: Fold, folder: string, n: nat)
    requires FoldsBySegment(fold)
    ensures fold(folder + "/" + Repeated(n)) == fold(folder) + "/" + Repeated(n)
  {
    assert fold(Repeated(n)) == Repeated(n);
  }

  lemma {:induction false} KeyOfPlainFolder(fold: Fold, spelled: string, folded: string)
    requires FoldsBySegment(fold) && !EndsInSlash(spelled) && fold(spelled) == folded
    ensures FolderKey(fold, spelled) == FolderKey(fold, spelled + "/") == folded + "/"
  {
    FoldedFolder(fold, spelled + "/");
    FoldedFolder(fold, spelled);
    assert (spelled + "/")[..|spelled|] == spelled;
  }

  /** Of two folders, one inside the other, the folded ones lie inside each other too. */
  lemma {:induction false} FoldedFoldersNest(fold: Fold, outer: string, inner: string)
    requires FoldsBySegment(fold) && IsFolderKey(outer) && IsFolderKey(inner) && outer <= inner
    ensures FolderKey(fold, outer) <= FolderKey(fold, inner)
  {
    FoldedFolder(fold, outer);
    FoldedFolder(fold, inner);
    var stem, rest := StripSlashes(outer), inner[|outer|..];
    assert inner == outer + rest == stem + "/" + rest;
    assert FolderKey(fold, inner) == fold(stem + "/" + rest) == FolderKey(fold, outer) + fold(rest);
  }

  // ---- Profiles narrow grants ----

  /** A stored prefix is canonical when making a folder key of it changes nothing. */
  ghost predicate Canonical(fold: Fold, prefix: string) {
    FolderKey(fold, prefix) == prefix
  }

  /** What this profile lets the agent see of a path, the grant alone would let it see too. */
  ghost predicate NarrowsAt(fold: Fold, granted: seq<string>, profile: Profile, path: string) {
    AllowsPath(fold, VisibilityFor(fold, Grant(granted, Some(profile))), path)
    ==> AllowsPath(fold, VisibilityFor(fold, Grant(granted, None)), path)
  }

  /** Every prefix, made a folder key once more, still lies in what was granted. */
  ghost predicate KeysStayGranted(fold: Fold, granted: seq<string>) {
    granted == [] || forall g <- granted :: Covers(granted, FolderKey(fold, g))
  }

  /** A profile as its schema leaves it, without slashes behind its roots, and the path of a note. */
  ghost predicate Ordinary(profile: Profile, path: string) {
    && (forall root <- profile.contentRoots :: root != "" && !EndsInSlash(root))
    && path != "" && !EndsInSlash(path)
  }

  lemma {:induction false} StaysGrantedNarrows(fold: Fold, granted: seq<string>, profile: Profile, path: string)
    requires KeysStayGranted(fold, granted)
    ensures NarrowsAt(fold, granted, profile, path)
  {
    var grant := Grant(granted, Some(profile));
    if AllowsPath(fold, VisibilityFor(fold, grant), path) && granted != [] {
      VisibleIffInBoth(fold, grant, profile, path);
      var folder :| folder in granted && FolderKey(fold, folder) <= fold(path);
      var prefix :| prefix in granted && prefix <= FolderKey(fold, folder);
      assert prefix <= fold(path);
    }
  }

  /** A profile that exposes exactly the granted folder, and a path in it with a name of this length. */
  lemma {:induction false} WidenedBy(fold: Fold, granted: seq<string>, g: string, n: nat)
    returns (profile: Profile, path: string)
    requires FoldsBySegment(fold) && g in granted && !Covers(granted, FolderKey(fold, g) + Repeated(n))
    ensures profile == Profile([StripSlashes(g)], []) && path == StripSlashes(g) + "/" + Repeated(n)
    ensures !NarrowsAt(fold, granted, profile, path)
  {
    var root := StripSlashes(g);
    profile, path := Profile([root], []), root + "/" + Repeated(n);
    FoldedFolder(fold, g);
    FoldedFolder(fold, root);
    FoldedFileIn(fold, root, n);
    assert fold(path) == FolderKey(fold, g) + Repeated(n);
    assert root in profile.contentRoots;
    VisibleIffInBoth(fold, Grant(granted, Some(profile)), profile, path);
    VisibleWithoutProfile(fold, granted, path);
  }

  /** A folder key that starts a path in a folder, with a file name behind it, starts the folder. */
  lemma {:induction false} KeyBeforeName(prefix: string, folder: string)
    requires IsFolderKey(prefix) && prefix <= folder + Repeated(1)
    ensures prefix <= folder
  {
    var path := folder + Repeated(1);
    assert path[|prefix| - 1] == prefix[|prefix| - 1] == '/' && path[|folder|] == 'a';
    assert prefix == path[..|prefix|] == folder[..|prefix|];
  }

  lemma {:induction false} NoKeyInName(granted: seq<string>, folder: string)
    requires (forall prefix <- granted :: IsFolderKey(prefix)) && !Covers(granted, folder)
    ensures !Covers(granted, folder + Repeated(1))
  {
    if prefix :| prefix in granted && prefix <= folder + Repeated(1) {
      KeyBeforeName(prefix, folder);
    }
  }

  /** Among ordinary profiles and paths there is one that shows it, when the prefixes are folder keys. */
  lemma {:induction false} WidenedAtANote(fold: Fold, granted: seq<string>, g: string)
    returns (profile: Profile, path: string)
    requires FoldsBySegment(fold) && g in granted && !Covers(granted, FolderKey(fold, g))
    requires forall prefix <- granted :: IsFolderKey(prefix) && prefix != "/"
    ensures Ordinary(profile, path) && !NarrowsAt(fold, granted, profile, path)
  {
    NoKeyInName(granted, FolderKey(fold, g));
    profile, path := WidenedBy(fold, granted, g, 1);
    assert path[|path| - 1] == 'a';
    assert StripSlashes(g) != "" by {
      assert g == StripSlashes(g) + "/";
    }
  }

  /**
   * A profile is meant only ever to narrow a grant. Over all profiles and paths it does exactly when
   * folding the granted prefixes again leads nowhere outside them. For folder keys, which is what is
   * stored, that is so even if only ordinary profiles and paths are asked about.
   */
  lemma {:induction false} ProfilesNarrowIff(fold: Fold, granted: seq<string>)
    requires FoldsBySegment(fold)
    ensures (forall profile, path :: NarrowsAt(fold, granted, profile, path)) <==> KeysStayGranted(fold, granted)
    ensures (forall prefix <- granted :: IsFolderKey(prefix) && prefix != "/") ==>
              ((forall profile, path :: Ordinary(profile, path) ==> NarrowsAt(fold, granted, profile, path)) <==>
               KeysStayGranted(fold, granted))
  {
    if KeysStayGranted(fold, granted) {
      forall profile, path ensures NarrowsAt(fold, granted, profile, path) {
        StaysGrantedNarrows(fold, granted, profile, path);
      }
    } else {
      var g :| g in granted && !Covers(granted, FolderKey(fold, g));
      assert FolderKey(fold, g) + Repeated(0) == FolderKey(fold, g);
      var profile, path := WidenedBy(fold, granted, g, 0);
      if forall prefix <- granted :: IsFolderKey(prefix) && prefix != "/" {
        var ordinary, note := WidenedAtANote(fold, granted, g);
      }
    }
  }

  lemma {:induction false} KeyWidens(fold: Fold, key: string, root: string, path: string)
    requires FolderKey(fold, key) == FolderKey(fold, root) <= fold(path)
    requires !(key <= fold(path))
    ensures !NarrowsAt(fold, [key], Profile([root], []), path)
  {
    var profile := Profile([root], []);
    assert key in [key] && root in profile.contentRoots;
    VisibleIffInBoth(fold, Grant([key], Some(profile)), profile, path);
    VisibleWithoutProfile(fold, [key], path);
  }

  lemma {:induction false} UnfoldedKeyWidens(fold: Fold, spelled: string, joined: string)
    requires FoldsBySegment(fold) && fold(spelled) == joined && fold(joined) == joined
    requires spelled != "" && joined != "" && spelled[0] != joined[0]
    requires !EndsInSlash(spelled) && !EndsInSlash(joined)
    ensures !NarrowsAt(fold, [spelled + "/"], Profile([joined], []), joined + "/" + Repeated(1))
  {
    var key, path := spelled + "/", joined + "/" + Repeated(1);
    KeyOfPlainFolder(fold, spelled, joined);
    KeyOfPlainFolder(fold, joined, joined);
    assert key[0] != path[0];
    assert joined + "/" <= path;
    FoldedFileIn(fold, joined, 1);
    KeyWidens(fold, key, joined, path);
  }

  /**
   * It does not always: the folder key of a capital J with caron is a small j and a combining caron,
   * which normalisation joins into one letter. With a profile whose root is a folder named by that
   * letter the agent sees a file there that the grant alone does not show.
   */
  lemma {:induction false} ProfileWidensUnfoldedKey(fold: Fold)
    requires FoldsBySegment(fold)
    requires fold("j\U{30C}") == "\U{1F0}" && fold("\U{1F0}") == "\U{1F0}"
    ensures !NarrowsAt(fold, ["j\U{30C}/"], Profile(["\U{1F0}"], []), "\U{1F0}/a")
  {
    var spelled, joined := "j\U{30C}", "\U{1F0}";
    assert spelled[0] == 'j' && joined[0] == '\U{1F0}' && spelled[1] == '\U{30C}';
    UnfoldedKeyWidens(fold, spelled, joined);
    assert Repeated(1) == "a" && joined + "/" + Repeated(1) == "\U{1F0}/a";
    assert spelled + "/" == "j\U{30C}/";
  }

  /** A profile denies everything exactly when no key at all is both granted and in a content root. */
  lemma {:induction false} DeniesAllIffDisjoint(fold: Fold, grant: Grant, profile: Profile)
    requires grant.runtimeProfile == Some(profile)
    ensures VisibilityFor(fold, grant).denyAll <==>
            forall key: string :: !(Within(fold, grant.pathKeyPrefixes, key)
                                    && exists root <- profile.contentRoots :: FolderKey(fold, root) <= key)
  {
    var prefixes := IntersectPrefixes(fold, grant.pathKeyPrefixes, profile.contentRoots);
    forall key: string
      ensures Covers(prefixes, key) <==>
              Within(fold, grant.pathKeyPrefixes, key)
              && exists root <- profile.contentRoots :: FolderKey(fold, root) <= key
    {
      IntersectionCovers(fold, grant.pathKeyPrefixes, profile.contentRoots, key);
    }
    if prefixes != [] {
      assert prefixes[0] in prefixes && prefixes[0] <= prefixes[0];
      assert Covers(prefixes, prefixes[0]);
    }
  }

  // ---- Folders and the files in them ----

  lemma {:induction false} MeetEachKeepsFolderKeys(grant: string, profiles: seq<string>)
    requires IsFolderKey(grant) && forall s <- profiles :: IsFolderKey(s)
    ensures forall s <- MeetEach(grant, profiles) :: IsFolderKey(s)
  {
    if profiles != [] {
      MeetEachKeepsFolderKeys(grant, profiles[1..]);
    }
  }

  lemma {:induction false} MeetsKeepFolderKeys(grants: seq<string>, profiles: seq<string>)
    requires forall s <- grants :: IsFolderKey(s)
    requires forall s <- profiles :: IsFolderKey(s)
    ensures forall s <- Meets(grants, profiles) :: IsFolderKey(s)
  {
    if grants != [] {
      MeetEachKeepsFolderKeys(grants[0], profiles);
      MeetsKeepFolderKeys(grants[1..], profiles);
    }
  }

  lemma {:induction false} VisiblePrefixesAreFolderKeys(fold: Fold, grant: Grant)
    requires forall prefix <- grant.pathKeyPrefixes :: IsFolderKey(prefix)
    ensures forall prefix <- VisibilityFor(fold, grant).pathKeyPrefixes :: IsFolderKey(prefix)
  {
    if grant.runtimeProfile.Some? {
      var granted := FolderKeys(fold, grant.pathKeyPrefixes);
      var roots := FolderKeys(fold, grant.runtimeProfile.value.contentRoots);
      forall value ensures IsFolderKey(FolderKey(fold, value)) {
        FolderKeysAreFolderKeys(fold, value);
      }
      MeetsKeepFolderKeys(granted, roots);
      MinimalKeepsMeaning(roots);
      MinimalKeepsMeaning(Meets(granted, roots));
    }
  }

  /** A path somewhere inside the folder whose file name may be shown at all. */
  ghost predicate ExposableIn(fold: Fold, v: AgentVisibility, folder: string, path: string) {
    folder + "/" <= fold(path) && FileName(fold(path)) !in v.neverExposeFileNames
  }

  lemma {:induction false} FileNameBehindSlash(folder: string, name: string)
    requires '/' !in name
    ensures FileName(folder + "/" + name) == name
  {
    var key := folder + "/" + name;
    if name == "" {
      assert key[|key| - 1] == '/';
    } else {
      var shorter := name[..|name| - 1];
      assert key[..|key| - 1] == folder + "/" + shorter;
      assert key[|key| - 1] == name[|name| - 1];
      FileNameBehindSlash(folder, shorter);
    }
  }

  /** A length that no name on the list has. */
  lemma {:induction false} LongerThanAll(names: seq<string>) returns (n: nat)
    ensures forall name <- names :: |name| < n
  {
    n := 0;
    if names != [] {
      n := LongerThanAll(names[1..]);
      n := if n <= |names[0]| then |names[0]| + 1 else n;
      assert names == [names[0]] + names[1..];
    }
  }

  lemma {:induction false} FolderStartsChild(prefix: string, folder: string, child: string)
    requires IsFolderKey(prefix) && folder + "/" <= child
    requires var root := StripSlashes(prefix); folder == root || root + "/" <= folder
    ensures prefix <= child
  {
    if folder != StripSlashes(prefix) {
      assert folder == child[..|folder|];
      assert prefix == folder[..|prefix|] == child[..|prefix|];
    }
  }

  lemma {:induction false} NoSlashInName(folder: string, name: string, k: nat)
    requires '/' !in name && |folder| < k < |folder + "/" + name|
    ensures (folder + "/" + name)[k] != '/'
  {
    assert (folder + "/" + name)[k] == name[k - |folder| - 1];
  }

  lemma {:induction false} ChildStartsFolder(prefix: string, folder: string, name: string)
    requires IsFolderKey(prefix) && '/' !in name && prefix <= folder + "/" + name
    ensures var root := StripSlashes(prefix); folder == root || root + "/" <= folder
  {
    var child := folder + "/" + name;
    var last := |prefix| - 1;
    assert child[last] == prefix[last] == '/';
    forall k | |folder| < k < |child| ensures child[k] != '/' {
      NoSlashInName(folder, name, k);
    }
    if last == |folder| {
      assert child[..last] == folder && prefix[..last] == StripSlashes(prefix);
    } else {
      assert prefix == child[..|prefix|] == folder[..|prefix|];
    }
  }

  lemma {:induction false} AllowedFolderShows(fold: Fold, v: AgentVisibility, pathKey: string, path: string)
    requires forall prefix <- v.pathKeyPrefixes :: IsFolderKey(prefix)
    requires AllowsPrefix(fold, v, pathKey) && ExposableIn(fold, v, StripSlashes(fold(pathKey)), path)
    ensures AllowsPath(fold, v, path)
  {
    var folder := StripSlashes(fold(pathKey));
    if v.pathKeyPrefixes != [] {
      var prefix :| prefix in v.pathKeyPrefixes
                    && (folder == StripSlashes(prefix) || StripSlashes(prefix) + "/" <= folder);
      FolderStartsChild(prefix, folder, fold(path));
    }
  }

  lemma {:induction false} HiddenFileIn(fold: Fold, v: AgentVisibility, pathKey: string) returns (path: string)
    requires forall prefix <- v.pathKeyPrefixes :: IsFolderKey(prefix)
    requires FoldsBySegment(fold) && !AllowsPrefix(fold, v, pathKey)
    ensures ExposableIn(fold, v, StripSlashes(fold(pathKey)), path) && !AllowsPath(fold, v, path)
  {
    var folder := StripSlashes(fold(pathKey));
    var n := LongerThanAll(v.neverExposeFileNames);
    path := StripSlashes(pathKey) + "/" + Repeated(n);
    StripFolds(fold, pathKey);
    FoldedFileIn(fold, StripSlashes(pathKey), n);
    assert fold(path) == folder + "/" + Repeated(n);
    FileNameBehindSlash(folder, Repeated(n));
    if AllowsPath(fold, v, path) {
      var prefix :| prefix in v.pathKeyPrefixes && prefix <= fold(path);
      ChildStartsFolder(prefix, folder, Repeated(n));
    }
  }

  /**
   * The folder check and the file check agree: a folder may be listed exactly when every exposable
   * file inside it is visible. The converse picks a file name longer than any on the list.
   */
  lemma {:induction false} FolderAllowedIffFilesAre(fold: Fold, v: AgentVisibility, pathKey: string)
    requires forall prefix <- v.pathKeyPrefixes :: IsFolderKey(prefix)
    requires FoldsBySegment(fold)
    ensures AllowsPrefix(fold, v, pathKey) <==>
            forall path :: ExposableIn(fold, v, StripSlashes(fold(pathKey)), path) ==> AllowsPath(fold, v, path)
  {
    var folder := StripSlashes(fold(pathKey));
    if AllowsPrefix(fold, v, pathKey) {
      forall path | ExposableIn(fold, v, folder, path) ensures AllowsPath(fold, v, path) {
        AllowedFolderShows(fold, v, pathKey, path);
      }
    } else {
      var path := HiddenFileIn(fold, v, pathKey);
    }
  }

  /** Every path that may be shown at all is visible. */
  ghost predicate WholeVaultVisible(fold: Fold, v: AgentVisibility) {
    forall path :: FileName(fold(path)) !in v.neverExposeFileNames ==> AllowsPath(fold, v, path)
  }

  /**
   * The vault itself is no folder with a key. Asked for the empty path, the folder check says whether
   * the whole vault is visible - unless a bare slash is among the prefixes, which covers no path.
   */
  lemma {:induction false} RootAgreesIffNoBareSlash(fold: Fold, v: AgentVisibility)
    requires forall prefix <- v.pathKeyPrefixes :: IsFolderKey(prefix)
    requires fold("") == "" && forall n: nat :: fold(Repeated(n)) == Repeated(n)
    ensures (AllowsPrefix(fold, v, "") <==> WholeVaultVisible(fold, v)) <==>
            v.denyAll || "/" !in v.pathKeyPrefixes
  {
    var n := LongerThanAll(v.neverExposeFileNames);
    var child := Repeated(n);
    assert forall i :: 0 <= i < |child| ==> child[i] == 'a';
    assert FileName(child) == child;
    assert fold(child) == child && FileName(child) !in v.neverExposeFileNames;
    forall prefix <- v.pathKeyPrefixes
      ensures !(prefix <= child) && (StripSlashes(prefix) == "" <==> prefix == "/")
    {
      assert prefix[|prefix| - 1] == '/';
    }
    assert !v.denyAll && v.pathKeyPrefixes != [] ==> !AllowsPath(fold, v, child);
    if "/" in v.pathKeyPrefixes {
      assert StripSlashes("/") == StripSlashes("");
    }
  }

  // ---- Listed notes and readable paths -----------------------------------------------------

  /** The note check agrees with the path check, but for private notes, which a profile hides. */
  ghost predicate ChecksAgree(fold: Fold, grant: Grant, pathKey: string, agentPrivate: bool) {
    AllowsNote(VisibilityFor(fold, grant), pathKey, agentPrivate) <==>
      && AllowsPath(fold, VisibilityFor(fold, grant), pathKey)
      && !(grant.runtimeProfile.Some? && agentPrivate)
  }

  /** How a grant of one prefix, without a profile, is judged by either check. */
  lemma {:induction false} OnePrefixDecides(fold: Fold, prefix: string, pathKey: string, agentPrivate: bool)
    ensures var v := VisibilityFor(fold, Grant([prefix], None));
            && (AllowsNote(v, pathKey, agentPrivate) <==> prefix <= pathKey)
            && (AllowsPath(fold, v, pathKey) <==> prefix <= fold(pathKey))
  {
    assert prefix in [prefix];
  }

  /** A folded key leaves nothing for the two checks to differ in. */
  lemma {:induction false} FoldedKeysAgree(fold: Fold, grant: Grant, pathKey: string, agentPrivate: bool)
    requires fold(pathKey) == pathKey
    ensures ChecksAgree(fold, grant, pathKey, agentPrivate)
  {
  }

  /**
   * Notes and paths are judged alike by every grant exactly when folding leaves the note's key alone.
   * The path check folds the key, the note check does not; and keys are stored lower-cased only.
   */
  lemma {:induction false} NotesFollowPathsIff(fold: Fold, pathKey: string)
    ensures (forall grant, agentPrivate :: ChecksAgree(fold, grant, pathKey, agentPrivate)) <==>
            fold(pathKey) == pathKey
  {
    if fold(pathKey) == pathKey {
      forall grant, agentPrivate ensures ChecksAgree(fold, grant, pathKey, agentPrivate) {
        FoldedKeysAgree(fold, grant, pathKey, agentPrivate);
      }
    } else {
      OnePrefixDecides(fold, pathKey, pathKey, false);
      OnePrefixDecides(fold, fold(pathKey), pathKey, false);
      assert !(ChecksAgree(fold, Grant([pathKey], None), pathKey, false)
               && ChecksAgree(fold, Grant([fold(pathKey)], None), pathKey, false));
    }
  }

  /** A grant as it is stored: its prefixes are folder keys. */
  ghost predicate Stored(grant: Grant) {
    forall prefix <- grant.pathKeyPrefixes :: IsFolderKey(prefix)
  }

  lemma {:induction false} PlainFolderKey(folder: string)
    requires !EndsInSlash(folder)
    ensures IsFolderKey(folder + "/") && StripSlashes(folder + "/") == folder
  {
    assert (folder + "/")[..|folder|] == folder;
  }

  /** The two checks disagree on a folder that folding changes, for a grant of it or of the folded one. */
  lemma {:induction false} UnfoldedFolderDisagrees(fold: Fold, folder: string, name: string)
    requires FoldsBySegment(fold) && fold(folder) != folder && !EndsInSlash(folder)
    requires '/' !in name && '/' !in fold(name)
    ensures !(ChecksAgree(fold, Grant([folder + "/"], None), folder + "/" + name, false)
              && ChecksAgree(fold, Grant([fold(folder) + "/"], None), folder + "/" + name, false))
    ensures IsFolderKey(folder + "/") && IsFolderKey(fold(folder) + "/")
  {
    var key, folded := folder + "/" + name, fold(folder) + "/" + fold(name);
    assert fold(key) == folded;
    PlainFolderKey(folder);
    PlainFolderKey(fold(folder));
    OnePrefixDecides(fold, folder + "/", key, false);
    OnePrefixDecides(fold, fold(folder) + "/", key, false);
    if folder + "/" <= folded && fold(folder) + "/" <= key {
      ChildStartsFolder(folder + "/", fold(folder), fold(name));
      ChildStartsFolder(fold(folder) + "/", folder, name);
    }
  }

  /** The note check under a profile, as VisibleIffInBoth has it for paths. */
  lemma {:induction false} ListedIffInBoth(
      fold: Fold, grant: Grant, profile: Profile, pathKey: string, agentPrivate: bool)
    requires grant.runtimeProfile == Some(profile)
    ensures AllowsNote(VisibilityFor(fold, grant), pathKey, agentPrivate) <==>
            && !agentPrivate
            && Within(fold, grant.pathKeyPrefixes, pathKey)
            && (exists root <- profile.contentRoots :: FolderKey(fold, root) <= pathKey)
            && (forall name <- profile.neverExposeFileNames :: FileName(pathKey) != fold(name))
  {
    FoldedNames(fold, profile.neverExposeFileNames, FileName(pathKey));
    IntersectionCovers(fold, grant.pathKeyPrefixes, profile.contentRoots, pathKey);
  }

  lemma {:induction false} FoldedNote(fold: Fold, folder: string, name: string)
    requires FoldsBySegment(fold)
    ensures fold(folder + "/" + name) == fold(folder) + "/" + fold(name)
  {
  }

  lemma {:induction false} NameDisagrees(fold: Fold, folder: string, name: string)
    requires FolderKey(fold, folder) == folder + "/" && fold(folder + "/" + name) == folder + "/" + fold(name)
    requires '/' !in name && '/' !in fold(name) && fold(name) != name
    ensures var v := VisibilityFor(fold, Grant([], Some(Profile([folder], [name]))));
            AllowsNote(v, folder + "/" + name, false) && !AllowsPath(fold, v, folder + "/" + name)
  {
    var profile, key := Profile([folder], [name]), folder + "/" + name;
    var grant := Grant([], Some(profile));
    FileNameBehindSlash(folder, name);
    FileNameBehindSlash(folder, fold(name));
    assert FoldAll(fold, [name]) == [fold(name)];
    assert folder in profile.contentRoots && FolderKey(fold, folder) <= key;
    ListedIffInBoth(fold, grant, profile, key, false);
    VisibleIffInBoth(fold, grant, profile, key);
  }

  /** They disagree on a file name that folding changes, under a profile that never exposes that name. */
  lemma {:induction false} UnfoldedNameDisagrees(fold: Fold, folder: string, name: string)
    requires FoldsBySegment(fold) && fold(folder) == folder && !EndsInSlash(folder)
    requires '/' !in name && '/' !in fold(name) && fold(name) != name
    ensures AllowsNote(
              VisibilityFor(fold, Grant([], Some(Profile([folder], [name])))), folder + "/" + name, false)
    ensures !AllowsPath(
              fold, VisibilityFor(fold, Grant([], Some(Profile([folder], [name])))), folder + "/" + name)
  {
    KeyOfPlainFolder(fold, folder, folder);
    FoldedNote(fold, folder, name);
    NameDisagrees(fold, folder, name);
  }

  /**
   * For a note in a folder it needs no grants out of the ordinary: all grants of folder keys, with and
   * without profiles, judge it alike in both checks exactly when folding leaves its key alone.
   */
  lemma {:induction false} StoredGrantsAgreeIff(fold: Fold, folder: string, name: string)
    requires FoldsBySegment(fold) && !EndsInSlash(folder) && '/' !in name && '/' !in fold(name)
    ensures var key := folder + "/" + name;
            (forall grant, agentPrivate :: Stored(grant) ==> ChecksAgree(fold, grant, key, agentPrivate)) <==>
            fold(key) == key
  {
    var key := folder + "/" + name;
    assert fold(key) == fold(folder) + "/" + fold(name);
    if fold(key) == key {
      NotesFollowPathsIff(fold, key);
    } else if fold(folder) != folder {
      UnfoldedFolderDisagrees(fold, folder, name);
      assert Stored(Grant([folder + "/"], None)) && Stored(Grant([fold(folder) + "/"], None));
    } else {
      UnfoldedNameDisagrees(fold, folder, name);
      assert !ChecksAgree(fold, Grant([], Some(Profile([folder], [name]))), key, false);
    }
  }

  /** A note in the folder of the capital J with caron is listed, and its path refused. */
  lemma {:induction false} ListedButNotReadable(fold: Fold)
    requires FoldsBySegment(fold) && fold("j\U{30C}") == "\U{1F0}"
    ensures var v := VisibilityFor(fold, Grant(["j\U{30C}/"], None));
            AllowsNote(v, "j\U{30C}/a", false) && !AllowsPath(fold, v, "j\U{30C}/a")
  {
    var folder, key := "j\U{30C}", "j\U{30C}/a";
    assert Repeated(1) == "a" && key == folder + "/" + Repeated(1);
    FoldedFileIn(fold, folder, 1);
    assert fold(key)[0] == '\U{1F0}' && "j\U{30C}/"[0] == 'j';
    OnePrefixDecides(fold, "j\U{30C}/", key, false);
    assert "j\U{30C}/" == folder + "/" <= key;
  }

  lemma {:induction false} NamesFoldTogether(fold: Fold, folder: string, name: string, shown: string)
    requires FoldsBySegment(fold) && fold(folder) == folder && !EndsInSlash(folder)
    requires '/' !in name && '/' !in fold(name) && fold(name) != name && fold(name) == fold(shown)
    ensures var v := VisibilityFor(fold, Grant([], Some(Profile([folder], [shown]))));
            AllowsNote(v, folder + "/" + name, false) && !AllowsPath(fold, v, folder + "/" + name)
  {
    UnfoldedNameDisagrees(fold, folder, name);
    assert FoldAll(fold, [name]) == FoldAll(fold, [shown]);
  }

  /** A file name that is never to be exposed passes the note check in its unfolded spelling. */
  lemma {:induction false} NeverExposedNameIsListed(fold: Fold)
    requires FoldsBySegment(fold) && fold("j\U{30C}.md") == fold("\U{1F0}.md") == "\U{1F0}.md"
    ensures var v := VisibilityFor(fold, Grant([], Some(Profile(["a"], ["\U{1F0}.md"]))));
            AllowsNote(v, "a/j\U{30C}.md", false) && !AllowsPath(fold, v, "a/j\U{30C}.md")
  {
    var name, shown := "j\U{30C}.md", "\U{1F0}.md";
    assert Repeated(1) == "a" && fold("a") == "a" && "a/j\U{30C}.md" == "a" + "/" + name;
    assert name[0] == 'j' && shown[0] == '\U{1F0}';
    NamesFoldTogether(fold, "a", name, shown);
  }
}
