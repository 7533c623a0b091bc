/**
 * The transactional plugin installer (obsidian-plugin-installer.ts:326-393, 426-468, 541-632) over a
 * vault whose file-system calls may fail at any point. A failed call that writes may leave anything
 * behind at its own path. The class `Vault` is the file system; its methods are the calls of the File
 * System Access API, with `if *` for the faults. Nothing else changes the vault meanwhile.
 */
module VaultInstaller {
  import opened Common
  import opened InstallerAssets

  type Path = seq<string>
  type Files = map<Path, Bytes>

  const OBSIDIAN: Path := [".obsidian"]
  const PLUGINS: Path := [".obsidian", "plugins"]
  const PLUGIN: Path := [".obsidian", "plugins", PLUGIN_ID]
  const ENABLED: Path := [".obsidian", "community-plugins.json"]

  const MAX_EXISTING_FILE_BYTES := 4 * 1024 * 1024
  const MAX_ENABLED_PLUGIN_FILE_BYTES := 256 * 1024

  function AssetPath(name: string): Path {
    [".obsidian", "plugins", PLUGIN_ID, name]
  }

  predicate Under(path: Path, directory: Path) {
    directory <= path && path != directory
  }

  /** The directories above every file and directory exist. */
  ghost predicate Tree(files: Files, directories: set<Path>) {
    && (forall f, n :: f in files && 0 <= n < |f| ==> f[..n] in directories)
    && (forall d, n :: d in directories && 0 <= n < |d| ==> d[..n] in directories)
  }

  /** The two vaults hold the same at every path but one. */
  ghost predicate SameBut(before: Files, after: Files, path: Path) {
    forall p :: p != path ==> (p in after <==> p in before) && (p in before ==> after[p] == before[p])
  }

  function Content(files: Files, path: Path): Option<Bytes> {
    if path in files then Some(files[path]) else None
  }

  datatype Lookup = Found | Missing | Faulted(name: string)

  function FilesOutside(files: Files, path: Path): Files {
    files - set p | p in files && Under(p, path)
  }

  function DirectoriesOutside(directories: set<Path>, path: Path): set<Path> {
    set d | d in directories && !(path <= d)
  }

  class Vault {
    var files: Files
    var directories: set<Path>

    constructor (files: Files, directories: set<Path>)
      ensures this.files == files && this.directories == directories
    {
      this.files, this.directories := files, directories;
    }

    /** Opens a directory: not found exactly when there is none; other exceptions at any time. */
    method LookUpDirectory(path: Path, fault: string) returns (r: Lookup)
      ensures r.Found? ==> path in directories
      ensures r.Missing? ==> path !in directories
    {
      if * {
        return Faulted(fault);
      }
      r := if path in directories then Found else Missing;
    }

    /** Opens or creates a directory: a failure may still have created it. */
    method CreateDirectory(path: Path, fault: string) returns (r: Lookup)
      modifies this`directories
      ensures directories == old(directories) || directories == old(directories) + {path}
      ensures r.Found? ==> path in directories
      ensures !r.Missing?
    {
      if * {
        directories := directories + {path};
        r := Found;
        if * {
          r := Faulted(fault);
        }
      } else {
        r := Faulted(fault);
      }
    }

    /** Opens a file that is there. */
    method LookUpFile(path: Path, fault: string) returns (r: Lookup)
      ensures r.Found? ==> path in files
      ensures r.Missing? ==> path !in files
    {
      if * {
        return Faulted(fault);
      }
      r := if path in files then Found else Missing;
    }

    /** Reads a file that was opened. */
    method ReadFile(path: Path) returns (bytes: Option<Bytes>)
      requires path in files
      ensures bytes.Some? ==> bytes.value == files[path]
    {
      bytes := Some(files[path]);
      if * {
        bytes := None;
      }
    }

    /** Whatever a failed write leaves behind at its path. */
    method Disturb(path: Path)
      modifies this`files
      ensures SameBut(old(files), files, path)
    {
      if * {
        var left: Bytes := *;
        files := files[path := left];
      } else if * {
        files := files - {path};
      }
    }

    /** Opens a file for writing, creating it: nothing is written yet. */
    method Prepare(path: Path) returns (ok: bool)
      modifies this`files
      ensures SameBut(old(files), files, path)
    {
      Disturb(path);
      ok := *;
    }

    /** Writes and closes: on success the file holds exactly the bytes. */
    method Commit(path: Path, bytes: Bytes) returns (ok: bool)
      modifies this`files
      ensures ok ==> files == old(files)[path := bytes]
      ensures SameBut(old(files), files, path)
    {
      ok := *;
      if ok {
        files := files[path := bytes];
      } else {
        Disturb(path);
      }
    }

    /** Removes a file. */
    method RemoveFile(path: Path, fault: string) returns (r: Lookup)
      modifies this`files
      ensures r.Found? ==> files == old(files) - {path}
      ensures r.Missing? ==> path !in old(files) && files == old(files)
      ensures SameBut(old(files), files, path)
    {
      if * {
        Disturb(path);
        return Faulted(fault);
      }
      r := if path in files then Found else Missing;
      files := files - {path};
    }

    /** Removes a directory with all it holds; a failure may have removed a part. */
    method RemoveDirectory(path: Path, fault: string) returns (r: Lookup)
      modifies this
      ensures r.Found? ==>
                files == FilesOutside(old(files), path) && directories == DirectoriesOutside(old(directories), path)
      ensures r.Missing? ==> path !in old(directories) && files == old(files) && directories == old(directories)
      ensures forall p :: p in files ==> p in old(files) && files[p] == old(files)[p]
      ensures forall p :: p in old(files) && !Under(p, path) ==> p in files
      ensures DirectoriesOutside(old(directories), path) <= directories <= old(directories)
    {
      if * {
        var gone: set<Path> := *;
        files := files - set p | p in files && Under(p, path) && p in gone;
        directories := directories - set d | d in directories && path <= d && d in gone;
        return Faulted(fault);
      }
      r := Missing;
      if path in directories {
        files := FilesOutside(files, path);
        directories := DirectoriesOutside(directories, path);
        r := Found;
      }
    }
  }

  datatype Backup = Backup(path: Path, bytes: Option<Bytes>)

  /** Nothing for a missing file, an error for one that is too large. */
  method ReadExistingFile(vault: Vault, path: Path, maxBytes: nat, fault: string)
    returns (r: Result<Option<Bytes>, Failure>)
    ensures r.Ok? ==> r.value == Content(vault.files, path)
    ensures r.Err? ==> r.error.Platform? || r.error.code == "existing_file_too_large"
  {
    var handle := vault.LookUpFile(path, fault);
    match handle
    case Missing => return Ok(None);
    case Faulted(name) => return Err(Platform(name));
    case Found =>
      var read := vault.ReadFile(path);
      if read.None? {
        return Err(Platform(fault));
      }
      if |read.value| > maxBytes {
        return Err(Installer("existing_file_too_large"));
      }
      r := Ok(read);
  }

  /** Writes a file through the platform's stream; a failed abort is ignored, as the source does. */
  method WriteFile(vault: Vault, path: Path, bytes: Bytes) returns (ok: bool)
    modifies vault`files
    ensures ok ==> vault.files == old(vault.files)[path := bytes]
    ensures SameBut(old(vault.files), vault.files, path)
  {
    ok := vault.Prepare(path);
    if !ok {
      return;
    }
    ok := vault.Prepare(path);
    if !ok {
      return;
    }
    ghost var before := vault.files;
    ok := vault.Commit(path, bytes);
    if !ok {
      vault.Disturb(path);
    } else {
      assert vault.files == old(vault.files)[path := bytes];
    }
  }

  method RestoreBackup(vault: Vault, backup: Backup, fault: string) returns (ok: bool)
    modifies vault`files
    ensures ok ==> Content(vault.files, backup.path) == backup.bytes
    ensures SameBut(old(vault.files), vault.files, backup.path)
  {
    match backup.bytes
    case None =>
      var removed := vault.RemoveFile(backup.path, fault);
      ok := !removed.Faulted?;
    case Some(bytes) =>
      ok := WriteFile(vault, backup.path, bytes);
  }

  /** The backups say what `files` holds at their paths. */
  ghost predicate Recorded(files: Files, backups: seq<Backup>) {
    forall i :: 0 <= i < |backups| ==> backups[i].bytes == Content(files, backups[i].path)
  }

  /** At every path without a backup the vault still holds what it held. */
  ghost predicate OnlyBackedUpChanged(before: Files, after: Files, backups: seq<Backup>) {
    forall p :: (forall i :: 0 <= i < |backups| ==> backups[i].path != p) ==> Content(after, p) == Content(before, p)
  }

  lemma {:induction false} SameContent(before: Files, after: Files, backups: seq<Backup>)
    requires OnlyBackedUpChanged(before, after, backups)
    requires forall j :: 0 <= j < |backups| ==> Content(after, backups[j].path) == Content(before, backups[j].path)
    ensures after == before
  {
    forall p ensures Content(after, p) == Content(before, p) {
    }
    forall p | p in before ensures p in after && after[p] == before[p] {
      assert Content(after, p) == Content(before, p);
    }
    forall p | p in after ensures p in before {
      assert Content(after, p) == Content(before, p);
    }
  }

  /** Undoing the writes: the backups in reverse order, then the plugin directory if it was not there. */
  method Rollback(vault: Vault, backups: seq<Backup>, removePluginDirectory: bool, fault: string, ghost before: Files)
    returns (errors: nat)
    requires Recorded(before, backups) && OnlyBackedUpChanged(before, vault.files, backups)
    requires removePluginDirectory ==> forall p :: p in before ==> !Under(p, PLUGIN)
    requires removePluginDirectory ==> PLUGINS in vault.directories && PLUGIN in vault.directories
    modifies vault
    ensures errors == 0 ==> vault.files == before
    ensures OnlyBackedUpChanged(before, vault.files, backups)
    ensures !removePluginDirectory ==> vault.directories == old(vault.directories)
    ensures errors == 0 && removePluginDirectory ==>
              vault.directories == DirectoriesOutside(old(vault.directories), PLUGIN)
    ensures DirectoriesOutside(old(vault.directories), PLUGIN) <= vault.directories <= old(vault.directories)
  {
    errors := 0;
    var i := |backups|;
    while i > 0
      invariant 0 <= i <= |backups|
      invariant OnlyBackedUpChanged(before, vault.files, backups)
      invariant errors == 0 ==>
                  forall j :: i <= j < |backups| ==>
                    Content(vault.files, backups[j].path) == Content(before, backups[j].path)
      invariant vault.directories == old(vault.directories)
    {
      i := i - 1;
      ghost var files := vault.files;
      var ok := RestoreBackup(vault, backups[i], fault);
      assert forall p :: p != backups[i].path ==> Content(vault.files, p) == Content(files, p);
      if !ok {
        errors := errors + 1;
      }
    }
    assert errors == 0 ==> vault.files == before by {
      if errors == 0 {
        SameContent(before, vault.files, backups);
      }
    }
    if removePluginDirectory {
      ghost var files := vault.files;
      var plugins := vault.LookUpDirectory(PLUGINS, fault);
      if plugins.Faulted? {
        errors := errors + 1;
      } else {
        var removed := vault.RemoveDirectory(PLUGIN, fault);
        if removed.Faulted? {
          errors := errors + 1;
        }
        forall p
          ensures Content(vault.files, p) == Content(files, p)
                  || Content(before, p) == Content(vault.files, p) == None
        {
        }
      }
    }
  }

  // ---- The installation --------------------------------------------------------------------

  /** The first `n` asset files written. */
  function Written(files: Files, assets: map<string, Bytes>, n: nat): Files
    requires n <= |ASSET_NAMES| && forall i :: 0 <= i < n ==> ASSET_NAMES[i] in assets
  {
    if n == 0 then files
    else Written(files, assets, n - 1)[AssetPath(ASSET_NAMES[n - 1]) := assets[ASSET_NAMES[n - 1]]]
  }

  /** The plugin list as it will be written, or why it cannot be. */
  function NewList(services: Services, files: Files): Result<seq<string>, Failure> {
    match ParseEnabledPlugins(services, Content(files, ENABLED))
    case Ok(list) => Ok(WithPlugin(list))
    case Err(e) => Err(e)
  }

  /** All four files written: the three assets and the extended plugin list. */
  ghost predicate Installed(services: Services, before: Files, after: Files, assets: map<string, Bytes>, count: nat) {
    && (forall i :: 0 <= i < |ASSET_NAMES| ==> ASSET_NAMES[i] in assets)
    && NewList(services, before).Ok? && count == |NewList(services, before).value|
    && after == Written(before, assets, |ASSET_NAMES|)[ENABLED := services.stringify(NewList(services, before).value)]
  }

  /** The plugins enabled so far: none without a file, otherwise the entries of its list. */
  ghost predicate EnabledSoFar(services: Services, file: Option<Bytes>, names: seq<string>) {
    match file
    case None => names == []
    case Some(bytes) => IsNameList(services.parse(bytes), names)
  }

  /**
   * The three files are in the plugin's directory, and the list of enabled plugins holds what it held
   * before, each once and in its order, and this plugin.
   */
  ghost predicate InPlace(
      services: Services, before: Files, after: Files, files: map<string, Bytes>, count: nat,
      names: seq<string>, list: seq<string>)
  {
    && (forall name <- ["main.js", "manifest.json", "styles.css"] ::
          name in files
          && Content(after, [".obsidian", "plugins", "mdevolved-sync", name]) == Some(files[name]))
    && EnabledSoFar(services, Content(before, [".obsidian", "community-plugins.json"]), names)
    && FirstOccurrences(names, list)
    && var all := if "mdevolved-sync" in list then list else list + ["mdevolved-sync"];
       Content(after, [".obsidian", "community-plugins.json"]) == Some(services.stringify(all)) && count == |all|
  }

  lemma {:induction false} PathsDiffer(i: nat, j: nat)
    requires i < j < |ASSET_NAMES|
    ensures AssetPath(ASSET_NAMES[i]) != AssetPath(ASSET_NAMES[j])
  {
    assert ASSET_NAMES[i] != ASSET_NAMES[j];
    assert AssetPath(ASSET_NAMES[i])[3] == ASSET_NAMES[i] && AssetPath(ASSET_NAMES[j])[3] == ASSET_NAMES[j];
  }

  lemma {:induction false} WrittenHolds(files: Files, assets: map<string, Bytes>, n: nat, i: nat)
    requires i < n <= |ASSET_NAMES| && forall j :: 0 <= j < n ==> ASSET_NAMES[j] in assets
    ensures Content(Written(files, assets, n), AssetPath(ASSET_NAMES[i])) == Some(assets[ASSET_NAMES[i]])
  {
    if i < n - 1 {
      WrittenHolds(files, assets, n - 1, i);
      PathsDiffer(i, n - 1);
    }
  }

  /** There is no list of enabled plugins, or it is one. */
  ghost predicate HasPluginList(services: Services, files: Files) {
    exists names :: EnabledSoFar(services, Content(files, [".obsidian", "community-plugins.json"]), names)
  }

  ghost predicate InstalledFrom(
      services: Services, before: Files, after: Files, files: map<string, Bytes>, count: nat)
  {
    exists names, list :: InPlace(services, before, after, files, count, names, list)
  }

  lemma {:induction false} InstalledIsInPlace(
      services: Services, before: Files, after: Files, files: map<string, Bytes>, count: nat)
    requires Installed(services, before, after, files, count)
    ensures InstalledFrom(services, before, after, files, count) && HasPluginList(services, before)
  {
    var found := Content(before, ENABLED);
    ParseEnabledIff(services, found);
    var list := ParseEnabledPlugins(services, found).value;
    var names: seq<string> := [];
    if found.Some? {
      names :| IsNameList(services.parse(found.value), names) && FirstOccurrences(names, list);
    }
    forall name <- ["main.js", "manifest.json", "styles.css"]
      ensures name in files
      ensures Content(after, [".obsidian", "plugins", "mdevolved-sync", name]) == Some(files[name])
    {
      var i :| 0 <= i < |ASSET_NAMES| && ASSET_NAMES[i] == name;
      WrittenHolds(before, files, |ASSET_NAMES|, i);
      assert AssetPath(name) == [".obsidian", "plugins", "mdevolved-sync", name];
      assert |AssetPath(name)| != |ENABLED|;
    }
    assert InPlace(services, before, after, files, count, names, list);
    assert EnabledSoFar(services, Content(before, [".obsidian", "community-plugins.json"]), names);
  }

  /** One of the four paths the installer may write. */
  ghost predicate Touched(path: Path) {
    || path == [".obsidian", "community-plugins.json"]
    || exists name <- ["main.js", "manifest.json", "styles.css"] ::
         path == [".obsidian", "plugins", "mdevolved-sync", name]
  }

  /** The first half of the try block: read all four files, change none. */
  method BackUp(vault: Vault, fault: string) returns (enabled: Result<Option<Bytes>, Failure>, backups: seq<Backup>)
    ensures Recorded(vault.files, backups)
    ensures |backups| <= 4 && forall i :: 0 <= i < |backups| ==> Touched(backups[i].path)
    ensures enabled.Ok? ==>
              && enabled.value == Content(vault.files, ENABLED)
              && |backups| == 4 && backups[3].path == ENABLED
              && forall i :: 0 <= i < |ASSET_NAMES| ==> backups[i].path == AssetPath(ASSET_NAMES[i])
    ensures enabled.Err? ==> enabled.error != Installer("rollback_incomplete")
  {
    backups := [];
    for i := 0 to |ASSET_NAMES|
      invariant |backups| == i && Recorded(vault.files, backups)
      invariant forall j :: 0 <= j < i ==> backups[j].path == AssetPath(ASSET_NAMES[j])
    {
      var read := ReadExistingFile(vault, AssetPath(ASSET_NAMES[i]), MAX_EXISTING_FILE_BYTES, fault);
      if read.Err? {
        return Err(read.error), backups;
      }
      backups := backups + [Backup(AssetPath(ASSET_NAMES[i]), read.value)];
    }
    enabled := ReadExistingFile(vault, ENABLED, MAX_ENABLED_PLUGIN_FILE_BYTES, fault);
    if enabled.Ok? {
      backups := backups + [Backup(ENABLED, enabled.value)];
    }
  }

  lemma {:induction false} StillBackedUp(before: Files, files: Files, after: Files, backups: seq<Backup>, i: nat)
    requires OnlyBackedUpChanged(before, files, backups)
    requires i < |backups| && SameBut(files, after, backups[i].path)
    ensures OnlyBackedUpChanged(before, after, backups)
  {
    forall p | forall j :: 0 <= j < |backups| ==> backups[j].path != p ensures Content(after, p) == Content(before, p) {
      assert p != backups[i].path;
    }
  }

  /** The loop of the try block that writes the three assets. */
  method WriteAssets(vault: Vault, assets: map<string, Bytes>, fault: string, ghost backups: seq<Backup>)
    returns (failure: Option<Failure>)
    requires |backups| >= |ASSET_NAMES|
    requires forall i :: 0 <= i < |ASSET_NAMES| ==> backups[i].path == AssetPath(ASSET_NAMES[i])
    modifies vault`files
    ensures OnlyBackedUpChanged(old(vault.files), vault.files, backups)
    ensures failure.None? ==>
              && (forall i :: 0 <= i < |ASSET_NAMES| ==> ASSET_NAMES[i] in assets)
              && vault.files == Written(old(vault.files), assets, |ASSET_NAMES|)
    ensures failure.Some? ==> failure.value != Installer("rollback_incomplete")
  {
    for i := 0 to |ASSET_NAMES|
      invariant forall j :: 0 <= j < i ==> ASSET_NAMES[j] in assets
      invariant vault.files == Written(old(vault.files), assets, i)
      invariant OnlyBackedUpChanged(old(vault.files), vault.files, backups)
    {
      if ASSET_NAMES[i] !in assets {
        return Some(Installer("installer_asset_mismatch"));
      }
      assert backups[i].path == AssetPath(ASSET_NAMES[i]);
      ghost var files := vault.files;
      var ok := WriteFile(vault, AssetPath(ASSET_NAMES[i]), assets[ASSET_NAMES[i]]);
      StillBackedUp(old(vault.files), files, vault.files, backups, i);
      if !ok {
        return Some(Platform(fault));
      }
    }
    return None;
  }

  /** The body of the try block. Its backups are complete before the first write. */
  method ReadAndWrite(vault: Vault, services: Services, assets: map<string, Bytes>, fault: string)
    returns (r: Result<nat, Failure>, backups: seq<Backup>)
    modifies vault`files
    ensures Recorded(old(vault.files), backups) && OnlyBackedUpChanged(old(vault.files), vault.files, backups)
    ensures |backups| <= 4 && forall i :: 0 <= i < |backups| ==> Touched(backups[i].path)
    ensures r.Ok? ==> Installed(services, old(vault.files), vault.files, assets, r.value)
    ensures r.Err? ==> r.error != Installer("rollback_incomplete")
  {
    var enabled;
    enabled, backups := BackUp(vault, fault);
    if enabled.Err? {
      return Err(enabled.error), backups;
    }
    var parsed := ParseEnabledPlugins(services, enabled.value);
    if parsed.Err? {
      return Err(parsed.error), backups;
    }
    var list := WithPlugin(parsed.value);
    var failure := WriteAssets(vault, assets, fault, backups);
    if failure.Some? {
      return Err(failure.value), backups;
    }
    ghost var files := vault.files;
    var ok := WriteFile(vault, ENABLED, services.stringify(list));
    StillBackedUp(old(vault.files), files, vault.files, backups, 3);
    if !ok {
      return Err(Platform(fault)), backups;
    }
    r := Ok(|list|);
  }

  /** What the caller is told: an installer error as it is, a platform error by its name. */
  function Normalized(f: Failure): Failure {
    match f
    case Installer(_) => f
    case Platform("NotAllowedError") => Installer("folder_permission_denied")
    case Platform("SecurityError") => Installer("folder_picker_blocked")
    case Platform(name) =>
      if name == "NotReadableError" || name == "NoModificationAllowedError" then Installer("vault_not_writable")
      else Installer("install_failed")
  }

  lemma {:induction false} PrefixIs(p: Path, d: Path)
    requires d <= p
    ensures |d| <= |p| && p[..|d|] == d && (p != d ==> |d| < |p|)
  {
  }

  /** A vault without the plugin directory has nothing under it. */
  lemma {:induction false} NothingUnderPlugin(files: Files, directories: set<Path>)
    requires Tree(files, directories) && PLUGIN !in directories
    ensures forall p :: p in files ==> !Under(p, PLUGIN)
    ensures DirectoriesOutside(directories + {PLUGINS, PLUGIN}, PLUGIN) == directories + {PLUGINS}
  {
    forall p | p in files ensures !Under(p, PLUGIN) {
      if PLUGIN <= p {
        PrefixIs(p, PLUGIN);
      }
    }
    forall d | d in directories ensures !(PLUGIN <= d) {
      if PLUGIN <= d {
        PrefixIs(d, PLUGIN);
      }
    }
  }

  /** Makes the plugin directory available; the result says whether a rollback has to remove it. */
  method OpenPluginDirectory(vault: Vault, fault: string) returns (r: Result<bool, Failure>)
    requires Tree(vault.files, vault.directories)
    modifies vault`directories
    ensures old(vault.directories) <= vault.directories <= old(vault.directories) + {PLUGINS, PLUGIN}
    ensures r.Ok? ==> vault.directories == old(vault.directories) + {PLUGINS, PLUGIN}
    ensures r.Ok? ==> r.value == (PLUGIN !in old(vault.directories))
    ensures r.Err? ==> r.error.Platform?
  {
    var plugins := vault.LookUpDirectory(PLUGINS, fault);
    if plugins.Missing? {
      plugins := vault.CreateDirectory(PLUGINS, fault);
    }
    if plugins.Faulted? {
      return Err(Platform(plugins.name));
    }
    assert PLUGINS != PLUGIN;
    var plugin := vault.LookUpDirectory(PLUGIN, fault);
    var removePluginDirectory := plugin.Missing?;
    if plugin.Missing? {
      plugin := vault.CreateDirectory(PLUGIN, fault);
    }
    if plugin.Faulted? {
      return Err(Platform(plugin.name));
    }
    r := Ok(removePluginDirectory);
  }

  /** What a success of the installer amounts to. */
  ghost predicate Success(services: Services, before: Files, after: Files, count: nat) {
    exists files :: AsAnnounced(services, files) && InstalledFrom(services, before, after, files, count)
  }

  ghost predicate InstalledVerified(services: Services, before: Files, after: Files, count: nat) {
    exists assets, verified ::
      Verified(services, assets, verified) && Installed(services, before, after, verified, count)
  }

  /** The try block and what catches its failures. */
  method WriteOrRollBack(
      vault: Vault, services: Services, assets: map<string, Bytes>, removePluginDirectory: bool, fault: string)
    returns (r: Result<nat, Failure>)
    requires removePluginDirectory ==> forall p :: p in vault.files ==> !Under(p, PLUGIN)
    requires removePluginDirectory ==> PLUGINS in vault.directories && PLUGIN in vault.directories
    modifies vault
    ensures r.Ok? ==> Installed(services, old(vault.files), vault.files, assets, r.value)
    ensures r.Ok? && AsAnnounced(services, assets) ==> Success(services, old(vault.files), vault.files, r.value)
    ensures r.Ok? && (exists some :: Verified(services, some, assets)) ==>
              InstalledVerified(services, old(vault.files), vault.files, r.value)
    ensures !HasPluginList(services, old(vault.files)) ==> r.Err?
    ensures r.Ok? ==> vault.directories == old(vault.directories)
    ensures r.Err? ==> r.error.Installer?
    ensures r.Err? && r.error != Installer("rollback_incomplete") ==>
              && vault.files == old(vault.files)
              && vault.directories == if removePluginDirectory then DirectoriesOutside(old(vault.directories), PLUGIN)
                                      else old(vault.directories)
    ensures forall p :: Content(vault.files, p) != Content(old(vault.files), p) ==> Touched(p)
  {
    var backups;
    r, backups := ReadAndWrite(vault, services, assets, fault);
    if r.Err? {
      var errors := Rollback(vault, backups, removePluginDirectory, fault, old(vault.files));
      r := if errors > 0 then Err(Installer("rollback_incomplete")) else Err(Normalized(r.error));
    } else {
      InstalledIsInPlace(services, old(vault.files), vault.files, assets, r.value);
    }
  }

  /** Before the first file is touched: the assets, and whether a rollback has to remove the directory. */
  method PrepareInstall(vault: Vault, services: Services, fault: string)
    returns (r: Result<(map<string, Bytes>, bool), Failure>)
    requires Tree(vault.files, vault.directories)
    modifies vault`directories
    ensures r.Ok? ==> AsAnnounced(services, r.value.0) && exists some :: Verified(services, some, r.value.0)
    ensures r.Ok? ==> vault.directories == old(vault.directories) + {PLUGINS, PLUGIN}
    ensures r.Ok? && !r.value.1 ==> PLUGIN in old(vault.directories)
    ensures r.Ok? && r.value.1 ==>
              && (forall p :: p in vault.files ==> !Under(p, PLUGIN))
              && DirectoriesOutside(vault.directories, PLUGIN) == old(vault.directories) + {PLUGINS}
    ensures old(vault.directories) <= vault.directories <= old(vault.directories) + {PLUGINS, PLUGIN}
    ensures r.Err? ==> r.error != Installer("rollback_incomplete")
  {
    var obsidian := vault.LookUpDirectory(OBSIDIAN, fault);
    if obsidian.Faulted? {
      return Err(Platform(obsidian.name));
    }
    if obsidian.Missing? {
      return Err(Installer("not_an_obsidian_vault"));
    }
    var assets := LoadVerifiedAssets(services);
    if assets.Err? {
      return Err(assets.error);
    }
    var plugin := OpenPluginDirectory(vault, fault);
    if plugin.Err? {
      return Err(plugin.error);
    }
    if plugin.value {
      NothingUnderPlugin(vault.files, old(vault.directories));
    }
    return Ok((assets.value, plugin.value));
  }

  /**
   * The whole installation, under every pattern of failing calls: it installs all four files, or every
   * file of the vault is as it was, or it says that the rollback is incomplete. `entered` tells whether
   * the part that reads, writes and rolls back was reached.
   */
  method Install(vault: Vault, services: Services, fault: string) returns (r: Result<nat, Failure>, ghost entered: bool)
    requires Tree(vault.files, vault.directories)
    modifies vault
    ensures r.Ok? ==> InstalledVerified(services, old(vault.files), vault.files, r.value)
    ensures r.Ok? ==> Success(services, old(vault.files), vault.files, r.value)
    ensures !HasPluginList(services, old(vault.files)) ==> r.Err?
    ensures r.Ok? ==> vault.directories == old(vault.directories) + {PLUGINS, PLUGIN}
    ensures r.Err? && r.error != Installer("rollback_incomplete") ==> vault.files == old(vault.files)
    ensures r.Err? && entered ==> r.error.Installer?
    ensures r.Err? && r.error != Installer("rollback_incomplete") && entered ==>
              vault.directories == old(vault.directories) + {PLUGINS}
    ensures !entered ==> r.Err? && r.error != Installer("rollback_incomplete")
    ensures !entered ==> old(vault.directories) <= vault.directories <= old(vault.directories) + {PLUGINS, PLUGIN}
    ensures forall p :: Content(vault.files, p) != Content(old(vault.files), p) ==> Touched(p)
  {
    var prepared := PrepareInstall(vault, services, fault);
    if prepared.Err? {
      return Err(prepared.error), false;
    }
    entered := true;
    r := WriteOrRollBack(vault, services, prepared.value.0, prepared.value.1, fault);
  }
}
