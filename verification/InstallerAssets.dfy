/**
 * The pinned installer manifest, the verified assets and the enabled-plugin list
 * (obsidian-plugin-installer.ts:108-324, 395-424).
 */
module InstallerAssets {
  import opened Common

  const INSTALLER_FORMAT := "mdevolved-sync-web-installer-v1"
  const PLUGIN_ID := "mdevolved-sync"
  const MAX_ASSET_BYTES := 2 * 1024 * 1024
  const MAX_TOTAL_ASSET_BYTES := 4 * 1024 * 1024
  const MAX_SAFE_INTEGER := 9007199254740991

  const ASSET_NAMES: seq<string> := ["main.js", "manifest.json", "styles.css"]

  /** A JSON value as the code looks at it: a string, an integral number, or anything else. */
  datatype Value = Absent | Text(text: string) | Integer(number: int) | Else

  datatype Candidate = NotRecord | Candidate(name: Value, bytes: Value, sha256: Value)

  datatype Candidates = NotList | List(items: seq<Candidate>)

  datatype ManifestJson = NoManifest | ManifestJson(format: Value, pluginId: Value, version: Value, assets: Candidates)

  /** What JSON.parse yields for a file: not JSON, a list of values, a record, or another value. */
  datatype FileJson = Malformed | Entries(entries: seq<Value>) | Record(id: Value, version: Value) | Scalar

  datatype Asset = Asset(name: string, bytes: nat, sha256: string)

  /** An error of the installer itself, or an exception of the platform with its name. */
  datatype Failure = Installer(code: string) | Platform(name: string)

  /** The answer to one fetch: a body, a status that is not ok, or a rejected promise. */
  datatype Response<T> = Delivered(body: T) | NotOk | Dropped(name: string)

  /** What the installer is given: JSON, hashing and the network answers. */
  datatype Services = Services(
    version: string,
    parse: Bytes -> FileJson,
    stringify: seq<string> -> Bytes,
    sha256: Bytes -> string,
    manifest: Response<ManifestJson>,
    responses: map<string, Response<Bytes>>)

  predicate IsHex64(text: string) {
    |text| == 64 && forall i :: 0 <= i < 64 ==> '0' <= text[i] <= '9' || 'a' <= text[i] <= 'f'
  }

  /** A safe integer between 1 and the asset limit. */
  predicate IsAssetSize(value: Value) {
    value.Integer? && -MAX_SAFE_INTEGER <= value.number <= MAX_SAFE_INTEGER && 0 < value.number <= MAX_ASSET_BYTES
  }

  predicate IsAsset(value: Candidate) {
    && value.Candidate? && value.name.Text? && value.name.text in ASSET_NAMES
    && IsAssetSize(value.bytes) && value.sha256.Text? && IsHex64(value.sha256.text)
  }

  function AssetOf(value: Candidate): Asset
    requires IsAsset(value)
  {
    Asset(value.name.text, value.bytes.number, value.sha256.text)
  }

  function TotalBytes(assets: seq<Asset>): nat {
    if assets == [] then 0 else TotalBytes(assets[..|assets| - 1]) + assets[|assets| - 1].bytes
  }

  ghost predicate DistinctNames(assets: seq<Asset>) {
    forall i, j :: 0 <= i < j < |assets| ==> assets[i].name != assets[j].name
  }

  predicate Headed(value: ManifestJson, version: string) {
    && value.ManifestJson? && value.format == Text(INSTALLER_FORMAT) && value.pluginId == Text(PLUGIN_ID)
    && value.version == Text(version) && value.assets.List? && |value.assets.items| == |ASSET_NAMES|
  }

  /** The manifest as its format asks for it: exactly the three assets, in any order, within the limits. */
  ghost predicate WellFormed(value: ManifestJson, version: string, assets: seq<Asset>) {
    && Headed(value, version)
    && var items := value.assets.items;
    && |items| == |assets| == |ASSET_NAMES|
    && (forall i :: 0 <= i < |items| ==> IsAsset(items[i]) && assets[i] == AssetOf(items[i]))
    && (forall name :: name in ASSET_NAMES <==> exists i :: 0 <= i < |assets| && assets[i].name == name)
    && TotalBytes(assets) <= MAX_TOTAL_ASSET_BYTES
  }

  function Names(assets: seq<Asset>): set<string> {
    set i | 0 <= i < |assets| :: assets[i].name
  }

  lemma {:induction false} NamesOfOneMore(assets: seq<Asset>, asset: Asset)
    ensures Names(assets + [asset]) == Names(assets) + {asset.name}
  {
    var more := assets + [asset];
    forall x | x in Names(assets) ensures x in Names(more) {
      var i :| 0 <= i < |assets| && assets[i].name == x;
      assert more[i].name == x;
    }
    assert more[|assets|].name == asset.name;
  }

  lemma {:induction false} NamesCount(assets: seq<Asset>)
    requires DistinctNames(assets)
    ensures |Names(assets)| == |assets|
  {
    if assets != [] {
      var n := |assets| - 1;
      NamesCount(assets[..n]);
      assert assets == assets[..n] + [assets[n]];
      NamesOfOneMore(assets[..n], assets[n]);
      assert assets[n].name !in Names(assets[..n]);
    }
  }

  /** Three distinct known names are all the names there are: the check for a missing asset never fires. */
  lemma {:induction false} NoAssetIsMissing(assets: seq<Asset>)
    requires |assets| == |ASSET_NAMES| && DistinctNames(assets)
    requires forall i :: 0 <= i < |assets| ==> assets[i].name in ASSET_NAMES
    ensures forall name :: name in ASSET_NAMES ==> exists i :: 0 <= i < |assets| && assets[i].name == name
  {
    var all := {"main.js", "manifest.json", "styles.css"};
    NamesCount(assets);
    assert Names(assets) <= all && |all - Names(assets)| == |all| - |Names(assets)|;
    forall name | name in ASSET_NAMES ensures exists i :: 0 <= i < |assets| && assets[i].name == name {
      assert name in all && name !in all - Names(assets);
    }
  }

  /** And conversely, three assets that cover the three names are distinct. */
  lemma {:induction false} CoveringIsDistinct(assets: seq<Asset>)
    requires |assets| == |ASSET_NAMES|
    requires forall name :: name in ASSET_NAMES ==> exists i :: 0 <= i < |assets| && assets[i].name == name
    ensures DistinctNames(assets)
  {
    var names := ASSET_NAMES;
    assert names[0] in names && names[1] in names && names[2] in names;
  }

  /** What the loop keeps: the assets of the candidates passed so far, with names of their own. */
  ghost predicate Collected(
      items: seq<Candidate>, assets: seq<Asset>, seen: set<string>, totalBytes: nat)
  {
    && |assets| <= |items| && seen == Names(assets) && DistinctNames(assets) && totalBytes == TotalBytes(assets)
    && forall j :: 0 <= j < |assets| ==> IsAsset(items[j]) && assets[j] == AssetOf(items[j])
  }

  lemma {:induction false} OneMoreCollected(
      items: seq<Candidate>, assets: seq<Asset>, seen: set<string>, totalBytes: nat)
    requires Collected(items, assets, seen, totalBytes) && |assets| < |items|
    requires var item := items[|assets|]; IsAsset(item) && item.name.text !in seen
    ensures var asset := AssetOf(items[|assets|]);
            Collected(items, assets + [asset], seen + {asset.name}, totalBytes + asset.bytes)
  {
    var asset := AssetOf(items[|assets|]);
    NamesOfOneMore(assets, asset);
    assert (assets + [asset])[..|assets|] == assets;
    forall i | 0 <= i < |assets| ensures assets[i].name != asset.name {
      assert assets[i].name in Names(assets);
    }
  }

  lemma {:induction false} NoneIsMissing(items: seq<Candidate>, assets: seq<Asset>, seen: set<string>, totalBytes: nat)
    requires Collected(items, assets, seen, totalBytes) && |assets| == |items| == |ASSET_NAMES|
    ensures forall name :: name in ASSET_NAMES ==> name in seen
  {
    NoAssetIsMissing(assets);
  }

  /** Why a candidate can make the whole manifest invalid: it is no asset, or repeats a name. */
  lemma {:induction false} BadCandidate(
      value: ManifestJson, version: string, assets: seq<Asset>, seen: set<string>, totalBytes: nat, i: nat)
    requires Headed(value, version) && i == |assets| < |ASSET_NAMES|
    requires Collected(value.assets.items, assets, seen, totalBytes)
    requires IsAsset(value.assets.items[i]) ==> AssetOf(value.assets.items[i]).name in seen
    ensures forall some: seq<Asset> :: !WellFormed(value, version, some)
  {
    forall some: seq<Asset> | WellFormed(value, version, some) ensures false {
      CoveringIsDistinct(some);
    }
  }

  lemma {:induction false} OneReading(value: ManifestJson, version: string, assets: seq<Asset>, some: seq<Asset>)
    requires Headed(value, version) && |assets| == |ASSET_NAMES| && WellFormed(value, version, some)
    requires var items := value.assets.items;
             forall j :: 0 <= j < |items| ==> IsAsset(items[j]) && assets[j] == AssetOf(items[j])
    ensures some == assets
  {
  }

  lemma {:induction false} AllChecked(
      value: ManifestJson, version: string, assets: seq<Asset>, seen: set<string>, totalBytes: nat)
    requires Headed(value, version) && |assets| == |ASSET_NAMES| && totalBytes <= MAX_TOTAL_ASSET_BYTES
    requires Collected(value.assets.items, assets, seen, totalBytes)
    ensures WellFormed(value, version, assets)
  {
    NoAssetIsMissing(assets);
  }

  lemma {:induction false} TooLarge(
      value: ManifestJson, version: string, assets: seq<Asset>, seen: set<string>, totalBytes: nat)
    requires Headed(value, version) && |assets| == |ASSET_NAMES| && totalBytes > MAX_TOTAL_ASSET_BYTES
    requires Collected(value.assets.items, assets, seen, totalBytes)
    ensures forall some: seq<Asset> :: !WellFormed(value, version, some)
  {
    forall some: seq<Asset> | WellFormed(value, version, some) ensures false {
      OneReading(value, version, assets, some);
    }
  }

  /** parseInstallerManifest, with the loop over the candidates. */
  method ParseInstallerManifest(value: ManifestJson, version: string) returns (r: Result<seq<Asset>, Failure>)
    ensures r.Ok? ==> WellFormed(value, version, r.value)
    ensures r.Err? ==> r.error == Installer("invalid_installer_manifest")
    ensures r.Err? ==> forall assets :: !WellFormed(value, version, assets)
  {
    var invalid := Err(Installer("invalid_installer_manifest"));
    if !Headed(value, version) {
      return invalid;
    }
    var items := value.assets.items;
    var assets: seq<Asset>, seen: set<string>, totalBytes: nat := [], {}, 0;
    for i := 0 to |items|
      invariant |assets| == i && Collected(items, assets, seen, totalBytes)
    {
      if !IsAsset(items[i]) || items[i].name.text in seen {
        BadCandidate(value, version, assets, seen, totalBytes, i);
        return invalid;
      }
      var asset := AssetOf(items[i]);
      OneMoreCollected(items, assets, seen, totalBytes);
      seen := seen + {asset.name};
      totalBytes := totalBytes + asset.bytes;
      assets := assets + [asset];
    }
    NoneIsMissing(items, assets, seen, totalBytes);
    if totalBytes > MAX_TOTAL_ASSET_BYTES || exists name :: name in ASSET_NAMES && name !in seen {
      TooLarge(value, version, assets, seen, totalBytes);
      return invalid;
    }
    AllChecked(value, version, assets, seen, totalBytes);
    r := Ok(assets);
  }

  // ---- The verified assets -----------------------------------------------------------------

  /** The bytes fetched for an asset have the announced length and hash. */
  predicate Matches(services: Services, asset: Asset) {
    && asset.name in services.responses && services.responses[asset.name].Delivered?
    && |services.responses[asset.name].body| == asset.bytes
    && services.sha256(services.responses[asset.name].body) == asset.sha256
  }

  predicate IdentityFits(services: Services, bytes: Bytes) {
    var parsed := services.parse(bytes);
    parsed.Record? && parsed.id == Text(PLUGIN_ID) && parsed.version == Text(services.version)
  }

  /** Exactly the three files, each as announced, and the plugin manifest names this plugin and version. */
  ghost predicate Verified(services: Services, assets: seq<Asset>, files: map<string, Bytes>) {
    && services.manifest.Delivered? && WellFormed(services.manifest.body, services.version, assets)
    && (forall i :: 0 <= i < |assets| ==> Matches(services, assets[i]))
    && (forall name :: name in files <==> name in ASSET_NAMES)
    && (forall i :: 0 <= i < |assets| && assets[i].name in files ==>
          files[assets[i].name] == services.responses[assets[i].name].body)
    && "manifest.json" in files && IdentityFits(services, files["manifest.json"])
  }

  ghost predicate AssetFailure(f: Failure) {
    f.Platform? || f.code in ["invalid_installer_manifest", "installer_asset_unavailable", "installer_asset_mismatch"]
  }

  ghost predicate FetchedFile(services: Services, assets: seq<Asset>, name: string, bytes: Bytes) {
    && (exists i :: 0 <= i < |assets| && assets[i].name == name)
    && name in services.responses && services.responses[name].Delivered? && bytes == services.responses[name].body
  }

  /** The bodies of the assets, under their names. */
  ghost predicate Fetched(services: Services, assets: seq<Asset>, files: map<string, Bytes>) {
    && (forall i :: 0 <= i < |assets| ==> Matches(services, assets[i]) && assets[i].name in files)
    && (forall name :: name in files ==> FetchedFile(services, assets, name, files[name]))
  }

  lemma {:induction false} FetchedOneMore(
      services: Services, assets: seq<Asset>, files: map<string, Bytes>, asset: Asset)
    requires Fetched(services, assets, files) && Matches(services, asset)
    ensures Fetched(services, assets + [asset], files[asset.name := services.responses[asset.name].body])
  {
    var more, files' := assets + [asset], files[asset.name := services.responses[asset.name].body];
    forall name | name in files' ensures FetchedFile(services, more, name, files'[name]) {
      if name == asset.name {
        assert more[|assets|].name == name;
      } else {
        assert FetchedFile(services, assets, name, files[name]);
        var i :| 0 <= i < |assets| && assets[i].name == name;
        assert more[i].name == name;
      }
    }
  }

  /**
   * The fetches run concurrently in the source; the first failure in manifest order stands here for
   * the first one in time.
   */
  method FetchAssets(services: Services, assets: seq<Asset>) returns (r: Result<map<string, Bytes>, Failure>)
    ensures r.Ok? ==> Fetched(services, assets, r.value)
    ensures r.Err? ==> AssetFailure(r.error)
    ensures r.Err? ==> exists i :: 0 <= i < |assets| && !Matches(services, assets[i])
  {
    var files: map<string, Bytes> := map[];
    for i := 0 to |assets|
      invariant Fetched(services, assets[..i], files)
    {
      var asset := assets[i];
      if asset.name !in services.responses || services.responses[asset.name].NotOk? {
        return Err(Installer("installer_asset_unavailable"));
      }
      var response := services.responses[asset.name];
      if response.Dropped? {
        return Err(Failure.Platform(response.name));
      }
      if |response.body| != asset.bytes || services.sha256(response.body) != asset.sha256 {
        return Err(Installer("installer_asset_mismatch"));
      }
      FetchedOneMore(services, assets[..i], files, asset);
      assert assets[..i + 1] == assets[..i] + [asset];
      files := files[asset.name := response.body];
    }
    assert assets[..|assets|] == assets;
    r := Ok(files);
  }

  /** There is one way to read the manifest and one set of files to install from it. */
  lemma {:induction false} VerifiedIsFetched(
      services: Services, assets: seq<Asset>, files: map<string, Bytes>, some: seq<Asset>, other: map<string, Bytes>)
    requires services.manifest.Delivered? && WellFormed(services.manifest.body, services.version, assets)
    requires Fetched(services, assets, files) && Verified(services, some, other)
    ensures some == assets && other == files
  {
    OneReading(services.manifest.body, services.version, assets, some);
    forall name | name in files ensures name in other && other[name] == files[name] {
      assert FetchedFile(services, assets, name, files[name]);
    }
    forall name | name in other ensures name in files {
      assert name in ASSET_NAMES;
    }
  }

  lemma {:induction false} FetchedIsVerified(services: Services, assets: seq<Asset>, files: map<string, Bytes>)
    requires services.manifest.Delivered? && WellFormed(services.manifest.body, services.version, assets)
    requires Fetched(services, assets, files)
    ensures forall name :: name in files <==> name in ASSET_NAMES
    ensures forall i :: 0 <= i < |assets| ==> files[assets[i].name] == services.responses[assets[i].name].body
    ensures "manifest.json" in files
  {
    forall i | 0 <= i < |assets| ensures files[assets[i].name] == services.responses[assets[i].name].body {
      assert FetchedFile(services, assets, assets[i].name, files[assets[i].name]);
    }
    forall name | name in files ensures name in ASSET_NAMES {
      assert FetchedFile(services, assets, name, files[name]);
    }
    assert ASSET_NAMES[1] == "manifest.json";
  }

  /** One item of the manifest and the file of that name: sizes, hash, and the answer it came with. */
  ghost predicate AnnouncedItem(services: Services, files: map<string, Bytes>, item: Candidate) {
    && item.Candidate? && item.name.Text? && item.bytes.Integer? && item.sha256.Text?
    && 0 < item.bytes.number <= 2 * 1024 * 1024
    && |item.sha256.text| == 64
    && (forall i :: 0 <= i < 64 ==>
          '0' <= item.sha256.text[i] <= '9' || 'a' <= item.sha256.text[i] <= 'f')
    && item.name.text in files && item.name.text in services.responses
    && services.responses[item.name.text] == Delivered(files[item.name.text])
    && |files[item.name.text]| == item.bytes.number
    && services.sha256(files[item.name.text]) == item.sha256.text
  }

  /**
   * The manifest has the right format, plugin and version and announces exactly these three files, and
   * these are the bodies the server answered with; the plugin's own manifest names it and its version.
   */
  ghost predicate Announced(services: Services, files: map<string, Bytes>, items: seq<Candidate>) {
    && services.manifest.Delivered? && services.manifest.body.ManifestJson?
    && services.manifest.body.format == Text("mdevolved-sync-web-installer-v1")
    && services.manifest.body.pluginId == Text("mdevolved-sync")
    && services.manifest.body.version == Text(services.version)
    && services.manifest.body.assets == List(items)
    && |items| == 3
    && (forall name :: name in files <==> name in ["main.js", "manifest.json", "styles.css"])
    && (forall name <- files :: exists i :: 0 <= i < 3 && items[i].Candidate? && items[i].name == Text(name))
    && (forall i :: 0 <= i < 3 ==> AnnouncedItem(services, files, items[i]))
    && items[0].bytes.number + items[1].bytes.number + items[2].bytes.number <= 4 * 1024 * 1024
    && "manifest.json" in files
    && var parsed := services.parse(files["manifest.json"]);
       parsed.Record? && parsed.id == Text("mdevolved-sync") && parsed.version == Text(services.version)
  }

  ghost predicate AsAnnounced(services: Services, files: map<string, Bytes>) {
    exists items :: Announced(services, files, items)
  }

  lemma {:induction false} TotalOfThree(assets: seq<Asset>)
    requires |assets| == 3
    ensures TotalBytes(assets) == assets[0].bytes + assets[1].bytes + assets[2].bytes
  {
    var two, one := assets[..2], assets[..1];
    assert two[..1] == one && one[..0] == [];
    assert TotalBytes(one) == one[0].bytes && TotalBytes(two) == TotalBytes(one) + two[1].bytes;
  }

  lemma {:induction false} VerifiedIsAnnounced(services: Services, assets: seq<Asset>, files: map<string, Bytes>)
    requires Verified(services, assets, files)
    ensures Announced(services, files, services.manifest.body.assets.items)
  {
    var items := services.manifest.body.assets.items;
    TotalOfThree(assets);
    forall i | 0 <= i < 3 ensures AnnouncedItem(services, files, items[i]) {
      assert Matches(services, assets[i]) && assets[i].name in files;
    }
    forall name <- files ensures exists i :: 0 <= i < 3 && items[i].Candidate? && items[i].name == Text(name) {
      var i :| 0 <= i < |assets| && assets[i].name == name;
      assert items[i].name == Text(name);
    }
  }

  lemma {:induction false} AnnouncedIsVerified(services: Services, files: map<string, Bytes>, items: seq<Candidate>)
    requires Announced(services, files, items)
    ensures exists assets :: Verified(services, assets, files)
  {
    forall i | 0 <= i < 3 ensures IsAsset(items[i]) {
      assert AnnouncedItem(services, files, items[i]);
    }
    var assets := seq(3, i requires 0 <= i < 3 => AssetOf(items[i]));
    TotalOfThree(assets);
    forall name ensures name in ASSET_NAMES <==> exists i :: 0 <= i < |assets| && assets[i].name == name {
      if name in ASSET_NAMES {
        assert name in files;
        var i :| 0 <= i < 3 && items[i].Candidate? && items[i].name == Text(name);
        assert assets[i].name == name;
      }
    }
    assert WellFormed(services.manifest.body, services.version, assets);
    forall i | 0 <= i < |assets|
      ensures Matches(services, assets[i]) && files[assets[i].name] == services.responses[assets[i].name].body
    {
      assert AnnouncedItem(services, files, items[i]);
    }
    assert Verified(services, assets, files);
  }

  /** loadVerifiedAssets: succeeds exactly when the fetched files are as announced, and returns them. */
  method LoadVerifiedAssets(services: Services) returns (r: Result<map<string, Bytes>, Failure>)
    ensures r.Ok? ==> exists assets :: Verified(services, assets, r.value)
    ensures r.Err? ==> AssetFailure(r.error)
    ensures r.Err? ==> forall assets, files :: !Verified(services, assets, files)
    ensures r.Ok? ==> AsAnnounced(services, r.value)
    ensures r.Err? ==> forall files :: !AsAnnounced(services, files)
  {
    forall files | AsAnnounced(services, files) ensures exists assets :: Verified(services, assets, files) {
      var items :| Announced(services, files, items);
      AnnouncedIsVerified(services, files, items);
    }
    match services.manifest
    case Dropped(name) => return Err(Failure.Platform(name));
    case NotOk => return Err(Installer("installer_asset_unavailable"));
    case Delivered(value) =>
      var parsed := ParseInstallerManifest(value, services.version);
      if parsed.Err? {
        return Err(parsed.error);
      }
      var fetched := FetchAssets(services, parsed.value);
      if fetched.Err? {
        forall some, other | Verified(services, some, other) ensures false {
          OneReading(value, services.version, parsed.value, some);
        }
        return fetched;
      }
      var files := fetched.value;
      FetchedIsVerified(services, parsed.value, files);
      if !IdentityFits(services, files["manifest.json"]) {
        forall some, other | Verified(services, some, other) ensures false {
          VerifiedIsFetched(services, parsed.value, files, some, other);
        }
        return Err(Installer("installer_asset_mismatch"));
      }
      assert Verified(services, parsed.value, files);
      VerifiedIsAnnounced(services, parsed.value, files);
      r := Ok(files);
  }

  // ---- The enabled-plugin list -------------------------------------------------------------

  /** Each entry once, where it first occurs. */
  function Distinct(list: seq<string>): seq<string> {
    if list == [] then [] else
    var rest := Distinct(list[..|list| - 1]);
    if list[|list| - 1] in rest then rest else rest + [list[|list| - 1]]
  }

  predicate AreNames(entries: seq<Value>) {
    forall i :: 0 <= i < |entries| ==> entries[i].Text? && entries[i].text != ""
  }

  function Texts(entries: seq<Value>): seq<string>
    requires AreNames(entries)
  {
    seq(|entries|, i requires 0 <= i < |entries| => entries[i].text)
  }

  function ParseEnabledPlugins(services: Services, bytes: Option<Bytes>): Result<seq<string>, Failure> {
    match bytes
    case None => Ok([])
    case Some(b) =>
      match services.parse(b)
      case Entries(entries) =>
        if AreNames(entries) then Ok(Distinct(Texts(entries))) else Err(Installer("invalid_enabled_plugins"))
      case _ => Err(Installer("invalid_enabled_plugins"))
  }

  /** The parsed file is a JSON list of these non-empty strings. */
  ghost predicate IsNameList(json: FileJson, names: seq<string>) {
    && json.Entries? && |json.entries| == |names|
    && forall i :: 0 <= i < |names| ==> names[i] != "" && json.entries[i] == Text(names[i])
  }

  ghost predicate FirstAt(names: seq<string>, x: string, k: int) {
    0 <= k < |names| && names[k] == x && forall m :: 0 <= m < k ==> names[m] != x
  }

  ghost predicate NoRepeats(list: seq<string>) {
    forall i, j :: 0 <= i < j < |list| ==> list[i] != list[j]
  }

  /** The same entries, each once, in the order in which they first occur. */
  ghost predicate FirstOccurrences(names: seq<string>, list: seq<string>) {
    && (forall x :: x in list <==> x in names)
    && (forall i, j, k, l :: 0 <= i < j < |list| && FirstAt(names, list[i], k) && FirstAt(names, list[j], l) ==> k < l)
    && NoRepeats(list)
  }

  lemma {:induction false} FirstIn(names: seq<string>, x: string) returns (k: int)
    requires x in names
    ensures FirstAt(names, x, k)
  {
    var n := |names| - 1;
    if x in names[..n] {
      k := FirstIn(names[..n], x);
      assert forall m :: 0 <= m < k ==> names[m] == names[..n][m];
    } else {
      k := n;
      assert forall m :: 0 <= m < k ==> names[m] == names[..n][m];
    }
  }

  lemma {:induction false} FirstInPrefix(names: seq<string>, n: nat, x: string, k: int)
    requires n < |names| && x in names[..n] && FirstAt(names, x, k)
    ensures FirstAt(names[..n], x, k)
  {
    var l :| 0 <= l < n && names[..n][l] == x;
    assert names[l] == x;
    assert k <= l;
  }

  lemma {:induction false} PlaceInPrefix(names: seq<string>, n: nat, m: nat)
    requires m < n <= |names|
    ensures names[m] in names[..n]
  {
    assert names[..n][m] == names[m];
  }

  lemma {:induction false} OrderOfMore(names: seq<string>, i: int, j: int, k: int, l: int)
    requires names != [] && FirstOccurrences(names[..|names| - 1], Distinct(names[..|names| - 1]))
    requires 0 <= i < j < |Distinct(names)|
    requires FirstAt(names, Distinct(names)[i], k) && FirstAt(names, Distinct(names)[j], l)
    ensures k < l
  {
    var n := |names| - 1;
    var list, rest := Distinct(names), Distinct(names[..n]);
    assert list[i] == rest[i] && rest[i] in rest;
    FirstInPrefix(names, n, list[i], k);
    if j < |rest| {
      assert list[j] == rest[j] && rest[j] in rest;
      FirstInPrefix(names, n, list[j], l);
    } else {
      assert list[j] == names[n] && names[n] !in names[..n];
      forall m | 0 <= m < n ensures names[m] in names[..n] {
        PlaceInPrefix(names, n, m);
      }
    }
  }

  /** Reading drops repetitions only: the same entries, each once, and a list without any is kept as it is. */
  lemma {:induction false} DistinctKeepsEntries(list: seq<string>)
    ensures NoRepeats(Distinct(list))
    ensures forall x :: x in Distinct(list) <==> x in list
    ensures NoRepeats(list) ==> Distinct(list) == list
  {
    if list != [] {
      var n := |list| - 1;
      DistinctKeepsEntries(list[..n]);
      assert list == list[..n] + [list[n]];
    }
  }

  lemma {:induction false} DistinctKeepsOrder(names: seq<string>)
    ensures FirstOccurrences(names, Distinct(names))
  {
    DistinctKeepsEntries(names);
    if names != [] {
      var n, list := |names| - 1, Distinct(names);
      DistinctKeepsOrder(names[..n]);
      forall i, j, k, l | 0 <= i < j < |list| && FirstAt(names, list[i], k) && FirstAt(names, list[j], l)
        ensures k < l
      {
        OrderOfMore(names, i, j, k, l);
      }
    }
  }

  lemma {:induction false} NameListIff(entries: seq<Value>, names: seq<string>)
    ensures IsNameList(Entries(entries), names) <==> AreNames(entries) && Texts(entries) == names
  {
    if IsNameList(Entries(entries), names) {
      assert AreNames(entries);
      assert Texts(entries) == names;
    }
  }

  /**
   * The list of enabled plugins is read exactly from a missing file or a JSON list of non-empty
   * strings, and keeps each of them once in its order; anything else is refused.
   */
  lemma {:induction false} ParseEnabledIff(services: Services, bytes: Option<Bytes>)
    ensures var r := ParseEnabledPlugins(services, bytes);
            && (bytes.None? ==> r == Ok([]))
            && (bytes.Some? ==> (r.Ok? <==> exists names :: IsNameList(services.parse(bytes.value), names)))
            && (r.Err? ==> r.error == Installer("invalid_enabled_plugins"))
            && (bytes.Some? && r.Ok? ==>
                  exists names :: IsNameList(services.parse(bytes.value), names) && FirstOccurrences(names, r.value))
  {
    if bytes.Some? && services.parse(bytes.value).Entries? {
      var entries := services.parse(bytes.value).entries;
      if AreNames(entries) {
        NameListIff(entries, Texts(entries));
        DistinctKeepsOrder(Texts(entries));
      }
      if names :| IsNameList(Entries(entries), names) {
        NameListIff(entries, names);
      }
    }
  }

  function WithPlugin(enabled: seq<string>): seq<string> {
    if PLUGIN_ID in enabled then enabled else enabled + [PLUGIN_ID]
  }

  /** JSON text of a list of names parses back to that list. */
  ghost predicate JsonRoundTrips(services: Services) {
    forall list: seq<string> ::
      services.parse(services.stringify(list)) == Entries(seq(|list|, i requires 0 <= i < |list| => Text(list[i])))
  }

  predicate NoEmptyName(list: seq<string>) {
    forall i :: 0 <= i < |list| ==> list[i] != ""
  }

  lemma {:induction false} ReadListIsClean(services: Services, bytes: Option<Bytes>)
    requires ParseEnabledPlugins(services, bytes).Ok?
    ensures var list := ParseEnabledPlugins(services, bytes).value; NoRepeats(list) && NoEmptyName(list)
  {
    if bytes.Some? {
      var texts := Texts(services.parse(bytes.value).entries);
      DistinctKeepsEntries(texts);
      var list := Distinct(texts);
      forall i | 0 <= i < |list| ensures list[i] != "" {
        assert list[i] in texts;
      }
    }
  }

  /** What is read back from a list without repetitions and empty names is that list. */
  lemma {:induction false} WrittenListReadsBack(services: Services, list: seq<string>)
    requires JsonRoundTrips(services) && NoRepeats(list) && NoEmptyName(list)
    ensures ParseEnabledPlugins(services, Some(services.stringify(list))) == Ok(list)
  {
    DistinctKeepsEntries(list);
    var entries := seq(|list|, i requires 0 <= i < |list| => Text(list[i]));
    assert services.parse(services.stringify(list)) == Entries(entries);
    assert Texts(entries) == list;
  }

  /** Installing again finds the list it wrote: every old plugin once, in order, and this one. */
  lemma {:induction false} ListSurvivesReinstall(services: Services, bytes: Option<Bytes>)
    requires JsonRoundTrips(services) && ParseEnabledPlugins(services, bytes).Ok?
    ensures var before := ParseEnabledPlugins(services, bytes).value; var after := WithPlugin(before);
            && before <= after && NoRepeats(after) && PLUGIN_ID in after
            && (forall x :: x in after ==> x in before || x == PLUGIN_ID)
            && ParseEnabledPlugins(services, Some(services.stringify(after))) == Ok(after)
            && WithPlugin(after) == after
            && (bytes.Some? ==> exists names ::
                  IsNameList(services.parse(bytes.value), names) && FirstOccurrences(names, before))
            && (bytes.None? ==> before == [])
  {
    ParseEnabledIff(services, bytes);
    ReadListIsClean(services, bytes);
    WrittenListReadsBack(services, WithPlugin(ParseEnabledPlugins(services, bytes).value));
  }
}
