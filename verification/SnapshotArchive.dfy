/**
 * The snapshot inspector: one encrypted manifest, one encrypted part per content object, an exact
 * inventory of both, and no entry handed out before every part has been decrypted and checked.
 * JSON with its schemas, SHA-256 and age decryption under the given identity are parameters.
 */
module SnapshotArchive {
  import opened Common
  import R = ByteReader
  import P = PortableIndex

  const MAX_ENCRYPTED_MANIFEST_BYTES: nat := 8 * 1024 * 1024
  const MAX_DECRYPTED_MANIFEST_BYTES: nat := 5 * 1024 * 1024
  const MAX_AGE_OBJECT_OVERHEAD_BYTES: nat := 64 * 1024
  const MAX_SNAPSHOT_ITEMS: nat := 5000

  datatype Section = Notes | Attachments | ObsidianAllowlist

  /** What a manifest declares about one stored object. */
  datatype Descriptor = Descriptor(portableObjectId: Id, byteLength: nat, contentSha256: string)

  datatype Object = Object(descriptor: Descriptor, section: Section)

  datatype Entry = Entry(descriptor: Descriptor, section: Section, path: string)

  datatype Vault = Vault(snapshotVaultId: Id, entries: seq<Entry>)

  datatype IntelligenceSection = IntelligenceSection(records: seq<Descriptor>, evidenceObjects: seq<Descriptor>)

  datatype Intelligence = Intelligence(
    selection: P.Selection,
    approved: Option<IntelligenceSection>,
    unvetted: Option<IntelligenceSection>)

  datatype Manifest = Manifest(
    snapshotId: Id,
    requiredCapabilities: seq<string>,
    objects: seq<Object>,
    intelligence: Option<Intelligence>,
    vaults: seq<Vault>)

  datatype Codec = Codec(
    index: P.Codec,
    parse: string -> Option<Manifest>,
    sha256Hex: Bytes -> string,
    decrypt: Bytes -> R.Decryption)

  datatype Kind = ContentObject | IntelligenceObject

  datatype Failure =
    | BadPortableIndex(failure: P.Failure)
    | BadManifestPart
    | BadKey
    | WrongKey
    | Unreadable(stream: P.StreamFailure)
    | NotText
    | BadManifest
    | IdentityMismatch
    | NeedsNewerVersion(unsupported: seq<string>)
    | InventoryIncomplete
    | PartMissing(kind: Kind)
    | PartOversized(kind: Kind)
    | ChecksumFailed(kind: Kind)
    | TooManyItems
    | EntryIncomplete
    | Refused(index: nat)

  /** An entry in the context of its vault. */
  datatype Item = Item(entry: Entry, vault: Vault)

  /** One call of the entry callback. */
  datatype Delivery = Delivery(item: Item, bytes: Bytes, index: nat, total: nat)

  datatype Inspected = Inspected(index: P.Index, intelligenceObjects: map<Id, Bytes>, manifest: Manifest)

  type Verdict = (Result<Inspected, Failure>, seq<Delivery>)

  // ---- Parts of a manifest ----

  function ItemsOf(vault: Vault): (items: seq<Item>)
    ensures |items| == |vault.entries|
    ensures forall i :: 0 <= i < |items| ==> items[i] == Item(vault.entries[i], vault)
  {
    seq(|vault.entries|, i requires 0 <= i < |vault.entries| => Item(vault.entries[i], vault))
  }

  /** All entries, vault by vault. */
  function AllItems(vaults: seq<Vault>): (items: seq<Item>)
    ensures forall item <- items :: exists vault <- vaults :: item.vault == vault && item.entry in vault.entries
  {
    if vaults == [] then []
    else
      var first, rest := ItemsOf(vaults[0]), AllItems(vaults[1..]);
      assert forall item <- first :: item.vault == vaults[0] && item.entry in vaults[0].entries;
      first + rest
  }

  /** How many entries the first `n` vaults have. */
  function EntryCount(vaults: seq<Vault>, n: nat): nat
    requires n <= |vaults|
  {
    if n == 0 then 0 else EntryCount(vaults, n - 1) + |vaults[n - 1].entries|
  }

  lemma {:induction false} CountOfRest(vaults: seq<Vault>, n: nat)
    requires 0 < n <= |vaults|
    ensures EntryCount(vaults, n) == |vaults[0].entries| + EntryCount(vaults[1..], n - 1)
  {
    if n > 1 {
      CountOfRest(vaults, n - 1);
      assert vaults[1..][n - 2] == vaults[n - 1];
    }
  }

  lemma {:induction false} ItemsAreCounted(vaults: seq<Vault>)
    ensures |AllItems(vaults)| == EntryCount(vaults, |vaults|)
  {
    if vaults != [] {
      ItemsAreCounted(vaults[1..]);
      CountOfRest(vaults, |vaults|);
    }
  }

  function Descriptors(section: Option<IntelligenceSection>): seq<Descriptor> {
    match section
    case None => []
    case Some(s) => s.records + s.evidenceObjects
  }

  function IntelligenceDescriptors(m: Manifest): seq<Descriptor> {
    match m.intelligence
    case None => []
    case Some(i) => Descriptors(i.approved) + Descriptors(i.unvetted)
  }

  function ContentDescriptors(m: Manifest): seq<Descriptor> {
    seq(|m.objects|, i requires 0 <= i < |m.objects| => m.objects[i].descriptor)
  }

  function SelectionOf(m: Manifest): P.Selection {
    match m.intelligence
    case None => P.NoIntelligence
    case Some(i) => i.selection
  }

  predicate Backs(stored: Object, entry: Entry) {
    stored.descriptor == entry.descriptor && stored.section == entry.section
  }

  /** What the schema asks of a manifest beyond its shape, as far as the inspector relies on it. */
  predicate WellFormed(m: Manifest) {
    && (forall i, j :: 0 <= i < j < |m.objects| ==>
          m.objects[i].descriptor.portableObjectId != m.objects[j].descriptor.portableObjectId)
    && (forall vault <- m.vaults :: forall entry <- vault.entries ::
          exists stored <- m.objects :: Backs(stored, entry))
    && |AllItems(m.vaults)| <= MAX_SNAPSHOT_ITEMS
  }

  // ---- Decrypting ----

  /** What decrypting a ciphertext under a bound on its plaintext gives. */
  function Opened(codec: Codec, ciphertext: Bytes, maxBytes: nat): Result<Bytes, Failure> {
    match codec.decrypt(ciphertext)
    case KeyInvalid => Err(BadKey)
    case CannotOpen => Err(WrongKey)
    case Plaintext(chunks, breaksOff) =>
      match P.Bounded(Flatten(chunks), breaksOff, maxBytes)
      case Ok(bytes) => Ok(bytes)
      case Err(f) => Err(Unreadable(f))
  }

  method DecryptPart(codec: Codec, file: Bytes, part: P.LocatedPart, maxBytes: nat) returns (r: Result<Bytes, Failure>)
    ensures r == Opened(codec, P.Slice(file, part), maxBytes)
  {
    var decrypted := codec.decrypt(P.Slice(file, part));
    match decrypted
    case KeyInvalid => return Err(BadKey);
    case CannotOpen => return Err(WrongKey);
    case Plaintext(chunks, breaksOff) =>
      var bytes := P.ReadBoundedStream(chunks, breaksOff, maxBytes);
      match bytes
      case Ok(value) => return Ok(value);
      case Err(f) => return Err(Unreadable(f));
  }

  // ---- The manifest ----

  predicate ManifestLocated(p: P.Portable) {
    && p.index.parts != []
    && p.index.parts[0].portableObjectId in p.parts
    && var located := p.parts[p.index.parts[0].portableObjectId];
       located.part.role == P.ManifestPart && located.part.ciphertextBytes <= MAX_ENCRYPTED_MANIFEST_BYTES
  }

  function ReadManifest(codec: Codec, bytes: Bytes, snapshotId: Id): Result<Manifest, Failure> {
    match DecodeText(codec.index.utf8, bytes)
    case None => Err(NotText)
    case Some(text) =>
      match codec.parse(text)
      case None => Err(BadManifest)
      case Some(m) =>
        if !WellFormed(m) then Err(BadManifest)
        else if m.snapshotId != snapshotId then Err(IdentityMismatch)
        else
          var unsupported := P.Unsupported(codec.index.supported, m.requiredCapabilities);
          if unsupported != [] then Err(NeedsNewerVersion(unsupported)) else Ok(m)
  }

  function OpenManifest(codec: Codec, file: Bytes, p: P.Portable): Result<Manifest, Failure> {
    if !ManifestLocated(p) then Err(BadManifestPart)
    else
      match Opened(codec, P.Slice(file, p.parts[p.index.parts[0].portableObjectId]), MAX_DECRYPTED_MANIFEST_BYTES)
      case Err(f) => Err(f)
      case Ok(bytes) => ReadManifest(codec, bytes, p.index.snapshotId)
  }

  // ---- The inventory ----

  function ContentPartIds(parts: seq<P.Part>): set<Id> {
    set part | part in parts && part.role == P.ContentPart :: part.portableObjectId
  }

  function IdsOf(ds: seq<Descriptor>): set<Id> {
    set d | d in ds :: d.portableObjectId
  }

  function ExpectedIds(m: Manifest): set<Id> {
    IdsOf(ContentDescriptors(m)) + IdsOf(IntelligenceDescriptors(m))
  }

  predicate SelectionAgrees(index: P.Index, m: Manifest) {
    index.intelligenceSelection.Some? ==> index.intelligenceSelection.value == SelectionOf(m)
  }

  /** The check as it is made: equal sizes, inclusion one way round, the same selection. */
  predicate InventoryPasses(index: P.Index, m: Manifest) {
    && |ContentPartIds(index.parts)| == |ExpectedIds(m)|
    && (forall id <- ExpectedIds(m) :: id in ContentPartIds(index.parts))
    && SelectionAgrees(index, m)
  }

  lemma {:induction false} SubsetIsSmaller<T>(a: set<T>, b: set<T>)
    requires a <= b
    ensures |a| <= |b|
  {
    if a != {} {
      var x :| x in a;
      SubsetIsSmaller(a - {x}, b - {x});
    }
  }

  /** Equal size plus inclusion is equality: nothing is missing and nothing is left over. */
  lemma {:induction false} SameSizeSubset<T>(a: set<T>, b: set<T>)
    requires a <= b && |a| == |b|
    ensures a == b
  {
    if a != b {
      var extra :| extra in b && extra !in a;
      assert a <= b - {extra};
      SubsetIsSmaller(a, b - {extra});
    }
  }

  lemma {:induction false} InventoryIsExact(index: P.Index, m: Manifest)
    ensures InventoryPasses(index, m) <==> ContentPartIds(index.parts) == ExpectedIds(m) && SelectionAgrees(index, m)
  {
    if InventoryPasses(index, m) {
      SameSizeSubset(ExpectedIds(m), ContentPartIds(index.parts));
    }
  }

  // ---- Checking every object ----

  function Checked(codec: Codec, file: Bytes, parts: map<Id, P.LocatedPart>, kind: Kind, d: Descriptor)
    : Result<Bytes, Failure>
  {
    if d.portableObjectId !in parts || parts[d.portableObjectId].part.role != P.ContentPart then
      Err(PartMissing(kind))
    else if parts[d.portableObjectId].part.ciphertextBytes > d.byteLength + MAX_AGE_OBJECT_OVERHEAD_BYTES then
      Err(PartOversized(kind))
    else
      match Opened(codec, P.Slice(file, parts[d.portableObjectId]), d.byteLength)
      case Err(f) => Err(f)
      case Ok(bytes) =>
        if |bytes| != d.byteLength || codec.sha256Hex(bytes) != d.contentSha256 then Err(ChecksumFailed(kind))
        else Ok(bytes)
  }

  /** The map after the first `n` objects, or the first failure among them. */
  function Verified(
      codec: Codec, file: Bytes, parts: map<Id, P.LocatedPart>, kind: Kind, ds: seq<Descriptor>, n: nat)
    : Result<map<Id, Bytes>, Failure>
    requires n <= |ds|
  {
    if n == 0 then Ok(map[])
    else
      match Verified(codec, file, parts, kind, ds, n - 1)
      case Err(f) => Err(f)
      case Ok(done) =>
        match Checked(codec, file, parts, kind, ds[n - 1])
        case Err(f) => Err(f)
        case Ok(bytes) => Ok(done[ds[n - 1].portableObjectId := bytes])
  }

  lemma {:induction false} FailureSticks(
      codec: Codec, file: Bytes, parts: map<Id, P.LocatedPart>, kind: Kind, ds: seq<Descriptor>, i: nat, n: nat)
    requires i <= n <= |ds| && Verified(codec, file, parts, kind, ds, i).Err?
    ensures Verified(codec, file, parts, kind, ds, n) == Verified(codec, file, parts, kind, ds, i)
  {
    if i < n {
      FailureSticks(codec, file, parts, kind, ds, i, n - 1);
    }
  }

  method CheckObject(codec: Codec, file: Bytes, parts: map<Id, P.LocatedPart>, kind: Kind, d: Descriptor)
    returns (r: Result<Bytes, Failure>)
    ensures r == Checked(codec, file, parts, kind, d)
  {
    if d.portableObjectId !in parts || parts[d.portableObjectId].part.role != P.ContentPart {
      return Err(PartMissing(kind));
    }
    var part := parts[d.portableObjectId];
    if part.part.ciphertextBytes > d.byteLength + MAX_AGE_OBJECT_OVERHEAD_BYTES {
      return Err(PartOversized(kind));
    }
    var bytes := DecryptPart(codec, file, part, d.byteLength);
    if bytes.Err? {
      return Err(bytes.error);
    }
    if |bytes.value| != d.byteLength || codec.sha256Hex(bytes.value) != d.contentSha256 {
      return Err(ChecksumFailed(kind));
    }
    return Ok(bytes.value);
  }

  lemma {:induction false} ObjectPasses(
      codec: Codec, file: Bytes, parts: map<Id, P.LocatedPart>, kind: Kind, ds: seq<Descriptor>, i: nat,
      done: map<Id, Bytes>, bytes: Bytes)
    requires i < |ds| && Verified(codec, file, parts, kind, ds, i) == Ok(done)
    requires Checked(codec, file, parts, kind, ds[i]) == Ok(bytes)
    ensures Verified(codec, file, parts, kind, ds, i + 1) == Ok(done[ds[i].portableObjectId := bytes])
  {
  }

  lemma {:induction false} ObjectFails(
      codec: Codec, file: Bytes, parts: map<Id, P.LocatedPart>, kind: Kind, ds: seq<Descriptor>, i: nat,
      done: map<Id, Bytes>, f: Failure)
    requires i < |ds| && Verified(codec, file, parts, kind, ds, i) == Ok(done)
    requires Checked(codec, file, parts, kind, ds[i]) == Err(f)
    ensures Verified(codec, file, parts, kind, ds, |ds|) == Err(f)
  {
    FailureSticks(codec, file, parts, kind, ds, i + 1, |ds|);
  }

  method VerifyObjects(codec: Codec, file: Bytes, parts: map<Id, P.LocatedPart>, kind: Kind, ds: seq<Descriptor>)
    returns (r: Result<map<Id, Bytes>, Failure>)
    ensures r == Verified(codec, file, parts, kind, ds, |ds|)
  {
    var verified: map<Id, Bytes> := map[];
    var i := 0;
    while i < |ds|
      invariant 0 <= i <= |ds|
      invariant Verified(codec, file, parts, kind, ds, i) == Ok(verified)
    {
      var bytes := CheckObject(codec, file, parts, kind, ds[i]);
      if bytes.Err? {
        ObjectFails(codec, file, parts, kind, ds, i, verified, bytes.error);
        return Err(bytes.error);
      }
      ObjectPasses(codec, file, parts, kind, ds, i, verified, bytes.value);
      verified := verified[ds[i].portableObjectId := bytes.value];
      i := i + 1;
    }
    return Ok(verified);
  }

  // ---- Handing out the entries ----

  /** A repeated id would keep its last object. */
  function ObjectMap(objects: seq<Object>, n: nat): map<Id, Object>
    requires n <= |objects|
  {
    if n == 0 then map[]
    else ObjectMap(objects, n - 1)[objects[n - 1].descriptor.portableObjectId := objects[n - 1]]
  }

  predicate Complete(objects: map<Id, Object>, verified: map<Id, Bytes>, entry: Entry) {
    var id := entry.descriptor.portableObjectId;
    id in objects && id in verified && objects[id].section == entry.section
  }

  function Deliver(
      objects: map<Id, Object>, verified: map<Id, Bytes>, items: seq<Item>, i: nat, accepts: nat -> bool)
    : (Result<(), Failure>, seq<Delivery>)
    requires i <= |items|
    decreases |items| - i
  {
    if i == |items| then (Ok(()), [])
    else if !Complete(objects, verified, items[i].entry) then (Err(EntryIncomplete), [])
    else
      var d := Delivery(items[i], verified[items[i].entry.descriptor.portableObjectId], i, |items|);
      if !accepts(i) then (Err(Refused(i)), [d])
      else
        var (r, more) := Deliver(objects, verified, items, i + 1, accepts);
        (r, [d] + more)
  }

  method DeliverEntries(objects: map<Id, Object>, verified: map<Id, Bytes>, items: seq<Item>, accepts: nat -> bool)
    returns (result: Result<(), Failure>, delivered: seq<Delivery>)
    ensures (result, delivered) == Deliver(objects, verified, items, 0, accepts)
  {
    ghost var whole := Deliver(objects, verified, items, 0, accepts);
    delivered := [];
    var index := 0;
    while index < |items|
      invariant 0 <= index <= |items|
      invariant whole.0 == Deliver(objects, verified, items, index, accepts).0
      invariant whole.1 == delivered + Deliver(objects, verified, items, index, accepts).1
    {
      assert delivered + [] == delivered;
      var item := items[index];
      if !Complete(objects, verified, item.entry) {
        return Err(EntryIncomplete), delivered;
      }
      delivered := delivered + [Delivery(item, verified[item.entry.descriptor.portableObjectId], index, |items|)];
      if !accepts(index) {
        return Err(Refused(index)), delivered;
      }
      index := index + 1;
    }
    return Ok(()), delivered;
  }

  // ---- The inspector ----

  function InspectContents(codec: Codec, file: Bytes, p: P.Portable, m: Manifest, accepts: nat -> bool): Verdict {
    var contents, records := ContentDescriptors(m), IntelligenceDescriptors(m);
    if !InventoryPasses(p.index, m) then (Err(InventoryIncomplete), [])
    else
      match Verified(codec, file, p.parts, ContentObject, contents, |contents|)
      case Err(f) => (Err(f), [])
      case Ok(verified) =>
        match Verified(codec, file, p.parts, IntelligenceObject, records, |records|)
        case Err(f) => (Err(f), [])
        case Ok(intelligence) =>
          var items := AllItems(m.vaults);
          if |items| > MAX_SNAPSHOT_ITEMS then (Err(TooManyItems), [])
          else
            var (r, delivered) := Deliver(ObjectMap(m.objects, |m.objects|), verified, items, 0, accepts);
            (match r case Ok(_) => Ok(Inspected(p.index, intelligence, m)) case Err(f) => Err(f), delivered)
  }

  function Inspect(codec: Codec, file: Bytes, accepts: nat -> bool): Verdict {
    match P.Parse(codec.index, file)
    case Err(f) => (Err(BadPortableIndex(f)), [])
    case Ok(p) =>
      match OpenManifest(codec, file, p)
      case Err(f) => (Err(f), [])
      case Ok(m) => InspectContents(codec, file, p, m, accepts)
  }

  method ReadContents(codec: Codec, file: Bytes, p: P.Portable, m: Manifest, accepts: nat -> bool)
    returns (result: Result<Inspected, Failure>, delivered: seq<Delivery>)
    ensures (result, delivered) == InspectContents(codec, file, p, m, accepts)
  {
    if !InventoryPasses(p.index, m) {
      return Err(InventoryIncomplete), [];
    }
    var verified := VerifyObjects(codec, file, p.parts, ContentObject, ContentDescriptors(m));
    if verified.Err? {
      return Err(verified.error), [];
    }
    var intelligence := VerifyObjects(codec, file, p.parts, IntelligenceObject, IntelligenceDescriptors(m));
    if intelligence.Err? {
      return Err(intelligence.error), [];
    }
    var items := AllItems(m.vaults);
    if |items| > MAX_SNAPSHOT_ITEMS {
      return Err(TooManyItems), [];
    }
    var handed;
    handed, delivered := DeliverEntries(ObjectMap(m.objects, |m.objects|), verified.value, items, accepts);
    result := match handed case Ok(_) => Ok(Inspected(p.index, intelligence.value, m)) case Err(f) => Err(f);
  }

  method InspectSnapshotArchive(codec: Codec, file: Bytes, accepts: nat -> bool)
    returns (result: Result<Inspected, Failure>, delivered: seq<Delivery>)
    ensures (result, delivered) == Inspect(codec, file, accepts)
  {
    var portable := P.ParsePortableIndex(codec.index, file);
    if portable.Err? {
      return Err(BadPortableIndex(portable.error)), [];
    }
    var p := portable.value;
    if !ManifestLocated(p) {
      return Err(BadManifestPart), [];
    }
    var located := p.parts[p.index.parts[0].portableObjectId];
    var bytes := DecryptPart(codec, file, located, MAX_DECRYPTED_MANIFEST_BYTES);
    if bytes.Err? {
      return Err(bytes.error), [];
    }
    var manifest := ReadManifest(codec, bytes.value, p.index.snapshotId);
    if manifest.Err? {
      return Err(manifest.error), [];
    }
    result, delivered := ReadContents(codec, file, p, manifest.value, accepts);
  }

  // ---- What acceptance means ----

  /** The ciphertext decrypts completely, and to these bytes. */
  predicate DecryptsTo(codec: Codec, ciphertext: Bytes, bytes: Bytes) {
    match codec.decrypt(ciphertext)
    case Plaintext(chunks, breaksOff) => Flatten(chunks) == bytes && !breaksOff
    case _ => false
  }

  /** These bytes are what the part under the descriptor's id decrypts to, and they are as declared. */
  ghost predicate Authentic(codec: Codec, file: Bytes, parts: map<Id, P.LocatedPart>, d: Descriptor, bytes: Bytes) {
    && d.portableObjectId in parts
    && parts[d.portableObjectId].part.role == P.ContentPart
    && parts[d.portableObjectId].part.ciphertextBytes <= d.byteLength + MAX_AGE_OBJECT_OVERHEAD_BYTES
    && DecryptsTo(codec, P.Slice(file, parts[d.portableObjectId]), bytes)
    && |bytes| == d.byteLength
    && codec.sha256Hex(bytes) == d.contentSha256
  }

  lemma {:induction false} CheckedIff(
      codec: Codec, file: Bytes, parts: map<Id, P.LocatedPart>, kind: Kind, d: Descriptor, bytes: Bytes)
    ensures Checked(codec, file, parts, kind, d) == Ok(bytes) <==> Authentic(codec, file, parts, d, bytes)
  {
  }

  ghost predicate AllAuthentic(codec: Codec, file: Bytes, parts: map<Id, P.LocatedPart>, ds: seq<Descriptor>) {
    forall d <- ds :: exists bytes :: Authentic(codec, file, parts, d, bytes)
  }

  ghost predicate LastOf(ds: seq<Descriptor>, n: nat, i: int, id: Id)
    requires n <= |ds|
  {
    && 0 <= i < n
    && ds[i].portableObjectId == id
    && forall j :: i < j < n ==> ds[j].portableObjectId != id
  }

  /** A map from ids to bytes, each authentic for the last descriptor of that id. */
  ghost predicate Holds(
      codec: Codec, file: Bytes, parts: map<Id, P.LocatedPart>, ds: seq<Descriptor>, n: nat, store: map<Id, Bytes>)
    requires n <= |ds|
  {
    && (forall i :: 0 <= i < n ==> ds[i].portableObjectId in store)
    && (forall id <- store :: exists i :: LastOf(ds, n, i, id) && Authentic(codec, file, parts, ds[i], store[id]))
  }

  lemma {:induction false} LastStays(ds: seq<Descriptor>, n: nat, i: int, id: Id)
    requires 0 < n <= |ds| && LastOf(ds, n - 1, i, id) && ds[n - 1].portableObjectId != id
    ensures LastOf(ds, n, i, id)
  {
  }

  lemma {:induction false} OneMoreHolds(
      codec: Codec, file: Bytes, parts: map<Id, P.LocatedPart>, ds: seq<Descriptor>, n: nat,
      store: map<Id, Bytes>, bytes: Bytes)
    requires 0 < n <= |ds| && Holds(codec, file, parts, ds, n - 1, store)
    requires Authentic(codec, file, parts, ds[n - 1], bytes)
    ensures Holds(codec, file, parts, ds, n, store[ds[n - 1].portableObjectId := bytes])
  {
    var more := store[ds[n - 1].portableObjectId := bytes];
    forall id <- more
      ensures exists i :: LastOf(ds, n, i, id) && Authentic(codec, file, parts, ds[i], more[id])
    {
      if id == ds[n - 1].portableObjectId {
        assert LastOf(ds, n, n - 1, id);
      } else {
        var i :| LastOf(ds, n - 1, i, id) && Authentic(codec, file, parts, ds[i], store[id]);
        LastStays(ds, n, i, id);
      }
    }
  }

  lemma {:induction false} VerifiedHolds(
      codec: Codec, file: Bytes, parts: map<Id, P.LocatedPart>, kind: Kind, ds: seq<Descriptor>, n: nat)
    requires n <= |ds| && Verified(codec, file, parts, kind, ds, n).Ok?
    ensures Holds(codec, file, parts, ds, n, Verified(codec, file, parts, kind, ds, n).value)
  {
    if n > 0 {
      VerifiedHolds(codec, file, parts, kind, ds, n - 1);
      var bytes := Checked(codec, file, parts, kind, ds[n - 1]).value;
      CheckedIff(codec, file, parts, kind, ds[n - 1], bytes);
      OneMoreHolds(codec, file, parts, ds, n, Verified(codec, file, parts, kind, ds, n - 1).value, bytes);
    }
  }

  lemma {:induction false} VerifiedMeansAuthentic(
      codec: Codec, file: Bytes, parts: map<Id, P.LocatedPart>, kind: Kind, ds: seq<Descriptor>, n: nat)
    requires n <= |ds| && Verified(codec, file, parts, kind, ds, n).Ok?
    ensures AllAuthentic(codec, file, parts, ds[..n])
  {
    if n > 0 {
      VerifiedMeansAuthentic(codec, file, parts, kind, ds, n - 1);
      CheckedIff(codec, file, parts, kind, ds[n - 1], Checked(codec, file, parts, kind, ds[n - 1]).value);
      assert ds[..n] == ds[..n - 1] + [ds[n - 1]];
    }
  }

  lemma {:induction false} AuthenticVerifies(
      codec: Codec, file: Bytes, parts: map<Id, P.LocatedPart>, kind: Kind, ds: seq<Descriptor>, n: nat)
    requires n <= |ds| && AllAuthentic(codec, file, parts, ds)
    ensures Verified(codec, file, parts, kind, ds, n).Ok?
  {
    if n > 0 {
      AuthenticVerifies(codec, file, parts, kind, ds, n - 1);
      assert ds[n - 1] in ds;
      var bytes :| Authentic(codec, file, parts, ds[n - 1], bytes);
      CheckedIff(codec, file, parts, kind, ds[n - 1], bytes);
    }
  }

  /** The plaintext is the JSON of a well-formed manifest of this snapshot that this version understands. */
  ghost predicate IsManifest(codec: Codec, bytes: Bytes, snapshotId: Id, m: Manifest) {
    && DecodeText(codec.index.utf8, bytes).Some?
    && codec.parse(DecodeText(codec.index.utf8, bytes).value) == Some(m)
    && m.snapshotId == snapshotId
    && (forall i, j :: 0 <= i < j < |m.objects| ==>
          m.objects[i].descriptor.portableObjectId != m.objects[j].descriptor.portableObjectId)
    && (forall vault <- m.vaults :: forall entry <- vault.entries :: exists stored <- m.objects ::
          stored.descriptor == entry.descriptor && stored.section == entry.section)
    && EntryCount(m.vaults, |m.vaults|) <= 5000
    && forall c <- m.requiredCapabilities :: c in codec.index.supported
  }

  /**
   * The first part is the manifest: at most eight mebibytes that decrypt completely to at most five,
   * and these are the manifest `m`.
   */
  ghost predicate ManifestIs(codec: Codec, file: Bytes, p: P.Portable, m: Manifest) {
    && p.index.parts != [] && p.index.parts[0].portableObjectId in p.parts
    && var located := p.parts[p.index.parts[0].portableObjectId];
       && located.part.role == P.ManifestPart
       && located.part.ciphertextBytes <= 8 * 1024 * 1024
       && exists bytes ::
            && DecryptsTo(codec, P.Slice(file, located), bytes)
            && |bytes| <= 5 * 1024 * 1024
            && IsManifest(codec, bytes, p.index.snapshotId, m)
  }

  lemma {:induction false} OpenedIff(codec: Codec, ciphertext: Bytes, maxBytes: nat, bytes: Bytes)
    ensures Opened(codec, ciphertext, maxBytes) == Ok(bytes) <==>
            DecryptsTo(codec, ciphertext, bytes) && |bytes| <= maxBytes
  {
  }

  lemma {:induction false} ManifestIsWellFormed(codec: Codec, bytes: Bytes, snapshotId: Id, m: Manifest)
    requires IsManifest(codec, bytes, snapshotId, m)
    ensures WellFormed(m)
  {
    ItemsAreCounted(m.vaults);
    forall vault <- m.vaults, entry <- vault.entries ensures exists stored <- m.objects :: Backs(stored, entry) {
      var stored :| stored in m.objects && stored.descriptor == entry.descriptor && stored.section == entry.section;
      assert Backs(stored, entry);
    }
  }

  lemma {:induction false} ReadManifestIff(codec: Codec, bytes: Bytes, snapshotId: Id, m: Manifest)
    ensures ReadManifest(codec, bytes, snapshotId) == Ok(m) <==> IsManifest(codec, bytes, snapshotId, m)
  {
    P.NothingUnsupported(codec.index.supported, m.requiredCapabilities);
    ItemsAreCounted(m.vaults);
    if IsManifest(codec, bytes, snapshotId, m) {
      ManifestIsWellFormed(codec, bytes, snapshotId, m);
    }
  }

  /** Opening the manifest succeeds with `m` exactly when the first part is the manifest `m`. */
  lemma {:induction false} OpenManifestIff(codec: Codec, file: Bytes, p: P.Portable, m: Manifest)
    ensures OpenManifest(codec, file, p) == Ok(m) <==> ManifestIs(codec, file, p, m)
  {
    if ManifestLocated(p) {
      var ciphertext := P.Slice(file, p.parts[p.index.parts[0].portableObjectId]);
      forall bytes
        ensures Opened(codec, ciphertext, MAX_DECRYPTED_MANIFEST_BYTES) == Ok(bytes) <==>
                DecryptsTo(codec, ciphertext, bytes) && |bytes| <= MAX_DECRYPTED_MANIFEST_BYTES
        ensures ReadManifest(codec, bytes, p.index.snapshotId) == Ok(m) <==>
                IsManifest(codec, bytes, p.index.snapshotId, m)
      {
        OpenedIff(codec, ciphertext, MAX_DECRYPTED_MANIFEST_BYTES, bytes);
        ReadManifestIff(codec, bytes, p.index.snapshotId, m);
      }
    }
  }

  /** Everything that is checked before the first entry is handed out. */
  ghost predicate Sound(codec: Codec, file: Bytes, p: P.Portable, m: Manifest) {
    && P.Parse(codec.index, file) == Ok(p)
    && ManifestIs(codec, file, p, m)
    && ContentPartIds(p.index.parts) == ExpectedIds(m)
    && SelectionAgrees(p.index, m)
    && AllAuthentic(codec, file, p.parts, ContentDescriptors(m))
    && AllAuthentic(codec, file, p.parts, IntelligenceDescriptors(m))
  }

  lemma {:induction false} ObjectMapHas(objects: seq<Object>, n: nat, i: nat)
    requires i < n <= |objects|
    requires forall j :: i < j < n ==>
               objects[j].descriptor.portableObjectId != objects[i].descriptor.portableObjectId
    ensures objects[i].descriptor.portableObjectId in ObjectMap(objects, n)
    ensures ObjectMap(objects, n)[objects[i].descriptor.portableObjectId] == objects[i]
  {
    if i < n - 1 {
      ObjectMapHas(objects, n - 1, i);
    }
  }

  /** In a well-formed manifest an entry finds its object, and the bytes stored for it are its own. */
  lemma {:induction false} EntryIsBacked(
      codec: Codec, file: Bytes, parts: map<Id, P.LocatedPart>, m: Manifest, store: map<Id, Bytes>, entry: Entry)
    requires WellFormed(m) && Holds(codec, file, parts, ContentDescriptors(m), |m.objects|, store)
    requires exists stored <- m.objects :: Backs(stored, entry)
    ensures Complete(ObjectMap(m.objects, |m.objects|), store, entry)
    ensures Authentic(codec, file, parts, entry.descriptor, store[entry.descriptor.portableObjectId])
  {
    var stored :| stored in m.objects && Backs(stored, entry);
    var i :| 0 <= i < |m.objects| && m.objects[i] == stored;
    ObjectMapHas(m.objects, |m.objects|, i);
    var ds := ContentDescriptors(m);
    var id := entry.descriptor.portableObjectId;
    assert ds[i].portableObjectId == id;
    var j :| LastOf(ds, |m.objects|, j, id) && Authentic(codec, file, parts, ds[j], store[id]);
    assert m.objects[j].descriptor == ds[j];
  }

  lemma {:induction false} EntriesAreBacked(
      codec: Codec, file: Bytes, parts: map<Id, P.LocatedPart>, m: Manifest, store: map<Id, Bytes>)
    requires WellFormed(m) && Holds(codec, file, parts, ContentDescriptors(m), |m.objects|, store)
    ensures var objects := ObjectMap(m.objects, |m.objects|);
            forall item <- AllItems(m.vaults) ::
              && Complete(objects, store, item.entry)
              && Authentic(codec, file, parts, item.entry.descriptor, store[item.entry.descriptor.portableObjectId])
  {
    forall item <- AllItems(m.vaults)
      ensures Complete(ObjectMap(m.objects, |m.objects|), store, item.entry)
      ensures Authentic(codec, file, parts, item.entry.descriptor, store[item.entry.descriptor.portableObjectId])
    {
      EntryIsBacked(codec, file, parts, m, store, item.entry);
    }
  }

  /** Deliveries run through the items in order and stop only at a callback that refuses. */
  ghost predicate InOrder(items: seq<Item>, verified: map<Id, Bytes>, i: nat, delivered: seq<Delivery>) {
    && i + |delivered| <= |items|
    && forall k :: i <= k < i + |delivered| ==>
         && items[k].entry.descriptor.portableObjectId in verified
         && delivered[k - i] == Delivery(items[k], verified[items[k].entry.descriptor.portableObjectId], k, |items|)
  }

  lemma {:induction false} DeliveriesInOrder(
      objects: map<Id, Object>, verified: map<Id, Bytes>, items: seq<Item>, i: nat, accepts: nat -> bool)
    requires i <= |items|
    ensures InOrder(items, verified, i, Deliver(objects, verified, items, i, accepts).1)
    decreases |items| - i
  {
    if i < |items| && Complete(objects, verified, items[i].entry) {
      DeliveriesInOrder(objects, verified, items, i + 1, accepts);
    }
  }

  lemma {:induction false} CompleteItemsAreDelivered(
      objects: map<Id, Object>, verified: map<Id, Bytes>, items: seq<Item>, i: nat, accepts: nat -> bool)
    requires i <= |items| && forall item <- items :: Complete(objects, verified, item.entry)
    ensures var (r, delivered) := Deliver(objects, verified, items, i, accepts);
            && (r.Ok? <==> forall k: nat :: i <= k < |items| ==> accepts(k))
            && (r.Ok? ==> i + |delivered| == |items|)
            && (r.Err? ==> delivered != [] && r.error == Refused(i + |delivered| - 1)
                           && !accepts(i + |delivered| - 1)
                           && forall k: nat :: i <= k < i + |delivered| - 1 ==> accepts(k))
    decreases |items| - i
  {
    if i < |items| {
      assert items[i] in items;
      if accepts(i) {
        CompleteItemsAreDelivered(objects, verified, items, i + 1, accepts);
      }
    }
  }

  lemma {:induction false} ContentsSound(
      codec: Codec, file: Bytes, p: P.Portable, m: Manifest, accepts: nat -> bool)
    requires InspectContents(codec, file, p, m, accepts).0.Ok? || InspectContents(codec, file, p, m, accepts).1 != []
    ensures ContentPartIds(p.index.parts) == ExpectedIds(m) && SelectionAgrees(p.index, m)
    ensures AllAuthentic(codec, file, p.parts, ContentDescriptors(m))
    ensures AllAuthentic(codec, file, p.parts, IntelligenceDescriptors(m))
    ensures var r := InspectContents(codec, file, p, m, accepts).0;
            r.Ok? ==> r.value.manifest == m && r.value.index == p.index
  {
    InventoryIsExact(p.index, m);
    var contents, records := ContentDescriptors(m), IntelligenceDescriptors(m);
    VerifiedMeansAuthentic(codec, file, p.parts, ContentObject, contents, |contents|);
    VerifiedMeansAuthentic(codec, file, p.parts, IntelligenceObject, records, |records|);
    assert contents[..|contents|] == contents && records[..|records|] == records;
  }

  lemma {:induction false} InspectionOpens(codec: Codec, file: Bytes, accepts: nat -> bool)
    returns (p: P.Portable, m: Manifest)
    requires Inspect(codec, file, accepts).0.Ok? || Inspect(codec, file, accepts).1 != []
    ensures P.Parse(codec.index, file) == Ok(p) && OpenManifest(codec, file, p) == Ok(m)
  {
    p := P.Parse(codec.index, file).value;
    m := OpenManifest(codec, file, p).value;
  }

  lemma {:induction false} InspectionSteps(
      codec: Codec, file: Bytes, p: P.Portable, m: Manifest, accepts: nat -> bool)
    requires P.Parse(codec.index, file) == Ok(p) && OpenManifest(codec, file, p) == Ok(m)
    ensures Inspect(codec, file, accepts) == InspectContents(codec, file, p, m, accepts)
  {
  }

  /**
   * No callback runs, and no archive is accepted, before the index, the manifest, the exact
   * inventory and every single content and intelligence object have passed.
   */
  lemma {:induction false} ChecksComeFirst(codec: Codec, file: Bytes, accepts: nat -> bool)
    returns (p: P.Portable, m: Manifest)
    requires Inspect(codec, file, accepts).0.Ok? || Inspect(codec, file, accepts).1 != []
    ensures Sound(codec, file, p, m)
    ensures Inspect(codec, file, accepts).0.Ok? ==>
              && Inspect(codec, file, accepts).0.value.manifest == m
              && Inspect(codec, file, accepts).0.value.index == p.index
  {
    p, m := InspectionOpens(codec, file, accepts);
    InspectionSteps(codec, file, p, m, accepts);
    OpenManifestIff(codec, file, p, m);
    ContentsSound(codec, file, p, m, accepts);
  }

  /** Each delivery is the next entry with bytes that are authentic for that entry itself. */
  ghost predicate FaithfulDeliveries(
      codec: Codec, file: Bytes, p: P.Portable, items: seq<Item>, delivered: seq<Delivery>)
  {
    && |delivered| <= |items|
    && forall k :: 0 <= k < |delivered| ==>
         && delivered[k] == Delivery(items[k], delivered[k].bytes, k, |items|)
         && Authentic(codec, file, p.parts, items[k].entry.descriptor, delivered[k].bytes)
  }

  lemma {:induction false} ItemsInOrderAreFaithful(
      codec: Codec, file: Bytes, p: P.Portable, items: seq<Item>, store: map<Id, Bytes>, delivered: seq<Delivery>)
    requires InOrder(items, store, 0, delivered)
    requires forall item <- items :: item.entry.descriptor.portableObjectId in store
               && Authentic(codec, file, p.parts, item.entry.descriptor, store[item.entry.descriptor.portableObjectId])
    ensures FaithfulDeliveries(codec, file, p, items, delivered)
  {
    forall k | 0 <= k < |delivered|
      ensures delivered[k] == Delivery(items[k], delivered[k].bytes, k, |items|)
      ensures Authentic(codec, file, p.parts, items[k].entry.descriptor, delivered[k].bytes)
    {
      assert items[k] in items;
    }
  }

  function FailureOf<T>(r: Result<T, Failure>): Option<Failure> {
    match r
    case Ok(_) => None
    case Err(f) => Some(f)
  }

  /** The outcome of handing out `items`: it fails only where a callback refuses. */
  ghost predicate OnlyRefusalsFail(
      codec: Codec, file: Bytes, p: P.Portable, items: seq<Item>, accepts: nat -> bool,
      failure: Option<Failure>, delivered: seq<Delivery>)
  {
    && FaithfulDeliveries(codec, file, p, items, delivered)
    && (failure.None? <==> forall k: nat :: k < |items| ==> accepts(k))
    && (failure.None? ==> |delivered| == |items|)
    && (failure.Some? ==> delivered != [] && failure.value == Refused(|delivered| - 1)
                          && !accepts(|delivered| - 1)
                          && forall k: nat :: k < |delivered| - 1 ==> accepts(k))
  }

  /** With all objects verified, the outcome is that of handing out the entries. */
  lemma {:induction false} ContentsDeliver(
      codec: Codec, file: Bytes, p: P.Portable, m: Manifest, accepts: nat -> bool, store: map<Id, Bytes>)
    requires InventoryPasses(p.index, m) && |AllItems(m.vaults)| <= MAX_SNAPSHOT_ITEMS
    requires Verified(codec, file, p.parts, ContentObject, ContentDescriptors(m), |ContentDescriptors(m)|) == Ok(store)
    requires Verified(
               codec, file, p.parts, IntelligenceObject, IntelligenceDescriptors(m), |IntelligenceDescriptors(m)|).Ok?
    ensures var (r, delivered) := InspectContents(codec, file, p, m, accepts);
            var (handed, ds) := Deliver(ObjectMap(m.objects, |m.objects|), store, AllItems(m.vaults), 0, accepts);
            delivered == ds && FailureOf(r) == FailureOf(handed)
  {
  }

  lemma {:induction false} CompleteItemsFailByRefusal(
      codec: Codec, file: Bytes, p: P.Portable, items: seq<Item>, objects: map<Id, Object>, store: map<Id, Bytes>,
      accepts: nat -> bool)
    requires forall item <- items :: Complete(objects, store, item.entry)
               && Authentic(codec, file, p.parts, item.entry.descriptor, store[item.entry.descriptor.portableObjectId])
    ensures var (handed, ds) := Deliver(objects, store, items, 0, accepts);
            OnlyRefusalsFail(codec, file, p, items, accepts, FailureOf(handed), ds)
  {
    DeliveriesInOrder(objects, store, items, 0, accepts);
    CompleteItemsAreDelivered(objects, store, items, 0, accepts);
    ItemsInOrderAreFaithful(codec, file, p, items, store, Deliver(objects, store, items, 0, accepts).1);
  }

  lemma {:induction false} BackedItemsDeliver(
      codec: Codec, file: Bytes, p: P.Portable, m: Manifest, accepts: nat -> bool, store: map<Id, Bytes>)
    requires WellFormed(m) && Holds(codec, file, p.parts, ContentDescriptors(m), |m.objects|, store)
    ensures var items := AllItems(m.vaults);
            var (handed, ds) := Deliver(ObjectMap(m.objects, |m.objects|), store, items, 0, accepts);
            OnlyRefusalsFail(codec, file, p, items, accepts, FailureOf(handed), ds)
  {
    EntriesAreBacked(codec, file, p.parts, m, store);
    CompleteItemsFailByRefusal(codec, file, p, AllItems(m.vaults), ObjectMap(m.objects, |m.objects|), store, accepts);
  }

  /** Authentic objects are all verified, and what is stored for them is authentic. */
  lemma {:induction false} AuthenticObjectsAreStored(codec: Codec, file: Bytes, p: P.Portable, m: Manifest)
    returns (store: map<Id, Bytes>)
    requires AllAuthentic(codec, file, p.parts, ContentDescriptors(m))
    requires AllAuthentic(codec, file, p.parts, IntelligenceDescriptors(m))
    ensures Verified(codec, file, p.parts, ContentObject, ContentDescriptors(m), |ContentDescriptors(m)|) == Ok(store)
    ensures Verified(
              codec, file, p.parts, IntelligenceObject, IntelligenceDescriptors(m), |IntelligenceDescriptors(m)|).Ok?
    ensures Holds(codec, file, p.parts, ContentDescriptors(m), |m.objects|, store)
  {
    var contents, records := ContentDescriptors(m), IntelligenceDescriptors(m);
    AuthenticVerifies(codec, file, p.parts, ContentObject, contents, |contents|);
    AuthenticVerifies(codec, file, p.parts, IntelligenceObject, records, |records|);
    store := Verified(codec, file, p.parts, ContentObject, contents, |contents|).value;
    VerifiedHolds(codec, file, p.parts, ContentObject, contents, |contents|);
  }

  /** Once everything is sound, the entries are all that is left, and only a callback can stop them. */
  lemma {:induction false} SoundContents(
      codec: Codec, file: Bytes, p: P.Portable, m: Manifest, accepts: nat -> bool)
    requires WellFormed(m) && InventoryPasses(p.index, m)
    requires AllAuthentic(codec, file, p.parts, ContentDescriptors(m))
    requires AllAuthentic(codec, file, p.parts, IntelligenceDescriptors(m))
    ensures var (r, delivered) := InspectContents(codec, file, p, m, accepts);
            OnlyRefusalsFail(codec, file, p, AllItems(m.vaults), accepts, FailureOf(r), delivered)
  {
    var store := AuthenticObjectsAreStored(codec, file, p, m);
    BackedItemsDeliver(codec, file, p, m, accepts, store);
    ContentsDeliver(codec, file, p, m, accepts, store);
  }

  lemma {:induction false} SoundInspection(
      codec: Codec, file: Bytes, p: P.Portable, m: Manifest, accepts: nat -> bool)
    requires Sound(codec, file, p, m)
    ensures var (r, delivered) := Inspect(codec, file, accepts);
            OnlyRefusalsFail(codec, file, p, AllItems(m.vaults), accepts, FailureOf(r), delivered)
  {
    OpenManifestIff(codec, file, p, m);
    InventoryIsExact(p.index, m);
    InspectionSteps(codec, file, p, m, accepts);
    SoundContents(codec, file, p, m, accepts);
  }

  lemma {:induction false} AcceptedNamesItsManifest(
      codec: Codec, file: Bytes, p: P.Portable, m: Manifest, accepts: nat -> bool)
    requires Sound(codec, file, p, m) && Inspect(codec, file, accepts).0.Ok?
    ensures Inspect(codec, file, accepts).0.value.manifest == m
    ensures Inspect(codec, file, accepts).0.value.index == p.index
  {
    OpenManifestIff(codec, file, p, m);
    InspectionSteps(codec, file, p, m, accepts);
    ContentsSound(codec, file, p, m, accepts);
  }

  lemma {:induction false} IntelligenceHolds(
      codec: Codec, file: Bytes, p: P.Portable, m: Manifest, accepts: nat -> bool)
    requires InspectContents(codec, file, p, m, accepts).0.Ok?
    ensures var records := IntelligenceDescriptors(m);
            Holds(
              codec, file, p.parts, records, |records|,
              InspectContents(codec, file, p, m, accepts).0.value.intelligenceObjects)
  {
    VerifiedHolds(
      codec, file, p.parts, IntelligenceObject, IntelligenceDescriptors(m), |IntelligenceDescriptors(m)|);
  }

  /** The intelligence objects handed back are authentic too, each for the last descriptor of its id. */
  lemma {:induction false} IntelligenceIsAuthentic(
      codec: Codec, file: Bytes, p: P.Portable, m: Manifest, accepts: nat -> bool)
    requires Sound(codec, file, p, m) && Inspect(codec, file, accepts).0.Ok?
    ensures var records := IntelligenceDescriptors(m);
            Holds(codec, file, p.parts, records, |records|, Inspect(codec, file, accepts).0.value.intelligenceObjects)
  {
    OpenManifestIff(codec, file, p, m);
    InspectionSteps(codec, file, p, m, accepts);
    IntelligenceHolds(codec, file, p, m, accepts);
  }

  /** An archive is accepted exactly when it is sound and no callback refuses an entry. */
  lemma {:induction false} AcceptedIffSound(codec: Codec, file: Bytes, accepts: nat -> bool)
    ensures Inspect(codec, file, accepts).0.Ok? <==>
            exists p, m ::
              Sound(codec, file, p, m) && forall k: nat :: k < |AllItems(m.vaults)| ==> accepts(k)
  {
    if Inspect(codec, file, accepts).0.Ok? {
      var p, m := ChecksComeFirst(codec, file, accepts);
      SoundInspection(codec, file, p, m, accepts);
    }
    if p, m :| Sound(codec, file, p, m) && forall k: nat :: k < |AllItems(m.vaults)| ==> accepts(k) {
      SoundInspection(codec, file, p, m, accepts);
    }
  }
}
