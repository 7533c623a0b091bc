/**
 * Writing a portable snapshot and inspecting it: one encrypted manifest, then one encrypted part for
 * every object the manifest declares.
 */
module SnapshotRoundTrip {
  import opened Common
  import P = PortableIndex
  import S = SnapshotArchive
  import M = SnapshotMeaning

  /** What the writer has in hand; `content` are the plaintexts of the objects by their ids. */
  datatype Source = Source(
    manifestId: Id,
    manifestBytes: Bytes,
    ids: seq<Id>,
    content: Id -> Bytes,
    encrypt: Bytes -> Bytes)

  function PartsOf(s: Source): seq<P.Part> {
    [P.Part(|s.encrypt(s.manifestBytes)|, s.manifestId, P.ManifestPart)]
    + seq(|s.ids|, i requires 0 <= i < |s.ids| =>
        P.Part(|s.encrypt(s.content(s.ids[i]))|, s.ids[i], P.ContentPart))
  }

  function BodiesOf(s: Source): seq<Bytes> {
    [s.encrypt(s.manifestBytes)]
    + seq(|s.ids|, i requires 0 <= i < |s.ids| => s.encrypt(s.content(s.ids[i])))
  }

  /** Decrypting undoes encrypting what is written, and a part is not much longer than its plaintext. */
  ghost predicate Encrypts(codec: S.Codec, s: Source) {
    && S.DecryptsTo(codec, s.encrypt(s.manifestBytes), s.manifestBytes)
    && |s.encrypt(s.manifestBytes)| <= S.MAX_ENCRYPTED_MANIFEST_BYTES
    && |s.manifestBytes| <= S.MAX_DECRYPTED_MANIFEST_BYTES
    && forall id <- s.ids ::
         && S.DecryptsTo(codec, s.encrypt(s.content(id)), s.content(id))
         && |s.encrypt(s.content(id))| <= |s.content(id)| + S.MAX_AGE_OBJECT_OVERHEAD_BYTES
  }

  /** The descriptor tells the truth about one of the written objects. */
  ghost predicate Describes(codec: S.Codec, s: Source, d: S.Descriptor) {
    && d.portableObjectId in s.ids
    && d.byteLength == |s.content(d.portableObjectId)|
    && d.contentSha256 == codec.sha256Hex(s.content(d.portableObjectId))
  }

  /** The manifest declares exactly the written objects, and truthfully. */
  ghost predicate Declares(codec: S.Codec, s: Source, index: P.Index, m: S.Manifest) {
    && S.IsManifest(codec, s.manifestBytes, index.snapshotId, m)
    && index.parts == PartsOf(s)
    && (forall d :: M.DeclaresContent(m, d) || M.DeclaresIntelligence(m, d) ==> Describes(codec, s, d))
    && (forall id :: id in s.ids <==> M.DeclaresId(m, id))
    && M.SameSelection(index, m)
  }

  lemma {:induction false} ContentPartsAreTheIds(s: Source, index: P.Index, id: Id)
    requires index.parts == PartsOf(s)
    ensures M.HasContentPart(index, id) <==> id in s.ids
  {
    var parts := PartsOf(s);
    if id in s.ids {
      var i :| 0 <= i < |s.ids| && s.ids[i] == id;
      assert parts[i + 1] in parts && parts[i + 1].portableObjectId == id;
    }
    if M.HasContentPart(index, id) {
      var part :| part in parts && part.role == P.ContentPart && part.portableObjectId == id;
      var i :| 0 <= i < |parts| && parts[i] == part;
      assert i > 0 && s.ids[i - 1] == id;
    }
  }

  /** In a file whose parts slice back, what is written about is authentic. */
  lemma {:induction false} WrittenIsAuthentic(
      codec: S.Codec, s: Source, file: Bytes, parts: map<Id, P.LocatedPart>, d: S.Descriptor, bytes: Bytes)
    requires P.SlicesBack(file, parts, PartsOf(s), BodiesOf(s))
    requires Encrypts(codec, s) && Describes(codec, s, d)
    ensures S.Authentic(codec, file, parts, d, bytes) <==> bytes == s.content(d.portableObjectId)
  {
    var i :| 0 <= i < |s.ids| && s.ids[i] == d.portableObjectId;
    assert PartsOf(s)[i + 1] == P.Part(|s.encrypt(s.content(s.ids[i]))|, s.ids[i], P.ContentPart);
    assert P.Slice(file, parts[d.portableObjectId]) == BodiesOf(s)[i + 1] == s.encrypt(s.content(s.ids[i]));
  }

  lemma {:induction false} WrittenManifestIs(
      codec: S.Codec, s: Source, file: Bytes, p: P.Portable, m: S.Manifest)
    requires P.SlicesBack(file, p.parts, PartsOf(s), BodiesOf(s)) && p.index.parts == PartsOf(s)
    requires Encrypts(codec, s) && S.IsManifest(codec, s.manifestBytes, p.index.snapshotId, m)
    ensures S.ManifestIs(codec, file, p, m)
  {
    assert p.index.parts[0] == P.Part(|s.encrypt(s.manifestBytes)|, s.manifestId, P.ManifestPart);
    assert P.Slice(file, p.parts[s.manifestId]) == BodiesOf(s)[0] == s.encrypt(s.manifestBytes);
  }

  lemma {:induction false} WrittenIsIntact(
      codec: S.Codec, s: Source, file: Bytes, p: P.Portable, m: S.Manifest)
    requires P.Parse(codec.index, file) == Ok(p) && Declares(codec, s, p.index, m)
    requires P.SlicesBack(file, p.parts, p.index.parts, BodiesOf(s)) && Encrypts(codec, s)
    ensures M.Intact(codec, file, p, m)
  {
    WrittenManifestIs(codec, s, file, p, m);
    forall id ensures M.HasContentPart(p.index, id) <==> M.DeclaresId(m, id) {
      ContentPartsAreTheIds(s, p.index, id);
    }
    forall d | M.DeclaresContent(m, d) || M.DeclaresIntelligence(m, d)
      ensures exists bytes :: S.Authentic(codec, file, p.parts, d, bytes)
    {
      WrittenIsAuthentic(codec, s, file, p.parts, d, s.content(d.portableObjectId));
    }
  }

  ghost predicate HandedBack(s: Source, vault: S.Vault, i: int, d: S.Delivery, index: nat, total: nat)
    requires 0 <= i < |vault.entries|
  {
    var entry := vault.entries[i];
    d == S.Delivery(S.Item(entry, vault), s.content(entry.descriptor.portableObjectId), index, total)
  }

  /** Every entry of every vault, with the bytes that were written for it. */
  ghost predicate AllHandedBack(s: Source, m: S.Manifest, delivered: seq<S.Delivery>) {
    && |delivered| == S.EntryCount(m.vaults, |m.vaults|)
    && forall v, i :: M.IsEntry(m.vaults, v, i) ==>
         && M.Place(m.vaults, v, i) < |delivered|
         && HandedBack(s, m.vaults[v], i, delivered[M.Place(m.vaults, v, i)], M.Place(m.vaults, v, i), |delivered|)
  }

  /** An entry of a well-formed manifest has the descriptor of one of its objects. */
  lemma {:induction false} EntriesAreDescribed(codec: S.Codec, s: Source, m: S.Manifest, v: int, i: int)
    requires S.WellFormed(m) && M.IsEntry(m.vaults, v, i)
    requires forall d :: M.DeclaresContent(m, d) || M.DeclaresIntelligence(m, d) ==> Describes(codec, s, d)
    ensures Describes(codec, s, m.vaults[v].entries[i].descriptor)
  {
    var vault, entry := m.vaults[v], m.vaults[v].entries[i];
    assert vault in m.vaults && entry in vault.entries;
    var stored :| stored in m.objects && S.Backs(stored, entry);
    assert M.DeclaresContent(m, entry.descriptor);
  }

  lemma {:induction false} FaithfulIsHandedBack(
      codec: S.Codec, s: Source, file: Bytes, p: P.Portable, m: S.Manifest, delivered: seq<S.Delivery>)
    requires Declares(codec, s, p.index, m) && Encrypts(codec, s)
    requires P.SlicesBack(file, p.parts, p.index.parts, BodiesOf(s))
    requires M.HandsOut(codec, file, p, m.vaults, delivered)
    requires |delivered| == S.EntryCount(m.vaults, |m.vaults|)
    ensures AllHandedBack(s, m, delivered)
  {
    S.ManifestIsWellFormed(codec, s.manifestBytes, p.index.snapshotId, m);
    forall v, i | M.IsEntry(m.vaults, v, i)
      ensures M.Place(m.vaults, v, i) < |delivered|
      ensures HandedBack(
                s, m.vaults[v], i, delivered[M.Place(m.vaults, v, i)], M.Place(m.vaults, v, i), |delivered|)
    {
      M.PlacesAreBelowTheCount(m.vaults, v, i);
      assert M.HandsOutAt(codec, file, p, m.vaults, delivered, v, i);
      EntriesAreDescribed(codec, s, m, v, i);
      WrittenIsAuthentic(
        codec, s, file, p.parts, m.vaults[v].entries[i].descriptor, delivered[M.Place(m.vaults, v, i)].bytes);
    }
  }

  lemma {:induction false} SoundReadsBack(
      codec: S.Codec, s: Source, file: Bytes, p: P.Portable, m: S.Manifest)
    requires P.Parse(codec.index, file) == Ok(p) && Declares(codec, s, p.index, m)
    requires P.SlicesBack(file, p.parts, p.index.parts, BodiesOf(s)) && Encrypts(codec, s)
    ensures var (r, delivered) := S.Inspect(codec, file, _ => true);
            r.Ok? && r.value.index == p.index && r.value.manifest == m && AllHandedBack(s, m, delivered)
  {
    WrittenIsIntact(codec, s, file, p, m);
    M.SoundIffIntact(codec, file, p, m);
    S.SoundInspection(codec, file, p, m, _ => true);
    S.AcceptedNamesItsManifest(codec, file, p, m, _ => true);
    S.ItemsAreCounted(m.vaults);
    M.FaithfulHandsOut(codec, file, p, m.vaults, S.Inspect(codec, file, _ => true).1);
    FaithfulIsHandedBack(codec, s, file, p, m, S.Inspect(codec, file, _ => true).1);
  }

  /**
   * Round trip: a snapshot written from a manifest and the objects it declares is accepted, with that
   * manifest, and every entry is handed back in order with the bytes that were written for it.
   */
  lemma {:induction false} WrittenSnapshotReadsBack(
      codec: S.Codec, s: Source, magicLine: Bytes, indexLine: Bytes, index: P.Index, m: S.Manifest)
    requires NEWLINE !in magicLine && NEWLINE !in indexLine
    requires |magicLine| + |indexLine| + 2 <= P.MAX_EXPORT_INDEX_BYTES
    requires P.HeaderFits(codec.index, magicLine, indexLine, index)
    requires Encrypts(codec, s) && Declares(codec, s, index, m)
    ensures var (r, delivered) :=
              S.Inspect(codec, P.Layout(magicLine, indexLine, Flatten(BodiesOf(s))), _ => true);
            r.Ok? && r.value.index == index && r.value.manifest == m && AllHandedBack(s, m, delivered)
  {
    var file := P.Layout(magicLine, indexLine, Flatten(BodiesOf(s)));
    P.WrittenPartsSliceBack(codec.index, magicLine, indexLine, index, BodiesOf(s));
    var parts :| P.Parse(codec.index, file) == Ok(P.Portable(index, parts))
                 && P.SlicesBack(file, parts, index.parts, BodiesOf(s));
    SoundReadsBack(codec, s, file, P.Portable(index, parts), m);
  }
}
