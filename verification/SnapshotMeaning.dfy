/**
 * What the snapshot inspector promises, said about file, manifest and callbacks alone: which archives
 * are accepted, and that every entry of every vault is handed out at its own place.
 */
module SnapshotMeaning {
  import opened Common
  import R = ByteReader
  import P = PortableIndex
  import opened SnapshotArchive

  // ---- Places ----

  /** Entry `i` of vault `v` is one of these. */
  ghost predicate IsEntry(vaults: seq<Vault>, v: int, i: int) {
    0 <= v < |vaults| && 0 <= i < |vaults[v].entries|
  }

  /** Where entry `i` of vault `v` stands among all entries. */
  ghost function Place(vaults: seq<Vault>, v: int, i: int): nat
    requires IsEntry(vaults, v, i)
  {
    EntryCount(vaults, v) + i
  }

  lemma {:induction false} CountGrows(vaults: seq<Vault>, m: nat, n: nat)
    requires m <= n <= |vaults|
    ensures EntryCount(vaults, m) <= EntryCount(vaults, n)
  {
    if m < n {
      CountGrows(vaults, m, n - 1);
    }
  }

  lemma {:induction false} PlacesAreBelowTheCount(vaults: seq<Vault>, v: int, i: int)
    requires IsEntry(vaults, v, i)
    ensures Place(vaults, v, i) < EntryCount(vaults, |vaults|)
  {
    CountGrows(vaults, v + 1, |vaults|);
  }

  /** Every position below the count is the place of an entry. */
  lemma {:induction false} EntryAt(vaults: seq<Vault>, n: nat, k: nat) returns (v: int, i: int)
    requires n <= |vaults| && k < EntryCount(vaults, n)
    ensures IsEntry(vaults, v, i) && Place(vaults, v, i) == k
  {
    if k < EntryCount(vaults, n - 1) {
      v, i := EntryAt(vaults, n - 1, k);
    } else {
      v, i := n - 1, k - EntryCount(vaults, n - 1);
    }
  }

  lemma {:induction false} AllItemsSplit(vaults: seq<Vault>)
    requires vaults != []
    ensures AllItems(vaults) == ItemsOf(vaults[0]) + AllItems(vaults[1..])
  {
  }

  lemma {:induction false} IndexBehind<T>(a: seq<T>, b: seq<T>, k: nat)
    requires k < |b|
    ensures (a + b)[|a| + k] == b[k]
  {
  }

  lemma {:induction false} IndexBefore<T>(a: seq<T>, b: seq<T>, k: nat)
    requires k < |a|
    ensures (a + b)[k] == a[k]
  {
  }

  /** The flattened list has every entry of every vault, at its place and with its vault. */
  lemma {:induction false} ItemAtItsPlace(vaults: seq<Vault>, v: int, i: int)
    requires IsEntry(vaults, v, i)
    ensures Place(vaults, v, i) < |AllItems(vaults)|
    ensures AllItems(vaults)[Place(vaults, v, i)] == Item(vaults[v].entries[i], vaults[v])
  {
    var first, rest := ItemsOf(vaults[0]), AllItems(vaults[1..]);
    AllItemsSplit(vaults);
    if v > 0 {
      assert vaults[1..][v - 1] == vaults[v];
      ItemAtItsPlace(vaults[1..], v - 1, i);
      CountOfRest(vaults, v);
      IndexBehind(first, rest, Place(vaults[1..], v - 1, i));
    } else {
      IndexBefore(first, rest, i);
    }
  }

  // ---- What an archive has to be ----

  /** The manifest lists a content object with this descriptor. */
  ghost predicate DeclaresContent(m: Manifest, d: Descriptor) {
    exists o <- m.objects :: o.descriptor == d
  }

  ghost predicate ListedIn(section: Option<IntelligenceSection>, d: Descriptor) {
    section.Some? && (d in section.value.records || d in section.value.evidenceObjects)
  }

  /** One of the two intelligence sections lists this descriptor, as a record or as evidence. */
  ghost predicate DeclaresIntelligence(m: Manifest, d: Descriptor) {
    m.intelligence.Some? && (ListedIn(m.intelligence.value.approved, d) || ListedIn(m.intelligence.value.unvetted, d))
  }

  ghost predicate DeclaresId(m: Manifest, id: Id) {
    exists d: Descriptor :: d.portableObjectId == id && (DeclaresContent(m, d) || DeclaresIntelligence(m, d))
  }

  ghost predicate HasContentPart(index: P.Index, id: Id) {
    exists part <- index.parts :: part.role == P.ContentPart && part.portableObjectId == id
  }

  /** An index that names its selection of intelligence names the one of the manifest. */
  ghost predicate SameSelection(index: P.Index, m: Manifest) {
    match index.intelligenceSelection
    case None => true
    case Some(selection) =>
      if m.intelligence.Some? then selection == m.intelligence.value.selection else selection == P.NoIntelligence
  }

  /**
   * A portable file whose first part is the manifest, whose content parts are exactly what the
   * manifest declares, and in which every declared object is there with its own bytes.
   */
  ghost predicate Intact(codec: Codec, file: Bytes, p: P.Portable, m: Manifest) {
    && P.Parse(codec.index, file) == Ok(p)
    && ManifestIs(codec, file, p, m)
    && (forall id :: HasContentPart(p.index, id) <==> DeclaresId(m, id))
    && SameSelection(p.index, m)
    && (forall d :: DeclaresContent(m, d) || DeclaresIntelligence(m, d) ==>
          exists bytes :: Authentic(codec, file, p.parts, d, bytes))
  }

  lemma {:induction false} DeclaredContentIff(m: Manifest, d: Descriptor)
    ensures d in ContentDescriptors(m) <==> DeclaresContent(m, d)
  {
    if o :| o in m.objects && o.descriptor == d {
      var i :| 0 <= i < |m.objects| && m.objects[i] == o;
      assert ContentDescriptors(m)[i] == d;
    }
  }

  lemma {:induction false} DeclaredIntelligenceIff(m: Manifest, d: Descriptor)
    ensures d in IntelligenceDescriptors(m) <==> DeclaresIntelligence(m, d)
  {
  }

  lemma {:induction false} ExpectedIff(m: Manifest, id: Id)
    ensures id in ExpectedIds(m) <==> DeclaresId(m, id)
  {
    if id in ExpectedIds(m) {
      var d :| (d in ContentDescriptors(m) || d in IntelligenceDescriptors(m)) && d.portableObjectId == id;
      DeclaredContentIff(m, d);
      DeclaredIntelligenceIff(m, d);
    }
    if d: Descriptor :| d.portableObjectId == id && (DeclaresContent(m, d) || DeclaresIntelligence(m, d)) {
      DeclaredContentIff(m, d);
      DeclaredIntelligenceIff(m, d);
    }
  }

  lemma {:induction false} ContentPartIff(index: P.Index, id: Id)
    ensures id in ContentPartIds(index.parts) <==> HasContentPart(index, id)
  {
  }

  lemma {:induction false} InventoryIff(index: P.Index, m: Manifest)
    ensures ContentPartIds(index.parts) == ExpectedIds(m) <==>
            forall id :: HasContentPart(index, id) <==> DeclaresId(m, id)
  {
    forall id
      ensures id in ContentPartIds(index.parts) <==> HasContentPart(index, id)
      ensures id in ExpectedIds(m) <==> DeclaresId(m, id)
    {
      ContentPartIff(index, id);
      ExpectedIff(m, id);
    }
  }

  lemma {:induction false} AllAuthenticIff(codec: Codec, file: Bytes, p: P.Portable, m: Manifest)
    ensures AllAuthentic(codec, file, p.parts, ContentDescriptors(m))
            && AllAuthentic(codec, file, p.parts, IntelligenceDescriptors(m)) <==>
            forall d :: DeclaresContent(m, d) || DeclaresIntelligence(m, d) ==>
              exists bytes :: Authentic(codec, file, p.parts, d, bytes)
  {
    forall d
      ensures d in ContentDescriptors(m) <==> DeclaresContent(m, d)
      ensures d in IntelligenceDescriptors(m) <==> DeclaresIntelligence(m, d)
    {
      DeclaredContentIff(m, d);
      DeclaredIntelligenceIff(m, d);
    }
  }

  lemma {:induction false} SelectionIff(index: P.Index, m: Manifest)
    ensures SelectionAgrees(index, m) <==> SameSelection(index, m)
  {
  }

  lemma {:induction false} SoundIffIntact(codec: Codec, file: Bytes, p: P.Portable, m: Manifest)
    ensures Sound(codec, file, p, m) <==> Intact(codec, file, p, m)
  {
    SelectionIff(p.index, m);
    InventoryIff(p.index, m);
    AllAuthenticIff(codec, file, p, m);
  }

  /** An archive is accepted exactly when it is intact and no callback refuses one of its entries. */
  lemma {:induction false} AcceptedIffIntact(codec: Codec, file: Bytes, accepts: nat -> bool)
    ensures Inspect(codec, file, accepts).0.Ok? <==>
            exists p, m ::
              Intact(codec, file, p, m) && forall k: nat :: k < EntryCount(m.vaults, |m.vaults|) ==> accepts(k)
  {
    AcceptedIffSound(codec, file, accepts);
    forall p, m
      ensures Sound(codec, file, p, m) <==> Intact(codec, file, p, m)
      ensures |AllItems(m.vaults)| == EntryCount(m.vaults, |m.vaults|)
    {
      SoundIffIntact(codec, file, p, m);
      ItemsAreCounted(m.vaults);
    }
  }

  // ---- What is handed out ----

  /** Delivery `k` is entry `i` of vault `v`, with authentic bytes and the number of all entries. */
  ghost predicate HandsOutAt(
      codec: Codec, file: Bytes, p: P.Portable, vaults: seq<Vault>, delivered: seq<Delivery>, v: int, i: int)
    requires IsEntry(vaults, v, i) && Place(vaults, v, i) < |delivered|
  {
    var k := Place(vaults, v, i);
    && delivered[k].item == Item(vaults[v].entries[i], vaults[v])
    && delivered[k].index == k && delivered[k].total == EntryCount(vaults, |vaults|)
    && Authentic(codec, file, p.parts, vaults[v].entries[i].descriptor, delivered[k].bytes)
  }

  ghost predicate HandsOut(
      codec: Codec, file: Bytes, p: P.Portable, vaults: seq<Vault>, delivered: seq<Delivery>)
  {
    && |delivered| <= EntryCount(vaults, |vaults|)
    && forall v, i :: IsEntry(vaults, v, i) && Place(vaults, v, i) < |delivered| ==>
         HandsOutAt(codec, file, p, vaults, delivered, v, i)
  }

  lemma {:induction false} FaithfulHandsOut(
      codec: Codec, file: Bytes, p: P.Portable, vaults: seq<Vault>, delivered: seq<Delivery>)
    requires FaithfulDeliveries(codec, file, p, AllItems(vaults), delivered)
    ensures HandsOut(codec, file, p, vaults, delivered)
  {
    ItemsAreCounted(vaults);
    forall v, i | IsEntry(vaults, v, i) && Place(vaults, v, i) < |delivered|
      ensures HandsOutAt(codec, file, p, vaults, delivered, v, i)
    {
      ItemAtItsPlace(vaults, v, i);
      assert delivered[Place(vaults, v, i)].item == AllItems(vaults)[Place(vaults, v, i)];
    }
  }

  /**
   * Success means that the callback got every entry of every vault of the manifest that is returned,
   * each once, at its own place, with the bytes that are authentic for it.
   */
  lemma {:induction false} EveryEntryIsHandedOut(codec: Codec, file: Bytes, accepts: nat -> bool)
    returns (p: P.Portable)
    requires Inspect(codec, file, accepts).0.Ok?
    ensures var (r, delivered) := Inspect(codec, file, accepts);
            && Intact(codec, file, p, r.value.manifest) && r.value.index == p.index
            && |delivered| == EntryCount(r.value.manifest.vaults, |r.value.manifest.vaults|)
            && HandsOut(codec, file, p, r.value.manifest.vaults, delivered)
  {
    var m;
    p, m := ChecksComeFirst(codec, file, accepts);
    SoundInspection(codec, file, p, m, accepts);
    SoundIffIntact(codec, file, p, m);
    ItemsAreCounted(m.vaults);
    FaithfulHandsOut(codec, file, p, m.vaults, Inspect(codec, file, accepts).1);
  }

  /**
   * In every other run, if a callback ran at all, the archive is intact, the callbacks got its first
   * entries, and it was the last of them that refused.
   */
  lemma {:induction false} OnlyARefusalStops(codec: Codec, file: Bytes, accepts: nat -> bool)
    returns (p: P.Portable, m: Manifest)
    requires Inspect(codec, file, accepts).0.Err? && Inspect(codec, file, accepts).1 != []
    ensures var (r, delivered) := Inspect(codec, file, accepts);
            && Intact(codec, file, p, m) && HandsOut(codec, file, p, m.vaults, delivered)
            && r.error == Refused(|delivered| - 1) && !accepts(|delivered| - 1)
            && forall k: nat :: k < |delivered| - 1 ==> accepts(k)
  {
    p, m := ChecksComeFirst(codec, file, accepts);
    SoundInspection(codec, file, p, m, accepts);
    SoundIffIntact(codec, file, p, m);
    FaithfulHandsOut(codec, file, p, m.vaults, Inspect(codec, file, accepts).1);
  }

  /** The intelligence objects handed back are exactly the declared ones, each with authentic bytes. */
  lemma {:induction false} IntelligenceIsHandedBack(codec: Codec, file: Bytes, accepts: nat -> bool)
    returns (p: P.Portable)
    requires Inspect(codec, file, accepts).0.Ok?
    ensures var r := Inspect(codec, file, accepts).0.value;
            && Intact(codec, file, p, r.manifest)
            && (forall d :: DeclaresIntelligence(r.manifest, d) ==> d.portableObjectId in r.intelligenceObjects)
            && (forall id <- r.intelligenceObjects :: exists d ::
                  && DeclaresIntelligence(r.manifest, d) && d.portableObjectId == id
                  && Authentic(codec, file, p.parts, d, r.intelligenceObjects[id]))
  {
    var m;
    p, m := ChecksComeFirst(codec, file, accepts);
    SoundIffIntact(codec, file, p, m);
    IntelligenceIsAuthentic(codec, file, p, m, accepts);
    var store, records := Inspect(codec, file, accepts).0.value.intelligenceObjects, IntelligenceDescriptors(m);
    forall d | DeclaresIntelligence(m, d) ensures d.portableObjectId in store {
      DeclaredIntelligenceIff(m, d);
      var i :| 0 <= i < |records| && records[i] == d;
    }
    forall id <- store
      ensures exists d ::
        DeclaresIntelligence(m, d) && d.portableObjectId == id && Authentic(codec, file, p.parts, d, store[id])
    {
      var i :| LastOf(records, |records|, i, id) && Authentic(codec, file, p.parts, records[i], store[id]);
      DeclaredIntelligenceIff(m, records[i]);
    }
  }
}
