/**
 * The backup inspector: a magic line, a manifest line, then the bytes of every note end to end and
 * nothing after them. UTF-8, JSON with its schema and SHA-256 are parameters.
 */
module BackupArchive {
  import opened Common
  import R = ByteReader

  const MAGICS: seq<string> := ["MDEVOLVED-BACKUP-V1\n", "OWD-BACKUP-V1\n"]
  const MAX_MAGIC_BYTES: nat := 64
  const MAX_MANIFEST_BYTES: nat := 5 * 1024 * 1024

  datatype Note = Note(path: string, byteLength: nat, contentSha256: string)

  /** The notes in archive order; `header` stands for the remaining fields. */
  datatype Manifest = Manifest(header: Id, notes: seq<Note>)

  datatype Codec = Codec(
    utf8: Bytes -> Option<string>,
    parse: string -> Option<Manifest>,
    sha256Hex: Bytes -> string)

  datatype Failure =
    | BadKey
    | WrongKey
    | Unreadable(failure: R.Failure)
    | NotText
    | NotABackup
    | BadManifest
    | ChecksumFailed(path: string)
    | Refused(index: nat)

  /** One call of the note callback. */
  datatype Delivery = Delivery(note: Note, content: string, index: nat)

  type Verdict = (Result<Manifest, Failure>, seq<Delivery>)

  function Decode(codec: Codec, bytes: Bytes): Option<string> {
    DecodeText(codec.utf8, bytes)
  }

  predicate IsMagic(codec: Codec, line: Bytes) {
    Decode(codec, line).Some? && Decode(codec, line).value + "\n" in MAGICS
  }

  function ParseManifest(codec: Codec, line: Bytes): Option<Manifest> {
    match Decode(codec, line)
    case None => None
    case Some(text) => codec.parse(text)
  }

  // ---- Reference: inspection as a function of the whole plaintext ----

  function InspectNotes(codec: Codec, c: R.Cursor, notes: seq<Note>, i: nat, accepts: nat -> bool)
    : (Result<(), Failure>, seq<Delivery>)
    requires i <= |notes|
    decreases |notes| - i
  {
    if i == |notes| then
      (match R.EndAt(c) case Ok(_) => (Ok(()), []) case Err(f) => (Err(Unreadable(f)), []))
    else
      match R.BytesAt(c, notes[i].byteLength)
      case Err(f) => (Err(Unreadable(f)), [])
      case Ok(bytes) =>
        if codec.sha256Hex(bytes) != notes[i].contentSha256 then (Err(ChecksumFailed(notes[i].path)), [])
        else
          match Decode(codec, bytes)
          case None => (Err(NotText), [])
          case Some(content) =>
            var d := Delivery(notes[i], content, i);
            if !accepts(i) then (Err(Refused(i)), [d])
            else
              var (r, more) := InspectNotes(codec, R.AfterBytes(c, notes[i].byteLength), notes, i + 1, accepts);
              (r, [d] + more)
  }

  function InspectManifest(codec: Codec, c: R.Cursor, accepts: nat -> bool): Verdict {
    match R.LineAt(c, MAX_MANIFEST_BYTES)
    case Err(f) => (Err(Unreadable(f)), [])
    case Ok(line) =>
      match ParseManifest(codec, line)
      case None => (Err(if Decode(codec, line).None? then NotText else BadManifest), [])
      case Some(manifest) =>
        var (r, delivered) :=
          InspectNotes(codec, R.AfterLine(c, MAX_MANIFEST_BYTES), manifest.notes, 0, accepts);
        (match r case Ok(_) => Ok(manifest) case Err(f) => Err(f), delivered)
  }

  function Inspect(codec: Codec, c: R.Cursor, accepts: nat -> bool): Verdict {
    match R.LineAt(c, MAX_MAGIC_BYTES)
    case Err(f) => (Err(Unreadable(f)), [])
    case Ok(line) =>
      if Decode(codec, line).None? then (Err(NotText), [])
      else if !IsMagic(codec, line) then (Err(NotABackup), [])
      else InspectManifest(codec, R.AfterLine(c, MAX_MAGIC_BYTES), accepts)
  }

  // ---- The inspector ----

  type NotesVerdict = (Result<(), Failure>, seq<Delivery>)

  /** `whole` is what was delivered so far followed by `rest`. */
  ghost predicate Continues(whole: NotesVerdict, delivered: seq<Delivery>, rest: NotesVerdict) {
    whole == (rest.0, delivered + rest.1)
  }

  lemma {:induction false} Stops(whole: NotesVerdict, delivered: seq<Delivery>, rest: NotesVerdict)
    requires Continues(whole, delivered, rest) && rest.1 == []
    ensures whole == (rest.0, delivered)
  {
    assert delivered + [] == delivered;
  }

  lemma {:induction false} GoesOn(
      whole: NotesVerdict, delivered: seq<Delivery>, rest: NotesVerdict, d: Delivery, next: NotesVerdict)
    requires Continues(whole, delivered, rest) && rest == (next.0, [d] + next.1)
    ensures Continues(whole, delivered + [d], next)
  {
    assert delivered + ([d] + next.1) == delivered + [d] + next.1;
  }

  ghost predicate NoteFits(codec: Codec, note: Note, bytes: Bytes) {
    && |bytes| == note.byteLength
    && codec.sha256Hex(bytes) == note.contentSha256
    && DecodeText(codec.utf8, bytes).Some?
  }

  function DeliveryOf(codec: Codec, note: Note, bytes: Bytes, i: nat): Delivery
    requires Decode(codec, bytes).Some?
  {
    Delivery(note, Decode(codec, bytes).value, i)
  }

  /** One note whose bytes fit and whose callback completes. */
  lemma {:induction false} AcceptedNote(
      codec: Codec, c: R.Cursor, notes: seq<Note>, i: nat, accepts: nat -> bool, bytes: Bytes)
    requires i < |notes| && NoteFits(codec, notes[i], bytes) && accepts(i)
    requires R.BytesAt(c, notes[i].byteLength) == Ok(bytes)
    ensures var next := InspectNotes(codec, R.AfterBytes(c, notes[i].byteLength), notes, i + 1, accepts);
            InspectNotes(codec, c, notes, i, accepts) == (next.0, [DeliveryOf(codec, notes[i], bytes, i)] + next.1)
  {
  }

  method ReadNotes(codec: Codec, reader: R.StreamByteReader, notes: seq<Note>, accepts: nat -> bool)
    returns (result: Result<(), Failure>, delivered: seq<Delivery>)
    requires reader.Valid()
    modifies reader
    ensures (result, delivered) == InspectNotes(codec, old(reader.View()), notes, 0, accepts)
  {
    ghost var whole := InspectNotes(codec, reader.View(), notes, 0, accepts);
    ghost var rest := whole;
    delivered := [];
    var index := 0;
    assert [] + whole.1 == whole.1;
    while index < |notes|
      invariant 0 <= index <= |notes|
      invariant reader.Valid()
      invariant rest == InspectNotes(codec, reader.View(), notes, index, accepts)
      invariant Continues(whole, delivered, rest)
    {
      ghost var c := reader.View();
      var bytes := reader.ReadExact(notes[index].byteLength);
      if bytes.Err? {
        Stops(whole, delivered, rest);
        return Err(Unreadable(bytes.error)), delivered;
      }
      if codec.sha256Hex(bytes.value) != notes[index].contentSha256 {
        Stops(whole, delivered, rest);
        return Err(ChecksumFailed(notes[index].path)), delivered;
      }
      var content := Decode(codec, bytes.value);
      if content.None? {
        Stops(whole, delivered, rest);
        return Err(NotText), delivered;
      }
      var delivery := Delivery(notes[index], content.value, index);
      if !accepts(index) {
        assert rest == (Err(Refused(index)), [delivery]);
        return Err(Refused(index)), delivered + [delivery];
      }
      ghost var next := InspectNotes(codec, reader.View(), notes, index + 1, accepts);
      AcceptedNote(codec, c, notes, index, accepts, bytes.value);
      GoesOn(whole, delivered, rest, delivery, next);
      delivered := delivered + [delivery];
      index, rest := index + 1, next;
    }
    Stops(whole, delivered, rest);
    var end := reader.AssertEnd();
    if end.Err? {
      return Err(Unreadable(end.error)), delivered;
    }
    return Ok(()), delivered;
  }

  method ReadManifestAndNotes(codec: Codec, reader: R.StreamByteReader, accepts: nat -> bool)
    returns (result: Result<Manifest, Failure>, delivered: seq<Delivery>)
    requires reader.Valid()
    modifies reader
    ensures (result, delivered) == InspectManifest(codec, old(reader.View()), accepts)
  {
    var line := reader.ReadLine(MAX_MANIFEST_BYTES);
    if line.Err? {
      return Err(Unreadable(line.error)), [];
    }
    var parsed := ParseManifest(codec, line.value);
    if parsed.None? {
      return Err(if Decode(codec, line.value).None? then NotText else BadManifest), [];
    }
    var read;
    read, delivered := ReadNotes(codec, reader, parsed.value.notes, accepts);
    result := match read case Ok(_) => Ok(parsed.value) case Err(f) => Err(f);
  }

  /**
   * Reads through the chunked reader; `accepts(i)` is whether the callback for note `i` completes.
   * Verdict and deliveries depend only on the bytes laid end to end, never on the chunks.
   */
  method InspectBackupArchive(codec: Codec, decryption: R.Decryption, accepts: nat -> bool)
    returns (result: Result<Manifest, Failure>, delivered: seq<Delivery>)
    ensures decryption == R.KeyInvalid ==> result == Err(BadKey) && delivered == []
    ensures decryption == R.CannotOpen ==> result == Err(WrongKey) && delivered == []
    ensures decryption.Plaintext? ==>
              (result, delivered)
              == Inspect(codec, R.Cursor(Flatten(decryption.chunks), decryption.breaksOff), accepts)
  {
    delivered := [];
    if decryption == R.KeyInvalid {
      return Err(BadKey), [];
    }
    if decryption == R.CannotOpen {
      return Err(WrongKey), [];
    }
    var reader := new R.StreamByteReader(decryption.chunks, decryption.breaksOff);
    var magicLine := reader.ReadLine(MAX_MAGIC_BYTES);
    if magicLine.Err? {
      return Err(Unreadable(magicLine.error)), [];
    }
    if Decode(codec, magicLine.value).None? {
      return Err(NotText), [];
    }
    if !IsMagic(codec, magicLine.value) {
      return Err(NotABackup), [];
    }
    result, delivered := ReadManifestAndNotes(codec, reader, accepts);
  }

  // ---- The layout, described without a reader ----

  ghost predicate NotesFit(codec: Codec, notes: seq<Note>, contents: seq<Bytes>) {
    && |contents| == |notes|
    && forall i :: 0 <= i < |notes| ==> NoteFits(codec, notes[i], contents[i])
  }

  function Layout(magicLine: Bytes, manifestLine: Bytes, contents: seq<Bytes>): Bytes {
    magicLine + [NEWLINE] + (manifestLine + [NEWLINE] + Flatten(contents))
  }

  ghost predicate HeaderFits(codec: Codec, magicLine: Bytes, manifestLine: Bytes, manifest: Manifest) {
    && NEWLINE !in magicLine && |magicLine| <= 64
    && DecodeText(codec.utf8, magicLine) in [Some("MDEVOLVED-BACKUP-V1"), Some("OWD-BACKUP-V1")]
    && NEWLINE !in manifestLine && |manifestLine| <= 5 * 1024 * 1024
    && DecodeText(codec.utf8, manifestLine).Some?
    && codec.parse(DecodeText(codec.utf8, manifestLine).value) == Some(manifest)
  }

  ghost predicate LaidOutAs(
      codec: Codec, plaintext: Bytes, manifest: Manifest,
      magicLine: Bytes, manifestLine: Bytes, contents: seq<Bytes>)
  {
    && HeaderFits(codec, magicLine, manifestLine, manifest)
    && NotesFit(codec, manifest.notes, contents)
    && plaintext == Layout(magicLine, manifestLine, contents)
  }

  ghost predicate IsBackupOf(codec: Codec, plaintext: Bytes, manifest: Manifest) {
    exists magicLine, manifestLine, contents ::
      LaidOutAs(codec, plaintext, manifest, magicLine, manifestLine, contents)
  }

  ghost function Deliveries(codec: Codec, notes: seq<Note>, contents: seq<Bytes>): seq<Delivery>
    requires NotesFit(codec, notes, contents)
  {
    seq(|notes|, i requires 0 <= i < |notes| =>
      assert NoteFits(codec, notes[i], contents[i]);
      DeliveryOf(codec, notes[i], contents[i], i))
  }

  lemma {:induction false} FittingNotesPass(
      codec: Codec, notes: seq<Note>, contents: seq<Bytes>, i: nat, accepts: nat -> bool)
    requires NotesFit(codec, notes, contents) && i <= |notes|
    requires forall k: nat :: i <= k < |notes| ==> accepts(k)
    ensures InspectNotes(codec, R.Cursor(Flatten(contents[i..]), false), notes, i, accepts)
            == (Ok(()), Deliveries(codec, notes, contents)[i..])
    decreases |notes| - i
  {
    var ds := Deliveries(codec, notes, contents);
    if i == |notes| {
      assert contents[i..] == [] && ds[i..] == [];
    } else {
      var s, rest := Flatten(contents[i..]), Flatten(contents[i + 1..]);
      assert NoteFits(codec, notes[i], contents[i]);
      assert contents[i..][0] == contents[i] && contents[i..][1..] == contents[i + 1..];
      assert s == contents[i] + rest;
      assert s[..|contents[i]|] == contents[i] && s[|contents[i]|..] == rest;
      FittingNotesPass(codec, notes, contents, i + 1, accepts);
      AcceptedNote(codec, R.Cursor(s, false), notes, i, accepts, contents[i]);
      assert ds[i..] == [ds[i]] + ds[i + 1..];
    }
  }

  /** The contents that a successful reading of notes `i` onwards has cut out. */
  lemma {:induction false} PassingNotesFit(codec: Codec, c: R.Cursor, notes: seq<Note>, i: nat, accepts: nat -> bool)
    returns (contents: seq<Bytes>)
    requires i <= |notes| && InspectNotes(codec, c, notes, i, accepts).0.Ok?
    ensures !c.broken && c.rest == Flatten(contents) && NotesFit(codec, notes[i..], contents)
    ensures forall k: nat :: i <= k < |notes| ==> accepts(k)
    decreases |notes| - i
  {
    if i == |notes| {
      contents := [];
    } else {
      var n := notes[i].byteLength;
      var rest := PassingNotesFit(codec, R.AfterBytes(c, n), notes, i + 1, accepts);
      var bytes := c.rest[..n];
      contents := [bytes] + rest;
      assert contents[1..] == rest && c.rest == bytes + c.rest[n..];
      assert NoteFits(codec, notes[i], bytes);
      forall k | 0 <= k < |notes[i..]| ensures NoteFits(codec, notes[i..][k], contents[k]) {
        if k > 0 {
          assert notes[i..][k] == notes[i + 1..][k - 1] && contents[k] == rest[k - 1];
        }
      }
    }
  }

  lemma {:induction false} LineNames(a: string, b: string)
    ensures a + "\n" == b + "\n" <==> a == b
  {
    assert (a + "\n")[..|a|] == a && (b + "\n")[..|b|] == b;
  }

  lemma {:induction false} MagicIff(codec: Codec, line: Bytes)
    ensures IsMagic(codec, line) <==>
            DecodeText(codec.utf8, line) in [Some("MDEVOLVED-BACKUP-V1"), Some("OWD-BACKUP-V1")]
  {
    if Decode(codec, line).Some? {
      var name := Decode(codec, line).value;
      LineNames(name, "MDEVOLVED-BACKUP-V1");
      LineNames(name, "OWD-BACKUP-V1");
      assert "MDEVOLVED-BACKUP-V1" + "\n" == "MDEVOLVED-BACKUP-V1\n";
      assert "OWD-BACKUP-V1" + "\n" == "OWD-BACKUP-V1\n";
    }
  }

  /** Layout is accepted, and every note reaches the callback once, in order. */
  lemma {:induction false} LayoutIsAccepted(
      codec: Codec, magicLine: Bytes, manifestLine: Bytes, contents: seq<Bytes>, manifest: Manifest,
      accepts: nat -> bool)
    requires HeaderFits(codec, magicLine, manifestLine, manifest)
    requires NotesFit(codec, manifest.notes, contents)
    requires forall k: nat :: k < |manifest.notes| ==> accepts(k)
    ensures Inspect(codec, R.Cursor(Layout(magicLine, manifestLine, contents), false), accepts)
            == (Ok(manifest), Deliveries(codec, manifest.notes, contents))
  {
    MagicIff(codec, magicLine);
    R.LineThenRest(magicLine, manifestLine + [NEWLINE] + Flatten(contents), false, MAX_MAGIC_BYTES);
    R.LineThenRest(manifestLine, Flatten(contents), false, MAX_MANIFEST_BYTES);
    assert contents[0..] == contents;
    FittingNotesPass(codec, manifest.notes, contents, 0, accepts);
  }

  lemma {:induction false} AcceptedHasLayout(codec: Codec, c: R.Cursor, accepts: nat -> bool, manifest: Manifest)
    requires Inspect(codec, c, accepts).0 == Ok(manifest)
    ensures !c.broken && IsBackupOf(codec, c.rest, manifest)
    ensures forall k: nat :: k < |manifest.notes| ==> accepts(k)
  {
    var magicLine := R.LineAt(c, MAX_MAGIC_BYTES).value;
    R.LineIff(c, MAX_MAGIC_BYTES, magicLine);
    var c1 := R.AfterLine(c, MAX_MAGIC_BYTES);
    var manifestLine := R.LineAt(c1, MAX_MANIFEST_BYTES).value;
    R.LineIff(c1, MAX_MANIFEST_BYTES, manifestLine);
    var c2 := R.AfterLine(c1, MAX_MANIFEST_BYTES);
    var contents := PassingNotesFit(codec, c2, manifest.notes, 0, accepts);
    assert manifest.notes[0..] == manifest.notes;
    MagicIff(codec, magicLine);
    assert HeaderFits(codec, magicLine, manifestLine, manifest);
    assert LaidOutAs(codec, c.rest, manifest, magicLine, manifestLine, contents);
  }

  /**
   * A backup is accepted exactly when its plaintext is complete, has the layout of that manifest
   * down to the last byte, and no callback refuses.
   */
  lemma {:induction false} AcceptedIffLayout(codec: Codec, c: R.Cursor, accepts: nat -> bool, manifest: Manifest)
    ensures Inspect(codec, c, accepts).0 == Ok(manifest) <==>
            && !c.broken
            && IsBackupOf(codec, c.rest, manifest)
            && forall k: nat :: k < |manifest.notes| ==> accepts(k)
  {
    if Inspect(codec, c, accepts).0 == Ok(manifest) {
      AcceptedHasLayout(codec, c, accepts, manifest);
    }
    if && !c.broken
       && IsBackupOf(codec, c.rest, manifest)
       && forall k: nat :: k < |manifest.notes| ==> accepts(k)
    {
      var magicLine, manifestLine, contents :|
        LaidOutAs(codec, c.rest, manifest, magicLine, manifestLine, contents);
      LayoutIsAccepted(codec, magicLine, manifestLine, contents, manifest, accepts);
    }
  }

  /** The text of some bytes that fit the note. */
  ghost predicate VerifiedText(codec: Codec, note: Note, content: string) {
    exists bytes :: NoteFits(codec, note, bytes) && Decode(codec, bytes) == Some(content)
  }

  /** The deliveries are those of notes `i`, `i + 1` and so on, each with a verified text. */
  ghost predicate VerifiedFrom(codec: Codec, notes: seq<Note>, i: nat, ds: seq<Delivery>) {
    && i + |ds| <= |notes|
    && forall k :: i <= k < i + |ds| ==>
         && ds[k - i].note == notes[k] && ds[k - i].index == k
         && VerifiedText(codec, notes[k], ds[k - i].content)
  }

  lemma {:induction false} OneMoreVerified(
      codec: Codec, notes: seq<Note>, i: nat, bytes: Bytes, d: Delivery, more: seq<Delivery>)
    requires i < |notes| && NoteFits(codec, notes[i], bytes)
    requires d == DeliveryOf(codec, notes[i], bytes, i)
    requires VerifiedFrom(codec, notes, i + 1, more)
    ensures VerifiedFrom(codec, notes, i, [d] + more)
  {
    assert VerifiedText(codec, notes[i], d.content);
    var ds := [d] + more;
    forall k | i < k < i + |ds|
      ensures ds[k - i].note == notes[k] && ds[k - i].index == k
      ensures VerifiedText(codec, notes[k], ds[k - i].content)
    {
      assert ds[k - i] == more[k - (i + 1)];
    }
  }

  /** One note that passes: its delivery, and what follows if it is accepted. */
  lemma {:induction false} PassingNote(
      codec: Codec, c: R.Cursor, notes: seq<Note>, i: nat, accepts: nat -> bool) returns (bytes: Bytes)
    requires i < |notes| && InspectNotes(codec, c, notes, i, accepts).1 != []
    ensures NoteFits(codec, notes[i], bytes)
    ensures var d := DeliveryOf(codec, notes[i], bytes, i);
            InspectNotes(codec, c, notes, i, accepts).1 ==
              if accepts(i)
              then [d] + InspectNotes(codec, R.AfterBytes(c, notes[i].byteLength), notes, i + 1, accepts).1
              else [d]
  {
    bytes := R.BytesAt(c, notes[i].byteLength).value;
  }

  /** Every delivery, also of a run that fails later, is the next note with its verified bytes decoded. */
  lemma {:induction false} DeliveriesAreVerified(
      codec: Codec, c: R.Cursor, notes: seq<Note>, i: nat, accepts: nat -> bool)
    requires i <= |notes|
    ensures VerifiedFrom(codec, notes, i, InspectNotes(codec, c, notes, i, accepts).1)
    decreases |notes| - i
  {
    if i < |notes| && InspectNotes(codec, c, notes, i, accepts).1 != [] {
      var bytes := PassingNote(codec, c, notes, i, accepts);
      var d := DeliveryOf(codec, notes[i], bytes, i);
      var rest := R.AfterBytes(c, notes[i].byteLength);
      DeliveriesAreVerified(codec, rest, notes, i + 1, accepts);
      OneMoreVerified(codec, notes, i, bytes, d, InspectNotes(codec, rest, notes, i + 1, accepts).1);
      OneMoreVerified(codec, notes, i, bytes, d, []);
      assert [d] + [] == [d];
    }
  }

  /** So no run, accepted or not, hands unverified text to the callback or skips a note. */
  lemma {:induction false} NothingUnverifiedIsDelivered(codec: Codec, c: R.Cursor, accepts: nat -> bool)
    ensures var ds := Inspect(codec, c, accepts).1;
            forall k :: 0 <= k < |ds| ==> ds[k].index == k && VerifiedText(codec, ds[k].note, ds[k].content)
  {
    if Inspect(codec, c, accepts).1 != [] {
      var c1 := R.AfterLine(c, MAX_MAGIC_BYTES);
      var manifest := ParseManifest(codec, R.LineAt(c1, MAX_MANIFEST_BYTES).value).value;
      DeliveriesAreVerified(codec, R.AfterLine(c1, MAX_MANIFEST_BYTES), manifest.notes, 0, accepts);
      var ds := Inspect(codec, c, accepts).1;
      forall k | 0 <= k < |ds| ensures ds[k].index == k && VerifiedText(codec, ds[k].note, ds[k].content) {
        assert ds[k - 0] == ds[k] && ds[k].note == manifest.notes[k];
      }
    }
  }

  // ---- Writing a backup and reading it again ----

  /** The writer's half: texts to UTF-8, manifests to one line of JSON. */
  datatype Encoder = Encoder(utf8: string -> Bytes, stringify: Manifest -> string)

  /** The text survives being encoded and decoded. */
  ghost predicate Survives(codec: Codec, encoder: Encoder, text: string) {
    codec.utf8(encoder.utf8(text)) == Some(text)
  }

  /** The text can stand as one line of the header. */
  ghost predicate FitsOnALine(codec: Codec, encoder: Encoder, text: string, maxBytes: nat) {
    && Survives(codec, encoder, text) && WithoutMark(text) == text
    && NEWLINE !in encoder.utf8(text) && |encoder.utf8(text)| <= maxBytes
  }

  datatype Original = Original(path: string, text: string)

  function NoteOf(codec: Codec, encoder: Encoder, o: Original): Note {
    var bytes := encoder.utf8(o.text);
    Note(o.path, |bytes|, codec.sha256Hex(bytes))
  }

  function ManifestOf(codec: Codec, encoder: Encoder, header: Id, originals: seq<Original>): Manifest {
    Manifest(header, seq(|originals|, i requires 0 <= i < |originals| => NoteOf(codec, encoder, originals[i])))
  }

  function ContentsOf(encoder: Encoder, originals: seq<Original>): seq<Bytes> {
    seq(|originals|, i requires 0 <= i < |originals| => encoder.utf8(originals[i].text))
  }

  function BuildBackup(codec: Codec, encoder: Encoder, name: string, header: Id, originals: seq<Original>): Bytes {
    Layout(
      encoder.utf8(name),
      encoder.utf8(encoder.stringify(ManifestOf(codec, encoder, header, originals))),
      ContentsOf(encoder, originals))
  }

  lemma {:induction false} OriginalFits(codec: Codec, encoder: Encoder, o: Original)
    requires Survives(codec, encoder, o.text)
    ensures NoteFits(codec, NoteOf(codec, encoder, o), encoder.utf8(o.text))
    ensures Decode(codec, encoder.utf8(o.text)) == Some(WithoutMark(o.text))
  {
  }

  lemma {:induction false} OriginalsFit(codec: Codec, encoder: Encoder, header: Id, originals: seq<Original>)
    requires forall o <- originals :: Survives(codec, encoder, o.text)
    ensures var m := ManifestOf(codec, encoder, header, originals);
            var contents := ContentsOf(encoder, originals);
            && NotesFit(codec, m.notes, contents)
            && forall i :: 0 <= i < |originals| ==> Decode(codec, contents[i]) == Some(WithoutMark(originals[i].text))
  {
    forall i | 0 <= i < |originals|
      ensures NoteFits(codec, ManifestOf(codec, encoder, header, originals).notes[i], ContentsOf(encoder, originals)[i])
      ensures Decode(codec, ContentsOf(encoder, originals)[i]) == Some(WithoutMark(originals[i].text))
    {
      OriginalFits(codec, encoder, originals[i]);
    }
  }

  lemma {:induction false} MarksDecide(s: string)
    ensures WithoutMark(s) == s <==> !([BYTE_ORDER_MARK] <= s)
  {
    assert |WithoutMark(s)| < |s| <==> [BYTE_ORDER_MARK] <= s;
  }

  /** Behind a well-written header the verdict is up to the manifest text and the notes. */
  lemma {:induction false} BuiltHeaderIsRead(
      codec: Codec, encoder: Encoder, name: string, text: string, contents: seq<Bytes>, accepts: nat -> bool)
    requires name + "\n" in MAGICS && FitsOnALine(codec, encoder, name, MAX_MAGIC_BYTES)
    requires FitsOnALine(codec, encoder, text, MAX_MANIFEST_BYTES)
    ensures var verdict :=
              Inspect(codec, R.Cursor(Layout(encoder.utf8(name), encoder.utf8(text), contents), false), accepts);
            match codec.parse(text)
            case None => verdict == (Err(BadManifest), [])
            case Some(m) =>
              var (r, delivered) := InspectNotes(codec, R.Cursor(Flatten(contents), false), m.notes, 0, accepts);
              && verdict.1 == delivered
              && verdict.0 == match r { case Ok(_) => Ok(m) case Err(f) => Err(f) }
  {
    var rest := encoder.utf8(text) + [NEWLINE] + Flatten(contents);
    R.LineThenRest(encoder.utf8(name), rest, false, MAX_MAGIC_BYTES);
    R.LineThenRest(encoder.utf8(text), Flatten(contents), false, MAX_MANIFEST_BYTES);
    assert Decode(codec, encoder.utf8(name)) == Some(name);
    assert Decode(codec, encoder.utf8(text)) == Some(text);
  }

  /** What a callback that never refuses gets from contents that fit. */
  lemma {:induction false} FittingNotesAreDelivered(
      codec: Codec, notes: seq<Note>, contents: seq<Bytes>, accepts: nat -> bool)
    requires NotesFit(codec, notes, contents) && forall k: nat :: k < |notes| ==> accepts(k)
    ensures InspectNotes(codec, R.Cursor(Flatten(contents), false), notes, 0, accepts)
            == (Ok(()), Deliveries(codec, notes, contents))
  {
    FittingNotesPass(codec, notes, contents, 0, accepts);
    assert contents[0..] == contents;
    assert Deliveries(codec, notes, contents)[0..] == Deliveries(codec, notes, contents);
  }

  /** Every original, with its text as a decoder hands it over. */
  ghost predicate AllDelivered(
      codec: Codec, encoder: Encoder, originals: seq<Original>, delivered: seq<Delivery>)
  {
    && |delivered| == |originals|
    && forall i :: 0 <= i < |originals| ==>
         delivered[i] == Delivery(NoteOf(codec, encoder, originals[i]), WithoutMark(originals[i].text), i)
  }

  /** All texts come back exactly when none starts with a byte order mark. */
  lemma {:induction false} TextsComeBackIff(
      codec: Codec, encoder: Encoder, originals: seq<Original>, delivered: seq<Delivery>)
    requires AllDelivered(codec, encoder, originals, delivered)
    ensures (forall i :: 0 <= i < |originals| ==> delivered[i].content == originals[i].text) <==>
            (forall i :: 0 <= i < |originals| ==> !([BYTE_ORDER_MARK] <= originals[i].text))
  {
    forall i | 0 <= i < |originals|
      ensures WithoutMark(originals[i].text) == originals[i].text <==> !([BYTE_ORDER_MARK] <= originals[i].text)
    {
      MarksDecide(originals[i].text);
    }
  }

  /**
   * Round trip, for a text encoding that is undone on the texts at hand: a built backup is accepted
   * with its own manifest exactly when that manifest, written out, is read as itself - which JSON
   * grants and the schema may refuse. Then the callback gets the original notes in order, and all
   * their texts unchanged exactly when none starts with a byte order mark.
   */
  lemma {:induction false} BuiltBackupReadsBack(
      codec: Codec, encoder: Encoder, name: string, header: Id, originals: seq<Original>)
    requires name + "\n" in MAGICS && FitsOnALine(codec, encoder, name, MAX_MAGIC_BYTES)
    requires FitsOnALine(
               codec, encoder, encoder.stringify(ManifestOf(codec, encoder, header, originals)), MAX_MANIFEST_BYTES)
    requires forall o <- originals :: Survives(codec, encoder, o.text)
    ensures var m := ManifestOf(codec, encoder, header, originals);
            var (result, delivered) :=
              Inspect(codec, R.Cursor(BuildBackup(codec, encoder, name, header, originals), false), _ => true);
            && (result == Ok(m) <==> codec.parse(encoder.stringify(m)) == Some(m))
            && (result == Ok(m) ==>
                  && AllDelivered(codec, encoder, originals, delivered)
                  && ((forall i :: 0 <= i < |originals| ==> delivered[i].content == originals[i].text) <==>
                      (forall i :: 0 <= i < |originals| ==> !([BYTE_ORDER_MARK] <= originals[i].text))))
  {
    var m := ManifestOf(codec, encoder, header, originals);
    var contents := ContentsOf(encoder, originals);
    BuiltHeaderIsRead(codec, encoder, name, encoder.stringify(m), contents, _ => true);
    OriginalsFit(codec, encoder, header, originals);
    FittingNotesAreDelivered(codec, m.notes, contents, _ => true);
    if codec.parse(encoder.stringify(m)) == Some(m) {
      TextsComeBackIff(codec, encoder, originals, Deliveries(codec, m.notes, contents));
    }
  }
}
