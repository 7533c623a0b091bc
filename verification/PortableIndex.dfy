/**
 * The outside of a portable snapshot: a bounded read of a decrypted stream, the index in the first
 * two lines of the file, and the parts that the index lays end to end behind them.
 */
module PortableIndex {
  import opened Common
  import R = ByteReader

  const MAGICS: seq<string> := ["MDEVOLVED-SNAPSHOT-EXPORT-V3\n", "OWD-SNAPSHOT-EXPORT-V2\n"]
  const MAX_EXPORT_INDEX_BYTES: nat := 2 * 1024 * 1024
  const MAX_PARTS: nat := 3 * 5000 + 1
  const MAX_PART_BYTES: nat := 40 * 1024 * 1024

  // ---- Bounded streams ----

  datatype StreamFailure = LimitExceeded | StreamFailed

  /** What a bounded read of these bytes has to give. */
  function Bounded(bytes: Bytes, breaksOff: bool, maxBytes: nat): Result<Bytes, StreamFailure> {
    if |bytes| > maxBytes then Err(LimitExceeded)
    else if breaksOff then Err(StreamFailed)
    else Ok(bytes)
  }

  method SetAt(bytes: array<Byte>, chunk: Bytes, offset: nat)
    requires offset + |chunk| <= bytes.Length
    modifies bytes
    ensures bytes[..offset + |chunk|] == old(bytes[..offset]) + chunk
    ensures bytes[offset + |chunk|..] == old(bytes[offset + |chunk|..])
  {
    forall k | 0 <= k < |chunk| {
      bytes[offset + k] := chunk[k];
    }
  }

  /** Fills one array of the known size, chunk by chunk. */
  method Concatenate(chunks: seq<Bytes>, total: nat) returns (r: Bytes)
    requires total == |Flatten(chunks)|
    ensures r == Flatten(chunks)
  {
    var bytes := new Byte[total];
    var offset := 0;
    var i := 0;
    assert chunks[0..] == chunks;
    while i < |chunks|
      invariant 0 <= i <= |chunks|
      invariant 0 <= offset <= bytes.Length
      invariant bytes[..offset] + Flatten(chunks[i..]) == Flatten(chunks)
    {
      var chunk := chunks[i];
      assert chunks[i..][0] == chunk && chunks[i..][1..] == chunks[i + 1..];
      assert bytes[..offset] + (chunk + Flatten(chunks[i + 1..])) == bytes[..offset] + chunk + Flatten(chunks[i + 1..]);
      assert offset + |chunk| <= |Flatten(chunks)|;
      SetAt(bytes, chunk, offset);
      offset := offset + |chunk|;
      i := i + 1;
    }
    assert bytes[..offset] == bytes[..];
    return bytes[..];
  }

  method ReadBoundedStream(stream: seq<Bytes>, breaksOff: bool, maxBytes: nat)
    returns (r: Result<Bytes, StreamFailure>)
    ensures r == Bounded(Flatten(stream), breaksOff, maxBytes)
  {
    var chunks: seq<Bytes> := [];
    var total := 0;
    var next := 0;
    while next < |stream|
      invariant 0 <= next <= |stream|
      invariant chunks == stream[..next]
      invariant total == |Flatten(chunks)| <= maxBytes
    {
      var chunk := stream[next];
      total := total + |chunk|;
      FlattenSnoc(chunks, chunk);
      if total > maxBytes {
        FlattenAppend(chunks + [chunk], stream[next + 1..]);
        assert stream == chunks + [chunk] + stream[next + 1..];
        return Err(LimitExceeded);
      }
      chunks := chunks + [chunk];
      next := next + 1;
    }
    assert chunks == stream;
    if breaksOff {
      return Err(StreamFailed);
    }
    var bytes := Concatenate(chunks, total);
    return Ok(bytes);
  }

  // ---- The index ----

  datatype Role = ManifestPart | ContentPart

  datatype Part = Part(ciphertextBytes: nat, portableObjectId: Id, role: Role)

  datatype Selection = NoIntelligence | Approved | ApprovedAndUnvetted

  datatype Index = Index(
    snapshotId: Id,
    parts: seq<Part>,
    requiredCapabilities: seq<string>,
    intelligenceSelection: Option<Selection>)

  /** A part together with the half-open range of the file that holds its ciphertext. */
  datatype LocatedPart = LocatedPart(part: Part, start: nat, end: nat)

  datatype Portable = Portable(index: Index, parts: map<Id, LocatedPart>)

  /** UTF-8, the JSON shape of an index, and the capabilities that this version understands. */
  datatype Codec = Codec(utf8: Bytes -> Option<string>, parse: string -> Option<Index>, supported: set<string>)

  datatype Failure =
    | HeaderIncomplete
    | NotText
    | NotASnapshot
    | BadIndex
    | NeedsNewerVersion(unsupported: seq<string>)
    | BadBoundaries

  predicate DistinctIds(parts: seq<Part>) {
    forall i, j :: 0 <= i < j < |parts| ==> parts[i].portableObjectId != parts[j].portableObjectId
  }

  /** What the schema asks of an index beyond its shape: one manifest, which comes first, and distinct ids. */
  predicate WellFormed(index: Index) {
    && 1 <= |index.parts| <= MAX_PARTS
    && index.parts[0].role == ManifestPart
    && (forall i :: 1 <= i < |index.parts| ==> index.parts[i].role == ContentPart)
    && DistinctIds(index.parts)
    && (forall part <- index.parts :: 0 < part.ciphertextBytes <= MAX_PART_BYTES)
    && 1 <= |index.requiredCapabilities| <= 32
  }

  function Unsupported(supported: set<string>, values: seq<string>): seq<string> {
    if values == [] then []
    else (if values[0] in supported then [] else [values[0]]) + Unsupported(supported, values[1..])
  }

  lemma {:induction false} NothingUnsupported(supported: set<string>, values: seq<string>)
    ensures Unsupported(supported, values) == [] <==> forall v <- values :: v in supported
  {
    if values != [] {
      NothingUnsupported(supported, values[1..]);
      assert values == [values[0]] + values[1..];
    }
  }

  /** The two lines at the head of the file and the offset of the first byte behind them. */
  datatype Header = Header(magicLine: Bytes, indexLine: Bytes, end: nat)

  function Prefix(file: Bytes): Bytes {
    if |file| <= MAX_EXPORT_INDEX_BYTES then file else file[..MAX_EXPORT_INDEX_BYTES]
  }

  function HeaderIn(prefix: Bytes): Option<Header> {
    match R.FirstNewline(prefix)
    case None => None
    case Some(first) =>
      var rest := prefix[first + 1..];
      match R.FirstNewline(rest)
      case None => None
      case Some(length) => Some(Header(prefix[..first], rest[..length], first + 1 + length + 1))
  }

  function HeaderOf(file: Bytes): Option<Header> {
    HeaderIn(Prefix(file))
  }

  function IndexOf(codec: Codec, header: Header): Result<Index, Failure> {
    match DecodeText(codec.utf8, header.magicLine)
    case None => Err(NotText)
    case Some(name) =>
      if name + "\n" !in MAGICS then Err(NotASnapshot)
      else
        match DecodeText(codec.utf8, header.indexLine)
        case None => Err(NotText)
        case Some(text) =>
          match codec.parse(text)
          case None => Err(BadIndex)
          case Some(index) =>
            if !WellFormed(index) then Err(BadIndex)
            else
              var unsupported := Unsupported(codec.supported, index.requiredCapabilities);
              if unsupported != [] then Err(NeedsNewerVersion(unsupported)) else Ok(index)
  }

  /** Where part `i` starts when the parts follow each other from `offset` on. */
  function StartOf(offset: nat, parts: seq<Part>, i: nat): nat
    requires i <= |parts|
  {
    if i == 0 then offset else StartOf(offset, parts, i - 1) + parts[i - 1].ciphertextBytes
  }

  function Locate(offset: nat, parts: seq<Part>, i: nat): LocatedPart
    requires i < |parts|
  {
    LocatedPart(parts[i], StartOf(offset, parts, i), StartOf(offset, parts, i + 1))
  }

  /** The map after the first `n` parts: a repeated id would keep its last place. */
  function Located(offset: nat, parts: seq<Part>, n: nat): map<Id, LocatedPart>
    requires n <= |parts|
  {
    if n == 0 then map[]
    else Located(offset, parts, n - 1)[parts[n - 1].portableObjectId := Locate(offset, parts, n - 1)]
  }

  function Parse(codec: Codec, file: Bytes): Result<Portable, Failure> {
    match HeaderOf(file)
    case None => Err(HeaderIncomplete)
    case Some(header) =>
      match IndexOf(codec, header)
      case Err(f) => Err(f)
      case Ok(index) =>
        if StartOf(header.end, index.parts, |index.parts|) != |file| then Err(BadBoundaries)
        else Ok(Portable(index, Located(header.end, index.parts, |index.parts|)))
  }

  method ParsePortableIndex(codec: Codec, file: Bytes) returns (r: Result<Portable, Failure>)
    ensures r == Parse(codec, file)
  {
    var header := HeaderOf(file);
    if header.None? {
      return Err(HeaderIncomplete);
    }
    var index := IndexOf(codec, header.value);
    if index.Err? {
      return Err(index.error);
    }
    var listed := index.value.parts;
    var offset := header.value.end;
    var parts: map<Id, LocatedPart> := map[];
    var i := 0;
    while i < |listed|
      invariant 0 <= i <= |listed|
      invariant offset == StartOf(header.value.end, listed, i)
      invariant parts == Located(header.value.end, listed, i)
    {
      var end := offset + listed[i].ciphertextBytes;
      parts := parts[listed[i].portableObjectId := LocatedPart(listed[i], offset, end)];
      offset := end;
      i := i + 1;
    }
    if offset != |file| {
      return Err(BadBoundaries);
    }
    return Ok(Portable(index.value, parts));
  }

  // ---- Tiling ----

  /** With distinct ids the map forgets nothing and confuses nothing. */
  lemma {:induction false} LocatedHas(offset: nat, parts: seq<Part>, n: nat, i: nat)
    requires i < n <= |parts| && DistinctIds(parts)
    ensures parts[i].portableObjectId in Located(offset, parts, n)
    ensures Located(offset, parts, n)[parts[i].portableObjectId] == Locate(offset, parts, i)
  {
    if i < n - 1 {
      LocatedHas(offset, parts, n - 1, i);
    }
  }

  lemma {:induction false} LocatedOnly(offset: nat, parts: seq<Part>, n: nat, id: Id) returns (i: nat)
    requires n <= |parts| && id in Located(offset, parts, n)
    ensures i < n && parts[i].portableObjectId == id
  {
    if parts[n - 1].portableObjectId == id {
      i := n - 1;
    } else {
      i := LocatedOnly(offset, parts, n - 1, id);
    }
  }

  lemma {:induction false} StartsGrow(offset: nat, parts: seq<Part>, i: nat, j: nat)
    requires i <= j <= |parts|
    ensures StartOf(offset, parts, i) <= StartOf(offset, parts, j)
    decreases j
  {
    if i < j {
      StartsGrow(offset, parts, i, j - 1);
    }
  }

  lemma {:induction false} PartAt(offset: nat, parts: seq<Part>, n: nat, x: nat) returns (i: nat)
    requires n <= |parts| && offset <= x < StartOf(offset, parts, n)
    ensures i < n && StartOf(offset, parts, i) <= x < StartOf(offset, parts, i + 1)
  {
    if StartOf(offset, parts, n - 1) <= x {
      i := n - 1;
    } else {
      i := PartAt(offset, parts, n - 1, x);
    }
  }

  ghost predicate Holds(l: LocatedPart, x: nat) {
    l.start <= x < l.end
  }

  ghost predicate OnlyHolder(parts: map<Id, LocatedPart>, id: Id, x: nat) {
    && id in parts
    && Holds(parts[id], x)
    && forall other <- parts :: Holds(parts[other], x) ==> other == id
  }

  /** The map has the listed parts under their ids, and nothing else. */
  ghost predicate Lists(parts: map<Id, LocatedPart>, ps: seq<Part>) {
    && (forall i :: 0 <= i < |ps| ==>
          ps[i].portableObjectId in parts && parts[ps[i].portableObjectId].part == ps[i])
    && (forall id <- parts :: exists i :: 0 <= i < |ps| && ps[i].portableObjectId == id)
  }

  /** In listed order the parts go from `start` to `end` without a gap, each as long as declared. */
  ghost predicate Abut(parts: map<Id, LocatedPart>, ps: seq<Part>, start: nat, end: nat)
    requires Lists(parts, ps)
  {
    && ps != []
    && parts[ps[0].portableObjectId].start == start
    && parts[ps[|ps| - 1].portableObjectId].end == end
    && (forall i :: 1 <= i < |ps| ==>
          parts[ps[i].portableObjectId].start == parts[ps[i - 1].portableObjectId].end)
    && (forall i :: 0 <= i < |ps| ==>
          parts[ps[i].portableObjectId].end == parts[ps[i].portableObjectId].start + ps[i].ciphertextBytes)
  }

  ghost predicate PlacedAt(parts: map<Id, LocatedPart>, ps: seq<Part>, offset: nat, i: nat)
    requires i < |ps|
  {
    ps[i].portableObjectId in parts && parts[ps[i].portableObjectId] == Locate(offset, ps, i)
  }

  lemma {:induction false} LocatedLists(offset: nat, ps: seq<Part>)
    requires DistinctIds(ps)
    ensures Lists(Located(offset, ps, |ps|), ps)
    ensures forall i: nat :: i < |ps| ==> PlacedAt(Located(offset, ps, |ps|), ps, offset, i)
  {
    var parts := Located(offset, ps, |ps|);
    forall i: nat | i < |ps|
      ensures PlacedAt(parts, ps, offset, i)
    {
      LocatedHas(offset, ps, |ps|, i);
    }
    forall i | 0 <= i < |ps|
      ensures ps[i].portableObjectId in parts && parts[ps[i].portableObjectId].part == ps[i]
    {
      assert PlacedAt(parts, ps, offset, i);
    }
    forall id <- parts
      ensures exists i :: 0 <= i < |ps| && ps[i].portableObjectId == id
    {
      var i := LocatedOnly(offset, ps, |ps|, id);
    }
  }

  lemma {:induction false} PlacesAbut(parts: map<Id, LocatedPart>, offset: nat, ps: seq<Part>)
    requires ps != [] && Lists(parts, ps)
    requires forall i: nat :: i < |ps| ==> PlacedAt(parts, ps, offset, i)
    ensures Abut(parts, ps, offset, StartOf(offset, ps, |ps|))
  {
    assert PlacedAt(parts, ps, offset, 0) && PlacedAt(parts, ps, offset, |ps| - 1);
    forall i | 1 <= i < |ps|
      ensures parts[ps[i].portableObjectId].start == parts[ps[i - 1].portableObjectId].end
    {
      assert PlacedAt(parts, ps, offset, i) && PlacedAt(parts, ps, offset, i - 1);
    }
    forall i | 0 <= i < |ps|
      ensures parts[ps[i].portableObjectId].end == parts[ps[i].portableObjectId].start + ps[i].ciphertextBytes
    {
      assert PlacedAt(parts, ps, offset, i);
    }
  }

  /** What acceptance says about the map of parts. */
  lemma {:induction false} Accepted(codec: Codec, file: Bytes)
    requires Parse(codec, file).Ok?
    ensures var p := Parse(codec, file).value;
            && HeaderOf(file).Some?
            && WellFormed(p.index)
            && p.parts == Located(HeaderOf(file).value.end, p.index.parts, |p.index.parts|)
            && StartOf(HeaderOf(file).value.end, p.index.parts, |p.index.parts|) == |file|
  {
  }

  lemma {:induction false} WellFormedParts(index: Index)
    requires WellFormed(index)
    ensures DistinctIds(index.parts) && index.parts != []
  {
  }

  lemma {:induction false} ContiguousWhenAccepted(p: Portable, start: nat, end: nat)
    requires WellFormed(p.index)
    requires p.parts == Located(start, p.index.parts, |p.index.parts|)
    requires StartOf(start, p.index.parts, |p.index.parts|) == end
    ensures Lists(p.parts, p.index.parts) && Abut(p.parts, p.index.parts, start, end)
  {
    WellFormedParts(p.index);
    LocatedLists(start, p.index.parts);
    PlacesAbut(p.parts, start, p.index.parts);
  }

  /**
   * In an accepted file the located parts are exactly those the index lists, and they run without a
   * gap from the end of the header to the end of the file.
   */
  lemma {:induction false} PartsAreContiguous(codec: Codec, file: Bytes)
    requires Parse(codec, file).Ok?
    ensures var p := Parse(codec, file).value;
            && Lists(p.parts, p.index.parts)
            && Abut(p.parts, p.index.parts, HeaderOf(file).value.end, |file|)
  {
    Accepted(codec, file);
    ContiguousWhenAccepted(Parse(codec, file).value, HeaderOf(file).value.end, |file|);
  }

  lemma {:induction false} HoldersAgree(offset: nat, ps: seq<Part>, i: nat, j: nat, x: nat)
    requires i < |ps| && j < |ps|
    requires Holds(Locate(offset, ps, i), x) && Holds(Locate(offset, ps, j), x)
    ensures i == j
  {
    if j < i {
      StartsGrow(offset, ps, j + 1, i);
    } else if i < j {
      StartsGrow(offset, ps, i + 1, j);
    }
  }

  lemma {:induction false} HolderOf(offset: nat, ps: seq<Part>, x: nat) returns (id: Id)
    requires DistinctIds(ps) && offset <= x < StartOf(offset, ps, |ps|)
    ensures OnlyHolder(Located(offset, ps, |ps|), id, x)
  {
    var parts := Located(offset, ps, |ps|);
    var i := PartAt(offset, ps, |ps|, x);
    id := ps[i].portableObjectId;
    LocatedHas(offset, ps, |ps|, i);
    forall other <- parts | Holds(parts[other], x)
      ensures other == id
    {
      var j := LocatedOnly(offset, ps, |ps|, other);
      LocatedHas(offset, ps, |ps|, j);
      HoldersAgree(offset, ps, i, j, x);
    }
  }

  /** So the parts are disjoint and cover the rest of the file: each byte there lies in exactly one. */
  lemma {:induction false} EachByteHasOnePart(codec: Codec, file: Bytes, x: nat)
    requires Parse(codec, file).Ok? && HeaderOf(file).value.end <= x < |file|
    ensures exists id :: OnlyHolder(Parse(codec, file).value.parts, id, x)
  {
    var p := Parse(codec, file).value;
    var id := HolderOf(HeaderOf(file).value.end, p.index.parts, x);
  }

  // ---- Writing a snapshot and locating its parts again ----

  function Layout(magicLine: Bytes, indexLine: Bytes, payload: Bytes): Bytes {
    magicLine + [NEWLINE] + (indexLine + [NEWLINE] + payload)
  }

  lemma {:induction false} TakeBehind<T>(a: seq<T>, b: seq<T>, n: nat)
    requires |a| <= n <= |a| + |b|
    ensures (a + b)[..n] == a + b[..n - |a|]
  {
  }

  lemma {:induction false} LayoutPrefix(magicLine: Bytes, indexLine: Bytes, payload: Bytes)
    returns (first: Bytes)
    requires |magicLine| + |indexLine| + 2 <= MAX_EXPORT_INDEX_BYTES
    ensures Prefix(Layout(magicLine, indexLine, payload)) == Layout(magicLine, indexLine, first)
  {
    var head, rest := magicLine + [NEWLINE], indexLine + [NEWLINE] + payload;
    if |head + rest| <= MAX_EXPORT_INDEX_BYTES {
      first := payload;
    } else {
      var n := MAX_EXPORT_INDEX_BYTES - |head|;
      TakeBehind(head, rest, MAX_EXPORT_INDEX_BYTES);
      TakeBehind(indexLine + [NEWLINE], payload, n);
      first := payload[..n - |indexLine + [NEWLINE]|];
    }
  }

  lemma {:induction false} HeaderSteps(prefix: Bytes, first: nat, rest: Bytes, length: nat)
    requires R.FirstNewline(prefix) == Some(first) && prefix[first + 1..] == rest
    requires R.FirstNewline(rest) == Some(length)
    ensures HeaderIn(prefix) == Some(Header(prefix[..first], rest[..length], first + 1 + length + 1))
  {
  }

  lemma {:induction false} HeaderInLayout(magicLine: Bytes, indexLine: Bytes, payload: Bytes)
    requires NEWLINE !in magicLine && NEWLINE !in indexLine
    ensures HeaderIn(Layout(magicLine, indexLine, payload))
            == Some(Header(magicLine, indexLine, |magicLine| + |indexLine| + 2))
  {
    R.FirstNewlineSplits(magicLine, indexLine + [NEWLINE] + payload);
    R.FirstNewlineSplits(indexLine, payload);
    HeaderSteps(
      Layout(magicLine, indexLine, payload), |magicLine|, indexLine + [NEWLINE] + payload, |indexLine|);
  }

  lemma {:induction false} LaidOutHeader(magicLine: Bytes, indexLine: Bytes, payload: Bytes)
    requires NEWLINE !in magicLine && NEWLINE !in indexLine
    requires |magicLine| + |indexLine| + 2 <= MAX_EXPORT_INDEX_BYTES
    ensures HeaderOf(Layout(magicLine, indexLine, payload))
            == Some(Header(magicLine, indexLine, |magicLine| + |indexLine| + 2))
  {
    var first := LayoutPrefix(magicLine, indexLine, payload);
    HeaderInLayout(magicLine, indexLine, first);
  }

  lemma {:induction false} HeaderSplits(prefix: Bytes) returns (tail: Bytes)
    requires HeaderIn(prefix).Some?
    ensures var h := HeaderIn(prefix).value;
            && h.end == |h.magicLine| + |h.indexLine| + 2
            && NEWLINE !in h.magicLine && NEWLINE !in h.indexLine
            && prefix == Layout(h.magicLine, h.indexLine, tail)
  {
    var rest := prefix[R.FirstNewline(prefix).value + 1..];
    R.FirstNewlineCuts(prefix);
    R.FirstNewlineCuts(rest);
    tail := rest[R.FirstNewline(rest).value + 1..];
  }

  lemma {:induction false} LayoutAppend(magicLine: Bytes, indexLine: Bytes, payload: Bytes, more: Bytes)
    ensures Layout(magicLine, indexLine, payload) + more == Layout(magicLine, indexLine, payload + more)
  {
    assert indexLine + [NEWLINE] + payload + more == indexLine + [NEWLINE] + (payload + more);
  }

  lemma {:induction false} HeaderSplitsFile(file: Bytes) returns (payload: Bytes)
    requires HeaderOf(file).Some?
    ensures var h := HeaderOf(file).value;
            && h.end == |h.magicLine| + |h.indexLine| + 2 <= MAX_EXPORT_INDEX_BYTES
            && NEWLINE !in h.magicLine && NEWLINE !in h.indexLine
            && file == Layout(h.magicLine, h.indexLine, payload)
  {
    var prefix := Prefix(file);
    var h := HeaderOf(file).value;
    var tail := HeaderSplits(prefix);
    var more := file[|prefix|..];
    assert file == prefix + more;
    LayoutAppend(h.magicLine, h.indexLine, tail, more);
    payload := tail + more;
  }

  ghost predicate HeaderFits(codec: Codec, magicLine: Bytes, indexLine: Bytes, index: Index) {
    && DecodeText(codec.utf8, magicLine).Some?
    && DecodeText(codec.utf8, magicLine).value + "\n" in MAGICS
    && DecodeText(codec.utf8, indexLine).Some?
    && codec.parse(DecodeText(codec.utf8, indexLine).value) == Some(index)
    && 1 <= |index.parts| <= 15001 && 1 <= |index.requiredCapabilities| <= 32
    && (forall i :: 0 <= i < |index.parts| ==>
          && (index.parts[i].role == ManifestPart <==> i == 0)
          && 0 < index.parts[i].ciphertextBytes <= 40 * 1024 * 1024)
    && (forall i, j :: 0 <= i < j < |index.parts| ==>
          index.parts[i].portableObjectId != index.parts[j].portableObjectId)
    && forall c <- index.requiredCapabilities :: c in codec.supported
  }

  /** Two lines within the first two mebibytes, and behind them as many bytes as the parts declare. */
  ghost predicate LaidOutAs(
      codec: Codec, file: Bytes, index: Index, magicLine: Bytes, indexLine: Bytes, payload: Bytes)
  {
    && file == Layout(magicLine, indexLine, payload)
    && NEWLINE !in magicLine && NEWLINE !in indexLine
    && |magicLine| + |indexLine| + 2 <= MAX_EXPORT_INDEX_BYTES
    && HeaderFits(codec, magicLine, indexLine, index)
    && StartOf(0, index.parts, |index.parts|) == |payload|
  }

  ghost predicate IsSnapshotOf(codec: Codec, file: Bytes, index: Index) {
    exists magicLine, indexLine, payload :: LaidOutAs(codec, file, index, magicLine, indexLine, payload)
  }

  lemma {:induction false} IndexOfIff(codec: Codec, header: Header, index: Index)
    ensures IndexOf(codec, header) == Ok(index) <==> HeaderFits(codec, header.magicLine, header.indexLine, index)
  {
    NothingUnsupported(codec.supported, index.requiredCapabilities);
  }

  lemma {:induction false} StartsShift(offset: nat, parts: seq<Part>, i: nat)
    requires i <= |parts|
    ensures StartOf(offset, parts, i) == offset + StartOf(0, parts, i)
  {
    if i > 0 {
      StartsShift(offset, parts, i - 1);
    }
  }

  lemma {:induction false} AcceptedHasLayout(codec: Codec, file: Bytes)
    requires Parse(codec, file).Ok?
    ensures IsSnapshotOf(codec, file, Parse(codec, file).value.index)
  {
    var index := Parse(codec, file).value.index;
    var h := HeaderOf(file).value;
    var payload := HeaderSplitsFile(file);
    IndexOfIff(codec, h, index);
    StartsShift(h.end, index.parts, |index.parts|);
    assert LaidOutAs(codec, file, index, h.magicLine, h.indexLine, payload);
  }

  lemma {:induction false} ParseSteps(codec: Codec, file: Bytes, header: Header, index: Index)
    requires HeaderOf(file) == Some(header) && IndexOf(codec, header) == Ok(index)
    requires StartOf(header.end, index.parts, |index.parts|) == |file|
    ensures Parse(codec, file) == Ok(Portable(index, Located(header.end, index.parts, |index.parts|)))
  {
  }

  lemma {:induction false} LayoutLength(magicLine: Bytes, indexLine: Bytes, payload: Bytes)
    ensures |Layout(magicLine, indexLine, payload)| == |magicLine| + |indexLine| + 2 + |payload|
  {
  }

  lemma {:induction false} LaidOutSteps(
      codec: Codec, file: Bytes, index: Index, magicLine: Bytes, indexLine: Bytes, payload: Bytes)
    requires LaidOutAs(codec, file, index, magicLine, indexLine, payload)
    ensures var header := Header(magicLine, indexLine, |magicLine| + |indexLine| + 2);
            && HeaderOf(file) == Some(header)
            && IndexOf(codec, header) == Ok(index)
            && StartOf(header.end, index.parts, |index.parts|) == |file|
  {
    var header := Header(magicLine, indexLine, |magicLine| + |indexLine| + 2);
    LaidOutHeader(magicLine, indexLine, payload);
    LayoutLength(magicLine, indexLine, payload);
    IndexOfIff(codec, header, index);
    StartsShift(header.end, index.parts, |index.parts|);
  }

  lemma {:induction false} LayoutIsAccepted(
      codec: Codec, file: Bytes, index: Index, magicLine: Bytes, indexLine: Bytes, payload: Bytes)
    requires LaidOutAs(codec, file, index, magicLine, indexLine, payload)
    ensures var end := |magicLine| + |indexLine| + 2;
            Parse(codec, file) == Ok(Portable(index, Located(end, index.parts, |index.parts|)))
  {
    LaidOutSteps(codec, file, index, magicLine, indexLine, payload);
    ParseSteps(codec, file, Header(magicLine, indexLine, |magicLine| + |indexLine| + 2), index);
  }

  /** A file is accepted with an index exactly when it has that index's layout. */
  lemma {:induction false} AcceptedIffLayout(codec: Codec, file: Bytes, index: Index)
    ensures Parse(codec, file).Ok? && Parse(codec, file).value.index == index <==> IsSnapshotOf(codec, file, index)
  {
    if Parse(codec, file).Ok? {
      AcceptedHasLayout(codec, file);
    }
    if IsSnapshotOf(codec, file, index) {
      var magicLine, indexLine, payload :| LaidOutAs(codec, file, index, magicLine, indexLine, payload);
      LayoutIsAccepted(codec, file, index, magicLine, indexLine, payload);
    }
  }

  /** The ciphertext of a located part; slicing a file clamps to its bounds. */
  function Slice(file: Bytes, l: LocatedPart): Bytes {
    var end := if l.end <= |file| then l.end else |file|;
    if l.start <= end then file[l.start..end] else []
  }

  ghost predicate BodiesFit(parts: seq<Part>, bodies: seq<Bytes>) {
    && |bodies| == |parts|
    && forall i :: 0 <= i < |parts| ==> |bodies[i]| == parts[i].ciphertextBytes
  }

  lemma {:induction false} BodiesBefore(parts: seq<Part>, bodies: seq<Bytes>, i: nat)
    requires BodiesFit(parts, bodies) && i <= |parts|
    ensures StartOf(0, parts, i) == |Flatten(bodies[..i])|
  {
    if i > 0 {
      BodiesBefore(parts, bodies, i - 1);
      assert bodies[..i] == bodies[..i - 1] + [bodies[i - 1]];
      FlattenSnoc(bodies[..i - 1], bodies[i - 1]);
    }
  }

  lemma {:induction false} SplitAtBody(header: Bytes, bodies: seq<Bytes>, i: nat)
    requires i < |bodies|
    ensures header + Flatten(bodies) == header + Flatten(bodies[..i]) + (bodies[i] + Flatten(bodies[i..][1..]))
  {
    FlattenAppend(bodies[..i], bodies[i..]);
    assert bodies == bodies[..i] + bodies[i..] && bodies[i..][0] == bodies[i];
  }

  lemma {:induction false} SliceOfMiddle(l: LocatedPart, before: Bytes, body: Bytes, after: Bytes)
    requires l.start == |before| && l.end == |before| + |body|
    ensures Slice(before + (body + after), l) == body
  {
    assert (before + (body + after))[|before|..] == body + after;
  }

  lemma {:induction false} BodySlicesBack(header: Bytes, parts: seq<Part>, bodies: seq<Bytes>, i: nat)
    requires BodiesFit(parts, bodies) && i < |bodies|
    ensures Slice(header + Flatten(bodies), Locate(|header|, parts, i)) == bodies[i]
  {
    var l := Locate(|header|, parts, i);
    BodiesBefore(parts, bodies, i);
    StartsShift(|header|, parts, i);
    var before, after := header + Flatten(bodies[..i]), Flatten(bodies[i..][1..]);
    SplitAtBody(header, bodies, i);
    assert l.start == |before| && l.end == |before| + |bodies[i]|;
    SliceOfMiddle(l, before, bodies[i], after);
  }

  /** Every part, looked up under its id and sliced out of the file, is the body it was written from. */
  ghost predicate SlicesBack(file: Bytes, parts: map<Id, LocatedPart>, ps: seq<Part>, bodies: seq<Bytes>) {
    && |bodies| == |ps|
    && Lists(parts, ps)
    && forall i :: 0 <= i < |ps| ==> Slice(file, parts[ps[i].portableObjectId]) == bodies[i]
  }

  lemma {:induction false} BodiesSliceBack(header: Bytes, ps: seq<Part>, bodies: seq<Bytes>)
    requires DistinctIds(ps) && BodiesFit(ps, bodies)
    ensures SlicesBack(header + Flatten(bodies), Located(|header|, ps, |ps|), ps, bodies)
  {
    LocatedLists(|header|, ps);
    var parts := Located(|header|, ps, |ps|);
    forall i | 0 <= i < |ps|
      ensures Slice(header + Flatten(bodies), parts[ps[i].portableObjectId]) == bodies[i]
    {
      assert PlacedAt(parts, ps, |header|, i);
      BodySlicesBack(header, ps, bodies, i);
    }
  }

  lemma {:induction false} BodiesFillThePayload(ps: seq<Part>, bodies: seq<Bytes>)
    requires BodiesFit(ps, bodies)
    ensures StartOf(0, ps, |ps|) == |Flatten(bodies)|
  {
    BodiesBefore(ps, bodies, |bodies|);
    assert bodies[..|bodies|] == bodies;
  }

  lemma {:induction false} LayoutIsHeaderThenPayload(magicLine: Bytes, indexLine: Bytes, payload: Bytes)
    ensures Layout(magicLine, indexLine, payload) == magicLine + [NEWLINE] + (indexLine + [NEWLINE]) + payload
  {
  }

  lemma {:induction false} SlicesBackFrom(
      file: Bytes, header: Bytes, offset: nat, ps: seq<Part>, bodies: seq<Bytes>)
    requires file == header + Flatten(bodies) && offset == |header|
    requires DistinctIds(ps) && BodiesFit(ps, bodies)
    ensures SlicesBack(file, Located(offset, ps, |ps|), ps, bodies)
  {
    BodiesSliceBack(header, ps, bodies);
  }

  ghost predicate ReadsBack(codec: Codec, file: Bytes, index: Index, bodies: seq<Bytes>) {
    exists parts ::
      Parse(codec, file) == Ok(Portable(index, parts)) && SlicesBack(file, parts, index.parts, bodies)
  }

  lemma {:induction false} ReadsBackWith(
      codec: Codec, file: Bytes, index: Index, parts: map<Id, LocatedPart>, bodies: seq<Bytes>)
    requires Parse(codec, file) == Ok(Portable(index, parts))
    requires SlicesBack(file, parts, index.parts, bodies)
    ensures ReadsBack(codec, file, index, bodies)
  {
  }

  lemma {:induction false} LaidOutSlicesBack(
      magicLine: Bytes, indexLine: Bytes, ps: seq<Part>, bodies: seq<Bytes>)
    requires DistinctIds(ps) && BodiesFit(ps, bodies)
    ensures var parts := Located(|magicLine| + |indexLine| + 2, ps, |ps|);
            SlicesBack(Layout(magicLine, indexLine, Flatten(bodies)), parts, ps, bodies)
  {
    var header := magicLine + [NEWLINE] + (indexLine + [NEWLINE]);
    LayoutIsHeaderThenPayload(magicLine, indexLine, Flatten(bodies));
    SlicesBackFrom(
      Layout(magicLine, indexLine, Flatten(bodies)), header, |magicLine| + |indexLine| + 2, ps, bodies);
  }

  /**
   * Round trip: the file written from a header and the concatenated parts is accepted, and slicing
   * it where the parts were located gives back every part's own bytes.
   */
  lemma {:induction false} WrittenPartsSliceBack(
      codec: Codec, magicLine: Bytes, indexLine: Bytes, index: Index, bodies: seq<Bytes>)
    requires NEWLINE !in magicLine && NEWLINE !in indexLine
    requires |magicLine| + |indexLine| + 2 <= MAX_EXPORT_INDEX_BYTES
    requires HeaderFits(codec, magicLine, indexLine, index) && BodiesFit(index.parts, bodies)
    ensures ReadsBack(codec, Layout(magicLine, indexLine, Flatten(bodies)), index, bodies)
  {
    BodiesFillThePayload(index.parts, bodies);
    WellFormedParts(index);
    var file := Layout(magicLine, indexLine, Flatten(bodies));
    LaidOutSlicesBack(magicLine, indexLine, index.parts, bodies);
    LayoutIsAccepted(codec, file, index, magicLine, indexLine, Flatten(bodies));
    ReadsBackWith(
      codec, file, index, Located(|magicLine| + |indexLine| + 2, index.parts, |index.parts|), bodies);
  }
}
