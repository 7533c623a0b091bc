/**
 * The chunked byte reader of the backup inspector, and the cursor over the whole plaintext that it
 * has to be indistinguishable from. A stream delivers its chunks one by one, empty ones included,
 * and then either closes or breaks off with an error (decryption authenticates block by block).
 */
module ByteReader {
  import opened Common

  /** What age decryption makes of a ciphertext: two ways to refuse it, or a stream of plaintext. */
  datatype Decryption = KeyInvalid | CannotOpen | Plaintext(chunks: seq<Bytes>, breaksOff: bool)

  datatype Failure = HeaderInvalid | Truncated | TrailingBytes | StreamFailed

  /** The offset of the first newline, if there is one. */
  function FirstNewline(s: Bytes): (k: Option<nat>)
    ensures k.Some? ==> k.value < |s|
  {
    if s == [] then None
    else if s[0] == NEWLINE then Some(0)
    else
      match FirstNewline(s[1..])
      case None => None
      case Some(k) => Some(k + 1)
  }

  lemma {:induction false} FirstNewlineFacts(s: Bytes)
    ensures FirstNewline(s).None? <==> NEWLINE !in s
    ensures FirstNewline(s).Some? ==>
              s[FirstNewline(s).value] == NEWLINE && NEWLINE !in s[..FirstNewline(s).value]
  {
    if s != [] && s[0] != NEWLINE {
      var rest := s[1..];
      FirstNewlineFacts(rest);
      assert s == [s[0]] + rest;
      if FirstNewline(rest).Some? {
        var k := FirstNewline(rest).value;
        assert s[..k + 1] == [s[0]] + rest[..k];
      }
    }
  }

  lemma {:induction false} FirstNewlineIs(s: Bytes, k: nat)
    requires k < |s| && s[k] == NEWLINE && NEWLINE !in s[..k]
    ensures FirstNewline(s) == Some(k)
  {
    FirstNewlineFacts(s);
    assert s[k] in s;
    assert forall i :: 0 <= i < k ==> s[..k][i] == s[i];
    assert forall i :: 0 <= i < FirstNewline(s).value ==> s[..FirstNewline(s).value][i] == s[i];
  }

  lemma {:induction false} FirstNewlineCuts(s: Bytes)
    requires FirstNewline(s).Some?
    ensures var k := FirstNewline(s).value;
            s == s[..k] + [NEWLINE] + s[k + 1..] && NEWLINE !in s[..k]
  {
    FirstNewlineFacts(s);
  }

  lemma {:induction false} FirstNewlineSplits(line: Bytes, rest: Bytes)
    requires NEWLINE !in line
    ensures var s := line + [NEWLINE] + rest;
            FirstNewline(s) == Some(|line|) && s[..|line|] == line && s[|line| + 1..] == rest
  {
    var s := line + [NEWLINE] + rest;
    assert s[..|line|] == line && s[|line|] == NEWLINE;
    FirstNewlineIs(s, |line|);
  }

  lemma {:induction false} FirstNewlineOfPrefix(a: Bytes, b: Bytes)
    ensures NEWLINE in a ==> FirstNewline(a + b) == FirstNewline(a)
    ensures NEWLINE !in a && FirstNewline(a + b).Some? ==> |a| <= FirstNewline(a + b).value
  {
    FirstNewlineFacts(a);
    FirstNewlineFacts(a + b);
    if NEWLINE in a {
      var k := FirstNewline(a).value;
      assert (a + b)[..k] == a[..k];
      FirstNewlineIs(a + b, k);
    } else {
      assert forall i :: 0 <= i < |a| ==> (a + b)[i] == a[i];
    }
  }

  // ---- The reference: a cursor over the whole plaintext ----

  /** The bytes not yet consumed, and whether an error rather than the end comes after them. */
  datatype Cursor = Cursor(rest: Bytes, broken: bool)

  function LineAt(c: Cursor, maxBytes: nat): Result<Bytes, Failure> {
    match FirstNewline(c.rest)
    case Some(k) => if k <= maxBytes then Ok(c.rest[..k]) else Err(HeaderInvalid)
    case None => if |c.rest| > maxBytes || !c.broken then Err(HeaderInvalid) else Err(StreamFailed)
  }

  function AfterLine(c: Cursor, maxBytes: nat): Cursor {
    match FirstNewline(c.rest)
    case Some(k) => if k <= maxBytes then c.(rest := c.rest[k + 1..]) else c
    case None => c
  }

  function BytesAt(c: Cursor, n: nat): Result<Bytes, Failure> {
    if n <= |c.rest| then Ok(c.rest[..n]) else Err(if c.broken then StreamFailed else Truncated)
  }

  function AfterBytes(c: Cursor, n: nat): Cursor {
    if n <= |c.rest| then c.(rest := c.rest[n..]) else c
  }

  function EndAt(c: Cursor): Result<(), Failure> {
    if c.broken then Err(StreamFailed) else if c.rest == [] then Ok(()) else Err(TrailingBytes)
  }

  lemma {:induction false} LineThenRest(line: Bytes, rest: Bytes, broken: bool, maxBytes: nat)
    requires NEWLINE !in line && |line| <= maxBytes
    ensures LineAt(Cursor(line + [NEWLINE] + rest, broken), maxBytes) == Ok(line)
    ensures AfterLine(Cursor(line + [NEWLINE] + rest, broken), maxBytes) == Cursor(rest, broken)
  {
    FirstNewlineSplits(line, rest);
  }

  /**
   * A line is returned exactly when the first newline lies at an offset of at most `maxBytes`; it
   * is what precedes that newline, and reading goes on right behind it.
   */
  lemma {:induction false} LineIff(c: Cursor, maxBytes: nat, line: Bytes)
    ensures LineAt(c, maxBytes) == Ok(line) <==>
            && |line| <= maxBytes
            && NEWLINE !in line
            && c.rest == line + [NEWLINE] + AfterLine(c, maxBytes).rest
    ensures LineAt(c, maxBytes).Err? ==> AfterLine(c, maxBytes) == c
  {
    if LineAt(c, maxBytes) == Ok(line) {
      FirstNewlineCuts(c.rest);
    }
    if && |line| <= maxBytes
       && NEWLINE !in line
       && c.rest == line + [NEWLINE] + AfterLine(c, maxBytes).rest
    {
      LineThenRest(line, AfterLine(c, maxBytes).rest, c.broken, maxBytes);
    }
  }

  // ---- The reader itself ----

  /** What the reader does is decided by the bytes it has buffered so far. */
  lemma {:induction false} BufferDecides(buffer: Bytes, rest: Bytes, broken: bool, maxBytes: nat)
    ensures var c := Cursor(buffer + rest, broken);
            match FirstNewline(buffer)
            case Some(k) =>
              if k <= maxBytes
              then LineAt(c, maxBytes) == Ok(buffer[..k]) && AfterLine(c, maxBytes).rest == buffer[k + 1..] + rest
              else LineAt(c, maxBytes) == Err(HeaderInvalid) && AfterLine(c, maxBytes) == c
            case None =>
              && (|buffer| > maxBytes || (rest == [] && !broken) ==>
                    LineAt(c, maxBytes) == Err(HeaderInvalid) && AfterLine(c, maxBytes) == c)
              && (|buffer| <= maxBytes && rest == [] && broken ==>
                    LineAt(c, maxBytes) == Err(StreamFailed) && AfterLine(c, maxBytes) == c)
  {
    assert rest == [] ==> buffer + rest == buffer;
    FirstNewlineFacts(buffer);
    FirstNewlineOfPrefix(buffer, rest);
    match FirstNewline(buffer)
    case Some(k) =>
      assert (buffer + rest)[..k] == buffer[..k];
      assert (buffer + rest)[k + 1..] == buffer[k + 1..] + rest;
    case None =>
  }

  class StreamByteReader {
    var buffer: Bytes
    var done: bool
    /** What the stream has still to deliver; empty chunks are possible. */
    var chunks: seq<Bytes>
    /** Whether the stream then breaks off instead of closing. */
    const broken: bool

    ghost predicate Valid()
      reads this
    {
      done ==> chunks == [] && !broken
    }

    ghost function View(): Cursor
      reads this
    {
      Cursor(buffer + Flatten(chunks), broken)
    }

    constructor (stream: seq<Bytes>, breaksOff: bool)
      ensures Valid() && View() == Cursor(Flatten(stream), breaksOff)
    {
      buffer, done, chunks, broken := [], false, stream, breaksOff;
    }

    /** Bounds every loop below: each fill delivers a chunk or learns that there are no more. */
    ghost function Pending(): nat
      reads this
    {
      |chunks| + if done then 0 else 1
    }

    method Fill() returns (ok: bool)
      requires Valid()
      modifies this
      ensures Valid() && View() == old(View())
      ensures ok <==> old(done || chunks != [] || !broken)
      ensures ok && !old(done) ==> Pending() < old(Pending())
      ensures !ok ==> buffer == old(buffer) && done == old(done) && chunks == []
    {
      if done {
        return true;
      }
      if chunks == [] {
        done := !broken;
        return !broken;
      }
      var next := chunks[0];
      chunks := chunks[1..];
      if |buffer| == 0 {
        buffer := next;
      } else {
        buffer := buffer + next;
      }
      return true;
    }

    method ReadLine(maxBytes: nat) returns (r: Result<Bytes, Failure>)
      requires Valid()
      modifies this
      ensures Valid()
      ensures r == LineAt(old(View()), maxBytes)
      ensures View() == AfterLine(old(View()), maxBytes)
    {
      while true
        invariant Valid() && View() == old(View())
        decreases Pending()
      {
        BufferDecides(buffer, Flatten(chunks), broken, maxBytes);
        match FirstNewline(buffer)
        case Some(lineEnd) =>
          if lineEnd > maxBytes {
            return Err(HeaderInvalid);
          }
          var line := buffer[..lineEnd];
          buffer := buffer[lineEnd + 1..];
          return Ok(line);
        case None =>
          if |buffer| > maxBytes || done {
            return Err(HeaderInvalid);
          }
          var ok := Fill();
          if !ok {
            return Err(StreamFailed);
          }
      }
    }

    method ReadExact(byteLength: nat) returns (r: Result<Bytes, Failure>)
      requires Valid()
      modifies this
      ensures Valid()
      ensures r == BytesAt(old(View()), byteLength)
      ensures View() == AfterBytes(old(View()), byteLength)
    {
      while |buffer| < byteLength && !done
        invariant Valid() && View() == old(View())
        decreases Pending()
      {
        var ok := Fill();
        if !ok {
          return Err(StreamFailed);
        }
      }
      if |buffer| < byteLength {
        return Err(Truncated);
      }
      var value := buffer[..byteLength];
      assert View().rest[..byteLength] == value;
      assert View().rest[byteLength..] == buffer[byteLength..] + Flatten(chunks);
      buffer := buffer[byteLength..];
      return Ok(value);
    }

    method AssertEnd() returns (r: Result<(), Failure>)
      requires Valid()
      modifies this
      ensures Valid() && View() == old(View())
      ensures r == EndAt(old(View()))
    {
      while !done
        invariant Valid() && View() == old(View())
        decreases Pending()
      {
        var ok := Fill();
        if !ok {
          return Err(StreamFailed);
        }
      }
      if |buffer| != 0 {
        return Err(TrailingBytes);
      }
      return Ok(());
    }
  }

  // ---- Whole sequences of calls ----

  datatype Call = ReadLine(maxBytes: nat) | ReadExact(byteLength: nat) | AssertEnd

  datatype Outcome = Read(bytes: Bytes) | AtEnd | Failed(failure: Failure)

  function OutcomeOf(r: Result<Bytes, Failure>): Outcome {
    match r
    case Ok(bytes) => Read(bytes)
    case Err(failure) => Failed(failure)
  }

  function CallAt(c: Cursor, call: Call): Outcome {
    match call
    case ReadLine(maxBytes) => OutcomeOf(LineAt(c, maxBytes))
    case ReadExact(byteLength) => OutcomeOf(BytesAt(c, byteLength))
    case AssertEnd => (match EndAt(c) case Ok(_) => AtEnd case Err(failure) => Failed(failure))
  }

  function AfterCall(c: Cursor, call: Call): Cursor {
    match call
    case ReadLine(maxBytes) => AfterLine(c, maxBytes)
    case ReadExact(byteLength) => AfterBytes(c, byteLength)
    case AssertEnd => c
  }

  /** What the calls return when made one after the other on a cursor. */
  function Outcomes(c: Cursor, calls: seq<Call>): seq<Outcome>
    decreases |calls|
  {
    if calls == [] then [] else [CallAt(c, calls[0])] + Outcomes(AfterCall(c, calls[0]), calls[1..])
  }

  /** The cursor after the first `i` calls. */
  function CursorAt(c: Cursor, calls: seq<Call>, i: nat): Cursor
    requires i <= |calls|
  {
    if i == 0 then c else AfterCall(CursorAt(c, calls, i - 1), calls[i - 1])
  }

  lemma {:induction false} CursorLater(c: Cursor, calls: seq<Call>, i: nat)
    requires 0 < i <= |calls|
    ensures CursorAt(c, calls, i) == CursorAt(AfterCall(c, calls[0]), calls[1..], i - 1)
  {
    if i > 1 {
      CursorLater(c, calls, i - 1);
    }
  }

  /** One outcome for every call, that of the cursor where the calls before it left it. */
  lemma {:induction false} OutcomesAreStepwise(c: Cursor, calls: seq<Call>, i: nat)
    requires i < |calls|
    ensures |Outcomes(c, calls)| == |calls|
    ensures Outcomes(c, calls)[i] == CallAt(CursorAt(c, calls, i), calls[i])
    decreases |calls|
  {
    var next, rest := AfterCall(c, calls[0]), calls[1..];
    assert Outcomes(c, calls) == [CallAt(c, calls[0])] + Outcomes(next, rest);
    if |calls| > 1 {
      OutcomesAreStepwise(next, rest, if i > 0 then i - 1 else 0);
    }
    if i > 0 {
      CursorLater(c, calls, i);
    }
  }

  method Perform(reader: StreamByteReader, call: Call) returns (outcome: Outcome)
    requires reader.Valid()
    modifies reader
    ensures reader.Valid()
    ensures outcome == CallAt(old(reader.View()), call)
    ensures reader.View() == AfterCall(old(reader.View()), call)
  {
    match call
    case ReadLine(maxBytes) =>
      var r := reader.ReadLine(maxBytes);
      outcome := OutcomeOf(r);
    case ReadExact(byteLength) =>
      var r := reader.ReadExact(byteLength);
      outcome := OutcomeOf(r);
    case AssertEnd =>
      var r := reader.AssertEnd();
      outcome := match r case Ok(_) => AtEnd case Err(failure) => Failed(failure);
  }

  /**
   * Chunk independence: whatever calls are made, failed ones included, the reader answers like a
   * cursor over the bytes laid end to end. How they were split into chunks never shows.
   */
  method Replay(stream: seq<Bytes>, breaksOff: bool, calls: seq<Call>) returns (outcomes: seq<Outcome>)
    ensures outcomes == Outcomes(Cursor(Flatten(stream), breaksOff), calls)
    ensures |outcomes| == |calls|
    ensures forall i :: 0 <= i < |calls| ==>
              outcomes[i] == CallAt(CursorAt(Cursor(Flatten(stream), breaksOff), calls, i), calls[i])
  {
    outcomes := [];
    var reader := new StreamByteReader(stream, breaksOff);
    var i := 0;
    while i < |calls|
      invariant 0 <= i <= |calls|
      invariant reader.Valid() && fresh(reader)
      invariant outcomes + Outcomes(reader.View(), calls[i..]) == Outcomes(Cursor(Flatten(stream), breaksOff), calls)
    {
      ghost var before := reader.View();
      var outcome := Perform(reader, calls[i]);
      assert calls[i..][0] == calls[i] && calls[i..][1..] == calls[i + 1..];
      outcomes := outcomes + [outcome];
      i := i + 1;
    }
    assert calls[|calls|..] == [];
    forall k | 0 <= k < |calls|
      ensures |outcomes| == |calls|
      ensures outcomes[k] == CallAt(CursorAt(Cursor(Flatten(stream), breaksOff), calls, k), calls[k])
    {
      OutcomesAreStepwise(Cursor(Flatten(stream), breaksOff), calls, k);
    }
  }
}
