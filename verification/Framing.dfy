/**
 Event framing of a MySQL v4 binary log file and the file validator
 (cmd/agent/binlog_validator.go).

 A file is the four magic bytes followed by events.  An event starts with a
 19-byte header that holds, little-endian, its own total size at bytes 9..13
 and the log position of its end at bytes 13..17.  CRC-32 stays an
 uninterpreted function `crc` on byte sequences.
 */
module Framing {
  import opened Common

  type Crc = Bytes -> nat

  type Event = Bytes

  const MAGIC: Bytes := [0xfe, 0x62, 0x69, 0x6e]
  const HEADER_LEN: nat := 19
  const UINT32_LIMIT: nat := 0x1_0000_0000

  datatype Header = Header(eventType: byte, size: nat, endLogPos: nat)

  /** What is wrong with the bytes at some offset of a file. */
  datatype Fault = HeaderTruncated | IllegalSize | EventTruncated | ChecksumMismatch

  datatype Error =
    | TooSmall(size: nat)
    | BadMagic
    | AtOffset(offset: int, fault: Fault)
    | PositionGap(want: int, got: int)
    | NothingNew

  datatype Validation = Validation(
    fileSize: nat, eventCount: nat, lastCompletePos: nat, crcMode: bool, checksumEvents: nat)

  function LittleEndian32(b: Bytes): (v: nat)
    requires |b| == 4
    ensures v < UINT32_LIMIT
  {
    var b0: int, b1: int, b2: int, b3: int := b[0], b[1], b[2], b[3];
    b0 + 0x100 * b1 + 0x1_0000 * b2 + 0x100_0000 * b3
  }

  /** The four bytes that stand for a number, the lowest one first. */
  function Bytes32(v: nat): (b: Bytes)
    requires v < UINT32_LIMIT
    ensures |b| == 4
  {
    [v % 256, v / 256 % 256, v / 65536 % 256, v / 16777216]
  }

  /** Four bytes are read as a number exactly if they are the ones that stand for it. */
  lemma LittleEndianExact(b: Bytes, v: nat)
    requires |b| == 4 && v < UINT32_LIMIT
    ensures LittleEndian32(b) == v <==> b == Bytes32(v)
  {
    var b0: int, b1: int, b2: int, b3: int := b[0], b[1], b[2], b[3];
    LowestByte(b0, b1 + 256 * (b2 + 256 * b3));
    LowestByte(b1, b2 + 256 * b3);
    LowestByte(b2, b3);
    DivideOnce(v, 256);
    DivideOnce(v, 65536);
    var w := Bytes32(v);
    var w0: int, w1: int, w2: int, w3: int := w[0], w[1], w[2], w[3];
    assert w0 + 256 * (w1 + 256 * (w2 + 256 * w3)) == v;
    if LittleEndian32(b) == v {
      assert b == [b[0], b[1], b[2], b[3]];
    }
  }

  lemma LowestByte(low: int, rest: int)
    requires 0 <= low < 256 && 0 <= rest
    ensures (low + 256 * rest) % 256 == low && (low + 256 * rest) / 256 == rest
  {
  }

  lemma DivideOnce(v: nat, n: nat)
    requires n == 256 || n == 65536
    ensures v / (256 * n) == v / n / 256 && v == v % 256 + 256 * (v / 256)
  {
  }

  /** The size field of the header at the front of `s`. */
  function SizeField(s: Bytes): nat
    requires HEADER_LEN <= |s|
  {
    LittleEndian32(s[9..13])
  }

  /** The end-position field of the header at the front of `s`. */
  function EndPos(s: Bytes): (p: nat)
    requires HEADER_LEN <= |s|
    ensures p < UINT32_LIMIT
  {
    LittleEndian32(s[13..17])
  }

  /** A complete event: its size field covers exactly the event. */
  predicate IsEvent(e: Bytes) {
    HEADER_LEN <= |e| && SizeField(e) == |e|
  }

  predicate AllEvents(es: seq<Event>) {
    forall i | 0 <= i < |es| :: IsEvent(es[i])
  }

  /** Serialization: the events one after the other. */
  function Flat(es: seq<Event>): Bytes {
    if es == [] then [] else es[0] + Flat(es[1..])
  }

  /** The only way to cut `s` into complete events, if there is one. */
  function Parse(s: Bytes): (r: Option<seq<Event>>)
    decreases |s|
  {
    if s == [] then Some([])
    else if |s| < HEADER_LEN || SizeField(s) < HEADER_LEN || |s| < SizeField(s) then None
    else
      match Parse(s[SizeField(s)..])
      case None => None
      case Some(es) => Some([s[..SizeField(s)]] + es)
  }

  lemma {:induction false} FlatParse(s: Bytes)
    requires Parse(s).Some?
    ensures AllEvents(Parse(s).value) && Flat(Parse(s).value) == s
    decreases |s|
  {
    hide LittleEndian32;
    if s != [] {
      var n := SizeField(s);
      FlatParse(s[n..]);
      HeaderOfPrefix(s[..n], s);
      var es := Parse(s).value;
      assert es[1..] == Parse(s[n..]).value;
      assert s == s[..n] + s[n..];
    }
  }

  /** `Parse` finds the event list of `s` exactly when `s` is the serialization of one. */
  lemma ParseExact(s: Bytes, es: seq<Event>)
    ensures Parse(s) == Some(es) <==> AllEvents(es) && Flat(es) == s
  {
    if AllEvents(es) && Flat(es) == s {
      ParseFlat(es);
    }
    if Parse(s) == Some(es) {
      FlatParse(s);
    }
  }

  /** A prefix that reaches past the header has the same header fields. */
  lemma HeaderOfPrefix(e: Bytes, s: Bytes)
    requires HEADER_LEN <= |e| <= |s| && e == s[..|e|]
    ensures SizeField(e) == SizeField(s) && EndPos(e) == EndPos(s)
  {
    SliceOfSlice(s, 0, |e|, 9, 13);
    SliceOfSlice(s, 0, |e|, 13, 17);
  }

  lemma {:induction false} FlatConcat(a: seq<Event>, b: seq<Event>)
    ensures Flat(a + b) == Flat(a) + Flat(b)
  {
    if a == [] {
      assert a + b == b;
    } else {
      var ab := a + b;
      assert ab[1..] == a[1..] + b && ab[0] == a[0];
      FlatConcat(a[1..], b);
    }
  }

  /** The parse of `s` with the events `es` put in front. */
  function Prepend(es: seq<Event>, r: Option<seq<Event>>): Option<seq<Event>> {
    if r.None? then None else Some(es + r.value)
  }

  lemma ParseCons(e: Event, s: Bytes)
    requires IsEvent(e)
    ensures Parse(e + s) == Prepend([e], Parse(s))
  {
    var es := e + s;
    assert es[..|e|] == e && es[|e|..] == s;
    HeaderOfPrefix(e, es);
  }

  lemma {:induction false} ParseEventsThen(es: seq<Event>, s: Bytes)
    requires AllEvents(es)
    ensures Parse(Flat(es) + s) == Prepend(es, Parse(s))
  {
    if es == [] {
      assert Flat(es) + s == s;
      PrependNothing(Parse(s));
    } else {
      var e, rest := es[0], es[1..];
      assert IsEvent(e) && AllEvents(rest);
      ParseEventsThen(rest, s);
      ParseCons(e, Flat(rest) + s);
      assert Flat(es) + s == e + (Flat(rest) + s);
      PrependTwice(e, rest, Parse(s));
      assert es == [e] + rest;
    }
  }

  lemma PrependNothing(r: Option<seq<Event>>)
    ensures Prepend([], r) == r
  {
    if r.Some? {
      assert [] + r.value == r.value;
    }
  }

  lemma PrependTwice(e: Event, rest: seq<Event>, r: Option<seq<Event>>)
    ensures Prepend([e], Prepend(rest, r)) == Prepend([e] + rest, r)
  {
    if r.Some? {
      assert [e] + (rest + r.value) == [e] + rest + r.value;
    }
  }

  /** Parsing inverts serialization, so a parse is unique. */
  lemma ParseFlat(es: seq<Event>)
    requires AllEvents(es)
    ensures Parse(Flat(es)) == Some(es)
  {
    ParseEventsThen(es, []);
    assert Flat(es) + [] == Flat(es) && es + [] == es;
  }

  /** Parsing a concatenation whose first part is complete. */
  lemma ParseConcat(a: Bytes, b: Bytes)
    requires Parse(a).Some?
    ensures Parse(a + b) == Prepend(Parse(a).value, Parse(b))
  {
    FlatParse(a);
    ParseEventsThen(Parse(a).value, b);
  }

  /** The `n` bytes of `file` from `offset` on are a complete event. */
  predicate EventAt(file: Bytes, offset: int, n: int) {
    0 <= offset <= offset + n <= |file| && IsEvent(file[offset..offset + n])
  }

  /** Reads the event header at `offset` and checks that the whole event is inside the file. */
  function ReadEvent(file: Bytes, offset: int): (r: Result<Header, Error>)
    ensures r.Success? ==>
              && EventAt(file, offset, r.value.size)
              && r.value.endLogPos == EndPos(file[offset..offset + r.value.size])
    ensures r.Failure? ==> forall n :: !EventAt(file, offset, n)
    ensures r.Failure? ==> r.error.AtOffset? && r.error.offset == offset
  {
    if offset < 0 || |file| < offset + HEADER_LEN then Failure(AtOffset(offset, HeaderTruncated))
    else
      var size := LittleEndian32(file[offset + 9..offset + 13]);
      HeaderAt(file, offset);
      if size < HEADER_LEN then Failure(AtOffset(offset, IllegalSize))
      else if |file| < offset + size then Failure(AtOffset(offset, EventTruncated))
      else Success(Header(file[offset + 4], size, LittleEndian32(file[offset + 13..offset + 17])))
  }

  /** Every candidate event at `offset` shows the header bytes stored there. */
  lemma HeaderAt(file: Bytes, offset: nat)
    requires offset + HEADER_LEN <= |file|
    ensures forall n | offset + HEADER_LEN <= n <= |file| ::
              && SizeField(file[offset..n]) == LittleEndian32(file[offset + 9..offset + 13])
              && EndPos(file[offset..n]) == LittleEndian32(file[offset + 13..offset + 17])
  {
    forall n | offset + HEADER_LEN <= n <= |file|
      ensures SizeField(file[offset..n]) == LittleEndian32(file[offset + 9..offset + 13])
      ensures EndPos(file[offset..n]) == LittleEndian32(file[offset + 13..offset + 17])
    {
      SliceOfSlice(file, offset, n, 9, 13);
      SliceOfSlice(file, offset, n, 13, 17);
    }
  }

  /** What reading an event answers, from the numbers written at bytes 9..13 and 13..17 of its header. */
  lemma ReadWritten(file: Bytes, offset: nat, n: nat, p: nat)
    requires offset + HEADER_LEN <= |file| && n < UINT32_LIMIT && p < UINT32_LIMIT
    requires file[offset + 9..offset + 13] == Bytes32(n) && file[offset + 13..offset + 17] == Bytes32(p)
    ensures ReadEvent(file, offset) ==
            if n < HEADER_LEN then Failure(AtOffset(offset, IllegalSize))
            else if |file| < offset + n then Failure(AtOffset(offset, EventTruncated))
            else Success(Header(file[offset + 4], n, p))
  {
    LittleEndianExact(file[offset + 9..offset + 13], n);
    LittleEndianExact(file[offset + 13..offset + 17], p);
    hide LittleEndian32, Bytes32;
  }

  /** An event is complete exactly if its length is written at bytes 9..13. */
  lemma IsEventExact(e: Bytes)
    requires |e| < UINT32_LIMIT
    ensures IsEvent(e) <==> HEADER_LEN <= |e| && e[9..13] == Bytes32(|e|)
  {
    if HEADER_LEN <= |e| {
      LittleEndianExact(e[9..13], |e|);
    }
  }

  /** The last four bytes of an event are the CRC of the rest; too short an event never matches. */
  predicate CrcMatches(crc: Crc, e: Event) {
    HEADER_LEN + 4 <= |e| && crc(e[..|e| - 4]) == LittleEndian32(e[|e| - 4..])
  }

  /** A checksum matches exactly if it covers all but the last four bytes and is written there. */
  lemma CrcOfBody(crc: Crc, body: Bytes, tail: Bytes)
    requires |tail| == 4
    ensures CrcMatches(crc, body + tail) <==>
            HEADER_LEN <= |body| && crc(body) < UINT32_LIMIT && tail == Bytes32(crc(body))
  {
    var e := body + tail;
    assert e[..|e| - 4] == body && e[|e| - 4..] == tail;
    if crc(body) < UINT32_LIMIT {
      LittleEndianExact(tail, crc(body));
    }
  }

  predicate AllCrc(crc: Crc, es: seq<Event>) {
    forall i | 0 <= i < |es| :: CrcMatches(crc, es[i])
  }

  /** The checksum mode is inferred from the first event alone. */
  predicate CrcConsistent(crc: Crc, es: seq<Event>) {
    es != [] && (CrcMatches(crc, es[0]) ==> AllCrc(crc, es))
  }

  predicate IsBinlog(crc: Crc, file: Bytes) {
    && MAGIC <= file
    && Parse(file[4..]).Some?
    && CrcConsistent(crc, Parse(file[4..]).value)
  }

  function EventsOf(crc: Crc, file: Bytes): seq<Event>
    requires IsBinlog(crc, file)
  {
    Parse(file[4..]).value
  }

  predicate CrcMode(crc: Crc, file: Bytes)
    requires IsBinlog(crc, file)
  {
    CrcMatches(crc, EventsOf(crc, file)[0])
  }

  /** What validation reports about an accepted file. */
  function Summary(crc: Crc, file: Bytes): Validation
    requires IsBinlog(crc, file)
  {
    var n := |EventsOf(crc, file)|;
    Validation(|file|, n, |file|, CrcMode(crc, file), if CrcMode(crc, file) then n else 0)
  }

  /** Binlog files are exactly the magic followed by a nonempty, checksum-consistent event list. */
  lemma BinlogExact(crc: Crc, file: Bytes)
    ensures IsBinlog(crc, file) <==>
            exists es :: AllEvents(es) && file == MAGIC + Flat(es) && CrcConsistent(crc, es)
    ensures IsBinlog(crc, file) ==> 4 + HEADER_LEN <= |file|
  {
    if IsBinlog(crc, file) {
      FlatParse(file[4..]);
      var es := Parse(file[4..]).value;
      assert file == MAGIC + Flat(es);
      assert IsEvent(es[0]);
    }
    if es :| AllEvents(es) && file == MAGIC + Flat(es) && CrcConsistent(crc, es) {
      assert file[4..] == Flat(es);
      ParseFlat(es);
    }
  }

  /** Round trip: a serialized event list is accepted and reported with its own length. */
  lemma SerializedIsAccepted(crc: Crc, es: seq<Event>)
    requires AllEvents(es) && CrcConsistent(crc, es)
    ensures IsBinlog(crc, MAGIC + Flat(es))
    ensures EventsOf(crc, MAGIC + Flat(es)) == es
    ensures Summary(crc, MAGIC + Flat(es)).eventCount == |es|
  {
    assert (MAGIC + Flat(es))[4..] == Flat(es);
    ParseFlat(es);
  }

  /** Validates a whole file by scanning its events once. */
  method ValidateFile(crc: Crc, file: Bytes) returns (result: Validation, err: Option<Error>)
    ensures err.None? <==> IsBinlog(crc, file)
    ensures err.None? ==> result == Summary(crc, file)
    ensures err == Some(TooSmall(|file|)) <==> |file| < 4 + HEADER_LEN
    ensures err == Some(BadMagic) <==> 4 + HEADER_LEN <= |file| && !(MAGIC <= file)
    // On a framing or checksum error the counters describe the complete events before it.
    ensures err.Some? && !err.value.TooSmall? && !err.value.BadMagic? ==>
              err.value.AtOffset? && Scanned(file, err.value.offset, result)
  {
    hide SizeField, Parse;
    result := Validation(|file|, 0, 0, false, 0);
    if |file| < 4 + HEADER_LEN {
      BinlogExact(crc, file);
      return result, Some(TooSmall(|file|));
    }
    if file[..4] != MAGIC {
      return result, Some(BadMagic);
    }
    var offset := 4;
    var crcMode := false;
    ghost var done: seq<Event> := [];
    assert Parse(file[4..4]) == Some(done) by { ParseFlat(done); }
    while offset < |file|
      invariant 4 <= offset <= |file|
      invariant Parse(file[4..offset]) == Some(done) && |done| == result.eventCount
      invariant done == [] ==> offset == 4 && !crcMode && result.lastCompletePos == 0
      invariant done != [] ==> result.lastCompletePos == offset && crcMode == CrcMatches(crc, done[0])
      invariant crcMode ==> AllCrc(crc, done)
      invariant result.fileSize == |file| && result.crcMode == crcMode
      invariant result.checksumEvents == if crcMode then result.eventCount else 0
    {
      var r := ReadEvent(file, offset);
      SplitAt(file, 4, offset);
      if r.Failure? {
        ParseStartsWithEvent(file, offset);
        return result, Some(r.error);
      }
      var size := r.value.size;
      var e := file[offset..offset + size];
      assert IsEvent(e);
      ExtendParse(file, 4, offset, e, done);
      var matches := CrcMatches(crc, e);
      if result.eventCount == 0 {
        if matches {
          crcMode := true;
          result := result.(crcMode := true);
        }
      }
      assert crcMode == CrcMatches(crc, (done + [e])[0]);
      if crcMode {
        if !matches {
          RejectMismatch(crc, file, offset + size, done, e);
          return result, Some(AtOffset(offset, ChecksumMismatch));
        }
        result := result.(checksumEvents := result.checksumEvents + 1);
      }
      offset := offset + size;
      done := done + [e];
      result := result.(eventCount := result.eventCount + 1, lastCompletePos := offset);
    }
    assert file[4..offset] == file[4..];
    return result, None;
  }

  /** The scan stopped at `offset`, an event boundary, having counted the events before it. */
  predicate Scanned(file: Bytes, offset: int, result: Validation) {
    && 4 <= offset < |file|
    && Parse(file[4..offset]).Some?
    && result.eventCount == |Parse(file[4..offset]).value|
    && (0 < result.eventCount ==> result.lastCompletePos == offset)
    && (result.checksumEvents == 0 || result.checksumEvents == result.eventCount)
  }

  lemma SplitAt(file: Bytes, from: nat, offset: nat)
    requires from <= offset <= |file|
    requires Parse(file[from..offset]).Some?
    ensures Parse(file[from..]) == Prepend(Parse(file[from..offset]).value, Parse(file[offset..]))
  {
    ParseConcat(file[from..offset], file[offset..]);
    assert file[from..offset] + file[offset..] == file[from..];
  }

  /** A parse of the rest of the file starts with a complete event. */
  lemma ParseStartsWithEvent(file: Bytes, offset: nat)
    requires offset < |file|
    ensures Parse(file[offset..]).Some? ==>
              HEADER_LEN <= |file| - offset && EventAt(file, offset, SizeField(file[offset..]))
  {
    var s := file[offset..];
    if Parse(s).Some? {
      var n := SizeField(s);
      HeaderOfPrefix(s[..n], s);
      assert s[..n] == file[offset..offset + n];
    }
  }

  lemma ExtendParse(file: Bytes, from: nat, offset: nat, e: Event, done: seq<Event>)
    requires from <= offset && offset + |e| <= |file| && e == file[offset..offset + |e|]
    requires Parse(file[from..offset]) == Some(done)
    requires IsEvent(e)
    ensures Parse(file[from..offset + |e|]) == Some(done + [e])
  {
    OneEventFlat(e);
    hide Parse, SizeField, Flat;
    ParseConcat(file[from..offset], e);
    assert file[from..offset] + e == file[from..offset + |e|];
    ParseFlat([e]);
  }

  lemma OneEventFlat(e: Event)
    ensures Flat([e]) == e
  {
  }

  /** In CRC mode one mismatching event anywhere makes the file invalid. */
  lemma RejectMismatch(crc: Crc, file: Bytes, offset: nat, done: seq<Event>, e: Event)
    requires 4 <= offset <= |file| && Parse(file[4..offset]) == Some(done + [e])
    requires CrcMatches(crc, (done + [e])[0]) && !CrcMatches(crc, e)
    ensures !IsBinlog(crc, file)
  {
    SplitAt(file, 4, offset);
    if Parse(file[4..]).Some? {
      var es := Parse(file[4..]).value;
      assert es[|done|] == e && es[0] == (done + [e])[0];
    }
  }
}
