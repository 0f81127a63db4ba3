/**
 Planning whether freshly fetched bytes may be appended to an existing partial
 binlog (cmd/agent/binlog_validator.go).

 A candidate is accepted only after its own event stream and the combined file
 have both been validated.  The lemmas say what that double check amounts to:
 the two event lists are joined, and every new event records as its end
 position the byte offset at which it really ends.
 */
module Append {
  import opened Common
  import opened Framing

  datatype AppendPlan = AppendPlan(
    payloadOffset: nat, payloadBytes: nat, firstStartPos: int, lastEndPos: nat, crcMode: bool)

  datatype Rejection =
    | ExistingInvalid(cause: Error)
    | CandidateTooSmall(size: nat)
    | CandidateInvalid(cause: Error)
    | CombinedInvalid(cause: Error)

  /** The magic is skipped when the candidate carries it in front of room for an event. */
  function PayloadOffset(candidate: Bytes): (n: nat)
    ensures n <= |candidate|
  {
    if 4 + HEADER_LEN <= |candidate| && candidate[..4] == MAGIC then 4 else 0
  }

  function Payload(candidate: Bytes): Bytes {
    candidate[PayloadOffset(candidate)..]
  }

  /** Each event starts, by its own header, where the event before it ended. */
  predicate Continues(es: seq<Event>, start: int)
    requires AllEvents(es)
  {
    es == [] ||
    (EndPos(es[0]) - |es[0]| == start && Continues(es[1..], EndPos(es[0])))
  }

  /** Positions are continuous exactly when each one is a physical end offset. */
  lemma {:induction false} ContinuesExact(es: seq<Event>, start: int)
    requires AllEvents(es)
    ensures Continues(es, start) <==>
            forall i | 0 <= i < |es| :: EndPos(es[i]) == start + |Flat(es[..i + 1])|
  {
    hide EndPos, SizeField;
    if es != [] {
      var rest := es[1..];
      assert Flat(es[..1]) == es[0] by {
        assert es[..1] == [es[0]] && es[..1][1..] == [];
      }
      forall i | 0 <= i < |rest|
        ensures |Flat(es[..i + 2])| == |es[0]| + |Flat(rest[..i + 1])|
        ensures rest[i] == es[i + 1]
      {
        assert es[..i + 2][1..] == rest[..i + 1];
      }
      ContinuesExact(rest, start + |es[0]|);
      if Continues(es, start) {
        forall i | 0 <= i < |es|
          ensures EndPos(es[i]) == start + |Flat(es[..i + 1])|
        {
          if 0 < i {
            assert es[i] == rest[i - 1];
          }
        }
      }
      if forall i | 0 <= i < |es| :: EndPos(es[i]) == start + |Flat(es[..i + 1])| {
        assert EndPos(es[0]) == start + |es[0]|;
        forall i | 0 <= i < |rest|
          ensures EndPos(rest[i]) == start + |es[0]| + |Flat(rest[..i + 1])|
        {
          assert EndPos(es[i + 1]) == start + |Flat(es[..i + 2])|;
        }
      }
    }
  }

  lemma {:induction false} ContinuesSplit(a: seq<Event>, b: seq<Event>, start: int)
    requires AllEvents(a + b) && AllEvents(a) && AllEvents(b)
    ensures Continues(a + b, start) <==> Continues(a, start) && Continues(b, start + |Flat(a)|)
  {
    hide EndPos, SizeField;
    if a == [] {
      assert a + b == b;
    } else {
      assert (a + b)[1..] == a[1..] + b && (a + b)[0] == a[0];
      ContinuesSplit(a[1..], b, start + |a[0]|);
    }
  }

  /** The acceptance condition, stated on the two files. */
  predicate Appendable(crc: Crc, existing: Bytes, candidate: Bytes) {
    && IsBinlog(crc, existing)
    && Parse(Payload(candidate)).Some?
    && var es := Parse(Payload(candidate)).value;
    && AllEvents(es)
    && es != []
    && Continues(es, |existing|)
    && (CrcMode(crc, existing) ==> AllCrc(crc, es))
  }

  /** The file that appending produces. */
  function Combined(existing: Bytes, candidate: Bytes): Bytes {
    existing + Payload(candidate)
  }

  /** Scans a stream of events, checking that their positions continue from `expectedStart`. */
  method ValidateEventStream(stream: Bytes, expectedStart: int) returns (r: Result<int, Error>)
    ensures r.Success? <==>
            && Parse(stream).Some? && AllEvents(Parse(stream).value)
            && Parse(stream).value != [] && Continues(Parse(stream).value, expectedStart)
    ensures r.Success? ==> r.value == expectedStart + |stream| < UINT32_LIMIT
  {
    var offset := 0;
    var lastEnd := expectedStart;
    ghost var done: seq<Event> := [];
    assert stream[0..offset] == Flat(done) && Parse(Flat(done)) == Some(done) && Continues(done, expectedStart);
    hide Parse, SizeField, EndPos, Continues, Flat;
    while offset < |stream|
      invariant 0 <= offset <= |stream|
      invariant Parse(stream[0..offset]) == Some(done) && AllEvents(done)
      invariant Continues(done, expectedStart)
      invariant lastEnd == expectedStart + offset
      invariant done == [] <==> offset == 0
      invariant done != [] ==> lastEnd < UINT32_LIMIT
    {
      var r := ReadEvent(stream, offset);
      if r.Failure? {
        StreamStuck(stream, offset, done);
        return Failure(r.error);
      }
      ghost var e := stream[offset..offset + r.value.size];
      StreamStep(stream, offset, e, done, expectedStart);
      var start := r.value.endLogPos - r.value.size;
      if start != lastEnd {
        StreamGap(stream, offset + |e|, done + [e], expectedStart);
        return Failure(PositionGap(lastEnd, start));
      }
      lastEnd := r.value.endLogPos;
      offset := offset + r.value.size;
      done := done + [e];
    }
    assert stream[0..offset] == stream;
    if lastEnd <= expectedStart {
      return Failure(NothingNew);
    }
    return Success(lastEnd);
  }

  lemma StreamStuck(stream: Bytes, offset: nat, done: seq<Event>)
    requires offset < |stream| && Parse(stream[0..offset]) == Some(done)
    requires forall n :: !EventAt(stream, offset, n)
    ensures Parse(stream).None?
  {
    hide SizeField, Parse;
    SplitAt(stream, 0, offset);
    ParseStartsWithEvent(stream, offset);
    assert stream[0..] == stream;
  }

  /** One step of the scan: the event joins the parse, and continues it or not. */
  lemma StreamStep(stream: Bytes, offset: nat, e: Event, done: seq<Event>, start: int)
    requires offset + |e| <= |stream| && e == stream[offset..offset + |e|] && IsEvent(e)
    requires Parse(stream[0..offset]) == Some(done) && AllEvents(done) && Continues(done, start)
    ensures Parse(stream[0..offset + |e|]) == Some(done + [e]) && AllEvents(done + [e])
    ensures EndPos(e) - |e| == start + offset <==> Continues(done + [e], start)
  {
    hide SizeField, Parse, Continues, Flat, EndPos;
    FlatParse(stream[0..offset]);
    ExtendParse(stream, 0, offset, e, done);
    OneMore(done, e, start + |Flat(done)|);
    ContinuesSplit(done, [e], start);
  }

  /** A stream whose scanned part does not continue `start` is ruled out as a whole. */
  lemma StreamGap(stream: Bytes, offset: nat, done: seq<Event>, start: int)
    requires offset <= |stream| && Parse(stream[0..offset]) == Some(done)
    requires AllEvents(done) && !Continues(done, start)
    ensures Parse(stream).Some? ==>
              AllEvents(Parse(stream).value) && !Continues(Parse(stream).value, start)
  {
    hide SizeField, Parse, Continues, Flat, EndPos;
    SplitAt(stream, 0, offset);
    assert stream[0..] == stream;
    GapPersists(done, stream[offset..], start);
  }

  lemma OneMore(done: seq<Event>, e: Event, at: int)
    requires AllEvents(done) && IsEvent(e)
    ensures AllEvents([e]) && AllEvents(done + [e])
    ensures Continues([e], at) <==> EndPos(e) - |e| == at
  {
  }

  /** Events that do not continue `start` do not do so with more events behind them. */
  lemma GapPersists(done: seq<Event>, rest: Bytes, start: int)
    requires AllEvents(done) && !Continues(done, start)
    ensures Parse(rest).Some? ==>
              AllEvents(done + Parse(rest).value) && !Continues(done + Parse(rest).value, start)
  {
    hide *;
    if Parse(rest).Some? {
      FlatParse(rest);
      JoinEvents(done, Parse(rest).value);
      ContinuesSplit(done, Parse(rest).value, start);
    }
  }

  lemma JoinEvents(a: seq<Event>, b: seq<Event>)
    requires AllEvents(a) && AllEvents(b)
    ensures AllEvents(a + b)
  {
  }

  /** Appending joins the two event lists; nothing is lost, re-cut or re-ordered. */
  lemma CombinedParse(crc: Crc, existing: Bytes, candidate: Bytes)
    requires IsBinlog(crc, existing) && Parse(Payload(candidate)).Some?
    ensures Parse(Combined(existing, candidate)[4..]) ==
            Some(EventsOf(crc, existing) + Parse(Payload(candidate)).value)
    ensures MAGIC <= Combined(existing, candidate)
    ensures IsBinlog(crc, Combined(existing, candidate)) <==>
            (CrcMode(crc, existing) ==> AllCrc(crc, Parse(Payload(candidate)).value))
  {
    hide SizeField, Parse, CrcMatches;
    var a, b := existing[4..], Payload(candidate);
    ParseConcat(a, b);
    assert Combined(existing, candidate)[4..] == a + b;
    var es, fs := Parse(a).value, Parse(b).value;
    assert (es + fs)[0] == es[0];
    if CrcMode(crc, existing) && AllCrc(crc, es + fs) {
      forall i | 0 <= i < |fs| ensures CrcMatches(crc, fs[i]) {
        assert (es + fs)[|es| + i] == fs[i];
      }
    }
  }

  /**
   The appended file: the old events followed by the new ones, every new event's
   recorded end position is its physical end offset in the file, the file fits
   32-bit positions, and the checksum mode is still the one of the old file.
   */
  lemma AppendedFile(crc: Crc, existing: Bytes, candidate: Bytes)
    requires Appendable(crc, existing, candidate)
    ensures var file := Combined(existing, candidate);
            var old_, new_ := EventsOf(crc, existing), Parse(Payload(candidate)).value;
            && IsBinlog(crc, file)
            && EventsOf(crc, file) == old_ + new_
            && CrcMode(crc, file) == CrcMode(crc, existing)
            && |existing| < |file| < UINT32_LIMIT
            && forall i | 0 <= i < |new_| ::
                 EndPos(new_[i]) == |MAGIC + Flat((old_ + new_)[..|old_| + i + 1])|
  {
    hide SizeField, Parse, CrcMatches, EndPos, Continues;
    var olds, news := EventsOf(crc, existing), Parse(Payload(candidate)).value;
    CombinedParse(crc, existing, candidate);
    assert (olds + news)[0] == olds[0];
    FlatParse(existing[4..]);
    FlatParse(Payload(candidate));
    ContinuesExact(news, |existing|);
    forall i | 0 <= i < |news|
      ensures EndPos(news[i]) == |MAGIC + Flat((olds + news)[..|olds| + i + 1])|
    {
      assert (olds + news)[..|olds| + i + 1] == olds + news[..i + 1];
      FlatConcat(olds, news[..i + 1]);
    }
    assert news[..|news|] == news;
    assert EndPos(news[|news| - 1]) == |existing| + |Payload(candidate)|;
    assert IsEvent(news[|news| - 1]);
    assert Flat(news) != [];
  }

  /** Decides whether `candidate` may be appended to `existing`. */
  method ValidateAppendCandidate(crc: Crc, existing: Bytes, candidate: Bytes)
    returns (r: Result<AppendPlan, Rejection>)
    ensures r.Success? <==> Appendable(crc, existing, candidate)
    ensures r.Success? ==>
              && r.value.payloadOffset == PayloadOffset(candidate)
              && r.value.payloadBytes == |Payload(candidate)|
              && r.value.firstStartPos == |existing|
              && r.value.lastEndPos == |existing| + r.value.payloadBytes < UINT32_LIMIT
              && r.value.crcMode == CrcMode(crc, existing)
    ensures r.Failure? && r.error.ExistingInvalid? <==> !IsBinlog(crc, existing)
  {
    hide SizeField, Parse, CrcMatches, EndPos, Continues;
    var before, err := ValidateFile(crc, existing);
    if err.Some? {
      return Failure(ExistingInvalid(err.value));
    }
    SmallPayload(candidate);
    if |candidate| < HEADER_LEN {
      return Failure(CandidateTooSmall(|candidate|));
    }
    var payloadOffset := PayloadOffset(candidate);
    var first := ReadEvent(candidate, payloadOffset);
    FirstEvent(candidate, before.lastCompletePos);
    if first.Failure? {
      return Failure(CandidateInvalid(first.error));
    }
    var firstStart := first.value.endLogPos - first.value.size;
    if firstStart != before.lastCompletePos {
      return Failure(CandidateInvalid(PositionGap(before.lastCompletePos, firstStart)));
    }
    var stream := ValidateEventStream(candidate[payloadOffset..], before.lastCompletePos);
    if stream.Failure? {
      return Failure(CandidateInvalid(stream.error));
    }
    CombinedParse(crc, existing, candidate);
    var combined := existing + candidate[payloadOffset..];
    var after, err' := ValidateFile(crc, combined);
    if err'.Some? {
      return Failure(CombinedInvalid(err'.value));
    }
    if after.lastCompletePos <= before.lastCompletePos {
      return Failure(CombinedInvalid(NothingNew));
    }
    AppendedFile(crc, existing, candidate);
    return Success(AppendPlan(payloadOffset, |candidate| - payloadOffset, firstStart,
                              after.lastCompletePos, after.crcMode));
  }

  lemma SmallPayload(candidate: Bytes)
    ensures |candidate| < HEADER_LEN && Parse(Payload(candidate)).Some? ==>
              Parse(Payload(candidate)).value == []
  {
  }

  /** Reading the candidate's first event agrees with the parse of its payload. */
  lemma FirstEvent(candidate: Bytes, start: int)
    requires HEADER_LEN <= |candidate|
    ensures var first := ReadEvent(candidate, PayloadOffset(candidate));
            Parse(Payload(candidate)).Some? && AllEvents(Parse(Payload(candidate)).value)
            && Continues(Parse(Payload(candidate)).value, start) && Parse(Payload(candidate)).value != [] ==>
              first.Success? && first.value.endLogPos - first.value.size == start
  {
    var at := PayloadOffset(candidate);
    var p := Payload(candidate);
    if Parse(p).Some? && Parse(p).value != [] {
      ParseStartsWithEvent(candidate, at);
      var first := ReadEvent(candidate, at);
      assert first.Success?;
      HeaderAt(candidate, at);
      assert candidate[at..|candidate|] == p;
      assert Parse(p).value[0] == p[..SizeField(p)] == candidate[at..at + SizeField(p)];
    }
  }
}
