/**
 Resume refines full download: for one source log that only grows, whatever mix
 of reuse, resume, download, failure and crash has happened, the partial file is
 a prefix of the source that ends between two events - just what some full
 download of the source would have produced.
 */
module SpoolRefinement {
  import opened Common
  import opened Framing
  import opened Append
  import opened Spool

  /** A source log: complete events, each recording its own end offset. */
  predicate IsSource(es: seq<Event>) {
    AllEvents(es) && Continues(es, 4)
  }

  function Log(es: seq<Event>): Bytes {
    MAGIC + Flat(es)
  }

  /** `file` is the source cut after its k-th event. */
  predicate IsCut(source: seq<Event>, file: Bytes, k: nat) {
    k <= |source| && file == Log(source[..k])
  }

  ghost predicate EventPrefix(source: seq<Event>, file: Option<Bytes>) {
    file.Some? ==> exists k: nat :: IsCut(source, file.value, k)
  }

  /** The tail download holds the events from j to k, `framed` if the tool writes the magic in front. */
  predicate IsTail(source: seq<Event>, download: Bytes, j: nat, k: nat, framed: bool) {
    j <= k <= |source| && download == (if framed then MAGIC else []) + Flat(source[j..k])
  }

  /** The download tool delivers what the source holds, up to some event boundary. */
  ghost predicate Faithful(source: seq<Event>, fetch: Fetch, framed: bool) {
    && EventPrefix(source, fetch.full)
    && forall j | 0 <= j <= |source| ::
         var download := fetch.tail(|Log(source[..j])|);
         download.Some? ==> exists k: nat :: IsTail(source, download.value, j, k, framed)
  }

  lemma {:induction false} FlatSplit(es: seq<Event>, j: nat, k: nat)
    requires j <= k <= |es|
    ensures Flat(es[..k]) == Flat(es[..j]) + Flat(es[j..k])
    ensures Log(es[..k]) == Log(es[..j]) + Flat(es[j..k])
  {
    assert es[..k] == es[..j] + es[j..k];
    FlatConcat(es[..j], es[j..k]);
    assert Log(es[..j]) + Flat(es[j..k]) == MAGIC + (Flat(es[..j]) + Flat(es[j..k]));
  }

  /** A tail is taken whole unless it comes without the magic and starts like it. */
  lemma TailPayload(source: seq<Event>, download: Bytes, j: nat, k: nat, framed: bool)
    requires AllEvents(source) && IsTail(source, download, j, k, framed)
    ensures j < k ==>
              (Payload(download) == Flat(source[j..k]) <==> framed || PayloadOffset(download) == 0)
    ensures j == k ==> !Parse(Payload(download)).Some? || Parse(Payload(download)).value == []
  {
    var es := source[j..k];
    if j < k {
      assert IsEvent(es[0]);
      assert HEADER_LEN <= |Flat(es)|;
      if framed {
        assert download[..4] == MAGIC && download[4..] == Flat(es);
      } else {
        assert download == Flat(es) && download[0..] == download;
      }
    } else {
      assert es == [] && |download| < HEADER_LEN;
    }
  }

  lemma LogGrows(source: seq<Event>, m: nat, j: nat)
    requires AllEvents(source) && m <= j <= |source|
    ensures |Log(source[..m])| <= |Log(source[..j])|
  {
    FlatSplit(source, m, j);
  }

  /** The event behind a cut records that its end lies behind it by its own size. */
  lemma EndBehindCut(source: seq<Event>, j: nat)
    requires IsSource(source) && j < |source|
    ensures IsEvent(source[j]) && EndPos(source[j]) == |Log(source[..j])| + |source[j]|
  {
    hide Flat, EndPos, SizeField;
    TailContinues(source, j, |source|);
    assert source[j..][0] == source[j];
  }

  /** Bytes that hold an event both at their front and four bytes behind it show its size as its end position. */
  lemma TwiceShifted(s: Bytes, e: Event)
    requires HEADER_LEN <= |e| && 4 + |e| <= |s| && s[..|e|] == e && s[4..4 + |e|] == e
    ensures EndPos(e) == SizeField(e)
  {
    SliceOfSlice(s, 4, 4 + |e|, 9, 13);
    SliceOfSlice(s, 0, |e|, 13, 17);
  }

  /** With its first four bytes cut off, the tail never continues the log. */
  lemma CutTailIsNoLog(source: seq<Event>, j: nat, k: nat, m: nat)
    requires IsSource(source) && j < k <= |source| && m <= |source|
    requires 4 + HEADER_LEN <= |Flat(source[j..k])|
    ensures Log(source[..j]) + Flat(source[j..k])[4..] != Log(source[..m])
  {
    hide EndPos, SizeField, Continues;
    var front, raw := Log(source[..j]), Flat(source[j..k]);
    if front + raw[4..] == Log(source[..m]) {
      if m <= j {
        LogGrows(source, m, j);
        assert false;
      } else {
        var e := source[j];
        EndBehindCut(source, j);
        SizeOf(e);
        FlatSplit(source, j, m);
        assert raw[4..] == Flat(source[j..m]) by {
          assert (front + raw[4..])[|front|..] == raw[4..];
          assert (front + Flat(source[j..m]))[|front|..] == Flat(source[j..m]);
        }
        assert source[j..k][0] == e && source[j..m][0] == e;
        assert raw[..|e|] == e && Flat(source[j..m])[..|e|] == e;
        assert raw[4..4 + |e|] == raw[4..][..|e|];
        TwiceShifted(raw, e);
      }
    }
  }

  lemma SizeOf(e: Event)
    requires IsEvent(e)
    ensures SizeField(e) == |e|
  {
  }

  /** What is put together from a cut and a tail is a cut exactly if the tail was taken whole. */
  lemma CombinedIsCut(source: seq<Event>, partial: Bytes, download: Bytes, j: nat, k: nat, framed: bool)
    requires IsSource(source) && IsCut(source, partial, j) && j < k && IsTail(source, download, j, k, framed)
    ensures EventPrefix(source, Some(Combined(partial, download))) <==> framed || PayloadOffset(download) == 0
    ensures framed || PayloadOffset(download) == 0 ==> Combined(partial, download) == Log(source[..k])
  {
    hide Parse, Flat, SizeField, EndPos, Continues;
    TailPayload(source, download, j, k, framed);
    FlatSplit(source, j, k);
    if framed || PayloadOffset(download) == 0 {
      assert IsCut(source, Combined(partial, download), k);
    } else {
      assert download == Flat(source[j..k]);
      forall m: nat
        ensures !IsCut(source, Combined(partial, download), m)
      {
        if m <= |source| {
          CutTailIsNoLog(source, j, k, m);
        }
      }
    }
  }

  // A log whose second event starts like the magic.  Its first four bytes cut
  // off, the rest of the log reads as one event that continues from the first.
  const FIRST: Event := [1, 0, 0, 0, 0, 0, 0, 0, 0, 19, 0, 0, 0, 23, 0, 0, 0, 0, 0]
  const LIKE_MAGIC: Event := MAGIC + [0, 0, 0, 0, 0, 21, 0, 0, 0, 44, 0, 0, 0, 67, 0, 0, 0]
  const LAST: Event := [3, 0, 0, 0, 0, 0, 0, 0, 0, 27, 0, 0, 0, 71, 0, 0, 0] + [0, 0, 0, 0, 0, 0, 0, 0, 0, 0]

  lemma LikeMagicEvents()
    ensures IsEvent(FIRST) && IsEvent(LIKE_MAGIC) && IsEvent(LAST)
    ensures EndPos(FIRST) == 23 && EndPos(LIKE_MAGIC) == 44 && EndPos(LAST) == 71
    ensures |FIRST| == 19 && |LIKE_MAGIC| == 21 && |LAST| == 27
  {
    assert FIRST[9..13] == [19, 0, 0, 0] && FIRST[13..17] == [23, 0, 0, 0];
    assert LIKE_MAGIC[9..13] == [21, 0, 0, 0] && LIKE_MAGIC[13..17] == [44, 0, 0, 0];
    assert LAST[9..13] == [27, 0, 0, 0] && LAST[13..17] == [71, 0, 0, 0];
  }

  lemma ContinuesFirst(e: Event, es: seq<Event>, start: int)
    requires IsEvent(e) && AllEvents(es)
    ensures AllEvents([e] + es)
    ensures Continues([e] + es, start) <==> EndPos(e) - |e| == start && Continues(es, EndPos(e))
  {
    hide SizeField, EndPos;
    assert ([e] + es)[1..] == es;
  }

  lemma LikeMagicLog()
    ensures IsSource([FIRST, LIKE_MAGIC, LAST])
    ensures [FIRST, LIKE_MAGIC, LAST][..1] == [FIRST] && [FIRST, LIKE_MAGIC, LAST][1..3] == [LIKE_MAGIC, LAST]
  {
    LikeMagicEvents();
    hide SizeField, EndPos;
    var source: seq<Event> := [FIRST, LIKE_MAGIC, LAST];
    ContinuesFirst(LAST, [], 44);
    ContinuesFirst(LIKE_MAGIC, [LAST], 23);
    ContinuesFirst(FIRST, [LIKE_MAGIC, LAST], 4);
    assert [LAST] + [] == [LAST] && [LIKE_MAGIC] + [LAST] == [LIKE_MAGIC, LAST];
    assert [FIRST] + [LIKE_MAGIC, LAST] == source;
  }

  /** The tail behind the first event, as taken. */
  lemma LikeMagicPayload()
    ensures Flat([LIKE_MAGIC, LAST]) == LIKE_MAGIC + LAST && PayloadOffset(LIKE_MAGIC + LAST) == 4
    ensures var e := (LIKE_MAGIC + LAST)[4..];
            IsEvent(e) && Parse(e) == Some([e]) && |e| == 44 && EndPos(e) == 67
  {
    LikeMagicEvents();
    OneEventFlat(LAST);
    assert [LIKE_MAGIC, LAST][1..] == [LAST];
    var raw := LIKE_MAGIC + LAST;
    var e := raw[4..];
    assert raw[..4] == MAGIC;
    assert e[9..13] == raw[13..17] == [44, 0, 0, 0] && e[13..17] == raw[17..21] == [67, 0, 0, 0];
    OneEventFlat(e);
    ParseFlat([e]);
  }

  /** The append check accepts the cut-off tail of this log, and the partial file is no cut of it any more. */
  lemma LikeMagicCorrupts(crc: Crc)
    ensures var source, partial, download := [FIRST, LIKE_MAGIC, LAST], Log([FIRST]), Flat([LIKE_MAGIC, LAST]);
            && IsSource(source) && IsCut(source, partial, 1) && IsTail(source, download, 1, 3, false)
            && Appendable(crc, partial, download)
            && !EventPrefix(source, Some(Combined(partial, download)))
  {
    var source, partial, download := [FIRST, LIKE_MAGIC, LAST], Log([FIRST]), Flat([LIKE_MAGIC, LAST]);
    LikeMagicEvents();
    LikeMagicLog();
    LikeMagicPayload();
    hide Parse, SizeField, EndPos;
    assert AllEvents([FIRST]) && !CrcMatches(crc, FIRST);
    SerializedIsAccepted(crc, [FIRST]);
    OneEventFlat(FIRST);
    assert [] + Flat(source[1..3]) == download;
    CombinedIsCut(source, partial, download, 1, 3, false);
    var e: Event := (LIKE_MAGIC + LAST)[4..];
    var one: seq<Event> := [e];
    assert Payload(download) == e && one[1..] == [] && |partial| == 23;
    assert Continues(one, 23);
  }

  /** The change was no resume, or a resume with a tail that was taken whole. */
  predicate Clean(before: Option<Bytes>, after: Option<Bytes>, fetch: Fetch, framed: bool) {
    || after == before || after == NonEmpty(fetch.full) || framed
    || (before.Some? && TailOf(fetch, before.value).Some?
        && PayloadOffset(TailOf(fetch, before.value).value) == 0)
  }

  /** A change keeps the partial file an event-boundary prefix of the source exactly if it is clean. */
  lemma MoveKeepsPrefix(crc: Crc, source: seq<Event>, before: Option<Bytes>, after: Option<Bytes>,
                        fetch: Fetch, framed: bool)
    requires IsSource(source) && Faithful(source, fetch, framed)
    requires EventPrefix(source, before) && Move(crc, before, after, fetch)
    ensures EventPrefix(source, after) <==> Clean(before, after, fetch, framed)
  {
    hide Parse, Flat, SizeField, EndPos, Continues, CrcMatches, IsBinlog, PayloadOffset;
    if after != before && after != NonEmpty(fetch.full) {
      var j: nat :| IsCut(source, before.value, j);
      var download := TailOf(fetch, before.value).value;
      var k: nat :| IsTail(source, download, j, k, framed);
      TailPayload(source, download, j, k, framed);
      CombinedIsCut(source, before.value, download, j, k, framed);
    }
  }

  lemma GrowthKeepsPrefix(source: seq<Event>, grown: seq<Event>, file: Option<Bytes>)
    requires source <= grown && EventPrefix(source, file)
    ensures EventPrefix(grown, file)
  {
    if file.Some? {
      var k: nat :| IsCut(source, file.value, k);
      assert grown[..k] == source[..k];
      assert IsCut(grown, file.value, k);
    }
  }

  /** One observed state of a run: the source so far, the partial file, and what was downloadable. */
  datatype Moment = Moment(source: seq<Event>, partial: Option<Bytes>, fetch: Fetch, framed: bool)

  ghost predicate IsSpoolRun(crc: Crc, run: seq<Moment>) {
    && (forall i | 0 <= i < |run| :: IsSource(run[i].source) && Faithful(run[i].source, run[i].fetch, run[i].framed))
    && forall i | 0 < i < |run| ::
         && run[i - 1].source <= run[i].source
         && Move(crc, run[i - 1].partial, run[i].partial, run[i].fetch)
  }

  predicate CleanAt(run: seq<Moment>, i: int)
    requires 0 < i < |run|
  {
    Clean(run[i - 1].partial, run[i].partial, run[i].fetch, run[i].framed)
  }

  lemma StepKeepsPrefix(crc: Crc, run: seq<Moment>, i: nat)
    requires IsSpoolRun(crc, run) && 0 < i < |run| && EventPrefix(run[i - 1].source, run[i - 1].partial)
    ensures EventPrefix(run[i].source, run[i].partial) <==> CleanAt(run, i)
  {
    hide EventPrefix, Faithful, Move, Clean, IsSource;
    GrowthKeepsPrefix(run[i - 1].source, run[i].source, run[i - 1].partial);
    MoveKeepsPrefix(crc, run[i].source, run[i - 1].partial, run[i].partial, run[i].fetch, run[i].framed);
  }

  lemma {:induction false} CleanRunKeepsPrefix(crc: Crc, run: seq<Moment>, i: nat)
    requires IsSpoolRun(crc, run) && i < |run| && EventPrefix(run[0].source, run[0].partial)
    requires forall n | 0 < n <= i :: CleanAt(run, n)
    ensures EventPrefix(run[i].source, run[i].partial)
  {
    hide EventPrefix, IsSpoolRun, CleanAt;
    if 0 < i {
      CleanRunKeepsPrefix(crc, run, i - 1);
      StepKeepsPrefix(crc, run, i);
    }
  }

  /**
   Over a run in which the source only grows, the partial file always is a cut of it
   exactly if all changes are clean.
   */
  lemma RunKeepsPrefix(crc: Crc, run: seq<Moment>)
    requires IsSpoolRun(crc, run) && run != [] && EventPrefix(run[0].source, run[0].partial)
    ensures (forall i | 0 <= i < |run| :: EventPrefix(run[i].source, run[i].partial)) <==>
            (forall i | 0 < i < |run| :: CleanAt(run, i))
  {
    hide EventPrefix, IsSpoolRun, CleanAt;
    if forall i | 0 < i < |run| :: CleanAt(run, i) {
      forall i | 0 <= i < |run|
        ensures EventPrefix(run[i].source, run[i].partial)
      {
        CleanRunKeepsPrefix(crc, run, i);
      }
    }
    if forall i | 0 <= i < |run| :: EventPrefix(run[i].source, run[i].partial) {
      forall i | 0 < i < |run|
        ensures CleanAt(run, i)
      {
        assert EventPrefix(run[i - 1].source, run[i - 1].partial) && EventPrefix(run[i].source, run[i].partial);
        StepKeepsPrefix(crc, run, i);
      }
    }
  }

  /**
   Resume succeeds where it should: with a partial file cut after event j and a
   tail of later events that is taken whole, the append check accepts, and the
   result is the file a full download cut at the same place would give.
   */
  lemma ResumeEqualsDownload(crc: Crc, source: seq<Event>, partial: Bytes, download: Bytes, j: nat, k: nat,
                             framed: bool)
    requires IsSource(source) && CrcConsistent(crc, source)
    requires 0 < j && IsCut(source, partial, j) && j < k && IsTail(source, download, j, k, framed)
    ensures framed || PayloadOffset(download) == 0 ==> Appendable(crc, partial, download)
    ensures Combined(partial, download) == Log(source[..k]) <==> framed || PayloadOffset(download) == 0
  {
    hide Parse, Flat, SizeField, EndPos, CrcMatches, Continues, PayloadOffset;
    TailPayload(source, download, j, k, framed);
    CombinedIsCut(source, partial, download, j, k, framed);
    if Combined(partial, download) == Log(source[..k]) {
      assert IsCut(source, Combined(partial, download), k);
    }
    var olds, news := source[..j], source[j..k];
    ParseFlat(news);
    SerializedIsAccepted(crc, olds);
    TailContinues(source, j, k);
  }

  lemma TailContinues(source: seq<Event>, j: nat, k: nat)
    requires IsSource(source) && j <= k <= |source|
    ensures AllEvents(source[j..k]) && Continues(source[j..k], |Log(source[..j])|)
  {
    hide Parse, Flat, SizeField, EndPos, Continues;
    var olds, news := source[..j], source[j..k];
    assert olds + news + source[k..] == source;
    ContinuesSplit(olds + news, source[k..], 4);
    ContinuesSplit(olds, news, 4);
  }

  // ----- the agent's rounds -----

  /** What one round of the agent meets: the source by then, and what the tool would deliver. */
  datatype Round = Round(source: seq<Event>, framed: bool, fetch: Fetch, identity: Identity, sourceSize: nat)

  ghost predicate IsGrowth(rounds: seq<Round>) {
    && (forall i | 0 <= i < |rounds| ::
          IsSource(rounds[i].source) && Faithful(rounds[i].source, rounds[i].fetch, rounds[i].framed))
    && forall i | 0 < i < |rounds| :: rounds[i - 1].source <= rounds[i].source
  }

  /** The spool's history from entry `from` on shows cuts of the source only. */
  ghost predicate OnlyCuts(trace: seq<Disk>, from: nat, source: seq<Event>) {
    forall i | from <= i < |trace| :: EventPrefix(source, trace[i].partial)
  }

  lemma RoundShowsCuts(crc: Crc, r: Round, before: Option<Bytes>, trace: seq<Disk>, from: nat, n: nat)
    requires IsSource(r.source) && Faithful(r.source, r.fetch, r.framed) && EventPrefix(r.source, before)
    requires from <= n <= |trace| && OnlyCuts(trace[..n], from, r.source)
    requires forall i | n <= i < |trace| :: Move(crc, before, trace[i].partial, r.fetch)
    requires r.framed
    ensures OnlyCuts(trace, from, r.source)
  {
    hide EventPrefix, Faithful, IsSource, PayloadOffset;
    forall i | from <= i < |trace|
      ensures EventPrefix(r.source, trace[i].partial)
    {
      if i < n {
        assert trace[..n][i] == trace[i];
      } else {
        MoveKeepsPrefix(crc, r.source, before, trace[i].partial, r.fetch, r.framed);
      }
    }
  }

  lemma GrowthShowsCuts(trace: seq<Disk>, from: nat, source: seq<Event>, grown: seq<Event>)
    requires source <= grown && OnlyCuts(trace, from, source)
    ensures OnlyCuts(trace, from, grown)
  {
    hide EventPrefix;
    forall i | from <= i < |trace|
      ensures EventPrefix(grown, trace[i].partial)
    {
      GrowthKeepsPrefix(source, grown, trace[i].partial);
    }
  }

  lemma RunGrows(crc: Crc, run: seq<Moment>, next: Moment)
    requires IsSpoolRun(crc, run) && run != []
    requires IsSource(next.source) && Faithful(next.source, next.fetch, next.framed)
    requires run[|run| - 1].source <= next.source && Move(crc, run[|run| - 1].partial, next.partial, next.fetch)
    ensures IsSpoolRun(crc, run + [next])
  {
    hide Faithful, IsSource, Move;
  }

  /** In these rounds the tool always writes the magic, so every tail is taken whole. */
  predicate Framed(rounds: seq<Round>) {
    forall i | 0 <= i < |rounds| :: rounds[i].framed
  }

  /**
   Updates the spool round by round while the source grows.  The partial files
   are a run as above; and with a tool that always writes the magic in front
   the partial file is a cut of the source at every intermediate step.
   */
  method Follow(spool: ActiveSpool, rounds: seq<Round>) returns (ghost run: seq<Moment>)
    requires spool.Valid() && rounds != [] && IsGrowth(rounds)
    requires EventPrefix(rounds[0].source, spool.disk.partial)
    modifies spool
    ensures spool.Valid() && IsSpoolRun(spool.crc, run) && |run| == |rounds| + 1
    ensures run[0].partial == old(spool.disk.partial) && run[|rounds|].partial == spool.disk.partial
    ensures run[0].source == rounds[0].source
    ensures forall i | 0 <= i < |rounds| ::
              && run[i + 1].source == rounds[i].source
              && run[i + 1].fetch == rounds[i].fetch && run[i + 1].framed == rounds[i].framed
    ensures Framed(rounds) ==> OnlyCuts(spool.trace, |old(spool.trace)|, rounds[|rounds| - 1].source)
  {
    hide EventPrefix, Faithful, IsSource, Move, OnlyCuts, IsSpoolRun, PayloadOffset;
    ghost var first := |spool.trace|;
    run := [Moment(rounds[0].source, spool.disk.partial, rounds[0].fetch, rounds[0].framed)];
    FirstMoment(spool.crc, rounds, spool.disk.partial, spool.trace, run);
    var n := 0;
    while n < |rounds|
      invariant 0 <= n <= |rounds| && spool.Valid() && first <= |spool.trace|
      invariant |run| == n + 1 && IsSpoolRun(spool.crc, run)
      invariant run[0].partial == old(spool.disk.partial) && run[n].partial == spool.disk.partial
      invariant run[0].source == rounds[0].source
      invariant run[n].source == if n == 0 then rounds[0].source else rounds[n - 1].source
      invariant forall i | 0 <= i < n ::
                  && run[i + 1].source == rounds[i].source
                  && run[i + 1].fetch == rounds[i].fetch && run[i + 1].framed == rounds[i].framed
      invariant Framed(rounds) ==>
                  EventPrefix(run[n].source, spool.disk.partial) && OnlyCuts(spool.trace, first, run[n].source)
    {
      var r := rounds[n];
      ghost var before, sofar := spool.disk.partial, spool.trace;
      UpdateOnce(spool, r);
      ghost var next := Moment(r.source, spool.disk.partial, r.fetch, r.framed);
      RunGrows(spool.crc, run, next);
      if Framed(rounds) {
        GrowthKeepsPrefix(run[n].source, r.source, before);
        GrowthShowsCuts(sofar, first, run[n].source, r.source);
        assert spool.trace[..|sofar|] == sofar;
        RoundShowsCuts(spool.crc, r, before, spool.trace, first, |sofar|);
        MoveKeepsPrefix(spool.crc, r.source, before, spool.disk.partial, r.fetch, r.framed);
      }
      run := run + [next];
      n := n + 1;
    }
  }

  /** One round's update, as far as it moves the partial file. */
  method UpdateOnce(spool: ActiveSpool, r: Round)
    requires spool.Valid()
    modifies spool
    ensures spool.Valid() && old(spool.trace) <= spool.trace
    ensures forall i | |old(spool.trace)| <= i < |spool.trace| ::
              Move(spool.crc, old(spool.disk.partial), spool.trace[i].partial, r.fetch)
    ensures Move(spool.crc, old(spool.disk.partial), spool.disk.partial, r.fetch)
  {
    hide Move, CanReuse, CanResume, IsBinlog, NonEmpty, TailOf, Combined;
    var _ := spool.Update(r.identity, r.sourceSize, r.fetch);
  }

  lemma FirstMoment(crc: Crc, rounds: seq<Round>, partial: Option<Bytes>, trace: seq<Disk>, run: seq<Moment>)
    requires rounds != [] && IsGrowth(rounds)
    requires run == [Moment(rounds[0].source, partial, rounds[0].fetch, rounds[0].framed)]
    ensures IsSpoolRun(crc, run) && OnlyCuts(trace, |trace|, rounds[0].source)
  {
  }
}
