/**
 The table of running "mysqlbinlog --stop-never" processes, one per stream
 (cmd/agent/database_archiver.go).

 Each table operation runs under one mutex and is atomic here; a round runs one
 goroutine per stream, and `RunRound` lets an arbitrary scheduler interleave
 their operations with process exits.
 */
module ProcessTable {
  import opened Common
  import opened Names

  /** `handle` identifies the operating-system process: it is its rank among all starts. */
  datatype Process = Process(handle: nat, activeFile: string, restartCount: nat)

  /** Where a started process is: under its stream in the table, or taken out in one of three ways. */
  datatype Fate = InTable | Collected | Detached | Lost

  /** What a round wants for one listed stream. */
  datatype Request = Leave | Stop | Keep(activeFile: string, launches: bool)

  datatype Item = Item(stream: nat, request: Request)

  /** What a goroutine does next for its stream. */
  datatype Step = Begin | Check | Launch | Finished

  function StartsOf(log: seq<nat>, stream: nat): nat {
    if log == [] then 0
    else StartsOf(log[..|log| - 1], stream) + if log[|log| - 1] == stream then 1 else 0
  }

  /** That is how often the stream occurs among the starts. */
  lemma {:induction false} StartsCounted(log: seq<nat>, stream: nat)
    ensures StartsOf(log, stream) == multiset(log)[stream]
  {
    if log != [] {
      var rest := log[..|log| - 1];
      StartsCounted(rest, stream);
      assert log == rest + [log[|log| - 1]];
    }
  }

  /** The listing names each stream at most once. */
  predicate DistinctIds(items: seq<Item>) {
    forall i, j | 0 <= i < j < |items| :: items[i].stream != items[j].stream
  }

  /** The assigned streams; id 0 is no stream. */
  function Ids(items: seq<Item>): set<nat> {
    set i | 0 <= i < |items| && items[i].stream != 0 :: items[i].stream
  }

  /** Steps that the goroutines of a round still have before them, at most. */
  function Work(steps: seq<Step>): nat {
    if steps == [] then 0 else StepsLeft(steps[0]) + Work(steps[1..])
  }

  function StepsLeft(s: Step): nat {
    match s
    case Begin => 3
    case Check => 2
    case Launch => 1
    case Finished => 0
  }

  lemma {:induction false} WorkShrinks(steps: seq<Step>, i: nat, s: Step)
    requires i < |steps| && StepsLeft(s) < StepsLeft(steps[i])
    ensures Work(steps[i := s]) < Work(steps)
  {
    if i == 0 {
      assert steps[0 := s][1..] == steps[1..];
    } else {
      assert steps[i := s][1..] == steps[1..][i - 1 := s];
      WorkShrinks(steps[1..], i - 1, s);
    }
  }

  /** The table at some moment: its entries, the processes that have ended, all starts so far. */
  datatype Table = Table(processes: map<nat, Process>, exited: set<nat>, log: seq<nat>)

  ghost predicate StartsFrom(before: Table, now: Table) {
    && before.log <= now.log && before.exited <= now.exited
    && forall s | s in before.processes :: before.processes[s].handle < |before.log|
  }

  /** The entry was made since then, for the given file. */
  predicate Fresh(s: nat, before: Table, now: Table, activeFile: string) {
    s in now.processes && |before.log| <= now.processes[s].handle && now.processes[s].activeFile == activeFile
  }

  predicate SameEntry(s: nat, before: Table, now: Table) {
    (s in now.processes <==> s in before.processes)
    && (s in before.processes ==> now.processes[s] == before.processes[s])
  }

  predicate Untouched(s: nat, before: Table, now: Table) {
    SameEntry(s, before, now) && StartsOf(now.log, s) == StartsOf(before.log, s)
  }

  /**
   How far a round has come with one listed stream.  What runs is kept and not
   started again, what has ended is replaced, and no stream is started twice.
   */
  predicate Served(item: Item, step: Step, before: Table, now: Table) {
    var s := item.stream;
    s != 0 ==>
      match item.request
      case Leave => Untouched(s, before, now)
      case Stop =>
        if step == Begin then Untouched(s, before, now)
        else s !in now.processes && StartsOf(now.log, s) == StartsOf(before.log, s)
      case Keep(activeFile, launches) =>
        if step == Begin then Untouched(s, before, now)
        else
          && (s in before.processes && before.processes[s].handle !in now.exited ==> SameEntry(s, before, now))
          && (s in now.processes && !Fresh(s, before, now, activeFile) ==>
                SameEntry(s, before, now) && now.processes[s].handle !in before.exited)
          && StartsOf(now.log, s) == StartsOf(before.log, s) + (if Fresh(s, before, now, activeFile) then 1 else 0)
          && (step != Finished ==> IsSafeName(activeFile) && !Fresh(s, before, now, activeFile))
          && (step == Launch ==> s !in now.processes)
          && (step == Finished && IsSafeName(activeFile) && launches ==> s in now.processes)
  }

  /** At most this one stream's entry has changed, and at most it was started. */
  predicate OnlyStream(last: Table, now: Table, stream: nat) {
    && now.exited == last.exited
    && now.processes.Keys <= last.processes.Keys + (if stream == 0 then {} else {stream})
    && (forall s | s in last.processes.Keys + now.processes.Keys :: s == stream || SameEntry(s, last, now))
    && (now.log == last.log || (stream != 0 && now.log == last.log + [stream]))
  }

  predicate AllServed(items: seq<Item>, steps: seq<Step>, before: Table, now: Table) {
    && |steps| == |items|
    && forall i | 0 <= i < |items| :: Served(items[i], steps[i], before, now)
  }

  /** Neither a step for another stream nor the end of a process undoes what was done for a stream. */
  lemma OthersServed(item: Item, step: Step, before: Table, last: Table, now: Table, stream: nat)
    requires Served(item, step, before, last) && last.exited <= now.exited
    requires SameEntry(item.stream, last, now)
    requires now.log == last.log || (item.stream != stream && now.log == last.log + [stream])
    ensures Served(item, step, before, now)
  {
    hide IsSafeName, StartsOf;
    StartsOfMore(last.log, stream);
  }

  lemma IdleServed(item: Item, step: Step, before: Table, now: Table)
    requires Served(item, step, before, now)
    ensures OnlyStream(now, now, item.stream)
    ensures step == Begin && (item.stream == 0 || item.request.Leave?) ==> Served(item, Finished, before, now)
    ensures step == Check && item.stream != 0 && item.request.Keep? ==>
              Served(item, if item.stream in now.processes then Finished else Launch, before, now)
    ensures step == Launch && item.stream != 0 && item.request.Keep? && !item.request.launches ==>
              Served(item, Finished, before, now)
  {
  }

  lemma StoppedServed(item: Item, before: Table, last: Table, now: Table)
    requires Served(item, Begin, before, last) && item.stream != 0 && item.request.Stop?
    requires now == last.(processes := last.processes - {item.stream})
    ensures Served(item, Finished, before, now) && OnlyStream(last, now, item.stream)
  {
  }

  lemma CollectedServed(item: Item, before: Table, last: Table, now: Table)
    requires StartsFrom(before, last) && Served(item, Begin, before, last) && item.stream != 0 && item.request.Keep?
    requires var ended := item.stream in last.processes && last.processes[item.stream].handle in last.exited;
             now == last.(processes := if ended then last.processes - {item.stream} else last.processes)
    ensures Served(item, if IsSafeName(item.request.activeFile) then Check else Finished, before, now)
    ensures OnlyStream(last, now, item.stream)
  {
    hide IsSafeName;
  }

  lemma LaunchedServed(item: Item, before: Table, last: Table, now: Table, p: Process)
    requires StartsFrom(before, last) && Served(item, Launch, before, last) && item.stream != 0 && item.request.Keep?
    requires p.handle == |last.log| && p.activeFile == item.request.activeFile
    requires now == last.(processes := last.processes[item.stream := p], log := last.log + [item.stream])
    ensures Served(item, Finished, before, now) && OnlyStream(last, now, item.stream)
    ensures StartsFrom(before, now)
  {
    hide IsSafeName;
    StartsOfMore(last.log, item.stream);
  }

  /** Before a launch the stream has no entry. */
  lemma LaunchFree(item: Item, before: Table, now: Table)
    requires Served(item, Launch, before, now) && item.stream != 0 && item.request.Keep?
    ensures item.stream !in now.processes
  {
  }

  lemma ItemServed(items: seq<Item>, steps: seq<Step>, i: nat, before: Table, now: Table)
    requires AllServed(items, steps, before, now) && i < |items|
    ensures |steps| == |items| && Served(items[i], steps[i], before, now)
  {
  }

  lemma TurnServed(items: seq<Item>, steps: seq<Step>, i: nat, next: Step, before: Table, last: Table, now: Table)
    requires AllServed(items, steps, before, last) && i < |items| && DistinctIds(items)
    requires OnlyStream(last, now, items[i].stream) && Served(items[i], next, before, now)
    ensures AllServed(items, steps[i := next], before, now)
  {
    hide Served;
    forall j | 0 <= j < |items| && j != i
      ensures Served(items[j], steps[j], before, now)
    {
      assert items[j].stream != items[i].stream;
      assert SameEntry(items[j].stream, last, now) by {
        assert items[j].stream in last.processes || items[j].stream in now.processes ==>
            items[j].stream in last.processes.Keys + now.processes.Keys;
      }
      OthersServed(items[j], steps[j], before, last, now, items[i].stream);
    }
  }

  lemma ExitServed(items: seq<Item>, steps: seq<Step>, before: Table, last: Table, now: Table)
    requires AllServed(items, steps, before, last)
    requires now == last.(exited := now.exited) && last.exited <= now.exited
    ensures AllServed(items, steps, before, now)
  {
    hide Served;
    forall i | 0 <= i < |items|
      ensures Served(items[i], steps[i], before, now)
    {
      OthersServed(items[i], steps[i], before, last, now, 0);
    }
  }

  lemma NothingServed(items: seq<Item>, steps: seq<Step>, now: Table)
    requires |steps| == |items| && forall i | 0 <= i < |items| :: steps[i] == Begin
    ensures AllServed(items, steps, now, now)
  {
  }

  lemma RoundServed(items: seq<Item>, steps: seq<Step>, before: Table, now: Table)
    requires AllServed(items, steps, before, now) && forall i | 0 <= i < |steps| :: steps[i] == Finished
    ensures forall item | item in items :: Served(item, Finished, before, now)
  {
    hide Served;
  }

  /** For an assigned stream it does not matter what was stopped before. */
  lemma ServedFromBefore(item: Item, before: Table, stopped: Table, now: Table)
    requires Served(item, Finished, stopped, now) && stopped == before.(processes := stopped.processes)
    requires item.stream != 0 ==> SameEntry(item.stream, before, stopped)
    ensures Served(item, Finished, before, now)
  {
    hide StartsOf, IsSafeName;
  }

  class StreamingTable {
    var processes: map<nat, Process>
    var starts: map<nat, nat>
    var exited: set<nat>
    var launched: nat
    ghost var log: seq<nat>
    ghost var fate: seq<Fate>

    /**
     `log` lists the streams of all starts so far.  Every start has exactly one
     fate, it is in the table exactly if its fate says so, and restart counts
     equal the number of earlier starts of the stream.
     */
    ghost predicate Valid()
      reads this
    {
      && |fate| == |log| == launched
      && (forall s | s in processes ::
            var p := processes[s];
            p.handle < |log| && log[p.handle] == s && fate[p.handle] == InTable
            && p.restartCount == StartsOf(log[..p.handle], s))
      && (forall i | 0 <= i < |log| && fate[i] == InTable ::
            log[i] in processes && processes[log[i]].handle == i)
      && (forall s: nat :: StartsOf(log, s) == if s in starts then starts[s] else 0)
    }

    /** No entry was lost since the old state, and none moved but in or out of the table. */
    twostate predicate Accounted()
      reads this
    {
      && old(log) <= log && |fate| == |log| && |old(fate)| == |old(log)|
      && (forall i | 0 <= i < |log| && fate[i] == Lost :: i < |old(log)| && old(fate)[i] == Lost)
      && (forall i | 0 <= i < |old(log)| && old(fate)[i] != InTable :: fate[i] == old(fate)[i])
    }

    constructor ()
      ensures Valid() && processes == map[] && log == []
    {
      processes, starts, exited, launched := map[], map[], {}, 0;
      log, fate := [], [];
    }

    /** A process ends by itself; only its `done` channel notices. */
    method Exit(handle: nat)
      requires Valid()
      modifies this`exited
      ensures Valid() && exited == old(exited) + {handle}
    {
      exited := exited + {handle};
    }

    /** Takes an entry out of the table, for the given reason. */
    method TakeOut(stream: nat, reason: Fate) returns (p: Process)
      requires Valid() && stream in processes && reason != InTable
      modifies this`processes, this`fate
      ensures Valid() && p == old(processes)[stream]
      ensures processes == old(processes) - {stream}
      ensures p.handle < |fate| == |old(fate)| && fate == old(fate)[p.handle := reason]
    {
      p := processes[stream];
      processes := processes - {stream};
      fate := fate[p.handle := reason];
    }

    /** Collects the entry of a stream whose process has ended. */
    method CollectExit(stream: nat) returns (exit: Option<Process>)
      requires Valid()
      modifies this`processes, this`fate
      ensures Valid() && Accounted()
      ensures exit.Some? <==> stream in old(processes) && old(processes)[stream].handle in exited
      ensures exit.Some? ==>
                && exit.value == old(processes)[stream] && exit.value.handle < |fate|
                && processes == old(processes) - {stream}
                && fate == old(fate)[exit.value.handle := Collected]
      ensures exit.None? ==> processes == old(processes) && fate == old(fate)
    {
      if stream !in processes || processes[stream].handle !in exited {
        return None;
      }
      var p := TakeOut(stream, Collected);
      return Some(p);
    }

    /** Takes a stream's entry out of the table in order to stop its process. */
    method StopStream(stream: nat)
      requires Valid()
      modifies this`processes, this`fate
      ensures Valid() && Accounted() && processes == old(processes) - {stream}
      ensures stream in old(processes) ==>
                var h := old(processes)[stream].handle;
                h < |fate| && fate == old(fate)[h := Detached]
      ensures stream !in old(processes) ==> fate == old(fate)
    {
      if stream !in processes {
        assert processes - {stream} == processes;
        return;
      }
      var _ := TakeOut(stream, Detached);
    }

    /** Stops every process whose stream is not wanted any more. */
    method StopNotIn(active: set<nat>)
      requires Valid()
      modifies this`processes, this`fate
      ensures Valid() && Accounted()
      ensures processes == map s | s in old(processes) && s in active :: old(processes)[s]
    {
      hide StartsOf;
      var ids := processes.Keys;
      while ids != {}
        invariant Valid() && Accounted()
        invariant forall s | s in processes :: s in old(processes) && processes[s] == old(processes)[s]
        invariant forall s | s in old(processes) && s !in processes :: s !in active
        invariant forall s | s in processes && s !in active :: s in ids
        decreases ids
      {
        var s :| s in ids;
        if s !in active {
          StopStream(s);
        }
        ids := ids - {s};
      }
    }

    /** Stops every process. */
    method StopAll()
      requires Valid()
      modifies this`processes, this`fate
      ensures Valid() && Accounted() && processes == map[]
    {
      StopNotIn({});
    }

    /**
     Enters a freshly started process.  The table is not consulted again: an
     entry that is already there is overwritten and lost.
     */
    method Enter(stream: nat, activeFile: string)
      requires Valid()
      modifies this`processes, this`starts, this`launched, this`log, this`fate
      ensures Valid() && log == old(log) + [stream]
      ensures processes == old(processes)[stream := Process(|old(log)|, activeFile, StartsOf(old(log), stream))]
      ensures stream !in old(processes) ==> Accounted() && fate == old(fate) + [InTable]
      ensures stream in old(processes) ==>
                var h := old(processes)[stream].handle;
                h < |old(fate)| && fate == old(fate)[h := Lost] + [InTable]
    {
      if stream in processes {
        var _ := TakeOut(stream, Lost);
      }
      AddEntry(stream, activeFile);
    }

    ghost function Now(): Table
      reads this
    {
      Table(processes, exited, log)
    }

    lemma OneFateEach()
      requires Valid()
      ensures |fate| == |log|
      ensures forall s | s in processes :: processes[s].handle < |log|
    {
    }

    /** One atomic step of the goroutine that serves `item`. */
    method Advance(item: Item, step: Step, ghost before: Table) returns (next: Step)
      requires Valid() && step != Finished && StartsFrom(before, Now()) && Served(item, step, before, Now())
      requires step != Begin ==> item.request.Keep? && item.stream != 0
      modifies this`processes, this`starts, this`launched, this`log, this`fate
      ensures Valid() && Accounted() && StepsLeft(next) < StepsLeft(step)
      ensures next != Finished ==> item.request.Keep? && item.stream != 0
      ensures StartsFrom(before, Now()) && Served(item, next, before, Now())
      ensures OnlyStream(old(Now()), Now(), item.stream)
    {
      OneFateEach();
      hide IsSafeName, StartsOf, Valid, Served, OnlyStream, Accounted;
      IdleServed(item, step, before, Now());
      match step
      case Begin =>
        next := BeginServing(item, before);
      case Check =>
        next := if item.stream in processes then Finished else Launch;
        NothingLost();
      case Launch =>
        Start(item, before);
        next := Finished;
    }

    twostate lemma NothingLost()
      requires old(Valid()) && log == old(log) && fate == old(fate)
      ensures Accounted()
    {
    }

    /** Stops, or collects, what the stream had before. */
    method BeginServing(item: Item, ghost before: Table) returns (next: Step)
      requires Valid() && StartsFrom(before, Now()) && Served(item, Begin, before, Now())
      modifies this`processes, this`fate
      ensures Valid() && Accounted() && next in {Check, Finished}
      ensures next != Finished ==> item.request.Keep? && item.stream != 0
      ensures Served(item, next, before, Now()) && OnlyStream(old(Now()), Now(), item.stream)
    {
      OneFateEach();
      hide IsSafeName, StartsOf, Valid, Served, OnlyStream;
      ghost var last := Now();
      IdleServed(item, Begin, before, last);
      if item.stream == 0 {
        return Finished;
      }
      match item.request {
        case Leave =>
          return Finished;
        case Stop =>
          StopStream(item.stream);
          StoppedServed(item, before, last, Now());
          return Finished;
        case Keep(activeFile, _) =>
          var _ := CollectExit(item.stream);
          CollectedServed(item, before, last, Now());
          return if IsSafeName(activeFile) then Check else Finished;
      }
    }

    /** Starts a process for the stream, unless that fails. */
    method Start(item: Item, ghost before: Table)
      requires Valid() && StartsFrom(before, Now()) && Served(item, Launch, before, Now())
      requires item.request.Keep? && item.stream != 0
      modifies this`processes, this`starts, this`launched, this`log, this`fate
      ensures Valid() && Accounted() && StartsFrom(before, Now())
      ensures Served(item, Finished, before, Now()) && OnlyStream(old(Now()), Now(), item.stream)
    {
      OneFateEach();
      hide IsSafeName, StartsOf, Valid, Served, OnlyStream;
      ghost var last := Now();
      IdleServed(item, Launch, before, last);
      if item.request.launches {
        LaunchFree(item, before, last);
        Enter(item.stream, item.request.activeFile);
        LaunchedServed(item, before, last, Now(), processes[item.stream]);
      }
    }

    /** One step of the `i`-th goroutine, seen by all. */
    method Turn(items: seq<Item>, steps: seq<Step>, i: nat, ghost before: Table) returns (next: Step)
      requires Valid() && AllServed(items, steps, before, Now()) && StartsFrom(before, Now()) && DistinctIds(items)
      requires i < |items| && steps[i] != Finished
      requires steps[i] != Begin ==> items[i].request.Keep? && items[i].stream != 0
      modifies this`processes, this`starts, this`launched, this`log, this`fate
      ensures Valid() && Accounted() && StepsLeft(next) < StepsLeft(steps[i])
      ensures next != Finished ==> items[i].request.Keep? && items[i].stream != 0
      ensures AllServed(items, steps[i := next], before, Now()) && StartsFrom(before, Now())
      ensures processes.Keys <= old(processes).Keys + (if items[i].stream == 0 then {} else {items[i].stream})
    {
      hide Served, StartsOf, Valid, DistinctIds, AllServed;
      ghost var last := Now();
      ItemServed(items, steps, i, before, last);
      next := Advance(items[i], steps[i], before);
      TurnServed(items, steps, i, next, before, last, Now());
    }

    /**
     Serves all listed streams concurrently: an arbitrary scheduler picks whose
     step is next, and processes may end at any time.
     */
    method RunRound(items: seq<Item>)
      requires Valid() && DistinctIds(items) && processes.Keys <= Ids(items)
      modifies this
      ensures Valid() && Accounted() && processes.Keys <= Ids(items)
      ensures forall item | item in items :: Served(item, Finished, old(Now()), Now())
    {
      hide Served, StartsOf, DistinctIds, Work, AllServed;
      ghost var before := Now();
      var steps := seq(|items|, _ => Begin);
      OneFateEach();
      NothingServed(items, steps, before);
      while exists i :: 0 <= i < |steps| && steps[i] != Finished
        invariant |steps| == |items|
        invariant Valid() && Accounted() && processes.Keys <= Ids(items)
        invariant forall i | 0 <= i < |steps| && steps[i] !in {Begin, Finished} ::
                    items[i].request.Keep? && items[i].stream != 0
        invariant AllServed(items, steps, before, Now()) && StartsFrom(before, Now())
        decreases Work(steps)
      {
        if * {
          var ended: nat :| true;
          ghost var last := Now();
          Exit(ended);
          ExitServed(items, steps, before, last, Now());
        }
        var i :| 0 <= i < |steps| && steps[i] != Finished;
        var next := Turn(items, steps, i, before);
        WorkShrinks(steps, i, next);
        assert items[i].stream == 0 || items[i].stream in Ids(items);
        steps := steps[i := next];
      }
      RoundServed(items, steps, before, Now());
    }

    /**
     One round of the agent.  Without a heartbeat or without a listing every
     process is stopped; otherwise only assigned streams keep one.
     */
    method RunOnce(heartbeat: bool, listing: Option<seq<Item>>)
      requires Valid() && (listing.Some? ==> DistinctIds(listing.value))
      modifies this
      ensures Valid() && Accounted()
      ensures !heartbeat || listing.None? ==> processes == map[]
      ensures listing.Some? ==> processes.Keys <= Ids(listing.value)
      ensures heartbeat && listing.Some? ==>
                forall item | item in listing.value :: Served(item, Finished, old(Now()), Now())
    {
      hide Served, StartsOf, Valid, DistinctIds;
      if !heartbeat || listing.None? {
        StopAll();
        return;
      }
      ghost var before := Now();
      StopNotIn(Ids(listing.value));
      ghost var stopped := Now();
      RunRound(listing.value);
      forall item | item in listing.value
        ensures Served(item, Finished, before, Now())
      {
        ServedFromBefore(item, before, stopped, Now());
      }
    }

    /** Enters a freshly started process for a stream without an entry. */
    method AddEntry(stream: nat, activeFile: string)
      requires Valid() && stream !in processes
      modifies this`processes, this`starts, this`launched, this`log, this`fate
      ensures Valid() && log == old(log) + [stream] && fate == old(fate) + [InTable]
      ensures processes == old(processes)[stream := Process(|old(log)|, activeFile, StartsOf(old(log), stream))]
    {
      hide StartsOf;
      assert StartsOf(log, stream) == if stream in starts then starts[stream] else 0;
      var restartCount := if stream in starts then starts[stream] else 0;
      starts := starts[stream := restartCount + 1];
      processes := processes[stream := Process(launched, activeFile, restartCount)];
      launched := launched + 1;
      log, fate := log + [stream], fate + [InTable];
      StartsOfMore(old(log), stream);
      forall s | s in processes
        ensures processes[s].restartCount == StartsOf(log[..processes[s].handle], s)
      {
        assert log[..processes[s].handle] == old(log)[..processes[s].handle];
        assert s == stream ==> old(log)[..processes[s].handle] == old(log);
      }
    }
  }

  lemma StartsOfMore(log: seq<nat>, stream: nat)
    ensures forall s :: StartsOf(log + [stream], s) == StartsOf(log, s) + if s == stream then 1 else 0
  {
    assert (log + [stream])[..|log|] == log;
  }
}
