/**
 The archive protocol of one stream as a transition system: source database,
 local disk, object store, upload queue and server (cmd/agent/database_archiver.go).

 `Acts` lists every atomic change that any party makes, with the condition under
 which it may be made.  A crash is the absence of further agent actions, so a
 property of all states of all runs holds after a crash between any two steps.
 */
module ArchiveSystem {
  import opened Common
  import opened Names
  import opened QueueNames
  import opened Selection

  /** Where an archived file is said to be. */
  datatype Uri = LocalUri(file: string) | ObjectUri(file: string)

  datatype Artifact = Artifact(
    file: string, size: nat, sum: Checksum, previous: string, next: string, uri: Uri)

  /** Fixed surroundings: the configuration, SHA-256, and the texts of the two sidecar files. */
  datatype Env = Env(
    stream: nat, objectStorage: bool, retry: bool, maxAttempts: nat,
    sha: Bytes -> Checksum, sumText: Artifact -> Bytes, manifestText: Artifact -> Bytes)

  datatype Path =
    | Finalized(file: string)
    | SumFile(file: string)
    | ManifestFile(file: string)
    | StreamSpool(file: string)
    | Quarantined(file: string, stamp: int)

  datatype Key =
    | Staging(file: string, stamp: nat)
    | Final(file: string)
    | FinalSum(file: string)
    | FinalManifest(file: string)

  /** An object with its checksum metadata. */
  datatype Object = Object(content: Bytes, sum: Checksum)

  datatype QueueItem = QueueItem(artifact: Artifact, attempts: nat, maxAttempts: nat, nextAttempt: int)

  datatype QueueEntry = Item(item: QueueItem) | HalfWritten

  /**
   `history` names every log the source ever opened, the active one last;
   `purged` of them are gone.  `base` is the index of the first registered log.
   */
  datatype Sys = Sys(
    history: seq<LogFile>, purged: nat,
    disk: map<Path, Bytes>, objects: map<Key, Object>, queue: map<string, QueueEntry>,
    base: nat, registered: seq<Artifact>, cursor: string)

  predicate HasFinal(s: Sys, file: string) {
    Finalized(file) in s.disk && s.disk[Finalized(file)] != []
  }

  /** The artifact tells size and checksum of its finalized local file. */
  predicate Describes(env: Env, s: Sys, a: Artifact) {
    && HasFinal(s, a.file)
    && a.size == |s.disk[Finalized(a.file)]|
    && a.sum == env.sha(s.disk[Finalized(a.file)])
  }

  predicate FinalMatches(s: Sys, a: Artifact) {
    && Final(a.file) in s.objects
    && |s.objects[Final(a.file)].content| == a.size
    && s.objects[Final(a.file)].sum == a.sum
  }

  function QueuePath(env: Env, a: Artifact): string {
    QueueFile(env.stream, a.file, a.sum)
  }

  predicate Queued(env: Env, s: Sys, a: Artifact) {
    var p := QueuePath(env, a);
    p in s.queue && s.queue[p].Item? && SameFile(s.queue[p].item.artifact, a)
  }

  predicate SameFile(a: Artifact, b: Artifact) {
    a.file == b.file && a.size == b.size && a.sum == b.sum
  }

  /** With object storage on, the artifact is at its final key or waiting for upload. */
  predicate Stored(env: Env, s: Sys, a: Artifact) {
    env.objectStorage ==> FinalMatches(s, a) || Queued(env, s, a)
  }

  // ----- the actions -----

  datatype Action =
    | SourceMoves
    | WritesFile(path: Path, content: Bytes)
    | Commits(file: string, content: Bytes)
    | DropsSpool(file: string)
    | Quarantines(file: string, stamp: int)
    | PutsObject(key: Key, object_: Object)
    | DropsStaging(key: Key)
    | WritesTmp(name: string, entry: QueueEntry)
    | InstallsItem(item: QueueItem)
    | DropsItem(name: string)
    | Registers(artifact: Artifact, index: nat)
    | MovesCursor(name: string)

  predicate Grows(before: seq<LogFile>, after: seq<LogFile>) {
    && |before| <= |after|
    && DistinctNames(after)
    && (forall i | 0 <= i < |before| :: after[i].name == before[i].name)
    && (forall i | 0 <= i < |before| - 1 :: after[i] == before[i])
  }

  /** The source appends, rotates and purges; the streaming process writes the active file's spool. */
  predicate SourceStep(s: Sys, t: Sys) {
    && s.history != [] && Grows(s.history, t.history)
    && s.purged <= t.purged < |t.history|
    && (var spool := StreamSpool(s.history[|s.history| - 1].name);
        forall p | p in s.disk.Keys + t.disk.Keys ::
          p == spool || (p in s.disk && p in t.disk && s.disk[p] == t.disk[p]))
    && t == s.(history := t.history, purged := t.purged, disk := t.disk)
  }

  /** A queue item that may be installed: it describes the local file and keeps the retry limit. */
  predicate GoodItem(env: Env, s: Sys, item: QueueItem) {
    && IsSafeName(item.artifact.file)
    && Describes(env, s, item.artifact)
    && item.maxAttempts == env.maxAttempts
    && (0 < env.maxAttempts ==> item.attempts <= env.maxAttempts)
  }

  /** Log `i` is closed and the next to register, and the artifact links it to its neighbours. */
  predicate NextToRegister(s: Sys, a: Artifact, i: nat) {
    && i + 1 < |s.history|
    && s.history[i].name == a.file && s.history[i + 1].name == a.next
    && (s.registered != [] ==>
          i == s.base + |s.registered| && a.previous == s.registered[|s.registered| - 1].file)
  }

  ghost predicate Acts(env: Env, s: Sys, act: Action, t: Sys) {
    match act
    case SourceMoves => SourceStep(s, t)
    case WritesFile(path, content) =>
      (path.SumFile? || path.ManifestFile?) && t == s.(disk := s.disk[path := content])
    case Commits(file, content) =>
      !HasFinal(s, file) && content != [] && t == s.(disk := s.disk[Finalized(file) := content])
    case DropsSpool(file) =>
      && (StreamSpool(file) in s.disk ==>
            HasFinal(s, file) && env.sha(s.disk[StreamSpool(file)]) == env.sha(s.disk[Finalized(file)]))
      && t == s.(disk := s.disk - {StreamSpool(file)})
    case Quarantines(file, stamp) =>
      && StreamSpool(file) in s.disk
      && t == s.(disk := (s.disk - {StreamSpool(file)})[Quarantined(file, stamp) := s.disk[StreamSpool(file)]])
    case PutsObject(key, o) =>
      && (key.Staging? || key !in s.objects)
      && (key.Final? ==> HasFinal(s, key.file) && o.content == s.disk[Finalized(key.file)]
                         && o.sum == env.sha(o.content))
      && (key.FinalSum? ==> SumFile(key.file) in s.disk && o.content == s.disk[SumFile(key.file)])
      && (key.FinalManifest? ==> ManifestFile(key.file) in s.disk && o.content == s.disk[ManifestFile(key.file)])
      && t == s.(objects := s.objects[key := o])
    case DropsStaging(key) =>
      key.Staging? && t == s.(objects := s.objects - {key})
    case WritesTmp(path, entry) =>
      !IsQueueEntry(path) && t == s.(queue := s.queue[path := entry])
    case InstallsItem(item) =>
      var p := QueuePath(env, item.artifact);
      && GoodItem(env, s, item)
      && t == s.(queue := (s.queue - {TmpOf(p)})[p := Item(item)])
    case DropsItem(path) =>
      && path in s.queue && s.queue[path].Item? && FinalMatches(s, s.queue[path].item.artifact)
      && t == s.(queue := s.queue - {path})
    case Registers(a, i) =>
      && NextToRegister(s, a, i) && IsSafeName(a.file) && Describes(env, s, a) && Stored(env, s, a)
      && t == s.(registered := s.registered + [a], base := if s.registered == [] then i else s.base)
    case MovesCursor(name) =>
      && (exists k :: 0 <= k < |s.registered| && s.registered[k].file == name)
      && t == s.(cursor := name)
  }

  ghost predicate Step(env: Env, s: Sys, t: Sys) {
    exists act :: Acts(env, s, act, t)
  }

  ghost predicate IsRun(env: Env, run: seq<Sys>) {
    forall i | 0 <= i < |run| - 1 :: Step(env, run[i], run[i + 1])
  }

  // ----- the invariant -----

  /** The registered files are a gap-free segment of the log history, linked in both directions. */
  ghost predicate Chain(s: Sys) {
    && (s.registered != [] ==> s.base + |s.registered| < |s.history|)
    && forall k | 0 <= k < |s.registered| ::
         && s.registered[k].file == s.history[s.base + k].name
         && s.registered[k].next == s.history[s.base + k + 1].name
         && (0 < k ==> s.registered[k].previous == s.history[s.base + k - 1].name)
  }

  /** Each registered file has its finalized copy and is stored. */
  ghost predicate Backed(env: Env, s: Sys) {
    forall k | 0 <= k < |s.registered| ::
      && IsSafeName(s.registered[k].file)
      && Describes(env, s, s.registered[k])
      && Stored(env, s, s.registered[k])
  }

  /** Every final object is a faithful copy of the finalized local file. */
  ghost predicate FaithfulObjects(env: Env, s: Sys) {
    forall k | k in s.objects && k.Final? ::
      && HasFinal(s, k.file)
      && s.objects[k].content == s.disk[Finalized(k.file)]
      && s.objects[k].sum == env.sha(s.objects[k].content)
  }

  ghost predicate GoodQueue(env: Env, s: Sys) {
    forall p | p in s.queue && IsQueueEntry(p) ::
      && s.queue[p].Item?
      && GoodItem(env, s, s.queue[p].item)
      && p == QueuePath(env, s.queue[p].item.artifact)
  }

  ghost predicate GoodCursor(s: Sys) {
    s.cursor == "" || exists k :: 0 <= k < |s.registered| && s.registered[k].file == s.cursor
  }

  ghost predicate Inv(env: Env, s: Sys) {
    && s.history != [] && DistinctNames(s.history) && s.purged < |s.history|
    && Chain(s) && Backed(env, s) && FaithfulObjects(env, s) && GoodQueue(env, s) && GoodCursor(s)
  }

  /** A fresh agent: nothing archived, nothing registered. */
  ghost predicate Initial(s: Sys) {
    && s.history != [] && DistinctNames(s.history) && s.purged < |s.history|
    && s.objects == map[] && s.queue == map[] && s.registered == [] && s.cursor == ""
  }

  lemma InitialInv(env: Env, s: Sys)
    requires Initial(s)
    ensures Inv(env, s)
  {
  }

  // ----- what every action keeps -----

  /** What no action takes back: finalized files, final objects, registrations. */
  ghost predicate Keeps(s: Sys, t: Sys) {
    && (forall p | p in s.disk && p.Finalized? && s.disk[p] != [] :: p in t.disk && t.disk[p] == s.disk[p])
    && (forall k | k in s.objects && !k.Staging? :: k in t.objects && t.objects[k] == s.objects[k])
    && s.registered <= t.registered
  }

  lemma StepKeeps(env: Env, s: Sys, act: Action, t: Sys)
    requires Acts(env, s, act, t)
    ensures Keeps(s, t)
  {
  }

  lemma DescribesKept(env: Env, s: Sys, t: Sys, a: Artifact)
    requires Keeps(s, t) && Describes(env, s, a)
    ensures Describes(env, t, a)
  {
  }

  /** Two good artifacts of one file agree; so a queue path belongs to one file and checksum only. */
  lemma SamePathSameFile(env: Env, s: Sys, a: Artifact, b: Artifact)
    requires IsSafeName(a.file) && IsSafeName(b.file)
    requires Describes(env, s, a) && Describes(env, s, b)
    requires QueuePath(env, a) == QueuePath(env, b)
    ensures SameFile(a, b)
  {
    QueueFileInjective(env.stream, a.file, a.sum, env.stream, b.file, b.sum);
  }

  lemma StoredKept(env: Env, s: Sys, act: Action, t: Sys, a: Artifact)
    requires Inv(env, s) && Acts(env, s, act, t)
    requires IsSafeName(a.file) && Describes(env, s, a) && Stored(env, s, a)
    ensures Stored(env, t, a)
  {
    hide QueuePath, QueueFile, IsSafeName, NextToRegister, Chain, DistinctNames, SourceStep, Backed, FaithfulObjects,
         GoodCursor, IsQueueEntry, TmpOf;
    StepKeeps(env, s, act, t);
    var p := QueuePath(env, a);
    if env.objectStorage && !FinalMatches(s, a) {
      EntryOf(env, a);
      match act
      case InstallsItem(item) =>
        EntryOf(env, item.artifact);
        if QueuePath(env, item.artifact) == p {
          SamePathSameFile(env, s, item.artifact, a);
        }
      case SourceMoves => assert t.queue == s.queue && t.objects == s.objects by { SourceFrame(s, t); }
      case _ =>
    }
  }

  lemma SourceFrame(s: Sys, t: Sys)
    requires SourceStep(s, t)
    ensures t.queue == s.queue && t.objects == s.objects && t.registered == s.registered
    ensures t.base == s.base && t.cursor == s.cursor
  {
  }

  lemma EntryOf(env: Env, a: Artifact)
    ensures IsQueueEntry(QueuePath(env, a)) && !IsQueueEntry(TmpOf(QueuePath(env, a)))
  {
    TmpIsNoEntry(env.stream, a.file, a.sum);
  }

  lemma ChainGrown(s: Sys, t: Sys)
    requires SourceStep(s, t) && Chain(s)
    ensures Chain(t)
  {
    hide DistinctNames;
  }

  lemma ChainExtended(s: Sys, a: Artifact, i: nat, t: Sys)
    requires Chain(s) && NextToRegister(s, a, i)
    requires t == s.(registered := s.registered + [a], base := if s.registered == [] then i else s.base)
    ensures Chain(t)
  {
    assert forall k | 0 <= k < |s.registered| :: t.registered[k] == s.registered[k];
    assert t.registered[|s.registered|] == a;
    assert s.registered != [] ==>
        s.registered[|s.registered| - 1].file == s.history[s.base + |s.registered| - 1].name;
  }

  lemma CursorKept(s: Sys, t: Sys)
    requires GoodCursor(s) && s.registered <= t.registered && t.cursor == s.cursor
    ensures GoodCursor(t)
  {
    if k :| 0 <= k < |s.registered| && s.registered[k].file == s.cursor {
      assert t.registered[k].file == t.cursor;
    }
  }

  lemma ChainKept(env: Env, s: Sys, act: Action, t: Sys)
    requires Inv(env, s) && Acts(env, s, act, t)
    ensures t.history != [] && DistinctNames(t.history) && t.purged < |t.history|
    ensures Chain(t) && GoodCursor(t)
  {
    hide Describes, Stored, IsSafeName, QueuePath, GoodItem, FaithfulObjects, GoodQueue, Backed, DistinctNames,
         NextToRegister, Chain, HasFinal, FinalMatches, IsQueueEntry;
    match act
    case Registers(a, i) =>
      ChainExtended(s, a, i, t);
      CursorKept(s, t);
    case SourceMoves =>
      SourceFrame(s, t);
      ChainGrown(s, t);
      CursorKept(s, t);
    case MovesCursor(_) =>
      SameChain(s, t);
    case _ =>
      SameChain(s, t);
      CursorKept(s, t);
  }

  lemma SameChain(s: Sys, t: Sys)
    requires Chain(s) && t.history == s.history && t.registered == s.registered && t.base == s.base
    ensures Chain(t)
  {
  }

  lemma BackedKept(env: Env, s: Sys, act: Action, t: Sys)
    requires Inv(env, s) && Acts(env, s, act, t)
    ensures Backed(env, t)
  {
    hide Describes, Stored, IsSafeName, QueuePath, GoodItem, FaithfulObjects, GoodQueue, Chain, DistinctNames,
         SourceStep;
    StepKeeps(env, s, act, t);
    if act.SourceMoves? {
      SourceFrame(s, t);
    }
    forall k | 0 <= k < |t.registered|
      ensures IsSafeName(t.registered[k].file) && Describes(env, t, t.registered[k]) && Stored(env, t, t.registered[k])
    {
      var a := t.registered[k];
      assert k < |s.registered| ==> a == s.registered[k];
      DescribesKept(env, s, t, a);
      StoredKept(env, s, act, t, a);
    }
  }

  lemma ObjectsKept(env: Env, s: Sys, act: Action, t: Sys)
    requires Inv(env, s) && Acts(env, s, act, t)
    ensures FaithfulObjects(env, t)
  {
    hide Describes, Stored, IsSafeName, QueuePath, GoodItem, GoodQueue, Chain, DistinctNames, Backed;
    StepKeeps(env, s, act, t);
  }

  lemma QueueKept(env: Env, s: Sys, act: Action, t: Sys)
    requires Inv(env, s) && Acts(env, s, act, t)
    ensures GoodQueue(env, t)
  {
    hide IsSafeName, QueuePath, Chain, DistinctNames, Backed, SourceStep, IsQueueEntry, Stored;
    StepKeeps(env, s, act, t);
    if act.SourceMoves? {
      SourceFrame(s, t);
    }
    if act.InstallsItem? {
      EntryOf(env, act.item.artifact);
    }
    forall p | p in t.queue && IsQueueEntry(p)
      ensures t.queue[p].Item? && GoodItem(env, t, t.queue[p].item)
              && p == QueuePath(env, t.queue[p].item.artifact)
    {
      DescribesKeptForItem(env, s, t, t.queue[p]);
    }
  }

  lemma DescribesKeptForItem(env: Env, s: Sys, t: Sys, e: QueueEntry)
    requires Keeps(s, t)
    ensures e.Item? && GoodItem(env, s, e.item) ==> GoodItem(env, t, e.item)
  {
  }

  /** Every action of every party keeps the invariant. */
  lemma StepKeepsInv(env: Env, s: Sys, act: Action, t: Sys)
    requires Inv(env, s) && Acts(env, s, act, t)
    ensures Inv(env, t)
  {
    hide *;
    ChainKept(env, s, act, t);
    BackedKept(env, s, act, t);
    ObjectsKept(env, s, act, t);
    QueueKept(env, s, act, t);
    InvParts(env, t);
  }

  lemma InvParts(env: Env, t: Sys)
    requires t.history != [] && DistinctNames(t.history) && t.purged < |t.history|
    requires Chain(t) && Backed(env, t) && FaithfulObjects(env, t) && GoodQueue(env, t) && GoodCursor(t)
    ensures Inv(env, t)
  {
  }

  // ----- whole runs -----

  /** In every reachable state of every run the invariant holds. */
  lemma {:induction false} RunSafe(env: Env, run: seq<Sys>, i: nat)
    requires IsRun(env, run) && i < |run| && Initial(run[0])
    ensures Inv(env, run[i])
  {
    hide Acts, Inv, Initial;
    if i == 0 {
      InitialInv(env, run[0]);
    } else {
      RunSafe(env, run, i - 1);
      assert Step(env, run[i - 1], run[i]);
      var act :| Acts(env, run[i - 1], act, run[i]);
      StepKeepsInv(env, run[i - 1], act, run[i]);
    }
  }

  /** Finalized files, final objects and registrations are immutable over every run. */
  lemma {:induction false} RunImmutable(env: Env, run: seq<Sys>, i: nat, j: nat)
    requires IsRun(env, run) && i <= j < |run|
    ensures Keeps(run[i], run[j])
    decreases j - i
  {
    hide Acts;
    if i < j {
      RunImmutable(env, run, i, j - 1);
      assert Step(env, run[j - 1], run[j]);
      var act :| Acts(env, run[j - 1], act, run[j]);
      StepKeeps(env, run[j - 1], act, run[j]);
    }
  }

  /**
   What holds of every registered file, at every later moment of every run: it
   is the log at its place in one gap-free segment of the history, linked to its
   neighbours; its finalized copy is there, unchanged and as described; and with
   object storage its bytes are at the final key or its upload is queued.
   */
  lemma RegisteredIsArchived(env: Env, run: seq<Sys>, i: nat, j: nat, k: nat)
    requires IsRun(env, run) && i <= j < |run| && Initial(run[0]) && k < |run[i].registered|
    ensures var a := run[i].registered[k];
            && k < |run[j].registered| && run[j].registered[k] == a
            && run[j].base + k + 1 < |run[j].history|
            && a.file == run[j].history[run[j].base + k].name
            && a.next == run[j].history[run[j].base + k + 1].name
            && (0 < k ==> a.previous == run[j].registered[k - 1].file && run[j].registered[k - 1].next == a.file)
            && HasFinal(run[i], a.file) && HasFinal(run[j], a.file)
            && run[j].disk[Finalized(a.file)] == run[i].disk[Finalized(a.file)]
            && env.sha(run[j].disk[Finalized(a.file)]) == a.sum
            && (env.objectStorage ==>
                  || (Final(a.file) in run[j].objects
                      && run[j].objects[Final(a.file)].content == run[j].disk[Finalized(a.file)])
                  || Queued(env, run[j], a))
  {
    RunSafe(env, run, i);
    RunSafe(env, run, j);
    RunImmutable(env, run, i, j);
    hide Queued, IsRun, DistinctNames, GoodQueue, IsSafeName;
    var a := run[i].registered[k];
    assert run[j].registered[k] == a;
    assert 0 < k ==> run[j].registered[k - 1].next == run[j].history[run[j].base + k].name;
  }
}
