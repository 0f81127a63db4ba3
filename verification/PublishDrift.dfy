/**
 How restartable publishing can be lost (cmd/agent/database_archiver.go).

 Sidecar files are written in place, and a remote sidecar is compared by size
 only.  If the agent is killed while it writes a manifest anew, with the upload
 of the file still queued, the next pass over the queue publishes what is left
 of the manifest.  The manifest written after that never agrees with it.
 */
module PublishDrift {
  import opened Common
  import opened Names
  import opened QueueNames
  import opened Selection
  import opened ArchiveSystem
  import opened ArchiveFrames
  import opened Archiver
  import Framing

  /** The states of such a run; after the first three lines, what each state adds to the one before. */
  function Drift(env: Env, a: Artifact, content: Bytes, torn: Bytes): (run: seq<Sys>)
    ensures |run| == 10
  {
    var s0 := Sys([LogFile(a.file, |content|), LogFile(a.next, 0)], 0, map[], map[], map[], 0, [], "");
    // A round archives the file; its upload fails and is queued.
    var s1 := s0.(disk := s0.disk[Finalized(a.file) := content]);
    var s2 := s1.(disk := s1.disk[SumFile(a.file) := env.sumText(a)]);
    var s3 := s2.(disk := s2.disk[ManifestFile(a.file) := env.manifestText(a)]);
    var s4 := s3.(queue := (s3.queue - {TmpOf(QueuePath(env, a))})[QueuePath(env, a) := Item(Queueing(env, a))]);
    // The next round, which archives it again, is killed while it writes the manifest.
    var s5 := s4.(disk := s4.disk[ManifestFile(a.file) := torn]);
    // A pass over the queue uploads everything.
    var s6 := s5.(objects := s5.objects[Final(a.file) := Object(content, a.sum)]);
    var s7 := s6.(objects := s6.objects[FinalSum(a.file) := Object(env.sumText(a), a.sum)]);
    var s8 := s7.(objects := s7.objects[FinalManifest(a.file) := Object(torn, a.sum)]);
    // The round after that writes the whole manifest.
    var s9 := s8.(disk := s8.disk[ManifestFile(a.file) := env.manifestText(a)]);
    [s0, s1, s2, s3, s4, s5, s6, s7, s8, s9]
  }

  function Queueing(env: Env, a: Artifact): QueueItem {
    QueueItem(a, 0, env.maxAttempts, 0)
  }

  function Acted(env: Env, a: Artifact, content: Bytes, torn: Bytes): (acts: seq<Action>)
    ensures |acts| == 9
  {
    [ Commits(a.file, content),
      WritesFile(SumFile(a.file), env.sumText(a)),
      WritesFile(ManifestFile(a.file), env.manifestText(a)),
      InstallsItem(Queueing(env, a)),
      WritesFile(ManifestFile(a.file), torn),
      PutsObject(Final(a.file), Object(content, a.sum)),
      PutsObject(FinalSum(a.file), Object(env.sumText(a), a.sum)),
      PutsObject(FinalManifest(a.file), Object(torn, a.sum)),
      WritesFile(ManifestFile(a.file), env.manifestText(a)) ]
  }

  /** The artifact that a round would make of the content, with uploads and their retry switched on. */
  predicate IsArtifactOf(env: Env, a: Artifact, content: Bytes) {
    && env.objectStorage && env.retry && content != [] && IsSafeName(a.file) && a.next !in {"", a.file}
    && a == Planned(env, Choice(a.file, |content|, a.previous, a.next), content)
  }

  lemma DriftActs(env: Env, a: Artifact, content: Bytes, torn: Bytes, i: nat)
    requires IsArtifactOf(env, a, content) && i < 9
    ensures var run := Drift(env, a, content, torn);
            Acts(env, run[i], Acted(env, a, content, torn)[i], run[i + 1])
  {
    hide IsSafeName, QueuePath, QueueFile, TmpOf, IsQueueEntry;
  }

  lemma DriftStart(env: Env, a: Artifact, content: Bytes, torn: Bytes)
    requires a.file != "" && a.next !in {"", a.file}
    ensures Initial(Drift(env, a, content, torn)[0])
    ensures forall i | 0 <= i < 10 ::
              InLine(Drift(env, a, content, torn)[i], Choice(a.file, |content|, a.previous, a.next), 0)
  {
    hide QueuePath, TmpOf;
    var history := [LogFile(a.file, |content|), LogFile(a.next, 0)];
    assert forall i | 0 <= i < 10 :: Drift(env, a, content, torn)[i].history == history;
    assert history[0].name == a.file && history[1].name == a.next;
  }

  lemma DriftIsRun(env: Env, a: Artifact, content: Bytes, torn: Bytes)
    requires IsArtifactOf(env, a, content)
    ensures Initial(Drift(env, a, content, torn)[0]) && IsRun(env, Drift(env, a, content, torn))
    ensures forall i | 0 <= i < 10 ::
              InLine(Drift(env, a, content, torn)[i], Choice(a.file, |content|, a.previous, a.next), 0)
  {
    var run := Drift(env, a, content, torn);
    hide Acts, Acted, QueuePath, TmpOf;
    DriftStart(env, a, content, torn);
    hide Drift, Initial;
    forall i | 0 <= i < |run| - 1
      ensures Step(env, run[i], run[i + 1])
    {
      DriftActs(env, a, content, torn, i);
    }
  }

  lemma BeforeTheDrift(env: Env, a: Artifact, content: Bytes, torn: Bytes)
    requires IsArtifactOf(env, a, content)
    ensures var s := Drift(env, a, content, torn)[5];
            Queued(env, s, a) && RemoteAgrees(env, s, a) && (UploadsFit(env, s, a) <==> |torn| == |env.manifestText(a)|)
  {
    hide QueuePath, TmpOf, IsSafeName;
  }

  lemma AfterTheDrift(env: Env, a: Artifact, content: Bytes, torn: Bytes)
    requires IsArtifactOf(env, a, content)
    ensures var run := Drift(env, a, content, torn);
            && Publishable(run[8], a)
            && (RemoteAgrees(env, run[9], a) <==> |torn| == |env.manifestText(a)|)
            && (Publishable(run[9], a) <==> |torn| == |env.manifestText(a)|)
  {
    hide QueuePath, TmpOf, IsSafeName;
  }

  /** So the drift is reached from a fresh agent, exactly if the torn manifest has another size. */
  lemma DriftIsReachable(env: Env, a: Artifact, content: Bytes, torn: Bytes)
    requires IsArtifactOf(env, a, content)
    ensures var run := Drift(env, a, content, torn);
            && Initial(run[0]) && IsRun(env, run) && Inv(env, run[9])
            && (forall i | 0 <= i < 10 :: InLine(run[i], Choice(a.file, |content|, a.previous, a.next), 0))
            && Queued(env, run[5], a) && RemoteAgrees(env, run[5], a) && Publishable(run[8], a)
            && (UploadsFit(env, run[5], a) <==> |torn| == |env.manifestText(a)|)
            && (RemoteAgrees(env, run[9], a) <==> |torn| == |env.manifestText(a)|)
            && (Publishable(run[9], a) <==> |torn| == |env.manifestText(a)|)
  {
    DriftIsRun(env, a, content, torn);
    BeforeTheDrift(env, a, content, torn);
    AfterTheDrift(env, a, content, torn);
    hide *;
    RunSafe(env, Drift(env, a, content, torn), 9);
  }

  /** However the run goes on, the object store disagrees with the artifact for ever. */
  lemma DisagreementIsForever(env: Env, run: seq<Sys>, i: nat, j: nat, a: Artifact)
    requires IsRun(env, run) && i <= j < |run| && !RemoteAgrees(env, run[i], a)
    ensures !RemoteAgrees(env, run[j], a)
  {
    RunImmutable(env, run, i, j);
    DisagreementStays(env, run[i], run[j], a);
  }

  // ----- the agent's own methods on that way -----

  /** The disk and the network as the run meets them: one upload fails, one write is cut off, all else works. */
  function MostlyDone(t: nat): Io {
    if t == 5 then Failed else if t == 13 then Torn else Done
  }

  /** The upload of the artifact is queued, never tried again so far, and nothing is in the object store. */
  predicate Waiting(env: Env, s: Sys, a: Artifact) {
    && s.objects == map[]
    && EntryAt(s, QueuePath(env, a)).Some? && EntryAt(s, QueuePath(env, a)).value.Item?
    && EntryAt(s, QueuePath(env, a)).value.item.artifact == a
    && EntryAt(s, QueuePath(env, a)).value.item.attempts == 0
  }

  /** Archives a log; the upload fails and is queued. */
  method FirstRound(agent: Agent, choice: Choice, content: Bytes) returns (a: Artifact)
    requires agent.Valid() && agent.tick == 0 && agent.io == MostlyDone
    requires agent.sys.objects == map[] && agent.sys.queue == map[] && !HasFinal(agent.sys, choice.file)
    requires IsSafeName(choice.file) && content != []
    modifies agent
    ensures agent.Valid() && old(agent.trace) <= agent.trace && agent.tick == 10
    ensures a == Planned(agent.env, choice, content) && Waiting(agent.env, agent.sys, a)
    ensures HasFinal(agent.sys, a.file) && agent.sys.disk[Finalized(a.file)] == content
  {
    hide Initial, IsRun, Inv, Later, OnlyQueue, OnlyObjects, QueuePath, IsSafeName, Describes, Keeps, RemoteAgrees,
         UploadsFit, Publishable, SameNames, NoOtherFinal, NoNewFinal, OwnKeys, OthersAlike, Queued, MostlyDone,
         IsClosed, SameSpool, FinalMatches;
    WorksAt();
    var env := agent.env;
    var committed := agent.Commit(choice.file, content);
    ghost var s1 := agent.sys;
    var built := agent.BuildArtifact(choice);
    FinalKept(s1, agent.sys, choice.file);
    a := built.value.(uri := ObjectUri(choice.file));
    SameArtifact(env, agent.sys, built.value, a);
    Upload(agent, a, content);
  }

  /** The upload that fails. */
  method Upload(agent: Agent, a: Artifact, content: Bytes)
    requires agent.Valid() && agent.tick == 3 && agent.io == MostlyDone
    requires agent.sys.objects == map[] && agent.sys.queue == map[]
    requires Describes(agent.env, agent.sys, a) && IsSafeName(a.file)
    requires HasFinal(agent.sys, a.file) && agent.sys.disk[Finalized(a.file)] == content
    modifies agent
    ensures agent.Valid() && old(agent.trace) <= agent.trace && agent.tick == 10
    ensures Waiting(agent.env, agent.sys, a)
    ensures HasFinal(agent.sys, a.file) && agent.sys.disk[Finalized(a.file)] == content
  {
    hide Initial, IsRun, Inv, Later, OnlyQueue, OnlyObjects, QueuePath, IsSafeName, Describes, Keeps, RemoteAgrees,
         UploadsFit, Publishable, NoNewFinal, OwnKeys, OthersAlike, Queued, MostlyDone, IsClosed, SameSpool,
         FinalMatches;
    WorksAt();
    var env := agent.env;
    ghost var s2 := agent.sys;
    var written := agent.WriteSidecars(a);
    DescribesLater(env, s2, agent.sys, a);
    FinalKept(s2, agent.sys, a.file);
    ghost var s3 := agent.sys;
    var published := agent.Publish(a);
    QueueKeptBy(s3, agent.sys);
    DescribesLater(env, s3, agent.sys, a);
    FinalKept(s3, agent.sys, a.file);
    ghost var s4 := agent.sys;
    var queued := agent.Enqueue(a);
    QueueFrame(s4, agent.sys, QueuePath(env, a));
    FinalKept(s4, agent.sys, a.file);
  }

  lemma WorksAt()
    ensures forall t: nat {:trigger MostlyDone(t)} | t != 5 && t != 13 :: MostlyDone(t) == Done
    ensures MostlyDone(5) == Failed && MostlyDone(13) == Torn
  {
  }

  lemma QueueKeptBy(s: Sys, t: Sys)
    requires OnlyObjects(s, t)
    ensures Later(s, t) && t.queue == s.queue
  {
  }

  /** Archives it again, and is cut off within the manifest. */
  method SecondRound(agent: Agent, choice: Choice, a: Artifact, content: Bytes)
    requires agent.Valid() && agent.tick == 10 && agent.io == MostlyDone
    requires a == Planned(agent.env, choice, content) && Waiting(agent.env, agent.sys, a) && content != []
    requires HasFinal(agent.sys, a.file) && agent.sys.disk[Finalized(a.file)] == content
    modifies agent
    ensures agent.Valid() && old(agent.trace) <= agent.trace && agent.tick == 14 && Waiting(agent.env, agent.sys, a)
    ensures HasFinal(agent.sys, a.file) && agent.sys.disk[Finalized(a.file)] == content
    ensures FileOf(agent.sys, SumFile(a.file)) == Some(agent.env.sumText(a))
    ensures FileOf(agent.sys, ManifestFile(a.file)) == Some(agent.torn(13))
  {
    hide Initial, IsRun, Inv, Later, OnlyQueue, OnlyObjects, QueuePath, IsSafeName, Describes, Keeps, RemoteAgrees,
         UploadsFit, Publishable, SameNames, NoOtherFinal, NoNewFinal, OwnKeys, OthersAlike, Queued, MostlyDone,
         IsClosed, SameSpool, FinalMatches;
    WorksAt();
    ghost var s0 := agent.sys;
    var committed := agent.Commit(choice.file, content);
    FinalKept(s0, agent.sys, a.file);
    ghost var s1 := agent.sys;
    var built := agent.BuildArtifact(choice);
    FinalKept(s1, agent.sys, a.file);
    assert built.Some? && built.value.(uri := ObjectUri(choice.file)) == a;
    ghost var s2 := agent.sys;
    var _ := agent.WriteSidecars(a);
    FinalKept(s2, agent.sys, a.file);
  }

  /** Tries the queued upload, with nothing failing. */
  method QueuePass(agent: Agent, a: Artifact, content: Bytes)
    requires agent.Valid() && agent.tick == 14 && agent.io == MostlyDone && Waiting(agent.env, agent.sys, a)
    requires HasFinal(agent.sys, a.file) && agent.sys.disk[Finalized(a.file)] == content
    requires FileOf(agent.sys, SumFile(a.file)) == Some(agent.env.sumText(a))
    requires FileOf(agent.sys, ManifestFile(a.file)) == Some(agent.torn(13))
    modifies agent
    ensures agent.Valid() && old(agent.trace) <= agent.trace && 14 <= agent.tick
    ensures HasFinal(agent.sys, a.file) && agent.sys.disk[Finalized(a.file)] == content
    ensures RemoteAgrees(agent.env, agent.sys, a) <==> |agent.torn(13)| == |agent.env.manifestText(a)|
  {
    hide Initial, IsRun, Inv, Later, QueuePath, IsSafeName, Describes, Keeps, IsQueueEntry, MostlyDone;
    var env := agent.env;
    var path := QueuePath(env, a);
    ghost var s := agent.sys;
    WorksAt();
    EntryOf(env, a);
    NothingPublished(env, s, a);
    hide RemoteAgrees, UploadsFit, Publishable, Tried;
    var _ := agent.ProcessItem(path);
    EntryLater(s, agent.sys, path);
    FinalKept(s, agent.sys, a.file);
  }

  lemma NothingPublished(env: Env, s: Sys, a: Artifact)
    requires s.objects == map[] && FileOf(s, SumFile(a.file)) == Some(env.sumText(a))
    requires FileOf(s, ManifestFile(a.file)).Some?
    ensures RemoteAgrees(env, s, a)
    ensures UploadsFit(env, s, a) <==> |s.disk[ManifestFile(a.file)]| == |env.manifestText(a)|
  {
  }

  lemma EntryLater(s: Sys, t: Sys, path: string)
    requires OnlyEntry(s, t, path)
    ensures Later(s, t)
  {
  }

  /**
   Drives an agent from any initial state to the disagreement, whatever the
   source does meanwhile.  A round archives a closed log; its upload fails and is
   queued, and the agent is killed before it registers the log.  The next round
   is killed while it writes the manifest again.  A pass over the queue publishes
   what there is, and the round after that writes the whole manifest.
   */
  method DriveIntoDrift(env: Env, crc: Framing.Crc, world: (nat, Sys) -> Sys, download: (nat, string) -> Option<Bytes>,
                        clock: nat -> int, torn: nat -> Bytes, retryBase: int, retryMax: int,
                        start: Sys, choice: Choice, content: Bytes)
    returns (agent: Agent, a: Artifact)
    requires Initial(start) && IsClosed(start, choice.file) && !HasFinal(start, choice.file)
    requires env.objectStorage && env.retry && IsSafeName(choice.file) && content != []
    ensures agent.Valid() && agent.trace[0] == start && a == Planned(env, choice, content)
    ensures FileOf(agent.sys, Finalized(a.file)) == Some(content)
    ensures FileOf(agent.sys, SumFile(a.file)) == Some(env.sumText(a))
    ensures FileOf(agent.sys, ManifestFile(a.file)) == Some(env.manifestText(a))
    ensures RemoteAgrees(env, agent.sys, a) <==> |torn(13)| == |env.manifestText(a)|
  {
    assert start.objects == map[] && start.queue == map[];
    hide Initial, IsRun, Inv, Later, QueuePath, IsSafeName, Keeps, RemoteAgrees, IsClosed, NoNewFinal, Waiting,
         MostlyDone;
    WorksAt();
    agent := new Agent(env, crc, MostlyDone, world, download, clock, torn, retryBase, retryMax, start);
    a := FirstRound(agent, choice, content);
    SecondRound(agent, choice, a, content);
    QueuePass(agent, a, content);
    ghost var s := agent.sys;
    var _ := agent.WriteSidecars(a);
    SameObjects(env, s, agent.sys, a, a.file);
    FinalKept(s, agent.sys, a.file);
  }
}
