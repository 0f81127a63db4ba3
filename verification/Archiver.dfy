/**
 The agent's part of the archive protocol (cmd/agent/database_archiver.go):
 commit, publish, queue, register.  Every change goes through `Record`, which
 demands that it is an action of the system, so all runs of these methods are
 runs of ArchiveSystem and enjoy its invariants.

 `io` decides about each operation, `world` moves the source database and the
 streaming process between any two operations, `download` is the binlog tool.
 A crash shows as an `io` that fails from some operation on.
 */
module Archiver {
  import opened Common
  import opened Names
  import opened SourceText
  import opened QueueNames
  import opened Selection
  import opened ArchiveSystem
  import opened ArchiveFrames
  import Framing
  import Backoff

  class Agent {
    const env: Env
    const crc: Framing.Crc
    const io: nat -> Io
    const world: (nat, Sys) -> Sys
    const download: (nat, string) -> Option<Bytes>
    const clock: nat -> int
    const torn: nat -> Bytes
    const retryBase: int
    const retryMax: int

    var sys: Sys
    var tick: nat
    ghost var trace: seq<Sys>

    ghost predicate Valid()
      reads this
    {
      && trace != [] && trace[|trace| - 1] == sys
      && Initial(trace[0]) && IsRun(env, trace) && Inv(env, sys)
    }

    /** Since the old state the run has been continued. */
    twostate predicate Continued()
      reads this
    {
      Valid() && old(trace) <= trace && old(tick) <= tick
    }

    /** Of the operations from `from` up to `to` none fails. */
    ghost predicate Healthy(from: nat, to: nat) {
      forall t: nat {:trigger io(t)} | from <= t < to :: io(t) == Done
    }

    constructor (env: Env, crc: Framing.Crc, io: nat -> Io, world: (nat, Sys) -> Sys,
                 download: (nat, string) -> Option<Bytes>, clock: nat -> int, torn: nat -> Bytes,
                 retryBase: int, retryMax: int, sys: Sys)
      requires Initial(sys)
      ensures Valid() && this.sys == sys && trace == [sys] && tick == 0
      ensures this.env == env && this.io == io && this.world == world && this.torn == torn
    {
      this.env, this.crc, this.io, this.world := env, crc, io, world;
      this.download, this.clock, this.torn := download, clock, torn;
      this.retryBase, this.retryMax := retryBase, retryMax;
      this.sys, this.tick, this.trace := sys, 0, [sys];
      new;
      InitialInv(env, sys);
    }

    /** Makes one atomic change of the system. */
    method Record(ghost act: Action, next: Sys)
      requires Valid() && Acts(env, sys, act, next)
      modifies this`sys, this`trace
      ensures Continued() && sys == next && Keeps(old(sys), sys)
    {
      hide Acts, Inv;
      StepKeepsInv(env, sys, act, next);
      StepKeeps(env, sys, act, next);
      ghost var before := trace;
      assert Step(env, sys, next);
      sys := next;
      trace := trace + [next];
      ExtendRun(env, before, next);
    }

    /** Lets the world move, then asks what becomes of the next operation. */
    method NextIo() returns (r: Io)
      requires Valid()
      modifies this`sys, this`trace, this`tick
      ensures Continued() && OnlySource(old(sys), sys) && Later(old(sys), sys) && NoNewFinal(old(sys), sys)
      ensures Unmoved(old(sys), sys)
      ensures r == io(old(tick)) && tick == old(tick) + 1
    {
      hide Keeps, Inv, Initial, IsRun, Unmoved, NoNewFinal, Later, OnlySource;
      NothingMoves(sys);
      var next := world(tick, sys);
      if SourceStep(sys, next) {
        OnlySourceOf(sys, next);
        Record(SourceMoves, next);
      }
      OnlySourceLater(old(sys), sys);
      SourceUnmoved(old(sys), sys);
      r := io(tick);
      tick := tick + 1;
    }

    // ----- local files -----

    /** Moves a finished download into place; a nonempty finalized file is never replaced. */
    method Commit(file: string, content: Bytes) returns (ok: bool)
      requires Valid() && content != []
      modifies this
      ensures Continued() && Later(old(sys), sys) && NoOtherFinal(old(sys), sys, file)
      ensures sys.objects == old(sys).objects && sys.queue == old(sys).queue
      ensures forall f | IsClosed(old(sys), f) :: SameSpool(old(sys), sys, f)
      ensures forall f :: SameTexts(old(sys), sys, f)
      ensures ok ==> HasFinal(sys, file) && env.sha(sys.disk[Finalized(file)]) == env.sha(content)
      ensures HasFinal(old(sys), file) ==>
                && sys.disk[Finalized(file)] == old(sys).disk[Finalized(file)]
                && (Healthy(old(tick), tick) ==>
                      (ok <==> env.sha(old(sys).disk[Finalized(file)]) == env.sha(content)))
      ensures !HasFinal(old(sys), file) ==>
                && (HasFinal(sys, file) ==> sys.disk[Finalized(file)] == content)
                && (Healthy(old(tick), tick) ==> ok)
      ensures HasFinal(old(sys), file) ==> NoNewFinal(old(sys), sys)
      // The commit as it is if its inspection of the path works.
      ensures FileOf(sys, Finalized(file)) ==
              AfterCommit(FileOf(old(sys), Finalized(file)), content, Done, io(old(tick)))
      ensures if HasFinal(old(sys), file) then tick == old(tick) + 1 else old(tick) < tick <= old(tick) + 2
      ensures ok && !HasFinal(old(sys), file) ==> tick == old(tick) + 2
    {
      hide Inv, Initial, IsRun, Acts, SameNames;
      if HasFinal(sys, file) {
        var sums := NextIo();
        ok := sums == Done && env.sha(content) == env.sha(sys.disk[Finalized(file)]);
        return;
      }
      ghost var s0 := sys;
      var rename := NextIo();
      if rename == Failed {
        return false;
      }
      ghost var s1 := sys;
      MayCommit(env, s1, file, content);
      Record(Commits(file, content), sys.(disk := sys.disk[Finalized(file) := content]));
      LaterDisk(s1, sys);
      LaterTransitive(s0, s1, sys);
      if rename == Torn {
        return false;
      }
      ghost var s2 := sys;
      var chmod := NextIo();
      LaterTransitive(s0, s2, sys);
      assert forall f | IsClosed(s0, f) :: IsClosed(s1, f) && IsClosed(s2, f) by {
        ClosedStays(s0, s1);
        ClosedStays(s0, s2);
      }
      ok := chmod == Done;
    }

    /** Writes a sidecar in place, so a failed write may leave any other content. */
    method WriteSidecar(path: Path, content: Bytes) returns (ok: bool)
      requires Valid() && (path.SumFile? || path.ManifestFile?)
      modifies this
      ensures Continued() && Later(old(sys), sys) && NoNewFinal(old(sys), sys)
      ensures sys.objects == old(sys).objects && sys.queue == old(sys).queue
      ensures forall f | IsClosed(old(sys), f) :: SameSpool(old(sys), sys, f)
      ensures forall p: Path | (p.SumFile? || p.ManifestFile?) && p != path ::
                FileOf(sys, p) == FileOf(old(sys), p)
      ensures ok ==> FileOf(sys, path) == Some(content)
      ensures io(old(tick)) == Torn ==> !ok && FileOf(sys, path) == Some(torn(old(tick)))
      ensures tick == old(tick) + 1
      ensures Healthy(old(tick), tick) ==> ok
    {
      hide Inv, Initial, IsRun, SameNames;
      ghost var s0 := sys;
      var r := NextIo();
      if r == Failed {
        return false;
      }
      ghost var s1 := sys;
      var written := if r == Done then content else torn(tick - 1);
      Record(WritesFile(path, written), sys.(disk := sys.disk[path := written]));
      LaterDisk(s1, sys);
      LaterTransitive(s0, s1, sys);
      ok := r == Done;
    }

    /** Writes both sidecars of an artifact next to its finalized file. */
    method WriteSidecars(a: Artifact) returns (ok: bool)
      requires Valid()
      modifies this
      ensures Continued() && Later(old(sys), sys) && NoNewFinal(old(sys), sys)
      ensures sys.objects == old(sys).objects && sys.queue == old(sys).queue
      ensures forall f | IsClosed(old(sys), f) :: SameSpool(old(sys), sys, f)
      ensures forall f | f != a.file :: SameTexts(old(sys), sys, f)
      ensures ok ==>
                && FileOf(sys, SumFile(a.file)) == Some(env.sumText(a))
                && FileOf(sys, ManifestFile(a.file)) == Some(env.manifestText(a))
      ensures Healthy(old(tick), tick) ==> ok
      ensures old(tick) < tick <= old(tick) + 2 && (ok ==> tick == old(tick) + 2)
      // What is left if the second write is cut off.
      ensures io(old(tick)) == Done && io(old(tick) + 1) == Torn ==>
                && !ok && tick == old(tick) + 2
                && FileOf(sys, SumFile(a.file)) == Some(env.sumText(a))
                && FileOf(sys, ManifestFile(a.file)) == Some(torn(old(tick) + 1))
    {
      hide Inv, Initial, IsRun, Keeps;
      ghost var s0 := sys;
      ok := WriteSidecar(SumFile(a.file), env.sumText(a));
      if !ok {
        return;
      }
      ghost var s1 := sys;
      ok := WriteSidecar(ManifestFile(a.file), env.manifestText(a));
      LaterTransitive(s0, s1, sys);
      ClosedStays(s0, s1);
    }

    /** Describes the finalized local file of a choice. */
    method BuildArtifact(choice: Choice) returns (r: Option<Artifact>)
      requires Valid() && HasFinal(sys, choice.file)
      modifies this
      ensures Continued() && Later(old(sys), sys) && NoNewFinal(old(sys), sys)
      ensures sys.objects == old(sys).objects && sys.queue == old(sys).queue
      ensures forall f | IsClosed(old(sys), f) :: SameSpool(old(sys), sys, f)
      ensures forall f :: SameTexts(old(sys), sys, f)
      ensures r.Some? ==>
                && Describes(env, sys, r.value) && r.value.file == choice.file
                && r.value.previous == choice.previous && r.value.next == choice.next
                && r.value.uri == LocalUri(choice.file)
                && r.value == Planned(env, choice, sys.disk[Finalized(choice.file)]).(uri := LocalUri(choice.file))
      ensures Healthy(old(tick), tick) ==> r.Some?
      ensures tick == old(tick) + 1
    {
      hide Inv, Initial, IsRun, SameNames;
      var read := NextIo();
      if read != Done {
        return None;
      }
      var content := sys.disk[Finalized(choice.file)];
      return Some(Artifact(choice.file, |content|, env.sha(content), choice.previous, choice.next,
                           LocalUri(choice.file)));
    }

    // ----- the object store -----

    /** Uploads or copies an object; it appears whole or not at all. */
    method PutObject(key: Key, o: Object) returns (ok: bool)
      requires Valid() && (key.Staging? || key !in sys.objects)
      requires key.Final? ==> HasFinal(sys, key.file) && o.content == sys.disk[Finalized(key.file)]
                              && o.sum == env.sha(o.content)
      requires key.FinalSum? ==> SumFile(key.file) in sys.disk && o.content == sys.disk[SumFile(key.file)]
      requires key.FinalManifest? ==>
                 ManifestFile(key.file) in sys.disk && o.content == sys.disk[ManifestFile(key.file)]
      modifies this
      ensures Continued() && OnlyObjects(old(sys), sys)
      ensures sys.objects == old(sys).objects || sys.objects == old(sys).objects[key := o]
      ensures ok ==> key in sys.objects && sys.objects[key] == o
      ensures Healthy(old(tick), tick) ==> ok
      ensures io(old(tick)) == Failed ==> !ok && tick == old(tick) + 1 && sys.objects == old(sys).objects
    {
      hide Inv, Initial, IsRun;
      ghost var s0 := sys;
      var r := NextIo();
      if r == Failed {
        return false;
      }
      ghost var s1 := sys;
      Record(PutsObject(key, o), sys.(objects := sys.objects[key := o]));
      LaterDisk(s1, sys);
      LaterTransitive(s0, s1, sys);
      ok := r == Done;
    }

    method DropStaging(key: Key)
      requires Valid() && key.Staging?
      modifies this
      ensures Continued() && OnlyObjects(old(sys), sys)
      ensures forall k: Key | !k.Staging? :: k in sys.objects <==> k in old(sys).objects
      ensures forall k: Key | !k.Staging? && k in sys.objects :: sys.objects[k] == old(sys).objects[k]
      ensures sys.objects == old(sys).objects || sys.objects == old(sys).objects - {key}
      ensures Healthy(old(tick), tick) ==> key !in sys.objects
    {
      hide Inv, Initial, IsRun;
      ghost var s0 := sys;
      var r := NextIo();
      if r != Failed {
        ghost var s1 := sys;
        Record(DropsStaging(key), sys.(objects := sys.objects - {key}));
        LaterDisk(s1, sys);
        LaterTransitive(s0, s1, sys);
      }
    }

    /** Asks for an object; Failure stands for any error but "not found". */
    method Head(key: Key) returns (r: Result<Option<Object>, ()>)
      requires Valid()
      modifies this
      ensures Continued() && OnlyObjects(old(sys), sys) && sys.objects == old(sys).objects
      ensures r.Success? ==> r.value == if key in sys.objects then Some(sys.objects[key]) else None
      ensures Healthy(old(tick), tick) ==> r.Success?
    {
      hide Inv, Initial, IsRun, SameNames;
      var answer := NextIo();
      if answer != Done {
        return Failure(());
      }
      return Success(if key in sys.objects then Some(sys.objects[key]) else None);
    }

    /** The object is there with the given size and, if one is given, the checksum. */
    method Verify(key: Key, size: nat, sum: Option<Checksum>) returns (ok: bool)
      requires Valid()
      modifies this
      ensures Continued() && OnlyObjects(old(sys), sys) && sys.objects == old(sys).objects
      ensures ok ==> key in sys.objects && Agrees(sys.objects[key], size, sum)
      ensures Healthy(old(tick), tick) ==> (ok <==> key in sys.objects && Agrees(sys.objects[key], size, sum))
    {
      hide Inv, Initial, IsRun, OnlyObjects;
      var head := Head(key);
      ok := head.Success? && head.value.Some? && Agrees(head.value.value, size, sum);
    }

    /** Uploads a sidecar unless one of its size is there already. */
    method PublishSidecar(key: Key, path: Path, sum: Checksum) returns (ok: bool)
      requires Valid()
      requires (key.FinalSum? && path == SumFile(key.file)) || (key.FinalManifest? && path == ManifestFile(key.file))
      modifies this
      ensures Continued() && OnlyObjects(old(sys), sys)
      ensures forall k | k != key :: k in sys.objects <==> k in old(sys).objects
      ensures forall k | k != key && k in sys.objects :: sys.objects[k] == old(sys).objects[k]
      ensures SidecarPublishable(old(sys), key, path) ==> SidecarPublishable(sys, key, path)
      ensures ok ==> key in sys.objects && SidecarPublishable(sys, key, path) && SidecarPublishable(old(sys), key, path)
      ensures PutFrom(old(sys), sys, key, path)
      ensures Healthy(old(tick), tick) ==>
                && (ok <==> SidecarPublishable(old(sys), key, path))
                && (key in sys.objects <==> key in old(sys).objects || path in old(sys).disk)
    {
      hide Inv, Initial, IsRun, Later;
      ghost var s0 := sys;
      OnlyObjectsReflexive(s0);
      if path !in sys.disk {
        return false;
      }
      var content := sys.disk[path];
      var head := Head(key);
      if head.Failure? {
        return false;
      }
      if head.value.Some? {
        ok := |head.value.value.content| == |content|;
        return;
      }
      ghost var s1 := sys;
      ok := PutObject(key, Object(content, sum));
      OnlyObjectsTransitive(s0, s1, sys);
      if !ok {
        return;
      }
      ghost var s2 := sys;
      ok := Verify(key, |content|, None);
      OnlyObjectsTransitive(s0, s2, sys);
    }

    /** Publishes an artifact: staging upload, check, copy to the final key, check, sidecars. */
    method Publish(a: Artifact) returns (ok: bool)
      requires Valid() && Describes(env, sys, a)
      modifies this
      ensures Continued() && OnlyObjects(old(sys), sys)
      ensures ok ==> FinalMatches(sys, a) && FinalSum(a.file) in sys.objects && FinalManifest(a.file) in sys.objects
      ensures ok ==> Publishable(old(sys), a)
      // No sidecar is uploaded before the final object is in place.
      ensures SidecarsBehind(old(sys), sys, a)
      // However an attempt ends, it does not spoil later ones ...
      ensures Publishable(old(sys), a) ==> Publishable(sys, a)
      ensures RemoteAgrees(env, old(sys), a) && UploadsFit(env, old(sys), a) ==> RemoteAgrees(env, sys, a)
      ensures Healthy(old(tick), tick) && RemoteAgrees(env, old(sys), a) ==>
                (RemoteAgrees(env, sys, a) <==> UploadsFit(env, old(sys), a))
      ensures OwnKeys(old(sys), sys, a.file)
      ensures OthersAlike(old(sys), sys, a.file)
      ensures io(old(tick)) == Failed ==> !ok && tick == old(tick) + 1 && sys.objects == old(sys).objects
      // ... and with nothing failing it succeeds exactly when nothing remote contradicts it.
      ensures Healthy(old(tick), tick) ==> (ok <==> Publishable(old(sys), a))
      // Nothing failing, no staging object stays behind.
      ensures Healthy(old(tick), tick) ==> forall k: Key | k.Staging? && k in sys.objects :: k in old(sys).objects
    {
      hide Inv, Initial, IsRun, Later, Describes, OnlyObjects, Publishable, FinalMatches, OthersAlike, RemoteAgrees,
           UploadsFit, Uploads, UploadsAll, Keeps, OwnKeys, SameSidecars, HasFinal;
      ghost var s0 := sys;
      OnlyObjectsReflexive(s0);
      AgreementParts(env, s0, a);
      var staging := Staging(a.file, tick);
      var content := Contents(a);
      ok := PutObject(staging, Object(content, a.sum));
      PublishableFrame(env, s0, sys, a);
      ObjectsOthers(s0, sys, a.file);
      ObjectsFrame(s0, sys);
      LaterParts(s0, sys);
      UploadsFrame(s0, sys, sys, a);
      if !ok {
        return;
      }
      ghost var s1 := sys;
      ok := Finish(a, staging, content);
      OnlyObjectsTransitive(s0, s1, sys);
      OwnKeysTransitive(s0, s1, sys, a.file);
      ghost var s2 := sys;
      DropStaging(staging);
      OnlyObjectsTransitive(s0, s2, sys);
      PublishableFrame(env, s2, sys, a);
      OwnKeysTransitive(s0, s2, sys, a.file);
      ObjectsOthers(s0, sys, a.file);
      ObjectsFrame(s0, sys);
      LaterParts(s0, sys);
      UploadsFrame(s0, s1, s2, a);
      UploadsThen(s0, s2, sys, a);
      if RemoteAgrees(env, s0, a) {
        AgreementKept(env, s0, sys, a);
      }
    }

    /** The bytes of the artifact's finalized file. */
    method Contents(a: Artifact) returns (content: Bytes)
      requires Describes(env, sys, a)
      ensures HasFinal(sys, a.file) && content == sys.disk[Finalized(a.file)]
      ensures |content| == a.size && env.sha(content) == a.sum
    {
      content := sys.disk[Finalized(a.file)];
    }

    /** Publishing after the staging upload. */
    method Finish(a: Artifact, staging: Key, content: Bytes) returns (ok: bool)
      requires Valid() && Describes(env, sys, a)
      requires staging.Staging? && staging in sys.objects && sys.objects[staging] == Object(content, a.sum)
      requires HasFinal(sys, a.file) && content == sys.disk[Finalized(a.file)]
      modifies this
      ensures Continued() && OnlyObjects(old(sys), sys)
      ensures ok ==> FinalMatches(sys, a) && FinalSum(a.file) in sys.objects && FinalManifest(a.file) in sys.objects
      ensures ok ==> Publishable(old(sys), a)
      ensures Uploads(old(sys), sys, a)
      // No sidecar is uploaded before the final object is in place.
      ensures SidecarsBehind(old(sys), sys, a)
      ensures (Final(a.file) in old(sys).objects ==> FinalMatches(old(sys), a)) ==>
                && (Final(a.file) in sys.objects ==> FinalMatches(sys, a))
                && (Healthy(old(tick), tick) ==> UploadsAll(old(sys), sys, a))
      ensures Publishable(old(sys), a) ==> Publishable(sys, a)
      ensures Healthy(old(tick), tick) ==> (ok <==> Publishable(old(sys), a))
      ensures SameStaging(old(sys), sys) && OwnKeys(old(sys), sys, a.file)
    {
      hide Inv, Initial, IsRun, Later, OnlyObjects, FinalMatches, SidecarsPublishable, HasFinal, Uploads,
           UploadsAll;
      ghost var s0 := sys;
      StagingAgrees(a, content);
      ok := Verify(staging, a.size, Some(a.sum));
      PublishableFrame(env, s0, sys, a);
      UploadsFrame(s0, sys, sys, a);
      if !ok {
        return;
      }
      ghost var s1 := sys;
      ok := PublishFinal(a, Object(content, a.sum));
      OnlyObjectsTransitive(s0, s1, sys);
      PartsFrame(s1, sys, Final(a.file), a);
      UploadsFrame(s0, sys, sys, a);
      if !ok {
        return;
      }
      ghost var s2 := sys;
      ok := PublishSidecars(a);
      OnlyObjectsTransitive(s0, s2, sys);
      UploadsFrame(s0, s2, sys, a);
    }

    /** Uploads the checksum file and the manifest. */
    method PublishSidecars(a: Artifact) returns (ok: bool)
      requires Valid()
      modifies this
      ensures Continued() && OnlyObjects(old(sys), sys)
      ensures FinalMatches(sys, a) <==> FinalMatches(old(sys), a)
      ensures Final(a.file) in sys.objects <==> Final(a.file) in old(sys).objects
      ensures SidecarsPublishable(old(sys), a) ==> SidecarsPublishable(sys, a)
      ensures ok ==> FinalSum(a.file) in sys.objects && FinalManifest(a.file) in sys.objects
      ensures ok ==> SidecarsPublishable(old(sys), a)
      ensures Uploads(old(sys), sys, a) && (Healthy(old(tick), tick) ==> UploadsAll(old(sys), sys, a))
      ensures Healthy(old(tick), tick) ==> (ok <==> SidecarsPublishable(old(sys), a))
      ensures SameStaging(old(sys), sys) && OwnKeys(old(sys), sys, a.file)
    {
      hide Inv, Initial, IsRun, Later, OnlyObjects, FinalMatches, SidecarPublishable;
      ghost var s0 := sys;
      ok := PublishSidecar(FinalSum(a.file), SumFile(a.file), a.sum);
      PartsFrame(s0, sys, FinalSum(a.file), a);
      SameManifest(s0, sys, a.file);
      if !ok {
        return;
      }
      ghost var s1 := sys;
      ok := PublishSidecar(FinalManifest(a.file), ManifestFile(a.file), a.sum);
      OnlyObjectsTransitive(s0, s1, sys);
      PartsFrame(s1, sys, FinalManifest(a.file), a);
    }

    lemma StagingAgrees(a: Artifact, content: Bytes)
      requires Describes(env, sys, a) && content == sys.disk[Finalized(a.file)]
      ensures Agrees(Object(content, a.sum), a.size, Some(a.sum))
    {
    }

    /** Copies the checked staging object to the final key, unless a matching one is there. */
    method PublishFinal(a: Artifact, staged: Object) returns (ok: bool)
      requires Valid() && Describes(env, sys, a)
      requires staged == Object(sys.disk[Finalized(a.file)], a.sum)
      modifies this
      ensures Continued() && OnlyObjects(old(sys), sys)
      ensures forall k: Key | k != Final(a.file) :: k in sys.objects <==> k in old(sys).objects
      ensures forall k: Key | k != Final(a.file) && k in sys.objects :: sys.objects[k] == old(sys).objects[k]
      ensures ok ==> FinalMatches(sys, a) && (Final(a.file) in old(sys).objects ==> FinalMatches(old(sys), a))
      ensures Final(a.file) in old(sys).objects ==>
                sys.objects[Final(a.file)] == old(sys).objects[Final(a.file)]
      ensures (Final(a.file) in old(sys).objects ==> FinalMatches(old(sys), a)) ==>
                (Final(a.file) in sys.objects ==> FinalMatches(sys, a))
      ensures Healthy(old(tick), tick) ==>
                (ok <==> (Final(a.file) in old(sys).objects ==> FinalMatches(old(sys), a)))
    {
      hide Inv, Initial, IsRun, Later;
      ghost var s0 := sys;
      var head := Head(Final(a.file));
      if head.Failure? {
        return false;
      }
      if head.value.Some? {
        ok := Agrees(head.value.value, a.size, Some(a.sum));
        return;
      }
      ghost var s1 := sys;
      ok := PutObject(Final(a.file), staged);
      OnlyObjectsTransitive(s0, s1, sys);
      if !ok {
        return;
      }
      ghost var s2 := sys;
      ok := Verify(Final(a.file), a.size, Some(a.sum));
      OnlyObjectsTransitive(s0, s2, sys);
    }

    // ----- the upload retry queue -----

    /** Writes a queue item through its temporary file, so that it is never seen half-written. */
    method InstallItem(item: QueueItem) returns (ok: bool)
      requires Valid() && GoodItem(env, sys, item)
      modifies this
      ensures Continued() && OnlyQueue(old(sys), sys, QueuePath(env, item.artifact))
      ensures var p := QueuePath(env, item.artifact);
              && (ok ==> EntryAt(sys, p) == Some(Item(item)))
              && (EntryAt(sys, p) == EntryAt(old(sys), p) || EntryAt(sys, p) == Some(Item(item)))
      ensures Healthy(old(tick), tick) ==> ok
      ensures old(tick) < tick <= old(tick) + 2 && (ok ==> tick == old(tick) + 2)
    {
      hide Inv, Initial, IsRun, Later, QueuePath, IsQueueEntry, OnlyQueue, OnlySource, TmpOf;
      var path := QueuePath(env, item.artifact);
      var tmp := TmpOf(path);
      EntryOf(env, item.artifact);
      ghost var s0 := sys;
      ok := WriteTmp(path, tmp, item);
      if !ok {
        return;
      }
      ghost var s1 := sys;
      var rename := NextIo();
      SourceOnlyQueue(s1, sys, path);
      OnlyQueueTransitive(s0, s1, sys, path);
      if rename == Failed {
        return false;
      }
      ghost var s2 := sys;
      GoodItemLater(env, s0, sys, item);
      Record(InstallsItem(item), sys.(queue := (sys.queue - {tmp})[path := Item(item)]));
      InstallOnlyQueue(s2, sys, tmp, path, item);
      OnlyQueueTransitive(s0, s2, sys, path);
      ok := rename == Done;
    }

    /** Writes the temporary file of a queue entry, or part of it. */
    method WriteTmp(path: string, tmp: string, item: QueueItem) returns (ok: bool)
      requires Valid() && IsQueueEntry(path) && !IsQueueEntry(tmp)
      modifies this
      ensures Continued() && OnlyQueue(old(sys), sys, path) && EntryAt(sys, path) == EntryAt(old(sys), path)
      ensures Healthy(old(tick), tick) ==> ok
      ensures tick == old(tick) + 1
    {
      hide Inv, Initial, IsRun, Later, IsQueueEntry, OnlyQueue, OnlySource;
      ghost var s0 := sys;
      var write := NextIo();
      SourceOnlyQueue(s0, sys, path);
      if write != Failed {
        ghost var s1 := sys;
        var entry := if write == Done then Item(item) else HalfWritten;
        Record(WritesTmp(tmp, entry), sys.(queue := sys.queue[tmp := entry]));
        TmpOnlyQueue(s1, sys, tmp, path, entry);
        OnlyQueueTransitive(s0, s1, sys, path);
      }
      ok := write == Done;
    }

    ghost function RetryBase(): int {
      if retryBase <= 0 then Backoff.DEFAULT_UPLOAD_BASE * Backoff.SECOND else retryBase
    }

    /** When an item that has failed `attempts` times becomes due, in seconds, if asked at time `t`. */
    ghost function NextAttempt(t: nat, attempts: nat): int {
      (clock(t) + Backoff.Delay(RetryBase(), retryMax, attempts)) / Backoff.SECOND
    }

    /**
     The item at `path`, counted with operation `t`, is due when the delay for its
     number of attempts has passed, rounded down to a second.
     */
    ghost predicate Waits(s: Sys, path: string, t: nat) {
      && path in s.queue && s.queue[path].Item?
      && var item := s.queue[path].item;
      && var passed := clock(t) + Backoff.Delay(RetryBase(), retryMax, item.attempts);
      && item.nextAttempt * Backoff.SECOND <= passed < (item.nextAttempt + 1) * Backoff.SECOND
    }

    /** So it is tried no more than a second before its delay has passed, and then until its attempts are used up. */
    lemma WaitingIsDue(s: Sys, path: string, t: nat, now: int)
      requires Waits(s, path, t)
      ensures var item := s.queue[path].item;
              var passed := clock(t) + Backoff.Delay(RetryBase(), retryMax, item.attempts);
              && (now + Backoff.SECOND <= passed ==> !IsDue(s, path, now))
              && (passed <= now ==>
                    (IsDue(s, path, now) <==> item.maxAttempts == 0 || item.attempts < item.maxAttempts))
    {
    }

    /**
     Puts an artifact whose upload failed into the queue.  The count of earlier
     attempts is kept exactly if the item that is there can be read.
     */
    method Enqueue(a: Artifact) returns (ok: bool)
      requires Valid() && Describes(env, sys, a) && IsSafeName(a.file)
      modifies this
      ensures Continued() && OnlyQueue(old(sys), sys, QueuePath(env, a))
      ensures ok ==>
                var attempts := KnownAttempts(old(sys), QueuePath(env, a), io(old(tick) + 1));
                && Queued(env, sys, a)
                && EntryAt(sys, QueuePath(env, a)) ==
                   Some(Item(QueueItem(a, attempts, env.maxAttempts,
                                       sys.queue[QueuePath(env, a)].item.nextAttempt)))
                && (Backoff.Doubles(RetryBase(), retryMax) ==>
                      && sys.queue[QueuePath(env, a)].item.nextAttempt == NextAttempt(old(tick) + 2, attempts)
                      && Waits(sys, QueuePath(env, a), old(tick) + 2))
      ensures || AttemptsAt(sys, QueuePath(env, a)) == AttemptsAt(old(sys), QueuePath(env, a))
              || (io(old(tick) + 1) != Done && AttemptsAt(sys, QueuePath(env, a)) == 0)
      ensures Healthy(old(tick), tick) ==> ok
      ensures old(tick) < tick <= old(tick) + 4 && (ok ==> tick == old(tick) + 4)
    {
      hide Initial, IsRun, Later, QueuePath, IsQueueEntry, Describes, IsSafeName, Chain, Backed, FaithfulObjects,
           OnlyQueue, OnlySource;
      var path := QueuePath(env, a);
      EntryOf(env, a);
      ghost var s0 := sys;
      var mkdir := NextIo();
      SourceOnlyQueue(s0, sys, path);
      DescribesLater(env, s0, sys, a);
      if mkdir != Done {
        return false;
      }
      ghost var s1 := sys;
      var read := NextIo();
      SourceOnlyQueue(s1, sys, path);
      OnlyQueueTransitive(s0, s1, sys, path);
      DescribesLater(env, s1, sys, a);
      var attempts := KnownAttempts(sys, path, read);
      var delay := Backoff.UploadRetryDelay(retryBase, retryMax, attempts);
      var item := QueueItem(a, attempts, env.maxAttempts, (clock(tick) + delay) / Backoff.SECOND);
      ghost var s2 := sys;
      ok := InstallItem(item);
      OnlyQueueTransitive(s0, s2, sys, path);
    }

    // ----- archiving one file -----

    /** Sidecars, then publication or, if that fails and retries are on, the retry queue. */
    method Finalize(a: Artifact) returns (r: Option<Artifact>)
      requires Valid() && Describes(env, sys, a) && IsSafeName(a.file) && a.uri == LocalUri(a.file)
      modifies this
      ensures Continued() && Later(old(sys), sys) && NoNewFinal(old(sys), sys)
      ensures forall f | IsClosed(old(sys), f) :: SameSpool(old(sys), sys, f)
      ensures r.Some? ==>
                && Describes(env, sys, r.value) && Stored(env, sys, r.value)
                && r.value == a.(uri := r.value.uri)
                && (r.value.uri == ObjectUri(a.file) ==> FinalMatches(sys, r.value))
      // On success both sidecar files are written, with object storage or without.
      ensures r.Some? ==>
                var described := if env.objectStorage then a.(uri := ObjectUri(a.file)) else a;
                && FileOf(sys, SumFile(a.file)) == Some(env.sumText(described))
                && FileOf(sys, ManifestFile(a.file)) == Some(env.manifestText(described))
                && (!env.objectStorage ==> r.value == a)
      ensures forall f | f != a.file :: SameTexts(old(sys), sys, f)
      // With nothing failing, what the object store holds decides.
      ensures Healthy(old(tick), tick) ==>
                var published := a.(uri := ObjectUri(a.file));
                r == if !env.objectStorage then Some(a)
                     else if RemoteAgrees(env, old(sys), published) then Some(published)
                     else if env.retry then Some(a)
                     else None
      // Whatever fails, an agreement with the object store is kept, and without one nothing is published.
      ensures var published := a.(uri := ObjectUri(a.file));
              if RemoteAgrees(env, old(sys), published) then RemoteAgrees(env, sys, published)
              else env.objectStorage && r.Some? ==> r == Some(a)
      ensures OwnKeys(old(sys), sys, a.file)
    {
      hide Inv, Initial, IsRun, Later, Describes, OnlyObjects, OnlyQueue, FinalMatches, Queued, FileOf, RemoteAgrees,
           Publishable, NoNewFinal, HasFinal, UploadsFit, OwnKeys, SameTexts;
      ghost var s0 := sys;
      var published := if env.objectStorage then a.(uri := ObjectUri(a.file)) else a;
      var ok := WriteSidecars(published);
      SameObjects(env, s0, sys, a.(uri := ObjectUri(a.file)), a.file);
      if !ok {
        return None;
      }
      DescribesLater(env, s0, sys, a);
      if !env.objectStorage {
        return Some(a);
      }
      SameArtifact(env, sys, a, published);
      SidecarsInPlace(env, s0, sys, published);
      ghost var s1 := sys;
      ok := Publish(published);
      ObjectsFrame(s1, sys);
      SourceTexts(s1, sys);
      TextsShown(s1, sys, a.file);
      TextsTransitive(s0, s1, sys, a.file);
      LaterTransitive(s0, s1, sys);
      NewFinals(s0, s1, sys, a.file);
      OwnKeysTransitive(s0, s1, sys, a.file);
      ClosedSpools(s0, s1, sys);
      DescribesLater(env, s1, sys, published);
      if ok {
        return Some(published);
      }
      if !env.retry {
        return None;
      }
      ghost var s2 := sys;
      ok := Enqueue(published);
      QueueFrame(s2, sys, QueuePath(env, published));
      SourceTexts(s2, sys);
      TextsShown(s2, sys, a.file);
      TextsTransitive(s0, s2, sys, a.file);
      LaterTransitive(s0, s2, sys);
      NewFinals(s0, s2, sys, a.file);
      SameObjects(env, s2, sys, published, a.file);
      OwnKeysTransitive(s0, s2, sys, a.file);
      ClosedSpools(s0, s2, sys);
      if !ok {
        return None;
      }
      DescribesLater(env, s2, sys, published);
      SameArtifact(env, sys, published, a);
      return Some(a);
    }

    /** The tool, if called with operation `t`, delivers something of the log. */
    predicate Delivers(t: nat, file: string) {
      download(t, file).Some? && download(t, file).value != []
    }

    /** It does so from operation `from` up to `to`. */
    ghost predicate Delivering(file: string, from: nat, to: nat) {
      forall t | from <= t < to :: Delivers(t, file)
    }

    /** Downloads a closed log in full and commits it. */
    method ArchiveFile(choice: Choice) returns (r: Option<Artifact>)
      requires Valid()
      modifies this
      ensures Continued() && Later(old(sys), sys) && Apart(old(sys), sys, choice.file)
      ensures forall f | IsClosed(old(sys), f) :: SameSpool(old(sys), sys, f)
      ensures r.Some? ==> IsArchived(choice, r.value)
      ensures var content := download(old(tick), choice.file);
              if Delivers(old(tick), choice.file) then
                && (Healthy(old(tick), tick) ==>
                      (r.Some? <==> IsSafeName(choice.file) && Storable(env, old(sys), choice, content.value)))
                // Whatever fails, the same download can be archived afterwards.
                && (Storable(env, old(sys), choice, content.value) ==> Storable(env, sys, choice, content.value))
              else
                r.None? && Unmoved(old(sys), sys)
      ensures old(tick) < tick
    {
      hide Inv, Initial, IsRun, Later, Describes, Stored, SameSpool, Keeps, Unmoved, Apart, OnlySource, IsSafeName,
           Storable;
      ghost var s0 := sys;
      var tmpDir := NextIo();
      UnmovedApart(s0, sys, choice.file);
      UnmovedSpools(s0, sys);
      var content := download(tick - 1, choice.file);
      if content.Some? {
        StorableApart(env, s0, sys, choice, content.value, choice.file);
      }
      if tmpDir != Done || !IsSafeName(choice.file) || content.None? || content.value == [] {
        return None;
      }
      ghost var s1 := sys;
      r := CommitAndFinalize(choice, content.value);
      LaterTransitive(s0, s1, sys);
      ApartTransitive(s0, s1, sys, choice.file);
      ClosedSpools(s0, s1, sys);
    }

    /** The common end of both ways to archive a file. */
    method CommitAndFinalize(choice: Choice, content: Bytes) returns (r: Option<Artifact>)
      requires Valid() && content != [] && IsSafeName(choice.file)
      modifies this
      ensures Continued() && Later(old(sys), sys) && Apart(old(sys), sys, choice.file)
      ensures forall f | IsClosed(old(sys), f) :: SameSpool(old(sys), sys, f)
      ensures r.Some? ==> IsArchived(choice, r.value)
      ensures r.Some? ==> env.sha(sys.disk[Finalized(choice.file)]) == env.sha(content)
      ensures r.Some? && !HasFinal(old(sys), choice.file) ==> sys.disk[Finalized(choice.file)] == content
      ensures !Fits(env, old(sys), choice.file, content) ==> r.None? && Unmoved(old(sys), sys)
      ensures Healthy(old(tick), tick) ==> (r.Some? <==> Storable(env, old(sys), choice, content))
      ensures Storable(env, old(sys), choice, content) ==> Storable(env, sys, choice, content)
    {
      hide Inv, Initial, IsRun, Later, Describes, Stored, Keeps, SameSpool, NoNewFinal, NoOtherFinal, RemoteAgrees,
           OwnKeys, Unmoved, Apart, IsSafeName, SameTexts;
      ghost var s0 := sys;
      var ok := Commit(choice.file, content);
      CommitFrame(s0, sys, choice, content);
      if !ok {
        return None;
      }
      ghost var s1 := sys;
      var a := BuildArtifact(choice);
      LaterUnmoved(s1, sys);
      UnmovedApart(s1, sys, choice.file);
      LaterTransitive(s0, s1, sys);
      ApartTransitive(s0, s1, sys, choice.file);
      ClosedSpools(s0, s1, sys);
      StorableApart(env, s1, sys, choice, content, choice.file);
      FinalKept(s1, sys, choice.file);
      if a.None? {
        return None;
      }
      ghost var s2 := sys;
      r := Finalize(a.value);
      LaterApart(s2, sys, choice.file);
      LaterTransitive(s0, s2, sys);
      ApartTransitive(s0, s2, sys, choice.file);
      ClosedSpools(s0, s2, sys);
      FinalKept(s2, sys, choice.file);
      LaterParts(s2, sys);
      StorableFinalized(env, s2, sys, choice, content);
    }

    /** What a commit leaves alone. */
    lemma CommitFrame(s: Sys, t: Sys, choice: Choice, content: Bytes)
      requires Later(s, t) && NoOtherFinal(s, t, choice.file) && t.objects == s.objects
      requires forall f | IsClosed(s, f) :: SameSpool(s, t, f)
      requires forall f :: SameTexts(s, t, f)
      requires if HasFinal(s, choice.file) then NoNewFinal(s, t)
               else HasFinal(t, choice.file) ==> t.disk[Finalized(choice.file)] == content
      ensures Apart(s, t, choice.file)
      ensures HasFinal(s, choice.file) ==> Unmoved(s, t)
      ensures Kept(t, choice.file, content) == Kept(s, choice.file, content)
      ensures Storable(env, t, choice, content) <==> Storable(env, s, choice, content)
    {
      hide Keeps, OwnKeys, Storable, NoOtherFinal, NoNewFinal, IsClosed, SameSpool, SameTexts;
      LaterParts(s, t);
      SameObjects(env, s, t, Planned(env, choice, content), choice.file);
      LaterApart(s, t, choice.file);
      if HasFinal(s, choice.file) {
        LaterUnmoved(s, t);
      }
      StorableCommitted(env, s, t, choice, content);
    }

    /** The artifact belongs to the choice, describes the finalized file, and is stored. */
    ghost predicate IsArchived(choice: Choice, a: Artifact)
      reads this
    {
      && IsSafeName(a.file) && a.file == choice.file && HasFinal(sys, a.file)
      && a.previous == choice.previous && a.next == choice.next
      && Describes(env, sys, a) && Stored(env, sys, a)
      && (a.uri == ObjectUri(a.file) ==> FinalMatches(sys, a))
      && HasSidecars(env, sys, a)
    }

    /** The spool file of a log is a valid binlog of the size the source lists. */
    predicate UsableSpool(s: Sys, choice: Choice) {
      && IsSafeName(choice.file) && StreamSpool(choice.file) in s.disk
      && var content := s.disk[StreamSpool(choice.file)];
      && Framing.IsBinlog(crc, content) && (0 < choice.size ==> |content| == choice.size)
    }

    /** A spool file that is there now was there before, as it is. */
    predicate SpoolOrGone(s: Sys, t: Sys, file: string) {
      StreamSpool(file) in t.disk ==>
        StreamSpool(file) in s.disk && t.disk[StreamSpool(file)] == s.disk[StreamSpool(file)]
    }

    /**
     Archives a closed log from the spool of the streaming process.  The spool
     file goes only after the finalized file has its checksum.
     */
    method ArchiveStreamingSpool(choice: Choice) returns (r: Option<Artifact>)
      requires Valid() && IsClosed(sys, choice.file)
      modifies this
      ensures Continued() && Later(old(sys), sys) && Apart(old(sys), sys, choice.file)
      ensures r.Some? ==> IsArchived(choice, r.value)
      // A file archived this way had the source's size and was a valid binlog.
      ensures r.Some? ==>
                && UsableSpool(old(sys), choice)
                && var content := old(sys).disk[StreamSpool(choice.file)];
                && Framing.IsBinlog(crc, content) && (0 < choice.size ==> |content| == choice.size)
                && env.sha(sys.disk[Finalized(choice.file)]) == env.sha(content)
                && (!HasFinal(old(sys), choice.file) ==> sys.disk[Finalized(choice.file)] == content)
      // If it was not archived the spool file is still there, as it was.
      ensures r.None? ==> SameSpool(old(sys), sys, choice.file)
      ensures SpoolOrGone(old(sys), sys, choice.file)
      ensures !UsableSpool(old(sys), choice) ==> r.None? && Unmoved(old(sys), sys)
      ensures UsableSpool(old(sys), choice) ==>
                var content := old(sys).disk[StreamSpool(choice.file)];
                && (Storable(env, old(sys), choice, content) ==> Storable(env, sys, choice, content))
                && (Healthy(old(tick), tick) ==>
                      if Storable(env, old(sys), choice, content) then
                        r.Some? && StreamSpool(choice.file) !in sys.disk
                      else
                        r.None?)
    {
      hide Inv, Initial, IsRun, Later, Describes, Stored, Keeps, OnlySource, Framing.Parse, Framing.CrcConsistent,
           IsArchived, Unmoved, Apart, Storable;
      ghost var s0 := sys;
      var spool := StreamSpool(choice.file);
      LaterReflexive(s0);
      UnmovedReflexive(s0);
      UnmovedApart(s0, s0, choice.file);
      if !IsSafeName(choice.file) || spool !in sys.disk || sys.disk[spool] == [] {
        return None;
      }
      var content := sys.disk[spool];
      if 0 < choice.size && |content| != choice.size {
        return None;
      }
      var validation, err := Framing.ValidateFile(crc, content);
      if err.Some? || validation.lastCompletePos != |content| {
        return None;
      }
      var copy := NextIo();
      SpoolStays(s0, sys, choice.file);
      UnmovedApart(s0, sys, choice.file);
      StorableApart(env, s0, sys, choice, content, choice.file);
      if copy != Done {
        return None;
      }
      ghost var s1 := sys;
      SourceKeeps(s0, s1, choice.file);
      r := CommitAndFinalize(choice, content);
      LaterTransitive(s0, s1, sys);
      ApartTransitive(s0, s1, sys, choice.file);
      if r.None? {
        return;
      }
      ghost var s2 := sys;
      LaterClosed(s0, s2, choice.file);
      RemoveSpool(choice, r.value);
      LaterTransitive(s0, s2, sys);
      ApartTransitive(s0, s2, sys, choice.file);
      LaterParts(s2, sys);
      StorableRemoved(s2, sys, choice, content);
    }

    /** Removes the spool file of an archived log; whether that works is not checked. */
    method RemoveSpool(choice: Choice, a: Artifact)
      requires Valid() && IsClosed(sys, choice.file) && IsArchived(choice, a)
      requires StreamSpool(choice.file) in sys.disk ==>
                 env.sha(sys.disk[StreamSpool(choice.file)]) == env.sha(sys.disk[Finalized(choice.file)])
      modifies this
      ensures Continued() && Later(old(sys), sys) && Apart(old(sys), sys, choice.file)
      ensures NoNewFinal(old(sys), sys) && sys.objects == old(sys).objects && SpoolOrGone(old(sys), sys, choice.file)
      ensures IsArchived(choice, a) && sys.disk[Finalized(choice.file)] == old(sys).disk[Finalized(choice.file)]
      ensures Healthy(old(tick), tick) ==> StreamSpool(choice.file) !in sys.disk
    {
      hide Inv, Initial, IsRun, Later, Describes, Stored, Keeps, OnlySource, NoNewFinal, FinalMatches, IsSafeName,
           Unmoved, Apart;
      ghost var s0 := sys;
      var remove := NextIo();
      SpoolStays(s0, sys, choice.file);
      ArchivedLater(env, s0, sys, a);
      SourceTexts(s0, sys);
      SidecarsStay(env, s0, sys, a);
      UnmovedApart(s0, sys, choice.file);
      UnmovedParts(s0, sys);
      if remove != Failed {
        ghost var s1 := sys;
        Record(DropsSpool(choice.file), sys.(disk := sys.disk - {StreamSpool(choice.file)}));
        LaterDisk(s1, sys);
        LaterTransitive(s0, s1, sys);
        ArchivedDisk(env, s1, sys, a);
        SidecarsStay(env, s1, sys, a);
        SpoolApart(s1, sys, choice.file);
        NewFinals(s0, s1, sys, choice.file);
        ApartTransitive(s0, s1, sys, choice.file);
      }
    }

    lemma StorableRemoved(s: Sys, t: Sys, choice: Choice, content: Bytes)
      requires Keeps(s, t) && NoNewFinal(s, t) && t.objects == s.objects
      ensures Storable(env, t, choice, content) <==> Storable(env, s, choice, content)
    {
      hide Keeps, NoNewFinal;
      FitsFrame(env, s, t, choice.file, content, choice.file);
      FinalUnchanged(s, t, choice.file);
      SameObjects(env, s, t, Planned(env, choice, Kept(s, choice.file, content)), choice.file);
    }

    /** Sets an unusable spool file aside; its bytes are kept. */
    method Quarantine(file: string)
      requires Valid()
      modifies this
      ensures Continued() && Later(old(sys), sys) && NoNewFinal(old(sys), sys) && sys.objects == old(sys).objects
      ensures Apart(old(sys), sys, file)
      ensures IsClosed(old(sys), file) ==>
                || SameSpool(old(sys), sys, file)
                || (var stamp := clock(old(tick) + 1) / Backoff.SECOND;
                      && StreamSpool(file) in old(sys).disk && StreamSpool(file) !in sys.disk
                      && Quarantined(file, stamp) in sys.disk
                      && sys.disk[Quarantined(file, stamp)] == old(sys).disk[StreamSpool(file)])
      ensures IsClosed(old(sys), file) ==> SpoolOrGone(old(sys), sys, file)
      ensures Healthy(old(tick), tick) && IsSafeName(file) ==> StreamSpool(file) !in sys.disk
    {
      hide Inv, Initial, IsRun, Later, Keeps, NoNewFinal, IsSafeName, Unmoved, Apart;
      ghost var s0 := sys;
      LaterReflexive(s0);
      NoFinalAtAll(s0, s0, file);
      UnmovedReflexive(s0);
      UnmovedApart(s0, s0, file);
      if !IsSafeName(file) {
        return;
      }
      var rename := NextIo();
      UnmovedApart(s0, sys, file);
      UnmovedParts(s0, sys);
      if IsClosed(s0, file) {
        SpoolStays(s0, sys, file);
      }
      if rename == Failed || StreamSpool(file) !in sys.disk {
        return;
      }
      ghost var s1 := sys;
      var stamp := clock(tick) / Backoff.SECOND;
      var content := sys.disk[StreamSpool(file)];
      Record(Quarantines(file, stamp),
             sys.(disk := (sys.disk - {StreamSpool(file)})[Quarantined(file, stamp) := content]));
      LaterDisk(s1, sys);
      LaterTransitive(s0, s1, sys);
      SpoolApart(s1, sys, file);
      NewFinals(s0, s1, sys, file);
      ApartTransitive(s0, s1, sys, file);
      assert Quarantined(file, stamp) in sys.disk;
    }

    /**
     The log can be archived whenever something of it is delivered: its name is
     safe, and what a download delivers, whenever it does, can be stored.  A
     usable spool file can be stored too and holds what a download would deliver.
     */
    ghost predicate Supplied(s: Sys, choice: Choice, preferSpool: bool) {
      && IsSafeName(choice.file)
      && (forall t: nat | Delivers(t, choice.file) :: Storable(env, s, choice, download(t, choice.file).value))
      && (preferSpool ==> IsClosed(s, choice.file))
      && (preferSpool && UsableSpool(s, choice) ==>
            var content := s.disk[StreamSpool(choice.file)];
            && Storable(env, s, choice, content)
            && forall t: nat | Delivers(t, choice.file) :: download(t, choice.file).value == content)
    }

    /** A closed log does not change any more: whenever a download delivers something, it is the same. */
    ghost predicate Steady(file: string) {
      forall t: nat, u: nat | Delivers(t, file) && Delivers(u, file) :: download(t, file) == download(u, file)
    }

    /**
     A closed log is supplied, whether or not an earlier round left a copy of it,
     if its downloads deliver its content or nothing: each log by its own content.
     */
    lemma SourceSupplies(s: Sys, choice: Choice, preferSpool: bool, content: Bytes)
      requires IsSafeName(choice.file) && IsClosed(s, choice.file)
      requires forall t: nat | Delivers(t, choice.file) :: download(t, choice.file) == Some(content)
      requires HasFinal(s, choice.file) ==> s.disk[Finalized(choice.file)] == content
      requires preferSpool && UsableSpool(s, choice) ==> s.disk[StreamSpool(choice.file)] == content
      requires env.objectStorage && !env.retry ==> RemoteAgrees(env, s, Planned(env, choice, content))
      ensures Supplied(s, choice, preferSpool) && Steady(choice.file)
    {
      hide IsSafeName, RemoteAgrees, Framing.IsBinlog, Delivers;
    }

    lemma SuppliedStays(s: Sys, t: Sys, choice: Choice, preferSpool: bool, other: string)
      requires Supplied(s, choice, preferSpool)
      requires Unmoved(s, t) || (choice.file != other && Apart(s, t, other))
      requires preferSpool ==> SpoolOrGone(s, t, choice.file) || (IsClosed(s, choice.file) && Unmoved(s, t))
      ensures Supplied(t, choice, preferSpool)
    {
      hide Storable, IsSafeName, Keeps, NoNewFinal, NoOtherFinal, OwnKeys, Framing.IsBinlog;
      ClosedStays(s, t);
      forall content | Storable(env, s, choice, content)
        ensures Storable(env, t, choice, content)
      {
        StorableApart(env, s, t, choice, content, other);
      }
    }

    /**
     The supply of a log survives if the one content there is of it can still be
     stored and its spool is as it was or gone.
     */
    lemma SuppliedSince(s: Sys, t: Sys, choice: Choice, preferSpool: bool, content: Bytes)
      requires Supplied(s, choice, preferSpool) && Storable(env, t, choice, content)
      requires forall u: nat | Delivers(u, choice.file) :: download(u, choice.file).value == content
      requires preferSpool ==> IsClosed(t, choice.file) && SpoolOrGone(s, t, choice.file)
      requires preferSpool && UsableSpool(s, choice) ==> s.disk[StreamSpool(choice.file)] == content
      ensures Supplied(t, choice, preferSpool)
    {
      hide Storable, IsSafeName, Framing.IsBinlog, IsClosed, Delivers;
    }

    lemma SuppliedAside(s: Sys, t: Sys, choice: Choice, preferSpool: bool)
      requires Supplied(s, choice, preferSpool) && IsClosed(t, choice.file) && SpoolOrGone(s, t, choice.file)
      requires Keeps(s, t) && NoNewFinal(s, t) && t.objects == s.objects
      ensures Supplied(t, choice, preferSpool)
    {
      hide Storable, IsSafeName, Framing.IsBinlog, IsClosed, Keeps, NoNewFinal;
      forall content | Storable(env, s, choice, content)
        ensures Storable(env, t, choice, content)
      {
        StorableRemoved(s, t, choice, content);
      }
    }

    /** A usable spool of a supplied log can be stored, and holds what a download would deliver. */
    lemma SpoolSupplied(s: Sys, choice: Choice)
      requires Supplied(s, choice, true) && UsableSpool(s, choice)
      ensures StreamSpool(choice.file) in s.disk && Storable(env, s, choice, s.disk[StreamSpool(choice.file)])
      ensures forall u: nat | Delivers(u, choice.file) ::
                download(u, choice.file).value == s.disk[StreamSpool(choice.file)]
    {
    }

    /** Archives a log from its spool, or sets the spool aside. */
    method TrySpool(choice: Choice) returns (r: Option<Artifact>)
      requires Valid() && IsClosed(sys, choice.file)
      modifies this
      ensures Continued() && Later(old(sys), sys) && Apart(old(sys), sys, choice.file)
      ensures r.Some? ==>
                && IsArchived(choice, r.value) && UsableSpool(old(sys), choice)
                && env.sha(sys.disk[Finalized(choice.file)]) == env.sha(old(sys).disk[StreamSpool(choice.file)])
      ensures Healthy(old(tick), tick) && UsableSpool(old(sys), choice) ==>
                Storable(env, old(sys), choice, old(sys).disk[StreamSpool(choice.file)]) ==> r.Some?
      // Without failures the spool is gone afterwards, archived or set aside.
      ensures Healthy(old(tick), tick) && IsSafeName(choice.file) ==> StreamSpool(choice.file) !in sys.disk
      // Whatever fails, a supplied log stays supplied.
      ensures Supplied(old(sys), choice, true) ==> Supplied(sys, choice, true)
    {
      hide Inv, Initial, IsRun, Later, Describes, Stored, Keeps, SameSpool, IsClosed, IsSafeName, Unmoved, Apart,
           UsableSpool, Storable, Supplied, NoNewFinal, SpoolOrGone, IsArchived, Delivers;
      ghost var s0 := sys;
      r := ArchiveStreamingSpool(choice);
      LaterClosed(s0, sys, choice.file);
      if Supplied(s0, choice, true) {
        if !UsableSpool(s0, choice) {
          SuppliedStays(s0, sys, choice, true, choice.file);
        } else {
          SpoolSupplied(s0, choice);
          SuppliedSince(s0, sys, choice, true, s0.disk[StreamSpool(choice.file)]);
        }
      }
      if r.Some? {
        return;
      }
      ghost var s1 := sys;
      Quarantine(choice.file);
      LaterClosed(s1, sys, choice.file);
      LaterParts(s1, sys);
      if Supplied(s1, choice, true) {
        SuppliedAside(s1, sys, choice, true);
      }
      LaterTransitive(s0, s1, sys);
      ApartTransitive(s0, s1, sys, choice.file);
    }

    /** Archives one selected log: from the streaming spool if that is preferred and works, else by download. */
    method ArchiveSelection(choice: Choice, preferSpool: bool) returns (r: Option<Artifact>)
      requires Valid() && IsClosed(sys, choice.file)
      modifies this
      ensures Continued() && Later(old(sys), sys) && Apart(old(sys), sys, choice.file)
      ensures r.Some? ==> IsArchived(choice, r.value)
      // With nothing failing during the call a supplied log is archived, from its spool if that is
      // usable and preferred.
      ensures Healthy(old(tick), tick) && Delivering(choice.file, old(tick), tick) ==>
                Supplied(old(sys), choice, preferSpool) ==> r.Some?
      ensures Healthy(old(tick), tick) && preferSpool && UsableSpool(old(sys), choice)
              && Storable(env, old(sys), choice, old(sys).disk[StreamSpool(choice.file)]) ==>
                r.Some? && env.sha(sys.disk[Finalized(choice.file)]) == env.sha(old(sys).disk[StreamSpool(choice.file)])
      // Whatever fails, a supplied log stays supplied, so that it can be tried again.
      ensures Steady(choice.file) && Supplied(old(sys), choice, preferSpool) ==> Supplied(sys, choice, preferSpool)
    {
      hide Inv, Initial, IsRun, Later, Describes, Stored, Keeps, SameSpool, IsClosed, IsSafeName, Unmoved, Apart,
           UsableSpool, Storable, Supplied, Steady, NoNewFinal, SpoolOrGone, IsArchived;
      ghost var s0 := sys;
      LaterReflexive(s0);
      UnmovedReflexive(s0);
      UnmovedApart(s0, s0, choice.file);
      if preferSpool {
        r := TrySpool(choice);
        if r.Some? {
          return;
        }
      }
      ghost var s2 := sys;
      ghost var at := tick;
      LaterClosed(s0, s2, choice.file);
      if Supplied(s2, choice, preferSpool) {
        DownloadSupplied(s2, choice, preferSpool, at);
      }
      r := ArchiveFile(choice);
      LaterTransitive(s0, s2, sys);
      ApartTransitive(s0, s2, sys, choice.file);
      LaterClosed(s2, sys, choice.file);
      SameSpoolIsThere(s2, sys, choice.file);
      if Supplied(s2, choice, preferSpool) && Steady(choice.file) {
        if Delivers(at, choice.file) {
          SuppliedSince(s2, sys, choice, preferSpool, download(at, choice.file).value);
        } else {
          SuppliedStays(s2, sys, choice, preferSpool, choice.file);
        }
      }
    }

    lemma DownloadSupplied(s: Sys, choice: Choice, preferSpool: bool, t: nat)
      requires Supplied(s, choice, preferSpool)
      ensures IsSafeName(choice.file)
      ensures Delivers(t, choice.file) ==>
                && Storable(env, s, choice, download(t, choice.file).value)
                && (preferSpool && UsableSpool(s, choice) ==>
                      s.disk[StreamSpool(choice.file)] == download(t, choice.file).value)
                && (Steady(choice.file) ==>
                      forall u: nat | Delivers(u, choice.file) ::
                        download(u, choice.file).value == download(t, choice.file).value)
    {
      hide Storable, IsSafeName, Framing.IsBinlog;
    }

    lemma SameSpoolIsThere(s: Sys, t: Sys, file: string)
      requires IsClosed(s, file) && forall f | IsClosed(s, f) :: SameSpool(s, t, f)
      ensures SpoolOrGone(s, t, file)
    {
    }

    // ----- one round of a stream -----

    /** Registers an archived log with the server; a reply may be lost after the request was served. */
    method Register(a: Artifact, index: nat) returns (ok: bool)
      requires Valid() && NextToRegister(sys, a, index)
      requires IsSafeName(a.file) && Describes(env, sys, a) && Stored(env, sys, a)
      modifies this
      ensures Continued() && Keeps(old(sys), sys) && SameNames(old(sys).history, sys.history)
      ensures Unmoved(old(sys), sys)
      ensures sys.cursor == old(sys).cursor
      ensures sys.registered == old(sys).registered || Registered(old(sys), sys, a, index)
      ensures ok ==> Registered(old(sys), sys, a, index)
      ensures sys.registered == old(sys).registered ==> sys.base == old(sys).base
      ensures Healthy(old(tick), tick) ==> ok
    {
      hide Inv, Initial, IsRun, Describes, Stored, FinalMatches, Queued, Unmoved;
      ghost var s0 := sys;
      var request := NextIo();
      NextLater(s0, sys, a, index);
      ArchivedLater(env, s0, sys, a);
      if request == Failed {
        return false;
      }
      ghost var s1 := sys;
      Record(Registers(a, index), After(sys, a, index));
      KeepsTransitive(s0, s1, sys);
      ServerUnmoved(s1, sys);
      UnmovedTransitive(s0, s1, sys);
      ok := request == Done;
    }

    /** The server after a registration; the index of the first one is remembered for reference. */
    function After(s: Sys, a: Artifact, index: nat): Sys {
      s.(registered := s.registered + [a], base := if s.registered == [] then index else s.base)
    }

    ghost predicate Registered(s: Sys, t: Sys, a: Artifact, index: nat) {
      t.registered == s.registered + [a] && t.base == if s.registered == [] then index else s.base
    }

    /** Archives and registers the log at `index`, the next one in line. */
    method ArchiveNext(choice: Choice, index: nat, preferSpool: bool) returns (err: Option<RoundError>)
      requires Valid() && InLine(sys, choice, index)
      modifies this
      ensures Continued() && Keeps(old(sys), sys) && SameNames(old(sys).history, sys.history)
      ensures Apart(old(sys), sys, choice.file)
      ensures Healthy(old(tick), tick) && Delivering(choice.file, old(tick), tick) ==>
                Supplied(old(sys), choice, preferSpool) ==> err.None?
      ensures Steady(choice.file) && Supplied(old(sys), choice, preferSpool) ==> Supplied(sys, choice, preferSpool)
      ensures sys.cursor == old(sys).cursor
      ensures sys.registered == old(sys).registered || OneMore(old(sys), sys, choice.file, index)
      ensures err.None? ==> OneMore(old(sys), sys, choice.file, index)
      ensures SidecarsSince(env, old(sys), sys)
      ensures err.Some? ==> err.value == ArchiveFailed || err.value == RegisterFailed
      ensures sys.registered == old(sys).registered ==> sys.base == old(sys).base
    {
      hide Inv, Initial, IsRun, Describes, Stored, Keeps, NextToRegister, Acts, Unmoved, Apart, Supplied, Steady,
           UsableSpool, Storable, Delivers, HasSidecars, SameTexts;
      ghost var s0 := sys;
      InLineClosed(s0, choice, index);
      var a := ArchiveSelection(choice, preferSpool);
      if a.None? {
        return Some(ArchiveFailed);
      }
      ghost var s1 := sys;
      InLineNext(s0, s1, choice, index, a.value);
      var ok := Register(a.value, index);
      UnmovedParts(s1, sys);
      SidecarsStay(env, s1, sys, a.value);
      KeepsTransitive(s0, s1, sys);
      UnmovedApart(s1, sys, choice.file);
      ApartTransitive(s0, s1, sys, choice.file);
      if Supplied(s1, choice, preferSpool) {
        RegisteredSupplied(s0, s1, sys, choice, preferSpool);
      }
      err := if ok then None else Some(RegisterFailed);
    }

    lemma RegisteredSupplied(s: Sys, t: Sys, u: Sys, choice: Choice, preferSpool: bool)
      requires Supplied(t, choice, preferSpool) && Unmoved(t, u) && Later(s, t) && IsClosed(s, choice.file)
      ensures Supplied(u, choice, preferSpool)
    {
      hide Supplied, Unmoved, Later;
      LaterClosed(s, t, choice.file);
      SuppliedStays(t, u, choice, preferSpool, choice.file);
    }

    /** The source's listing, as of the moment it is asked for. */
    method ListLogs() returns (logs: Option<seq<LogFile>>)
      requires Valid()
      modifies this
      ensures Continued() && Later(old(sys), sys) && Unmoved(old(sys), sys)
      ensures logs.Some? ==> sys.purged < |sys.history| && logs.value == sys.history[sys.purged..]
      ensures Healthy(old(tick), tick) ==> logs.Some?
    {
      hide Initial, IsRun, Later, Chain, Backed, FaithfulObjects, GoodQueue, GoodCursor, DistinctNames, OnlySource,
           Unmoved;
      UnmovedReflexive(sys);
      var answer := NextIo();
      if answer != Done {
        return None;
      }
      return Some(sys.history[sys.purged..]);
    }

    /** The logs of the listing that a round archives. */
    method ChooseFrom(listing: seq<LogFile>, maxFiles: int) returns (r: Result<seq<Choice>, SelectError>)
      requires Valid() && listing != []
      ensures StartOf(listing, LastArchived(sys)).None? ==>
                r == Failure(PurgeGap(LastArchived(sys), listing[0].name, listing[|listing| - 1].name))
      ensures StartOf(listing, LastArchived(sys)).Some? ==>
                var start := StartOf(listing, LastArchived(sys)).value;
                r.Success? && |r.value| == BatchSize(listing, start, maxFiles, false) && Chosen(r.value, listing, start)
    {
      hide Initial, IsRun, Inv, TrimSpace, StartOf, BatchSize, ChoiceAt, Chosen;
      var last := LastArchived(sys);
      TrimmedCursor(env, sys);
      r := Select(listing, last, maxFiles, false);
      if r.Success? {
        SelectedAreChosen(r.value, listing, last, StartOf(listing, last).value, maxFiles);
      }
    }

    /**
     One archive round of the stream: selects the closed logs behind the last
     registered one, archives and registers them in order, and stops at the
     first failure.  `listing` is what the source listed.
     */
    method ProcessStream(maxFiles: int, preferSpool: bool)
      returns (r: Result<nat, RoundError>, listing: seq<LogFile>)
      requires Valid()
      modifies this
      ensures Continued() && Keeps(old(sys), sys)
      // Whatever happens, the registrations grow by listed logs, in order, from the one behind the last.
      ensures old(sys).registered <= sys.registered
      ensures |old(sys).registered| < |sys.registered| ==>
                && StartOf(listing, LastArchived(old(sys))).Some?
                && var start := StartOf(listing, LastArchived(old(sys))).value;
                && |sys.registered| - |old(sys).registered| <= BatchSize(listing, start, maxFiles, false)
                && InOrder(sys.registered[|old(sys).registered|..], listing, start)
      ensures DistinctNames(listing)
      // The first round of a stream begins with the first log that the source lists, a later one behind the
      // log registered last.
      ensures TakesUp(old(sys), sys, listing)
      ensures listing != [] ==> exists i | |old(trace)| - 1 <= i < |trace| :: IsListing(trace[i], listing)
      // Whatever is registered has both its sidecar files.
      ensures SidecarsSince(env, old(sys), sys)
      // A cursor that the source does not list any more is an error, never a silent skip.
      ensures listing != [] && StartOf(listing, LastArchived(old(sys))).None? ==>
                && r == Failure(NotSelected(
                          PurgeGap(LastArchived(old(sys)), listing[0].name, listing[|listing| - 1].name)))
                && sys.registered == old(sys).registered
      ensures r.Success? ==>
                && StartOf(listing, LastArchived(old(sys))).Some?
                && r.value == BatchSize(listing, StartOf(listing, LastArchived(old(sys))).value, maxFiles, false)
                && |sys.registered| == |old(sys).registered| + r.value
                && LastArchived(sys) == NextCursor(listing, LastArchived(old(sys)), maxFiles)
                && (0 < r.value ==> sys.cursor == LastArchived(sys))
      // With nothing failing, only a purge gap or a log that is not supplied can stop a round.
      ensures Healthy(old(tick), tick) ==> listing != []
      ensures StartOf(listing, LastArchived(old(sys))).Some? ==>
                var start := StartOf(listing, LastArchived(old(sys))).value;
                var behind := start + BatchSize(listing, start, maxFiles, false);
                ListedSupplied(old(sys), listing, start, behind, preferSpool) ==>
                  && (Healthy(old(tick), tick) && ListedDelivering(listing, start, behind, old(tick), tick) ==>
                      r.Success?)
                  // Whatever fails, the logs stay supplied, so that the next round can succeed.
                  && (ListedSteady(listing, start, behind) ==> ListedSupplied(sys, listing, start, behind, preferSpool))
    {
      hide Initial, IsRun, Keeps, TrimSpace, StartOf, BatchSize, InLine, OneMore, Inv, Progress, Later, SameNames,
           Supplied, Unmoved, AllSupplied, AllSteady, DistinctNames, ListedSupplied, ListedSteady,
           AllDelivering, ListedDelivering, SidecarsSince, IsListing, InOrder, TakesUp, LastArchived, NextCursor,
           LastIs, Chosen;
      ghost var s0, from := sys, tick;
      listing := [];
      KeepsReflexive(s0);
      NoNames();
      var logs := ListLogs();
      LaterParts(s0, sys);
      NothingSince(env, s0, sys, []);
      EmptyListing(sys, LastArchived(s0), maxFiles, preferSpool);
      if logs.None? {
        return Failure(ListFailed), listing;
      }
      listing := logs.value;
      ghost var asked := |trace| - 1;
      Listed(sys, listing);
      NothingSince(env, s0, sys, listing);
      ListingDistinct(env, sys, listing);
      ghost var s1 := sys;
      var selected := ChooseFrom(listing, maxFiles);
      if selected.Failure? {
        return Failure(NotSelected(selected.error)), listing;
      }
      var choices := selected.value;
      var start := StartOf(listing, LastArchived(sys)).value;
      ProgressStart(env, s1, listing, start, maxFiles);
      if ListedSupplied(s0, listing, start, start + |choices|, preferSpool) {
        SupplyOf(s0, s1, choices, listing, start, preferSpool);
      }
      ghost var at := tick;
      var err := ArchiveAndReport(choices, listing, start, maxFiles, preferSpool);
      KeepsTransitive(s0, s1, sys);
      FirstTaken(env, s0, sys, listing, start);
      CursorAfter(s1, sys, choices, listing, start, maxFiles);
      SidecarsFrom(env, s0, s1, sys);
      assert trace[asked] == s1;
      SupplyShown(s1, sys, choices, listing, start, preferSpool);
      DeliveryOf(choices, listing, start, from, at, tick);
      return if err.None? then Success(|choices|) else Failure(err.value), listing;
    }

    predicate IsListing(s: Sys, listing: seq<LogFile>) {
      s.purged < |s.history| && listing == s.history[s.purged..]
    }

    /** After the chosen logs the round has come where the next one continues. */
    lemma CursorAfter(s: Sys, t: Sys, choices: seq<Choice>, listing: seq<LogFile>, start: nat, maxFiles: int)
      requires Chosen(choices, listing, start) && |choices| == BatchSize(listing, start, maxFiles, false)
      requires StartOf(listing, LastArchived(s)) == Some(start)
      ensures (choices == [] ==> t.registered == s.registered && t.cursor == s.cursor)
              && (choices != [] ==> LastIs(t, choices[|choices| - 1].file)) ==>
                && LastArchived(t) == NextCursor(listing, LastArchived(s), maxFiles)
                && (choices != [] ==> LastArchived(t) == choices[|choices| - 1].file)
    {
      hide StartOf, BatchSize;
    }

    lemma Listed(s: Sys, listing: seq<LogFile>)
      requires s.purged < |s.history| && listing == s.history[s.purged..]
      ensures IsListing(s, listing)
    {
    }

    lemma NoNames()
      ensures DistinctNames([])
    {
    }

    /**
     Runs rounds until one has nothing left to archive.  If all succeed and the
     source stands still meanwhile, that takes m / k of them, rounded up, for m
     unarchived closed logs and batches of k, and registers those m logs.
     */
    method CatchUp(maxFiles: int, preferSpool: bool) returns (rounds: Option<nat>, listing: seq<LogFile>)
      requires Valid()
      modifies this
      ensures Continued() && Keeps(old(sys), sys) && DistinctNames(listing)
      ensures rounds.Some? ==>
                var m, k := Unarchived(listing, LastArchived(old(sys))), Limit(maxFiles);
                && 0 < k && rounds.value == (m + k - 1) / k
                && |sys.registered| == |old(sys).registered| + m
                && Unarchived(listing, LastArchived(sys)) == 0
    {
      hide Initial, IsRun, Inv, Keeps, StartOf, BatchSize, NextCursor, InOrder, ListedSupplied, ListedSteady,
           ListedDelivering, Supplied, DistinctNames, Unarchived, RoundsToEmpty, Limit, LastArchived;
      ghost var s0 := sys;
      var n := 0;
      var r;
      r, listing := ProcessStream(maxFiles, preferSpool);
      ghost var last, before := LastArchived(s0), LastArchived(s0);
      ghost var taken := 0;
      while r.Success? && 0 < r.value
        invariant Continued() && Keeps(s0, sys) && DistinctNames(listing)
        invariant r.Success? ==>
                    && StartOf(listing, before).Some?
                    && r.value == BatchSize(listing, StartOf(listing, before).value, maxFiles, false)
                    && LastArchived(sys) == NextCursor(listing, before, maxFiles)
                    && |sys.registered| == |s0.registered| + taken + r.value
        invariant RoundsToEmpty(listing, last, maxFiles) == n + RoundsToEmpty(listing, before, maxFiles)
        invariant Unarchived(listing, last) == taken + Unarchived(listing, before)
        decreases Unarchived(listing, before)
      {
        BatchTaken(listing, before, maxFiles);
        n, taken, before := n + 1, taken + r.value, LastArchived(sys);
        ghost var s1 := sys;
        var again;
        r, again := ProcessStream(maxFiles, preferSpool);
        KeepsTransitive(s0, s1, sys);
        if again != listing {
          return None, listing;
        }
      }
      if r.Failure? {
        return None, listing;
      }
      BatchTaken(listing, before, maxFiles);
      RoundsExact(listing, last, maxFiles);
      return Some(n), listing;
    }

    lemma EmptyListing(s: Sys, last: string, maxFiles: int, preferSpool: bool)
      ensures StartOf([], last).Some? ==>
                var start := StartOf([], last).value;
                ListedSupplied(s, [], start, start + BatchSize([], start, maxFiles, false), preferSpool)
    {
    }

    /** The second half of a round: archives the chosen logs and reports the last one. */
    method ArchiveAndReport(choices: seq<Choice>, listing: seq<LogFile>, start: nat, maxFiles: int, preferSpool: bool)
      returns (err: Option<RoundError>)
      requires Valid() && Progress(sys, sys, listing, start, 0)
      requires |choices| == BatchSize(listing, start, maxFiles, false) && DistinctNames(listing)
      requires Chosen(choices, listing, start)
      modifies this
      ensures Continued() && Keeps(old(sys), sys)
      ensures old(sys).registered <= sys.registered
      ensures |sys.registered| - |old(sys).registered| <= |choices|
      ensures InOrder(sys.registered[|old(sys).registered|..], listing, start) && SidecarsSince(env, old(sys), sys)
      ensures err.None? ==>
                && |sys.registered| == |old(sys).registered| + |choices|
                && (choices == [] ==> sys.cursor == old(sys).cursor)
                && (choices != [] ==>
                      LastIs(sys, choices[|choices| - 1].file) && sys.cursor == choices[|choices| - 1].file)
      ensures AllSupplied(old(sys), choices, 0, preferSpool) ==>
                && (Healthy(old(tick), tick) && AllDelivering(choices, old(tick), tick) ==> err.None?)
                && (AllSteady(choices) ==> AllSupplied(sys, choices, 0, preferSpool))
    {
      hide Initial, IsRun, Keeps, BatchSize, Inv, Progress, SameNames, InOrder, Supplied, Unmoved, AllSupplied,
           AllSteady, DistinctNames, Chosen, AllDelivering;
      ghost var s0, from := sys, tick;
      err := ArchiveBatch(choices, listing, start, maxFiles, preferSpool);
      if err.Some? {
        return;
      }
      ghost var s1, at := sys, tick;
      var ok := Checkpoint(choices);
      SidecarsUnmoved(env, s0, s1, sys);
      DeliveringPart(choices, from, from, at, tick);
      KeepsTransitive(s0, s1, sys);
      if AllSupplied(s1, choices, 0, preferSpool) {
        CheckpointSupplied(s1, sys, choices, preferSpool);
      }
      err := if ok then None else Some(CheckpointFailed);
    }

    /** From position `k` on every chosen log is supplied. */
    ghost predicate AllSupplied(s: Sys, choices: seq<Choice>, k: nat, preferSpool: bool) {
      forall j | k <= j < |choices| :: Supplied(s, choices[j], preferSpool)
    }

    ghost predicate AllSteady(choices: seq<Choice>) {
      forall j | 0 <= j < |choices| :: Steady(choices[j].file)
    }

    ghost predicate AllDelivering(choices: seq<Choice>, from: nat, to: nat) {
      forall j | 0 <= j < |choices| :: Delivering(choices[j].file, from, to)
    }

    lemma DeliveringPart(choices: seq<Choice>, from: nat, a: nat, b: nat, to: nat)
      requires from <= a <= b <= to
      ensures AllDelivering(choices, from, to) ==> AllDelivering(choices, a, b)
    {
      hide Delivers;
      if AllDelivering(choices, from, to) {
        forall j | 0 <= j < |choices|
          ensures Delivering(choices[j].file, a, b)
        {
          assert Delivering(choices[j].file, from, to);
        }
      }
    }

    ghost predicate ListedDelivering(listing: seq<LogFile>, start: nat, behind: nat, from: nat, to: nat) {
      behind <= |listing| && forall i | start <= i < behind :: Delivering(listing[i].name, from, to)
    }

    lemma DeliveryOf(choices: seq<Choice>, listing: seq<LogFile>, start: nat, from: nat, at: nat, to: nat)
      requires Chosen(choices, listing, start) && from <= at <= to
      ensures ListedDelivering(listing, start, start + |choices|, from, to) ==> AllDelivering(choices, at, to)
    {
      hide Delivers, Delivering;
      if ListedDelivering(listing, start, start + |choices|, from, to) {
        forall j | 0 <= j < |choices|
          ensures Delivering(choices[j].file, from, to)
        {
          ChosenAt(choices, listing, start, j);
        }
        DeliveringPart(choices, from, at, to, to);
      }
    }

    lemma OneSupplied(s: Sys, choices: seq<Choice>, k: nat, j: nat, preferSpool: bool)
      requires AllSupplied(s, choices, k, preferSpool) && k <= j < |choices|
      ensures Supplied(s, choices[j], preferSpool)
      ensures AllSteady(choices) ==> Steady(choices[j].file)
    {
    }

    /** Archiving one log leaves the supply of another one alone. */
    lemma OtherSupplied(s: Sys, t: Sys, choices: seq<Choice>, listing: seq<LogFile>, start: nat, k: nat, j: nat,
                        preferSpool: bool)
      requires k < |choices| && j < |choices| && j != k && DistinctNames(listing) && Chosen(choices, listing, start)
      requires Supplied(s, choices[j], preferSpool) && Apart(s, t, choices[k].file)
      ensures Supplied(t, choices[j], preferSpool)
    {
      hide Apart, Unmoved, Supplied, Chosen, SpoolOrGone;
      ChosenAt(choices, listing, start, j);
      ChosenAt(choices, listing, start, k);
      assert choices[j].file != choices[k].file;
      if preferSpool {
        SuppliedIsClosed(s, choices[j]);
        ApartSpool(s, t, choices[k].file, choices[j].file);
      }
      SuppliedStays(s, t, choices[j], preferSpool, choices[k].file);
    }

    lemma SuppliedIsClosed(s: Sys, choice: Choice)
      requires Supplied(s, choice, true)
      ensures IsClosed(s, choice.file)
    {
    }

    lemma ApartSpool(s: Sys, t: Sys, file: string, other: string)
      requires Apart(s, t, file) && other != file && IsClosed(s, other)
      ensures SpoolOrGone(s, t, other)
    {
      assert SameSpool(s, t, other);
    }

    lemma RestSupplied(s: Sys, t: Sys, choices: seq<Choice>, listing: seq<LogFile>, start: nat, k: nat,
                       preferSpool: bool)
      requires AllSupplied(s, choices, k, preferSpool) && k < |choices| && DistinctNames(listing)
      requires Chosen(choices, listing, start) && Apart(s, t, choices[k].file)
      ensures AllSupplied(t, choices, k + 1, preferSpool)
    {
      hide Apart, Supplied, Chosen, DistinctNames;
      forall j | k + 1 <= j < |choices|
        ensures Supplied(t, choices[j], preferSpool)
      {
        OtherSupplied(s, t, choices, listing, start, k, j, preferSpool);
      }
    }

    lemma StillSupplied(s: Sys, t: Sys, choices: seq<Choice>, listing: seq<LogFile>, start: nat, k: nat,
                        preferSpool: bool)
      requires AllSupplied(s, choices, 0, preferSpool) && k < |choices| && DistinctNames(listing)
      requires Chosen(choices, listing, start) && Apart(s, t, choices[k].file)
      requires Supplied(t, choices[k], preferSpool)
      ensures AllSupplied(t, choices, 0, preferSpool)
    {
      hide Apart, Supplied, Chosen, DistinctNames;
      forall j | 0 <= j < |choices|
        ensures Supplied(t, choices[j], preferSpool)
      {
        if j != k {
          OtherSupplied(s, t, choices, listing, start, k, j, preferSpool);
        }
      }
    }

    /** The listed logs from one position up to another are supplied. */
    ghost predicate ListedSupplied(s: Sys, listing: seq<LogFile>, from: nat, to: nat, preferSpool: bool) {
      to <= |listing| && forall i | from <= i < to :: Supplied(s, ChoiceAt(listing, i), preferSpool)
    }

    ghost predicate ListedSteady(listing: seq<LogFile>, from: nat, to: nat) {
      to <= |listing| && forall i | from <= i < to :: Steady(listing[i].name)
    }

    lemma SupplyOf(s: Sys, t: Sys, choices: seq<Choice>, listing: seq<LogFile>, start: nat, preferSpool: bool)
      requires Unmoved(s, t) && Chosen(choices, listing, start)
      requires ListedSupplied(s, listing, start, start + |choices|, preferSpool)
      ensures AllSupplied(t, choices, 0, preferSpool)
      ensures ListedSteady(listing, start, start + |choices|) ==> AllSteady(choices)
    {
      hide Supplied, Unmoved, Chosen, SpoolOrGone, Steady;
      forall j | 0 <= j < |choices|
        ensures Supplied(t, choices[j], preferSpool)
        ensures ListedSteady(listing, start, start + |choices|) ==> Steady(choices[j].file)
      {
        ChosenAt(choices, listing, start, j);
        assert Supplied(s, ChoiceAt(listing, start + j), preferSpool);
        if preferSpool {
          SuppliedIsClosed(s, choices[j]);
        }
        SuppliedStays(s, t, choices[j], preferSpool, "");
      }
    }

    lemma SupplyShown(s: Sys, t: Sys, choices: seq<Choice>, listing: seq<LogFile>, start: nat, preferSpool: bool)
      requires Chosen(choices, listing, start)
      ensures AllSupplied(t, choices, 0, preferSpool) ==>
                ListedSupplied(t, listing, start, start + |choices|, preferSpool)
    {
      hide Supplied;
      if AllSupplied(t, choices, 0, preferSpool) {
        forall i | start <= i < start + |choices|
          ensures Supplied(t, ChoiceAt(listing, i), preferSpool)
        {
          ChosenAt(choices, listing, start, i - start);
        }
      }
    }

    lemma CheckpointSupplied(s: Sys, t: Sys, choices: seq<Choice>, preferSpool: bool)
      requires Unmoved(s, t) && AllSupplied(s, choices, 0, preferSpool)
      ensures AllSupplied(t, choices, 0, preferSpool)
    {
      hide Supplied, Unmoved, SpoolOrGone;
      forall j | 0 <= j < |choices|
        ensures Supplied(t, choices[j], preferSpool)
      {
        if preferSpool {
          SuppliedIsClosed(s, choices[j]);
        }
        SuppliedStays(s, t, choices[j], preferSpool, "");
      }
    }

    /** Archives and registers the chosen logs one by one, up to the first failure. */
    method ArchiveBatch(choices: seq<Choice>, listing: seq<LogFile>, start: nat, maxFiles: int, preferSpool: bool)
      returns (err: Option<RoundError>)
      requires Valid() && Progress(sys, sys, listing, start, 0)
      requires |choices| == BatchSize(listing, start, maxFiles, false) && DistinctNames(listing)
      requires Chosen(choices, listing, start)
      modifies this
      ensures Continued() && Keeps(old(sys), sys)
      ensures old(sys).registered <= sys.registered
      ensures |sys.registered| - |old(sys).registered| <= |choices|
      ensures InOrder(sys.registered[|old(sys).registered|..], listing, start)
      ensures sys.cursor == old(sys).cursor && SidecarsSince(env, old(sys), sys)
      ensures err.Some? ==> err.value == ArchiveFailed || err.value == RegisterFailed
      ensures err.None? ==>
                && |sys.registered| == |old(sys).registered| + |choices|
                && (choices != [] ==> LastIs(sys, choices[|choices| - 1].file))
      ensures AllSupplied(old(sys), choices, 0, preferSpool) ==>
                && (Healthy(old(tick), tick) && AllDelivering(choices, old(tick), tick) ==> err.None?)
                && (AllSteady(choices) ==> AllSupplied(sys, choices, 0, preferSpool))
    {
      hide Initial, IsRun, Keeps, BatchSize, InLine, OneMore, Inv, Progress, SameNames, InOrder, LastIs, Supplied,
           Apart, AllSupplied, AllSteady, DistinctNames, Chosen, ChoiceAt, AllDelivering;
      ghost var from := tick;
      ghost var supplied := AllSupplied(sys, choices, 0, preferSpool);
      ghost var steady := AllSteady(choices) && AllSupplied(sys, choices, 0, preferSpool);
      var first := sys.purged;
      ghost var s1 := sys;
      KeepsReflexive(s1);
      var k := 0;
      while k < |choices|
        invariant 0 <= k <= |choices|
        invariant Continued() && Keeps(s1, sys) && sys.cursor == s1.cursor
        invariant Progress(s1, sys, listing, start, k) && SidecarsSince(env, s1, sys)
        invariant supplied ==> AllSupplied(sys, choices, k, preferSpool)
        invariant steady ==> AllSupplied(sys, choices, 0, preferSpool)
      {
        ghost var done;
        ghost var at := tick;
        err, done := ArchiveAt(s1, choices, listing, start, maxFiles, preferSpool, k, first);
        ProgressShows(s1, sys, listing, start, done);
        DeliveringPart(choices, from, at, tick, tick);
        if err.Some? {
          return;
        }
        k := k + 1;
      }
      ProgressShows(s1, sys, listing, start, k);
      if 0 < k {
        ChosenAt(choices, listing, start, k - 1);
      }
      err := None;
    }

    /** Archives and registers the `k`-th chosen log; `done` of the chosen logs are registered then. */
    method ArchiveAt(ghost s1: Sys, choices: seq<Choice>, listing: seq<LogFile>, start: nat, maxFiles: int,
                     preferSpool: bool, k: nat, first: nat)
      returns (err: Option<RoundError>, ghost done: nat)
      requires Valid() && Keeps(s1, sys) && Progress(s1, sys, listing, start, k) && first == s1.purged
      requires |choices| == BatchSize(listing, start, maxFiles, false) && DistinctNames(listing)
      requires Chosen(choices, listing, start) && k < |choices| && SidecarsSince(env, s1, sys)
      modifies this
      ensures Continued() && Keeps(s1, sys) && sys.cursor == old(sys).cursor && SidecarsSince(env, s1, sys)
      ensures Progress(s1, sys, listing, start, done) && k <= done <= k + 1 && (err.None? ==> done == k + 1)
      ensures err.Some? ==> err.value == ArchiveFailed || err.value == RegisterFailed
      ensures AllSupplied(old(sys), choices, k, preferSpool) ==>
                && AllSupplied(sys, choices, k + 1, preferSpool)
                && (Healthy(old(tick), tick) && AllDelivering(choices, old(tick), tick) ==> err.None?)
      ensures AllSteady(choices) && AllSupplied(old(sys), choices, 0, preferSpool) ==>
                AllSupplied(sys, choices, 0, preferSpool)
    {
      hide Initial, IsRun, Keeps, BatchSize, InLine, OneMore, Inv, Progress, SameNames, InOrder, LastIs, Supplied,
           Apart, AllSupplied, AllSteady, DistinctNames, Chosen, ChoiceAt, Delivering;
      ghost var before := sys;
      ChosenAt(choices, listing, start, k);
      NextInLine(s1, sys, listing, start, maxFiles, k);
      err := ArchiveNext(choices[k], first + start + k, preferSpool);
      KeepsTransitive(s1, before, sys);
      OneMoreSidecars(before, sys, choices[k].file, first + start + k);
      SidecarsStep(env, s1, before, sys, listing, start, k);
      if AllSupplied(before, choices, k, preferSpool) {
        OneSupplied(before, choices, k, k, preferSpool);
        RestSupplied(before, sys, choices, listing, start, k, preferSpool);
      }
      if AllSteady(choices) && AllSupplied(before, choices, 0, preferSpool) {
        OneSupplied(before, choices, 0, k, preferSpool);
        StillSupplied(before, sys, choices, listing, start, k, preferSpool);
      }
      if sys.registered == before.registered && err.Some? {
        done := k;
        ProgressStays(s1, before, sys, listing, start, k);
      } else {
        done := k + 1;
        ProgressStep(s1, before, sys, listing, start, k);
      }
    }

    lemma OneMoreSidecars(s: Sys, t: Sys, file: string, index: nat)
      requires SidecarsSince(env, s, t) && (t.registered == s.registered || OneMore(s, t, file, index))
      ensures t.registered == s.registered || (t.registered == s.registered + [t.registered[|s.registered|]]
                                               && HasSidecars(env, t, t.registered[|s.registered|]))
    {
      hide HasSidecars;
    }

    /** Reports the last archived log as the cursor. */
    method Checkpoint(choices: seq<Choice>) returns (ok: bool)
      requires Valid() && (choices != [] ==> LastIs(sys, choices[|choices| - 1].file))
      modifies this
      ensures Continued() && Keeps(old(sys), sys) && sys.registered == old(sys).registered && Unmoved(old(sys), sys)
      ensures sys.cursor == old(sys).cursor || (choices != [] && sys.cursor == choices[|choices| - 1].file)
      ensures ok && choices != [] ==> sys.cursor == choices[|choices| - 1].file
      ensures Healthy(old(tick), tick) ==> ok
    {
      hide Inv, Initial, IsRun, Keeps, Unmoved;
      ghost var s0 := sys;
      var request := NextIo();
      LaterParts(s0, sys);
      ok := request == Done;
      if choices != [] && request != Failed {
        ghost var s1 := sys;
        var name := choices[|choices| - 1].file;
        assert sys.registered[|sys.registered| - 1].file == name;
        Record(MovesCursor(name), sys.(cursor := name));
        KeepsTransitive(s0, s1, sys);
        ServerUnmoved(s1, sys);
        UnmovedTransitive(s0, s1, sys);
      }
    }

    // ----- working off the retry queue -----

    /** Reads one queue item, validates its file, and tries its upload. */
    method ProcessItem(path: string) returns (ok: bool)
      requires Valid() && IsQueueEntry(path) && path in sys.queue && sys.queue[path].Item?
      requires 0 < env.maxAttempts ==> sys.queue[path].item.attempts < env.maxAttempts
      modifies this
      ensures Continued() && OnlyEntry(old(sys), sys, path)
      ensures Tried(old(sys), sys, path)
      ensures ok ==> path !in sys.queue
      ensures Healthy(old(tick), tick) ==>
                && (ok <==> Publishable(old(sys), old(sys).queue[path].item.artifact))
                && (!ok ==> AttemptsAt(sys, path) == old(sys).queue[path].item.attempts + 1)
      ensures Healthy(old(tick), tick) && Backoff.Doubles(RetryBase(), retryMax) && !ok ==>
                exists t | old(tick) <= t < tick :: Waits(sys, path, t)
      // An item that cannot be read is left for the next pass, uncounted.
      ensures io(old(tick)) != Done ==> !ok && sys.queue == old(sys).queue && sys.objects == old(sys).objects
      ensures OthersAlike(old(sys), sys, old(sys).queue[path].item.artifact.file)
      // The agreement with the object store is kept if what may be uploaded fits, and with nothing failing only then.
      ensures var a := old(sys).queue[path].item.artifact;
              RemoteAgrees(env, old(sys), a) ==>
                && (UploadsFit(env, old(sys), a) ==> RemoteAgrees(env, sys, a))
                && (Healthy(old(tick), tick) ==> (RemoteAgrees(env, sys, a) <==> UploadsFit(env, old(sys), a)))
    {
      hide Initial, IsRun, Later, Describes, FinalMatches, OnlyObjects, OnlyQueue, OnlyEntry, Chain, Backed,
           FaithfulObjects, GoodCursor, DistinctNames, IsSafeName, QueuePath, OnlySource, Publishable, IsQueueEntry,
           OthersAlike, RemoteAgrees, UploadsFit, OwnKeys;
      ghost var s0 := sys;
      ghost var a := sys.queue[path].item.artifact;
      var read := NextIo();
      SourceItem(s0, sys, path, a);
      if read != Done {
        return false;
      }
      ghost var s1 := sys;
      ok := TryItem(path);
      OnlyEntryTransitive(s0, s1, sys, path);
      OthersTransitive(s0, s1, sys, a.file);
    }

    lemma SourceItem(s: Sys, t: Sys, path: string, a: Artifact)
      requires OnlySource(s, t)
      ensures OnlyEntry(s, t, path) && t.queue == s.queue && OthersAlike(s, t, a.file)
      ensures Publishable(t, a) <==> Publishable(s, a)
      ensures RemoteAgrees(env, t, a) <==> RemoteAgrees(env, s, a)
      ensures UploadsFit(env, t, a) <==> UploadsFit(env, s, a)
    {
      hide OnlySource, OnlyEntry, OnlyQueue, Publishable, RemoteAgrees, UploadsFit, OthersAlike;
      SourcePublishable(s, t, a);
      SourceOthers(s, t, a.file);
      SourceUploads(env, s, t, a);
      SameObjects(env, s, t, a, a.file);
      SourceOnlyQueue(s, t, path);
      EntryFrame(s, t, path);
    }

    /** Validates the file of a queued upload, and tries it. */
    method TryItem(path: string) returns (ok: bool)
      requires Valid() && IsQueueEntry(path) && path in sys.queue && sys.queue[path].Item?
      requires 0 < env.maxAttempts ==> sys.queue[path].item.attempts < env.maxAttempts
      modifies this
      ensures Continued() && OnlyEntry(old(sys), sys, path)
      ensures Tried(old(sys), sys, path)
      ensures ok ==> path !in sys.queue
      ensures Healthy(old(tick), tick) ==>
                && (ok <==> Publishable(old(sys), old(sys).queue[path].item.artifact))
                && (!ok ==> AttemptsAt(sys, path) == old(sys).queue[path].item.attempts + 1)
      ensures Healthy(old(tick), tick) && Backoff.Doubles(RetryBase(), retryMax) && !ok ==>
                exists t | old(tick) <= t < tick :: Waits(sys, path, t)
      // A file that fails its validation is not uploaded, and counts one attempt.
      ensures io(old(tick)) != Done ==>
                && !ok && sys.objects == old(sys).objects
                && (Healthy(old(tick) + 1, tick) ==>
                      AttemptsAt(sys, path) == old(sys).queue[path].item.attempts + 1)
      ensures OthersAlike(old(sys), sys, old(sys).queue[path].item.artifact.file)
      // The agreement with the object store is kept if what may be uploaded fits, and with nothing failing only then.
      ensures var a := old(sys).queue[path].item.artifact;
              RemoteAgrees(env, old(sys), a) ==>
                && (UploadsFit(env, old(sys), a) ==> RemoteAgrees(env, sys, a))
                && (Healthy(old(tick), tick) ==> (RemoteAgrees(env, sys, a) <==> UploadsFit(env, old(sys), a)))
    {
      hide Initial, IsRun, Later, Describes, FinalMatches, OnlyObjects, OnlyQueue, OnlyEntry, Chain, Backed,
           FaithfulObjects, GoodCursor, DistinctNames, IsSafeName, QueuePath, OnlySource, Publishable, IsQueueEntry,
           OthersAlike, RemoteAgrees, UploadsFit, OwnKeys;
      ghost var s0 := sys;
      var item := sys.queue[path].item;
      ghost var file := item.artifact.file;
      var checked := NextIo();
      SourceItem(s0, sys, path, item.artifact);
      ghost var s1 := sys;
      if checked == Done {
        ok := UploadItem(path);
      } else {
        CountAttempt(path, item);
        SameObjects(env, s1, sys, item.artifact, file);
        ok := false;
      }
      OnlyEntryTransitive(s0, s1, sys, path);
      OthersTransitive(s0, s1, sys, file);
    }

    /** Uploads a queued file; the item goes only after its object is in place. */
    method UploadItem(path: string) returns (ok: bool)
      requires Valid() && IsQueueEntry(path) && path in sys.queue && sys.queue[path].Item?
      requires 0 < env.maxAttempts ==> sys.queue[path].item.attempts < env.maxAttempts
      modifies this
      ensures Continued() && OnlyEntry(old(sys), sys, path)
      ensures Tried(old(sys), sys, path)
      ensures ok ==> path !in sys.queue
      ensures Healthy(old(tick), tick) ==>
                && (ok <==> Publishable(old(sys), old(sys).queue[path].item.artifact))
                && (!ok ==> AttemptsAt(sys, path) == old(sys).queue[path].item.attempts + 1)
      ensures Healthy(old(tick), tick) && Backoff.Doubles(RetryBase(), retryMax) && !ok ==>
                exists t | old(tick) <= t < tick :: Waits(sys, path, t)
      ensures OthersAlike(old(sys), sys, old(sys).queue[path].item.artifact.file)
      // The agreement with the object store is kept if what may be uploaded fits, and with nothing failing only then.
      ensures var a := old(sys).queue[path].item.artifact;
              RemoteAgrees(env, old(sys), a) ==>
                && (UploadsFit(env, old(sys), a) ==> RemoteAgrees(env, sys, a))
                && (Healthy(old(tick), tick) ==> (RemoteAgrees(env, sys, a) <==> UploadsFit(env, old(sys), a)))
    {
      hide Initial, IsRun, Later, Describes, FinalMatches, OnlyObjects, OnlyQueue, OnlyEntry, Chain, Backed,
           FaithfulObjects, GoodCursor, DistinctNames, IsSafeName, QueuePath, OnlySource, Publishable, IsQueueEntry,
           OthersAlike, RemoteAgrees, UploadsFit, OwnKeys;
      ghost var s1 := sys;
      var item := sys.queue[path].item;
      ghost var file := item.artifact.file;
      assert GoodItem(env, sys, item);
      ok := Publish(item.artifact);
      ObjectsEntry(s1, sys, path);
      ghost var s2 := sys;
      if ok {
        ok := RemoveItem(path, item);
      } else {
        ghost var at := tick;
        CountAttempt(path, item);
        assert Healthy(at, tick) && Backoff.Doubles(RetryBase(), retryMax) ==> Waits(sys, path, at);
      }
      SameObjects(env, s2, sys, item.artifact, file);
      OnlyEntryTransitive(s1, s2, sys, path);
      OthersTransitive(s1, s2, sys, file);
    }

    /** Removes the item of a finished upload. */
    method RemoveItem(path: string, item: QueueItem) returns (ok: bool)
      requires Valid() && IsQueueEntry(path) && EntryAt(sys, path) == Some(Item(item))
      requires FinalMatches(sys, item.artifact)
      modifies this
      ensures Continued() && OnlyEntry(old(sys), sys, path) && FinalMatches(sys, item.artifact)
      ensures ok ==> EntryAt(sys, path).None?
      ensures EntryAt(sys, path).None? || EntryAt(sys, path) == Some(Item(item))
      ensures Healthy(old(tick), tick) ==> ok
      ensures OthersAlike(old(sys), sys, item.artifact.file) && sys.objects == old(sys).objects
    {
      hide Inv, Initial, IsRun, Later, FinalMatches, OnlyQueue, OnlyEntry, IsQueueEntry, OnlySource, OthersAlike;
      ghost var s0 := sys;
      var remove := NextIo();
      SourceOthers(s0, sys, item.artifact.file);
      SourceOnlyQueue(s0, sys, path);
      EntryFrame(s0, sys, path);
      MatchesLater(s0, sys, item.artifact);
      if remove == Failed {
        return false;
      }
      ghost var s1 := sys;
      Record(DropsItem(path), sys.(queue := sys.queue - {path}));
      DropOnlyQueue(s1, sys, path);
      QueueFrame(s1, sys, path);
      QueueOthers(s1, sys, path, item.artifact.file);
      OthersTransitive(s0, s1, sys, item.artifact.file);
      EntryFrame(s1, sys, path);
      OnlyEntryTransitive(s0, s1, sys, path);
      MatchesLater(s1, sys, item.artifact);
      ok := remove == Done;
    }

    /** Counts a failed attempt in the item's file; whether that works is not checked. */
    method CountAttempt(path: string, item: QueueItem)
      requires Valid() && IsQueueEntry(path) && path in sys.queue && sys.queue[path] == Item(item)
      requires 0 < env.maxAttempts ==> item.attempts < env.maxAttempts
      modifies this
      ensures Continued() && OnlyEntry(old(sys), sys, path) && Tried(old(sys), sys, path)
      ensures path in sys.queue && OthersAlike(old(sys), sys, item.artifact.file) && sys.objects == old(sys).objects
      ensures old(tick) < tick
      ensures Healthy(old(tick), tick) ==> AttemptsAt(sys, path) == item.attempts + 1
      ensures Healthy(old(tick), tick) && Backoff.Doubles(RetryBase(), retryMax) ==>
                && sys.queue[path].Item?
                && sys.queue[path].item.nextAttempt == NextAttempt(old(tick), item.attempts + 1)
                && Waits(sys, path, old(tick))
    {
      hide Initial, IsRun, Later, Describes, FinalMatches, OnlyQueue, OnlyEntry, Chain, Backed, FaithfulObjects,
           GoodCursor, DistinctNames, IsSafeName, QueuePath, OthersAlike;
      ghost var s0 := sys;
      var delay := Backoff.UploadRetryDelay(retryBase, retryMax, item.attempts + 1);
      var counted := item.(attempts := item.attempts + 1, nextAttempt := (clock(tick) + delay) / Backoff.SECOND);
      assert GoodItem(env, sys, item);
      var _ := InstallItem(counted);
      EntryFrame(s0, sys, path);
      QueueOthers(s0, sys, path, item.artifact.file);
      QueueFrame(s0, sys, path);
    }

    /** Tries every queued upload that is due and not given up. */
    method ProcessQueue()
      requires Valid()
      modifies this
      ensures Continued() && Later(old(sys), sys)
      ensures forall p | p in old(sys).queue && IsQueueEntry(p) ::
                old(sys).queue[p].Item? && Tried(old(sys), sys, p)
      // An item whose time has not come, or that has used up its attempts, stays as it is ...
      ensures forall p | p in old(sys).queue && IsQueueEntry(p) && old(sys).queue[p].Item? ::
                var item := old(sys).queue[p].item;
                clock(old(tick)) < item.nextAttempt * Backoff.SECOND || 0 < item.maxAttempts <= item.attempts ==>
                  EntryAt(sys, p) == EntryAt(old(sys), p)
      // ... and with nothing failing any other one is published and removed, or counts an attempt.
      ensures Healthy(old(tick), tick) && env.objectStorage && env.retry ==>
                forall p | p in old(sys).queue && IsQueueEntry(p) && old(sys).queue[p].Item? ::
                  var item := old(sys).queue[p].item;
                  item.nextAttempt * Backoff.SECOND <= clock(old(tick))
                  && (item.maxAttempts == 0 || item.attempts < item.maxAttempts) ==>
                    if Publishable(old(sys), item.artifact) then EntryAt(sys, p).None?
                    else AttemptsAt(sys, p) == item.attempts + 1
      // The same by `IsDue` and `Settled`.
      ensures forall p | p in old(sys).queue && IsQueueEntry(p) && !IsDue(old(sys), p, clock(old(tick))) ::
                EntryAt(sys, p) == EntryAt(old(sys), p)
      // With nothing failing every due entry is published if that is possible, and counts an attempt if not.
      ensures Healthy(old(tick), tick) && env.objectStorage && env.retry ==>
                AllSettled(old(sys), sys, {}, clock(old(tick)))
    {
      hide Initial, IsRun, Later, Describes, FinalMatches, OnlyEntry, Chain, Backed, FaithfulObjects,
           GoodCursor, DistinctNames, IsSafeName, QueuePath, OnlySource, Publishable, Unspoilt, AllSettled, OthersAlike;
      ghost var s0 := sys;
      LaterReflexive(s0);
      if !env.objectStorage || !env.retry {
        return;
      }
      var now := clock(tick);
      var names := sys.queue.Keys;
      ghost var from := tick;
      assert Unspoilt(s0, sys, names) && AllSettled(s0, sys, names, now) by { QueueStart(s0, now); }
      while names != {}
        invariant Continued() && Later(s0, sys)
        invariant names <= s0.queue.Keys
        invariant forall p | p in names && IsQueueEntry(p) :: EntryAt(sys, p) == EntryAt(s0, p)
        invariant forall p | p in s0.queue && IsQueueEntry(p) :: Tried(s0, sys, p)
        invariant forall p | p in s0.queue && IsQueueEntry(p) && !IsDue(s0, p, now) ::
                    EntryAt(sys, p) == EntryAt(s0, p)
        invariant Healthy(from, tick) ==> Unspoilt(s0, sys, names) && AllSettled(s0, sys, names, now)
        decreases names
      {
        var name :| name in names;
        ghost var s1 := sys;
        if IsQueueEntry(name) && IsDue(sys, name, now) {
          assert GoodItem(env, sys, sys.queue[name].item);
          var _ := ProcessItem(name);
          AfterItem(s0, s1, sys, name);
          if Healthy(from, tick) {
            UnspoiltLater(env, s0, s1, sys, names, name);
            assert Settled(s0, sys, name) by { ItemSettled(s0, s1, sys, names, name); }
          }
        } else if Healthy(from, tick) {
          UnspoiltRest(s0, sys, names, name);
        }
        if Healthy(from, tick) {
          SettledLater(s0, s1, sys, names, name, now);
        }
        names := names - {name};
      }
      if Healthy(from, tick) {
        QueueShown(s0, sys, now);
      }
    }
  }
}
