/**
 What the steps of a run leave alone: frame conditions on the protocol's state,
 and the lemmas that carry facts about it from one step to the next.
 */
module ArchiveFrames {
  import opened Common
  import opened Names
  import opened SourceText
  import opened QueueNames
  import opened Selection
  import opened ArchiveSystem
  import Backoff

  /** What no agent method but registration changes, and no method takes back. */
  ghost predicate Later(s: Sys, t: Sys) {
    && Keeps(s, t)
    && t.registered == s.registered && t.base == s.base && t.cursor == s.cursor
    && SameNames(s.history, t.history)
  }

  predicate SameNames(before: seq<LogFile>, after: seq<LogFile>) {
    |before| <= |after| && forall i | 0 <= i < |before| :: after[i].name == before[i].name
  }

  lemma LaterTransitive(s: Sys, t: Sys, u: Sys)
    requires Later(s, t) && Later(t, u)
    ensures Later(s, u)
  {
  }

  /** A log behind which another one was opened; its spool file is complete. */
  ghost predicate IsClosed(s: Sys, file: string) {
    exists i :: 0 <= i < |s.history| - 1 && s.history[i].name == file
  }

  predicate SameSpool(s: Sys, t: Sys, file: string) {
    var p := StreamSpool(file);
    (p in s.disk <==> p in t.disk) && (p in s.disk ==> t.disk[p] == s.disk[p])
  }

  /**
   What a commit leaves at the final path, if the first inspection of that path
   and the rename end as given: any error of the inspection is taken for absence.
   */
  function AfterCommit(final: Option<Bytes>, content: Bytes, inspect: Io, rename: Io): Option<Bytes> {
    if inspect == Done && final.Some? && final.value != [] then final
    else if rename == Failed then final
    else Some(content)
  }

  ghost predicate NoNewFinal(s: Sys, t: Sys) {
    forall f | HasFinal(t, f) :: HasFinal(s, f)
  }

  /** No finalized file has appeared, but perhaps the one of `file`. */
  ghost predicate NoOtherFinal(s: Sys, t: Sys, file: string) {
    forall f | f != file && HasFinal(t, f) :: HasFinal(s, f)
  }

  lemma NoFinalAtAll(s: Sys, t: Sys, file: string)
    ensures NoNewFinal(s, s)
    ensures NoNewFinal(s, t) ==> NoOtherFinal(s, t, file)
  {
  }

  lemma NewFinals(s: Sys, t: Sys, u: Sys, file: string)
    requires NoOtherFinal(s, t, file) || NoNewFinal(s, t)
    requires NoOtherFinal(t, u, file) || NoNewFinal(t, u)
    ensures NoOtherFinal(s, u, file)
    ensures NoNewFinal(s, t) && NoNewFinal(t, u) ==> NoNewFinal(s, u)
  {
  }

  /** A file of this content may be finalized: there is none yet, or one with its checksum. */
  predicate Fits(env: Env, s: Sys, file: string, content: Bytes) {
    HasFinal(s, file) ==> env.sha(s.disk[Finalized(file)]) == env.sha(content)
  }

  lemma FitsFrame(env: Env, s: Sys, t: Sys, file: string, content: Bytes, other: string)
    requires Later(s, t) || Keeps(s, t)
    requires NoNewFinal(s, t) || (file != other && NoOtherFinal(s, t, other))
    ensures Fits(env, t, file, content) <==> Fits(env, s, file, content)
    ensures HasFinal(t, file) <==> HasFinal(s, file)
  {
  }

  /** Only the source and the streaming process have moved. */
  ghost predicate OnlySource(s: Sys, t: Sys) {
    && t == s.(history := t.history, purged := t.purged, disk := t.disk)
    && SameNames(s.history, t.history)
    && (forall p | p in s.disk || p in t.disk ::
          p.StreamSpool? || (p in s.disk && p in t.disk && t.disk[p] == s.disk[p]))
    && (forall f | IsClosed(s, f) :: SameSpool(s, t, f))
  }

  lemma OnlySourceOf(s: Sys, t: Sys)
    requires DistinctNames(s.history) && SourceStep(s, t)
    ensures OnlySource(s, t)
  {
    var active := s.history[|s.history| - 1].name;
    forall f | IsClosed(s, f)
      ensures SameSpool(s, t, f)
    {
      var p := StreamSpool(f);
      assert f != active;
      assert p in s.disk || p in t.disk ==> p in s.disk.Keys + t.disk.Keys;
    }
    forall p | p in s.disk || p in t.disk
      ensures p.StreamSpool? || (p in s.disk && p in t.disk && t.disk[p] == s.disk[p])
    {
      assert p in s.disk.Keys + t.disk.Keys;
    }
  }

  lemma OnlySourceLater(s: Sys, t: Sys)
    requires OnlySource(s, t)
    ensures Later(s, t) && NoNewFinal(s, t)
  {
  }

  /** The next publish of the artifact can succeed: nothing remote contradicts it. */
  predicate Publishable(s: Sys, a: Artifact) {
    && (Final(a.file) in s.objects ==> FinalMatches(s, a))
    && SidecarsPublishable(s, a)
  }

  predicate SidecarsPublishable(s: Sys, a: Artifact) {
    && SidecarPublishable(s, FinalSum(a.file), SumFile(a.file))
    && SidecarPublishable(s, FinalManifest(a.file), ManifestFile(a.file))
  }

  /** Sidecars are compared by size only. */
  predicate SidecarPublishable(s: Sys, key: Key, path: Path) {
    path in s.disk && (key in s.objects ==> |s.objects[key].content| == |s.disk[path]|)
  }

  lemma LaterDisk(s: Sys, t: Sys)
    requires Keeps(s, t) && (t == s.(disk := t.disk) || t == s.(objects := t.objects) || t == s.(queue := t.queue))
    ensures Later(s, t)
  {
  }

  lemma ClosedStays(s: Sys, t: Sys)
    requires SameNames(s.history, t.history)
    ensures forall f | IsClosed(s, f) :: IsClosed(t, f)
  {
    forall f | IsClosed(s, f)
      ensures IsClosed(t, f)
    {
      var i :| 0 <= i < |s.history| - 1 && s.history[i].name == f;
      assert t.history[i].name == f;
    }
  }

  lemma MayCommit(env: Env, s: Sys, file: string, content: Bytes)
    requires !HasFinal(s, file) && content != []
    ensures Acts(env, s, Commits(file, content), s.(disk := s.disk[Finalized(file) := content]))
  {
  }

  /** Only objects have changed, besides what the source does. */
  ghost predicate OnlyObjects(s: Sys, t: Sys) {
    && Later(s, t) && t.queue == s.queue
    && (forall p: Path | !p.StreamSpool? :: p in s.disk <==> p in t.disk)
    && (forall p: Path | !p.StreamSpool? && p in s.disk :: t.disk[p] == s.disk[p])
    && (forall f | IsClosed(s, f) :: SameSpool(s, t, f))
  }

  lemma OnlyObjectsTransitive(s: Sys, t: Sys, u: Sys)
    requires OnlyObjects(s, t) && OnlyObjects(t, u)
    ensures OnlyObjects(s, u)
  {
    LaterTransitive(s, t, u);
    ClosedStays(s, t);
  }

  predicate Agrees(o: Object, size: nat, sum: Option<Checksum>) {
    |o.content| == size && (sum.Some? ==> o.sum == sum.value)
  }

  /** Changes of staging objects alone do not matter for publishing. */
  lemma PublishableFrame(env: Env, s: Sys, t: Sys, a: Artifact)
    requires OnlyObjects(s, t)
    requires forall k: Key | !k.Staging? :: k in t.objects <==> k in s.objects
    requires forall k: Key | !k.Staging? && k in s.objects :: t.objects[k] == s.objects[k]
    ensures Publishable(t, a) <==> Publishable(s, a)
    ensures FinalMatches(t, a) <==> FinalMatches(s, a)
    ensures Describes(env, s, a) ==> Describes(env, t, a)
    ensures HasFinal(s, a.file) ==> HasFinal(t, a.file) && t.disk[Finalized(a.file)] == s.disk[Finalized(a.file)]
    ensures OwnKeys(s, t, a.file) && SameSidecars(s, t, a)
    ensures Final(a.file) in t.objects <==> Final(a.file) in s.objects
    ensures RemoteAgrees(env, t, a) <==> RemoteAgrees(env, s, a)
  {
  }

  lemma SourcePublishable(s: Sys, t: Sys, a: Artifact)
    requires OnlySource(s, t)
    ensures Publishable(t, a) <==> Publishable(s, a)
  {
  }

  /** Nothing in the object store contradicts the artifact with the sidecars it has. */
  predicate RemoteAgrees(env: Env, s: Sys, a: Artifact) {
    && (Final(a.file) in s.objects ==> FinalMatches(s, a))
    && (FinalSum(a.file) in s.objects ==> |s.objects[FinalSum(a.file)].content| == |env.sumText(a)|)
    && (FinalManifest(a.file) in s.objects ==>
          |s.objects[FinalManifest(a.file)].content| == |env.manifestText(a)|)
  }

  lemma SidecarsInPlace(env: Env, s: Sys, t: Sys, a: Artifact)
    requires t.objects == s.objects
    requires FileOf(t, SumFile(a.file)) == Some(env.sumText(a))
    requires FileOf(t, ManifestFile(a.file)) == Some(env.manifestText(a))
    ensures Publishable(t, a) <==> RemoteAgrees(env, s, a)
    ensures RemoteAgrees(env, t, a) <==> RemoteAgrees(env, s, a)
    ensures UploadsFit(env, t, a)
  {
  }

  /** Whether artifacts of other files can be published has not changed. */
  ghost predicate OthersAlike(s: Sys, t: Sys, file: string) {
    forall a: Artifact | a.file != file :: Publishable(t, a) <==> Publishable(s, a)
  }

  lemma OthersTransitive(s: Sys, t: Sys, u: Sys, file: string)
    requires OthersAlike(s, t, file) && OthersAlike(t, u, file)
    ensures OthersAlike(s, u, file)
  {
  }

  lemma SourceOthers(s: Sys, t: Sys, file: string)
    requires OnlySource(s, t)
    ensures OthersAlike(s, t, file)
  {
    hide OnlySource, Publishable;
    forall a: Artifact
      ensures Publishable(t, a) <==> Publishable(s, a)
    {
      SourcePublishable(s, t, a);
    }
  }

  lemma QueuePublishable(s: Sys, t: Sys, path: string, a: Artifact)
    requires OnlyQueue(s, t, path)
    ensures Publishable(t, a) <==> Publishable(s, a)
  {
    assert forall p: Path | !p.StreamSpool? && p in s.disk :: t.disk[p] == s.disk[p];
  }

  lemma QueueOthers(s: Sys, t: Sys, path: string, file: string)
    requires OnlyQueue(s, t, path)
    ensures OthersAlike(s, t, file)
  {
    hide OnlyQueue, Publishable;
    forall a: Artifact
      ensures Publishable(t, a) <==> Publishable(s, a)
    {
      QueuePublishable(s, t, path, a);
    }
  }

  /** Objects have changed only among the keys of one file and the staging keys. */
  ghost predicate OwnKeys(s: Sys, t: Sys, file: string) {
    forall k: Key | !k.Staging? && k.file != file ::
      (k in t.objects <==> k in s.objects) && (k in s.objects ==> t.objects[k] == s.objects[k])
  }

  lemma ObjectsOthers(s: Sys, t: Sys, file: string)
    requires OnlyObjects(s, t) && OwnKeys(s, t, file)
    ensures OthersAlike(s, t, file)
  {
    hide Later;
  }

  /** A new sidecar object holds what the local sidecar file held. */
  ghost predicate PutFrom(s: Sys, t: Sys, key: Key, path: Path) {
    key in t.objects && key !in s.objects ==> path in s.disk && t.objects[key].content == s.disk[path]
  }

  /** What an attempt may upload of the sidecars, the manifest only behind an agreeing checksum file ... */
  ghost predicate Uploads(s: Sys, t: Sys, a: Artifact) {
    && PutFrom(s, t, FinalSum(a.file), SumFile(a.file))
    && PutFrom(s, t, FinalManifest(a.file), ManifestFile(a.file))
    && (FinalManifest(a.file) in t.objects && FinalManifest(a.file) !in s.objects ==>
          SidecarPublishable(s, FinalSum(a.file), SumFile(a.file)))
  }

  /** ... and what it does upload if nothing fails. */
  ghost predicate UploadsAll(s: Sys, t: Sys, a: Artifact) {
    && (FinalSum(a.file) in t.objects <==> FinalSum(a.file) in s.objects || SumFile(a.file) in s.disk)
    && (FinalManifest(a.file) in t.objects <==>
          || FinalManifest(a.file) in s.objects
          || (SidecarPublishable(s, FinalSum(a.file), SumFile(a.file)) && ManifestFile(a.file) in s.disk))
  }

  ghost predicate SameSidecars(s: Sys, t: Sys, a: Artifact) {
    forall k | k == FinalSum(a.file) || k == FinalManifest(a.file) ::
      (k in t.objects <==> k in s.objects) && (k in s.objects ==> t.objects[k] == s.objects[k])
  }

  /** A sidecar object is new only behind a final object that matches. */
  predicate SidecarsBehind(s: Sys, t: Sys, a: Artifact) {
    forall k | k == FinalSum(a.file) || k == FinalManifest(a.file) ::
      k in t.objects && k !in s.objects ==> FinalMatches(t, a)
  }

  lemma SameManifest(s: Sys, t: Sys, file: string)
    requires OnlyObjects(s, t)
    ensures FileOf(t, ManifestFile(file)) == FileOf(s, ManifestFile(file))
    ensures ManifestFile(file) in t.disk <==> ManifestFile(file) in s.disk
  {
  }

  lemma UploadsFrame(s: Sys, t: Sys, u: Sys, a: Artifact)
    requires OnlyObjects(s, t) && SameSidecars(s, t, a)
    ensures Uploads(s, t, a)
    ensures Uploads(t, u, a) <==> Uploads(s, u, a)
    ensures UploadsAll(t, u, a) <==> UploadsAll(s, u, a)
  {
    hide Later;
  }

  lemma UploadsThen(s: Sys, t: Sys, u: Sys, a: Artifact)
    requires SameSidecars(t, u, a)
    ensures Uploads(s, t, a) <==> Uploads(s, u, a)
    ensures UploadsAll(s, t, a) <==> UploadsAll(s, u, a)
  {
  }

  /** Whatever a publish attempt may upload of the sidecars has the size of the artifact's texts. */
  predicate UploadsFit(env: Env, s: Sys, a: Artifact) {
    && (FinalSum(a.file) !in s.objects && SumFile(a.file) in s.disk ==>
          |s.disk[SumFile(a.file)]| == |env.sumText(a)|)
    && (SidecarPublishable(s, FinalSum(a.file), SumFile(a.file))
        && FinalManifest(a.file) !in s.objects && ManifestFile(a.file) in s.disk ==>
          |s.disk[ManifestFile(a.file)]| == |env.manifestText(a)|)
  }

  /**
   An attempt keeps the agreement with the object store if what it may upload fits,
   and without failures only then.
   */
  lemma AgreementKept(env: Env, s: Sys, t: Sys, a: Artifact)
    requires Keeps(s, t) && Uploads(s, t, a) && RemoteAgrees(env, s, a)
    requires Final(a.file) in t.objects ==> FinalMatches(t, a)
    ensures UploadsFit(env, s, a) ==> RemoteAgrees(env, t, a)
    ensures UploadsAll(s, t, a) ==> (RemoteAgrees(env, t, a) <==> UploadsFit(env, s, a))
  {
  }

  lemma SameObjects(env: Env, s: Sys, t: Sys, a: Artifact, file: string)
    requires t.objects == s.objects
    ensures RemoteAgrees(env, t, a) <==> RemoteAgrees(env, s, a)
    ensures OwnKeys(s, t, file)
  {
  }

  lemma OwnKeysTransitive(s: Sys, t: Sys, u: Sys, file: string)
    requires OwnKeys(s, t, file) && OwnKeys(t, u, file)
    ensures OwnKeys(s, u, file)
  {
  }

  lemma SourceUploads(env: Env, s: Sys, t: Sys, a: Artifact)
    requires OnlySource(s, t)
    ensures t.objects == s.objects && (UploadsFit(env, t, a) <==> UploadsFit(env, s, a))
  {
  }

  /** The artifact that archiving makes of the content, as published. */
  function Planned(env: Env, choice: Choice, content: Bytes): Artifact {
    Artifact(choice.file, |content|, env.sha(content), choice.previous, choice.next, ObjectUri(choice.file))
  }

  /** What the finalized file holds, or would hold after committing the content. */
  function Kept(s: Sys, file: string, content: Bytes): Bytes {
    if HasFinal(s, file) then s.disk[Finalized(file)] else content
  }

  /** Archiving the content can succeed: it fits, and its upload succeeds or may fail. */
  predicate Storable(env: Env, s: Sys, choice: Choice, content: Bytes) {
    && Fits(env, s, choice.file, content)
    && (env.objectStorage && !env.retry ==>
          RemoteAgrees(env, s, Planned(env, choice, Kept(s, choice.file, content))))
  }

  /** Committing the content, or failing to, leaves that alone. */
  lemma StorableCommitted(env: Env, s: Sys, t: Sys, choice: Choice, content: Bytes)
    requires Keeps(s, t) && t.objects == s.objects
    requires !HasFinal(s, choice.file) && HasFinal(t, choice.file) ==> t.disk[Finalized(choice.file)] == content
    ensures Kept(t, choice.file, content) == Kept(s, choice.file, content)
    ensures Storable(env, t, choice, content) <==> Storable(env, s, choice, content)
  {
    SameObjects(env, s, t, Planned(env, choice, Kept(s, choice.file, content)), choice.file);
  }

  /** So does finalizing it. */
  lemma StorableFinalized(env: Env, s: Sys, t: Sys, choice: Choice, content: Bytes)
    requires Keeps(s, t) && NoNewFinal(s, t)
    requires var a := Planned(env, choice, Kept(s, choice.file, content));
             RemoteAgrees(env, s, a) ==> RemoteAgrees(env, t, a)
    ensures Storable(env, s, choice, content) ==> Storable(env, t, choice, content)
  {
    FitsFrame(env, s, t, choice.file, content, choice.file);
  }

  /** The sidecar files next to an archived file hold the texts of the artifact as it is to be published. */
  predicate HasSidecars(env: Env, s: Sys, a: Artifact) {
    var described := if env.objectStorage then a.(uri := ObjectUri(a.file)) else a;
    && FileOf(s, SumFile(a.file)) == Some(env.sumText(described))
    && FileOf(s, ManifestFile(a.file)) == Some(env.manifestText(described))
  }

  /** The sidecar files of a log are as they were. */
  predicate SameTexts(s: Sys, t: Sys, file: string) {
    && FileOf(t, SumFile(file)) == FileOf(s, SumFile(file))
    && FileOf(t, ManifestFile(file)) == FileOf(s, ManifestFile(file))
  }

  lemma SourceTexts(s: Sys, t: Sys)
    requires OnlySource(s, t) || OnlyObjects(s, t) || exists path :: OnlyQueue(s, t, path)
    ensures forall f :: SameTexts(s, t, f)
  {
  }

  lemma TextsTransitive(s: Sys, t: Sys, u: Sys, file: string)
    requires (forall f | f != file :: SameTexts(s, t, f)) && forall f | f != file :: SameTexts(t, u, f)
    ensures forall f | f != file :: SameTexts(s, u, f)
  {
    forall f | f != file
      ensures SameTexts(s, u, f)
    {
      assert SameTexts(s, t, f) && SameTexts(t, u, f);
    }
  }

  lemma SidecarsStay(env: Env, s: Sys, t: Sys, a: Artifact)
    requires HasSidecars(env, s, a) && SameTexts(s, t, a.file)
    ensures HasSidecars(env, t, a)
  {
  }

  /** Nothing has happened to archived files with their sidecars, objects, or the spools of closed logs. */
  ghost predicate Unmoved(s: Sys, t: Sys) {
    && Keeps(s, t) && NoNewFinal(s, t) && t.objects == s.objects && SameNames(s.history, t.history)
    && (forall f :: SameTexts(s, t, f))
    && forall f | IsClosed(s, f) :: SameSpool(s, t, f)
  }

  /** Nothing of that has happened to any file but this one. */
  ghost predicate Apart(s: Sys, t: Sys, file: string) {
    && Keeps(s, t) && NoOtherFinal(s, t, file) && OwnKeys(s, t, file) && SameNames(s.history, t.history)
    && (forall f | f != file :: SameTexts(s, t, f))
    && forall f | f != file && IsClosed(s, f) :: SameSpool(s, t, f)
  }

  lemma UnmovedReflexive(s: Sys)
    ensures Unmoved(s, s)
  {
  }

  lemma NothingMoves(s: Sys)
    ensures OnlySource(s, s) && Later(s, s)
  {
  }

  lemma SourceUnmoved(s: Sys, t: Sys)
    requires OnlySource(s, t)
    ensures Unmoved(s, t)
  {
    OnlySourceLater(s, t);
  }

  lemma UnmovedParts(s: Sys, t: Sys)
    requires Unmoved(s, t)
    ensures Keeps(s, t) && NoNewFinal(s, t) && t.objects == s.objects && SameNames(s.history, t.history)
    ensures forall f :: SameTexts(s, t, f)
  {
  }

  /** Taking away the spool of one file, or moving it. */
  lemma SpoolApart(s: Sys, t: Sys, file: string)
    requires Keeps(s, t) && t == s.(disk := t.disk)
    requires forall p: Path | p != StreamSpool(file) && !p.Quarantined? ::
               (p in t.disk <==> p in s.disk) && (p in s.disk ==> t.disk[p] == s.disk[p])
    ensures Apart(s, t, file) && NoNewFinal(s, t)
  {
  }

  lemma FinalUnchanged(s: Sys, t: Sys, file: string)
    requires Keeps(s, t) && NoNewFinal(s, t)
    ensures HasFinal(t, file) <==> HasFinal(s, file)
    ensures HasFinal(s, file) ==> t.disk[Finalized(file)] == s.disk[Finalized(file)]
  {
  }

  /** The server's affairs. */
  lemma ServerUnmoved(s: Sys, t: Sys)
    requires Keeps(s, t)
    requires t.disk == s.disk && t.objects == s.objects && t.history == s.history
    ensures Unmoved(s, t)
  {
  }

  lemma UnmovedSpools(s: Sys, t: Sys)
    requires Unmoved(s, t)
    ensures forall f | IsClosed(s, f) :: SameSpool(s, t, f)
  {
  }

  lemma UnmovedTransitive(s: Sys, t: Sys, u: Sys)
    requires Unmoved(s, t) && Unmoved(t, u)
    ensures Unmoved(s, u)
  {
    hide HasFinal, SameTexts;
    KeepsTransitive(s, t, u);
    forall f
      ensures SameTexts(s, u, f)
    {
      TextsChain(s, t, u, f);
    }
    ClosedStays(s, t);
  }

  lemma TextsShown(s: Sys, t: Sys, file: string)
    requires SameTexts(s, t, file)
    ensures FileOf(t, SumFile(file)) == FileOf(s, SumFile(file))
    ensures FileOf(t, ManifestFile(file)) == FileOf(s, ManifestFile(file))
  {
  }

  lemma TextsChain(s: Sys, t: Sys, u: Sys, file: string)
    requires SameTexts(s, t, file) && SameTexts(t, u, file)
    ensures SameTexts(s, u, file)
  {
  }

  lemma UnmovedApart(s: Sys, t: Sys, file: string)
    requires Unmoved(s, t)
    ensures Apart(s, t, file)
  {
    hide Keeps, HasFinal;
  }

  lemma ApartTransitive(s: Sys, t: Sys, u: Sys, file: string)
    requires Apart(s, t, file) && Apart(t, u, file)
    ensures Apart(s, u, file)
  {
    hide HasFinal, SameTexts;
    KeepsTransitive(s, t, u);
    OwnKeysTransitive(s, t, u, file);
    TextsTransitive(s, t, u, file);
    ClosedStays(s, t);
  }

  lemma LaterUnmoved(s: Sys, t: Sys)
    requires Later(s, t) && NoNewFinal(s, t) && t.objects == s.objects
    requires forall f :: SameTexts(s, t, f)
    requires forall f | IsClosed(s, f) :: SameSpool(s, t, f)
    ensures Unmoved(s, t)
  {
  }

  lemma LaterApart(s: Sys, t: Sys, file: string)
    requires Later(s, t) && OwnKeys(s, t, file) && (NoNewFinal(s, t) || NoOtherFinal(s, t, file))
    requires forall f | f != file :: SameTexts(s, t, f)
    requires forall f | IsClosed(s, f) :: SameSpool(s, t, f)
    ensures Apart(s, t, file)
  {
    hide HasFinal, OwnKeys;
  }

  /** What has not been moved can be archived as before; so can what another file's archiving left apart. */
  lemma StorableApart(env: Env, s: Sys, t: Sys, choice: Choice, content: Bytes, other: string)
    requires Unmoved(s, t) || (choice.file != other && Apart(s, t, other))
    ensures Storable(env, t, choice, content) <==> Storable(env, s, choice, content)
  {
    FitsFrame(env, s, t, choice.file, content, other);
    var a := Planned(env, choice, Kept(s, choice.file, content));
    if Unmoved(s, t) {
      SameObjects(env, s, t, a, choice.file);
    } else {
      OtherAgreement(env, s, t, a, other);
    }
  }

  lemma OtherAgreement(env: Env, s: Sys, t: Sys, a: Artifact, other: string)
    requires a.file != other && OwnKeys(s, t, other)
    ensures RemoteAgrees(env, t, a) <==> RemoteAgrees(env, s, a)
  {
  }

  lemma AgreementParts(env: Env, s: Sys, a: Artifact)
    ensures RemoteAgrees(env, s, a) ==> (Final(a.file) in s.objects ==> FinalMatches(s, a))
    ensures Publishable(s, a) ==> (Final(a.file) in s.objects ==> FinalMatches(s, a))
  {
  }

  /** Once the object store disagrees with an artifact it always will. */
  lemma DisagreementStays(env: Env, s: Sys, t: Sys, a: Artifact)
    requires Keeps(s, t) && !RemoteAgrees(env, s, a)
    ensures !RemoteAgrees(env, t, a)
  {
  }

  ghost predicate SameStaging(s: Sys, t: Sys) {
    forall k: Key | k.Staging? :: k in t.objects <==> k in s.objects
  }

  lemma OnlyObjectsReflexive(s: Sys)
    ensures OnlyObjects(s, s)
  {
  }

  /** A change of one object leaves the publishing conditions on the others alone. */
  lemma PartsFrame(s: Sys, t: Sys, key: Key, a: Artifact)
    requires OnlyObjects(s, t)
    requires forall k: Key | k != key :: k in t.objects <==> k in s.objects
    requires forall k: Key | k != key && k in s.objects :: t.objects[k] == s.objects[k]
    ensures key != Final(a.file) ==>
              && (FinalMatches(t, a) <==> FinalMatches(s, a))
              && (Final(a.file) in t.objects <==> Final(a.file) in s.objects)
    ensures key != FinalSum(a.file) ==>
              && (FinalSum(a.file) in t.objects <==> FinalSum(a.file) in s.objects)
              && (SidecarPublishable(t, FinalSum(a.file), SumFile(a.file)) <==>
                  SidecarPublishable(s, FinalSum(a.file), SumFile(a.file)))
    ensures key != FinalManifest(a.file) ==>
              && (FinalManifest(a.file) in t.objects <==> FinalManifest(a.file) in s.objects)
              && (SidecarPublishable(t, FinalManifest(a.file), ManifestFile(a.file)) <==>
                  SidecarPublishable(s, FinalManifest(a.file), ManifestFile(a.file)))
    ensures key == Final(a.file) ==> (SidecarsPublishable(t, a) <==> SidecarsPublishable(s, a))
  {
  }

  function FileOf(s: Sys, path: Path): Option<Bytes> {
    if path in s.disk then Some(s.disk[path]) else None
  }

  function EntryAt(s: Sys, path: string): Option<QueueEntry> {
    if path in s.queue then Some(s.queue[path]) else None
  }

  /** Failed attempts recorded in the queue entry at a path, if there is one. */
  function AttemptsAt(s: Sys, path: string): nat {
    if path in s.queue && s.queue[path].Item? then s.queue[path].item.attempts else 0
  }

  /** The count that re-enqueueing starts from: an item that cannot be read counts as none. */
  function KnownAttempts(s: Sys, path: string, read: Io): nat {
    if read == Done then AttemptsAt(s, path) else 0
  }

  /** Only the queue has changed, besides what the source does: at one path and at temporary files. */
  ghost predicate OnlyQueue(s: Sys, t: Sys, path: string) {
    && Later(s, t) && t.objects == s.objects
    && (forall p: Path | !p.StreamSpool? :: p in s.disk <==> p in t.disk)
    && (forall p: Path | !p.StreamSpool? && p in s.disk :: t.disk[p] == s.disk[p])
    && (forall f | IsClosed(s, f) :: SameSpool(s, t, f))
    && (forall p | p != path && IsQueueEntry(p) :: p in t.queue <==> p in s.queue)
    && (forall p | p != path && IsQueueEntry(p) && p in s.queue :: t.queue[p] == s.queue[p])
  }

  lemma OnlyQueueTransitive(s: Sys, t: Sys, u: Sys, path: string)
    requires OnlyQueue(s, t, path) && OnlyQueue(t, u, path)
    ensures OnlyQueue(s, u, path)
  {
    LaterTransitive(s, t, u);
    ClosedStays(s, t);
  }

  lemma SourceOnlyQueue(s: Sys, t: Sys, path: string)
    requires OnlySource(s, t)
    ensures OnlyQueue(s, t, path) && t.queue == s.queue
  {
    OnlySourceLater(s, t);
  }

  lemma TmpOnlyQueue(s: Sys, t: Sys, tmp: string, path: string, entry: QueueEntry)
    requires Keeps(s, t) && t == s.(queue := s.queue[tmp := entry]) && !IsQueueEntry(tmp) && IsQueueEntry(path)
    ensures OnlyQueue(s, t, path) && EntryAt(t, path) == EntryAt(s, path)
  {
    LaterDisk(s, t);
  }

  lemma InstallOnlyQueue(s: Sys, t: Sys, tmp: string, path: string, item: QueueItem)
    requires Keeps(s, t) && t == s.(queue := (s.queue - {tmp})[path := Item(item)]) && !IsQueueEntry(tmp)
    ensures OnlyQueue(s, t, path) && EntryAt(t, path) == Some(Item(item))
  {
    LaterDisk(s, t);
  }

  /** Removing an entry, once its object is in place. */
  lemma DropOnlyQueue(s: Sys, t: Sys, path: string)
    requires Keeps(s, t) && t == s.(queue := s.queue - {path})
    ensures OnlyQueue(s, t, path) && EntryAt(t, path).None?
  {
    LaterDisk(s, t);
  }

  lemma DescribesLater(env: Env, s: Sys, t: Sys, a: Artifact)
    requires Later(s, t) && Describes(env, s, a)
    ensures Describes(env, t, a)
  {
    DescribesKept(env, s, t, a);
  }

  lemma GoodItemLater(env: Env, s: Sys, t: Sys, item: QueueItem)
    requires (exists path :: OnlyQueue(s, t, path)) && GoodItem(env, s, item)
    ensures GoodItem(env, t, item)
  {
    DescribesKept(env, s, t, item.artifact);
  }

  lemma ClosedSpools(s: Sys, t: Sys, u: Sys)
    requires Later(s, t)
    requires forall f | IsClosed(s, f) :: SameSpool(s, t, f)
    requires forall f | IsClosed(t, f) :: SameSpool(t, u, f)
    ensures forall f | IsClosed(s, f) :: SameSpool(s, u, f)
  {
    ClosedStays(s, t);
  }

  lemma ObjectsFrame(s: Sys, t: Sys)
    requires OnlyObjects(s, t)
    ensures Later(s, t) && NoNewFinal(s, t) && forall f | IsClosed(s, f) :: SameSpool(s, t, f)
  {
  }

  lemma QueueFrame(s: Sys, t: Sys, path: string)
    requires OnlyQueue(s, t, path)
    ensures Later(s, t) && NoNewFinal(s, t) && t.objects == s.objects
    ensures forall f | IsClosed(s, f) :: SameSpool(s, t, f)
  {
  }

  /** Artifacts that differ in their URI only are as good as one another. */
  lemma SameArtifact(env: Env, s: Sys, a: Artifact, b: Artifact)
    requires b == a.(uri := b.uri)
    ensures Describes(env, s, a) <==> Describes(env, s, b)
    ensures FinalMatches(s, a) <==> FinalMatches(s, b)
    ensures Queued(env, s, a) <==> Queued(env, s, b)
  {
  }

  lemma FinalKept(s: Sys, t: Sys, file: string)
    requires Later(s, t) && HasFinal(s, file)
    ensures HasFinal(t, file) && t.disk[Finalized(file)] == s.disk[Finalized(file)]
  {
  }

  lemma LaterReflexive(s: Sys)
    ensures Later(s, s) && forall f :: SameSpool(s, s, f)
  {
  }

  lemma SpoolStays(s: Sys, t: Sys, file: string)
    requires OnlySource(s, t) && IsClosed(s, file)
    ensures SameSpool(s, t, file) && IsClosed(t, file)
  {
    ClosedStays(s, t);
  }

  lemma SourceKeeps(s: Sys, t: Sys, file: string)
    requires OnlySource(s, t)
    ensures HasFinal(s, file) <==> HasFinal(t, file)
    ensures IsClosed(s, file) ==> IsClosed(t, file)
  {
    ClosedStays(s, t);
  }

  lemma LaterClosed(s: Sys, t: Sys, file: string)
    requires Later(s, t) && IsClosed(s, file)
    ensures IsClosed(t, file)
  {
    ClosedStays(s, t);
  }

  /** An archived artifact stays archived while only the source moves. */
  lemma ArchivedLater(env: Env, s: Sys, t: Sys, a: Artifact)
    requires OnlySource(s, t) && Describes(env, s, a) && Stored(env, s, a)
    ensures Describes(env, t, a) && Stored(env, t, a)
    ensures FinalMatches(s, a) <==> FinalMatches(t, a)
    ensures t.disk[Finalized(a.file)] == s.disk[Finalized(a.file)]
  {
  }

  lemma ArchivedDisk(env: Env, s: Sys, t: Sys, a: Artifact)
    requires Keeps(s, t) && t == s.(disk := t.disk) && Describes(env, s, a) && Stored(env, s, a)
    ensures Describes(env, t, a) && Stored(env, t, a)
    ensures FinalMatches(s, a) <==> FinalMatches(t, a)
    ensures t.disk[Finalized(a.file)] == s.disk[Finalized(a.file)]
  {
  }

  lemma KeepsTransitive(s: Sys, t: Sys, u: Sys)
    requires Keeps(s, t) && Keeps(t, u)
    ensures Keeps(s, u)
  {
  }

  lemma NextLater(s: Sys, t: Sys, a: Artifact, i: nat)
    requires Later(s, t) && NextToRegister(s, a, i)
    ensures NextToRegister(t, a, i)
  {
  }

  /** The name that a round continues from: the last registered log, or else the cursor. */
  function LastArchived(s: Sys): string {
    if s.registered == [] then s.cursor else s.registered[|s.registered| - 1].file
  }

  predicate LastIs(s: Sys, name: string) {
    s.registered != [] && s.registered[|s.registered| - 1].file == name
  }

  lemma KeepsReflexive(s: Sys)
    ensures Keeps(s, s)
  {
  }

  lemma LaterParts(s: Sys, t: Sys)
    requires Later(s, t)
    ensures Keeps(s, t) && t.registered == s.registered && t.base == s.base && t.cursor == s.cursor
    ensures LastArchived(t) == LastArchived(s)
  {
  }

  lemma {:induction false} SafeNotTrimmed(s: string)
    requires AllSafe(s)
    ensures TrimSpace(s) == s
  {
    assert TrimLeft(s) == s && TrimRight(s) == s;
  }

  /** The server's names carry no white space, so trimming them changes nothing. */
  lemma TrimmedCursor(env: Env, s: Sys)
    requires Inv(env, s)
    ensures TrimSpace(LastArchived(s)) == LastArchived(s)
  {
    hide Chain, FaithfulObjects, GoodQueue, DistinctNames, Describes, Stored, TrimSpace;
    if s.registered == [] {
      assert s.cursor == "";
    } else {
      assert IsSafeName(s.registered[|s.registered| - 1].file);
    }
    SafeNotTrimmed(LastArchived(s));
  }

  /** The artifacts are of consecutive logs of the listing, from position `start` on. */
  predicate InOrder(taken: seq<Artifact>, listing: seq<LogFile>, start: nat) {
    && start + |taken| <= |listing|
    && forall j | 0 <= j < |taken| :: taken[j].file == listing[start + j].name
  }

  /** `k` logs from position `start` of the listing on have been registered since `s`. */
  predicate Progress(s: Sys, t: Sys, listing: seq<LogFile>, start: nat, k: nat) {
    && SameNames(s.history, t.history)
    && s.purged < |s.history| && listing == s.history[s.purged..] && start + k <= |listing|
    && |t.registered| == |s.registered| + k && s.registered <= t.registered
    && InOrder(t.registered[|s.registered|..], listing, start)
    && (t.registered != [] ==>
          && 0 < start + k
          && t.base + |t.registered| == s.purged + start + k
          && LastIs(t, listing[start + k - 1].name))
  }

  lemma ProgressStart(env: Env, s: Sys, listing: seq<LogFile>, start: nat, maxFiles: int)
    requires Inv(env, s) && listing == s.history[s.purged..] && StartOf(listing, LastArchived(s)) == Some(start)
    ensures Progress(s, s, listing, start, 0)
  {
    hide Backed, FaithfulObjects, GoodQueue, Describes, Stored;
    if s.registered != [] {
      var i := s.base + |s.registered| - 1;
      assert s.registered[|s.registered| - 1].file == s.history[i].name == listing[start - 1].name;
      assert listing[start - 1] == s.history[s.purged + start - 1];
    }
  }

  lemma NextInLine(s: Sys, t: Sys, listing: seq<LogFile>, start: nat, maxFiles: int, k: nat)
    requires Progress(s, t, listing, start, k) && k < BatchSize(listing, start, maxFiles, false)
    ensures start + k + 1 < |listing|
    ensures InLine(t, ChoiceAt(listing, start + k), s.purged + start + k)
  {
    assert listing[start + k] == s.history[s.purged + start + k];
    assert listing[start + k + 1] == s.history[s.purged + start + k + 1];
  }

  lemma ProgressStays(s: Sys, t: Sys, u: Sys, listing: seq<LogFile>, start: nat, k: nat)
    requires Progress(s, t, listing, start, k) && SameNames(t.history, u.history)
    requires u.registered == t.registered && u.base == t.base
    ensures Progress(s, u, listing, start, k)
  {
  }

  lemma ProgressStep(s: Sys, t: Sys, u: Sys, listing: seq<LogFile>, start: nat, k: nat)
    requires Progress(s, t, listing, start, k) && start + k < |listing| && SameNames(t.history, u.history)
    requires OneMore(t, u, listing[start + k].name, s.purged + start + k)
    ensures Progress(s, u, listing, start, k + 1)
  {
    var before, after := t.registered[|s.registered|..], u.registered[|s.registered|..];
    assert after == before + [u.registered[|t.registered|]];
  }

  lemma ProgressShows(s: Sys, t: Sys, listing: seq<LogFile>, start: nat, k: nat)
    requires Progress(s, t, listing, start, k)
    ensures |t.registered| == |s.registered| + k && s.registered <= t.registered
    ensures InOrder(t.registered[|s.registered|..], listing, start)
    ensures 0 < k ==> 0 < start + k <= |listing| && LastIs(t, listing[start + k - 1].name)
  {
  }

  /** The first log registered since `s` is the first listed one, or the one behind the log registered last. */
  predicate TakesUp(s: Sys, t: Sys, listing: seq<LogFile>) {
    |s.registered| < |t.registered| ==>
      && (s.registered == [] && s.cursor == "" ==>
            && listing != [] && t.registered[0].file == listing[0].name
            && t.base < |t.history| && t.history[t.base].name == listing[0].name)
      && forall i | 0 <= i < |listing| && LastIs(s, listing[i].name) ::
           i + 1 < |listing| && t.registered[|s.registered|].file == listing[i + 1].name
  }

  lemma FirstTaken(env: Env, s: Sys, t: Sys, listing: seq<LogFile>, start: nat)
    requires Inv(env, t) && DistinctNames(listing) && StartOf(listing, LastArchived(s)) == Some(start)
    requires |s.registered| <= |t.registered| && InOrder(t.registered[|s.registered|..], listing, start)
    ensures TakesUp(s, t, listing)
  {
    hide Backed, FaithfulObjects, GoodQueue, GoodCursor;
    StartExact(listing, LastArchived(s));
    if |s.registered| < |t.registered| {
      assert t.registered[|s.registered|] == t.registered[|s.registered|..][0];
    }
  }

  /** The logs registered since `s` have their sidecar files. */
  predicate SidecarsSince(env: Env, s: Sys, t: Sys) {
    forall j | |s.registered| <= j < |t.registered| :: HasSidecars(env, t, t.registered[j])
  }

  lemma NothingSince(env: Env, s: Sys, t: Sys, listing: seq<LogFile>)
    requires t.registered == s.registered
    ensures SidecarsSince(env, s, t) && TakesUp(s, t, listing)
  {
  }

  lemma SidecarsFrom(env: Env, s: Sys, t: Sys, u: Sys)
    requires t.registered == s.registered && SidecarsSince(env, t, u)
    ensures SidecarsSince(env, s, u)
  {
  }

  lemma SidecarsUnmoved(env: Env, s: Sys, t: Sys, u: Sys)
    requires SidecarsSince(env, s, t) && Unmoved(t, u) && u.registered == t.registered
    ensures SidecarsSince(env, s, u)
  {
    hide HasSidecars, SameTexts, Keeps, NoNewFinal;
    forall j | |s.registered| <= j < |u.registered|
      ensures HasSidecars(env, u, u.registered[j])
    {
      SidecarsStay(env, t, u, t.registered[j]);
    }
  }

  /** Archiving and registering the next log leaves the sidecar files of the logs before it alone. */
  lemma SidecarsStep(env: Env, s: Sys, t: Sys, u: Sys, listing: seq<LogFile>, start: nat, k: nat)
    requires Progress(s, t, listing, start, k) && SidecarsSince(env, s, t) && DistinctNames(listing)
    requires start + k < |listing| && Apart(t, u, listing[start + k].name)
    requires u.registered == t.registered || (u.registered == t.registered + [u.registered[|t.registered|]]
                                              && HasSidecars(env, u, u.registered[|t.registered|]))
    ensures SidecarsSince(env, s, u)
  {
    hide HasSidecars, SameTexts, Keeps, NoOtherFinal, OwnKeys;
    forall j | |s.registered| <= j < |t.registered|
      ensures HasSidecars(env, u, u.registered[j])
    {
      var i := j - |s.registered|;
      assert t.registered[j] == t.registered[|s.registered|..][i];
      assert t.registered[j].file == listing[start + i].name != listing[start + k].name;
      SidecarsStay(env, t, u, t.registered[j]);
    }
  }

  /** The entry can be read, its time has come, and it has attempts left. */
  predicate IsDue(s: Sys, path: string, now: int) {
    && path in s.queue && s.queue[path].Item?
    && var item := s.queue[path].item;
    && item.nextAttempt * Backoff.SECOND <= now
    && (item.maxAttempts == 0 || item.attempts < item.maxAttempts)
  }

  /** What one pass over the queue may do to an entry: count one failure, or publish and remove it. */
  ghost predicate Tried(s: Sys, t: Sys, path: string) {
    EntryAt(s, path).Some? && EntryAt(s, path).value.Item? ==>
      var item := EntryAt(s, path).value.item;
      match EntryAt(t, path)
      case None => FinalMatches(t, item.artifact)
      case Some(e) =>
        && e.Item? && e.item.artifact == item.artifact && e.item.maxAttempts == item.maxAttempts
        && item.attempts <= e.item.attempts <= item.attempts + 1
  }

  /** What a pass without failures does to an entry that is due: publish it, or count a failed attempt. */
  ghost predicate Settled(s: Sys, t: Sys, path: string) {
    EntryAt(s, path).Some? && EntryAt(s, path).value.Item? ==>
      var item := EntryAt(s, path).value.item;
      if Publishable(s, item.artifact) then EntryAt(t, path).None?
      else AttemptsAt(t, path) == item.attempts + 1
  }

  /** Different queue entries belong to different files. */
  lemma EntriesDiffer(env: Env, s: Sys, p: string, q: string)
    requires Inv(env, s) && p != q && IsQueueEntry(p) && IsQueueEntry(q) && p in s.queue && q in s.queue
    ensures s.queue[p].Item? && s.queue[q].Item?
    ensures s.queue[p].item.artifact.file != s.queue[q].item.artifact.file
  {
    hide Chain, Backed, FaithfulObjects, GoodCursor, DistinctNames, QueueFile, IsQueueEntry, IsSafeName;
  }

  /** The entries still to be visited can be published exactly if they could at the start of the pass. */
  ghost predicate Unspoilt(s: Sys, t: Sys, names: set<string>) {
    forall p | p in names && IsQueueEntry(p) && p in s.queue && s.queue[p].Item? ::
      Publishable(t, s.queue[p].item.artifact) <==> Publishable(s, s.queue[p].item.artifact)
  }

  lemma UnspoiltLater(env: Env, s: Sys, t: Sys, u: Sys, names: set<string>, path: string)
    requires Unspoilt(s, t, names) && Inv(env, s) && names <= s.queue.Keys && path in names && IsQueueEntry(path)
    requires s.queue[path].Item? && OthersAlike(t, u, s.queue[path].item.artifact.file)
    ensures Unspoilt(s, u, names - {path})
  {
    hide Inv, Publishable, IsQueueEntry;
    forall p | p in names - {path} && IsQueueEntry(p) && p in s.queue && s.queue[p].Item?
      ensures Publishable(u, s.queue[p].item.artifact) <==> Publishable(s, s.queue[p].item.artifact)
    {
      EntriesDiffer(env, s, p, path);
    }
  }

  /** Every due entry that has been visited is settled. */
  ghost predicate AllSettled(s: Sys, t: Sys, names: set<string>, now: int) {
    forall p | p in s.queue && IsQueueEntry(p) && IsDue(s, p, now) && p !in names :: Settled(s, t, p)
  }

  lemma QueueShown(s: Sys, t: Sys, now: int)
    requires AllSettled(s, t, {}, now)
    ensures forall p | p in s.queue && IsQueueEntry(p) && s.queue[p].Item? ::
              var item := s.queue[p].item;
              item.nextAttempt * Backoff.SECOND <= now
              && (item.maxAttempts == 0 || item.attempts < item.maxAttempts) ==>
                if Publishable(s, item.artifact) then EntryAt(t, p).None? else AttemptsAt(t, p) == item.attempts + 1
  {
    hide Publishable, IsQueueEntry;
    forall p | p in s.queue && IsQueueEntry(p) && IsDue(s, p, now)
      ensures Settled(s, t, p)
    {
    }
  }

  lemma QueueStart(s: Sys, now: int)
    ensures Unspoilt(s, s, s.queue.Keys) && AllSettled(s, s, s.queue.Keys, now)
  {
  }

  lemma UnspoiltRest(s: Sys, t: Sys, names: set<string>, path: string)
    requires Unspoilt(s, t, names)
    ensures Unspoilt(s, t, names - {path})
  {
  }

  /** The outcome for one entry, told in terms of the state at the start of the pass. */
  lemma ItemSettled(s: Sys, t: Sys, u: Sys, names: set<string>, path: string)
    requires Unspoilt(s, t, names) && path in names && IsQueueEntry(path)
    requires EntryAt(t, path) == EntryAt(s, path) && Settled(t, u, path)
    ensures Settled(s, u, path)
  {
    hide IsQueueEntry, Publishable;
  }

  lemma SettledLater(s: Sys, t: Sys, u: Sys, names: set<string>, path: string, now: int)
    requires AllSettled(s, t, names, now) && path in names
    requires OnlyEntry(t, u, path) || u == t
    requires IsQueueEntry(path) && IsDue(s, path, now) ==> Settled(s, u, path)
    ensures AllSettled(s, u, names - {path}, now)
  {
    hide IsQueueEntry, Publishable, Later, IsDue;
    forall p | p in s.queue && IsQueueEntry(p) && IsDue(s, p, now) && p !in names - {path}
      ensures Settled(s, u, p)
    {
      assert p != path ==> Settled(s, t, p) && EntryAt(u, p) == EntryAt(t, p);
    }
  }

  /** No other queue entry has changed. */
  ghost predicate OnlyEntry(s: Sys, t: Sys, path: string) {
    && Later(s, t)
    && forall p | p != path && IsQueueEntry(p) :: EntryAt(t, p) == EntryAt(s, p)
  }

  lemma OnlyEntryTransitive(s: Sys, t: Sys, u: Sys, path: string)
    requires OnlyEntry(s, t, path) && OnlyEntry(t, u, path)
    ensures OnlyEntry(s, u, path)
  {
    LaterTransitive(s, t, u);
  }

  lemma EntryFrame(s: Sys, t: Sys, path: string)
    requires OnlyQueue(s, t, path)
    ensures OnlyEntry(s, t, path)
  {
  }

  lemma ObjectsEntry(s: Sys, t: Sys, path: string)
    requires OnlyObjects(s, t)
    ensures OnlyEntry(s, t, path) && t.queue == s.queue
  {
  }

  lemma MatchesLater(s: Sys, t: Sys, a: Artifact)
    requires (exists path :: OnlyQueue(s, t, path) || OnlyEntry(s, t, path)) && FinalMatches(s, a)
    ensures FinalMatches(t, a)
  {
  }

  /** Working on one entry leaves what was settled about the others. */
  lemma AfterItem(s: Sys, t: Sys, u: Sys, path: string)
    requires Later(s, t) && OnlyEntry(t, u, path) && Tried(t, u, path) && EntryAt(t, path) == EntryAt(s, path)
    ensures Later(s, u) && Tried(s, u, path)
    ensures forall p | p != path && IsQueueEntry(p) :: EntryAt(u, p) == EntryAt(t, p)
    ensures forall p | p != path && IsQueueEntry(p) && Tried(s, t, p) :: Tried(s, u, p)
  {
    LaterTransitive(s, t, u);
  }

  datatype RoundError =
    | ListFailed | NotSelected(cause: SelectError) | ArchiveFailed | RegisterFailed | CheckpointFailed

  /** The choice is the closed log at `index`, next to register, with its neighbours' names. */
  predicate InLine(s: Sys, choice: Choice, index: nat) {
    && index + 1 < |s.history|
    && s.history[index].name == choice.file && s.history[index + 1].name == choice.next
    && (s.registered != [] ==>
          index == s.base + |s.registered| && choice.previous == s.registered[|s.registered| - 1].file)
  }

  lemma InLineClosed(s: Sys, choice: Choice, index: nat)
    requires InLine(s, choice, index)
    ensures IsClosed(s, choice.file)
  {
  }

  lemma InLineNext(s: Sys, t: Sys, choice: Choice, index: nat, a: Artifact)
    requires InLine(s, choice, index) && Later(s, t)
    requires a.file == choice.file && a.previous == choice.previous && a.next == choice.next
    ensures NextToRegister(t, a, index)
  {
  }

  /** The choices are the logs of the listing from position `start` on. */
  predicate Chosen(choices: seq<Choice>, listing: seq<LogFile>, start: nat) {
    && start + |choices| <= |listing|
    && forall k | 0 <= k < |choices| :: choices[k] == ChoiceAt(listing, start + k)
  }

  lemma ChosenAt(choices: seq<Choice>, listing: seq<LogFile>, start: nat, k: nat)
    requires Chosen(choices, listing, start) && k < |choices|
    ensures start + k < |listing| && choices[k] == ChoiceAt(listing, start + k)
    ensures choices[k].file == listing[start + k].name
  {
  }

  lemma SelectedAreChosen(choices: seq<Choice>, listing: seq<LogFile>, last: string, start: nat, maxFiles: int)
    requires StartOf(listing, last) == Some(start) && |choices| == BatchSize(listing, start, maxFiles, false)
    requires forall k | 0 <= k < |choices| :: start + k < |listing| && choices[k] == ChoiceAt(listing, start + k)
    ensures Chosen(choices, listing, start)
  {
  }

  /** The logs of a listing have different names. */
  lemma ListingDistinct(env: Env, s: Sys, listing: seq<LogFile>)
    requires Inv(env, s) && s.purged < |s.history| && listing == s.history[s.purged..]
    ensures DistinctNames(listing)
  {
    hide Chain, Backed, FaithfulObjects, GoodQueue, GoodCursor;
  }

  /** One more log, of the given name, has been registered. */
  predicate OneMore(s: Sys, t: Sys, file: string, index: nat) {
    && |t.registered| == |s.registered| + 1 && s.registered <= t.registered
    && t.registered[|s.registered|].file == file
    && t.base == if s.registered == [] then index else s.base
  }

  lemma ExtendRun(env: Env, run: seq<Sys>, next: Sys)
    requires run != [] && IsRun(env, run) && Step(env, run[|run| - 1], next)
    ensures IsRun(env, run + [next])
  {
    hide Acts;
    var longer := run + [next];
    forall i | 0 <= i < |longer| - 1
      ensures Step(env, longer[i], longer[i + 1])
    {
      if i < |run| - 1 {
        assert Step(env, run[i], run[i + 1]);
      }
    }
  }
}
