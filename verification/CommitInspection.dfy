/**
 The one step that can change a finalized file (cmd/agent/database_archiver.go).

 A commit first inspects the final path, and takes any error of that for the
 absence of a file.  The protocol's commit is the one whose inspection works;
 this module says exactly what the other one does to it.
 */
module CommitInspection {
  import opened Common
  import opened QueueNames
  import opened ArchiveSystem
  import opened ArchiveFrames

  /** Moves a download into place, each operation on the disk with its own outcome. */
  method CommitFile(final: Option<Bytes>, content: Bytes, sha: Bytes -> Checksum,
                    inspect: Io, sums: Io, rename: Io, chmod: Io)
    returns (after: Option<Bytes>, ok: bool)
    requires content != []
    ensures after == AfterCommit(final, content, inspect, rename)
    // A nonempty file changes exactly if its inspection fails, the rename takes effect, and the download differs.
    ensures final.Some? && final.value != [] ==>
              (after != final <==> inspect != Done && rename != Failed && content != final.value)
    // Success means a file with the checksum of the download ...
    ensures ok ==> after.Some? && sha(after.value) == sha(content)
    // ... and, if nothing fails, exactly that no other one was there.
    ensures inspect == sums == rename == chmod == Done ==>
              (ok <==> (final.Some? && final.value != [] ==> sha(final.value) == sha(content)))
  {
    after := final;
    if inspect == Done && final.Some? && final.value != [] {
      ok := sums == Done && sha(content) == sha(final.value);
      return;
    }
    if rename != Failed {
      after := Some(content);
    }
    ok := rename == Done && chmod == Done;
  }

  /** The state after a commit. */
  function Committed(s: Sys, file: string, content: Bytes, inspect: Io, rename: Io): Sys {
    match AfterCommit(FileOf(s, Finalized(file)), content, inspect, rename)
    case None => s
    case Some(bytes) => s.(disk := s.disk[Finalized(file) := bytes])
  }

  /** It is an action of the protocol, or changes nothing, exactly if no finalized file was overwritten. */
  lemma CommittedIsAction(env: Env, s: Sys, file: string, content: Bytes, inspect: Io, rename: Io)
    requires content != []
    ensures var t := Committed(s, file, content, inspect, rename);
            t == s || Acts(env, s, Commits(file, content), t) <==>
            !(HasFinal(s, file) && inspect != Done && rename != Failed && content != s.disk[Finalized(file)])
  {
    var t := Committed(s, file, content, inspect, rename);
    if Finalized(file) in s.disk {
      assert t.disk[Finalized(file)] ==
          AfterCommit(Some(s.disk[Finalized(file)]), content, inspect, rename).value;
      if t.disk[Finalized(file)] == s.disk[Finalized(file)] {
        assert t.disk == s.disk;
      }
    }
  }

  /** Overwriting the copy of a registered log by bytes of another size or checksum breaks the protocol's invariant. */
  lemma OverwritingBreaks(env: Env, s: Sys, k: nat, content: Bytes, inspect: Io, rename: Io)
    requires Inv(env, s) && k < |s.registered| && content != []
    requires inspect != Done && rename != Failed
    ensures var a := s.registered[k];
            |content| != a.size || env.sha(content) != a.sum ==>
              !Inv(env, Committed(s, a.file, content, inspect, rename))
  {
    hide Chain, FaithfulObjects, GoodQueue, GoodCursor, Stored;
    var t := Committed(s, s.registered[k].file, content, inspect, rename);
    assert t.registered[k] == s.registered[k];
    assert Describes(env, s, s.registered[k]);
  }
}
