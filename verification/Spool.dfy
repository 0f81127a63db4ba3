/**
 Keeping a local partial copy of the active binlog, by reuse, by resume from
 its end or by a full download (cmd/agent/database_archiver.go).

 The spool directory of one binlog file is a value of type `Disk`; every
 change of it is appended to the ghost `trace`, so a statement about all trace
 entries is a statement about every point at which the agent may be killed.
 Each write or rename asks the oracle `io` whether it is done, fails without
 effect, or fails after (part of) its effect.
 */
module Spool {
  import opened Common
  import opened Framing
  import opened Append
  import opened Names

  /** Server identity; "" stands for a part the server did not report. */
  datatype Identity = Identity(serverUUID: string, serverID: string)

  datatype Manifest = Manifest(
    fileName: string, sourceSize: nat, lastCompletePos: nat, crcMode: bool, identity: Identity)

  datatype ManifestFile = Absent | Unreadable | Present(manifest: Manifest)

  datatype Disk = Disk(partial: Option<Bytes>, staging: Option<Bytes>, manifest: ManifestFile)

  /** What the download tool would deliver now: the whole file, or its events from a position on. */
  datatype Fetch = Fetch(full: Option<Bytes>, tail: nat -> Option<Bytes>)

  datatype Outcome = Reused | Resumed | Downloaded

  datatype SpoolResult = SpoolResult(
    outcome: Outcome, size: nat, sourceSize: nat, resumeFrom: nat, appendedBytes: nat,
    crcMode: Option<bool>, lastCompletePos: nat)

  predicate ManifestAllowsResume(m: ManifestFile, fileName: string, identity: Identity) {
    match m
    case Absent => identity == Identity("", "")
    case Unreadable => false
    case Present(m) =>
      && m.fileName == fileName
      && (m.identity.serverUUID != "" && identity.serverUUID != "" ==>
            m.identity.serverUUID == identity.serverUUID)
      && (m.identity.serverID != "" && identity.serverID != "" ==>
            m.identity.serverID == identity.serverID)
  }

  predicate CanReuse(crc: Crc, partial: Option<Bytes>, sourceSize: nat) {
    0 < sourceSize && partial.Some? && sourceSize <= |partial.value| && IsBinlog(crc, partial.value)
  }

  /** The incremental path applies: a valid, shorter partial and an appendable tail. */
  predicate CanResume(crc: Crc, disk: Disk, fileName: string, identity: Identity, sourceSize: nat, fetch: Fetch) {
    && disk.partial.Some?
    && 4 < |disk.partial.value| < sourceSize
    && ManifestAllowsResume(disk.manifest, fileName, identity)
    && TailOf(fetch, disk.partial.value).Some?
    && Appendable(crc, disk.partial.value, TailOf(fetch, disk.partial.value).value)
  }

  lemma ResumeNeeds(crc: Crc, disk: Disk, fileName: string, identity: Identity, sourceSize: nat, fetch: Fetch)
    ensures CanResume(crc, disk, fileName, identity, sourceSize, fetch) ==>
              && disk.partial.Some? && |disk.partial.value| < sourceSize
              && TailOf(fetch, disk.partial.value).Some?
              && Appendable(crc, disk.partial.value, TailOf(fetch, disk.partial.value).value)
              && match disk.manifest
                 case Absent => identity.serverUUID == "" && identity.serverID == ""
                 case Unreadable => false
                 case Present(m) =>
                   && m.fileName == fileName
                   && (m.identity.serverUUID == identity.serverUUID
                       || m.identity.serverUUID == "" || identity.serverUUID == "")
                   && (m.identity.serverID == identity.serverID
                       || m.identity.serverID == "" || identity.serverID == "")
  {
    hide Appendable;
  }

  /** The downloaded tail of a partial file; an empty download counts as a failed one. */
  function TailOf(fetch: Fetch, partial: Bytes): Option<Bytes> {
    NonEmpty(fetch.tail(|partial|))
  }

  function NonEmpty(download: Option<Bytes>): Option<Bytes> {
    if download.Some? && download.value == [] then None else download
  }

  /** The ways in which the partial file may change, whatever fails and wherever. */
  ghost predicate Move(crc: Crc, before: Option<Bytes>, after: Option<Bytes>, fetch: Fetch) {
    || after == before
    || (after.Some? && after == NonEmpty(fetch.full))
    || (&& before.Some? && TailOf(fetch, before.value).Some?
        && Appendable(crc, before.value, TailOf(fetch, before.value).value)
        && after == Some(Combined(before.value, TailOf(fetch, before.value).value)))
  }

  class ActiveSpool {
    const crc: Crc
    const fileName: string
    const resumeEnabled: bool
    const io: nat -> Io

    var disk: Disk
    var tick: nat
    ghost var trace: seq<Disk>

    ghost predicate Valid()
      reads this
    {
      trace != [] && trace[|trace| - 1] == disk
    }

    /** Of the operations from `from` up to `to` none fails. */
    ghost predicate Healthy(from: nat, to: nat) {
      forall t: nat {:trigger io(t)} | from <= t < to :: io(t) == Done
    }

    /** Since the previous state the trace has grown, passing only through the given partials. */
    twostate predicate Through(partials: set<Option<Bytes>>)
      reads this
    {
      && old(trace) <= trace && old(tick) <= tick
      && disk.partial in partials
      && forall i | |old(trace)| <= i < |trace| :: trace[i].partial in partials
    }

    /** A reported result tells the size, the validity and the checksum mode of the partial file. */
    ghost predicate Describes(r: SpoolResult, identity: Identity, sourceSize: nat)
      reads this
    {
      && disk.partial.Some? && r.size == |disk.partial.value| && r.sourceSize == sourceSize
      && (IsBinlog(crc, disk.partial.value) <==> r.crcMode.Some?)
      && (r.crcMode.Some? ==>
            && r.lastCompletePos == r.size
            && r.crcMode.value == CrcMode(crc, disk.partial.value)
            && disk.manifest == Present(Manifest(fileName, sourceSize, r.lastCompletePos,
                                                 r.crcMode.value, identity)))
    }

    constructor (crc: Crc, fileName: string, resumeEnabled: bool, io: nat -> Io, disk: Disk)
      ensures Valid() && this.disk == disk && trace == [disk] && tick == 0
      ensures this.crc == crc && this.fileName == fileName
      ensures this.resumeEnabled == resumeEnabled && this.io == io
    {
      this.crc, this.fileName, this.resumeEnabled, this.io := crc, fileName, resumeEnabled, io;
      this.disk, this.tick, this.trace := disk, 0, [disk];
    }

    /** Asks whether the next operation works. */
    method NextIo() returns (r: Io)
      modifies this`tick
      ensures tick == old(tick) + 1 && r == io(old(tick))
    {
      r := io(tick);
      tick := tick + 1;
    }

    /** Performs an operation whose effect is all or nothing. */
    method Atomic(after: Disk) returns (ok: bool)
      requires Valid()
      modifies this
      ensures Valid() && Through({old(disk.partial), after.partial})
      ensures disk == old(disk) || disk == after
      ensures ok ==> disk == after
      ensures Healthy(old(tick), tick) ==> ok
    {
      var r := NextIo();
      if r != Failed {
        disk := after;
        trace := trace + [disk];
      }
      ok := r == Done;
    }

    /** Moves a finished temporary file over the partial file by way of a staging name. */
    method ReplaceFile(content: Bytes) returns (ok: bool)
      requires Valid()
      modifies this
      ensures Valid() && Through({old(disk.partial), Some(content)})
      ensures disk.manifest == old(disk.manifest)
      ensures ok ==> disk.partial == Some(content)
      ensures Healthy(old(tick), tick) ==> ok
    {
      var _ := Atomic(disk.(staging := None));
      ok := Atomic(disk.(staging := Some(content)));
      if !ok {
        return;
      }
      ok := Atomic(disk.(staging := None, partial := Some(content)));
      if !ok {
        var _ := Atomic(disk.(staging := None));
        return;
      }
      var chmod := NextIo();
      ok := chmod == Done;
    }

    /** The manifest is written in place, so a failed write may leave it unreadable. */
    method WriteManifest(sourceSize: nat, v: Validation, identity: Identity) returns (ok: bool)
      requires Valid()
      modifies this
      ensures Valid() && Through({old(disk.partial)})
      ensures ok ==> disk.manifest ==
                     Present(Manifest(fileName, sourceSize, v.lastCompletePos, v.crcMode, identity))
      ensures Healthy(old(tick), tick) ==> ok
    {
      var m := Manifest(fileName, sourceSize, v.lastCompletePos, v.crcMode, identity);
      var r := NextIo();
      if r != Failed {
        disk := disk.(manifest := if r == Done then Present(m) else Unreadable);
        trace := trace + [disk];
      }
      ok := r == Done;
    }

    /** Extends the partial file by the events behind its end. */
    method Resume(identity: Identity, sourceSize: nat, fetch: Fetch) returns (r: Result<SpoolResult, ()>)
      requires Valid()
      modifies this
      ensures Valid()
      ensures !CanResume(crc, old(disk), fileName, identity, sourceSize, fetch) ==>
                r.Failure? && disk == old(disk) && Through({old(disk.partial)})
      ensures CanResume(crc, old(disk), fileName, identity, sourceSize, fetch) ==>
                var p := old(disk.partial).value;
                var longer := Combined(p, TailOf(fetch, p).value);
                && Through({Some(p), Some(longer)})
                && (Healthy(old(tick), tick) ==> r.Success?)
                && (r.Success? ==>
                      && disk.partial == Some(longer)
                      && r.value == SpoolResult(Resumed, |longer|, sourceSize, |p|, |longer| - |p|,
                                                Some(CrcMode(crc, p)), |longer|)
                      && |p| < |longer|
                      && Describes(r.value, identity, sourceSize))
    {
      hide Parse, SizeField, EndPos, CrcMatches, Continues;
      if disk.partial.None? || |disk.partial.value| <= 4 || sourceSize <= |disk.partial.value| {
        return Failure(());
      }
      var partial := disk.partial.value;
      if !ManifestAllowsResume(disk.manifest, fileName, identity) {
        return Failure(());
      }
      var before, err := ValidateFile(crc, partial);
      if err.Some? || before.lastCompletePos != |partial| {
        return Failure(());
      }
      var tmpDir := NextIo();
      if tmpDir != Done {
        return Failure(());
      }
      var download := fetch.tail(before.lastCompletePos);
      if download.None? || download.value == [] {
        return Failure(());
      }
      var candidate := download.value;
      var plan := ValidateAppendCandidate(crc, partial, candidate);
      if plan.Failure? {
        return Failure(());
      }
      AppendedFile(crc, partial, candidate);
      var combined := partial + candidate[plan.value.payloadOffset..];
      var copied := NextIo();
      if copied != Done {
        return Failure(());
      }
      var after, err' := ValidateFile(crc, combined);
      if err'.Some? || after.lastCompletePos <= before.lastCompletePos {
        return Failure(());
      }
      var ok := ReplaceFile(combined);
      if !ok {
        return Failure(());
      }
      ok := WriteManifest(sourceSize, after, identity);
      if !ok {
        return Failure(());
      }
      return Success(SpoolResult(Resumed, |combined|, sourceSize, before.lastCompletePos,
                                 plan.value.payloadBytes, Some(after.crcMode), after.lastCompletePos));
    }

    /** Brings the partial file up to date with the source, as cheaply as it can. */
    method Update(identity: Identity, sourceSize: nat, fetch: Fetch) returns (r: Result<SpoolResult, ()>)
      requires Valid()
      modifies this
      ensures Valid() && old(trace) <= trace
      // Whatever fails: at every point the partial file is whole, old or new.
      ensures forall i | |old(trace)| <= i < |trace| ::
                Move(crc, old(disk.partial), trace[i].partial, fetch)
      ensures Move(crc, old(disk.partial), disk.partial, fetch)
      ensures !IsSafeName(fileName) ==> r.Failure? && disk == old(disk)
      ensures r.Success? ==>
                && Describes(r.value, identity, sourceSize)
                && match r.value.outcome
                   case Reused => CanReuse(crc, old(disk.partial), sourceSize) && disk.partial == old(disk.partial)
                   case Resumed =>
                     && resumeEnabled && CanResume(crc, old(disk), fileName, identity, sourceSize, fetch)
                     && var p := old(disk.partial).value;
                     && disk.partial == Some(Combined(p, TailOf(fetch, p).value))
                     && r.value.resumeFrom == |p| < r.value.size
                     && r.value.appendedBytes == r.value.size - |p|
                   case Downloaded =>
                     && !CanReuse(crc, old(disk.partial), sourceSize)
                     && disk.partial == NonEmpty(fetch.full)
      // A file that is kept as it is has reached the source's size and is valid; one that is extended
      // was shorter, and nothing that is known of it speaks of another file or another server.
      ensures r.Success? && r.value.outcome == Reused ==>
                && old(disk.partial).Some? && 0 < sourceSize <= |old(disk.partial).value|
                && IsBinlog(crc, old(disk.partial).value)
      ensures r.Success? && r.value.outcome == Resumed ==>
                && old(disk.partial).Some? && |old(disk.partial).value| < sourceSize
                && match old(disk.manifest)
                   case Absent => identity.serverUUID == "" && identity.serverID == ""
                   case Unreadable => false
                   case Present(m) =>
                     && m.fileName == fileName
                     && (m.identity.serverUUID == identity.serverUUID
                         || m.identity.serverUUID == "" || identity.serverUUID == "")
                     && (m.identity.serverID == identity.serverID
                         || m.identity.serverID == "" || identity.serverID == "")
      // When nothing fails, a file shorter than the source's grows or makes way for what is delivered.
      ensures Healthy(old(tick), tick) && IsSafeName(fileName) && fetch.full.Some? && fetch.full.value != [] ==>
                old(disk.partial).None? || |old(disk.partial).value| < sourceSize ==>
                  && r.Success? && disk.partial.Some?
                  && (|| (r.value.outcome == Downloaded && disk.partial == fetch.full)
                      || (r.value.outcome == Resumed && old(disk.partial).Some?
                          && old(disk.partial).value < disk.partial.value))
      // When nothing fails the branch taken is determined.
      ensures Healthy(old(tick), tick) && IsSafeName(fileName) ==>
                if CanReuse(crc, old(disk.partial), sourceSize) then
                  r.Success? && r.value.outcome == Reused
                else if resumeEnabled && CanResume(crc, old(disk), fileName, identity, sourceSize, fetch) then
                  r.Success? && r.value.outcome == Resumed
                else if NonEmpty(fetch.full).Some? then
                  r.Success? && r.value.outcome == Downloaded
                else
                  r.Failure? && disk == old(disk)
    {
      hide Parse, SizeField, EndPos, CrcMatches, Continues, Appendable, CanResume, ManifestAllowsResume;
      ResumeNeeds(crc, disk, fileName, identity, sourceSize, fetch);
      if !IsSafeName(fileName) {
        return Failure(());
      }
      var spoolDir := NextIo();
      if spoolDir != Done {
        return Failure(());
      }
      if 0 < sourceSize && disk.partial.Some? && sourceSize <= |disk.partial.value| {
        var v, err := ValidateFile(crc, disk.partial.value);
        if err.None? {
          var ok := WriteManifest(sourceSize, v, identity);
          if !ok {
            return Failure(());
          }
          return Success(SpoolResult(Reused, |disk.partial.value|, sourceSize, 0, 0,
                                     Some(v.crcMode), v.lastCompletePos));
        }
      }
      if resumeEnabled && 0 < sourceSize {
        var resumed := Resume(identity, sourceSize, fetch);
        if resumed.Success? {
          return resumed;
        }
      }
      r := Download(identity, sourceSize, fetch);
    }

    /** Replaces the partial file by a full download. */
    method Download(identity: Identity, sourceSize: nat, fetch: Fetch) returns (r: Result<SpoolResult, ()>)
      requires Valid()
      modifies this
      ensures Valid()
      ensures NonEmpty(fetch.full).None? ==> r.Failure? && disk == old(disk) && Through({old(disk.partial)})
      ensures NonEmpty(fetch.full).Some? ==>
                && Through({old(disk.partial), fetch.full})
                && (Healthy(old(tick), tick) ==> r.Success?)
      ensures r.Success? ==>
                && disk.partial == NonEmpty(fetch.full)
                && r.value.outcome == Downloaded
                && Describes(r.value, identity, sourceSize)
    {
      hide Parse, SizeField, EndPos, CrcMatches, Continues;
      var tmpDir := NextIo();
      if tmpDir != Done {
        return Failure(());
      }
      if fetch.full.None? || fetch.full.value == [] {
        return Failure(());
      }
      var ok := ReplaceFile(fetch.full.value);
      if !ok {
        return Failure(());
      }
      var size := |disk.partial.value|;
      var v, err := ValidateFile(crc, disk.partial.value);
      if err.Some? {
        return Success(SpoolResult(Downloaded, size, sourceSize, 0, 0, None, 0));
      }
      ok := WriteManifest(sourceSize, v, identity);
      if !ok {
        return Failure(());
      }
      return Success(SpoolResult(Downloaded, size, sourceSize, 0, 0, Some(v.crcMode), v.lastCompletePos));
    }
  }
}
