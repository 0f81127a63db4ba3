/**
 The size-bounded, rotating log file behind the streaming process
 (cmd/agent/database_archiver.go).

 `files` holds the log directory: key 0 is the current file, key i the rotated
 file with suffix ".i".  The ghost `stream` is everything that was ever written
 through the writer; the class invariant ties it to what the files retain.
 */
module RollingLog {
  import opened Common

  const DEFAULT_MAX_BYTES: nat := 10 * 1024 * 1024
  const DEFAULT_MAX_FILES: nat := 5

  /** Outcome of one operating-system call: how many bytes a write took, and whether it reported an error. */
  datatype OsCall = OsCall(taken: nat, failed: bool)

  datatype WriteError = OpenFailed | WriteFailed | ShortWrite

  type Files = map<nat, Bytes>

  function FileAt(files: Files, i: nat): Bytes {
    if i in files then files[i] else []
  }

  /** The retained bytes, oldest first: files n, n-1, ..., 1 and the current one. */
  function Retained(files: Files, n: nat): Bytes {
    if n == 0 then FileAt(files, 0) else FileAt(files, n) + Retained(files, n - 1)
  }

  /** Total size of files 0..n. */
  function DiskUse(files: Files, n: nat): nat {
    |FileAt(files, n)| + if n == 0 then 0 else DiskUse(files, n - 1)
  }

  /** Rotated files 1..full exist, each exactly `maxBytes` long; there are no others. */
  predicate Shape(files: Files, maxBytes: nat, full: nat) {
    && (forall i | 1 <= i <= full :: i in files && |files[i]| == maxBytes)
    && (forall i | i in files :: i <= full)
    && |FileAt(files, 0)| <= maxBytes
  }

  /** The files after a rotation, the current one not yet re-created. */
  function Shifted(files: Files, maxFiles: nat): Files {
    if maxFiles <= 1 then files - {0}
    else map i | i in Targets(files) && 1 <= i <= maxFiles :: files[i - 1]
  }

  function Targets(files: Files): set<nat> {
    set i | i in files :: i + 1
  }

  lemma {:induction false} RetainedLength(files: Files, n: nat)
    ensures |Retained(files, n)| == DiskUse(files, n)
  {
    if 0 < n {
      RetainedLength(files, n - 1);
    }
  }

  lemma {:induction false} DiskUseExact(files: Files, maxBytes: nat, full: nat, n: nat)
    requires Shape(files, maxBytes, full)
    ensures DiskUse(files, n) == (if n <= full then n else full) * maxBytes + |FileAt(files, 0)|
  {
    if 0 < n {
      DiskUseExact(files, maxBytes, full, n - 1);
      if n <= full {
        assert n * maxBytes == (n - 1) * maxBytes + maxBytes;
      }
    }
  }

  /** Shifting moves the retained bytes up by one file and drops the oldest file. */
  lemma {:induction false} ShiftedRetains(files: Files, maxFiles: nat, n: nat)
    requires 1 < maxFiles && 1 <= n <= maxFiles
    ensures Retained(Shifted(files, maxFiles), n) == Retained(files, n - 1)
  {
    var after := Shifted(files, maxFiles);
    assert FileAt(after, n) == FileAt(files, n - 1);
    if n == 1 {
      assert FileAt(after, 0) == [];
      assert Retained(after, 1) == FileAt(after, 1) + Retained(after, 0);
    } else {
      ShiftedRetains(files, maxFiles, n - 1);
    }
  }

  lemma {:induction false} AppendRetains(files: Files, n: nat, chunk: Bytes)
    ensures Retained(files[0 := FileAt(files, 0) + chunk], n) == Retained(files, n) + chunk
  {
    var after := files[0 := FileAt(files, 0) + chunk];
    if 0 < n {
      AppendRetains(files, n - 1, chunk);
      assert FileAt(after, n) == FileAt(files, n);
      AppendAssoc(FileAt(files, n), Retained(files, n - 1), chunk);
    }
  }

  lemma AppendAssoc(a: Bytes, b: Bytes, c: Bytes)
    ensures (a + b) + c == a + (b + c)
  {
  }

  lemma {:induction false} NothingBelow(files: Files, n: nat)
    requires forall i | 1 <= i <= n :: i !in files
    ensures Retained(files, n) == FileAt(files, 0)
  {
    if 0 < n {
      NothingBelow(files, n - 1);
    }
  }

  /** What the log directory owes to the stream `dropped + retained` written so far. */
  ghost predicate Refines(files: Files, maxBytes: nat, maxFiles: nat, full: nat, dropped: Bytes, stream: Bytes) {
    && 0 < maxBytes && 0 < maxFiles
    && full <= (if maxFiles == 1 then 0 else maxFiles)
    && Shape(files, maxBytes, full)
    && stream == dropped + Retained(files, maxFiles)
    && (dropped != [] && maxFiles != 1 ==> full == maxFiles)
  }

  /**
   The files always hold a suffix of the stream; no file is too long, rotated
   files are exactly full, and with at least two files the newest
   maxFiles * maxBytes bytes survive within (maxFiles + 1) * maxBytes of disk.
   */
  lemma SuffixSurvives(files: Files, maxBytes: nat, maxFiles: nat, full: nat, dropped: Bytes, stream: Bytes)
    requires Refines(files, maxBytes, maxFiles, full, dropped, stream)
    ensures var kept := Retained(files, maxFiles);
            && |kept| <= |stream| && kept == stream[|stream| - |kept|..]
            && (2 <= maxFiles ==> |stream| <= |kept| || maxFiles * maxBytes <= |kept|)
            && |kept| == DiskUse(files, maxFiles) <= (maxFiles + 1) * maxBytes
    ensures forall i | i in files :: i <= maxFiles && |files[i]| <= maxBytes && (0 < i ==> |files[i]| == maxBytes)
  {
    RetainedLength(files, maxFiles);
    DiskUseExact(files, maxBytes, full, maxFiles);
    MulMonotone(full, maxFiles, maxBytes);
  }

  lemma MulMonotone(a: nat, b: nat, m: nat)
    requires a <= b
    ensures a * m <= b * m && (b + 1) * m == b * m + m
  {
  }

  /** A rotation of a full current file keeps the refinement and drops only the oldest file. */
  lemma RotationRefines(files: Files, maxBytes: nat, maxFiles: nat, full: nat, dropped: Bytes, stream: Bytes)
    requires Refines(files, maxBytes, maxFiles, full, dropped, stream)
    requires |FileAt(files, 0)| == maxBytes
    ensures Refines(Shifted(files, maxFiles), maxBytes, maxFiles, FullAfter(full, maxFiles),
                    dropped + Oldest(files, maxFiles), stream)
    ensures 0 !in Shifted(files, maxFiles)
  {
    var after := Shifted(files, maxFiles);
    if maxFiles == 1 {
      NothingBelow(files, 1);
      NothingBelow(after, 1);
      assert dropped + files[0] + [] == dropped + files[0];
    } else {
      ShiftedRetains(files, maxFiles, maxFiles);
      assert dropped + Retained(files, maxFiles)
          == dropped + FileAt(files, maxFiles) + Retained(files, maxFiles - 1);
      forall i | 1 <= i <= FullAfter(full, maxFiles)
        ensures i in after && |after[i]| == maxBytes
      {
        assert i - 1 in files && i - 1 + 1 in Targets(files);
      }
    }
  }

  function FullAfter(full: nat, maxFiles: nat): nat {
    if maxFiles <= 1 then 0 else if full < maxFiles then full + 1 else maxFiles
  }

  /** The bytes a rotation gives up. */
  function Oldest(files: Files, maxFiles: nat): Bytes {
    if maxFiles <= 1 then FileAt(files, 0) else FileAt(files, maxFiles)
  }

  function Lookup(files: Files, i: nat): Option<Bytes> {
    if i in files then Some(files[i]) else None
  }

  /** Files above i have been renamed to the next suffix, files up to i have not; i + 1 is free. */
  ghost predicate PartlyShifted(before: Files, files: Files, maxFiles: nat, i: nat) {
    forall j: nat :: Lookup(files, j) == Awaited(before, maxFiles, i, j)
  }

  function Awaited(before: Files, maxFiles: nat, i: nat, j: nat): Option<Bytes> {
    if j <= i then Lookup(before, j)
    else if j == i + 1 || maxFiles < j then None
    else Lookup(before, j - 1)
  }

  function Renamed(files: Files, i: nat): Files {
    if i in files then files[i + 1 := files[i]] - {i} else files
  }

  lemma RenameOne(before: Files, files: Files, maxFiles: nat, i: nat)
    requires 1 <= i < maxFiles && PartlyShifted(before, files, maxFiles, i)
    ensures PartlyShifted(before, Renamed(files, i), maxFiles, i - 1)
  {
    forall j: nat
      ensures Lookup(Renamed(files, i), j) == Awaited(before, maxFiles, i - 1, j)
    {
      assert Lookup(files, i) == Awaited(before, maxFiles, i, i);
      assert Lookup(files, j) == Awaited(before, maxFiles, i, j);
    }
  }

  lemma RenameLast(before: Files, files: Files, maxFiles: nat)
    requires 1 < maxFiles && PartlyShifted(before, files, maxFiles, 0)
    ensures Renamed(files, 0) == Shifted(before, maxFiles)
  {
    ShiftedExact(before, maxFiles);
    forall j: nat
      ensures Lookup(Renamed(files, 0), j) == Lookup(Shifted(before, maxFiles), j)
    {
      assert Lookup(files, 0) == Awaited(before, maxFiles, 0, 0);
      assert Lookup(files, j) == Awaited(before, maxFiles, 0, j);
    }
    SameLookup(Renamed(files, 0), Shifted(before, maxFiles));
  }

  lemma SameLookup(a: Files, b: Files)
    requires forall j: nat :: Lookup(a, j) == Lookup(b, j)
    ensures a == b
  {
    assert forall j: nat :: j in a <==> Lookup(a, j).Some?;
    assert forall j: nat :: j in b <==> Lookup(b, j).Some?;
    assert forall j: nat | j in a :: Lookup(a, j) == Some(a[j]);
  }

  lemma ShiftedExact(files: Files, maxFiles: nat)
    requires 1 < maxFiles
    ensures forall i: nat {:trigger Lookup(Shifted(files, maxFiles), i)} :: Lookup(Shifted(files, maxFiles), i) ==
                             if 1 <= i <= maxFiles then Lookup(files, i - 1) else None
  {
    forall i: nat | 1 <= i <= maxFiles && i - 1 in files
      ensures i in Shifted(files, maxFiles)
    {
      var j: nat := i - 1;
      assert j in files && j + 1 in Targets(files);
    }
  }

  /** Removes the oldest file and renames each remaining one to the next suffix, oldest first. */
  method RenameAll(before: Files, maxFiles: nat) returns (files: Files)
    requires forall i | i in before :: i <= maxFiles
    ensures files == Shifted(before, maxFiles)
  {
    files := before;
    if maxFiles <= 1 {
      files := files - {0};
      return;
    }
    files := files - {maxFiles};
    var i := maxFiles - 1;
    while 1 <= i
      invariant 0 <= i <= maxFiles - 1
      invariant PartlyShifted(before, files, maxFiles, i)
    {
      RenameOne(before, files, maxFiles, i);
      if i in files {
        files := files[i + 1 := files[i]] - {i};
      }
      i := i - 1;
    }
    RenameLast(before, files, maxFiles);
    if 0 in files {
      files := files[1 := files[0]] - {0};
    }
  }

  /** The first `written` bytes of `p` have reached the stream; `rest` is still to be written. */
  ghost predicate Sent(base: Bytes, stream: Bytes, p: Bytes, written: nat, rest: Bytes) {
    written <= |p| && stream == base + p[..written] && rest == p[written..]
  }

  lemma SentExact(base: Bytes, stream: Bytes, p: Bytes, written: nat, rest: Bytes)
    requires Sent(base, stream, p, written, rest)
    ensures written <= |p| && stream == base + p[..written] && |rest| == |p| - written
  {
  }

  lemma SendMore(base: Bytes, stream: Bytes, p: Bytes, written: nat, rest: Bytes, n: nat)
    requires Sent(base, stream, p, written, rest) && n <= |rest|
    ensures Sent(base, stream + rest[..n], p, written + n, rest[n..])
  {
    assert p[..written + n] == p[..written] + rest[..n];
    assert base + p[..written + n] == base + p[..written] + rest[..n];
  }

  class Writer {
    const maxBytes: nat
    const maxFiles: nat
    const os: nat -> OsCall

    var files: Files
    var isOpen: bool
    var size: nat
    var tick: nat
    ghost var full: nat
    ghost var dropped: Bytes
    ghost var stream: Bytes

    ghost predicate Valid()
      reads this
    {
      && 0 < maxBytes
      && Refines(files, maxBytes, maxFiles, full, dropped, stream)
      && (isOpen ==> 0 in files && size == |files[0]|)
    }

    /** A writer over an empty log directory; limits that make no sense are replaced by defaults. */
    constructor (maxBytes: int, maxFiles: int, os: nat -> OsCall)
      ensures Valid() && stream == [] && files == map[] && !isOpen
      ensures this.maxBytes == if maxBytes <= 0 then DEFAULT_MAX_BYTES else maxBytes
      ensures this.maxFiles == if maxFiles <= 0 then DEFAULT_MAX_FILES else maxFiles
      ensures this.os == os && tick == 0
    {
      this.maxBytes := if maxBytes <= 0 then DEFAULT_MAX_BYTES else maxBytes;
      this.maxFiles := if maxFiles <= 0 then DEFAULT_MAX_FILES else maxFiles;
      this.os := os;
      files, isOpen, size, tick := map[], false, 0, 0;
      full, dropped, stream := 0, [], [];
      new;
      NothingBelow(files, this.maxFiles);
    }

    /** Creates a writer and opens its current file; without that file there is no writer. */
    static method Make(maxBytes: int, maxFiles: int, os: nat -> OsCall) returns (w: Option<Writer>)
      ensures w.Some? ==>
                && fresh(w.value) && w.value.Valid() && w.value.isOpen
                && w.value.stream == [] && w.value.files == map[0 := []] && w.value.os == os
                && w.value.maxBytes == (if maxBytes <= 0 then DEFAULT_MAX_BYTES else maxBytes)
                && w.value.maxFiles == (if maxFiles <= 0 then DEFAULT_MAX_FILES else maxFiles)
      ensures w.Some? <==> !os(0).failed && !os(1).failed
    {
      var writer := new Writer(maxBytes, maxFiles, os);
      var mkdir := writer.NextCall();
      if mkdir.failed {
        return None;
      }
      var err := writer.Open();
      w := if err.None? then Some(writer) else None;
    }

    method NextCall() returns (r: OsCall)
      modifies this`tick
      ensures r == os(old(tick)) && tick == old(tick) + 1
    {
      r := os(tick);
      tick := tick + 1;
    }

    method Close()
      requires Valid()
      modifies this`isOpen, this`size
      ensures Valid() && !isOpen
    {
      isOpen, size := false, 0;
    }

    /** Opens the current file for appending, unless it is open, and rotates a full one away. */
    method Open() returns (err: Option<WriteError>)
      requires Valid()
      modifies this`files, this`isOpen, this`size, this`tick, this`full, this`dropped
      ensures Valid()
      ensures err.None? ==> isOpen
      ensures old(tick) <= tick
      ensures old(isOpen) ==> err.None? && files == old(files) && size == old(size)
      ensures !old(isOpen) && |FileAt(old(files), 0)| < maxBytes ==>
                if os(old(tick)).failed then err.Some? && files == old(files)
                else err.None? && files == old(files)[0 := FileAt(old(files), 0)]
      ensures !old(isOpen) ==> stream == old(stream)
      ensures !old(isOpen) && err.None? ==> size < maxBytes
      ensures (forall t: nat {:trigger os(t)} | old(tick) <= t < tick :: !os(t).failed) ==> err.None?
    {
      if isOpen {
        return None;
      }
      var open := NextCall();
      if open.failed {
        return Some(OpenFailed);
      }
      if 0 !in files {
        Create();
      }
      isOpen, size := true, |files[0]|;
      if maxBytes <= size {
        err := Rotate();
        return;
      }
      return None;
    }

    /** Re-creates the missing current file, empty. */
    method Create()
      requires Valid() && !isOpen && 0 !in files
      modifies this`files
      ensures Valid() && files == old(files)[0 := []]
    {
      AppendRetains(files, maxFiles, []);
      assert Retained(files, maxFiles) + [] == Retained(files, maxFiles);
      assert FileAt(files, 0) + [] == [];
      files := files[0 := []];
    }

    /** Shifts every rotated file up by one, drops the oldest, and starts a new current file. */
    method Rotate() returns (err: Option<WriteError>)
      requires Valid() && isOpen && maxBytes <= size
      modifies this`files, this`isOpen, this`size, this`tick, this`full, this`dropped
      ensures Valid() && old(tick) <= tick
      ensures err.None? ==> isOpen && size == 0 && files == Shifted(old(files), maxFiles)[0 := []]
      ensures err.Some? ==> !isOpen && files == Shifted(old(files), maxFiles)
      ensures (forall t: nat {:trigger os(t)} | old(tick) <= t < tick :: !os(t).failed) ==> err.None?
    {
      isOpen := false;
      RotationRefines(files, maxBytes, maxFiles, full, dropped, stream);
      ghost var before := files;
      files := RenameAll(files, maxFiles);
      dropped := dropped + Oldest(before, maxFiles);
      full := FullAfter(full, maxFiles);
      var create := NextCall();
      if create.failed {
        return Some(OpenFailed);
      }
      Create();
      isOpen, size := true, 0;
      return None;
    }

    /**
     Appends `p`, rotating whenever the current file is full.  The operating
     system may take any part of each chunk; the count returned is exactly what
     reached the stream, and without an error it is everything.
     */
    method Write(p: Bytes) returns (written: nat, err: Option<WriteError>)
      requires Valid()
      modifies this
      ensures Valid()
      ensures written <= |p|
      ensures stream == old(stream) + p[..written]
      ensures err.None? ==> written == |p|
      ensures (forall t: nat {:trigger os(t)} | old(tick) <= t < tick :: !os(t).failed && 0 < os(t).taken) ==> err.None?
    {
      written, err := 0, None;
      var rest := p;
      assert Sent(old(stream), stream, p, written, rest);
      hide Refines, Sent, Shape, FileAt, Retained, Shifted, DiskUse;
      while 0 < |rest|
        invariant Valid() && old(tick) <= tick
        invariant Sent(old(stream), stream, p, written, rest)
        invariant err.None?
        decreases |rest|, isOpen && maxBytes <= size
      {
        ghost var sofar := stream;
        err := Open();
        if err.Some? {
          break;
        }
        if maxBytes <= size {
          err := Rotate();
          if err.Some? {
            break;
          }
          continue;
        }
        var n;
        n, err := WriteChunk(rest);
        SendMore(old(stream), sofar, p, written, rest, n);
        written, rest := written + n, rest[n..];
        if err.Some? {
          break;
        }
      }
      SentExact(old(stream), stream, p, written, rest);
    }

    /** Writes what fits of `rest` into the current file, as far as the operating system takes it. */
    method WriteChunk(rest: Bytes) returns (n: nat, err: Option<WriteError>)
      requires Valid() && isOpen && size < maxBytes && 0 < |rest|
      modifies this`files, this`size, this`tick, this`stream
      ensures Valid() && isOpen && tick == old(tick) + 1
      ensures n <= |rest| && stream == old(stream) + rest[..n]
      ensures err.None? ==> 0 < n
      // As much is written as fits and the system takes.
      ensures size == old(size) + n <= maxBytes && n <= os(old(tick)).taken
      ensures n == |rest| || n == maxBytes - old(size) || n == os(old(tick)).taken
      ensures !os(old(tick)).failed && 0 < os(old(tick)).taken ==> err.None?
    {
      var chunk := if maxBytes - size < |rest| then rest[..maxBytes - size] else rest;
      var call := NextCall();
      n := if call.taken < |chunk| then call.taken else |chunk|;
      assert chunk[..n] == rest[..n];
      Take(chunk[..n]);
      err := if call.failed then Some(WriteFailed) else if n == 0 then Some(ShortWrite) else None;
    }

    /** The operating system appends bytes to the open current file. */
    method Take(bytes: Bytes)
      requires Valid() && isOpen && size + |bytes| <= maxBytes
      modifies this`files, this`size, this`stream
      ensures Valid() && isOpen && stream == old(stream) + bytes && size == old(size) + |bytes|
    {
      AppendRetains(files, maxFiles, bytes);
      assert dropped + Retained(files, maxFiles) + bytes == dropped + (Retained(files, maxFiles) + bytes);
      files := files[0 := files[0] + bytes];
      size := size + |bytes|;
      stream := stream + bytes;
    }
  }
}
