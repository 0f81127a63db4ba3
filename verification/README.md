# Binlog archiving agent and plugin source editing: a Dafny model

Two independent cores of the repository are modelled.

**The MySQL binlog archiving agent** (`cmd/agent/database_archiver.go`,
`cmd/agent/binlog_validator.go`). The agent copies the binary logs of a MySQL
server to a local directory, publishes them to an object store, and registers
each one with a central server. It must do so in order and without gaps, and it
may fail or be killed between any two operations.

| file | content |
|---|---|
| `Framing.dfy` | binlog event framing, checksum mode, whole-file validation |
| `Append.dfy` | when freshly fetched bytes may extend a partial file, and what the extended file is |
| `Spool.dfy`, `SpoolRefinement.dfy` | keeping a partial copy of the active log by reuse, resume or full download; resume refines full download |
| `Selection.dfy` | which logs a round archives; how many rounds it takes to catch up |
| `ArchiveSystem.dfy` | the protocol of one stream as a transition system of source, disk, object store, queue and server; its invariant and its whole-run theorems |
| `ArchiveFrames.dfy` | what steps leave alone |
| `Archiver.dfy` | the agent's code for one round, publishing and the retry queue, as methods of a class whose every change is an action of the transition system |
| `PublishDrift.dfy` | how publishing can be lost for good, and the agent driven there |
| `CommitInspection.dfy` | how a finalized file can be overwritten |
| `QueueNames.dfy`, `Names.dfy` | queue file names and safe binlog names |
| `RollingLog.dfy` | the rotating log writer |
| `Backoff.dfy` | retry delays with 64-bit arithmetic, and the per-stream backoff table |
| `ProcessTable.dfy` | the table of streaming processes under concurrent service of the streams |
| `RateLimiter.dfy` | the upload rate limiter |

**Plugin source editing** (`internal/server/upload.go`). Installing a plugin
inserts lines into a Go file and a TypeScript file, and uninstalling removes
them: `SourceText.dfy` (lines and string tests), `BackendPlugin.dfy` (the two
scans), `PluginPlaces.dfy` (where lines are put), `BackendPluginUndo.dfy`
(undoing and repeating), `PluginFiles.dfy` (whole files), `PluginNeighbours.dfy`
(the effect on other plugins), `PluginPairs.dfy` (two plugins installed
together), `FrontendPlugin.dfy`.

## How failures are modelled

Each operation on the disk, the network or the object store asks an arbitrary
function of the operation's number, `io`, and gets one of three answers: it is
done, it failed without effect, or it reported a failure after taking (part of)
its effect. A crash is an `io` that fails from some operation on. `Healthy(from,
to)` says that nothing fails among those operations; a method promises success
if that holds of its own operations, `Healthy(old(tick), tick)`, whatever fails
before or after the call; the table below calls that "without failures".
`Delivering` says the same of the downloads of a log. A log is `Supplied` if its
name is safe and whatever a download of it delivers, at any time, can be stored:
it agrees with a copy finalized earlier, and its upload is retried later or
nothing remote contradicts it. Downloads that deliver nothing do no harm to
that. `Archiver.Agent.SourceSupplies` shows when a log is supplied. What is said
to stay supplied whatever fails, downloads included, is a `Steady` log, for
which all deliveries are the same.
A ghost `trace` records every intermediate state, so a statement about all
entries of a trace is one about every point at which the agent can be killed.

In `ArchiveSystem`, `Acts` lists every atomic change that any party makes and
the condition for it. The methods of `Archiver.Agent` can change the system only
through `Record`, which demands that condition, and between any two operations
the source database and the streaming process may move as they like. So all
executions of the agent are runs of the transition system, and the lemmas about
runs hold of them.

SHA-256 and CRC-32 (section 8 of RFC 1952) are arbitrary functions, passed as
parameters; nothing depends on how they compute.

## Main results

1. In every state of every run the registered logs are one gap-free, linked
   segment of the history, each with its unchanged local copy, published or
   queued: `ArchiveSystem.RegisteredIsArchived`, over `StepKeepsInv`. This
   supposes that the inspection at the start of a commit does not fail where other
   content is finalized already; `CommitInspection.CommittedIsAction` says that
   every other commit is an action of the protocol.
2. The agent's code is such a run, and a round does what it should:
   `Archiver.Agent.ProcessStream`. If nothing fails during the call and the tool
   delivers, it succeeds if its logs are supplied; cut off anywhere, by a failing
   download too, it leaves them supplied for the next one.
3. Publishing is write-once and restartable, up to one exactly known loss:
   `Archiver.Agent.Publish`, `Finalize`, `ProcessItem`, `ProcessQueue`,
   `PublishDrift.DriveIntoDrift`, `DisagreementIsForever`.
4. Binlog validation and append planning accept exactly what they should:
   `Framing.ValidateFile`, `BinlogExact`, `Append.ValidateAppendCandidate`,
   `AppendedFile`.
5. Resume refines full download exactly if no tail is cut short:
   `SpoolRefinement.RunKeepsPrefix`, `Follow`, over `Spool.ActiveSpool.Update`.
6. m logs in batches of k take m / k rounds of the agent, rounded up:
   `Archiver.Agent.CatchUp`, over `Selection.RoundsExact`.
7. The rotating log is a suffix of its stream: `RollingLog.Writer.Write`,
   `SuffixSurvives`.
8. Backoff, process table, queue names and rate:
   `Backoff.StreamBackoff.Admit`, `ProcessTable.StreamingTable.RunRound`,
   `QueueNames.QueueFileInjective`, `RateLimiter.LimitedReader.Read`.
9. When plugin edits undo, repeat, and leave each other alone:
   `PluginFiles.UnregisterRestoresFile`, `BackendPluginUndo.RegisterTwice`,
   `PluginPairs.FirstInFirstOut`, `LastInFirstOut`,
   `PluginNeighbours.NeighbourSurvivesInFile`.

## Where the code does less than one might expect

Each of these is a proved statement about the code as it is.

* Unregistering a backend plugin restores the file exactly when no registration
  block was found or the line behind the last one is empty
  (`BackendPluginUndo.UnregisterUndoesRegister`). Otherwise a blank line is
  left over, or a line that only holds white space is lost;
  `PluginNeighbours.CrowdedFileNotRestored` has such a file.
* With two plugins installed, the first one can be removed as if it had never been
  there unless one name is a prefix of the other, the second name ends the first
  one's, or the second one's comment reads as the first one's
  (`PluginPairs.FirstInFirstOut`). Removing the second one has other conditions on
  the names, and the one on the line behind the registrations (`LastInFirstOut`).
* Unregistering a plugin takes the import of every plugin whose name starts with
  its name, and leaves the calls of those plugins behind
  (`PluginNeighbours.NeighbourSurvives`, `CallWithoutImport`). A plugin's import
  is never added behind a plugin whose name it is a prefix of, its call never
  behind one whose name ends with its own (`Shadowed`).
* If the braces of a plugin's registration are not balanced, unregistering it removes
  all the rest of the file (`PluginPlaces.UnbalancedTakesRest`).
* Registering a frontend plugin panics exactly when the file has fewer than 14
  lines and none of them tells where the imports end (`FrontendPlugin.Register`).
* If the agent is killed while it writes a manifest anew and the upload of the
  file is still queued, the next pass over the queue publishes the torn manifest
  (`PublishDrift.DriveIntoDrift` drives an agent there). If its size differs
  from that of the whole manifest, the object store disagrees for ever
  (`DisagreementIsForever`), and no round that writes the manifest again
  publishes the file (`Archiver.Agent.Finalize`); only a local manifest of the
  torn one's size would pass. `Archiver.Agent.ProcessItem` has the condition,
  which can be checked before a pass: the sidecars it may upload have the sizes
  of the artifact's texts.
* A commit takes any error of its inspection of the final path for the absence of a
  file. A nonempty finalized file is overwritten exactly if that inspection fails,
  the rename takes effect, and the content differs
  (`CommitInspection.CommitFile`); the protocol's invariant is lost then if the log
  is registered and size or checksum differ (`OverwritingBreaks`).
* Queueing an artifact again restarts its count of attempts if the item that is
  there cannot be read (`Archiver.Agent.Enqueue`).
* Due times are written in whole seconds, so a failed upload may be tried again up
  to a second before its delay has passed (`Archiver.Agent.WaitingIsDue`).
* Entering a started process in the table drops an entry that is already there
  (`ProcessTable.StreamingTable.Enter`). With distinct stream ids in a listing
  this never happens (`RunRound`).
* A fetched tail that comes without the magic and starts like it, as it does if
  the time stamp of its first event reads so, loses its first four bytes. What is
  left can pass the append check, and then the partial file is no prefix of the
  source any more (`SpoolRefinement.LikeMagicCorrupts`). With a tool that always
  writes the magic this cannot happen (`Follow`).

## Model

| member | source | states |
|---|---|---|
| `Framing.ReadEvent` | cmd/agent/binlog_validator.go:165-185 | succeeds exactly when a complete event lies at the offset: header inside the file, size field at least 19 and not past the end |
| `Framing.LittleEndianExact` | cmd/agent/binlog_validator.go:173-183 | four bytes are read as a number exactly if they are that number's base-256 digits, the lowest first |
| `Framing.ReadWritten` | cmd/agent/binlog_validator.go:165-185 | reading an event whose header carries the bytes of n and p answers size n and end position p, or the error that n calls for |
| `Framing.IsEventExact` | cmd/agent/binlog_validator.go:165-185 | an event is complete exactly if the bytes of its length stand at 9..13 |
| `Framing.CrcOfBody` | cmd/agent/binlog_validator.go:187-204 | a checksum matches exactly if it is the CRC of all but the last four bytes, written there lowest byte first |
| `Framing.ParseExact` | cmd/agent/binlog_validator.go:33-89 | bytes parse to an event list exactly when they are its serialization, so the cut into events is unique |
| `Framing.ParseConcat` | cmd/agent/binlog_validator.go:33-89 | parsing a complete part followed by anything is parsing both and joining the lists |
| `Framing.ParseFlat` | cmd/agent/binlog_validator.go:33-89 | parsing inverts serialization for every list of well-formed events |
| `Framing.BinlogExact` | cmd/agent/binlog_validator.go:33-89 | accepted files are exactly magic plus one or more events that tile the file, all with matching CRC whenever the first has one |
| `Framing.SerializedIsAccepted` | cmd/agent/binlog_validator.go:33-89 | round trip: every consistent event list serializes to an accepted file with that event count |
| `Framing.RejectMismatch` | cmd/agent/binlog_validator.go:60-77 | in CRC mode one mismatching event anywhere makes the file invalid |
| `Framing.ValidateFile` | cmd/agent/binlog_validator.go:33-89 | the scan accepts exactly the binlog files, reports event count, checksum count and last position of the whole file, and on an error the counters of the events before it |
| `Append.ContinuesExact` | cmd/agent/binlog_validator.go:206-237 | chained header positions mean exactly that each event's recorded end is its physical end offset |
| `Append.ValidateEventStream` | cmd/agent/binlog_validator.go:206-237 | accepts exactly nonempty event streams whose positions continue from the expected start |
| `Append.CombinedParse` | cmd/agent/binlog_validator.go:91-157 | appending joins the event lists; the result is valid exactly when CRC mode, if on, covers the new events |
| `Append.AppendedFile` | cmd/agent/binlog_validator.go:91-157 | in the appended file new events end where they say, positions stay below 2^32, and the checksum mode is the old one |
| `Append.ValidateAppendCandidate` | cmd/agent/binlog_validator.go:91-157 | accepts exactly the appendable candidates and reports offset, size and end of the payload |
| `Spool.ActiveSpool.ReplaceFile` | cmd/agent/database_archiver.go:2070-2081 | at every intermediate step the partial file is the old one or the complete new one |
| `Spool.ActiveSpool.WriteManifest` | cmd/agent/database_archiver.go:1916-1934 | a written manifest tells size, position and checksum mode; the partial file is untouched |
| `Spool.ActiveSpool.Resume` | cmd/agent/database_archiver.go:1825-1888 | without its conditions nothing changes; with them the file passes only from old to extended, and a success strictly lengthens it |
| `Spool.ActiveSpool.Download` | cmd/agent/database_archiver.go:1785-1822 | replaces the partial file by a full nonempty download, never by part of one |
| `Spool.ActiveSpool.Update` | cmd/agent/database_archiver.go:1757-1823 | whatever fails and wherever, each change is a whole reuse, resume or download; without failures the branch taken is the documented one; a file that is kept has reached the source's size; one that is extended was shorter, and its manifest names this file and no other server; without failures a shorter file grows or makes way for what is delivered |
| `SpoolRefinement.TailPayload` | cmd/agent/binlog_validator.go:107-119 | the payload cut from a fetched tail is exactly the source's events, unless the tail comes without the magic and starts like it |
| `SpoolRefinement.CombinedIsCut` | cmd/agent/binlog_validator.go:107-119 | a cut of the source and a fetched tail put together are a cut of the source exactly if that tail was taken whole |
| `SpoolRefinement.LikeMagicCorrupts` | cmd/agent/binlog_validator.go:91-157 | a log of three events whose tail is accepted with four bytes cut off, after which the partial file is no cut of the log |
| `SpoolRefinement.MoveKeepsPrefix` | cmd/agent/database_archiver.go:1757-1888 | a possible change of the partial file keeps it a cut of the source between two events exactly if it is clean, that is no resume with such a tail |
| `SpoolRefinement.RunKeepsPrefix` | cmd/agent/database_archiver.go:1757-1888 | over a run in which the source grows the partial file is such a cut at every moment exactly if every change is clean |
| `SpoolRefinement.ResumeEqualsDownload` | cmd/agent/database_archiver.go:1825-1888 | a resume from a cut gives the file a full download would exactly if its tail is taken whole, and is accepted then |
| `SpoolRefinement.Follow` | cmd/agent/database_archiver.go:584-599 | the updates of round after round are such a run, with the source, the fetched tail and the framing of each round; if the tool always writes the magic every intermediate partial file is a cut of the source |
| `Selection.Select` | cmd/agent/database_archiver.go:1538-1587 | the next closed logs in order with their neighbours, as many as asked for or as there are: from the first log if nothing was archived, else from the one behind the log archived last; a cursor that is not listed yields the purge-gap error, never a skip |
| `Selection.RoundsExact` | cmd/agent/database_archiver.go:1538-1587 | m unarchived closed logs in batches of k take exactly m / k rounds, rounded up |
| `ArchiveSystem.SamePathSameFile` | cmd/agent/database_archiver.go:2555-2574 | two good artifacts with one queue path are the same file |
| `ArchiveSystem.StepKeeps` | cmd/agent/database_archiver.go:2055-2068 | no action changes a finalized file or a published object, or takes back a registration |
| `ArchiveSystem.StoredKept` | cmd/agent/database_archiver.go:2576-2612 | an artifact at its final key or in the queue stays at one of them through every action, including re-enqueueing and removal |
| `ArchiveSystem.ObjectsKept` | cmd/agent/database_archiver.go:2813-2830 | every final object stays a copy of the finalized local file |
| `ArchiveSystem.QueueKept` | cmd/agent/database_archiver.go:2626-2636 | every queue entry stays complete, describes its local file, lies at its own path, and within its attempt limit |
| `ArchiveSystem.BackedKept` | cmd/agent/database_archiver.go:2250-2272 | every registered file keeps its finalized copy and its place in the store or queue |
| `ArchiveSystem.StepKeepsInv` | cmd/agent/database_archiver.go:1054-1340 | every action of every party keeps the whole invariant |
| `ArchiveSystem.RunSafe` | cmd/agent/database_archiver.go:1054-1340 | the invariant holds in every state of every run |
| `ArchiveSystem.RunImmutable` | cmd/agent/database_archiver.go:2055-2068 | finalized files, final objects and registrations never change over a run |
| `ArchiveSystem.RegisteredIsArchived` | cmd/agent/database_archiver.go:1293-1322 | at every later moment a registered file is at its place in one gap-free linked segment of the history, with its unchanged local copy, and its bytes are published or queued |
| `Archiver.Agent.constructor` | cmd/agent/database_archiver.go:584-599 | an agent over a fresh system starts a run in it |
| `Archiver.Agent.Record` | cmd/agent/database_archiver.go:1054-1340 | a change that is an action of the system continues the run and keeps what is immutable |
| `Archiver.Agent.Commit` | cmd/agent/database_archiver.go:2055-2068 | with an inspection that works a nonempty finalized file is never changed; committing equal content again succeeds, other content fails |
| `CommitInspection.CommitFile` | cmd/agent/database_archiver.go:2055-2068 | with any outcome of each operation: success means a file with the checksum of the download, and a nonempty file changes exactly if its inspection fails, the rename takes effect and the content differs |
| `CommitInspection.CommittedIsAction` | cmd/agent/database_archiver.go:2055-2068 | a commit is an action of the protocol, or changes nothing, exactly if it did not overwrite a finalized file by other content |
| `CommitInspection.OverwritingBreaks` | cmd/agent/database_archiver.go:2055-2068 | overwriting the copy of a registered log by bytes of another size or checksum breaks the invariant |
| `Archiver.Agent.WriteSidecars` | cmd/agent/database_archiver.go:2274-2293 | on success both sidecar files hold the artifact's texts; a write that is cut off leaves what the disk kept of it |
| `Archiver.Agent.BuildArtifact` | cmd/agent/database_archiver.go:2215-2248 | the artifact tells size and checksum of the finalized file and carries the neighbours of the choice |
| `Archiver.Agent.Verify` | cmd/agent/database_archiver.go:2950-2973 | holds exactly when the object is there with that size and checksum |
| `Archiver.Agent.PublishSidecar` | cmd/agent/database_archiver.go:2846-2870 | touches only its own key, never replaces, and without failures succeeds exactly when nothing of another size is there |
| `Archiver.Agent.PublishFinal` | cmd/agent/database_archiver.go:2813-2830 | an existing final object is never replaced; success means it matches size and checksum |
| `Archiver.Agent.PublishSidecars` | cmd/agent/database_archiver.go:2831-2836 | the same for the two sidecars together, leaving the final object alone |
| `Archiver.Agent.Finish` | cmd/agent/database_archiver.go:2810-2837 | the part of publishing behind the staging upload, with the promises of the whole |
| `Archiver.Agent.Publish` | cmd/agent/database_archiver.go:2779-2838 | success means the final object and both sidecars are there and match, and that nothing remote contradicted them; an attempt cut off anywhere keeps publishability, leaves other files alone, and keeps the agreement with the object store if the local sidecars it may upload are complete; without failures both conditions are exact; no sidecar is uploaded before the final object is in place |
| `Archiver.Agent.InstallItem` | cmd/agent/database_archiver.go:2626-2636 | the entry is the old one or the complete new one at every step; a half-written file never gets the entry's name |
| `Archiver.Agent.Enqueue` | cmd/agent/database_archiver.go:2576-2612 | the artifact is queued with the matching delay, and with the attempt count it already had exactly if the item that is there can be read; it becomes due when its delay has passed, rounded down to a second |
| `Archiver.Agent.WaitingIsDue` | cmd/agent/database_archiver.go:2638-2653 | a failed item is not tried more than a second before its delay has passed, and is due from then on until its attempts are used up |
| `Archiver.Agent.Finalize` | cmd/agent/database_archiver.go:2250-2272 | success means stored, with both sidecar files written, with object storage or without; without failures the object store alone decides between published, queued and failed; whatever fails, an agreement with the object store is kept, and without one nothing is published |
| `Archiver.Agent.CommitAndFinalize` | cmd/agent/database_archiver.go:1663-1673 | without failures it succeeds exactly if the content is storable: it fits the finalized file, and its upload is retried or nothing remote contradicts it; whatever fails, it stays storable |
| `Archiver.Agent.ArchiveFile` | cmd/agent/database_archiver.go:1651-1674 | without failures it succeeds exactly for a safe name and a storable download; whatever fails, the download stays storable, and one that delivers nothing leaves all as it was |
| `Archiver.Agent.ArchiveStreamingSpool` | cmd/agent/database_archiver.go:1676-1725 | only a valid spool of the listed size is archived; unless it was, it is still there as it was; without failures exactly the storable ones are archived, and removed |
| `Archiver.Agent.RemoveSpool` | cmd/agent/database_archiver.go:1723-1724 | the spool file goes only after the finalized file has its checksum, and the archived artifact stays archived |
| `Archiver.Agent.TrySpool` | cmd/agent/database_archiver.go:1607-1649 | the spool is archived or set aside, and a supplied log stays supplied; without failures its place is empty afterwards |
| `Archiver.Agent.Quarantine` | cmd/agent/database_archiver.go:1727-1755 | an unusable spool file is kept, in place or under the name it gets from the second of the clock, byte for byte |
| `Archiver.Agent.ArchiveSelection` | cmd/agent/database_archiver.go:1607-1649 | whichever way is taken, the result is archived and stored; without failures, and with the tool delivering, a supplied log is archived, from its spool if that is usable; whatever fails, a failing download included, it stays supplied; on success both sidecar files are there |
| `Archiver.Agent.SourceSupplies` | cmd/agent/database_archiver.go:1607-1674 | a closed log whose downloads deliver its content or nothing is supplied, each log by its own content, also with a copy left by an earlier round |
| `Archiver.Agent.Register` | cmd/agent/database_archiver.go:2401-2421 | exactly this artifact is registered next, or nothing; a lost reply counts as a failure |
| `Archiver.Agent.ArchiveNext` | cmd/agent/database_archiver.go:1293-1322 | archives and registers one log; on an error at most that registration is added; without failures, and with the tool delivering, a supplied log succeeds, and whatever fails it stays supplied; what is registered has its sidecar files |
| `Archiver.Agent.ArchiveAt` | cmd/agent/database_archiver.go:1293-1322 | one turn of the loop: the registrations stay an in-order prefix of the chosen logs, and every chosen log stays supplied whatever fails |
| `Archiver.Agent.ArchiveBatch` | cmd/agent/database_archiver.go:1293-1322 | registrations grow by chosen logs in order, all of them unless there is an error; without failures, with the tool delivering and every chosen log supplied there is none; whatever fails they stay supplied |
| `Archiver.Agent.Checkpoint` | cmd/agent/database_archiver.go:1323-1339 | the cursor moves only to a registered file |
| `Archiver.Agent.ProcessStream` | cmd/agent/database_archiver.go:1145-1340 | a whole round on what the source lists: in-order registrations, from the first listed log in the first round and from behind the last registered one later, each with its sidecar files; the purge gap as an error, and on success exactly one batch, ending where the next round continues; without failures, and with the tool delivering, it succeeds if the selected logs are supplied, and however it is cut off they stay supplied |
| `Archiver.Agent.CatchUp` | cmd/agent/database_archiver.go:584-599 | rounds until nothing is left, if all succeed on a source that stands still, are m / k rounded up, and register all m logs |
| `Archiver.Agent.ProcessItem` | cmd/agent/database_archiver.go:2692-2754 | a queued upload is removed only when published, else its attempts grow by at most one; the agreement with the object store is kept if the local sidecars it may upload have the right sizes, and without failures exactly then; one that cannot be read is left as it is; a failed one waits for its delay |
| `Archiver.Agent.TryItem` | cmd/agent/database_archiver.go:2716-2732 | the same behind reading the item: a file that fails its validation is not uploaded and counts one attempt |
| `Archiver.Agent.UploadItem` | cmd/agent/database_archiver.go:2723-2736 | the same behind the validation: the item goes only with its object in place |
| `Archiver.Agent.RemoveItem` | cmd/agent/database_archiver.go:2733-2736 | a finished item is removed whole or left as it was, other entries are untouched |
| `Archiver.Agent.CountAttempt` | cmd/agent/database_archiver.go:2724-2731 | one more attempt, and the due time after its delay, are recorded if the file can be written |
| `Archiver.Agent.ProcessQueue` | cmd/agent/database_archiver.go:2655-2690 | each entry is tried at most once; one whose time has not come or whose attempts are used up stays as it is, none disappears unpublished; without failures every other one is published and removed if it can be, or counts one attempt |
| `ArchiveFrames.AgreementKept` | cmd/agent/database_archiver.go:2831-2836 | what an attempt uploads keeps the agreement exactly if it fits, when it uploads all it can |
| `PublishDrift.DriftIsReachable` | cmd/agent/database_archiver.go:2655-2754 | a run from a fresh agent, with object storage and retries on and the log closed throughout, in which a torn manifest is published from the queue; afterwards the object store disagrees with the complete manifest exactly if the sizes differ |
| `PublishDrift.DriveIntoDrift` | cmd/agent/database_archiver.go:2655-2754 | the agent's own methods get there from every initial state with that log closed, whatever the source does, by one failed upload and one manifest cut off; the same exact condition |
| `PublishDrift.DisagreementIsForever` | cmd/agent/database_archiver.go:2846-2870 | in every continuation of every run a disagreement with the object store lasts |
| `QueueNames.SanitizeSafe` | cmd/agent/database_archiver.go:2559-2566 | sanitizing leaves safe names alone |
| `QueueNames.SanitizedIsSafe` | cmd/agent/database_archiver.go:2559-2566 | whatever is sanitized comes out as an ordinary name without dashes at its ends |
| `Names.LogNamesAreSafe` | cmd/agent/database_archiver.go:3141-3152 | the names MySQL gives its logs are accepted, and none with a separator or white space is |
| `QueueNames.QueueFileInjective` | cmd/agent/database_archiver.go:2555-2574 | distinct streams, safe files or 16-character checksum prefixes never share a queue file |
| `QueueNames.QueueFileExact` | cmd/agent/database_archiver.go:2555-2574 | two uploads share a queue file exactly if stream, file and the 16-character prefix of the checksum are the same |
| `QueueNames.TmpIsNoEntry` | cmd/agent/database_archiver.go:2626-2636 | the temporary file is never read as an entry |
| `RollingLog.SuffixSurvives` | cmd/agent/database_archiver.go:2083-2213 | the files hold a suffix of the stream, rotated files are exactly full, the newest maxFiles * maxBytes bytes survive, disk use is bounded |
| `RollingLog.RotationRefines` | cmd/agent/database_archiver.go:2186-2213 | a rotation gives up only the oldest file |
| `RollingLog.ShiftedRetains` | cmd/agent/database_archiver.go:2193-2206 | the shift moves the retained bytes up one file without reordering |
| `RollingLog.RenameAll` | cmd/agent/database_archiver.go:2193-2206 | renaming from the oldest down shifts every file by one |
| `RollingLog.Writer.Make` | cmd/agent/database_archiver.go:2092-2110 | limits that make no sense are replaced by the defaults; the writer comes with its current file open, or not at all |
| `RollingLog.Writer.Open` | cmd/agent/database_archiver.go:2165-2184 | opening succeeds with room in the current file, rotating a full one |
| `RollingLog.Writer.Rotate` | cmd/agent/database_archiver.go:2186-2213 | after a rotation the current file is new and empty, also when re-opening fails nothing else is lost |
| `RollingLog.Writer.Write` | cmd/agent/database_archiver.go:2112-2151 | terminates for every pattern of partial writes and returns the number of bytes that reached the stream, across rotations |
| `Backoff.UploadRetryDelay` | cmd/agent/database_archiver.go:2638-2653 | the loop equals min(base * 2^attempts, max) |
| `Backoff.StreamDelay` | cmd/agent/database_archiver.go:677-707 | the loop equals min(base * 2^(failures - 1), max) |
| `Backoff.DelayMonotone` | cmd/agent/database_archiver.go:2638-2653 | delays never shrink and stay at the limit |
| `Backoff.DelayExact` | cmd/agent/database_archiver.go:2638-2653 | the first delay is the base, each further one twice the one before, and none exceeds the limit |
| `Backoff.ResolvedDoubles` | cmd/agent/database_archiver.go:393-452 | every raw configuration resolves to durations for which doubling never overflows 64 bits |
| `Backoff.ResolvedExact` | cmd/agent/database_archiver.go:393-452 | values within their bounds are used as configured, others become the default or the bound |
| `Backoff.StreamBackoff.constructor` | cmd/agent/database_archiver.go:393-412 | an empty table with the resolved limits |
| `Backoff.StreamBackoff.Remaining` | cmd/agent/database_archiver.go:656-675 | the time left until the last failure plus the delay for the current streak, 0 without a streak |
| `Backoff.StreamBackoff.Admit` | cmd/agent/database_archiver.go:619-653 | an attempt begins exactly if the delay has passed, so attempts after k failures in a row are the k-th delay apart |
| `Backoff.StreamBackoff.MarkFailure` | cmd/agent/database_archiver.go:677-707 | the counter is the number of failures since the last success, one more than before for this stream and as before for the others, and the deadline belongs to it |
| `Backoff.StreamBackoff.MarkSuccess` | cmd/agent/database_archiver.go:709-717 | streak, counter and deadline are gone |
| `ProcessTable.StreamingTable.CollectExit` | cmd/agent/database_archiver.go:768-796 | takes out exactly an entry whose process has ended |
| `ProcessTable.StreamingTable.StopStream` | cmd/agent/database_archiver.go:920-970 | the entry is detached and no other is touched |
| `ProcessTable.StreamingTable.StopNotIn` | cmd/agent/database_archiver.go:896-902 | exactly the wanted entries stay |
| `ProcessTable.StreamingTable.StopAll` | cmd/agent/database_archiver.go:904-908 | the table is empty, every entry accounted for |
| `ProcessTable.StreamingTable.Enter` | cmd/agent/database_archiver.go:798-894 | restart count is the number of earlier starts; an entry already there is lost, exactly then |
| `ProcessTable.StartsCounted` | cmd/agent/database_archiver.go:865-866 | the count of earlier starts is how often the stream occurs among them |
| `ProcessTable.StreamingTable.Advance` | cmd/agent/database_archiver.go:719-744 | one step of one goroutine brings its own stream forward and touches no other |
| `ProcessTable.OthersServed` | cmd/agent/database_archiver.go:632-650 | neither a step for another stream nor the end of a process undoes what was done for a stream |
| `ProcessTable.StreamingTable.RunRound` | cmd/agent/database_archiver.go:632-653 | under any interleaving no entry is lost, what runs is kept and not started again, what has ended is replaced, unwanted streams are stopped, and no stream is started twice |
| `ProcessTable.StreamingTable.RunOnce` | cmd/agent/database_archiver.go:601-654 | without heartbeat or listing the table is emptied, else it holds assigned streams only, each served as above |
| `RateLimiter.LimitedReader.Read` | cmd/agent/database_archiver.go:2925-2948 | over all k nonempty reads so far, N * 10^9 < bytesPerSecond * (T + k) while products fit 64 bits; a read delivers no less than it may, and sleeps for the rest of n * 10^9 / bytesPerSecond and no longer, but for what the sleep overshoots |
| `SourceText.JoinSplit` | internal/server/upload.go:471-471 | joining the split lines gives the file back |
| `SourceText.SplitJoin` | internal/server/upload.go:582-582 | splitting joined lines gives the lines back |
| `SourceText.TrimExact` | internal/server/upload.go:744-744 | trimming takes away all white space at both ends of a line, and nothing else |
| `BackendPlugin.FindImportClose` | internal/server/upload.go:499-512 | the scan finds the line that closes the first import block |
| `BackendPlugin.FindLastCall` | internal/server/upload.go:528-535 | the backward scan finds the last registration call |
| `BackendPlugin.FindBlockClose` | internal/server/upload.go:537-559 | the brace count finds the line that balances the block |
| `BackendPlugin.Register` | internal/server/upload.go:462-588 | the edit is the specification function whose undoing and repetition are proved |
| `PluginPlaces.ImportPlace` | internal/server/upload.go:499-521 | the import goes in front of the first closing parenthesis behind the opening of an import block, and nowhere else |
| `PluginPlaces.RegistrationIsBehind` | internal/server/upload.go:523-576 | the registration goes behind the first line, from the last registration call on, at which as many lines close a brace as open one |
| `PluginPlaces.NoRegistration` | internal/server/upload.go:523-576 | without such a line nothing is added |
| `BackendPlugin.SkipRegistration` | internal/server/upload.go:747-800 | steps over exactly one block and one blank line |
| `PluginPlaces.BlockGoes` | internal/server/upload.go:758-808 | a line that starts a registration takes the lines up to the first one at which as many close a brace as open one, counted behind the comment, and one blank line |
| `PluginPlaces.UnbalancedTakesRest` | internal/server/upload.go:776-803 | if there is no such line, all the rest of the file goes |
| `BackendPlugin.Unregister` | internal/server/upload.go:722-848 | the scan leaves exactly the lines outside the plugin's imports and blocks |
| `PluginPlaces.UnquotedPathStays` | internal/server/upload.go:742-754 | a line that names the import path without a quotation mark is no import |
| `BackendPluginUndo.RegistrationGoes` | internal/server/upload.go:747-800 | an inserted block is removed whole, with one blank line behind it |
| `BackendPluginUndo.UnregisterLeaves` | internal/server/upload.go:722-848 | what is left of an edited file, whatever surrounds the inserted block |
| `BackendPluginUndo.ImportKeepsPlace` | internal/server/upload.go:523-559 | adding the import only shifts the place of the registration |
| `BackendPluginUndo.UnregisterUndoesRegister` | internal/server/upload.go:722-848 | unregistering undoes registering exactly when no block was found or the line behind it is empty |
| `PluginNeighbours.CrowdedFileNotRestored` | internal/server/upload.go:722-848 | a file with code right behind the registration, which is not restored for any plugin |
| `BackendPluginUndo.RegisterTwice` | internal/server/upload.go:479-496 | registering twice is registering once, for every source |
| `PluginFiles.UnregisterRestoresFile` | internal/server/upload.go:722-848 | the same on the text of the file, byte for byte |
| `PluginNeighbours.NeighbourSurvives` | internal/server/upload.go:722-848 | on whole sources: unregistering a plugin leaves another one's registration alone exactly if that has no import block to lose its line from or its name does not start with the plugin's, and its comment does not read as the plugin's |
| `PluginNeighbours.NeighbourSurvivesInFile` | internal/server/upload.go:722-848 | the same on the text of the file |
| `PluginPairs.FirstInFirstOut` | internal/server/upload.go:722-848 | with two plugins installed, unregistering the first one leaves the file as if only the second one had been registered, exactly unless there is an import block and one name starts with the other, or a place for registrations and the second name ends the first or its comment reads as the first one's |
| `PluginPairs.LastInFirstOut` | internal/server/upload.go:722-848 | unregistering the second one undoes its registration, exactly unless there is an import block and the first name starts with the second, or a place for registrations and the first one's comment reads as the second's, or a line behind them that is not empty and a call that was added |
| `PluginNeighbours.CallWithoutImport` | internal/server/upload.go:744-754 | in the failing case the other plugin's import goes and its call stays |
| `PluginNeighbours.PrefixLosesImport` | internal/server/upload.go:744-754 | that case on a file with an import block and a registration |
| `PluginNeighbours.UnregisteredExact` | internal/server/upload.go:742-822 | unregistering changes nothing exactly if no line reads as an import or a registration of the plugin |
| `PluginNeighbours.CallSeenBySuffix` | internal/server/upload.go:486-488 | another plugin's call passes for a plugin's own exactly if its name ends with it |
| `PluginNeighbours.Shadowed` | internal/server/upload.go:479-521 | behind such a plugin the call is never added, behind one whose name starts with its own the import is not |
| `FrontendPlugin.FindPlace` | internal/server/upload.go:418-440 | the scans find that place |
| `FrontendPlugin.Register` | internal/server/upload.go:396-459 | one import line is inserted there; the panic happens exactly for a short file without any anchor |
| `FrontendPlugin.Unregister` | internal/server/upload.go:665-719 | the filter is the specification function below |
| `FrontendPlugin.UnregisterUndoesInsertion` | internal/server/upload.go:665-719 | wherever the line was put, unregistering restores the lines, and a second registration finds it |
| `FrontendPlugin.ImportLineExact` | internal/server/upload.go:405-416 | a plugin's import line occurs in another's exactly if they are the same plugin |
| `FrontendPlugin.NeighbourStays` | internal/server/upload.go:665-719 | unregistering a plugin leaves the import of every other one alone |

## Left out

- HTTP and JSON, MySQL queries, the `mysqlbinlog` process, the S3 client: arbitrary answers of `io`, `download` and `fetch`; event reports, heartbeat contents and log lines are not modelled.
- First and last event times of an artifact, file modes, and the clean-up of temporary directories.
- Snapshots of the active log (`includeCurrent`): `Selection.Select` covers both values; the protocol in `Archiver` takes `false`, as streaming mode does.
- One stream at a time: the directories, keys and queue names of different streams are disjoint, and one agent serves a stream.
- The server is the list of registered files and a cursor; its own code is not part of this model.
- The streaming process writes only the spool file of the active log, so one that lags behind a rotation is not modelled; log names of the source are distinct and nonempty.
- Reading the local files works except where `io` is asked.
- `Archiver.Agent.Commit`: its first inspection of the final path works; what a failing one does is `CommitInspection`.
- A resume manifest says which server a partial file came from, but the reuse branch does not look at it; so the spool theorems are about one fixed source.
- A failing removal or rename during log rotation, and files left in the log directory by an earlier process.
- `Archiver.Agent.WriteSidecars`: sidecar texts are arbitrary functions of the artifact, because their JSON layout is not modelled; remote sidecars are compared by size only, as in the code.
- `Archiver.Agent.Quarantine`: a file quarantined in the same second before is overwritten, as in the code, and nothing is promised for it; moving the manifest beside the spool file is not modelled.
- `Archiver.Agent.ProcessQueue`: reading the directory works, else the pass does nothing; the entries are visited in an arbitrary order instead of by name; the re-validation of a queued file succeeds or fails by `io`, since the invariant already gives its size and checksum.
- `ProcessTable.StreamingTable.Enter`: starting the process itself and its log files are not modelled; two listings with one stream id twice are outside `RunRound`.
- `RateLimiter.LimitedReader.Read`: the bound holds as long as each read's n * 10^9 fits 64 bits, which is shown for every rate below 92 GB/s.
- `BackendPluginUndo.UnregisterUndoesRegister`: plugin names hold none of `/ . { } ( ) "` and no line break; names with these do not occur in Go import aliases.
- `FrontendPlugin.ImportLineExact`: plugin names hold no single quote, which would end the import string.
- `FrontendPlugin.Unregister`: like the backend edits on lists of lines; reading and writing the file is not modelled.
- Zip extraction and plugin-name detection, agent deployment, plugin menus, and the rest of the repository.
