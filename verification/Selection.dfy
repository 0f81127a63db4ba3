/** Choosing the binlog files to archive next (cmd/agent/database_archiver.go). */
module Selection {
  import opened Common
  import opened SourceText

  datatype LogFile = LogFile(name: string, size: nat)

  /** A chosen file with its neighbours in the source's listing; "" stands for none. */
  datatype Choice = Choice(file: string, size: nat, previous: string, next: string)

  datatype SelectError = NothingListed | PurgeGap(lastArchived: string, first: string, last: string)

  const DEFAULT_MAX_FILES: nat := 5

  function Limit(maxFiles: int): nat {
    if maxFiles <= 0 then DEFAULT_MAX_FILES else if 20 < maxFiles then 20 else maxFiles
  }

  /** First position of a name in the listing. */
  function IndexOf(logs: seq<LogFile>, name: string): (r: Option<nat>)
    ensures r.Some? ==> r.value < |logs| && logs[r.value].name == name
    ensures r.None? ==> forall i | 0 <= i < |logs| :: logs[i].name != name
  {
    if logs == [] then None
    else if logs[0].name == name then Some(0)
    else match IndexOf(logs[1..], name) case None => None case Some(i) => Some(i + 1)
  }

  /** Position behind the file archived last; the front if nothing was archived; none after a purge. */
  function StartOf(logs: seq<LogFile>, last: string): Option<nat> {
    if last == "" then Some(0)
    else match IndexOf(logs, last) case None => None case Some(i) => Some(i + 1)
  }

  function ChoiceAt(logs: seq<LogFile>, i: nat): Choice
    requires i < |logs|
  {
    Choice(logs[i].name, logs[i].size,
           if 0 < i then logs[i - 1].name else "",
           if i + 1 < |logs| then logs[i + 1].name else "")
  }

  /** How many files a round takes from position `start` on. */
  function BatchSize(logs: seq<LogFile>, start: nat, maxFiles: int, includeCurrent: bool): nat {
    var end := if includeCurrent then |logs| else |logs| - 1;
    if end <= start then 0 else if Limit(maxFiles) < end - start then Limit(maxFiles) else end - start
  }

  method ClampFiles(maxFiles: int) returns (limit: nat)
    ensures limit == Limit(maxFiles) && 1 <= limit <= 20
  {
    if maxFiles <= 0 {
      return DEFAULT_MAX_FILES;
    }
    return if 20 < maxFiles then 20 else maxFiles;
  }

  /** The logs from position `from` on, with their neighbours: as many as asked for, or as there are. */
  predicate IsBatch(batch: seq<Choice>, logs: seq<LogFile>, from: nat, maxFiles: int, includeCurrent: bool) {
    var left := (if includeCurrent then |logs| else |logs| - 1) - from;
    var most := if maxFiles <= 0 then 5 else if 20 < maxFiles then 20 else maxFiles;
    && |batch| == (if left <= 0 then 0 else if left < most then left else most)
    && forall k | 0 <= k < |batch| ::
         && from + k < |logs|
         && batch[k].file == logs[from + k].name && batch[k].size == logs[from + k].size
         && batch[k].previous == (if from + k == 0 then "" else logs[from + k - 1].name)
         && batch[k].next == (if from + k == |logs| - 1 then "" else logs[from + k + 1].name)
  }

  /** Where the search for the file archived last ends. */
  lemma StartExact(logs: seq<LogFile>, last: string)
    ensures last == "" ==> StartOf(logs, last) == Some(0)
    ensures forall i | 0 <= i < |logs| && logs[i].name == last != "" ::
              (forall j | 0 <= j < i :: logs[j].name != last) ==> StartOf(logs, last) == Some(i + 1)
    ensures last != "" && (forall i | 0 <= i < |logs| :: logs[i].name != last) ==> StartOf(logs, last).None?
  {
    hide IndexOf;
    forall i | 0 <= i < |logs| && logs[i].name == last && forall j | 0 <= j < i :: logs[j].name != last
      ensures IndexOf(logs, last) == Some(i)
    {
      FirstIndex(logs, last, i);
    }
  }

  /** The files of one round: the next closed ones in order, never skipping a purged gap. */
  method Select(logs: seq<LogFile>, lastArchived: string, maxFiles: int, includeCurrent: bool)
    returns (r: Result<seq<Choice>, SelectError>)
    ensures logs == [] ==> r == Failure(NothingListed)
    ensures logs != [] && StartOf(logs, TrimSpace(lastArchived)).None? ==>
              r == Failure(PurgeGap(TrimSpace(lastArchived), logs[0].name, logs[|logs| - 1].name))
    ensures logs != [] && StartOf(logs, TrimSpace(lastArchived)).Some? ==>
              var start := StartOf(logs, TrimSpace(lastArchived)).value;
              && r.Success? && |r.value| == BatchSize(logs, start, maxFiles, includeCurrent)
              && forall k | 0 <= k < |r.value| :: start + k < |logs| && r.value[k] == ChoiceAt(logs, start + k)
    // With nothing archived yet the batch begins with the first log, else behind the one archived last.
    ensures logs != [] && TrimSpace(lastArchived) == "" ==>
              r.Success? && IsBatch(r.value, logs, 0, maxFiles, includeCurrent)
    ensures forall i | 0 <= i < |logs| && logs[i].name == TrimSpace(lastArchived) != "" ::
              (forall j | 0 <= j < i :: logs[j].name != TrimSpace(lastArchived)) ==>
                r.Success? && IsBatch(r.value, logs, i + 1, maxFiles, includeCurrent)
    ensures logs != [] && TrimSpace(lastArchived) != "" ==>
              (forall i | 0 <= i < |logs| :: logs[i].name != TrimSpace(lastArchived)) ==>
                r == Failure(PurgeGap(TrimSpace(lastArchived), logs[0].name, logs[|logs| - 1].name))
  {
    hide TrimSpace, IsBatch, StartOf, BatchSize, ChoiceAt;
    if logs == [] {
      return Failure(NothingListed);
    }
    var last := TrimSpace(lastArchived);
    StartExact(logs, last);
    var start := FindStart(logs, last);
    if start.None? {
      return Failure(PurgeGap(last, logs[0].name, logs[|logs| - 1].name));
    }
    var result := Take(logs, start.value, maxFiles, includeCurrent);
    return Success(result);
  }

  /** Looks for the file archived last. */
  method FindStart(logs: seq<LogFile>, last: string) returns (start: Option<nat>)
    ensures start == StartOf(logs, last)
    ensures start.Some? ==> start.value <= |logs|
  {
    hide IndexOf;
    if last == "" {
      return Some(0);
    }
    for i := 0 to |logs|
      invariant forall j | 0 <= j < i :: logs[j].name != last
    {
      if logs[i].name == last {
        FirstIndex(logs, last, i);
        return Some(i + 1);
      }
    }
    return None;
  }

  /** At most as many logs as asked for, from position `start` on. */
  method Take(logs: seq<LogFile>, start: nat, maxFiles: int, includeCurrent: bool) returns (result: seq<Choice>)
    requires logs != [] && start <= |logs|
    ensures IsBatch(result, logs, start, maxFiles, includeCurrent)
    ensures |result| == BatchSize(logs, start, maxFiles, includeCurrent)
    ensures forall k | 0 <= k < |result| :: start + k < |logs| && result[k] == ChoiceAt(logs, start + k)
  {
    var limit := ClampFiles(maxFiles);
    var end := |logs|;
    if !includeCurrent {
      end := |logs| - 1;
    }
    if end <= start {
      return [];
    }
    if limit < end - start {
      end := start + limit;
    }
    result := [];
    for k := start to end
      invariant |result| == k - start
      invariant forall j | 0 <= j < |result| :: result[j] == ChoiceAt(logs, start + j)
    {
      var selection := Choice(logs[k].name, logs[k].size, "", "");
      if 0 < k {
        selection := selection.(previous := logs[k - 1].name);
      }
      if k + 1 < |logs| {
        selection := selection.(next := logs[k + 1].name);
      }
      result := result + [selection];
    }
  }

  lemma {:induction false} FirstIndex(logs: seq<LogFile>, name: string, i: nat)
    requires i < |logs| && logs[i].name == name
    requires forall j | 0 <= j < i :: logs[j].name != name
    ensures IndexOf(logs, name) == Some(i)
  {
    if 0 < i {
      assert forall j | 0 <= j < i - 1 :: logs[1..][j] == logs[j + 1];
      FirstIndex(logs[1..], name, i - 1);
    }
  }

  predicate DistinctNames(logs: seq<LogFile>) {
    (forall i | 0 <= i < |logs| :: logs[i].name != "") &&
    forall i, j | 0 <= i < j < |logs| :: logs[i].name != logs[j].name
  }

  /** Closed files behind the cursor that are not archived yet. */
  function Unarchived(logs: seq<LogFile>, last: string): nat {
    match StartOf(logs, last)
    case None => 0
    case Some(start) => if |logs| <= start + 1 then 0 else |logs| - 1 - start
  }

  /** The cursor after a successful round: the name of the last file of its batch. */
  function NextCursor(logs: seq<LogFile>, last: string, maxFiles: int): string {
    match StartOf(logs, last)
    case None => last
    case Some(start) =>
      var n := BatchSize(logs, start, maxFiles, false);
      if n == 0 then last else logs[start + n - 1].name
  }

  /** Number of successful rounds until nothing is selected any more, if the source stands still. */
  function RoundsToEmpty(logs: seq<LogFile>, last: string, maxFiles: int): nat
    requires DistinctNames(logs)
    decreases Unarchived(logs, last)
  {
    if Unarchived(logs, last) == 0 then 0
    else
      RoundAdvances(logs, last, maxFiles);
      1 + RoundsToEmpty(logs, NextCursor(logs, last, maxFiles), maxFiles)
  }

  /** A round archives a full batch, or everything that is left. */
  lemma RoundAdvances(logs: seq<LogFile>, last: string, maxFiles: int)
    requires DistinctNames(logs) && 0 < Unarchived(logs, last)
    ensures var m, k := Unarchived(logs, last), Limit(maxFiles);
            Unarchived(logs, NextCursor(logs, last, maxFiles)) == if k < m then m - k else 0
    ensures 1 <= Limit(maxFiles)
  {
    var start := StartOf(logs, last).value;
    var n := BatchSize(logs, start, maxFiles, false);
    FirstIndex(logs, logs[start + n - 1].name, start + n - 1);
  }

  /** A round empties the selection exactly if its batch is empty, and else takes its batch off it. */
  lemma BatchTaken(logs: seq<LogFile>, last: string, maxFiles: int)
    requires DistinctNames(logs) && StartOf(logs, last).Some?
    ensures var n := BatchSize(logs, StartOf(logs, last).value, maxFiles, false);
            && (n == 0 <==> Unarchived(logs, last) == 0)
            && n <= Unarchived(logs, last)
            && Unarchived(logs, NextCursor(logs, last, maxFiles)) == Unarchived(logs, last) - n
            && RoundsToEmpty(logs, last, maxFiles) ==
               if n == 0 then 0 else 1 + RoundsToEmpty(logs, NextCursor(logs, last, maxFiles), maxFiles)
  {
    if 0 < Unarchived(logs, last) {
      RoundAdvances(logs, last, maxFiles);
    }
  }

  /** With m unarchived closed files and batches of k it takes exactly m / k rounds, rounded up. */
  lemma {:induction false} RoundsExact(logs: seq<LogFile>, last: string, maxFiles: int)
    requires DistinctNames(logs)
    ensures var m, k := Unarchived(logs, last), Limit(maxFiles);
            0 < k && RoundsToEmpty(logs, last, maxFiles) == (m + k - 1) / k
    decreases Unarchived(logs, last)
  {
    var m, k := Unarchived(logs, last), Limit(maxFiles);
    if 0 < m {
      RoundAdvances(logs, last, maxFiles);
      RoundsExact(logs, NextCursor(logs, last, maxFiles), maxFiles);
      if k < m {
        CeilStep(m, k);
      } else {
        CeilOne(m, k);
      }
    } else {
      CeilZero(k);
    }
  }

  lemma CeilStep(m: nat, k: nat)
    requires 0 < k < m
    ensures (m + k - 1) / k == 1 + (m - k + k - 1) / k
  {
    var q, r := (m - 1) / k, (m - 1) % k;
    assert m - 1 == k * q + r;
    assert k * (q + 1) == k * q + k;
    QuotientUnique(m + k - 1, k, q + 1, r);
  }

  lemma QuotientUnique(a: nat, k: nat, q: nat, r: nat)
    requires 0 < k && r < k && a == k * q + r
    ensures a / k == q
  {
    var q', r' := a / k, a % k;
    assert a == k * q' + r';
    ProductOrder(q' + 1, q, k);
    ProductOrder(q + 1, q', k);
  }

  lemma ProductOrder(a: nat, b: nat, k: nat)
    ensures a <= b ==> k * a <= k * b
    ensures k * (a + 1) == k * a + k
  {
    if a <= b {
      assert k * b == k * a + k * (b - a);
    }
  }

  lemma CeilOne(m: nat, k: nat)
    requires 0 < m <= k
    ensures (m + k - 1) / k == 1 && (0 + k - 1) / k == 0
  {
    QuotientUnique(m + k - 1, k, 1, m - 1);
    CeilZero(k);
  }

  lemma CeilZero(k: nat)
    requires 0 < k
    ensures (0 + k - 1) / k == 0
  {
    QuotientUnique(k - 1, k, 0, k - 1);
  }
}
