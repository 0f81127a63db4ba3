/** File names in the upload retry queue (cmd/agent/database_archiver.go). */
module QueueNames {
  import opened Names
  import opened SourceText

  function Decimal(n: nat): (s: string)
    ensures s != ""
  {
    (if n < 10 then "" else Decimal(n / 10)) + ["0123456789"[n % 10]]
  }

  predicate AllDigits(s: string) {
    forall i | 0 <= i < |s| :: '0' <= s[i] <= '9'
  }

  predicate AllHex(s: string) {
    forall i | 0 <= i < |s| :: '0' <= s[i] <= '9' || 'a' <= s[i] <= 'f'
  }

  /** A SHA-256 sum in lower-case hexadecimal. */
  type Checksum = s: string | |s| == 64 && AllHex(s) witness seq(64, _ => '0')

  function SumPrefix(sum: string): string {
    if 16 < |sum| then sum[..16] else sum
  }

  function QueueId(stream: nat, file: string, sum: string): string {
    "stream-" + Decimal(stream) + "-" + file + "-" + SumPrefix(sum)
  }

  /** Each run of unusual characters becomes one dash. */
  function Squeeze(s: string, inRun: bool): string {
    if s == "" then ""
    else if IsSafeChar(s[0]) then [s[0]] + Squeeze(s[1..], false)
    else (if inRun then "" else "-") + Squeeze(s[1..], true)
  }

  function TrimDashes(s: string): string
    decreases |s|
  {
    if s != "" && s[0] == '-' then TrimDashes(s[1..])
    else if s != "" && s[|s| - 1] == '-' then TrimDashes(s[..|s| - 1])
    else s
  }

  function Sanitize(value: string): string {
    var v := TrimSpace(value);
    if v == "" then "upload" else TrimDashes(Squeeze(v, false))
  }

  function QueueFile(stream: nat, file: string, sum: string): string {
    Sanitize(QueueId(stream, file, sum)) + ".json"
  }

  /** The file that a queue entry is first written to. */
  function TmpOf(path: string): string {
    path + ".tmp"
  }

  /** The queue reads only files with this ending. */
  predicate IsQueueEntry(name: string) {
    5 <= |name| && name[|name| - 5..] == ".json"
  }

  lemma {:induction false} SqueezeSafe(s: string, inRun: bool)
    requires AllSafe(s)
    ensures Squeeze(s, inRun) == s
  {
    if s != "" {
      SqueezeSafe(s[1..], false);
    }
  }

  /** Sanitizing leaves ordinary names alone. */
  lemma SanitizeSafe(s: string)
    requires AllSafe(s) && s != "" && s[0] != '-' && s[|s| - 1] != '-'
    ensures Sanitize(s) == s
  {
    assert TrimLeft(s) == s && TrimRight(s) == s;
    SqueezeSafe(s, false);
  }

  lemma {:induction false} SqueezedIsSafe(s: string, inRun: bool)
    ensures AllSafe(Squeeze(s, inRun))
  {
    if s != "" {
      SqueezedIsSafe(s[1..], !IsSafeChar(s[0]));
    }
  }

  lemma {:induction false} TrimmedIsSafe(s: string)
    requires AllSafe(s)
    ensures AllSafe(TrimDashes(s))
    ensures TrimDashes(s) != "" ==> TrimDashes(s)[0] != '-' && TrimDashes(s)[|TrimDashes(s)| - 1] != '-'
    decreases |s|
  {
    if s != "" && s[0] == '-' {
      TrimmedIsSafe(s[1..]);
    } else if s != "" && s[|s| - 1] == '-' {
      TrimmedIsSafe(s[..|s| - 1]);
    }
  }

  /** Whatever is sanitized comes out as an ordinary name without dashes at its ends. */
  lemma SanitizedIsSafe(value: string)
    ensures AllSafe(Sanitize(value))
    ensures Sanitize(value) != "" ==> Sanitize(value)[0] != '-' && Sanitize(value)[|Sanitize(value)| - 1] != '-'
  {
    hide TrimSpace;
    var v := TrimSpace(value);
    SqueezedIsSafe(v, false);
    TrimmedIsSafe(Squeeze(v, false));
    assert AllSafe("upload");
  }

  lemma {:induction false} DecimalDigits(n: nat)
    ensures AllDigits(Decimal(n))
  {
    if 10 <= n {
      DecimalDigits(n / 10);
    }
  }

  function Value(s: string): int {
    if s == "" then 0 else 10 * Value(s[..|s| - 1]) + (s[|s| - 1] as int - '0' as int)
  }

  lemma {:induction false} DecimalValue(n: nat)
    ensures Value(Decimal(n)) == n
  {
    var s := Decimal(n);
    var front := if n < 10 then "" else Decimal(n / 10);
    assert s[..|s| - 1] == front && s[|s| - 1] == "0123456789"[n % 10];
    assert "0123456789"[n % 10] as int - '0' as int == n % 10;
    if 10 <= n {
      DecimalValue(n / 10);
    }
  }

  lemma SafeConcat(a: string, b: string)
    requires AllSafe(a) && AllSafe(b)
    ensures AllSafe(a + b)
  {
  }

  lemma QueueIdSafe(stream: nat, file: string, sum: string)
    requires AllSafe(file) && AllHex(sum) && 16 <= |sum|
    ensures var id := QueueId(stream, file, sum);
            AllSafe(id) && id != "" && id[0] == 's' && id[|id| - 1] != '-'
  {
    DecimalDigits(stream);
    hide Decimal;
    var a := "stream-" + Decimal(stream);
    SafeConcat("stream-", Decimal(stream));
    SafeConcat(a, "-");
    SafeConcat(a + "-", file);
    SafeConcat(a + "-" + file, "-");
    SafeConcat(a + "-" + file + "-", SumPrefix(sum));
    var id := QueueId(stream, file, sum);
    assert id == a + "-" + file + "-" + SumPrefix(sum);
    assert id[|id| - 1] == SumPrefix(sum)[15];
  }

  lemma DashShows(d: string, r: string, d': string, r': string)
    requires d + "-" + r == d' + "-" + r'
    ensures |d| < |d'| ==> d'[|d|] == '-'
  {
    var s, s' := d + "-" + r, d' + "-" + r';
    if |d| < |d'| {
      assert s[|d|] == '-' && s'[|d|] == d'[|d|];
    }
  }

  /** The digits in front of the first dash are determined. */
  lemma FirstDash(d: string, r: string, d': string, r': string)
    requires AllDigits(d) && AllDigits(d') && d + "-" + r == d' + "-" + r'
    ensures d == d' && r == r'
  {
    DashShows(d, r, d', r');
    DashShows(d', r', d, r);
    var s, s' := d + "-" + r, d' + "-" + r';
    assert s[..|d|] == d && s'[..|d'|] == d';
    assert s[|d| + 1..] == r && s'[|d'| + 1..] == r';
  }

  lemma SanitizedId(stream: nat, file: string, sum: string)
    requires AllSafe(file) && AllHex(sum) && 16 <= |sum|
    ensures QueueFile(stream, file, sum) == QueueId(stream, file, sum) + ".json"
  {
    QueueIdSafe(stream, file, sum);
    SanitizeSafe(QueueId(stream, file, sum));
  }

  lemma IdParts(stream: nat, file: string, sum: string)
    requires 16 <= |sum|
    ensures QueueId(stream, file, sum)[7..] == Decimal(stream) + "-" + (file + "-" + sum[..16])
  {
    hide Decimal;
    var d := Decimal(stream);
    assert SumPrefix(sum) == sum[..16];
    assert QueueId(stream, file, sum) == "stream-" + (d + "-" + (file + "-" + sum[..16]));
  }

  lemma SameTail(a: string, b: string, a': string, b': string)
    requires a + b == a' + b' && |b| == |b'|
    ensures a == a' && b == b'
  {
    assert a == (a + b)[..|a|] && a' == (a' + b')[..|a'|];
    assert b == (a + b)[|a|..] && b' == (a' + b')[|a'|..];
  }

  /** Distinct streams, files or checksum prefixes never share a queue file. */
  lemma QueueFileInjective(stream: nat, file: string, sum: string, stream': nat, file': string, sum': string)
    requires AllSafe(file) && AllHex(sum) && 16 <= |sum|
    requires AllSafe(file') && AllHex(sum') && 16 <= |sum'|
    requires QueueFile(stream, file, sum) == QueueFile(stream', file', sum')
    ensures stream == stream' && file == file' && sum[..16] == sum'[..16]
  {
    SanitizedId(stream, file, sum);
    SanitizedId(stream', file', sum');
    DecimalDigits(stream);
    DecimalDigits(stream');
    hide Sanitize, Decimal, AllSafe, AllHex, AllDigits, QueueId, QueueFile, Value;
    SameTail(QueueId(stream, file, sum), ".json", QueueId(stream', file', sum'), ".json");
    IdParts(stream, file, sum);
    IdParts(stream', file', sum');
    var r, r' := file + "-" + sum[..16], file' + "-" + sum'[..16];
    FirstDash(Decimal(stream), r, Decimal(stream'), r');
    DecimalValue(stream);
    DecimalValue(stream');
    SameTail(file + "-", sum[..16], file' + "-", sum'[..16]);
    SameTail(file, "-", file', "-");
  }

  /** Two uploads share a queue file exactly if these are the same. */
  lemma QueueFileExact(stream: nat, file: string, sum: string, stream': nat, file': string, sum': string)
    requires AllSafe(file) && AllHex(sum) && 16 <= |sum|
    requires AllSafe(file') && AllHex(sum') && 16 <= |sum'|
    ensures QueueFile(stream, file, sum) == QueueFile(stream', file', sum') <==>
            stream == stream' && file == file' && sum[..16] == sum'[..16]
  {
    if QueueFile(stream, file, sum) == QueueFile(stream', file', sum') {
      QueueFileInjective(stream, file, sum, stream', file', sum');
    }
    if sum[..16] == sum'[..16] {
      assert SumPrefix(sum) == SumPrefix(sum') by {
        assert sum[..|sum|] == sum && sum'[..|sum'|] == sum';
      }
    }
  }

  /** The temporary file of an entry is never taken for an entry, and entries are. */
  lemma TmpIsNoEntry(stream: nat, file: string, sum: string)
    ensures IsQueueEntry(QueueFile(stream, file, sum))
    ensures !IsQueueEntry(TmpOf(QueueFile(stream, file, sum)))
  {
    hide Sanitize;
    var path := QueueFile(stream, file, sum);
    assert path[|path| - 5..] == ".json";
    var tmp := TmpOf(path);
    assert tmp[|tmp| - 5..][4] == 'p' && ".json"[4] == 'n';
  }
}
