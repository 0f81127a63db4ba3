/**
 Retry delays that double up to a limit, and the per-stream failure backoff
 (cmd/agent/database_archiver.go).

 Durations are nanoseconds in a signed 64-bit integer; every doubling goes
 through `Wrap64`, so the closed forms below include that nothing overflows.
 */
module Backoff {
  import opened Common

  const SECOND: int := 1_000_000_000
  const INT64_LIMIT: int := 0x8000_0000_0000_0000
  const HALF_LIMIT: int := 0x4000_0000_0000_0000

  const DEFAULT_STREAM_BASE: int := 30
  const DEFAULT_STREAM_MAX: int := 300
  const DEFAULT_UPLOAD_BASE: int := 60
  const DEFAULT_UPLOAD_MAX: int := 3600

  /** The 64-bit integer that stands for `x` after wrap-around. */
  function Wrap64(x: int): (r: int)
    ensures -INT64_LIMIT <= r < INT64_LIMIT
    ensures -INT64_LIMIT <= x < INT64_LIMIT ==> r == x
  {
    (x + INT64_LIMIT) % (2 * INT64_LIMIT) - INT64_LIMIT
  }

  function Pow2(n: nat): (p: int)
    ensures 1 <= p
  {
    if n == 0 then 1 else 2 * Pow2(n - 1)
  }

  function Min(a: int, b: int): int {
    if a <= b then a else b
  }

  /** The closed form: doubled `n` times, but no more than `max`. */
  function Delay(base: int, max: int, n: nat): int {
    Min(base * Pow2(n), max)
  }

  /** Durations for which doubling below the limit cannot wrap around. */
  predicate Doubles(base: int, max: int) {
    0 < base < HALF_LIMIT && 0 < max <= HALF_LIMIT
  }

  lemma DelayStep(base: int, max: int, n: nat)
    requires 0 < base
    ensures Delay(base, max, n + 1) == Min(2 * Delay(base, max, n), max) || max < 0
    ensures base * Pow2(n + 1) == 2 * (base * Pow2(n)) && base <= base * Pow2(n)
  {
    assert base * Pow2(n + 1) == base * (2 * Pow2(n)) == 2 * (base * Pow2(n));
  }

  /** The first delay is the base, each further one twice the one before, and none exceeds the limit. */
  lemma DelayExact(base: int, max: int, n: nat)
    requires 0 < base && 0 < max
    ensures Delay(base, max, 0) == if base <= max then base else max
    ensures Delay(base, max, n + 1) ==
            if 2 * Delay(base, max, n) <= max then 2 * Delay(base, max, n) else max
  {
    assert Pow2(0) == 1;
    DelayStep(base, max, n);
  }

  /** Delays never shrink as failures accumulate, and stay at the limit once there. */
  lemma {:induction false} DelayMonotone(base: int, max: int, m: nat, n: nat)
    requires 0 < base && m <= n
    ensures Delay(base, max, m) <= Delay(base, max, n)
    ensures Delay(base, max, m) == max ==> Delay(base, max, n) == max
    decreases n - m
  {
    if m < n {
      DelayStep(base, max, m);
      DelayMonotone(base, max, m + 1, n);
    }
  }

  /** Delay before the next upload attempt of a queue item that failed `attempts` times. */
  method UploadRetryDelay(configuredBase: int, max: int, attempts: int) returns (delay: int)
    ensures var base := if configuredBase <= 0 then DEFAULT_UPLOAD_BASE * SECOND else configuredBase;
            Doubles(base, max) ==> delay == Delay(base, max, if attempts < 0 then 0 else attempts)
  {
    delay := configuredBase;
    if delay <= 0 {
      delay := DEFAULT_UPLOAD_BASE * SECOND;
    }
    ghost var base := delay;
    assert base * Pow2(0) == base;
    var i := 0;
    while i < attempts
      invariant 0 <= i && (i <= attempts || i == 0)
      invariant Doubles(base, max) ==> delay == base * Pow2(i)
      invariant Doubles(base, max) && 0 < i ==> delay < max
    {
      DelayStep(base, max, i);
      delay := Wrap64(delay * 2);
      if 0 < max && max <= delay {
        DelayMonotone(base, max, i + 1, attempts);
        return max;
      }
      i := i + 1;
    }
    if 0 < max && max < delay {
      delay := max;
    }
  }

  /** Delay after the given number of failures in a row. */
  method StreamDelay(base: int, max: int, failures: int) returns (delay: int)
    requires 1 <= failures
    ensures Doubles(base, max) ==> delay == Delay(base, max, failures - 1)
    ensures 0 < max ==> 0 < delay <= max
  {
    delay := base;
    assert base * Pow2(0) == base;
    var i := 1;
    while i < failures
      invariant 1 <= i <= failures
      invariant Doubles(base, max) ==> delay == base * Pow2(i - 1)
      invariant Doubles(base, max) && 1 < i ==> delay < max
    {
      if Doubles(base, max) {
        DelayStep(base, max, i - 1);
      }
      delay := Wrap64(delay * 2);
      if max <= delay {
        delay := max;
        if Doubles(base, max) {
          DelayMonotone(base, max, i, failures - 1);
        }
        break;
      }
      i := i + 1;
    }
    if delay <= 0 {
      delay := DEFAULT_STREAM_BASE * SECOND;
    }
    if 0 < max && max < delay {
      delay := max;
    }
  }

  function Clamp(raw: int, default: int, low: int, high: int): int {
    var x := if raw <= 0 then default else raw;
    if x < low then low else if high < x then high else x
  }

  /** Base and limit of the stream backoff, in seconds, from the raw configuration. */
  function ResolveStream(rawBase: int, rawMax: int): (int, int) {
    var base := Clamp(rawBase, DEFAULT_STREAM_BASE, 5, 3600);
    (base, Clamp(rawMax, DEFAULT_STREAM_MAX, base, 3600))
  }

  /** Base and limit of the upload retry delay, in seconds, from the raw configuration. */
  function ResolveUpload(rawBase: int, rawMax: int): (int, int) {
    var base := Clamp(rawBase, DEFAULT_UPLOAD_BASE, 5, 3600);
    (base, Clamp(rawMax, DEFAULT_UPLOAD_MAX, base, 86400))
  }

  /** Every raw configuration resolves to durations within their bounds, for which doubling is exact. */
  lemma ResolvedDoubles(rawBase: int, rawMax: int)
    ensures var s := ResolveStream(rawBase, rawMax);
            5 <= s.0 <= s.1 <= 3600 && Doubles(s.0 * SECOND, s.1 * SECOND)
    ensures var u := ResolveUpload(rawBase, rawMax);
            5 <= u.0 <= u.1 <= 86400 && u.0 <= 3600 && Doubles(u.0 * SECOND, u.1 * SECOND)
  {
  }

  /** What is configured within its bounds is used as it is, nothing configured means the default. */
  lemma ResolvedExact(rawBase: int, rawMax: int)
    ensures 5 <= rawBase <= 3600 && rawBase <= rawMax <= 3600 ==> ResolveStream(rawBase, rawMax) == (rawBase, rawMax)
    ensures 5 <= rawBase <= 3600 && rawBase <= rawMax <= 86400 ==> ResolveUpload(rawBase, rawMax) == (rawBase, rawMax)
    ensures rawBase <= 0 && rawMax <= 0 ==>
              ResolveStream(rawBase, rawMax) == (30, 300) && ResolveUpload(rawBase, rawMax) == (60, 3600)
    // A base out of bounds is the bound, and a limit below the base is the base.
    ensures 0 < rawBase < 5 ==> ResolveStream(rawBase, rawMax).0 == ResolveUpload(rawBase, rawMax).0 == 5
    ensures 3600 < rawBase ==> ResolveStream(rawBase, rawMax).0 == ResolveUpload(rawBase, rawMax).0 == 3600
    ensures 5 <= rawBase <= 3600 && 0 < rawMax < rawBase ==>
              ResolveStream(rawBase, rawMax) == ResolveUpload(rawBase, rawMax) == (rawBase, rawBase)
    ensures 3600 < rawMax ==> ResolveStream(rawBase, rawMax).1 == 3600
    ensures 86400 < rawMax ==> ResolveUpload(rawBase, rawMax).1 == 86400
  {
  }

  // ----- the backoff table -----

  datatype Event = Started(stream: nat, at: int) | Failed(stream: nat, at: int) | Succeeded(stream: nat)

  /** Failures of the stream since its last success. */
  function Streak(log: seq<Event>, stream: nat): nat {
    if log == [] then 0
    else
      var rest := log[..|log| - 1];
      match log[|log| - 1]
      case Failed(s, _) => Streak(rest, stream) + if s == stream then 1 else 0
      case Succeeded(s) => if s == stream then 0 else Streak(rest, stream)
      case Started(_, _) => Streak(rest, stream)
  }

  function LastFailure(log: seq<Event>, stream: nat): Option<int> {
    if log == [] then None
    else if log[|log| - 1].Failed? && log[|log| - 1].stream == stream then Some(log[|log| - 1].at)
    else LastFailure(log[..|log| - 1], stream)
  }

  function LastStart(log: seq<Event>, stream: nat): Option<int> {
    if log == [] then None
    else if log[|log| - 1].Started? && log[|log| - 1].stream == stream then Some(log[|log| - 1].at)
    else LastStart(log[..|log| - 1], stream)
  }

  class StreamBackoff {
    const base: int
    const max: int

    var failures: map<nat, nat>
    var until: map<nat, int>
    ghost var log: seq<Event>
    ghost var clock: int
    ghost var running: set<nat>

    /** The delay imposed after `k` failures in a row. */
    ghost function DelayAfter(k: nat): int
      requires 0 < k
    {
      Delay(base, max, k - 1)
    }

    /** What the table says about one stream agrees with everything that happened to it. */
    ghost predicate Accounts(s: nat)
      reads this
    {
      var k := Streak(log, s);
      && (s in failures <==> 0 < k)
      && (s in failures ==> failures[s] == k)
      && (s in until ==> 0 < k)
      && (0 < k ==>
            && LastFailure(log, s).Some?
            && (s in until ==> until[s] == LastFailure(log, s).value + DelayAfter(k))
            && (s !in until ==> LastFailure(log, s).value + DelayAfter(k) <= clock))
      && (0 < k && s !in running && LastStart(log, s).Some? ==>
            LastStart(log, s).value <= LastFailure(log, s).value)
      && (LastStart(log, s).Some? ==> LastStart(log, s).value <= clock)
    }

    ghost predicate Valid()
      reads this
    {
      Doubles(base, max) && forall s: nat :: Accounts(s)
    }

    /** A table with the delays that a raw configuration resolves to. */
    constructor (rawBase: int, rawMax: int, now: int)
      ensures Valid() && log == [] && running == {} && clock == now
      ensures base == ResolveStream(rawBase, rawMax).0 * SECOND
      ensures max == ResolveStream(rawBase, rawMax).1 * SECOND
    {
      ResolvedDoubles(rawBase, rawMax);
      base := ResolveStream(rawBase, rawMax).0 * SECOND;
      max := ResolveStream(rawBase, rawMax).1 * SECOND;
      failures, until := map[], map[];
      log, clock, running := [], now, {};
    }

    /** Time until the stream may be tried again; an expired deadline is forgotten. */
    method Remaining(stream: nat, now: int) returns (remaining: int)
      requires Valid() && clock <= now
      modifies this`until, this`clock
      ensures Valid() && clock == now
      ensures 0 <= remaining && (stream == 0 ==> remaining == 0)
      ensures stream != 0 && Streak(log, stream) == 0 ==> remaining == 0
      ensures stream != 0 && 0 < Streak(log, stream) ==>
                && LastFailure(log, stream).Some?
                && var deadline := LastFailure(log, stream).value + DelayAfter(Streak(log, stream));
                remaining == if deadline <= now then 0 else deadline - now
    {
      assert Accounts(stream);
      ghost var before := until;
      clock := now;
      if stream == 0 || stream !in until {
        KeptOthers(before);
        return 0;
      }
      remaining := until[stream] - now;
      if remaining <= 0 {
        until := until - {stream};
        remaining := 0;
      }
      KeptOthers(before);
    }

    twostate lemma KeptOthers(before: map<nat, int>)
      requires old(Valid()) && log == old(log) && failures == old(failures) && running == old(running)
      requires before == old(until) && old(clock) <= clock
      requires forall s | s in until :: s in before && until[s] == before[s]
      requires forall s | s in before && s !in until :: before[s] <= clock
      ensures Valid()
    {
      forall s: nat
        ensures Accounts(s)
      {
        assert old(Accounts(s));
      }
    }

    /** Lets an attempt of the stream begin, unless it is still backing off. */
    method Admit(stream: nat, now: int) returns (admitted: bool)
      requires Valid() && clock <= now && stream != 0 && stream !in running
      modifies this`until, this`clock, this`log, this`running
      ensures Valid() && clock == now
      ensures admitted ==> log == old(log) + [Started(stream, now)] && running == old(running) + {stream}
      ensures !admitted ==> log == old(log) && running == old(running)
      // Attempts after k failures in a row are at least the k-th delay apart.
      ensures admitted && 0 < Streak(old(log), stream) && LastStart(old(log), stream).Some? ==>
                LastStart(old(log), stream).value + DelayAfter(Streak(old(log), stream)) <= now
      ensures admitted <==>
                0 < Streak(old(log), stream) ==>
                  && LastFailure(old(log), stream).Some?
                  && LastFailure(old(log), stream).value + DelayAfter(Streak(old(log), stream)) <= now
    {
      assert Accounts(stream);
      var remaining := Remaining(stream, now);
      admitted := remaining == 0;
      if admitted {
        Begin(stream);
      }
    }

    /** Records the start of an attempt. */
    ghost method Begin(stream: nat)
      requires Valid()
      modifies this`log, this`running
      ensures Valid()
      ensures log == old(log) + [Started(stream, clock)] && running == old(running) + {stream}
    {
      log := log + [Started(stream, clock)];
      running := running + {stream};
      assert log[..|log| - 1] == old(log);
      forall s: nat
        ensures Accounts(s)
      {
        assert old(Accounts(s));
      }
    }

    /** Counts a failed attempt and sets the deadline for the next one. */
    method MarkFailure(stream: nat, now: int) returns (delay: int)
      requires Valid() && clock <= now && (stream != 0 ==> stream in running)
      modifies this
      ensures Valid()
      ensures stream == 0 ==> delay == 0 && unchanged(this)
      ensures stream != 0 ==>
                && clock == now && log == old(log) + [Event.Failed(stream, now)] && running == old(running) - {stream}
                && Streak(log, stream) == Streak(old(log), stream) + 1 && LastFailure(log, stream) == Some(now)
                && delay == DelayAfter(Streak(log, stream))
                && stream in failures && failures[stream] == Streak(log, stream)
                && stream in until && until[stream] == now + delay
      ensures forall s | s != stream :: Streak(log, s) == Streak(old(log), s)
    {
      if stream == 0 {
        return 0;
      }
      assert Accounts(stream);
      var count := if stream in failures then failures[stream] + 1 else 1;
      delay := StreamDelay(base, max, count);
      failures := failures[stream := count];
      until := until[stream := now + delay];
      clock := now;
      log := log + [Event.Failed(stream, now)];
      running := running - {stream};
      assert log[..|log| - 1] == old(log);
      forall s: nat
        ensures Accounts(s)
      {
        assert old(Accounts(s));
      }
    }

    /** Forgets the failures of a stream. */
    method MarkSuccess(stream: nat)
      requires Valid() && (stream != 0 ==> stream in running)
      modifies this`failures, this`until, this`log, this`running
      ensures Valid()
      ensures stream == 0 ==> unchanged(this)
      ensures stream != 0 ==>
                && Streak(log, stream) == 0 && stream !in failures && stream !in until
                && log == old(log) + [Succeeded(stream)] && running == old(running) - {stream}
      ensures forall s | s != stream :: Streak(log, s) == Streak(old(log), s)
    {
      if stream == 0 {
        return;
      }
      failures := failures - {stream};
      until := until - {stream};
      log := log + [Succeeded(stream)];
      running := running - {stream};
      assert log[..|log| - 1] == old(log);
      forall s: nat
        ensures Accounts(s)
      {
        assert old(Accounts(s));
      }
    }
  }
}
