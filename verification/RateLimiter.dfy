/** Reading a file at a limited rate for upload (cmd/agent/database_archiver.go). */
module RateLimiter {
  import opened Backoff

  /** One read of the underlying file: bytes on offer, time it takes, and by how much a sleep overshoots. */
  datatype ReadCall = ReadCall(offered: nat, took: nat, overslept: nat)

  /** Go's integer division: the quotient is rounded toward zero. */
  function Quotient(a: int, b: int): int
    requires 0 < b
  {
    if 0 <= a then a / b else -(-a / b)
  }

  /** Up to `bytesPerSecond` per second means: delivered bytes stay below what the time allows. */
  predicate WithinRate(bytesPerSecond: int, bytes: nat, time: nat, count: nat) {
    bytes * SECOND + count <= bytesPerSecond * (time + count)
  }

  /** The bound in the strict form, for at least one nonempty read. */
  lemma RateBound(bytesPerSecond: int, bytes: nat, time: nat, count: nat)
    requires WithinRate(bytesPerSecond, bytes, time, count) && 1 <= count
    ensures bytes * SECOND < bytesPerSecond * (time + count)
  {
  }

  lemma RateStep(bytesPerSecond: int, bytes: nat, time: nat, count: nat, n: nat, t: nat)
    requires 0 < bytesPerSecond && WithinRate(bytesPerSecond, bytes, time, count)
    requires n * SECOND / bytesPerSecond <= t
    ensures WithinRate(bytesPerSecond, bytes + n, time + t, count + 1)
  {
    var q, r := n * SECOND / bytesPerSecond, n * SECOND % bytesPerSecond;
    assert n * SECOND == bytesPerSecond * q + r;
    assert bytesPerSecond * q <= bytesPerSecond * t;
    assert bytesPerSecond * (time + t + (count + 1))
        == bytesPerSecond * (time + count) + bytesPerSecond * t + bytesPerSecond;
  }

  /** Below about 92 GB/s every chunk the limiter lets through keeps the arithmetic in 64 bits. */
  lemma ChunkFits(bytesPerSecond: int, n: nat)
    requires 0 < bytesPerSecond < 92_233_720_370
    requires n <= bytesPerSecond / 10 || n <= 1
    ensures n * SECOND < INT64_LIMIT
  {
  }

  lemma Larger(rate: int, took: nat, q: int)
    requires 0 < rate && took < q
    ensures rate * took < rate * q
  {
  }

  lemma SlowEnough(rate: int, amount: nat, took: nat)
    requires 0 < rate
    ensures amount <= rate * took ==> amount / rate <= took
  {
    var q, r := amount / rate, amount % rate;
    assert amount == rate * q + r;
    if took < q {
      Larger(rate, took, q);
    }
  }

  lemma TooFast(rate: int, amount: nat, took: nat)
    requires 0 < rate
    ensures rate * took < amount ==> took <= amount / rate
  {
    var q, r := amount / rate, amount % rate;
    assert amount == rate * q + r;
    if q < took {
      Larger(rate, q, took);
      assert rate * (q + 1) == rate * q + rate;
      if q + 1 < took {
        Larger(rate, q + 1, took);
      }
    }
  }

  /** The time that the rate asks for, and whether a read that took `took` has used it up. */
  lemma Expected(rate: int, amount: nat, took: nat)
    requires 0 < rate
    ensures amount < INT64_LIMIT ==> Quotient(Wrap64(amount), rate) == amount / rate
    ensures amount <= rate * took ==> amount / rate <= took
    ensures rate * took < amount ==> took <= amount / rate
  {
    SlowEnough(rate, amount, took);
    TooFast(rate, amount, took);
  }

  class LimitedReader {
    const bytesPerSecond: int
    const source: nat -> ReadCall

    var calls: nat
    ghost var bytes: nat
    ghost var time: nat
    ghost var count: nat
    ghost var fits: bool

    /** `bytes` were delivered by `count` nonempty reads that took `time` nanoseconds. */
    ghost predicate Valid()
      reads this
    {
      && (0 < bytesPerSecond && fits ==> WithinRate(bytesPerSecond, bytes, time, count))
      && (bytesPerSecond < 92_233_720_370 ==> fits)
    }

    constructor (bytesPerSecond: int, source: nat -> ReadCall)
      ensures Valid() && bytes == 0 && time == 0 && count == 0
      ensures this.bytesPerSecond == bytesPerSecond && this.source == source
    {
      this.bytesPerSecond, this.source := bytesPerSecond, source;
      calls, bytes, time, count, fits := 0, 0, 0, 0, true;
    }

    /** Reads at most `want` bytes and sleeps off what the rate does not allow yet. */
    method Read(want: nat) returns (n: nat, took: nat)
      requires Valid()
      modifies this
      ensures Valid()
      ensures n <= want && n <= source(old(calls)).offered && source(old(calls)).took <= took
      ensures 0 < bytesPerSecond ==> n <= 1 || n <= bytesPerSecond / 10
      // Nothing that may be delivered is held back ...
      ensures || n == want || n == source(old(calls)).offered
              || (0 < bytesPerSecond && (n == 1 || n == bytesPerSecond / 10))
      // ... and a read that was slow enough by itself is not slowed down.
      ensures bytesPerSecond <= 0 || n == 0 ==> took == source(old(calls)).took
      ensures 0 < bytesPerSecond && n * SECOND < INT64_LIMIT ==>
                n * SECOND <= bytesPerSecond * source(old(calls)).took ==> took == source(old(calls)).took
      // One that was too fast sleeps just as long as the rate asks for, and what that sleep overshoots.
      ensures 0 < bytesPerSecond && n * SECOND < INT64_LIMIT ==>
                bytesPerSecond * source(old(calls)).took < n * SECOND ==>
                  n * SECOND / bytesPerSecond <= took
                  && took <= n * SECOND / bytesPerSecond + source(old(calls)).overslept
      ensures n == 0 ==> bytes == old(bytes) && time == old(time) && count == old(count)
      ensures 0 < n ==> bytes == old(bytes) + n && time == old(time) + took && count == old(count) + 1
      // All that was delivered so far keeps to the rate.
      ensures 0 < bytesPerSecond && fits && 1 <= count ==> bytes * SECOND < bytesPerSecond * (time + count)
      ensures fits <==> old(fits) && (0 < bytesPerSecond ==> n * SECOND < INT64_LIMIT)
    {
      hide WithinRate, Wrap64, Quotient;
      var limit := want;
      if 0 < bytesPerSecond {
        var maxChunk := bytesPerSecond / 10;
        if maxChunk < 1 {
          maxChunk := 1;
        }
        if maxChunk < limit {
          limit := maxChunk;
        }
      }
      var call := source(calls);
      calls := calls + 1;
      n := if call.offered < limit then call.offered else limit;
      took := call.took;
      if 0 < bytesPerSecond {
        if 0 < n {
          var expected := Quotient(Wrap64(n * SECOND), bytesPerSecond);
          Expected(bytesPerSecond, n * SECOND, took);
          if took < expected {
            took := expected + call.overslept;
          }
        }
        fits := fits && n * SECOND < INT64_LIMIT;
        if bytesPerSecond < 92_233_720_370 {
          ChunkFits(bytesPerSecond, n);
        }
        if 0 < n && fits {
          RateStep(bytesPerSecond, bytes, time, count, n, took);
        }
      }
      if 0 < n {
        bytes, time, count := bytes + n, time + took, count + 1;
      }
      if 0 < bytesPerSecond && fits && 1 <= count {
        RateBound(bytesPerSecond, bytes, time, count);
      }
    }
  }
}
