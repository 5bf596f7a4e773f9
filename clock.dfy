/** Time keeping of the server (server/time.c): `struct timespec` arithmetic
    over a monotonic clock whose reading is cached until the cache is flushed.
    The reading `clock_gettime` would return is a parameter. */
module Clock {
  import opened CInt

  const NSEC_PER_SEC: int := 1_000_000_000
  const NSEC_PER_MSEC: int := 1_000_000

  datatype Timespec = Timespec(sec: int, nsec: int)

  predicate Normalized(t: Timespec) { 0 <= t.nsec < NSEC_PER_SEC }

  /** The instant as a single number of nanoseconds. */
  function Nanos(t: Timespec): int { t.sec * NSEC_PER_SEC + t.nsec }

  /** `time_add(tp, ms)`: the new value of `*tp`. */
  function TimeAdd(t: Timespec, ms: int): Timespec
  {
    var secs := CDiv(ms, 1000);
    var nsec := t.nsec + CRem(ms, 1000) * NSEC_PER_MSEC;
    if nsec >= NSEC_PER_SEC then Timespec(t.sec + secs + 1, nsec - NSEC_PER_SEC)
    else Timespec(t.sec + secs, nsec)
  }

  /** `time_add` moves the instant by exactly `ms` milliseconds. */
  lemma TimeAddValue(t: Timespec, ms: int)
    ensures Nanos(TimeAdd(t, ms)) == Nanos(t) + ms * NSEC_PER_MSEC
  {
    CDivRem(ms, 1000);
    var q, r := CDiv(ms, 1000), CRem(ms, 1000);
    assert ms * NSEC_PER_MSEC == q * NSEC_PER_SEC + r * NSEC_PER_MSEC;
  }

  /** For a normalised `tp` and a non-negative delay the result stays normalised. */
  lemma TimeAddNormalized(t: Timespec, ms: int)
    requires Normalized(t) && ms >= 0
    ensures Normalized(TimeAdd(t, ms))
  {
    CDivRem(ms, 1000);
  }

  /** `time_after`'s comparison: `now` is strictly later than `tp`, comparing
      (seconds, nanoseconds) lexicographically. */
  predicate Later(now: Timespec, tp: Timespec) {
    now.sec > tp.sec || (now.sec == tp.sec && now.nsec > tp.nsec)
  }

  lemma LaterIsStrictOrder(now: Timespec, tp: Timespec)
    requires Normalized(now) && Normalized(tp)
    ensures Later(now, tp) <==> Nanos(now) > Nanos(tp)
  {
    if now.sec > tp.sec {
      assert Nanos(now) >= (tp.sec + 1) * NSEC_PER_SEC;
    } else if now.sec < tp.sec {
      assert Nanos(tp) >= (now.sec + 1) * NSEC_PER_SEC;
    }
  }

  /** `time_left`'s result: whole milliseconds until `tp`, never negative. */
  function MsLeft(tp: Timespec, now: Timespec): (r: int)
    ensures r >= 0
  {
    var res := (tp.sec - now.sec) * 1000 + CDiv(tp.nsec - now.nsec, NSEC_PER_MSEC);
    if res < 0 then 0 else res
  }

  /** A deadline already passed leaves no time. */
  lemma MsLeftAfterDeadline(tp: Timespec, now: Timespec)
    requires Normalized(now) && Normalized(tp)
    requires Later(now, tp)
    ensures MsLeft(tp, now) == 0
  {
  }

  /** Setting a deadline `ms` from now and asking at the same cached instant
      how much is left gives back `ms`. */
  lemma MsLeftOfTimeAdd(now: Timespec, ms: int)
    requires Normalized(now) && ms >= 0
    ensures MsLeft(TimeAdd(now, ms), now) == ms
  {
    CDivRem(ms, 1000);
    var q, r := ms / 1000, ms % 1000;
    var tp := TimeAdd(now, ms);
    if now.nsec + r * NSEC_PER_MSEC >= NSEC_PER_SEC {
      assert tp.sec - now.sec == q + 1;
      assert tp.nsec - now.nsec == (r - 1000) * NSEC_PER_MSEC;
      assert CDiv(tp.nsec - now.nsec, NSEC_PER_MSEC) == r - 1000;
    } else {
      assert tp.sec - now.sec == q;
      assert tp.nsec - now.nsec == r * NSEC_PER_MSEC;
      assert CDiv(tp.nsec - now.nsec, NSEC_PER_MSEC) == r;
    }
  }

  /** The cached monotonic clock (`cache`, `cache_valid`). */
  class Clock {
    var cache: Timespec
    var valid: bool

    constructor (start: Timespec)
      ensures !valid && cache == start
    {
      cache := start;
      valid := false;
    }

    /** `time_flush_cache`. */
    method FlushCache()
      modifies this
      ensures !valid && cache == old(cache)
    {
      valid := false;
    }

    /** `time_now`: reads the clock only when the cache is not valid; every
        later call returns the same instant until the next flush. */
    method Now(reading: Timespec) returns (t: Timespec)
      modifies this
      ensures valid
      ensures cache == if old(valid) then old(cache) else reading
      ensures t == cache
    {
      if !valid {
        cache := reading;
        valid := true;
      }
      t := cache;
    }

    /** `time_from_now(tp, ms)`: the new value of `*tp`. */
    method FromNow(ms: int, reading: Timespec) returns (tp: Timespec)
      modifies this
      ensures valid && cache == if old(valid) then old(cache) else reading
      ensures tp == TimeAdd(cache, ms)
      ensures Normalized(cache) && ms >= 0 ==> Nanos(tp) == Nanos(cache) + ms * NSEC_PER_MSEC
    {
      var now := Now(reading);
      tp := TimeAdd(now, ms);
      TimeAddValue(now, ms);
    }

    /** `time_after(tp)`. */
    method After(tp: Timespec, reading: Timespec) returns (b: bool)
      modifies this
      ensures valid && cache == if old(valid) then old(cache) else reading
      ensures b == Later(cache, tp)
    {
      var now := Now(reading);
      if now.sec > tp.sec {
        return true;
      }
      if now.sec < tp.sec {
        return false;
      }
      b := now.nsec > tp.nsec;
    }

    /** `time_left(tp)`. */
    method Left(tp: Timespec, reading: Timespec) returns (ms: int)
      modifies this
      ensures valid && cache == if old(valid) then old(cache) else reading
      ensures ms == MsLeft(tp, cache)
    {
      var now := Now(reading);
      ms := (tp.sec - now.sec) * 1000 + CDiv(tp.nsec - now.nsec, NSEC_PER_MSEC);
      if ms < 0 {
        ms := 0;
      }
    }
  }
}
