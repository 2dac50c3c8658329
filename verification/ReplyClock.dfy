/** The times of a request: 64-bit nanoseconds of the steady clock, of which a wait sees the whole microseconds.  An
    overflow wraps around. */
module ReplyClock {

  const INT64_LIMIT := 0x8000_0000_0000_0000
  const NS_PER_US := 1000
  const NS_PER_MS := 1_000_000

  /** The conversion to a 64-bit integer. */
  function Wrap(v: int): (r: int)
    ensures -INT64_LIMIT <= r < INT64_LIMIT
  {
    (v + INT64_LIMIT) % (2 * INT64_LIMIT) - INT64_LIMIT
  }

  /** A timeout in nanoseconds, before it is converted. */
  function Nanoseconds(timeoutMs: int): nat {
    NS_PER_MS * if timeoutMs > 0 then timeoutMs else 0
  }

  function Deadline(now: int, timeoutMs: int): int {
    Wrap(now + Wrap(Nanoseconds(timeoutMs)))
  }

  function Left(deadline: int, now: int): int {
    Wrap(deadline - now)
  }

  /** The remaining time in microseconds, cut off towards zero. */
  function Remaining(deadline: int, now: int): int {
    var left := Left(deadline, now);
    if left >= 0 then left / NS_PER_US else -(-left / NS_PER_US)
  }

  /** The time of the wait in milliseconds, rounded up. */
  function WaitMs(remaining: int): int
    requires remaining > 0
  {
    (remaining + 999) / 1000
  }

  lemma Modulo(r: nat, k: int)
    requires r < 2 * INT64_LIMIT
    ensures (r + k * (2 * INT64_LIMIT)) % (2 * INT64_LIMIT) == r
  {
    var m := 2 * INT64_LIMIT;
    var q := (r + k * m) / m;
    assert (r + k * m) == q * m + (r + k * m) % m;
    assert (r + k * m) % m - r == (k - q) * m;
  }

  lemma WrapIs(v: int, k: int, r: int)
    requires v == r + k * (2 * INT64_LIMIT) && -INT64_LIMIT <= r < INT64_LIMIT
    ensures Wrap(v) == r
  {
    assert v + INT64_LIMIT == (r + INT64_LIMIT) + k * (2 * INT64_LIMIT);
    Modulo(r + INT64_LIMIT, k);
  }

  lemma Wraps(v: int) returns (k: int)
    ensures v == Wrap(v) + k * (2 * INT64_LIMIT)
  {
    k := (v + INT64_LIMIT) / (2 * INT64_LIMIT);
  }

  /** Only the conversion of the timeout can lose anything: the sum with the clock is undone by the difference. */
  lemma LeftIs(start: int, timeoutMs: int, now: int)
    ensures Left(Deadline(start, timeoutMs), now) == Wrap(Wrap(Nanoseconds(timeoutMs)) - (now - start))
  {
    hide Wrap, Nanoseconds;
    var p := Wrap(Nanoseconds(timeoutMs));
    var k := Wraps(start + p);
    var j := Wraps(Deadline(start, timeoutMs) - now);
    assert p - (now - start) == Left(Deadline(start, timeoutMs), now) + (j + k) * (2 * INT64_LIMIT);
    WrapIs(p - (now - start), j + k, Left(Deadline(start, timeoutMs), now));
  }

  lemma NoWrap(v: int)
    requires -INT64_LIMIT <= v < INT64_LIMIT
    ensures Wrap(v) == v
  {
    WrapIs(v, 0, v);
  }

  /** What remains shrinks with the clock, while the difference fits. */
  lemma LeftLater(deadline: int, from: int, now: int)
    requires 0 <= from <= now < INT64_LIMIT && Left(deadline, from) >= 0
    ensures Left(deadline, now) == Left(deadline, from) - (now - from)
  {
    hide Wrap;
    var k := Wraps(deadline - from);
    WrapIs(deadline - now, k, Left(deadline, from) - (now - from));
  }

  lemma Expired(deadline: int, now: int)
    ensures Remaining(deadline, now) <= 0 <==> Left(deadline, now) < NS_PER_US
  {
  }

  /** The timeout that was given is over only after its time, to less than a microsecond, unless the conversion of the
      timeout overflows and the clock can reach the end that results. */
  predicate Overflows(start: int, timeoutMs: int) {
    Nanoseconds(timeoutMs) >= INT64_LIMIT && start + Wrap(Nanoseconds(timeoutMs)) < INT64_LIMIT + NS_PER_US - 1
  }

  lemma ExpiresInTime(start: int, timeoutMs: int, now: int)
    requires 0 <= start <= now < INT64_LIMIT && !Overflows(start, timeoutMs)
    requires Remaining(Deadline(start, timeoutMs), now) <= 0
    ensures now + NS_PER_US > start + Nanoseconds(timeoutMs)
  {
    hide Wrap, Nanoseconds, Left, Deadline;
    var t := Nanoseconds(timeoutMs);
    Expired(Deadline(start, timeoutMs), now);
    LeftIs(start, timeoutMs, now);
    if t < INT64_LIMIT {
      NoWrap(t);
      NoWrap(t - (now - start));
    } else {
      NoWrap(Wrap(t) - (now - start));
    }
  }

  /** The first time at which a wait whose timeout overflows is over. */
  function EarlyEnd(start: int, timeoutMs: int): int {
    var end := Wrap(Nanoseconds(timeoutMs));
    if end >= NS_PER_US then start + end - NS_PER_US + 1 else start
  }

  lemma ExpiresEarly(start: int, timeoutMs: int)
    requires 0 <= start < INT64_LIMIT && Overflows(start, timeoutMs)
    ensures start <= EarlyEnd(start, timeoutMs) < INT64_LIMIT
    ensures Remaining(Deadline(start, timeoutMs), EarlyEnd(start, timeoutMs)) <= 0
    ensures EarlyEnd(start, timeoutMs) + NS_PER_US <= start + Nanoseconds(timeoutMs)
  {
    hide Wrap, Nanoseconds, Left, Deadline;
    var t, now := Nanoseconds(timeoutMs), EarlyEnd(start, timeoutMs);
    var k := Wraps(t);
    Expired(Deadline(start, timeoutMs), now);
    LeftIs(start, timeoutMs, now);
    NoWrap(Wrap(t) - (now - start));
  }

  /** The longest timeout that a request can be given is over at once. */
  lemma LongestTimeout(start: int)
    requires 0 <= start < INT64_LIMIT
    ensures Overflows(start, INT64_LIMIT - 1) && EarlyEnd(start, INT64_LIMIT - 1) == start
  {
    WrapIs(Nanoseconds(INT64_LIMIT - 1), 500_000, -NS_PER_MS);
  }

  /** A wait covers the whole microseconds that remain, and less than a millisecond more.  It reaches the deadline
      unless what remains is some milliseconds and a part of a microsecond. */
  lemma WaitCovers(left: int)
    requires left >= NS_PER_US
    ensures var wait := NS_PER_MS * WaitMs(left / NS_PER_US);
            left - NS_PER_US < wait < left + NS_PER_MS &&
            (wait >= left <==> left % NS_PER_MS == 0 || left % NS_PER_MS >= NS_PER_US)
  {
    var us := left / NS_PER_US;
    var ms := WaitMs(us);
    assert us <= 1000 * ms < us + 1000;
    var whole := left / NS_PER_MS;
    assert left == NS_PER_MS * whole + left % NS_PER_MS;
    assert us == 1000 * whole + (left % NS_PER_MS) / NS_PER_US;
  }

  /** The time of a request is over exactly when less than a microsecond of its milliseconds remains; it is over at once
      if there are none. */
  lemma OverExactly(start: int, timeoutMs: int, now: int)
    requires 0 <= start <= now < 0x8000_0000_0000_0000 && 1_000_000 * timeoutMs < 0x8000_0000_0000_0000
    ensures Remaining(Deadline(start, timeoutMs), now) <= 0 <==>
            timeoutMs <= 0 || now - start > 1_000_000 * timeoutMs - 1000
    ensures timeoutMs > 0 ==> Left(Deadline(start, timeoutMs), now) == start + 1_000_000 * timeoutMs - now
  {
    hide Wrap, Left, Deadline;
    Expired(Deadline(start, timeoutMs), now);
    LeftIs(start, timeoutMs, now);
    NoWrap(Nanoseconds(timeoutMs));
    NoWrap(Nanoseconds(timeoutMs) - (now - start));
  }
}
