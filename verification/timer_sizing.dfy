/** The integer arithmetic the peer manager uses to size its timer wheel:
    the number of timers (two per peer, rounded up to a power of two) and the
    tick length that lets the longer of the heartbeat interval and timeout
    span `DEFAULT_TIMER_SLOTS` slots. Values are `usize`/`u64` in `from_builder`;
    the preconditions rule out the inputs for which that arithmetic would
    underflow or overflow. */
module TimerSizing {
  import opened BtTypes

  /** Number of slots of the timer wheel. */
  const DEFAULT_TIMER_SLOTS: nat := 2048

  /** Largest peer capacity whose doubled value rounds up to a power of two
      that still fits a 64-bit `usize` (2^62, so at most 2^63 timers). */
  const MAX_PEER_CAPACITY: nat := 0x4000_0000_0000_0000

  const U64_LIMIT: nat := 0x1_0000_0000_0000_0000

  type Nanos = x: nat | x < 1_000_000_000

  /** A `std::time::Duration`: whole seconds and a sub-second part. */
  datatype Duration = Duration(secs: u64, nanos: Nanos)
  {
    /** Durations are ordered by seconds, then by nanoseconds. */
    predicate LessOrEqual(other: Duration) {
      secs < other.secs || (secs == other.secs && nanos <= other.nanos)
    }
  }

  /** `std::cmp::max`: the second argument unless the first is strictly greater. */
  function MaxDuration(a: Duration, b: Duration): (m: Duration)
    ensures m == a || m == b
    ensures a.LessOrEqual(m) && b.LessOrEqual(m)
    ensures m.secs == if a.secs >= b.secs then a.secs else b.secs
  {
    if b.LessOrEqual(a) && !a.LessOrEqual(b) then a else b
  }

  /** The timer wheel's tick length in milliseconds: `as_secs()` of the longer
      duration (its sub-second part dropped), in milliseconds, divided by the
      slot count, plus one. */
  function TickMillis(interval: Duration, timeout: Duration): (ms: nat)
    requires MaxDuration(interval, timeout).secs * 1000 < U64_LIMIT
    ensures ms >= 1
    ensures var spanMs := 1000 * (if interval.secs >= timeout.secs then interval.secs else timeout.secs);
      (ms - 1) * DEFAULT_TIMER_SLOTS <= spanMs < ms * DEFAULT_TIMER_SLOTS
  {
    MaxDuration(interval, timeout).secs * 1000 / DEFAULT_TIMER_SLOTS + 1
  }

  /** Bitwise AND of two naturals, one bit at a time from the least significant. */
  function BitAnd(a: nat, b: nat): nat
  {
    if a == 0 || b == 0 then 0
    else 2 * BitAnd(a / 2, b / 2) + (if a % 2 == 1 && b % 2 == 1 then 1 else 0)
  }

  /** `n` is 2^k for some `k`. */
  predicate IsPowerOfTwo(n: nat)
  {
    n == 1 || (n >= 2 && n % 2 == 0 && IsPowerOfTwo(n / 2))
  }

  /** 2^k, the reference definition of powers of two. */
  function Pow2(k: nat): (p: nat)
    ensures p >= 1
  {
    if k == 0 then 1 else 2 * Pow2(k - 1)
  }

  /** `IsPowerOfTwo` holds of exactly the values 2^k. */
  lemma {:induction false} PowerOfTwoIsPow2(n: nat)
    ensures IsPowerOfTwo(n) <==> exists k: nat :: n == Pow2(k)
  {
    if IsPowerOfTwo(n) {
      var k := Log2(n);
      assert n == Pow2(k);
    }
    if exists k: nat :: n == Pow2(k) {
      var k: nat :| n == Pow2(k);
      Pow2IsPowerOfTwo(k);
    }
  }

  function Log2(n: nat): (k: nat)
    requires IsPowerOfTwo(n)
    ensures Pow2(k) == n
  {
    if n == 1 then 0 else Log2(n / 2) + 1
  }

  lemma {:induction false} Pow2IsPowerOfTwo(k: nat)
    ensures IsPowerOfTwo(Pow2(k))
  {
    if k > 0 {
      Pow2IsPowerOfTwo(k - 1);
    }
  }

  lemma {:induction false} BitAndSelf(k: nat)
    ensures BitAnd(k, k) == k
  {
    if k > 0 {
      BitAndSelf(k / 2);
    }
  }

  /** `from_builder`'s test `n & (n - 1) == 0` recognises exactly the powers of two
      among positive `n`. */
  lemma {:induction false} PowerOfTwoBitTest(n: nat)
    requires n >= 1
    ensures BitAnd(n, n - 1) == 0 <==> IsPowerOfTwo(n)
  {
    if n == 1 {
    } else if n % 2 == 1 {
      var k := n / 2;
      assert (n - 1) / 2 == k && k >= 1;
      BitAndSelf(k);
      assert BitAnd(n, n - 1) == 2 * k;
    } else {
      var k := n / 2;
      assert (n - 1) / 2 == k - 1;
      PowerOfTwoBitTest(k);
      assert BitAnd(n, n - 1) == 2 * BitAnd(k, k - 1);
    }
  }

  /** `usize::next_power_of_two`: the smallest power of two not below `n`. */
  function NextPowerOfTwo(n: nat): (r: nat)
    ensures IsPowerOfTwo(r) && n <= r
    ensures n >= 1 ==> r < 2 * n
  {
    if n <= 1 then 1
    else
      var half := NextPowerOfTwo((n + 1) / 2);
      assert half == 1 || half % 2 == 0;
      2 * half
  }

  /** The number of timers the wheel is sized for: twice the peer capacity
      (one heartbeat and one timeout timer per peer) when that is already a
      power of two, otherwise the next power of two above it. */
  function PowMaximumTimers(capacity: nat): (pow: nat)
    requires 1 <= capacity <= MAX_PEER_CAPACITY
    ensures IsPowerOfTwo(pow)
    ensures 2 * capacity <= pow < 4 * capacity
    ensures IsPowerOfTwo(2 * capacity) ==> pow == 2 * capacity
    ensures pow + 1 < U64_LIMIT
  {
    var maximumTimers := capacity * 2;
    PowerOfTwoBitTest(maximumTimers);
    if BitAnd(maximumTimers, maximumTimers - 1) == 0 then maximumTimers
    else NextPowerOfTwo(maximumTimers)
  }

  /** The parameters handed to the timer wheel builder. */
  datatype TimerConfig = TimerConfig(tickMillis: nat, maxCapacity: nat, channelCapacity: nat, numSlots: nat)

  function WheelConfig(capacity: nat, interval: Duration, timeout: Duration): (c: TimerConfig)
    requires 1 <= capacity <= MAX_PEER_CAPACITY
    requires MaxDuration(interval, timeout).secs * 1000 < U64_LIMIT
    ensures c.numSlots == DEFAULT_TIMER_SLOTS
    ensures IsPowerOfTwo(c.channelCapacity) && 2 * capacity <= c.channelCapacity < 4 * capacity
    ensures c.maxCapacity == c.channelCapacity + 1
    ensures c.tickMillis >= 1
    ensures c.tickMillis * DEFAULT_TIMER_SLOTS > 1000 * MaxDuration(interval, timeout).secs
    ensures (c.tickMillis - 1) * DEFAULT_TIMER_SLOTS <= 1000 * MaxDuration(interval, timeout).secs
  {
    var pow := PowMaximumTimers(capacity);
    TimerConfig(TickMillis(interval, timeout), pow + 1, pow, DEFAULT_TIMER_SLOTS)
  }
}
