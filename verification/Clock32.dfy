/** The millisecond clock: 32 bits, wrapping every 49.7 days, compared by subtraction. */
module Clock32 {
  import opened Wire

  function Elapsed(now: u32, since: u32): u32 { (now - since) % TWO32 }

  /** The wrap-safe "now >= deadline". */
  predicate Reached(now: u32, deadline: u32) { Elapsed(now, deadline) < 0x8000_0000 }

  /** What the clock shows at a true time, counted without wrapping. */
  function Clock(time: nat): u32 { time % TWO32 }

  lemma ClockDifference(time: nat, since: nat)
    ensures Elapsed(Clock(time), Clock(since)) == (time - since) % TWO32
  {}

  /** The time since a past moment is measured exactly until the clock has wrapped once. */
  lemma ElapsedIsTrueTime(time: nat, since: nat)
    requires since <= time < since + TWO32
    ensures Elapsed(Clock(time), Clock(since)) == time - since
  {
    ClockDifference(time, since);
  }

  /** A moment the clock has not reached yet looks like one long past. */
  lemma ElapsedAhead(time: nat, since: nat)
    requires time < since < time + TWO32
    ensures Elapsed(Clock(time), Clock(since)) == TWO32 - (since - time)
  {
    ClockDifference(time, since);
    assert (time - since) % TWO32 == time - since + TWO32;
  }

  /** Within half the range of the clock the wrap-safe comparison agrees with unbounded time. */
  lemma ReachedIsTrueTime(time: nat, deadline: nat)
    requires time < deadline + 0x8000_0000 && deadline <= time + 0x8000_0000
    ensures Reached(Clock(time), Clock(deadline)) <==> time >= deadline
  {
    ClockDifference(time, deadline);
  }

  lemma ClockAdd(time: nat, ms: nat)
    ensures Add32(Clock(time), ms) == Clock(time + ms)
    ensures Add32(Clock(time), ms % TWO32) == Clock(time + ms)
  {
    Remainders(time, ms);
    Remainders(ms, time % TWO32);
  }

  lemma Remainders(a: nat, b: nat)
    ensures (a % TWO32 + b) % TWO32 == (a + b) % TWO32
  {
    var q := a / TWO32;
    assert a == TWO32 * q + a % TWO32;
  }
}
