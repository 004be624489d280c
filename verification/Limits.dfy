/** Where the program's comments promise more than its code keeps: what fails, and exactly when it holds. */
module Limits {
  import opened Wire
  import opened Clock32
  import opened HubModel
  import Rta = RtaModel

  // ----- "a deadline of zero is due at once" -----

  /** After a reset the spectrum service is due at once exactly while the clock is in the lower half of its range. */
  lemma ResetDueInLowerHalf(r: Rta.Rta, now: u32)
    ensures Reached(now, Rta.Reset(r).nextDue) <==> now < 0x8000_0000
    ensures !Reached(0x8000_0000, Rta.Reset(r).nextDue)
  {
    hide Rta.GoDark, Rta.NewSession;
    assert Rta.Reset(r).nextDue == 0;
    ElapsedSinceZero(now);
  }

  lemma ElapsedSinceZero(now: u32)
    ensures Elapsed(now, 0) == now
  {}

  // ----- "probe at most once per interval" -----

  /**
   The clock read at the top of a pass may be older than the time stamped on a probe later in that pass. The interval is
   kept exactly as long as it is not.
   */
  lemma ProbeIntervalKept(h: Hub, probed: nat, time: nat)
    requires h.lastProbeAt == Clock(probed) && !h.identified && (h.mode == Idle || h.mode == Offline)
    requires probed <= time < probed + TWO32 || time < probed <= time + (TWO32 - OFFLINE_PROBE_INTERVAL_MS)
    ensures Elapsed(Clock(time), h.lastProbeAt) >= OFFLINE_PROBE_INTERVAL_MS
      <==> time < probed || time >= probed + OFFLINE_PROBE_INTERVAL_MS
  {
    hide Elapsed, Clock;
    if time < probed {
      ElapsedAhead(time, probed);
    } else {
      ElapsedIsTrueTime(time, probed);
    }
  }
}
