/** The room the refresh burst waits for is exactly what it takes, and never more than the queue has. */
module BurstRoom {
  import opened Wire
  import opened Toggles
  import opened Queue
  import opened Clock32
  import opened HubModel
  import opened Progress

  /** The masks that name targets only. */
  predicate TargetsOnly(mask: bv16) { And(mask, 0xFFE0) == 0 }

  lemma MaskSteps(m: bv16, k: bv16, t: ToggleTarget)
    ensures TargetsOnly(m) ==> TargetsOnly(Or(m, ToggleBit(t))) && TargetsOnly(Less(m, k))
    ensures TargetsOnly(ToggleBit(t))
  {
    assert ToggleBit(t) & 0xFFE0 == 0;
    if TargetsOnly(m) {
      assert (m | ToggleBit(t)) & 0xFFE0 == (m & 0xFFE0) | (ToggleBit(t) & 0xFFE0);
      assert (m & !k) & 0xFFE0 == (m & 0xFFE0) & !k;
    }
  }

  lemma {:induction false} RunKeepsMask(h: Hub, cfg: Config, steps: seq<Step>)
    requires TargetsOnly(h.toggleRead)
    ensures TargetsOnly(Run(h, cfg, steps).toggleRead)
    decreases |steps|
  {
    if steps != [] {
      var s := steps[0];
      if s.ToggleAsked? {
        MaskSteps(h.toggleRead, 0, s.target);
      } else {
        hide Apply;
        StepFrame(h, cfg, s);
      }
      RunKeepsMask(Apply(h, cfg, s), cfg, steps[1..]);
    }
  }

  /** In every reachable state the guard of the burst asks for exactly as many slots as it will offer reads, at most ten. */
  lemma GuardIsExact(cfg: Config, boot: u32, steps: seq<Step>)
    ensures var h := Run(Boot(cfg, boot), cfg, steps);
      5 + Ones(TogglesToRead(h), 16) == |BurstReads(h, cfg)| <= 10 < QUEUE_DEPTH
  {
    var h := Run(Boot(cfg, boot), cfg, steps);
    BootMask(cfg, boot);
    hide Run, Boot, Ones, SelectedCount, Less, And, ToggleReads, FixedReads, ToggleBit, Selected;
    RunKeepsMask(Boot(cfg, boot), cfg, steps);
    MaskSteps(h.toggleRead, h.toggleUnsupported, 0);
    ExactCount(TogglesToRead(h));
    FirstFive(TogglesToRead(h));
  }

  lemma BootMask(cfg: Config, boot: u32)
    ensures TargetsOnly(Boot(cfg, boot).toggleRead)
  {
    hide Enqueue, AllFree, Endings;
    MaskSteps(0, 0, 0);
  }

  lemma ExactCount(mask: bv16)
    requires TargetsOnly(mask)
    ensures SelectedCount(mask, TOGGLE_COUNT) == Ones(mask, 16)
  {
    hide Ones, SelectedCount;
    assert mask & 0xFFE0 == 0;
    CountCoversLoop(mask);
  }

  /** So a pending refresh that is due goes out at the latest when the queue has drained to two requests. */
  lemma WaitingCannotStall(cfg: Config, boot: u32, steps: seq<Step>, now: u32)
    ensures var h := Run(Boot(cfg, boot), cfg, steps);
      h.refreshPending && Reached(now, h.refreshDueAt) && FreeCount(h.queue) >= 10 ==> BurstFires(h, now)
  {
    hide Run, Boot, Ones, Reached, FreeCount, BurstReads, TogglesToRead;
    GuardIsExact(cfg, boot, steps);
  }
}
