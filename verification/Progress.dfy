/** The hub never gets stuck, and the 32-bit clock test means what it says. */
module Progress {
  import opened Wire
  import opened Toggles
  import opened Queue
  import opened Clock32
  import opened HubModel
  import opened HubInvariant
  import opened Effects

  // ----- one pass of the main loop -----

  /** `loop()` after the received bytes are drained, up to the transmission, with one reading of the clock; `extra` is
      what the preset and spectrum services enqueue in the same pass. */
  function BeforeSend(h: Hub, cfg: Config, now: u32, extra: seq<Txn>): Hub {
    var h1 := Apply(h, cfg, TimersDue(now));
    var h2 := Apply(h1, cfg, ReprobeDue(now));
    var h3 := Apply(h2, cfg, BurstDue(now));
    var h4 := Apply(h3, cfg, PollDue(now));
    OfferAll(h4, extra)
  }

  function Pass(h: Hub, cfg: Config, now: u32, extra: seq<Txn>): Hub {
    Apply(BeforeSend(h, cfg, now, extra), cfg, Send(now))
  }

  predicate AllNew(ts: seq<Txn>) { forall i :: 0 <= i < |ts| ==> ts[i].attempts == 0 }

  function Submits(ts: seq<Txn>): (steps: seq<Step>)
    ensures |steps| == |ts|
  {
    seq(|ts|, i requires 0 <= i < |ts| => Submit(ts[i]))
  }

  lemma {:induction false} OfferAllIsRun(h: Hub, cfg: Config, ts: seq<Txn>)
    requires AllNew(ts)
    ensures OfferAll(h, ts) == Run(h, cfg, Submits(ts))
    decreases |ts|
  {
    hide Offer;
    if ts != [] {
      assert ts[0].(attempts := 0) == ts[0];
      assert Submits(ts)[1..] == Submits(ts[1..]);
      OfferAllIsRun(Offer(h, ts[0]), cfg, ts[1..]);
    }
  }

  lemma RunFour(h: Hub, cfg: Config, a: Step, b: Step, c: Step, d: Step)
    ensures Run(h, cfg, [a, b, c, d]) == Apply(Apply(Apply(Apply(h, cfg, a), cfg, b), cfg, c), cfg, d)
  {
    hide Apply, Run;
    assert [a, b, c, d] == ([a] + [b]) + ([c] + [d]);
    RunConcat(h, cfg, [a] + [b], [c] + [d]);
    RunConcat(h, cfg, [a], [b]);
    RunOne(h, cfg, a);
    RunOne(Apply(h, cfg, a), cfg, b);
    var k := Apply(Apply(h, cfg, a), cfg, b);
    RunConcat(k, cfg, [c], [d]);
    RunOne(k, cfg, c);
    RunOne(Apply(k, cfg, c), cfg, d);
  }

  /** The steps of one pass of the main loop. */
  function PassSteps(now: u32, extra: seq<Txn>): seq<Step> {
    [TimersDue(now), ReprobeDue(now), BurstDue(now), PollDue(now)] + (Submits(extra) + [Send(now)])
  }

  /** A pass is a run of those steps, so every statement about runs holds of hubs driven by the main loop. */
  lemma PassIsRun(h: Hub, cfg: Config, now: u32, extra: seq<Txn>)
    requires AllNew(extra)
    ensures Pass(h, cfg, now, extra) == Run(h, cfg, PassSteps(now, extra))
  {
    hide Apply, Run, OfferAll, Submits;
    var first := [TimersDue(now), ReprobeDue(now), BurstDue(now), PollDue(now)];
    RunFour(h, cfg, TimersDue(now), ReprobeDue(now), BurstDue(now), PollDue(now));
    var h4 := Run(h, cfg, first);
    OfferAllIsRun(h4, cfg, extra);
    RunConcat(h4, cfg, Submits(extra), [Send(now)]);
    RunOne(OfferAll(h4, extra), cfg, Send(now));
    RunConcat(h, cfg, first, Submits(extra) + [Send(now)]);
  }

  /** So is the handling of the probe's answer. */
  lemma PlatformIsRun(h: Hub, cfg: Config, data: seq<byte>, now: u32)
    ensures PlatformReply(h, cfg, data, now)
      == Run(h, cfg, if |data| < 2 then [] else [Identified] + (Submits(ProbeReads(cfg)) + [Refresh(now)]))
  {
    if |data| >= 2 {
      assert AllNew(ProbeReads(cfg));
      hide Run, OfferAll, Submits, ProbeReads, Identify, RequestRefresh;
      RunOne(h, cfg, Identified);
      OfferAllIsRun(Identify(h), cfg, ProbeReads(cfg));
      var k := OfferAll(Identify(h), ProbeReads(cfg));
      RunOne(k, cfg, Refresh(now));
      RunConcat(Identify(h), cfg, Submits(ProbeReads(cfg)), [Refresh(now)]);
      RunConcat(h, cfg, [Identified], Submits(ProbeReads(cfg)) + [Refresh(now)]);
    }
  }

  predicate Waiting(h: Hub) { FindNext(h.queue) != -1 }

  predicate ProbeDue(h: Hub, now: u32) { !h.identified && Elapsed(now, h.lastProbeAt) >= OFFLINE_PROBE_INTERVAL_MS }

  /** There is something to do and its time has come. */
  predicate Due(h: Hub, now: u32) {
    match h.mode
    case AwaitResp => Elapsed(now, h.sentAt) >= h.current.timeoutMs
    case Backoff => Reached(now, h.backoffUntil)
    case Idle => Waiting(h) || ProbeDue(h, now)
    case _ => ProbeDue(h, now)
  }

  /** The hub is idle with something waiting: the next transmission is certain. */
  ghost predicate Ready(h: Hub) { Inv(h) && h.mode == Idle && Waiting(h) }

  lemma ReadyOffer(h: Hub, t: Txn)
    requires Ready(h) && t.attempts < 255
    ensures Ready(Offer(h, t))
  {
    hide Offer, UniqueKeys, AllMild, FindNext;
    OfferInv(h, t);
  }

  lemma {:induction false} ReadyOfferAll(h: Hub, ts: seq<Txn>)
    requires Ready(h) && forall i :: 0 <= i < |ts| ==> ts[i].attempts < 255
    ensures Ready(OfferAll(h, ts))
    decreases |ts|
  {
    hide Offer, Ready;
    if ts != [] {
      ReadyOffer(h, ts[0]);
      ReadyOfferAll(Offer(h, ts[0]), ts[1..]);
    }
  }

  lemma ReadyRefresh(h: Hub, cfg: Config, now: u32)
    requires Ready(h)
    ensures Ready(ServiceRefresh(h, cfg, now))
  {
    hide OfferAll, UniqueKeys, AllMild, FindNext, BurstFires, ToggleReads;
    ToggleReadsMild(cfg, TogglesToRead(h), TOGGLE_COUNT);
    ReadyOfferAll(h.(refreshPending := false), BurstReads(h, cfg));
  }

  lemma ReadyPoll(h: Hub, cfg: Config, now: u32)
    requires Ready(h)
    ensures Ready(Poll(h, cfg, now))
  {
    hide UniqueKeys, AllMild, FindNext, Elapsed, Add32;
  }

  lemma ReadyProbe(h: Hub, cfg: Config, now: u32)
    requires Inv(h) && (h.mode == Idle || h.mode == Offline)
    requires (h.mode == Idle && Waiting(h)) || ProbeDue(h, now)
    ensures Ready(Reprobe(h, cfg, now))
  {
    hide UniqueKeys, AllMild, FindNext, Elapsed, Offer;
    var g := h.(lastProbeAt := now, mode := Idle);
    OfferInv(g, Get(cfg, 0x7F, 7, OnPlatform, 0, NoFailAction));
  }

  lemma ReadySends(h: Hub, now: u32)
    requires Ready(h)
    ensures SendNext(h, now).hasCurrent && SendNext(h, now).sentAt == now && SendNext(h, now).mode == AwaitResp
  {
    hide FindNext;
  }

  /** From a settled idle state the rest of the pass ends with a request on the wire. */
  lemma RestOfPass(h: Hub, cfg: Config, now: u32, extra: seq<Txn>)
    requires Inv(h) && (h.mode == Idle || h.mode == Offline) && AllNew(extra)
    requires (h.mode == Idle && Waiting(h)) || ProbeDue(h, now)
    ensures var g := Apply(OfferAll(Poll(ServiceRefresh(Reprobe(h, cfg, now), cfg, now), cfg, now), extra), cfg, Send(now));
            g.hasCurrent && g.sentAt == now && g.mode == AwaitResp
  {
    hide Inv, Waiting, ProbeDue, Reprobe, ServiceRefresh, Poll, OfferAll, SendNext, UniqueKeys, AllMild;
    ReadyProbe(h, cfg, now);
    var h1 := Reprobe(h, cfg, now);
    ReadyRefresh(h1, cfg, now);
    ReadyPoll(ServiceRefresh(h1, cfg, now), cfg, now);
    var h2 := Poll(ServiceRefresh(h1, cfg, now), cfg, now);
    ReadyOfferAll(h2, extra);
    ReadySends(OfferAll(h2, extra), now);
  }

  /** The steps of a pass after the timers and before the transmission count no timeout and end no request. */
  lemma MiddleOfPass(h: Hub, cfg: Config, now: u32, extra: seq<Txn>)
    ensures var g := OfferAll(Poll(ServiceRefresh(Reprobe(h, cfg, now), cfg, now), cfg, now), extra);
      g.timeouts == h.timeouts && g.hasCurrent == h.hasCurrent
  {
    hide Apply, OfferAll;
    OffersFrame(h, cfg, ReprobeDue(now));
    var h1 := Apply(h, cfg, ReprobeDue(now));
    OffersFrame(h1, cfg, BurstDue(now));
    var h2 := Apply(h1, cfg, BurstDue(now));
    QuietFrame(h2, cfg, PollDue(now));
    var h3 := Apply(h2, cfg, PollDue(now));
    OfferAllFrame(h3, extra);
    StepsOfPass(h, cfg, now);
  }

  lemma StepsOfPass(h: Hub, cfg: Config, now: u32)
    ensures Apply(h, cfg, ReprobeDue(now)) == Reprobe(h, cfg, now)
    ensures Apply(h, cfg, BurstDue(now)) == ServiceRefresh(h, cfg, now)
    ensures Apply(h, cfg, PollDue(now)) == Poll(h, cfg, now)
    ensures forall k: Hub :: Apply(k, cfg, ReprobeDue(now)) == Reprobe(k, cfg, now)
    ensures forall k: Hub :: Apply(k, cfg, BurstDue(now)) == ServiceRefresh(k, cfg, now)
    ensures forall k: Hub :: Apply(k, cfg, PollDue(now)) == Poll(k, cfg, now)
  {
    hide Reprobe, ServiceRefresh, Poll;
  }

  /**
   A pass made when something is due moves the hub on. An idle, backing-off or offline hub transmits in that pass. An
   outstanding request whose time is up is counted as a timeout, and after the pass nothing is outstanding but what that
   very pass may have transmitted.
   */
  lemma PassMakesProgress(h: Hub, cfg: Config, now: u32, extra: seq<Txn>)
    requires Inv(h) && cfg.Valid() && Due(h, now) && AllNew(extra)
    ensures var g := Pass(h, cfg, now, extra);
      if h.mode != AwaitResp then g.hasCurrent && g.sentAt == now
      else g.timeouts == Add32(h.timeouts, 1) && (g.hasCurrent ==> g.sentAt == now)
  {
    hide UniqueKeys, AllMild, FindNext, OfferAll, Reprobe, ServiceRefresh, Poll, SendNext, RetryOrDrop, Elapsed, Reached,
      Add32;
    var h1 := Timers(h, cfg, now);
    if h.mode == AwaitResp {
      RetryFrame(h.(timeouts := Add32(h.timeouts, 1)), cfg, now);
      MiddleOfPass(h1, cfg, now, extra);
      SentNow(BeforeSend(h, cfg, now, extra), now);
    } else {
      TimersKeep(h, cfg, now);
      RestOfPass(h1, cfg, now, extra);
    }
  }

  lemma SentNow(h: Hub, now: u32)
    requires !h.hasCurrent
    ensures var g := SendNext(h, now); g.timeouts == h.timeouts && (g.hasCurrent ==> g.sentAt == now)
  {
    hide FindNext;
  }

  /** The true time at which the hub's next step becomes possible, given the true times of its stamps. */
  function DeadlineOf(h: Hub, sent: nat, until: nat, probed: nat): nat {
    match h.mode
    case AwaitResp => sent + h.current.timeoutMs
    case Backoff => until
    case Idle => if Waiting(h) then 0 else probed + OFFLINE_PROBE_INTERVAL_MS
    case _ => probed + OFFLINE_PROBE_INTERVAL_MS
  }

  /**
   A hub with work, or without an identified device, always has a step waiting for it: from its deadline on, until the
   clock has run half its range past the newest stamp, every pass finds something due.
   */
  lemma DueOnceDeadlinePasses(h: Hub, sent: nat, until: nat, probed: nat, time: nat)
    requires Inv(h) && (Waiting(h) || h.hasCurrent || !h.identified)
    requires h.sentAt == Clock(sent) && h.backoffUntil == Clock(until) && h.lastProbeAt == Clock(probed)
    requires sent <= time < sent + TWO32 || h.mode != AwaitResp
    requires time < until + 0x8000_0000 || h.mode != Backoff
    requires probed <= time < probed + TWO32
    requires time >= DeadlineOf(h, sent, until, probed)
    ensures Due(h, Clock(time))
  {
    hide UniqueKeys, AllMild, FindNext, Elapsed, Reached, Clock;
    if h.mode == AwaitResp {
      ElapsedIsTrueTime(time, sent);
    } else if h.mode == Backoff {
      ReachedIsTrueTime(time, until);
    }
    ElapsedIsTrueTime(time, probed);
  }

  /** While a request is outstanding no other is written: any step leaves it as it is or ends it. */
  lemma OutstandingIsStable(h: Hub, cfg: Config, s: Step)
    requires Inv(h) && h.hasCurrent
    ensures var g := Apply(h, cfg, s);
            !g.hasCurrent || (g.current == h.current && g.sentAt == h.sentAt && g.mode == AwaitResp)
  {
    assert h.mode == AwaitResp;
    hide Apply, Inv;
    StepFrame(h, cfg, s);
  }

  /** Every step, by its kind. */
  lemma StepFrame(h: Hub, cfg: Config, s: Step)
    ensures var g := Apply(h, cfg, s);
      && (h.mode == AwaitResp && h.hasCurrent && g.hasCurrent ==>
            g.current == h.current && g.sentAt == h.sentAt && g.mode == h.mode)
      && g.nextId >= h.nextId
      && (!s.ToggleAsked? ==> g.toggleRead == h.toggleRead)
      && (h.refreshPending && !(s.BurstDue? && BurstFires(h, s.now)) ==> g.refreshPending)
      && (!s.Notification? ==>
            g.notes.gaps == h.notes.gaps
            && ((g.notes.haveSeq == h.notes.haveSeq && g.notes.lastSeq == h.notes.lastSeq) || g.mode == Offline))
  {
    hide Apply, BurstFires;
    if Offers(s) {
      OffersFrame(h, cfg, s);
    } else if Ends(s) {
      EndsFrame(h, cfg, s);
    } else if s.Send? {
      SendFrame(h, cfg, s.now);
    } else {
      QuietFrame(h, cfg, s);
    }
  }
}
