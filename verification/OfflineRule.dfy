/**
 When the hub goes offline: on the fifth request in a row that is given up, and from then on on each further one, until
 a request succeeds or a device is identified. The count is a byte in the program and wraps.
 */
module OfflineRule {
  import opened Wire
  import opened Queue
  import opened Clock32
  import opened HubModel
  import opened HubInvariant
  import opened Effects
  import opened Replies

  /** The step has given a request up, */
  predicate GaveUp(h: Hub, g: Hub) { |g.log| > |h.log| && g.log[|g.log| - 1].fate.Exhausted? }

  /** or seen one succeed. */
  predicate Succeeded(h: Hub, g: Hub) { |g.log| > |h.log| && g.log[|g.log| - 1].fate.Ok? }

  predicate Identifies(h: Hub, s: Step) { s.Identified? && h.mode == Idle }

  /** How many requests in a row have been given up, after one more step. */
  function Streak(h: Hub, cfg: Config, s: Step, n: nat): nat {
    var g := Apply(h, cfg, s);
    if Succeeded(h, g) || Identifies(h, s) then 0 else if GaveUp(h, g) then n + 1 else n
  }

  function StreakOf(h: Hub, cfg: Config, steps: seq<Step>, n: nat): nat
    decreases |steps|
  {
    if steps == [] then n else StreakOf(Apply(h, cfg, steps[0]), cfg, steps[1..], Streak(h, cfg, steps[0], n))
  }

  ghost predicate GoesOffline(h: Hub, g: Hub) { g.mode == Offline && h.mode != Offline }

  // ----- one step -----

  /** If anything has ended, what ended last was neither given up nor successful. */
  ghost predicate Neither(h: Hub, g: Hub) {
    g.log == h.log || (|g.log| > |h.log| && !GaveUp(h, g) && !Succeeded(h, g))
  }

  lemma InsertNeither(h: Hub, t: Txn)
    ensures Neither(h, Insert(h, t))
  {
    hide Enqueue, Add32;
  }

  lemma {:induction false} OfferAllNeither(h: Hub, ts: seq<Txn>)
    ensures Neither(h, OfferAll(h, ts))
    decreases |ts|
  {
    hide Insert;
    if ts != [] {
      InsertNeither(h.(nextId := h.nextId + 1), ts[0].(id := h.nextId));
      OfferAllNeither(Offer(h, ts[0]), ts[1..]);
    }
  }

  lemma OffersNeither(h: Hub, cfg: Config, s: Step)
    requires Offers(s)
    ensures Neither(h, Apply(h, cfg, s))
  {
    hide Insert, OfferAll, Elapsed, BurstFires, BurstReads, Neither;
    NothingNeither(h);
    match s
    case Submit(t) => InsertNeither(h.(nextId := h.nextId + 1), t.(attempts := 0, id := h.nextId));
      NeitherFrom(h, h.(nextId := h.nextId + 1), Apply(h, cfg, s));
    case ReprobeDue(now) =>
      var k := h.(lastProbeAt := now, mode := Idle, nextId := h.nextId + 1);
      InsertNeither(k, Get(cfg, 0x7F, 7, OnPlatform, 0, NoFailAction).(id := h.nextId));
      NeitherFrom(h, k, Insert(k, Get(cfg, 0x7F, 7, OnPlatform, 0, NoFailAction).(id := h.nextId)));
    case BurstDue(now) =>
      var k := h.(refreshPending := false);
      OfferAllNeither(k, BurstReads(h, cfg));
      NeitherFrom(h, k, OfferAll(k, BurstReads(h, cfg)));
  }

  lemma NothingNeither(h: Hub)
    ensures Neither(h, h)
  {}

  lemma NeitherFrom(h: Hub, k: Hub, g: Hub)
    requires k.log == h.log && Neither(k, g)
    ensures Neither(h, g)
  {}

  /** What one step means for the count and for being offline. */
  ghost predicate Ruled(h: Hub, g: Hub, identified: bool) {
    && g.failures
       == (if Succeeded(h, g) || identified then 0 else if GaveUp(h, g) then (h.failures + 1) % 256 else h.failures)
    && (GoesOffline(h, g) <==> GaveUp(h, g) && g.failures >= 5)
  }

  lemma NeitherRuled(h: Hub, g: Hub)
    requires Neither(h, g) && g.failures == h.failures && (g.mode == Offline ==> h.mode == Offline)
    ensures Ruled(h, g, false)
  {}

  lemma FailedRuled(h: Hub, cfg: Config, now: u32)
    requires Inv(h) && h.hasCurrent
    ensures Ruled(h, RetryOrDrop(h, cfg, now), false)
  {
    assert h.current.attempts < 255 && h.mode == AwaitResp;
    AttemptFails(h, cfg, now);
    RetryIs(h, cfg, now);
    hide Inv, RetryOrDrop, FailCurrent, Insert, BackoffMs, Add32, Neither, Contents;
    var g := RetryOrDrop(h, cfg, now);
    if h.current.attempts + 1 <= Allowed(cfg, h.current) {
      var b := h.(current := OneMore(h.current), backoffUntil := Add32(now, BackoffMs(cfg, h.current.attempts + 1)),
                  mode := Backoff, hasCurrent := false);
      InsertNeither(b, OneMore(h.current));
      NeitherFrom(h, b, g);
      NeitherRuled(h, g);
    }
  }

  lemma EndsRuled(h: Hub, cfg: Config, s: Step)
    requires Inv(h) && Ends(s)
    ensures Ruled(h, Apply(h, cfg, s), false)
  {
    hide RetryOrDrop, UniqueKeys, AllMild, FindNext, IsRetryable, Elapsed, Reached, Add32;
    match s
    case Response(ft, st, data, now) => if Answers(h, ft) { FailedRuled(h, cfg, now); }
    case TimersDue(now) =>
      if h.mode == AwaitResp {
        FailedRuled(h.(timeouts := Add32(h.timeouts, 1)), cfg, now);
      }
  }

  lemma QuietRuled(h: Hub, cfg: Config, s: Step)
    requires !Offers(s) && !Ends(s) && !s.Send?
    ensures Ruled(h, Apply(h, cfg, s), Identifies(h, s))
  {
    hide Apply;
    QuietFrame(h, cfg, s);
    QuietFailures(h, cfg, s);
  }

  lemma QuietFailures(h: Hub, cfg: Config, s: Step)
    requires !Offers(s) && !Ends(s) && !s.Send?
    ensures Apply(h, cfg, s).failures == if Identifies(h, s) then 0 else h.failures
  {
    hide Add32, Or, HandleNotification, Elapsed;
    if s.Notification? {
      NotificationTouches(h, cfg, s.packet, s.now);
    }
  }

  lemma SendStaysOnline(h: Hub, cfg: Config, now: u32)
    ensures Apply(h, cfg, Send(now)).mode == Offline ==> h.mode == Offline
  {
    hide FindNext;
  }

  lemma StepRuled(h: Hub, cfg: Config, s: Step)
    requires Inv(h)
    ensures Ruled(h, Apply(h, cfg, s), Identifies(h, s))
  {
    if Offers(s) {
      hide Apply, Inv, Ruled;
      OffersFrame(h, cfg, s);
      OffersNeither(h, cfg, s);
      NeitherRuled(h, Apply(h, cfg, s));
    } else if Ends(s) {
      hide Apply, Inv, Ruled;
      EndsRuled(h, cfg, s);
    } else if s.Send? {
      hide Apply, Inv, Ruled;
      SendFrame(h, cfg, s.now);
      SendStaysOnline(h, cfg, s.now);
      NeitherRuled(h, Apply(h, cfg, s));
    } else {
      hide Apply, Inv, Ruled;
      QuietRuled(h, cfg, s);
    }
  }

  // ----- every run -----

  lemma {:induction false} RunCounts(h: Hub, cfg: Config, steps: seq<Step>, n: nat)
    requires Inv(h) && cfg.Valid() && h.failures == n % 256
    ensures Run(h, cfg, steps).failures == StreakOf(h, cfg, steps, n) % 256
    decreases |steps|
  {
    hide Apply, Inv, GaveUp, Succeeded, GoesOffline;
    if steps != [] {
      StepRuled(h, cfg, steps[0]);
      ApplyKeeps(h, cfg, steps[0]);
      OneFurther(n);
      RunCounts(Apply(h, cfg, steps[0]), cfg, steps[1..], Streak(h, cfg, steps[0], n));
    }
  }

  lemma OneFurther(m: nat)
    ensures (m % 256 + 1) % 256 == (m + 1) % 256
  {}

  /**
   After every run from power-on, the next step takes the hub offline if and only if it gives a request up and the number
   given up in a row, modulo 256, is then at least five.
   */
  lemma OfflineExactly(cfg: Config, boot: u32, steps: seq<Step>, s: Step)
    requires cfg.Valid()
    ensures var h := Run(Boot(cfg, boot), cfg, steps);
      var n := Streak(h, cfg, s, StreakOf(Boot(cfg, boot), cfg, steps, 0));
      && h.failures == StreakOf(Boot(cfg, boot), cfg, steps, 0) % 256
      && (GoesOffline(h, Apply(h, cfg, s)) <==> GaveUp(h, Apply(h, cfg, s)) && n % 256 >= 5)
  {
    hide Boot, Run, Inv, Apply, GaveUp, Succeeded, GoesOffline, StreakOf;
    BootInv(cfg, boot);
    BootFailures(cfg, boot);
    var h := Run(Boot(cfg, boot), cfg, steps);
    RunCounts(Boot(cfg, boot), cfg, steps, 0);
    AlwaysInv(cfg, boot, steps);
    StepRuled(h, cfg, s);
    OneFurther(StreakOf(Boot(cfg, boot), cfg, steps, 0));
  }

  lemma BootFailures(cfg: Config, boot: u32)
    ensures Boot(cfg, boot).failures == 0
  {
    hide Offer, AllFree;
    OfferFrame(PowerOn(cfg).(lastProbeAt := boot, mode := Idle), Get(cfg, 0x7F, 7, OnPlatform, 0, NoFailAction));
  }
}
