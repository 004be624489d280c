/**
 When a refresh goes out: a request for one starts a pause, each further request starts it anew, and one burst of reads
 answers them all once the pause is over and there is room.
 */
module Debounce {
  import opened Wire
  import opened Toggles
  import opened Queue
  import opened Clock32
  import opened HubModel
  import opened Effects
  import opened BurstRoom

  /** Sequence numbers are counted modulo 256. */
  predicate FollowsOn(last: byte, b: byte) { Value(b) == (Value(last) + 1) % 256 }

  /** The packet shows that something was lost, or reports a change of the parameters, an input or a preset. */
  predicate Tells(h: Hub, p: seq<byte>) {
    && |p| >= 4 && p[0] == 0x02
    && ((h.notes.haveSeq && !FollowsOn(h.notes.lastSeq, p[3]))
        || p[1] == 0x02 || p[1] == 0x03 || p[1] == 0x04 || p[1] == 0x05)
  }

  /** Polling is on, no notifications come, the hub is idle and the interval is over. */
  predicate Polls(h: Hub, cfg: Config, now: u32) {
    cfg.pollIntervalMs > 0 && !h.notes.active && h.mode == Idle && Elapsed(now, h.lastPollAt) >= cfg.pollIntervalMs
  }

  predicate Asks(h: Hub, cfg: Config, s: Step) {
    match s
    case Refresh(_) => true
    case Notification(p, _) => Tells(h, p)
    case PollDue(now) => Polls(h, cfg, now)
    case _ => false
  }

  function TimeOf(s: Step): u32 {
    match s
    case Refresh(now) => now
    case Notification(_, now) => now
    case PollDue(now) => now
    case _ => 0
  }

  /** The last request for a refresh that no burst has answered yet. */
  datatype Wish = NoWish | Wish(at: u32)

  function Follow(h: Hub, cfg: Config, w: Wish, s: Step): Wish {
    if Asks(h, cfg, s) then Wish(TimeOf(s)) else if s.BurstDue? && BurstFires(h, s.now) then NoWish else w
  }

  function FollowRun(h: Hub, cfg: Config, w: Wish, steps: seq<Step>): Wish
    decreases |steps|
  {
    if steps == [] then w else FollowRun(Apply(h, cfg, steps[0]), cfg, Follow(h, cfg, w, steps[0]), steps[1..])
  }

  predicate Reflects(h: Hub, cfg: Config, w: Wish) {
    && (h.refreshPending <==> w.Wish?)
    && (w.Wish? ==> h.refreshDueAt == (w.at + cfg.refreshDebounceMs) % TWO32)
  }

  lemma Next8Is(b: byte, c: byte)
    ensures c == Next8(b) <==> FollowsOn(b, c)
  {
    hide Value, ToByte;
    ByteRoundTrip((Value(b) + 1) % 256);
    ValueRoundTrip(c);
  }

  lemma NotificationReflects(h: Hub, cfg: Config, p: seq<byte>, now: u32)
    ensures var g := HandleNotification(h, cfg, p, now);
      if Tells(h, p) then g.refreshPending && g.refreshDueAt == (now + cfg.refreshDebounceMs) % TWO32
      else g.refreshPending == h.refreshPending && g.refreshDueAt == h.refreshDueAt
  {
    hide Next8, FollowsOn;
    if |p| >= 4 {
      Next8Is(h.notes.lastSeq, p[3]);
    }
  }

  /** A poll asks for a refresh and starts the next interval. */
  lemma PollMeans(h: Hub, cfg: Config, now: u32)
    ensures Poll(h, cfg, now)
      == if Polls(h, cfg, now)
         then h.(lastPollAt := now, refreshPending := true, refreshDueAt := (now + cfg.refreshDebounceMs) % TWO32) else h
  {
    hide Elapsed;
  }

  lemma StepReflects(h: Hub, cfg: Config, w: Wish, s: Step)
    requires Reflects(h, cfg, w)
    ensures Reflects(Apply(h, cfg, s), cfg, Follow(h, cfg, w, s))
  {
    hide BurstFires;
    if Asks(h, cfg, s) || s.Notification? || s.PollDue? {
      hide Reflects, HandleNotification, Poll, Tells, Polls;
      AskReflects(h, cfg, w, s);
    } else {
      hide Apply;
      OthersReflect(h, cfg, s);
    }
  }

  lemma AskReflects(h: Hub, cfg: Config, w: Wish, s: Step)
    requires Reflects(h, cfg, w) && (s.Refresh? || s.Notification? || s.PollDue?)
    ensures Reflects(Apply(h, cfg, s), cfg, Follow(h, cfg, w, s))
  {
    hide HandleNotification, Poll, Tells, Polls;
    match s
    case Notification(p, now) => NotificationReflects(h, cfg, p, now);
    case PollDue(now) => PollMeans(h, cfg, now);
    case _ =>
  }

  lemma OthersReflect(h: Hub, cfg: Config, s: Step)
    requires !s.Refresh? && !s.Notification? && !s.PollDue?
    ensures var g := Apply(h, cfg, s);
      && g.refreshPending == (h.refreshPending && !(s.BurstDue? && BurstFires(h, s.now)))
      && g.refreshDueAt == h.refreshDueAt
  {
    hide BurstFires;
    if Offers(s) {
      OffersReflect(h, cfg, s);
      hide Apply;
    } else if Ends(s) {
      hide Apply;
      EndsFrame(h, cfg, s);
    } else if s.Send? {
      hide Apply;
      SendFrame(h, cfg, s.now);
    } else {
      hide Or;
    }
  }

  lemma OffersReflect(h: Hub, cfg: Config, s: Step)
    requires Offers(s)
    ensures var g := Apply(h, cfg, s);
      && g.refreshPending == (h.refreshPending && !(s.BurstDue? && BurstFires(h, s.now)))
      && g.refreshDueAt == h.refreshDueAt
  {
    hide BurstFires, OfferAll, BurstReads, Offer, Elapsed;
    match s
    case Submit(t) => OfferFrame(h, t.(attempts := 0));
    case ReprobeDue(now) =>
      OfferFrame(h.(lastProbeAt := now, mode := Idle), Get(cfg, 0x7F, 7, OnPlatform, 0, NoFailAction));
    case BurstDue(now) => OfferAllFrame(h.(refreshPending := false), BurstReads(h, cfg));
  }

  lemma {:induction false} RunReflects(h: Hub, cfg: Config, w: Wish, steps: seq<Step>)
    requires Reflects(h, cfg, w)
    ensures Reflects(Run(h, cfg, steps), cfg, FollowRun(h, cfg, w, steps))
    decreases |steps|
  {
    hide Apply, Reflects, Follow;
    if steps != [] {
      StepReflects(h, cfg, w, steps[0]);
      RunReflects(Apply(h, cfg, steps[0]), cfg, Follow(h, cfg, w, steps[0]), steps[1..]);
    }
  }

  /**
   After every run from power-on a refresh is pending exactly if one was asked for since the last burst, by a setter, a
   telling notification or a poll; it is due the debounce time after the last request.
   */
  lemma PendingExactly(cfg: Config, boot: u32, steps: seq<Step>)
    ensures Reflects(Run(Boot(cfg, boot), cfg, steps), cfg, FollowRun(Boot(cfg, boot), cfg, NoWish, steps))
  {
    hide Boot, Run, FollowRun;
    BootReflects(cfg, boot);
    RunReflects(Boot(cfg, boot), cfg, NoWish, steps);
  }

  lemma BootReflects(cfg: Config, boot: u32)
    ensures Reflects(Boot(cfg, boot), cfg, NoWish)
  {
    hide Offer, AllFree;
    OfferFrame(PowerOn(cfg).(lastProbeAt := boot, mode := Idle), Get(cfg, 0x7F, 7, OnPlatform, 0, NoFailAction));
  }

  /**
   In every reachable state, looked at within half the clock's range, the burst goes out exactly if a refresh was asked
   for, the debounce time has passed since the last time it was, and every one of its reads finds a free slot.
   */
  lemma BurstGoesOut(cfg: Config, boot: u32, steps: seq<Step>, asked: nat, time: nat)
    requires cfg.refreshDebounceMs <= 0x8000_0000 && asked <= time < asked + cfg.refreshDebounceMs + 0x8000_0000
    ensures var h := Run(Boot(cfg, boot), cfg, steps);
      var w := FollowRun(Boot(cfg, boot), cfg, NoWish, steps);
      && (w == NoWish ==> !BurstFires(h, Clock(time)))
      && (w == Wish(Clock(asked)) ==>
            (BurstFires(h, Clock(time)) <==>
               time >= asked + cfg.refreshDebounceMs && FreeCount(h.queue) >= |BurstReads(h, cfg)|))
  {
    hide Boot, Run, FollowRun, FreeCount, BurstReads, TogglesToRead, Ones, Clock, Elapsed;
    PendingExactly(cfg, boot, steps);
    GuardIsExact(cfg, boot, steps);
    ClockAdd(asked, cfg.refreshDebounceMs);
    ReachedIsTrueTime(time, asked + cfg.refreshDebounceMs);
  }

  /** A debounce time of more than half the clock's range is over at once. */
  lemma LongDebounceIsNone(h: Hub, cfg: Config, asked: nat)
    requires cfg.refreshDebounceMs > 0x8000_0000
    ensures Reached(Clock(asked), RequestRefresh(h, cfg, Clock(asked)).refreshDueAt)
  {
    hide Clock, Elapsed;
    ClockAdd(asked, cfg.refreshDebounceMs);
    ElapsedAhead(asked, asked + cfg.refreshDebounceMs);
  }

  /** Polls are a whole interval apart, in true time. */
  lemma PollsApart(h: Hub, cfg: Config, polled: nat, time: nat)
    requires h.lastPollAt == Clock(polled) && polled <= time < polled + TWO32
    ensures Polls(h, cfg, Clock(time)) <==>
      cfg.pollIntervalMs > 0 && !h.notes.active && h.mode == Idle && time >= polled + cfg.pollIntervalMs
  {
    hide Clock, Elapsed;
    ElapsedIsTrueTime(time, polled);
  }

  // ----- whether notifications come -----

  /** Well-formed packets so far, and whether notifications are believed to come. */
  datatype Feed = Feed(packets: nat, active: bool)

  function Hear(f: Feed, s: Step): Feed {
    match s
    case Notification(p, _) => if |p| >= 4 && p[0] == 0x02 then Feed(f.packets + 1, true) else f
    case NotifyEnabled(on) => f.(active := on)
    case _ => f
  }

  function HearAll(f: Feed, steps: seq<Step>): Feed
    decreases |steps|
  {
    if steps == [] then f else HearAll(Hear(f, steps[0]), steps[1..])
  }

  predicate Heard(h: Hub, f: Feed) { h.notes.active == f.active && h.notes.count == f.packets % TWO32 }

  lemma NotificationHeard(h: Hub, cfg: Config, f: Feed, s: Step)
    requires Heard(h, f) && s.Notification?
    ensures Heard(Apply(h, cfg, s), Hear(f, s))
  {
    hide Next8, RequestRefresh;
    RefreshFrame(h, cfg, s.now);
    PacketCounted(h, cfg, s.packet, s.now);
  }

  lemma PacketCounted(h: Hub, cfg: Config, p: seq<byte>, now: u32)
    ensures var g := HandleNotification(h, cfg, p, now);
      if |p| >= 4 && p[0] == 0x02 then g.notes.count == Add32(h.notes.count, 1) && g.notes.active else g == h
  {
    hide Next8, Add32, AffectsParams;
  }

  lemma StepHeard(h: Hub, cfg: Config, f: Feed, s: Step)
    requires Heard(h, f)
    ensures Heard(Apply(h, cfg, s), Hear(f, s))
  {
    if s.Notification? {
      hide Apply, Heard;
      NotificationHeard(h, cfg, f, s);
    } else if Offers(s) || Ends(s) || s.Send? {
      hide Apply;
      RequestsUnheard(h, cfg, s);
    } else {
      hide Apply, Heard;
      OthersHeard(h, cfg, f, s);
    }
  }

  lemma RequestsUnheard(h: Hub, cfg: Config, s: Step)
    requires Offers(s) || Ends(s) || s.Send?
    ensures var g := Apply(h, cfg, s); g.notes.active == h.notes.active && g.notes.count == h.notes.count
  {
    hide Apply;
    if Offers(s) {
      OffersFrame(h, cfg, s);
    } else if Ends(s) {
      EndsFrame(h, cfg, s);
    } else {
      SendFrame(h, cfg, s.now);
    }
  }

  lemma OthersHeard(h: Hub, cfg: Config, f: Feed, s: Step)
    requires Heard(h, f) && !s.Notification? && !Offers(s) && !Ends(s) && !s.Send?
    ensures Heard(Apply(h, cfg, s), Hear(f, s))
  {
    hide Add32, Or, Elapsed;
  }

  lemma {:induction false} RunHeard(h: Hub, cfg: Config, f: Feed, steps: seq<Step>)
    requires Heard(h, f)
    ensures Heard(Run(h, cfg, steps), HearAll(f, steps))
    decreases |steps|
  {
    hide Apply, Heard, Hear;
    if steps != [] {
      StepHeard(h, cfg, f, steps[0]);
      RunHeard(Apply(h, cfg, steps[0]), cfg, Hear(f, steps[0]), steps[1..]);
    }
  }

  /**
   After every run from power-on the counter is the number of well-formed packets modulo 2^32, and polling is held back
   exactly if the last word on notifications, a packet or the device's configuration, was that they come.
   */
  lemma ActiveExactly(cfg: Config, boot: u32, steps: seq<Step>)
    ensures Heard(Run(Boot(cfg, boot), cfg, steps), HearAll(Feed(0, false), steps))
  {
    hide Boot, Run, HearAll;
    BootHeard(cfg, boot);
    RunHeard(Boot(cfg, boot), cfg, Feed(0, false), steps);
  }

  lemma BootHeard(cfg: Config, boot: u32)
    ensures Heard(Boot(cfg, boot), Feed(0, false))
  {
    hide Offer, AllFree;
    OfferFrame(PowerOn(cfg).(lastProbeAt := boot, mode := Idle), Get(cfg, 0x7F, 7, OnPlatform, 0, NoFailAction));
  }
}
