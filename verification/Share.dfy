/**
 How much one request can cost. Whatever else is offered, answered, coalesced, evicted or flushed meanwhile, a request
 is transmitted at most `limit + 1` times and kept waiting at most the backoff ladder.
 */
module Share {
  import opened Wire
  import opened Queue
  import opened Clock32
  import opened HubModel
  import opened HubInvariant
  import opened Progress
  import opened Effects
  import opened Conservation
  import opened Drain

  /** A weight that does not grow with the attempts already made. */
  ghost predicate Falling(w: Txn -> nat) {
    forall t: Txn, a: u8 :: a >= t.attempts ==> w(t.(attempts := a)) <= w(t)
  }

  function Named(w: Txn -> nat, id: nat): Slot -> nat {
    (s: Slot) => if s.Used? && s.txn.id == id then w(s.txn) else 0
  }

  /** The weight of transaction `id` wherever it is now. */
  function Hold(h: Hub, w: Txn -> nat, id: nat): nat {
    Sum(h.queue, Named(w, id)) + if h.hasCurrent && h.current.id == id then w(h.current) else 0
  }

  predicate EndsAttempt(h: Hub, g: Hub, id: nat) { h.hasCurrent && !g.hasCurrent && h.current.id == id }

  function OneMore(t: Txn): Txn { t.(attempts := (t.attempts + 1) % 256) }

  lemma EnqueueHold(q: seq<Slot>, t: Txn, w: Txn -> nat, id: nat)
    requires Falling(w)
    ensures Sum(Enqueue(q, t).0, Named(w, id)) <= Sum(q, Named(w, id)) + Named(w, id)(Used(t))
  {
    hide Sum, FindKey, FindFree, FindVictim, Falling;
    var f := Named(w, id);
    var k, i := FindKey(q, KeyOf(t)), FindFree(q);
    var q' := Enqueue(q, t).0;
    if k < |q| {
      SumUpdate(q, k, q'[k], f);
      Charged(w, t, Max(q[k].txn.attempts, t.attempts));
    } else if i < |q| {
      SumUpdate(q, i, Used(t), f);
    } else if q != [] {
      SumUpdate(q, FindVictim(q), Used(t), f);
    }
  }

  lemma Charged(w: Txn -> nat, t: Txn, a: u8)
    requires Falling(w) && a >= t.attempts
    ensures w(t.(attempts := a)) <= w(t)
  {}

  lemma InsertHold(h: Hub, t: Txn, w: Txn -> nat, id: nat)
    requires Falling(w)
    ensures Hold(Insert(h, t), w, id) <= Hold(h, w, id) + (if t.id == id then w(t) else 0)
  {
    hide Sum, Enqueue, Falling, Add32, Endings;
    EnqueueHold(h.queue, t, w, id);
  }

  lemma OfferHold(h: Hub, t: Txn, w: Txn -> nat, id: nat)
    requires Falling(w)
    ensures id < h.nextId ==> Hold(Offer(h, t), w, id) <= Hold(h, w, id)
    ensures Hold(Offer(h, t), w, h.nextId) <= Hold(h, w, h.nextId) + w(t.(id := h.nextId))
  {
    hide Sum, Insert, Falling;
    InsertHold(h.(nextId := h.nextId + 1), t.(id := h.nextId), w, id);
    InsertHold(h.(nextId := h.nextId + 1), t.(id := h.nextId), w, h.nextId);
  }

  lemma {:induction false} OfferAllHold(h: Hub, ts: seq<Txn>, w: Txn -> nat, id: nat)
    requires Falling(w) && id < h.nextId
    ensures Hold(OfferAll(h, ts), w, id) <= Hold(h, w, id)
    decreases |ts|
  {
    hide Hold, Insert, Falling;
    if ts != [] {
      OfferHold(h, ts[0], w, id);
      InsertFrame(h.(nextId := h.nextId + 1), ts[0].(id := h.nextId));
      OfferAllHold(Offer(h, ts[0]), ts[1..], w, id);
    }
  }

  lemma SendHold(h: Hub, now: u32, w: Txn -> nat, id: nat)
    requires !h.hasCurrent
    ensures Hold(SendNext(h, now), w, id) == Hold(h, w, id)
  {
    hide Sum, FindNext;
    var i := FindNext(h.queue);
    if i != -1 {
      SumUpdate(h.queue, i, Slot.Free, Named(w, id));
    }
  }

  lemma {:induction false} NothingHeld(n: nat, w: Txn -> nat, id: nat)
    ensures Sum(AllFree(n), Named(w, id)) == 0
  {
    if n > 0 {
      assert AllFree(n)[1..] == AllFree(n - 1);
      NothingHeld(n - 1, w, id);
    }
  }

  lemma FailHold(h: Hub, now: u32, w: Txn -> nat, id: nat)
    ensures Hold(FailCurrent(h, now), w, id) <= Sum(h.queue, Named(w, id))
    ensures FailCurrent(h, now).mode != Backoff
  {
    hide Sum, Named, AllFree, FlushLog;
    NothingHeld(|h.queue|, w, id);
  }

  /** What remains of the share when an attempt ends: the whole weight is given back, and taken again if it is retried. */
  ghost predicate Settled(h: Hub, g: Hub, w: Txn -> nat, id: nat) {
    if EndsAttempt(h, g, id)
    then Hold(g, w, id) + w(h.current) <= Hold(h, w, id) + (if g.mode == Backoff then w(OneMore(h.current)) else 0)
    else Hold(g, w, id) <= Hold(h, w, id)
  }

  lemma RetryHold(h: Hub, cfg: Config, now: u32, w: Txn -> nat, id: nat)
    requires Falling(w) && h.hasCurrent
    ensures var g := RetryOrDrop(h, cfg, now);
      && Settled(h, g, w, id) && !g.hasCurrent
      && (g.mode == Backoff ==> OneMore(h.current).attempts <= Limit(cfg, h.current))
  {
    hide Sum, Named, FailCurrent, Insert, BackoffMs, Falling, Add32;
    var again := OneMore(h.current);
    var k := h.(current := again);
    FailHold(k, now, w, id);
    FailBudget(k, cfg, now);
    var b := k.(backoffUntil := Add32(now, BackoffMs(cfg, again.attempts)), mode := Backoff, hasCurrent := false);
    InsertHold(b, again, w, id);
    InsertFrame(b, again);
  }

  /** No step whatever lets a transaction already offered gain weight. */
  lemma StepHold(h: Hub, cfg: Config, s: Step, w: Txn -> nat, id: nat)
    requires Inv(h) && Falling(w) && id < h.nextId
    ensures var g := Apply(h, cfg, s);
      && Settled(h, g, w, id)
      && (EndsAttempt(h, g, id) && g.mode == Backoff ==> OneMore(h.current).attempts <= Limit(cfg, h.current))
  {
    hide Limit, Hold, RetryOrDrop, SendNext, UniqueKeys, AllMild, FindNext, Add32, IsRetryable, Falling, Offer, OfferAll,
      Elapsed, Reached, BurstFires, BurstReads, HandleNotification;
    match s
    case Submit(t) =>
      OfferHold(h, t.(attempts := 0), w, id);
      OfferFrame(h, t.(attempts := 0));
    case ReprobeDue(now) => ProbeHold(h, cfg, now, w, id);
    case BurstDue(now) => BurstHold(h, cfg, now, w, id);
    case Response(ft, st, data, now) => ResponseHold(h, cfg, ft, st, data, now, w, id);
    case TimersDue(now) =>
      if h.mode == AwaitResp {
        var k := h.(timeouts := Add32(h.timeouts, 1));
        SameHold(h, k, w, id);
        RetryHold(k, cfg, now, w, id);
      }
      SameHold(h, h.(mode := Idle), w, id);
    case Send(now) => if h.mode == Idle { SendHold(h, now, w, id); }
    case _ =>
      QuietBudget(h, cfg, s);
      SameHold(h, Apply(h, cfg, s), w, id);
  }

  lemma SameHold(h: Hub, g: Hub, w: Txn -> nat, id: nat)
    requires g.queue == h.queue && g.hasCurrent == h.hasCurrent && g.current == h.current
    ensures Hold(g, w, id) == Hold(h, w, id)
  {}

  lemma ProbeHold(h: Hub, cfg: Config, now: u32, w: Txn -> nat, id: nat)
    requires Falling(w) && id < h.nextId
    ensures Settled(h, Reprobe(h, cfg, now), w, id) && !EndsAttempt(h, Reprobe(h, cfg, now), id)
  {
    hide Hold, Offer, Elapsed, Falling;
    var k := h.(lastProbeAt := now, mode := Idle);
    SameHold(h, k, w, id);
    OfferHold(k, Get(cfg, 0x7F, 7, OnPlatform, 0, NoFailAction), w, id);
    OfferFrame(k, Get(cfg, 0x7F, 7, OnPlatform, 0, NoFailAction));
  }

  lemma BurstHold(h: Hub, cfg: Config, now: u32, w: Txn -> nat, id: nat)
    requires Falling(w) && id < h.nextId
    ensures Settled(h, ServiceRefresh(h, cfg, now), w, id) && !EndsAttempt(h, ServiceRefresh(h, cfg, now), id)
  {
    hide Hold, OfferAll, BurstFires, BurstReads, Falling;
    var k := h.(refreshPending := false);
    SameHold(h, k, w, id);
    OfferAllHold(k, BurstReads(h, cfg), w, id);
    OfferAllFrame(k, BurstReads(h, cfg));
  }

  lemma ResponseHold(h: Hub, cfg: Config, ft: byte, st: byte, data: seq<byte>, now: u32, w: Txn -> nat, id: nat)
    requires Falling(w)
    ensures var g := HandleResponse(h, cfg, ft, st, data, now);
      && Settled(h, g, w, id)
      && (EndsAttempt(h, g, id) && g.mode == Backoff ==> OneMore(h.current).attempts <= Limit(cfg, h.current))
  {
    hide Sum, Named, RetryOrDrop, IsRetryable, Falling;
    if Answers(h, ft) {
      RetryHold(h, cfg, now, w, id);
    }
  }

  // ----- attempts and delays -----

  function AttemptsLeft(cfg: Config): Txn -> nat { (t: Txn) => Cost(cfg, t) }

  function RungsLeft(a: nat, b: nat): nat
    requires a <= b < 256
  {
    LadderRises(a, b);
    Ladder(b) - Ladder(a)
  }

  /** The part of the backoff ladder not yet climbed, in milliseconds. */
  function Climb(cfg: Config, t: Txn): nat {
    if t.attempts <= Limit(cfg, t) then cfg.backoffBaseMs * RungsLeft(t.attempts, Limit(cfg, t)) else 0
  }

  function DelaysLeft(cfg: Config): Txn -> nat { (t: Txn) => Climb(cfg, t) }

  lemma {:induction false} LadderRises(a: nat, b: nat)
    requires a <= b < 256
    ensures Ladder(a) <= Ladder(b)
  {
    if a < b {
      LadderRises(a, b - 1);
    }
  }

  lemma LimitIsFixed(cfg: Config, t: Txn, a: u8)
    ensures Limit(cfg, t.(attempts := a)) == Limit(cfg, t)
  {}

  lemma AttemptsFall(cfg: Config)
    ensures Falling(AttemptsLeft(cfg))
  {
    hide Limit;
    forall t: Txn, a: u8 | a >= t.attempts
      ensures AttemptsLeft(cfg)(t.(attempts := a)) <= AttemptsLeft(cfg)(t)
    {
      LimitIsFixed(cfg, t, a);
    }
  }

  lemma DelaysFall(cfg: Config)
    ensures Falling(DelaysLeft(cfg))
  {
    hide Limit, Ladder;
    forall t: Txn, a: u8 | a >= t.attempts
      ensures DelaysLeft(cfg)(t.(attempts := a)) <= DelaysLeft(cfg)(t)
    {
      LimitIsFixed(cfg, t, a);
      if a <= Limit(cfg, t) {
        LadderRises(t.attempts, a);
        LadderRises(a, Limit(cfg, t));
        Scale(cfg.backoffBaseMs, Ladder(Limit(cfg, t)) - Ladder(a), Ladder(Limit(cfg, t)) - Ladder(t.attempts));
      }
    }
  }

  lemma Scale(k: nat, a: nat, b: nat)
    requires a <= b
    ensures k * a <= k * b
  {}

  /** The delay charged to `id` by a step: the backoff started when its attempt ended. */
  function Charge(h: Hub, g: Hub, cfg: Config, id: nat): nat {
    if EndsAttempt(h, g, id) && g.mode == Backoff then BackoffMs(cfg, OneMore(h.current).attempts) else 0
  }

  /** One rung of the ladder pays for one delay. */
  lemma Rung(cfg: Config, t: Txn)
    requires t.attempts < 255 && OneMore(t).attempts <= Limit(cfg, t)
    ensures Cost(cfg, OneMore(t)) + 1 == Cost(cfg, t)
    ensures Climb(cfg, OneMore(t)) + BackoffMs(cfg, OneMore(t).attempts) <= Climb(cfg, t)
  {
    hide Limit, Pow2, RetryShift;
    var a := t.attempts + 1;
    var n := Limit(cfg, t);
    LimitIsFixed(cfg, t, a);
    LadderRises(a, n);
    var step := Pow2(RetryShift(a));
    assert Ladder(a) == Ladder(a - 1) + step;
    Distribute(cfg.backoffBaseMs, step, Ladder(n) - Ladder(a));
    Wraps(cfg.backoffBaseMs * step);
  }

  lemma Wraps(n: nat)
    ensures n % TWO32 <= n
  {}

  /** Every step pays for the attempt it ends and the delay it starts out of the request's own share. */
  lemma StepPays(h: Hub, cfg: Config, s: Step, id: nat)
    requires Inv(h) && id < h.nextId
    ensures var g := Apply(h, cfg, s);
      && Hold(g, AttemptsLeft(cfg), id) + One(EndsAttempt(h, g, id)) <= Hold(h, AttemptsLeft(cfg), id)
      && Hold(g, DelaysLeft(cfg), id) + Charge(h, g, cfg, id) <= Hold(h, DelaysLeft(cfg), id)
  {
    assert h.hasCurrent ==> h.current.attempts < 255;
    hide Apply, Hold, Inv, Cost, Climb, BackoffMs, Limit, Falling;
    AttemptsFall(cfg);
    DelaysFall(cfg);
    StepHold(h, cfg, s, AttemptsLeft(cfg), id);
    StepHold(h, cfg, s, DelaysLeft(cfg), id);
    var g := Apply(h, cfg, s);
    if EndsAttempt(h, g, id) {
      if g.mode == Backoff {
        Rung(cfg, h.current);
      } else {
        SomeCost(cfg, h.current);
      }
    }
  }

  // ----- runs -----

  function CountAttempts(h: Hub, cfg: Config, steps: seq<Step>, id: nat): nat
    decreases |steps|
  {
    if steps == [] then 0
    else
      var g := Apply(h, cfg, steps[0]);
      One(EndsAttempt(h, g, id)) + CountAttempts(g, cfg, steps[1..], id)
  }

  function TotalCharge(h: Hub, cfg: Config, steps: seq<Step>, id: nat): nat
    decreases |steps|
  {
    if steps == [] then 0
    else
      var g := Apply(h, cfg, steps[0]);
      Charge(h, g, cfg, id) + TotalCharge(g, cfg, steps[1..], id)
  }

  lemma {:induction false} RunPays(h: Hub, cfg: Config, steps: seq<Step>, id: nat)
    requires Inv(h) && cfg.Valid() && id < h.nextId
    ensures CountAttempts(h, cfg, steps, id) <= Hold(h, AttemptsLeft(cfg), id)
    ensures TotalCharge(h, cfg, steps, id) <= Hold(h, DelaysLeft(cfg), id)
    decreases |steps|
  {
    hide Apply, Hold, Inv, Charge, EndsAttempt;
    if steps != [] {
      StepPays(h, cfg, steps[0], id);
      ApplyKeeps(h, cfg, steps[0]);
      StepFrame(h, cfg, steps[0]);
      RunPays(Apply(h, cfg, steps[0]), cfg, steps[1..], id);
    }
  }

  lemma {:induction false} NoSlotNoHold(q: seq<Slot>, w: Txn -> nat, id: nat)
    requires Sum(q, InSlot(id)) == 0
    ensures Sum(q, Named(w, id)) == 0
  {
    if q != [] {
      NoSlotNoHold(q[1..], w, id);
    }
  }

  /** A transaction not offered yet is nowhere. */
  lemma NextIsNowhere(cfg: Config, boot: u32, past: seq<Step>, w: Txn -> nat)
    requires cfg.Valid()
    ensures var h := Run(Boot(cfg, boot), cfg, past); Hold(h, w, h.nextId) == 0
  {
    hide Run, Boot, Sum, Total;
    var h := Run(Boot(cfg, boot), cfg, past);
    Conserved(cfg, boot, past, h.nextId);
    NoSlotNoHold(h.queue, w, h.nextId);
  }

  /**
   A request offered at any reachable moment is attempted at most `limit + 1` times and kept waiting by backoff for at
   most the ladder of its limit, whatever else is offered, answered, refused, notified or timed out afterwards.
   */
  lemma RequestIsBounded(cfg: Config, boot: u32, past: seq<Step>, t: Txn, future: seq<Step>)
    requires cfg.Valid()
    ensures var h := Run(Boot(cfg, boot), cfg, past);
      var g := Apply(h, cfg, Submit(t));
      && CountAttempts(g, cfg, future, h.nextId) <= Limit(cfg, t) + 1
      && TotalCharge(g, cfg, future, h.nextId) <= cfg.backoffBaseMs * Ladder(Limit(cfg, t))
  {
    var h := Run(Boot(cfg, boot), cfg, past);
    var u := t.(attempts := 0);
    AlwaysInv(cfg, boot, past);
    AttemptsFall(cfg);
    DelaysFall(cfg);
    hide Run, Boot, Hold, Inv, Falling, Limit;
    NextIsNowhere(cfg, boot, past, AttemptsLeft(cfg));
    NextIsNowhere(cfg, boot, past, DelaysLeft(cfg));
    OfferHold(h, u, AttemptsLeft(cfg), h.nextId);
    OfferHold(h, u, DelaysLeft(cfg), h.nextId);
    FreshWeights(cfg, t, h.nextId);
    hide Offer, Cost, Climb;
    assert Apply(h, cfg, Submit(t)) == Offer(h, u);
    OfferFrame(h, u);
    ApplyKeeps(h, cfg, Submit(t));
    RunPays(Apply(h, cfg, Submit(t)), cfg, future, h.nextId);
  }

  lemma FreshWeights(cfg: Config, t: Txn, id: nat)
    ensures Cost(cfg, t.(attempts := 0).(id := id)) == Limit(cfg, t) + 1
    ensures Climb(cfg, t.(attempts := 0).(id := id)) == cfg.backoffBaseMs * Ladder(Limit(cfg, t))
  {
    assert Limit(cfg, t.(attempts := 0).(id := id)) == Limit(cfg, t);
    assert Ladder(0) == 0;
  }
}
