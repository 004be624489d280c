/**
 Retries end. Without new requests, every reply and every timeout uses up one unit of a budget that starts at the
 number of attempts the waiting and outstanding requests still have, so the queue drains.
 */
module Drain {
  import opened Wire
  import opened Queue
  import opened Clock32
  import opened HubModel
  import opened HubInvariant

  /** Attempts a transaction may still make; a transaction already over its limit may make one. */
  function Cost(cfg: Config, t: Txn): nat {
    1 + if t.attempts <= Limit(cfg, t) then Limit(cfg, t) - t.attempts else 0
  }

  lemma SomeCost(cfg: Config, t: Txn)
    ensures Cost(cfg, t) >= 1
  {}

  function SlotCost(cfg: Config): Slot -> nat { (s: Slot) => if s.Used? then Cost(cfg, s.txn) else 0 }

  function Budget(h: Hub, cfg: Config): nat {
    Sum(h.queue, SlotCost(cfg)) + if h.hasCurrent then Cost(cfg, h.current) else 0
  }

  /** Steps that offer no new transaction. */
  predicate NothingNew(s: Step) { !s.Submit? && !s.ReprobeDue? && !s.BurstDue? }

  predicate Completes(h: Hub, g: Hub) { h.hasCurrent && !g.hasCurrent }

  predicate Sends(h: Hub, g: Hub) { !h.hasCurrent && g.hasCurrent }

  function One(b: bool): nat { if b then 1 else 0 }

  // ----- one step -----

  /** Re-inserting a transaction adds at most its own cost: coalescing, evicting and refusing only lower the sum. */
  lemma EnqueueCost(q: seq<Slot>, t: Txn, cfg: Config)
    ensures Sum(Enqueue(q, t).0, SlotCost(cfg)) <= Sum(q, SlotCost(cfg)) + Cost(cfg, t)
  {
    hide Sum, FindKey, FindFree, FindVictim;
    var f := SlotCost(cfg);
    var k, i := FindKey(q, KeyOf(t)), FindFree(q);
    var q' := Enqueue(q, t).0;
    if k < |q| {
      SumUpdate(q, k, q'[k], f);
    } else if i < |q| {
      SumUpdate(q, i, Used(t), f);
    } else if q != [] {
      SumUpdate(q, FindVictim(q), Used(t), f);
    }
  }

  lemma SendBudget(h: Hub, cfg: Config, now: u32)
    requires !h.hasCurrent
    ensures Budget(SendNext(h, now), cfg) == Budget(h, cfg)
  {
    hide Sum, FindNext, Limit;
    var i := FindNext(h.queue);
    if i != -1 {
      SumUpdate(h.queue, i, Slot.Free, SlotCost(cfg));
    }
  }

  lemma {:induction false} FreeCost(n: nat, cfg: Config)
    ensures Sum(AllFree(n), SlotCost(cfg)) == 0
  {
    if n > 0 {
      assert AllFree(n)[1..] == AllFree(n - 1);
      FreeCost(n - 1, cfg);
    }
  }

  lemma FailBudget(h: Hub, cfg: Config, now: u32)
    ensures Budget(FailCurrent(h, now), cfg) <= Sum(h.queue, SlotCost(cfg))
    ensures !FailCurrent(h, now).hasCurrent
  {
    hide Sum, SlotCost, AllFree, FlushLog;
    FreeCost(|h.queue|, cfg);
  }

  lemma RetryBudget(h: Hub, cfg: Config, now: u32)
    requires Inv(h) && h.hasCurrent
    ensures Budget(RetryOrDrop(h, cfg, now), cfg) < Budget(h, cfg)
    ensures !RetryOrDrop(h, cfg, now).hasCurrent
  {
    hide Sum, SlotCost, FailCurrent, Enqueue, BackoffMs, UniqueKeys, AllMild, FindNext, Add32;
    var again := h.current.(attempts := (h.current.attempts + 1) % 256);
    FailBudget(h.(current := again), cfg, now);
    EnqueueCost(h.queue, again, cfg);
  }

  lemma StepBudget(h: Hub, cfg: Config, s: Step)
    requires Inv(h) && NothingNew(s)
    ensures var g := Apply(h, cfg, s);
            Budget(g, cfg) + One(Completes(h, g)) <= Budget(h, cfg)
  {
    hide Sum, SlotCost, RetryOrDrop, SendNext, UniqueKeys, AllMild, FindNext, Add32, IsRetryable, Limit;
    match s
    case Response(ft, st, data, now) => if Answers(h, ft) { RetryBudget(h, cfg, now); }
    case TimersDue(now) =>
      if h.mode == AwaitResp {
        hide Elapsed;
        var k := h.(timeouts := Add32(h.timeouts, 1));
        RetryBudget(k, cfg, now);
      }
    case Send(now) => if h.mode == Idle { SendBudget(h, cfg, now); }
    case _ => QuietBudget(h, cfg, s);
  }

  lemma QuietBudget(h: Hub, cfg: Config, s: Step)
    requires NothingNew(s) && !s.Response? && !s.TimersDue? && !s.Send?
    ensures var g := Apply(h, cfg, s);
      g.queue == h.queue && g.hasCurrent == h.hasCurrent && g.current == h.current && g.mode == h.mode
  {
    hide Add32, Or, Elapsed, HandleNotification;
    if s.Notification? {
      NotificationTouches(h, cfg, s.packet, s.now);
    }
  }

  // ----- runs -----

  function CountCompletions(h: Hub, cfg: Config, steps: seq<Step>): nat
    decreases |steps|
  {
    if steps == [] then 0
    else
      var g := Apply(h, cfg, steps[0]);
      One(Completes(h, g)) + CountCompletions(g, cfg, steps[1..])
  }

  function CountSends(h: Hub, cfg: Config, steps: seq<Step>): nat
    decreases |steps|
  {
    if steps == [] then 0
    else
      var g := Apply(h, cfg, steps[0]);
      One(Sends(h, g)) + CountSends(g, cfg, steps[1..])
  }

  /** However replies, notifications and timeouts interleave, each completed attempt lowers the budget. */
  lemma {:induction false} CompletionsBounded(h: Hub, cfg: Config, steps: seq<Step>)
    requires Inv(h) && cfg.Valid() && forall i :: 0 <= i < |steps| ==> NothingNew(steps[i])
    ensures CountCompletions(h, cfg, steps) + Budget(Run(h, cfg, steps), cfg) <= Budget(h, cfg)
    decreases |steps|
  {
    hide Apply, Budget, Inv, NothingNew, Completes;
    if steps != [] {
      var g := Apply(h, cfg, steps[0]);
      StepBudget(h, cfg, steps[0]);
      ApplyKeeps(h, cfg, steps[0]);
      CompletionsBounded(g, cfg, steps[1..]);
    }
  }

  lemma {:induction false} SendsMatchCompletions(h: Hub, cfg: Config, steps: seq<Step>)
    ensures CountSends(h, cfg, steps) + One(h.hasCurrent)
         == CountCompletions(h, cfg, steps) + One(Run(h, cfg, steps).hasCurrent)
    decreases |steps|
  {
    hide Apply;
    if steps != [] {
      SendsMatchCompletions(Apply(h, cfg, steps[0]), cfg, steps[1..]);
    }
  }

  /** The number of frames put on the wire before the hub falls silent is at most the budget. */
  lemma SendsBounded(h: Hub, cfg: Config, steps: seq<Step>)
    requires Inv(h) && cfg.Valid() && forall i :: 0 <= i < |steps| ==> NothingNew(steps[i])
    ensures CountSends(h, cfg, steps) <= Budget(h, cfg)
  {
    hide Run, Inv, Sum, Limit;
    CompletionsBounded(h, cfg, steps);
    SendsMatchCompletions(h, cfg, steps);
  }

  // ----- how long one unanswered request can take -----

  /** The total of the backoff delays after attempts 1..n, in units of the base delay. */
  function Ladder(n: nat): nat
    requires n < 256
  {
    if n == 0 then 0 else Ladder(n - 1) + Pow2(RetryShift(n))
  }

  lemma {:induction false} LadderClosed(n: nat)
    requires n < 256
    ensures n <= 4 ==> Ladder(n) == Pow2(n) - 1
    ensures n >= 4 ==> Ladder(n) == 15 + 8 * (n - 4)
  {
    assert Pow2(3) == 8 && Pow2(2) == 4 && Pow2(1) == 2 && Pow2(0) == 1 && Pow2(4) == 16;
    if n > 0 {
      LadderClosed(n - 1);
    }
  }

  /** Nothing waits, and `h.current`, sent at `time`, is never answered. */
  ghost predicate Alone(h: Hub, time: nat) {
    && Inv(h) && h.hasCurrent && h.queue == AllFree(QUEUE_DEPTH) && h.sentAt == Clock(time)
    && h.failures < 4
  }

  function DelayOf(cfg: Config, attempts: u8): nat { cfg.backoffBaseMs * Pow2(RetryShift(attempts)) }

  /** One unanswered attempt that is retried: the timeout, the end of the backoff, the next transmission. */
  function Cycle(cfg: Config, t: Txn, time: nat): seq<Step>
    requires t.attempts < 255
  {
    var late := time + t.timeoutMs;
    var due := late + DelayOf(cfg, t.attempts + 1);
    [TimersDue(Clock(late)), TimersDue(Clock(due)), Send(Clock(due))]
  }

  lemma TimeoutDue(time: nat, ms: u32)
    ensures Elapsed(Clock(time + ms), Clock(time)) == ms
  {}

  lemma AtDeadline(time: nat)
    ensures Reached(Clock(time), Clock(time))
  {}

  /** Before the timeout has run, the timers do nothing to an outstanding request. */
  lemma NotYet(h: Hub, cfg: Config, time: nat, wait: nat)
    requires h.mode == AwaitResp && h.sentAt == Clock(time) && wait < h.current.timeoutMs
    ensures Timers(h, cfg, Clock(time + wait)) == h
  {
    TimeoutDue(time, wait);
  }

  /** The timers leave a backoff alone at every moment from `from` to the end of its delay. */
  ghost predicate Kept(h: Hub, cfg: Config, from: nat, delay: nat) {
    forall t: nat :: from <= t < from + delay ==> Timers(h, cfg, Clock(t)) == h
  }

  /** A backoff is kept exactly if its delay is at most half the range of the clock; a longer one ends at once. */
  lemma BackoffKept(h: Hub, cfg: Config, from: nat, delay: u32)
    requires h.mode == Backoff && h.backoffUntil == Clock(from + delay)
    ensures Kept(h, cfg, from, delay) <==> delay <= 0x8000_0000
    ensures delay > 0x8000_0000 ==> Timers(h, cfg, Clock(from)).mode == Idle
  {
    hide Clock, Elapsed, RetryOrDrop;
    if delay <= 0x8000_0000 {
      forall t: nat | from <= t < from + delay
        ensures Timers(h, cfg, Clock(t)) == h
      {
        ReachedIsTrueTime(t, from + delay);
      }
    } else {
      ElapsedAhead(from, from + delay);
    }
  }

  /** The delay a retry starts is the one its attempt number calls for, measured from now. */
  lemma RetryStartsBackoff(h: Hub, cfg: Config, time: nat)
    requires h.hasCurrent
    ensures var g := RetryOrDrop(h, cfg, Clock(time));
      g.mode == Backoff ==>
        g.backoffUntil == Clock(time + BackoffMs(cfg, (h.current.attempts + 1) % 256))
        && (Kept(g, cfg, time, BackoffMs(cfg, (h.current.attempts + 1) % 256))
            <==> BackoffMs(cfg, (h.current.attempts + 1) % 256) <= 0x8000_0000)
  {
    hide Clock, FailCurrent, BackoffMs, Kept, Enqueue, Add32, Endings, Limit;
    var g := RetryOrDrop(h, cfg, Clock(time));
    var delay := BackoffMs(cfg, (h.current.attempts + 1) % 256);
    ClockAdd(time, delay);
    FailSettles(h.(current := h.current.(attempts := (h.current.attempts + 1) % 256)), Clock(time));
    if g.mode == Backoff {
      BackoffKept(g, cfg, time, delay);
    }
  }

  lemma FailSettles(h: Hub, now: u32)
    ensures FailCurrent(h, now).mode == Idle || FailCurrent(h, now).mode == Offline
  {
    hide AllFree, FlushLog, Add32;
  }

  lemma OneWaiting(t: Txn)
    ensures var q := AllFree(QUEUE_DEPTH);
            && Enqueue(q, t) == (q[0 := Used(t)], Placed)
            && FindNext(q[0 := Used(t)]) == 0
            && q[0 := Used(t)][0 := Slot.Free] == q
  {
    var q := AllFree(QUEUE_DEPTH);
    var p := q[0 := Used(t)];
    assert p[0].Used? && forall i :: 1 <= i < |p| ==> p[i].Free?;
    var r := FindNext(p);
    assert r != -1;
  }

  /** What one cycle does to the hub: the request is outstanding again, one attempt later. */
  function AfterCycle(h: Hub, cfg: Config, time: nat): Hub
    requires h.current.attempts < 254
  {
    var again := h.current.(attempts := h.current.attempts + 1);
    var due := time + h.current.timeoutMs + DelayOf(cfg, again.attempts);
    h.(current := again, sentAt := Clock(due), backoffUntil := Clock(due), timeouts := Add32(h.timeouts, 1))
  }

  lemma CycleRetries(h: Hub, cfg: Config, time: nat)
    requires Alone(h, time) && h.current.attempts < Limit(cfg, h.current) && cfg.Valid()
    ensures h.current.attempts < 254
    ensures Run(h, cfg, Cycle(cfg, h.current, time)) == AfterCycle(h, cfg, time)
    ensures Alone(AfterCycle(h, cfg, time), time + h.current.timeoutMs + DelayOf(cfg, h.current.attempts + 1))
  {
    hide Apply, Inv, FindNext, DelayOf, Elapsed, Clock, Add32, AllFree;
    var t := h.current;
    var late := time + t.timeoutMs;
    var due := late + DelayOf(cfg, t.attempts + 1);
    CycleInv(h);
    var h1 := FirstStep(h, cfg, time);
    SecondStep(h, h1, cfg, due);
    RunThree(h, cfg, TimersDue(Clock(late)), TimersDue(Clock(due)), Send(Clock(due)));
  }

  lemma CycleInv(h: Hub)
    requires Inv(h) && h.hasCurrent
    ensures h.mode == AwaitResp
    ensures forall g: Hub :: g.queue == h.queue && g.hasCurrent && g.mode == h.mode && g.current.attempts < 255 ==> Inv(g)
  {
    hide UniqueKeys, AllMild, FindNext;
  }

  lemma SecondStep(h: Hub, h1: Hub, cfg: Config, due: nat)
    requires h.mode == AwaitResp && h.hasCurrent && h.queue == AllFree(QUEUE_DEPTH) && h.current.attempts < 254
    requires var again := h.current.(attempts := h.current.attempts + 1);
             h1 == h.(current := again, hasCurrent := false, mode := Backoff, backoffUntil := Clock(due),
                      timeouts := Add32(h.timeouts, 1), queue := AllFree(QUEUE_DEPTH)[0 := Used(again)])
    ensures Apply(Apply(h1, cfg, TimersDue(Clock(due))), cfg, Send(Clock(due)))
         == h1.(hasCurrent := true, mode := AwaitResp, sentAt := Clock(due), queue := h.queue)
  {
    hide FindNext, Enqueue, Elapsed, Clock, Add32, AllFree, Reached;
    OneWaiting(h1.current);
    AtDeadline(due);
    assert Apply(h1, cfg, TimersDue(Clock(due))) == h1.(mode := Idle);
  }

  lemma FirstStep(h: Hub, cfg: Config, time: nat) returns (g: Hub)
    requires Alone(h, time) && h.current.attempts < Limit(cfg, h.current) && cfg.Valid()
    ensures h.current.attempts < 254
    ensures g == Apply(h, cfg, TimersDue(Clock(time + h.current.timeoutMs)))
    ensures var again := h.current.(attempts := h.current.attempts + 1);
            var due := time + h.current.timeoutMs + DelayOf(cfg, again.attempts);
            g == h.(current := again, hasCurrent := false, mode := Backoff, backoffUntil := Clock(due),
                    timeouts := Add32(h.timeouts, 1), queue := AllFree(QUEUE_DEPTH)[0 := Used(again)])
  {
    hide FindNext, Enqueue, UniqueKeys, AllMild, Elapsed, Clock, AllFree, Pow2;
    var t := h.current;
    var again := t.(attempts := t.attempts + 1);
    var late := time + t.timeoutMs;
    TimeoutDue(time, t.timeoutMs);
    OneWaiting(again);
    ClockAdd(late, DelayOf(cfg, again.attempts));
    Add32Zero(h.dropped);
    NoEndings(h.log);
    g := Apply(h, cfg, TimersDue(Clock(late)));
    hide Add32;
    assert g == Insert(h.(timeouts := Add32(h.timeouts, 1), current := again,
                          backoffUntil := Add32(Clock(late), BackoffMs(cfg, again.attempts)),
                          mode := Backoff, hasCurrent := false), again);
  }

  lemma NoEndings(log: seq<Ending>)
    ensures log + [] == log
  {}

  lemma RunThree(h: Hub, cfg: Config, a: Step, b: Step, c: Step)
    ensures Run(h, cfg, [a, b, c]) == Apply(Apply(Apply(h, cfg, a), cfg, b), cfg, c)
  {
    hide Apply;
    var h1 := Apply(h, cfg, a);
    var h2 := Apply(h1, cfg, b);
    assert [a, b, c][1..] == [b, c] && [b, c][1..] == [c] && [c][1..] == [];
    assert Run(h2, cfg, [c]) == Apply(h2, cfg, c);
    assert Run(h1, cfg, [b, c]) == Run(h2, cfg, [c]);
  }

  /** Timeouts and retries at their deadlines until the limit is passed, and the time of the last timeout. */
  function Patience(cfg: Config, t: Txn, time: nat): (seq<Step>, nat)
    requires t.attempts <= Limit(cfg, t) < 255
    decreases Limit(cfg, t) - t.attempts
  {
    if t.attempts == Limit(cfg, t) then ([TimersDue(Clock(time + t.timeoutMs))], time + t.timeoutMs)
    else
      var (more, end) := Patience(cfg, t.(attempts := t.attempts + 1), time + t.timeoutMs + DelayOf(cfg, t.attempts + 1));
      (Cycle(cfg, t, time) + more, end)
  }

  /** One timeout per remaining attempt, and the part of the ladder not yet climbed. */
  lemma {:induction false} PatienceTime(cfg: Config, t: Txn, time: nat)
    requires t.attempts <= Limit(cfg, t) < 255
    ensures Ladder(Limit(cfg, t)) >= Ladder(t.attempts)
    ensures Patience(cfg, t, time).1
         == time + (Limit(cfg, t) + 1 - t.attempts) * t.timeoutMs
            + cfg.backoffBaseMs * (Ladder(Limit(cfg, t)) - Ladder(t.attempts))
    decreases Limit(cfg, t) - t.attempts
  {
    hide Cycle, RetryShift, Pow2;
    var n := Limit(cfg, t);
    if t.attempts < n {
      var a := t.attempts + 1;
      var next := time + t.timeoutMs + DelayOf(cfg, a);
      PatienceTime(cfg, t.(attempts := a), next);
      var rest := Ladder(n) - Ladder(a);
      var step := Pow2(RetryShift(a));
      Distribute(cfg.backoffBaseMs, step, rest);
      Distribute(t.timeoutMs, 1, n + 1 - a);
      assert Ladder(a) == Ladder(a - 1) + step;
    }
  }

  lemma Distribute(a: nat, b: nat, c: nat)
    ensures a * (b + c) == a * b + a * c && b * a == a * b && c * a == a * c && (b + c) * a == a * (b + c)
  {}

  /**
   A request that is never answered is reported exhausted after exactly `limit + 1` timeouts; `PatienceTime` and
   `LadderClosed` give the time this takes.
   */
  lemma {:induction false} UnansweredEnds(h: Hub, cfg: Config, time: nat)
    requires Alone(h, time) && h.current.attempts <= Limit(cfg, h.current) && cfg.Valid()
    ensures Limit(cfg, h.current) < 255
    ensures var g := Run(h, cfg, Patience(cfg, h.current, time).0);
            && g.mode == Idle && !g.hasCurrent && g.queue == AllFree(QUEUE_DEPTH)
            && g.log == h.log + [Ending(h.current.id, Exhausted)]
            && g.timeouts == Add32(h.timeouts, Limit(cfg, h.current) + 1 - h.current.attempts)
    decreases Limit(cfg, h.current) - h.current.attempts
  {
    hide Apply, Cycle, DelayOf, UniqueKeys, AllMild, FindNext, Elapsed, Clock, Add32, AllFree;
    var t := h.current;
    var n := Limit(cfg, t);
    if t.attempts == n {
      LastTimeout(h, cfg, time);
      RunOne(h, cfg, TimersDue(Clock(time + t.timeoutMs)));
    } else {
      CycleRetries(h, cfg, time);
      var g := AfterCycle(h, cfg, time);
      var next := time + t.timeoutMs + DelayOf(cfg, t.attempts + 1);
      UnansweredEnds(g, cfg, next);
      RunConcat(h, cfg, Cycle(cfg, t, time), Patience(cfg, g.current, next).0);
      Add32More(h.timeouts, n + 1 - g.current.attempts);
    }
  }

  lemma Add32More(a: u32, n: nat)
    ensures Add32(Add32(a, 1), n) == Add32(a, n + 1)
  {
    Add32Twice(a, 1, n);
  }

  lemma LastTimeout(h: Hub, cfg: Config, time: nat)
    requires Alone(h, time) && h.current.attempts == Limit(cfg, h.current)
    ensures var g := Apply(h, cfg, TimersDue(Clock(time + h.current.timeoutMs)));
            && g.mode == Idle && !g.hasCurrent && g.queue == AllFree(QUEUE_DEPTH)
            && g.log == h.log + [Ending(h.current.id, Exhausted)]
            && g.timeouts == Add32(h.timeouts, 1)
  {
    hide FindNext, UniqueKeys, AllMild, Elapsed, Clock, AllFree, Add32, GoOffline, BackoffMs, Insert;
    TimeoutDue(time, h.current.timeoutMs);
  }
}
