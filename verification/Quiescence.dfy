/**
 The hub comes to rest. Without new requests only a bounded number of steps do anything, and when none can do anything
 any more, nothing waits and nothing is outstanding.
 */
module Quiescence {
  import opened Wire
  import opened Queue
  import opened Clock32
  import opened HubModel
  import opened HubInvariant
  import opened Effects
  import opened Progress
  import opened Drain

  /** Three units for each attempt left: its transmission, its end, the end of its backoff. */
  function Rest(h: Hub, cfg: Config): nat {
    3 * Budget(h, cfg) + if h.mode == Backoff then 2 else if h.mode == Idle then 1 else 0
  }

  /** The step did something to the requests. */
  predicate Moves(h: Hub, g: Hub) {
    !(g.mode == h.mode && g.queue == h.queue && g.hasCurrent == h.hasCurrent && g.current == h.current)
  }

  lemma SameRest(h: Hub, g: Hub, cfg: Config)
    requires !Moves(h, g)
    ensures Rest(g, cfg) == Rest(h, cfg)
  {
    hide Sum;
  }

  lemma FailRests(h: Hub, g: Hub, cfg: Config, now: u32)
    requires Inv(h) && h.hasCurrent && g == RetryOrDrop(h, cfg, now)
    ensures Rest(g, cfg) < Rest(h, cfg) && Moves(h, g)
  {
    hide RetryOrDrop, Budget, UniqueKeys, AllMild, FindNext;
    RetryBudget(h, cfg, now);
  }

  lemma ReplyRests(h: Hub, cfg: Config, ft: byte, st: byte, data: seq<byte>, now: u32)
    requires Inv(h)
    ensures var g := HandleResponse(h, cfg, ft, st, data, now);
      if Answers(h, ft) then Rest(g, cfg) < Rest(h, cfg) && Moves(h, g) else g == h
  {
    hide RetryOrDrop, Sum, SlotCost, Cost, UniqueKeys, AllMild, FindNext, IsRetryable;
    if Answers(h, ft) {
      FailRests(h, RetryOrDrop(h, cfg, now), cfg, now);
      SomeCost(cfg, h.current);
    }
  }

  lemma TimersRest(h: Hub, cfg: Config, now: u32)
    requires Inv(h)
    ensures var g := Timers(h, cfg, now);
      && (Moves(h, g) ==> Rest(g, cfg) < Rest(h, cfg))
      && (Moves(h, g) <==>
            || (h.mode == AwaitResp && Elapsed(now, h.sentAt) >= h.current.timeoutMs)
            || (h.mode == Backoff && Reached(now, h.backoffUntil)))
  {
    hide RetryOrDrop, Sum, SlotCost, Cost, UniqueKeys, AllMild, FindNext, Elapsed, Reached, Add32;
    if h.mode == AwaitResp {
      var k := h.(timeouts := Add32(h.timeouts, 1));
      FailRests(k, RetryOrDrop(k, cfg, now), cfg, now);
    }
  }

  lemma SendRests(h: Hub, cfg: Config, now: u32)
    requires Inv(h) && h.mode == Idle
    ensures var g := SendNext(h, now);
      && (Moves(h, g) ==> Rest(g, cfg) < Rest(h, cfg))
      && (Waiting(h) <==> Moves(h, g))
  {
    hide Budget, UniqueKeys, AllMild, FindNext;
    SendBudget(h, cfg, now);
  }

  /** A step without new requests either leaves the requests as they are or brings the hub nearer to rest. */
  lemma StepRests(h: Hub, cfg: Config, s: Step)
    requires Inv(h) && NothingNew(s)
    ensures var g := Apply(h, cfg, s);
      if Moves(h, g) then Rest(g, cfg) < Rest(h, cfg) && CanMove(h) else Rest(g, cfg) == Rest(h, cfg)
  {
    hide Rest, HandleResponse, Timers, SendNext, UniqueKeys, AllMild, FindNext;
    match s
    case Response(ft, st, data, now) => ReplyRests(h, cfg, ft, st, data, now);
    case TimersDue(now) =>
      TimersRest(h, cfg, now);
      if !Moves(h, Timers(h, cfg, now)) {
        SameRest(h, Timers(h, cfg, now), cfg);
      }
    case Send(now) =>
      if h.mode == Idle {
        SendRests(h, cfg, now);
        if !Moves(h, SendNext(h, now)) {
          SameRest(h, SendNext(h, now), cfg);
        }
      }
    case _ =>
      QuietBudget(h, cfg, s);
      SameRest(h, Apply(h, cfg, s), cfg);
  }

  function CountMoves(h: Hub, cfg: Config, steps: seq<Step>): nat
    decreases |steps|
  {
    if steps == [] then 0
    else
      var g := Apply(h, cfg, steps[0]);
      One(Moves(h, g)) + CountMoves(g, cfg, steps[1..])
  }

  lemma {:induction false} MovesBounded(h: Hub, cfg: Config, steps: seq<Step>)
    requires Inv(h) && cfg.Valid() && forall i :: 0 <= i < |steps| ==> NothingNew(steps[i])
    ensures CountMoves(h, cfg, steps) + Rest(Run(h, cfg, steps), cfg) <= Rest(h, cfg)
    decreases |steps|
  {
    hide Apply, Rest, Inv, NothingNew, Moves;
    if steps != [] {
      var g := Apply(h, cfg, steps[0]);
      StepRests(h, cfg, steps[0]);
      ApplyKeeps(h, cfg, steps[0]);
      MovesBounded(g, cfg, steps[1..]);
    }
  }

  // ----- what rest means -----

  /** A request is outstanding, waits behind a backoff, or waits in an idle hub. */
  predicate CanMove(h: Hub) { h.hasCurrent || h.mode == Backoff || (h.mode == Idle && Waiting(h)) }

  ghost predicate Movable(h: Hub, cfg: Config) {
    exists s: Step :: NothingNew(s) && Moves(h, Apply(h, cfg, s))
  }

  /** When its time has come, the timers or the next transmission move it. */
  lemma DueMoves(h: Hub, cfg: Config, now: u32)
    requires Inv(h) && CanMove(h) && Due(h, now)
    ensures Moves(h, Apply(h, cfg, TimersDue(now))) || Moves(h, Apply(h, cfg, Send(now)))
    ensures Movable(h, cfg)
  {
    hide Rest, Timers, SendNext, UniqueKeys, AllMild, FindNext, Elapsed, Reached, Moves;
    assert NothingNew(TimersDue(now)) && NothingNew(Send(now));
    TimersRest(h, cfg, now);
    if h.mode == Idle {
      SendRests(h, cfg, now);
    }
  }

  /** Steps can still do something exactly while a request is outstanding or a hub that is not offline has one waiting. */
  lemma MovableIffBusy(h: Hub, cfg: Config)
    requires Inv(h)
    ensures Movable(h, cfg) <==> h.hasCurrent || (h.mode != Offline && Waiting(h))
  {
    assert h.hasCurrent || (h.mode != Offline && Waiting(h)) <==> CanMove(h);
    if CanMove(h) {
      var now := if h.mode == AwaitResp then Add32(h.sentAt, h.current.timeoutMs) else h.backoffUntil;
      AtItsTime(h.sentAt, h.current.timeoutMs, h.backoffUntil);
      DueMoves(h, cfg, now);
    }
    if Movable(h, cfg) {
      var s: Step :| NothingNew(s) && Moves(h, Apply(h, cfg, s));
      StepRests(h, cfg, s);
    }
  }

  lemma AtItsTime(sentAt: u32, timeout: u32, until: u32)
    ensures Elapsed(Add32(sentAt, timeout), sentAt) == timeout
    ensures Reached(until, until)
  {}

  /** An offline hub has nothing waiting, as long as nothing new is offered. */
  predicate OfflineEmpty(h: Hub) { h.mode == Offline ==> !Waiting(h) }

  lemma FailEmpties(h: Hub, cfg: Config, now: u32)
    requires h.hasCurrent
    ensures OfflineEmpty(RetryOrDrop(h, cfg, now))
  {
    hide FlushLog, Add32, BackoffMs, Limit, Enqueue, Endings;
    NothingWaits(|h.queue|);
  }

  lemma NothingWaits(n: nat)
    ensures FindNext(AllFree(n)) == -1
  {
    var r := FindNext(AllFree(n));
    assert IsNext(AllFree(n), r);
  }

  lemma StaysEmpty(h: Hub, cfg: Config, s: Step)
    requires Inv(h) && NothingNew(s) && OfflineEmpty(h)
    ensures OfflineEmpty(Apply(h, cfg, s))
  {
    hide RetryOrDrop, SendNext, UniqueKeys, AllMild, FindNext, IsRetryable, Elapsed, Reached, Add32;
    match s
    case Response(ft, st, data, now) => if Answers(h, ft) { FailEmpties(h, cfg, now); }
    case TimersDue(now) => if h.mode == AwaitResp { FailEmpties(h.(timeouts := Add32(h.timeouts, 1)), cfg, now); }
    case Send(now) => if h.mode == Idle { SentMode(h, now); }
    case _ => QuietBudget(h, cfg, s);
  }

  lemma SentMode(h: Hub, now: u32)
    requires h.mode == Idle
    ensures SendNext(h, now).mode != Offline
  {
    hide FindNext;
  }

  lemma {:induction false} RunStaysEmpty(h: Hub, cfg: Config, steps: seq<Step>)
    requires Inv(h) && cfg.Valid() && OfflineEmpty(h) && forall i :: 0 <= i < |steps| ==> NothingNew(steps[i])
    ensures OfflineEmpty(Run(h, cfg, steps)) && Inv(Run(h, cfg, steps))
    decreases |steps|
  {
    hide Apply, Inv, NothingNew, OfflineEmpty;
    if steps != [] {
      StaysEmpty(h, cfg, steps[0]);
      ApplyKeeps(h, cfg, steps[0]);
      RunStaysEmpty(Apply(h, cfg, steps[0]), cfg, steps[1..]);
    }
  }

  /**
   The hub comes to rest: of the steps of any run without new requests at most `Rest(h)` do anything, and none can do
   anything any more exactly when nothing is outstanding and nothing waits, except in an offline hub.
   */
  lemma HubDrains(h: Hub, cfg: Config, steps: seq<Step>)
    requires Inv(h) && cfg.Valid() && forall i :: 0 <= i < |steps| ==> NothingNew(steps[i])
    ensures CountMoves(h, cfg, steps) <= Rest(h, cfg)
    ensures var g := Run(h, cfg, steps); !Movable(g, cfg) <==> !g.hasCurrent && (g.mode == Offline || !Waiting(g))
  {
    MovesBounded(h, cfg, steps);
    RunKeeps(h, cfg, steps);
    hide Run, Inv, Movable, Rest, NothingNew;
    MovableIffBusy(Run(h, cfg, steps), cfg);
  }

  /** A hub that did not start offline with something waiting comes to rest empty. */
  lemma RestIsEmpty(h: Hub, cfg: Config, steps: seq<Step>)
    requires Inv(h) && cfg.Valid() && OfflineEmpty(h) && forall i :: 0 <= i < |steps| ==> NothingNew(steps[i])
    ensures var g := Run(h, cfg, steps); !Movable(g, cfg) <==> !g.hasCurrent && !Waiting(g)
  {
    RunStaysEmpty(h, cfg, steps);
    hide Run, Inv, Movable, NothingNew;
    MovableIffBusy(Run(h, cfg, steps), cfg);
  }

  /** What was asked for while offline waits for the probe: the one that is due next makes the hub able to move. */
  lemma ProbeWakesOffline(h: Hub, cfg: Config, now: u32)
    requires Inv(h) && h.mode == Offline
    ensures Due(h, now) <==> Reprobes(h, now)
    ensures Due(h, now) ==>
      var g := Apply(h, cfg, ReprobeDue(now)); g.mode == Idle && Waiting(g) && Movable(g, cfg)
  {
    hide UniqueKeys, AllMild, FindNext, Elapsed, Reprobe, Movable;
    if Due(h, now) {
      ReadyProbe(h, cfg, now);
      hide Inv;
      MovableIffBusy(Reprobe(h, cfg, now), cfg);
    }
  }

  /** A request submitted to an offline hub waits and cannot move. */
  lemma SubmittedOffline(h: Hub, cfg: Config, t: Txn)
    requires Inv(h) && cfg.Valid() && h.mode == Offline
    ensures var g := Apply(h, cfg, Submit(t)); g.mode == Offline && Waiting(g) && !Movable(g, cfg)
  {
    ApplyKeeps(h, cfg, Submit(t));
    NotOutstanding(h);
    hide Inv, Movable, Offer;
    OfferFrame(h, t.(attempts := 0));
    SubmittedWaits(h, t.(attempts := 0));
    MovableIffBusy(Apply(h, cfg, Submit(t)), cfg);
  }

  lemma NotOutstanding(h: Hub)
    requires Inv(h) && h.mode == Offline
    ensures !h.hasCurrent
  {
    hide UniqueKeys, AllMild, FindNext;
  }

  lemma SubmittedWaits(h: Hub, t: Txn)
    requires Inv(h) && t.attempts < 255
    ensures Waiting(Offer(h, t))
  {
    hide UniqueKeys, AllMild, FindNext, Offer;
    OfferInv(h, t);
  }

  /** And from its deadline on, a hub that can move is moved by the next look at the timers or the queue. */
  lemma NextLookMoves(h: Hub, cfg: Config, sent: nat, until: nat, probed: nat, time: nat)
    requires Inv(h) && (h.hasCurrent || (h.mode != Offline && Waiting(h)))
    requires h.sentAt == Clock(sent) && h.backoffUntil == Clock(until) && h.lastProbeAt == Clock(probed)
    requires sent <= time < sent + TWO32 || h.mode != AwaitResp
    requires time < until + 0x8000_0000 || h.mode != Backoff
    requires probed <= time < probed + TWO32
    requires time >= DeadlineOf(h, sent, until, probed)
    ensures Moves(h, Apply(h, cfg, TimersDue(Clock(time)))) || Moves(h, Apply(h, cfg, Send(Clock(time))))
  {
    hide Clock, Moves, UniqueKeys, AllMild, FindNext, DeadlineOf, Due, Apply;
    assert CanMove(h);
    DueOnceDeadlinePasses(h, sent, until, probed, time);
    DueMoves(h, cfg, Clock(time));
  }
}
