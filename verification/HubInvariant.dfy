/** What holds in every state the hub can reach, whatever the device, the clock and the callers do. */
module HubInvariant {
  import opened Wire
  import opened Toggles
  import opened Queue
  import opened Clock32
  import opened HubModel
  import opened Effects

  predicate Mild(s: Slot) { s.Used? ==> s.txn.attempts < 255 }

  predicate AllMild(q: seq<Slot>) { forall i :: 0 <= i < |q| ==> Mild(q[i]) }

  /**
   A request is outstanding exactly while a reply is awaited; an offline hub has no identified device; a hub that
   backs off has something to send; waiting requests have distinct identities; no attempt counter can wrap.
   */
  ghost predicate Inv(h: Hub) {
    && |h.queue| == QUEUE_DEPTH
    && UniqueKeys(h.queue)
    && AllMild(h.queue)
    && (h.hasCurrent <==> h.mode == AwaitResp)
    && (h.hasCurrent ==> h.current.attempts < 255)
    && (h.mode == Idle || h.mode == AwaitResp || h.mode == Backoff || h.mode == Offline)
    && (h.mode == Offline ==> !h.identified)
    && (h.mode == Backoff ==> FindNext(h.queue) != -1)
  }

  // ----- queue operations -----

  lemma EnqueueMild(q: seq<Slot>, t: Txn)
    requires AllMild(q) && t.attempts < 255
    ensures AllMild(Enqueue(q, t).0)
  {}

  lemma EnqueueNonempty(q: seq<Slot>, t: Txn)
    requires q != []
    ensures FindNext(Enqueue(q, t).0) != -1
  {
    var q' := Enqueue(q, t).0;
    SomeUsed(q, t);
  }

  lemma SomeUsed(q: seq<Slot>, t: Txn)
    requires q != []
    ensures exists i :: 0 <= i < |q| && Enqueue(q, t).0[i].Used?
  {
    var q' := Enqueue(q, t).0;
    var k, f := FindKey(q, KeyOf(t)), FindFree(q);
    if k < |q| {
      assert q'[k].Used?;
    } else if f < |q| {
      assert q'[f].Used?;
    } else {
      assert q'[FindVictim(q)].Used?;
    }
  }

  lemma InsertInv(h: Hub, t: Txn)
    requires t.attempts < 255
    requires |h.queue| == QUEUE_DEPTH && UniqueKeys(h.queue) && AllMild(h.queue)
    ensures var g := Insert(h, t);
            && |g.queue| == QUEUE_DEPTH && UniqueKeys(g.queue) && AllMild(g.queue)
            && FindNext(g.queue) != -1
            && g == h.(queue := g.queue, dropped := g.dropped, log := g.log)
  {
    hide Queue.Enqueue, UniqueKeys, AllMild, Contents, MapEnqueue, FindNext, Add32, Endings;
    EnqueueRefines(h.queue, t);
    EnqueueMild(h.queue, t);
    EnqueueNonempty(h.queue, t);
  }

  lemma OfferInv(h: Hub, t: Txn)
    requires t.attempts < 255
    requires |h.queue| == QUEUE_DEPTH && UniqueKeys(h.queue) && AllMild(h.queue)
    ensures var g := Offer(h, t);
            && |g.queue| == QUEUE_DEPTH && UniqueKeys(g.queue) && AllMild(g.queue)
            && FindNext(g.queue) != -1
            && g == h.(queue := g.queue, dropped := g.dropped, log := g.log, nextId := h.nextId + 1)
  {
    hide Insert, UniqueKeys, AllMild, FindNext;
    InsertInv(h.(nextId := h.nextId + 1), t.(id := h.nextId));
  }

  lemma OfferKeeps(h: Hub, t: Txn)
    requires Inv(h) && t.attempts < 255
    ensures Inv(Offer(h, t))
  {
    hide Offer, UniqueKeys, AllMild, FindNext;
    OfferInv(h, t);
  }

  lemma {:induction false} OfferAllKeeps(h: Hub, ts: seq<Txn>)
    requires Inv(h) && forall i :: 0 <= i < |ts| ==> ts[i].attempts < 255
    ensures Inv(OfferAll(h, ts))
    decreases |ts|
  {
    hide Offer, Inv;
    if ts != [] {
      OfferKeeps(h, ts[0]);
      OfferAllKeeps(Offer(h, ts[0]), ts[1..]);
    }
  }

  lemma SendKeeps(h: Hub, now: u32)
    requires Inv(h) && h.mode == Idle
    ensures Inv(SendNext(h, now))
  {
    hide UniqueKeys, Contents;
    if FindNext(h.queue) != -1 {
      TakeRefines(h.queue);
    }
  }

  // ----- endings -----

  lemma FreeIsFine(n: nat)
    ensures UniqueKeys(AllFree(n)) && AllMild(AllFree(n))
  {}

  /** The attempt counter plays no part in failing. */
  lemma FailAfterAttempt(h: Hub, g: Hub, now: u32)
    requires Inv(h) && g == h.(current := g.current)
    ensures Inv(FailCurrent(g, now))
  {
    hide UniqueKeys, AllMild, FindNext, AllFree, FlushLog;
    FreeIsFine(|h.queue|);
  }

  lemma RetryKeeps(h: Hub, cfg: Config, now: u32)
    requires Inv(h) && h.hasCurrent && cfg.Valid()
    ensures Inv(RetryOrDrop(h, cfg, now))
  {
    hide UniqueKeys, AllMild, FindNext, FailCurrent, Insert, BackoffMs;
    var again := h.current.(attempts := (h.current.attempts + 1) % 256);
    var g := h.(current := again);
    if again.attempts > Limit(cfg, again) {
      FailAfterAttempt(h, g, now);
    } else {
      InsertInv(g.(backoffUntil := Add32(now, BackoffMs(cfg, again.attempts)), mode := Backoff,
                    hasCurrent := false), again);
    }
  }

  lemma ResponseKeeps(h: Hub, cfg: Config, ft: byte, st: byte, data: seq<byte>, now: u32)
    requires Inv(h) && cfg.Valid()
    ensures Inv(HandleResponse(h, cfg, ft, st, data, now))
  {
    hide UniqueKeys, AllMild, FindNext, RetryOrDrop, IsRetryable;
    if Answers(h, ft) {
      RetryKeeps(h, cfg, now);
    }
  }

  lemma TimersKeep(h: Hub, cfg: Config, now: u32)
    requires Inv(h) && cfg.Valid()
    ensures Inv(Timers(h, cfg, now))
  {
    hide UniqueKeys, AllMild, FindNext, RetryOrDrop, Add32;
    if h.mode == AwaitResp {
      RetryKeeps(h.(timeouts := Add32(h.timeouts, 1)), cfg, now);
    }
  }

  // ----- probing and refreshing -----

  lemma ProbeKeeps(h: Hub, cfg: Config, now: u32)
    requires |h.queue| == QUEUE_DEPTH && UniqueKeys(h.queue) && AllMild(h.queue) && !h.hasCurrent
    ensures Inv(StartProbe(h, cfg, now))
  {
    hide Offer, UniqueKeys, AllMild, FindNext;
    OfferInv(h.(lastProbeAt := now, mode := Idle), Get(cfg, 0x7F, 7, OnPlatform, 0, NoFailAction));
  }

  lemma {:induction false} ToggleReadsMild(cfg: Config, mask: bv16, n: nat)
    requires n <= TOGGLE_COUNT
    ensures forall i :: 0 <= i < |ToggleReads(cfg, mask, n)| ==> ToggleReads(cfg, mask, n)[i].attempts == 0
  {
    hide Selected, SelectedCount;
    if n > 0 {
      ToggleReadsMild(cfg, mask, n - 1);
    }
  }

  lemma RefreshKeeps(h: Hub, cfg: Config, now: u32)
    requires Inv(h)
    ensures Inv(ServiceRefresh(h, cfg, now))
  {
    hide OfferAll, UniqueKeys, AllMild, FindNext, BurstFires, ToggleReads;
    ToggleReadsMild(cfg, TogglesToRead(h), TOGGLE_COUNT);
    OfferAllKeeps(h.(refreshPending := false), BurstReads(h, cfg));
  }

  // ----- every step, every run -----

  lemma ApplyKeeps(h: Hub, cfg: Config, s: Step)
    requires Inv(h) && cfg.Valid()
    ensures Inv(Apply(h, cfg, s))
  {
    if !Offers(s) && !Ends(s) && !s.Send? {
      hide Apply;
      QuietFrame(h, cfg, s);
      QuietKeeps(h, Apply(h, cfg, s));
    } else {
      hide Inv, Offer, SendNext, HandleResponse, Timers, ServiceRefresh, StartProbe, Elapsed;
      match s
      case Submit(t) => OfferKeeps(h, t.(attempts := 0));
      case Response(ft, st, data, now) => ResponseKeeps(h, cfg, ft, st, data, now);
      case TimersDue(now) => TimersKeep(h, cfg, now);
      case ReprobeDue(now) =>
        if Reprobes(h, now) {
          NothingOutstanding(h);
          ProbeKeeps(h, cfg, now);
        }
      case BurstDue(now) => RefreshKeeps(h, cfg, now);
      case Send(now) => if h.mode == Idle { SendKeeps(h, now); }
      case _ =>
    }
  }

  lemma NothingOutstanding(h: Hub)
    requires Inv(h) && (h.mode == Idle || h.mode == Offline)
    ensures !h.hasCurrent
  {
    hide UniqueKeys, AllMild, FindNext;
  }

  lemma QuietKeeps(h: Hub, g: Hub)
    requires Inv(h) && Quietly(h, g)
    ensures Inv(g)
  {
    hide UniqueKeys, AllMild, FindNext;
  }

  lemma BootInv(cfg: Config, now: u32)
    ensures Inv(Boot(cfg, now))
  {
    hide Offer, UniqueKeys, AllMild, FindNext, AllFree;
    FreeIsFine(QUEUE_DEPTH);
    var h := PowerOn(cfg);
    ProbeKeeps(h, cfg, now);
  }

  lemma {:induction false} RunKeeps(h: Hub, cfg: Config, steps: seq<Step>)
    requires Inv(h) && cfg.Valid()
    ensures Inv(Run(h, cfg, steps))
    decreases |steps|
  {
    hide Apply, Inv;
    if steps != [] {
      ApplyKeeps(h, cfg, steps[0]);
      RunKeeps(Apply(h, cfg, steps[0]), cfg, steps[1..]);
    }
  }

  /** The invariant holds after every run from power-on. */
  lemma AlwaysInv(cfg: Config, now: u32, steps: seq<Step>)
    requires cfg.Valid()
    ensures Inv(Run(Boot(cfg, now), cfg, steps)) && |Run(Boot(cfg, now), cfg, steps).queue| == 12
  {
    hide Boot, Run, UniqueKeys, AllMild, FindNext;
    BootInv(cfg, now);
    RunKeeps(Boot(cfg, now), cfg, steps);
  }
}
