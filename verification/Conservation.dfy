/**
 No transaction is lost or finished twice. Every transaction ever offered is, in every reachable state, in exactly one
 place: waiting in one slot, outstanding, or ended once in the log.
 */
module Conservation {
  import opened Wire
  import opened Queue
  import opened Clock32
  import opened HubModel
  import opened HubInvariant

  // ----- counting log entries -----

  function Total(log: seq<Ending>, f: Ending -> nat): nat {
    if log == [] then 0 else f(log[0]) + Total(log[1..], f)
  }

  lemma {:induction false} TotalConcat(s: seq<Ending>, t: seq<Ending>, f: Ending -> nat)
    ensures Total(s + t, f) == Total(s, f) + Total(t, f)
  {
    if s == [] {
      assert s + t == t;
    } else {
      assert (s + t)[1..] == s[1..] + t;
      TotalConcat(s[1..], t, f);
    }
  }

  lemma TotalOne(e: Ending, f: Ending -> nat)
    ensures Total([e], f) == f(e) && Total([], f) == 0
  {
    assert [e][1..] == [];
  }

  function InSlot(id: nat): Slot -> nat { (s: Slot) => if s.Used? && s.txn.id == id then 1 else 0 }

  function Names(id: nat): Ending -> nat { (e: Ending) => if e.id == id then 1 else 0 }

  /** The endings counted by the drop counter. */
  function Lost(e: Ending): nat { if e.fate.Exhausted? || e.fate.Dislodged? || e.fate.TurnedAway? then 1 else 0 }

  function Outstanding(h: Hub, id: nat): nat { if h.hasCurrent && h.current.id == id then 1 else 0 }

  function Places(h: Hub, id: nat): nat {
    Sum(h.queue, InSlot(id)) + Outstanding(h, id) + Total(h.log, Names(id))
  }

  /** One more, if the two names agree. */
  function Same(a: nat, b: nat): nat { if a == b then 1 else 0 }

  // ----- one insertion adds one place for one transaction -----

  lemma EnqueueCounts(q: seq<Slot>, t: Txn, id: nat)
    ensures var (q', o) := Enqueue(q, t);
            Sum(q', InSlot(id)) + Total(Endings(o, t), Names(id)) == Sum(q, InSlot(id)) + Same(t.id, id)
    ensures var (q', o) := Enqueue(q, t);
            Total(Endings(o, t), Lost) == Drops(o)
  {
    hide Sum, Total, FindKey, FindFree, FindVictim;
    var f := InSlot(id);
    var k, i := FindKey(q, KeyOf(t)), FindFree(q);
    var (q', o) := Enqueue(q, t);
    if Endings(o, t) != [] {
      TotalOne(Endings(o, t)[0], Names(id));
      TotalOne(Endings(o, t)[0], Lost);
    } else {
      TotalOne(Ending(0, Flushed), Names(id));
      TotalOne(Ending(0, Flushed), Lost);
    }
    if k < |q| {
      SumUpdate(q, k, q'[k], f);
    } else if i < |q| {
      SumUpdate(q, i, Used(t), f);
    } else if q != [] {
      var v := FindVictim(q);
      SumUpdate(q, v, Used(t), f);
    }
  }

  lemma InsertCounts(h: Hub, t: Txn, id: nat)
    ensures Places(Insert(h, t), id) == Places(h, id) + Same(t.id, id)
  {
    hide Enqueue, Endings, Sum, Total, InSlot, Names;
    EnqueueCounts(h.queue, t, id);
    TotalConcat(h.log, Endings(Enqueue(h.queue, t).1, t), Names(id));
  }

  predicate DropsCounted(h: Hub) { h.dropped == Total(h.log, Lost) % TWO32 }

  lemma CountMore(a: nat, n: nat)
    ensures Add32(a % TWO32, n) == (a + n) % TWO32
  {}

  lemma InsertDrops(h: Hub, t: Txn)
    requires DropsCounted(h)
    ensures DropsCounted(Insert(h, t))
  {
    hide Enqueue, Endings, Total, Lost, Add32;
    var o := Enqueue(h.queue, t).1;
    EnqueueCounts(h.queue, t, 0);
    TotalConcat(h.log, Endings(o, t), Lost);
    CountMore(Total(h.log, Lost), Drops(o));
  }

  // ----- the account is kept by every operation -----

  ghost predicate Accounted(h: Hub) {
    forall id: nat :: Places(h, id) == if id < h.nextId then 1 else 0
  }

  lemma OfferAccounted(h: Hub, t: Txn)
    requires Accounted(h) && DropsCounted(h)
    ensures Accounted(Offer(h, t)) && DropsCounted(Offer(h, t))
  {
    hide Insert, Sum, Total, InSlot, Names;
    var g := h.(nextId := h.nextId + 1);
    var u := t.(id := h.nextId);
    InsertDrops(g, u);
    InsertSameId(g, u);
    forall id: nat
      ensures Places(Offer(h, t), id) == if id < h.nextId + 1 then 1 else 0
    {
      InsertCounts(g, u, id);
      assert Places(g, id) == Places(h, id);
    }
  }

  lemma InsertSameId(h: Hub, t: Txn)
    ensures Insert(h, t).nextId == h.nextId
  {}

  lemma {:induction false} OfferAllAccounted(h: Hub, ts: seq<Txn>)
    requires Accounted(h) && DropsCounted(h)
    ensures Accounted(OfferAll(h, ts)) && DropsCounted(OfferAll(h, ts))
    decreases |ts|
  {
    hide Offer, Accounted, DropsCounted;
    if ts != [] {
      OfferAccounted(h, ts[0]);
      OfferAllAccounted(Offer(h, ts[0]), ts[1..]);
    }
  }

  /** Two hubs with the same queue, outstanding request, log and numbering have the same account. */
  predicate SameBooks(g: Hub, h: Hub) {
    && g.queue == h.queue && g.hasCurrent == h.hasCurrent && (h.hasCurrent ==> g.current.id == h.current.id)
    && g.log == h.log && g.nextId == h.nextId && g.dropped == h.dropped
  }

  lemma SameBooksAccounted(g: Hub, h: Hub)
    requires SameBooks(g, h) && Accounted(h) && DropsCounted(h)
    ensures Accounted(g) && DropsCounted(g)
  {
    hide Sum, Total, InSlot, Names;
    forall id: nat
      ensures Places(g, id) == Places(h, id)
    {}
  }

  lemma SendAccounted(h: Hub, now: u32)
    requires Accounted(h) && DropsCounted(h) && !h.hasCurrent
    ensures Accounted(SendNext(h, now)) && DropsCounted(SendNext(h, now))
  {
    hide Sum, Total, Names, FindNext, Lost;
    var i := FindNext(h.queue);
    if i != -1 {
      forall id: nat
        ensures Places(SendNext(h, now), id) == Places(h, id)
      {
        SumUpdate(h.queue, i, Slot.Free, InSlot(id));
      }
    }
  }

  /** The outstanding request ends with an entry of its own. */
  lemma EndCurrent(h: Hub, g: Hub, fate: Fate)
    requires Accounted(h) && DropsCounted(h) && h.hasCurrent
    requires g.queue == h.queue && !g.hasCurrent && g.nextId == h.nextId
    requires g.log == h.log + [Ending(h.current.id, fate)]
    requires g.dropped == Add32(h.dropped, Lost(Ending(h.current.id, fate)))
    ensures Accounted(g) && DropsCounted(g)
  {
    hide Sum, Total, Lost, Add32, InSlot;
    var e := Ending(h.current.id, fate);
    TotalConcat(h.log, [e], Lost);
    TotalOne(e, Lost);
    CountMore(Total(h.log, Lost), Lost(e));
    forall id: nat
      ensures Places(g, id) == Places(h, id)
    {
      TotalConcat(h.log, [e], Names(id));
      TotalOne(e, Names(id));
    }
  }

  lemma {:induction false} FlushCounts(q: seq<Slot>, id: nat)
    ensures Total(FlushLog(q), Names(id)) == Sum(q, InSlot(id))
    ensures Total(FlushLog(q), Lost) == 0
  {
    if q != [] {
      FlushCounts(q[1..], id);
      if q[0].Used? {
        assert FlushLog(q)[1..] == FlushLog(q[1..]);
      } else {
        assert FlushLog(q) == FlushLog(q[1..]);
      }
    }
  }

  lemma {:induction false} FreeCounts(n: nat, id: nat)
    ensures Sum(AllFree(n), InSlot(id)) == 0
  {
    if n > 0 {
      assert AllFree(n)[1..] == AllFree(n - 1);
      FreeCounts(n - 1, id);
    }
  }

  lemma OfflineAccounted(h: Hub, now: u32)
    requires Accounted(h) && DropsCounted(h)
    ensures Accounted(GoOffline(h, now)) && DropsCounted(GoOffline(h, now))
  {
    hide Sum, Total, InSlot, Names, AllFree, FlushLog, Lost;
    TotalConcat(h.log, FlushLog(h.queue), Lost);
    FlushCounts(h.queue, 0);
    forall id: nat
      ensures Places(GoOffline(h, now), id) == Places(h, id)
    {
      TotalConcat(h.log, FlushLog(h.queue), Names(id));
      FlushCounts(h.queue, id);
      FreeCounts(|h.queue|, id);
    }
  }

  /** Going offline and then reporting the failure is reporting it and then going offline, as far as counts go. */
  lemma SwapEnds(h: Hub, now: u32, e: Ending)
    requires Accounted(GoOffline(h.(log := h.log + [e]), now)) && DropsCounted(GoOffline(h.(log := h.log + [e]), now))
    ensures var k := GoOffline(h, now); var k' := k.(log := k.log + [e]);
            Accounted(k') && DropsCounted(k')
  {
    hide Sum, Total, InSlot, Names, AllFree, FlushLog, Lost;
    var a := GoOffline(h.(log := h.log + [e]), now);
    var k := GoOffline(h, now);
    var k' := k.(log := k.log + [e]);
    SwapTotals(h.log, FlushLog(h.queue), e, Lost);
    forall id: nat
      ensures Places(k', id) == Places(a, id)
    {
      SwapTotals(h.log, FlushLog(h.queue), e, Names(id));
    }
  }

  lemma SwapTotals(log: seq<Ending>, more: seq<Ending>, e: Ending, f: Ending -> nat)
    ensures Total(log + more + [e], f) == Total(log + [e] + more, f)
  {
    hide Total;
    TotalConcat(log + more, [e], f);
    TotalConcat(log, more, f);
    TotalConcat(log + [e], more, f);
    TotalConcat(log, [e], f);
  }

  lemma FailAccounted(h: Hub, now: u32)
    requires Accounted(h) && DropsCounted(h) && h.hasCurrent
    ensures Accounted(FailCurrent(h, now)) && DropsCounted(FailCurrent(h, now))
  {
    hide Accounted, DropsCounted, GoOffline, Add32;
    var e := Ending(h.current.id, Exhausted);
    var g := h.(hasCurrent := false, dropped := Add32(h.dropped, 1), mode := Idle, failures := (h.failures + 1) % 256);
    EndCurrent(h, g.(log := g.log + [e]), Exhausted);
    if g.failures >= FAILURES_BEFORE_OFFLINE {
      OfflineAccounted(g.(log := g.log + [e]), now);
      SwapEnds(g, now, e);
    }
  }

  lemma RetryAccounted(h: Hub, cfg: Config, now: u32)
    requires Accounted(h) && DropsCounted(h)
    ensures Accounted(RetryOrDrop(h, cfg, now)) && DropsCounted(RetryOrDrop(h, cfg, now))
  {
    if !h.hasCurrent {
      SameBooksAccounted(h.(mode := Idle), h);
    } else {
      hide Accounted, DropsCounted, FailCurrent, Insert, BackoffMs, Add32;
      var again := h.current.(attempts := (h.current.attempts + 1) % 256);
      var g := h.(current := again);
      SameBooksAccounted(g, h);
      if again.attempts > Limit(cfg, again) {
        FailAccounted(g, now);
      } else {
        var k := g.(backoffUntil := Add32(now, BackoffMs(cfg, again.attempts)), mode := Backoff, hasCurrent := false);
        RequeueAccounted(h, k, again);
      }
    }
  }

  lemma RequeueAccounted(h: Hub, k: Hub, again: Txn)
    requires Accounted(h) && DropsCounted(h) && h.hasCurrent && again.id == h.current.id
    requires k.queue == h.queue && !k.hasCurrent && k.log == h.log && k.nextId == h.nextId && k.dropped == h.dropped
    ensures Accounted(Insert(k, again)) && DropsCounted(Insert(k, again))
  {
    hide Insert, Sum, Total, InSlot, Names;
    InsertDrops(k, again);
    InsertSameId(k, again);
    forall id: nat
      ensures Places(Insert(k, again), id) == Places(h, id)
    {
      InsertCounts(k, again, id);
    }
  }

  lemma ResponseAccounted(h: Hub, cfg: Config, ft: byte, st: byte, data: seq<byte>, now: u32)
    requires Accounted(h) && DropsCounted(h)
    ensures var g := HandleResponse(h, cfg, ft, st, data, now); Accounted(g) && DropsCounted(g)
  {
    hide Accounted, DropsCounted, RetryOrDrop, IsRetryable;
    if Answers(h, ft) {
      RetryAccounted(h, cfg, now);
      Add32Zero(h.dropped);
      EndCurrent(h, h.(failures := 0, hasCurrent := false, mode := Idle,
                       log := h.log + [Ending(h.current.id, Ok(data))]), Ok(data));
      EndCurrent(h, h.(hasCurrent := false, mode := Idle,
                       log := h.log + [Ending(h.current.id, Rejected(st))]), Rejected(st));
    }
  }

  lemma ProbeAccounted(h: Hub, cfg: Config, now: u32)
    requires Accounted(h) && DropsCounted(h)
    ensures Accounted(StartProbe(h, cfg, now)) && DropsCounted(StartProbe(h, cfg, now))
  {
    hide Accounted, DropsCounted, Offer;
    var g := h.(lastProbeAt := now, mode := Idle);
    SameBooksAccounted(g, h);
    OfferAccounted(g, Get(cfg, 0x7F, 7, OnPlatform, 0, NoFailAction));
  }

  lemma RefreshAccounted(h: Hub, cfg: Config, now: u32)
    requires Accounted(h) && DropsCounted(h)
    ensures Accounted(ServiceRefresh(h, cfg, now)) && DropsCounted(ServiceRefresh(h, cfg, now))
  {
    hide Accounted, DropsCounted, OfferAll, BurstFires, BurstReads;
    var g := h.(refreshPending := false);
    SameBooksAccounted(g, h);
    OfferAllAccounted(g, BurstReads(h, cfg));
  }

  lemma TimersAccounted(h: Hub, cfg: Config, now: u32)
    requires Accounted(h) && DropsCounted(h)
    ensures Accounted(Timers(h, cfg, now)) && DropsCounted(Timers(h, cfg, now))
  {
    hide Accounted, DropsCounted, RetryOrDrop, Add32, Reached;
    var g := h.(timeouts := Add32(h.timeouts, 1));
    SameBooksAccounted(g, h);
    RetryAccounted(g, cfg, now);
    SameBooksAccounted(h.(mode := Idle), h);
  }

  lemma ApplyAccounted(h: Hub, cfg: Config, s: Step)
    requires Inv(h) && Accounted(h) && DropsCounted(h)
    ensures Accounted(Apply(h, cfg, s)) && DropsCounted(Apply(h, cfg, s))
  {
    hide Accounted, DropsCounted, Offer, SendNext, RetryOrDrop, HandleResponse, Timers, ServiceRefresh, StartProbe,
      UniqueKeys, AllMild, FindNext;
    match s
    case Submit(t) => OfferAccounted(h, t.(attempts := 0));
    case Response(ft, st, data, now) => ResponseAccounted(h, cfg, ft, st, data, now);
    case TimersDue(now) => TimersAccounted(h, cfg, now);
    case ReprobeDue(now) => ProbeAccounted(h, cfg, now);
    case BurstDue(now) => RefreshAccounted(h, cfg, now);
    case Send(now) => if h.mode == Idle { SendAccounted(h, now); }
    case _ =>
      QuietSteps(h, cfg, s);
      SameBooksAccounted(Apply(h, cfg, s), h);
  }

  lemma QuietSteps(h: Hub, cfg: Config, s: Step)
    requires s.Refresh? || s.Identified? || s.NotifyEnabled? || s.ToggleAsked? || s.ToggleFailed? || s.Notification?
          || s.PollDue?
    ensures SameBooks(Apply(h, cfg, s), h)
  {
    hide Add32, Or, Elapsed, HandleNotification;
    if s.Notification? {
      NotificationTouches(h, cfg, s.packet, s.now);
    }
  }

  lemma {:induction false} RunAccounted(h: Hub, cfg: Config, steps: seq<Step>)
    requires Inv(h) && cfg.Valid() && Accounted(h) && DropsCounted(h)
    ensures Accounted(Run(h, cfg, steps)) && DropsCounted(Run(h, cfg, steps))
    decreases |steps|
  {
    hide Apply, Inv, Accounted, DropsCounted;
    if steps != [] {
      ApplyKeeps(h, cfg, steps[0]);
      ApplyAccounted(h, cfg, steps[0]);
      RunAccounted(Apply(h, cfg, steps[0]), cfg, steps[1..]);
    }
  }

  lemma BootAccounted(cfg: Config, now: u32)
    ensures Accounted(Boot(cfg, now)) && DropsCounted(Boot(cfg, now))
  {
    hide StartProbe, Sum, InSlot, AllFree;
    var h := PowerOn(cfg);
    forall id: nat
      ensures Places(h, id) == 0
    {
      FreeCounts(QUEUE_DEPTH, id);
    }
    ProbeAccounted(h, cfg, now);
  }

  // ----- the theorem -----

  /**
   After every run, each transaction offered so far is in exactly one of: one slot, the outstanding request, one log
   entry; and the drop counter is the number of exhausted, dislodged and turned-away transactions, modulo 2^32.
   */
  lemma Conserved(cfg: Config, now: u32, steps: seq<Step>, id: nat)
    requires cfg.Valid()
    ensures var h := Run(Boot(cfg, now), cfg, steps);
            && Sum(h.queue, InSlot(id)) + Outstanding(h, id) + Total(h.log, Names(id)) == (if id < h.nextId then 1 else 0)
            && h.dropped == Total(h.log, Lost) % TWO32
  {
    hide Run, Boot, Inv, Sum, Total;
    BootInv(cfg, now);
    BootAccounted(cfg, now);
    RunAccounted(Boot(cfg, now), cfg, steps);
    var h := Run(Boot(cfg, now), cfg, steps);
    assert Places(h, id) == if id < h.nextId then 1 else 0;
  }

  lemma {:induction false} TotalPicks(log: seq<Ending>, i: nat, j: nat, f: Ending -> nat)
    requires i < j < |log|
    ensures Total(log, f) >= f(log[i]) + f(log[j])
  {
    hide Total;
    assert log == log[..i] + [log[i]] + log[i + 1..j] + [log[j]] + log[j + 1..];
    TotalConcat(log[..i] + [log[i]] + log[i + 1..j] + [log[j]], log[j + 1..], f);
    TotalConcat(log[..i] + [log[i]] + log[i + 1..j], [log[j]], f);
    TotalConcat(log[..i] + [log[i]], log[i + 1..j], f);
    TotalConcat(log[..i], [log[i]], f);
    TotalOne(log[i], f);
    TotalOne(log[j], f);
  }

  /** No transaction ends twice; in particular none gets two callbacks. */
  lemma EndsOnce(cfg: Config, now: u32, steps: seq<Step>, i: nat, j: nat)
    requires cfg.Valid()
    requires i < j < |Run(Boot(cfg, now), cfg, steps).log|
    ensures var log := Run(Boot(cfg, now), cfg, steps).log; log[i].id != log[j].id
  {
    hide Run, Boot, Sum, Total;
    var log := Run(Boot(cfg, now), cfg, steps).log;
    Conserved(cfg, now, steps, log[i].id);
    TotalPicks(log, i, j, Names(log[i].id));
  }
}
