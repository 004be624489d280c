/**
 What one identity can cost. A request that finds another of its identity waiting takes over that one's attempts, so
 asking again does not buy new ones: as long as no request of the identity has ended, the attempts counted are exactly
 the transmissions made.
 */
module Identity {
  import opened Wire
  import opened Toggles
  import opened Queue
  import opened Clock32
  import opened HubModel
  import opened HubInvariant
  import opened Effects
  import opened Drain
  import opened Refresh

  // ----- attempts of an identity -----

  predicate Outstanding(h: Hub, k: Key) { h.hasCurrent && KeyOf(h.current) == k }

  ghost predicate Waits(h: Hub, k: Key) { k in Contents(h.queue) }

  ghost function TriesIn(q: seq<Slot>, k: Key): nat { if k in Contents(q) then Contents(q)[k].attempts else 0 }

  /** The largest attempt count of an identity, over what waits and what is outstanding. */
  ghost function Tries(h: Hub, k: Key): nat {
    if Outstanding(h, k) && h.current.attempts > TriesIn(h.queue, k) then h.current.attempts else TriesIn(h.queue, k)
  }

  /** What waits behind the outstanding request of its identity has not been tried. */
  ghost predicate Behind(h: Hub) { h.hasCurrent ==> TriesIn(h.queue, KeyOf(h.current)) == 0 }

  /** A request of the identity has ended: it no longer waits and was not sent, or it is not to be sent again. */
  ghost predicate Left(h: Hub, g: Hub, k: Key) {
    || (Waits(h, k) && !Waits(g, k) && !Sent(h, g, k))
    || (Outstanding(h, k) && !Outstanding(g, k) && !(g.mode == Backoff && Waits(g, k)))
  }

  predicate Sent(h: Hub, g: Hub, k: Key) { !h.hasCurrent && Outstanding(g, k) }

  /** The transmissions that count: those that failed and the one that is on its way. */
  ghost function Made(h: Hub, k: Key): nat { Tries(h, k) + One(Outstanding(h, k)) }

  ghost predicate Exact(h: Hub, g: Hub) {
    Behind(g) && forall k: Key :: Left(h, g, k) || CountsOn(h, g, k)
  }

  /** One more has been made if it was sent just now; what has been counted is not forgotten. */
  ghost predicate CountsOn(h: Hub, g: Hub, k: Key) {
    Made(g, k) == Made(h, k) + One(Sent(h, g, k)) && Tries(g, k) >= Tries(h, k)
  }

  // ----- fresh requests -----

  /** A fresh request of any identity leaves every count as it is, unless it evicts. */
  lemma FreshKeepsTries(q: seq<Slot>, t: Txn, k: Key)
    requires UniqueKeys(q) && t.attempts == 0
    ensures var q' := Enqueue(q, t).0;
      (k in Contents(q) && k !in Contents(q')) || TriesIn(q', k) == TriesIn(q, k)
  {
    hide Enqueue, Contents, UniqueKeys;
    EnqueueRefines(q, t);
  }

  lemma OfferTries(h: Hub, t: Txn, k: Key)
    requires UniqueKeys(h.queue) && t.attempts == 0
    ensures var g := Offer(h, t);
      (Waits(h, k) && !Waits(g, k)) || TriesIn(g.queue, k) == TriesIn(h.queue, k)
  {
    hide Enqueue, TriesIn, UniqueKeys, Contents, Endings, Add32;
    FreshKeepsTries(h.queue, t.(id := h.nextId), k);
  }

  lemma {:induction false} OfferAllTries(h: Hub, ts: seq<Txn>, k: Key)
    requires UniqueKeys(h.queue) && FreeCount(h.queue) >= |ts| && forall i :: 0 <= i < |ts| ==> ts[i].attempts == 0
    ensures TriesIn(OfferAll(h, ts).queue, k) == TriesIn(h.queue, k)
    decreases |ts|
  {
    hide UniqueKeys, FreeCount, Offer, TriesIn, Contents;
    if ts != [] {
      OfferTries(h, ts[0], k);
      RoomKeeps(h, ts[0], k);
      OfferAllTries(Offer(h, ts[0]), ts[1..], k);
    }
  }

  lemma RoomKeeps(h: Hub, t: Txn, k: Key)
    requires UniqueKeys(h.queue) && FreeCount(h.queue) >= 1
    ensures var g := Offer(h, t);
      UniqueKeys(g.queue) && FreeCount(g.queue) + 1 >= FreeCount(h.queue) && (Waits(h, k) ==> Waits(g, k))
  {
    hide UniqueKeys, FreeCount, Offer, Keys, OnlySuperseded;
    OfferWithRoom(h, t);
  }

  /** The new requests of a step. */
  function Asked(h: Hub, cfg: Config, s: Step): seq<Txn> {
    match s
    case Submit(t) => [t.(attempts := 0)]
    case ReprobeDue(now) => if Reprobes(h, now) then [Get(cfg, 0x7F, 7, OnPlatform, 0, NoFailAction)] else []
    case BurstDue(now) => if BurstFires(h, now) then BurstReads(h, cfg) else []
    case _ => []
  }

  lemma BurstAsked(h: Hub, cfg: Config, now: u32)
    requires BurstFires(h, now)
    ensures |BurstReads(h, cfg)| <= FreeCount(h.queue)
    ensures forall i :: 0 <= i < |BurstReads(h, cfg)| ==> BurstReads(h, cfg)[i].attempts == 0
  {
    hide FreeCount, Ones, SelectedCount, ToggleReads, TogglesToRead, Reached;
    CountCoversLoop(TogglesToRead(h));
    ToggleReadsMild(cfg, TogglesToRead(h), TOGGLE_COUNT);
  }

  lemma SameCurrent(h: Hub, g: Hub)
    requires Behind(h) && g.hasCurrent == h.hasCurrent && g.current == h.current
    requires forall k: Key :: (Waits(h, k) && !Waits(g, k)) || TriesIn(g.queue, k) == TriesIn(h.queue, k)
    ensures Exact(h, g)
  {
    hide TriesIn, Contents;
    if h.hasCurrent {
      GoneIsZero(g.queue, KeyOf(h.current));
    }
  }

  lemma GoneIsZero(q: seq<Slot>, k: Key)
    ensures k !in Contents(q) ==> TriesIn(q, k) == 0
  {
    hide Contents;
  }

  lemma OffersExact(h: Hub, cfg: Config, s: Step)
    requires Inv(h) && Behind(h) && Offers(s)
    ensures Exact(h, Apply(h, cfg, s))
  {
    var g := Apply(h, cfg, s);
    forall k: Key
      ensures (Waits(h, k) && !Waits(g, k)) || TriesIn(g.queue, k) == TriesIn(h.queue, k)
    {
      OffersTries(h, cfg, s, k);
    }
    hide Apply, Inv, Exact, Behind, Waits, TriesIn;
    OffersFrame(h, cfg, s);
    SameCurrent(h, g);
  }

  lemma OffersTries(h: Hub, cfg: Config, s: Step, k: Key)
    requires Inv(h) && Offers(s)
    ensures var g := Apply(h, cfg, s);
      (Waits(h, k) && !Waits(g, k)) || TriesIn(g.queue, k) == TriesIn(h.queue, k)
  {
    hide UniqueKeys, AllMild, FindNext, Offer, OfferAll, TriesIn, Contents, Elapsed, BurstFires, BurstReads, FreeCount;
    match s
    case Submit(t) => OfferTries(h, t.(attempts := 0), k);
    case ReprobeDue(now) =>
      OfferTries(h.(lastProbeAt := now, mode := Idle), Get(cfg, 0x7F, 7, OnPlatform, 0, NoFailAction), k);
    case BurstDue(now) =>
      if BurstFires(h, now) {
        BurstAsked(h, cfg, now);
        OfferAllTries(h.(refreshPending := false), BurstReads(h, cfg), k);
      }
  }

  // ----- the end of an attempt -----

  /** The retry of the outstanding request counts one more for its identity, and nothing else changes unless evicted. */
  lemma RetryTries(q: seq<Slot>, t: Txn, k: Key)
    requires UniqueKeys(q) && t.attempts > TriesIn(q, KeyOf(t))
    ensures var q' := Enqueue(q, t).0;
      && (KeyOf(t) in Contents(q') ==> TriesIn(q', KeyOf(t)) == t.attempts)
      && (k != KeyOf(t) ==> (k in Contents(q) && k !in Contents(q')) || TriesIn(q', k) == TriesIn(q, k))
  {
    hide Enqueue, Contents, UniqueKeys;
    EnqueueRefines(q, t);
  }

  /** An attempt has ended without a retry: the requests that wait stay, */
  lemma EndedExact(h: Hub, g: Hub)
    requires h.hasCurrent && !g.hasCurrent && g.mode != Backoff && g.queue == h.queue
    ensures Exact(h, g)
  {
    hide TriesIn, Contents;
    forall k: Key
      ensures Left(h, g, k) || CountsOn(h, g, k)
    {}
  }

  /** or all of them leave. */
  lemma FlushedExact(h: Hub, g: Hub)
    requires h.hasCurrent && !g.hasCurrent && g.mode != Backoff && g.queue == AllFree(|h.queue|)
    ensures Exact(h, g)
  {
    hide Contents, AllFree;
    forall k: Key
      ensures Left(h, g, k) || CountsOn(h, g, k)
    {
      NothingWaits(|h.queue|, k);
    }
  }

  lemma NothingWaits(n: nat, k: Key)
    ensures k !in Contents(AllFree(n))
  {
    assert Keys(AllFree(n)) == {};
  }

  lemma FailExact(h: Hub, g: Hub, now: u32)
    requires h.hasCurrent && g.queue == h.queue
    ensures Exact(h, FailCurrent(g, now))
  {
    var k := FailCurrent(g, now);
    FailLeaves(g, now);
    hide AllFree, Exact, FailCurrent;
    if k.queue == h.queue {
      EndedExact(h, k);
    } else {
      FlushedExact(h, k);
    }
  }

  lemma FailLeaves(h: Hub, now: u32)
    ensures var g := FailCurrent(h, now);
      !g.hasCurrent && g.mode != Backoff && (g.queue == h.queue || g.queue == AllFree(|h.queue|))
  {
    hide GoOffline, AllFree, Add32;
    FailFrame(h, now);
    OfflineLeaves(h.(hasCurrent := false, dropped := Add32(h.dropped, 1), mode := Idle, failures := (h.failures + 1) % 256),
                  now);
  }

  lemma OfflineLeaves(h: Hub, now: u32)
    ensures GoOffline(h, now).queue == AllFree(|h.queue|)
  {
    hide AllFree, FlushLog;
  }

  lemma RetryExact(h: Hub, cfg: Config, now: u32)
    requires Inv(h) && Behind(h) && h.hasCurrent
    ensures Exact(h, RetryOrDrop(h, cfg, now))
  {
    hide UniqueKeys, AllMild, FindNext, FailCurrent, Insert, BackoffMs, Add32, Exact, Limit, TriesIn;
    var again := h.current.(attempts := (h.current.attempts + 1) % 256);
    var k := h.(current := again);
    if again.attempts > Limit(cfg, again) {
      FailExact(h, k, now);
    } else {
      var b := k.(backoffUntil := Add32(now, BackoffMs(cfg, again.attempts)), mode := Backoff, hasCurrent := false);
      RequeueExact(h, b, again);
    }
  }

  lemma RequeueExact(h: Hub, b: Hub, again: Txn)
    requires UniqueKeys(h.queue) && Behind(h) && h.hasCurrent && b.queue == h.queue && !b.hasCurrent && b.mode == Backoff
    requires h.current.attempts < 255 && again == h.current.(attempts := h.current.attempts + 1)
    ensures Exact(h, Insert(b, again))
  {
    var g := Insert(b, again);
    hide TriesIn, Contents, UniqueKeys, Enqueue, Add32, Endings;
    forall k: Key
      ensures Left(h, g, k) || CountsOn(h, g, k)
    {
      RetryTries(h.queue, again, k);
    }
  }

  lemma EndsExact(h: Hub, cfg: Config, s: Step)
    requires Inv(h) && Behind(h) && Ends(s)
    ensures Exact(h, Apply(h, cfg, s))
  {
    hide UniqueKeys, AllMild, FindNext, RetryOrDrop, Exact, Behind, Waits, IsRetryable, Elapsed, Reached, Add32;
    match s
    case Response(ft, st, data, now) =>
      if Answers(h, ft) {
        RetryExact(h, cfg, now);
        EndedIfIdle(h, HandleResponse(h, cfg, ft, st, data, now));
      } else {
        SameExact(h, h);
      }
    case TimersDue(now) =>
      if h.mode == AwaitResp {
        var k := h.(timeouts := Add32(h.timeouts, 1));
        SameBehind(h, k);
        RetryExact(k, cfg, now);
        FromSame(h, k, RetryOrDrop(k, cfg, now));
      }
      SameExact(h, h);
      SameExact(h, h.(mode := Idle));
  }

  lemma SameBehind(h: Hub, g: Hub)
    requires Behind(h) && g.queue == h.queue && g.hasCurrent == h.hasCurrent && g.current == h.current
    ensures Behind(g)
  {
    hide TriesIn;
  }

  lemma FromSame(h: Hub, k: Hub, g: Hub)
    requires k.queue == h.queue && k.hasCurrent == h.hasCurrent && k.current == h.current && Exact(k, g)
    ensures Exact(h, g)
  {
    hide TriesIn, Contents, Behind;
    forall key: Key
      ensures Left(h, g, key) || CountsOn(h, g, key)
    {
      assert Left(k, g, key) || CountsOn(k, g, key);
    }
  }

  lemma EndedIfIdle(h: Hub, g: Hub)
    requires h.hasCurrent
    ensures !g.hasCurrent && g.mode == Idle && g.queue == h.queue ==> Exact(h, g)
  {
    hide Exact, Behind, Waits;
    if !g.hasCurrent && g.mode == Idle && g.queue == h.queue {
      EndedExact(h, g);
    }
  }

  lemma SameExact(h: Hub, g: Hub)
    requires Behind(h) && g.queue == h.queue && g.hasCurrent == h.hasCurrent && g.current == h.current
    ensures Exact(h, g)
  {
    hide TriesIn, Exact, Behind, Contents;
    SameCurrent(h, g);
  }

  lemma SendExact(h: Hub, now: u32)
    requires Inv(h) && h.mode == Idle && Behind(h)
    ensures Exact(h, SendNext(h, now))
  {
    hide UniqueKeys, AllMild, Contents, FindNext;
    if FindNext(h.queue) != -1 {
      TakeRefines(h.queue);
    }
  }

  // ----- every step -----

  /**
   Every step, whatever it asks for: an identity of which no request ends has, afterwards, been attempted once more if
   the step transmitted it, and exactly as often as before otherwise.
   */
  lemma StepExact(h: Hub, cfg: Config, s: Step)
    requires Inv(h) && Behind(h)
    ensures Exact(h, Apply(h, cfg, s))
  {
    if Offers(s) {
      OffersExact(h, cfg, s);
    } else if Ends(s) {
      EndsExact(h, cfg, s);
    } else if s.Send? {
      hide Exact, Inv, SendNext, Behind;
      if h.mode == Idle {
        SendExact(h, s.now);
      } else {
        SameExact(h, h);
      }
    } else {
      hide Apply, Exact, Behind;
      QuietFrame(h, cfg, s);
      SameExact(h, Apply(h, cfg, s));
    }
  }

  // ----- the limit -----

  /** A request of the identity is within `limit`, and so are the attempts counted for it. */
  predicate Within(t: Txn, cfg: Config, k: Key, limit: nat) {
    KeyOf(t) == k ==> Limit(cfg, t) <= limit && t.attempts <= limit
  }

  predicate SlotsWithin(q: seq<Slot>, cfg: Config, k: Key, limit: nat) {
    forall i :: 0 <= i < |q| && q[i].Used? ==> Within(q[i].txn, cfg, k, limit)
  }

  predicate HeldWithin(h: Hub, cfg: Config, k: Key, limit: nat) {
    SlotsWithin(h.queue, cfg, k, limit) && (h.hasCurrent ==> Within(h.current, cfg, k, limit))
  }

  predicate AskedWithin(h: Hub, cfg: Config, s: Step, k: Key, limit: nat) {
    forall i :: 0 <= i < |Asked(h, cfg, s)| ==> Within(Asked(h, cfg, s)[i], cfg, k, limit)
  }

  lemma EnqueueWithin(q: seq<Slot>, t: Txn, cfg: Config, k: Key, limit: nat)
    requires SlotsWithin(q, cfg, k, limit) && Within(t, cfg, k, limit)
    ensures SlotsWithin(Enqueue(q, t).0, cfg, k, limit)
  {
    hide FindKey, FindFree, FindVictim;
  }

  lemma InsertWithin(h: Hub, t: Txn, cfg: Config, k: Key, limit: nat)
    requires SlotsWithin(h.queue, cfg, k, limit) && Within(t, cfg, k, limit)
    ensures SlotsWithin(Insert(h, t).queue, cfg, k, limit)
  {
    hide Enqueue, SlotsWithin, Within, Add32, Endings;
    EnqueueWithin(h.queue, t, cfg, k, limit);
  }

  lemma OfferWithin(h: Hub, t: Txn, cfg: Config, k: Key, limit: nat)
    requires HeldWithin(h, cfg, k, limit) && Within(t, cfg, k, limit)
    ensures HeldWithin(Offer(h, t), cfg, k, limit)
  {
    hide Insert, SlotsWithin;
    InsertWithin(h.(nextId := h.nextId + 1), t.(id := h.nextId), cfg, k, limit);
    hide Within;
    OfferFrame(h, t);
  }

  lemma {:induction false} OfferAllWithin(h: Hub, ts: seq<Txn>, cfg: Config, k: Key, limit: nat)
    requires HeldWithin(h, cfg, k, limit) && forall i :: 0 <= i < |ts| ==> Within(ts[i], cfg, k, limit)
    ensures HeldWithin(OfferAll(h, ts), cfg, k, limit)
    decreases |ts|
  {
    hide Offer, HeldWithin, Within;
    if ts != [] {
      OfferWithin(h, ts[0], cfg, k, limit);
      OfferAllWithin(Offer(h, ts[0]), ts[1..], cfg, k, limit);
    }
  }

  lemma FailWithin(h: Hub, now: u32, cfg: Config, k: Key, limit: nat)
    requires SlotsWithin(h.queue, cfg, k, limit)
    ensures HeldWithin(FailCurrent(h, now), cfg, k, limit)
  {
    hide FailCurrent, Within;
    FailLeaves(h, now);
  }

  lemma RetryWithin(h: Hub, cfg: Config, now: u32, k: Key, limit: nat)
    requires Inv(h) && h.hasCurrent && HeldWithin(h, cfg, k, limit)
    ensures HeldWithin(RetryOrDrop(h, cfg, now), cfg, k, limit)
  {
    hide UniqueKeys, AllMild, FindNext, FailCurrent, Insert, BackoffMs, Add32, SlotsWithin;
    var again := h.current.(attempts := (h.current.attempts + 1) % 256);
    var g := h.(current := again);
    if again.attempts > Limit(cfg, again) {
      FailWithin(g, now, cfg, k, limit);
    } else {
      var b := g.(backoffUntil := Add32(now, BackoffMs(cfg, again.attempts)), mode := Backoff, hasCurrent := false);
      InsertWithin(b, again, cfg, k, limit);
      hide Within;
      InsertFrame(b, again);
    }
  }

  lemma SendWithin(h: Hub, now: u32, cfg: Config, k: Key, limit: nat)
    requires HeldWithin(h, cfg, k, limit)
    ensures HeldWithin(SendNext(h, now), cfg, k, limit)
  {
    hide FindNext, Within;
  }

  lemma OffersWithin(h: Hub, cfg: Config, s: Step, k: Key, limit: nat)
    requires HeldWithin(h, cfg, k, limit) && AskedWithin(h, cfg, s, k, limit) && Offers(s)
    ensures HeldWithin(Apply(h, cfg, s), cfg, k, limit)
  {
    hide Offer, OfferAll, Within, SlotsWithin, Elapsed, BurstFires, BurstReads;
    match s
    case Submit(t) =>
      assert Within(Asked(h, cfg, s)[0], cfg, k, limit);
      OfferWithin(h, t.(attempts := 0), cfg, k, limit);
    case ReprobeDue(now) =>
      if Reprobes(h, now) {
        assert Within(Asked(h, cfg, s)[0], cfg, k, limit);
        OfferWithin(h.(lastProbeAt := now, mode := Idle), Get(cfg, 0x7F, 7, OnPlatform, 0, NoFailAction), cfg, k, limit);
      }
    case BurstDue(now) => OfferAllWithin(h.(refreshPending := false), Asked(h, cfg, s), cfg, k, limit);
  }

  lemma EndsWithin(h: Hub, cfg: Config, s: Step, k: Key, limit: nat)
    requires Inv(h) && HeldWithin(h, cfg, k, limit) && Ends(s)
    ensures HeldWithin(Apply(h, cfg, s), cfg, k, limit)
  {
    hide UniqueKeys, AllMild, FindNext, RetryOrDrop, Within, SlotsWithin, IsRetryable, Elapsed, Reached, Add32;
    match s
    case Response(ft, st, data, now) =>
      if Answers(h, ft) {
        RetryWithin(h, cfg, now, k, limit);
      }
    case TimersDue(now) =>
      if h.mode == AwaitResp {
        RetryWithin(h.(timeouts := Add32(h.timeouts, 1)), cfg, now, k, limit);
      }
  }

  lemma StepWithin(h: Hub, cfg: Config, s: Step, k: Key, limit: nat)
    requires Inv(h) && HeldWithin(h, cfg, k, limit) && AskedWithin(h, cfg, s, k, limit)
    ensures HeldWithin(Apply(h, cfg, s), cfg, k, limit)
  {
    if Offers(s) {
      OffersWithin(h, cfg, s, k, limit);
    } else if Ends(s) {
      EndsWithin(h, cfg, s, k, limit);
    } else if s.Send? {
      SendWithin(h, s.now, cfg, k, limit);
      hide HeldWithin, Inv, SendNext;
    } else {
      hide Apply, Inv, Within, SlotsWithin;
      QuietFrame(h, cfg, s);
    }
  }

  // ----- every run -----

  /** No request of the identity ends in the run. */
  ghost predicate Stays(h: Hub, cfg: Config, steps: seq<Step>, k: Key)
    decreases |steps|
  {
    steps == [] ||
      (!Left(h, Apply(h, cfg, steps[0]), k) && Stays(Apply(h, cfg, steps[0]), cfg, steps[1..], k))
  }

  function Transmissions(h: Hub, cfg: Config, steps: seq<Step>, k: Key): nat
    decreases |steps|
  {
    if steps == [] then 0
    else
      var g := Apply(h, cfg, steps[0]);
      One(Sent(h, g, k)) + Transmissions(g, cfg, steps[1..], k)
  }

  ghost predicate RunWithin(h: Hub, cfg: Config, steps: seq<Step>, k: Key, limit: nat)
    decreases |steps|
  {
    steps == [] ||
      (AskedWithin(h, cfg, steps[0], k, limit) && RunWithin(Apply(h, cfg, steps[0]), cfg, steps[1..], k, limit))
  }

  lemma {:induction false} RunExact(h: Hub, cfg: Config, steps: seq<Step>, k: Key)
    requires Inv(h) && cfg.Valid() && Behind(h)
    ensures var g := Run(h, cfg, steps);
      && Behind(g)
      && (Stays(h, cfg, steps, k) ==>
            Made(g, k) == Made(h, k) + Transmissions(h, cfg, steps, k) && Tries(g, k) >= Tries(h, k))
    decreases |steps|
  {
    hide Apply, Inv, Behind, Left, Made, Tries, Sent;
    if steps != [] {
      StepExact(h, cfg, steps[0]);
      ApplyKeeps(h, cfg, steps[0]);
      RunExact(Apply(h, cfg, steps[0]), cfg, steps[1..], k);
    }
  }

  lemma {:induction false} RunStaysWithin(h: Hub, cfg: Config, steps: seq<Step>, k: Key, limit: nat)
    requires Inv(h) && cfg.Valid() && HeldWithin(h, cfg, k, limit) && RunWithin(h, cfg, steps, k, limit)
    ensures HeldWithin(Run(h, cfg, steps), cfg, k, limit)
    decreases |steps|
  {
    hide Apply, Inv, HeldWithin, AskedWithin;
    if steps != [] {
      StepWithin(h, cfg, steps[0], k, limit);
      ApplyKeeps(h, cfg, steps[0]);
      RunStaysWithin(Apply(h, cfg, steps[0]), cfg, steps[1..], k, limit);
    }
  }

  lemma BootBehind(cfg: Config, boot: u32)
    ensures Behind(Boot(cfg, boot)) && !Boot(cfg, boot).hasCurrent
  {
    hide Offer, AllFree, TriesIn;
    OfferFrame(PowerOn(cfg).(lastProbeAt := boot, mode := Idle), Get(cfg, 0x7F, 7, OnPlatform, 0, NoFailAction));
  }

  /**
   From any reachable moment on, over every run in which no request of an identity ends, whatever is asked for meanwhile:
   the attempts counted for it grow by exactly its transmissions and are never forgotten.
   */
  lemma AttemptsAreTransmissions(cfg: Config, boot: u32, past: seq<Step>, future: seq<Step>, k: Key)
    requires cfg.Valid()
    ensures var h := Run(Boot(cfg, boot), cfg, past);
      var g := Run(h, cfg, future);
      Stays(h, cfg, future, k) ==>
        Made(g, k) == Made(h, k) + Transmissions(h, cfg, future, k) && Tries(g, k) >= Tries(h, k)
  {
    hide Boot, Run, Inv, Behind, Made, Tries, Stays;
    BootInv(cfg, boot);
    BootBehind(cfg, boot);
    RunExact(Boot(cfg, boot), cfg, past, k);
    AlwaysInv(cfg, boot, past);
    RunExact(Run(Boot(cfg, boot), cfg, past), cfg, future, k);
  }

  lemma WithinMade(h: Hub, cfg: Config, k: Key, limit: nat)
    requires HeldWithin(h, cfg, k, limit)
    ensures Made(h, k) <= limit + 1
  {
    hide Limit;
    PriorityAll(h.queue);
    if k in Contents(h.queue) {
      assert KeyOf(Contents(h.queue)[k]) == k;
    }
  }

  lemma BootWithin(cfg: Config, boot: u32, k: Key, limit: nat)
    requires k == Key(0x7F, GET_REQ, 0) ==> cfg.maxRetries <= limit
    ensures HeldWithin(Boot(cfg, boot), cfg, k, limit)
  {
    hide Offer, AllFree, SlotsWithin;
    var h := PowerOn(cfg).(lastProbeAt := boot, mode := Idle);
    FreeWithin(QUEUE_DEPTH, cfg, k, limit);
    OfferWithin(h, Get(cfg, 0x7F, 7, OnPlatform, 0, NoFailAction), cfg, k, limit);
  }

  lemma FreeWithin(n: nat, cfg: Config, k: Key, limit: nat)
    ensures SlotsWithin(AllFree(n), cfg, k, limit)
  {}

  /**
   So an identity whose requests all have a limit of at most `limit` is transmitted at most `limit + 1` times before one
   of them ends, however often and whenever it is asked for again.
   */
  lemma IdentityIsBounded(cfg: Config, boot: u32, past: seq<Step>, future: seq<Step>, k: Key, limit: nat)
    requires cfg.Valid() && (k == Key(0x7F, GET_REQ, 0) ==> cfg.maxRetries <= limit)
    requires RunWithin(Boot(cfg, boot), cfg, past, k, limit)
    requires var h := Run(Boot(cfg, boot), cfg, past); RunWithin(h, cfg, future, k, limit) && Stays(h, cfg, future, k)
    ensures Transmissions(Run(Boot(cfg, boot), cfg, past), cfg, future, k) <= limit + 1
  {
    hide Boot, Run, Inv, HeldWithin, Made, Stays, RunWithin, Transmissions;
    var h := Run(Boot(cfg, boot), cfg, past);
    BootInv(cfg, boot);
    BootWithin(cfg, boot, k, limit);
    RunStaysWithin(Boot(cfg, boot), cfg, past, k, limit);
    AlwaysInv(cfg, boot, past);
    RunStaysWithin(h, cfg, future, k, limit);
    WithinMade(Run(h, cfg, future), cfg, k, limit);
    AttemptsAreTransmissions(cfg, boot, past, future, k);
  }
}
