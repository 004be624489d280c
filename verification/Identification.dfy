/**
 Whether a device is identified. The hub probes until the platform reply arrives and believes it until the link is given
 up; here the replies to the probe are events of the run.
 */
module Identification {
  import opened Wire
  import opened Queue
  import opened Clock32
  import opened HubModel
  import opened HubInvariant
  import opened Effects
  import opened Refresh
  import opened BurstContents

  /** A step of the hub, or the platform reply handled by an idle hub, as the reply that carried it leaves it. */
  datatype Event = HubStep(step: Step) | Platform(data: seq<byte>, now: u32)

  function Handle(h: Hub, cfg: Config, e: Event): Hub {
    match e
    case HubStep(s) => if s.Identified? then h else Apply(h, cfg, s)
    case Platform(data, now) => if h.mode == Idle then PlatformReply(h, cfg, data, now) else h
  }

  /** The reply says who the device is. */
  predicate Answered(h: Hub, e: Event) { e.Platform? && |e.data| >= 2 && h.mode == Idle }

  function After(h: Hub, cfg: Config, es: seq<Event>): Hub
    decreases |es|
  {
    if es == [] then h else After(Handle(h, cfg, es[0]), cfg, es[1..])
  }

  /** A device has answered since the hub last went offline. */
  function Known(h: Hub, cfg: Config, es: seq<Event>, known: bool): bool
    decreases |es|
  {
    if es == [] then known
    else
      var g := Handle(h, cfg, es[0]);
      Known(g, cfg, es[1..], Answered(h, es[0]) || (known && g.mode != Offline))
  }

  // ----- the platform reply -----

  /** Afterwards a device is identified, nothing counts against it, everything is to be read, and no probe is due ever. */
  lemma PlatformMeans(h: Hub, cfg: Config, data: seq<byte>, now: u32)
    requires h.mode == Idle
    ensures var g := PlatformReply(h, cfg, data, now);
      if |data| >= 2 then
        && g.identified && g.failures == 0 && g.toggleUnsupported == 0 && g.refreshPending
        && g.refreshDueAt == Add32(now, cfg.refreshDebounceMs) && g.mode == Idle
        && forall later: u32 :: Handle(g, cfg, HubStep(ReprobeDue(later))) == g
      else g == h
  {
    hide OfferAll, Add32, Elapsed;
    OfferAllFrame(h.(identified := true, failures := 0, toggleUnsupported := 0), ProbeReads(cfg));
  }

  /** A hub that does not know its device keeps probing: from five seconds after the last probe the next one is due. */
  lemma ProbesUntilKnown(h: Hub, probed: nat, time: nat)
    requires h.lastProbeAt == Clock(probed) && probed <= time < probed + TWO32
    ensures Reprobes(h, Clock(time)) <==>
      !h.identified && (h.mode == Idle || h.mode == Offline) && time >= probed + 5000
  {
    hide Clock, Elapsed;
    ElapsedIsTrueTime(time, probed);
  }

  /** A probe that is due wakes the hub, starts the next interval, and waits, however full the queue is. */
  lemma ProbeMeans(h: Hub, cfg: Config, now: u32)
    requires Inv(h) && Reprobes(h, now)
    ensures var g := Apply(h, cfg, ReprobeDue(now));
      && g.mode == Idle && g.lastProbeAt == now && !g.identified
      && ReadWaits(g.queue, cfg, 0x7F, 7, 0, OnPlatform, NoFailAction)
  {
    hide UniqueKeys, AllMild, FindNext, Elapsed, Enqueue, Contents, Add32, Endings;
    var t := Get(cfg, 0x7F, 7, OnPlatform, 0, NoFailAction);
    EnqueueRefines(h.queue, t.(id := h.nextId));
  }

  // ----- every run -----

  lemma StepIdentified(h: Hub, cfg: Config, s: Step)
    requires Inv(h) && cfg.Valid() && !s.Identified?
    ensures var g := Apply(h, cfg, s); g.identified == (h.identified && g.mode != Offline)
  {
    ApplyKeeps(h, cfg, s);
    if Offers(s) {
      hide Apply, UniqueKeys, AllMild, FindNext;
      OffersFrame(h, cfg, s);
    } else if Ends(s) {
      hide Apply, UniqueKeys, AllMild, FindNext;
      EndsIdentified(h, cfg, s);
    } else if s.Send? {
      hide Apply, UniqueKeys, AllMild, FindNext;
      SendFrame(h, cfg, s.now);
    } else {
      QuietIdentified(h, cfg, s);
      hide Apply, UniqueKeys, AllMild, FindNext;
      QuietFrame(h, cfg, s);
    }
  }

  lemma QuietIdentified(h: Hub, cfg: Config, s: Step)
    requires !Offers(s) && !Ends(s) && !s.Send? && !s.Identified?
    ensures Apply(h, cfg, s).identified == h.identified && Apply(h, cfg, s).mode == h.mode
  {
    hide Add32, Or, HandleNotification, Elapsed;
    if s.Notification? {
      NotificationTouches(h, cfg, s.packet, s.now);
    }
  }

  lemma FailIdentified(h: Hub, now: u32)
    ensures var g := FailCurrent(h, now); g.identified == (h.identified && g.mode != Offline)
  {
    hide AllFree, FlushLog, Add32;
  }

  lemma RetryIdentified(h: Hub, cfg: Config, now: u32)
    requires h.hasCurrent
    ensures var g := RetryOrDrop(h, cfg, now); g.identified == (h.identified && g.mode != Offline)
  {
    hide FailCurrent, Insert, BackoffMs, Add32, Limit;
    var again := h.current.(attempts := (h.current.attempts + 1) % 256);
    var k := h.(current := again);
    FailIdentified(k, now);
    InsertFrame(k.(backoffUntil := Add32(now, BackoffMs(cfg, again.attempts)), mode := Backoff, hasCurrent := false),
                again);
  }

  lemma EndsIdentified(h: Hub, cfg: Config, s: Step)
    requires Inv(h) && Ends(s)
    ensures var g := Apply(h, cfg, s); g.identified == (h.identified && g.mode != Offline)
  {
    hide RetryOrDrop, UniqueKeys, AllMild, FindNext, IsRetryable, Elapsed, Reached, Add32;
    match s
    case Response(ft, st, data, now) => if Answers(h, ft) { RetryIdentified(h, cfg, now); }
    case TimersDue(now) =>
      if h.mode == AwaitResp {
        RetryIdentified(h.(timeouts := Add32(h.timeouts, 1)), cfg, now);
      }
  }

  lemma {:induction false} ReadsKeep(h: Hub, ts: seq<Txn>)
    requires Inv(h) && forall i :: 0 <= i < |ts| ==> ts[i].attempts < 255
    ensures Inv(OfferAll(h, ts)) && OfferAll(h, ts).identified == h.identified && OfferAll(h, ts).mode == h.mode
    decreases |ts|
  {
    hide Inv;
    OfferAllKeeps(h, ts);
    OfferAllFrame(h, ts);
  }

  lemma PlatformKeeps(h: Hub, cfg: Config, data: seq<byte>, now: u32)
    requires Inv(h) && h.mode == Idle
    ensures var g := PlatformReply(h, cfg, data, now);
      Inv(g) && g.mode == Idle && g.identified == (h.identified || |data| >= 2)
  {
    hide UniqueKeys, AllMild, FindNext, OfferAll, Add32;
    if |data| >= 2 {
      ReadsKeep(h.(identified := true, failures := 0, toggleUnsupported := 0), ProbeReads(cfg));
    }
  }

  lemma {:induction false} RunKnows(h: Hub, cfg: Config, es: seq<Event>)
    requires Inv(h) && cfg.Valid()
    ensures After(h, cfg, es).identified == Known(h, cfg, es, h.identified)
    decreases |es|
  {
    hide Apply, Inv, PlatformReply;
    if es != [] {
      var e := es[0];
      var g := Handle(h, cfg, e);
      if e.Platform? {
        if h.mode == Idle {
          PlatformKeeps(h, cfg, e.data, e.now);
        }
        OfflineUnknown(h);
      } else {
        OfflineUnknown(h);
        if !e.step.Identified? {
          StepIdentified(h, cfg, e.step);
          ApplyKeeps(h, cfg, e.step);
        }
      }
      RunKnows(g, cfg, es[1..]);
    }
  }

  lemma OfflineUnknown(h: Hub)
    requires Inv(h)
    ensures h.mode == Offline ==> !h.identified
  {
    hide UniqueKeys, AllMild, FindNext;
  }

  /** From power-on, a device is identified exactly if one has answered since the hub last went offline. */
  lemma IdentifiedExactly(cfg: Config, boot: u32, es: seq<Event>)
    requires cfg.Valid()
    ensures After(Boot(cfg, boot), cfg, es).identified == Known(Boot(cfg, boot), cfg, es, false)
  {
    hide Boot, Inv, After, Known;
    BootInv(cfg, boot);
    BootUnknown(cfg, boot);
    RunKnows(Boot(cfg, boot), cfg, es);
  }

  lemma BootUnknown(cfg: Config, boot: u32)
    ensures !Boot(cfg, boot).identified
  {
    hide Offer, AllFree;
    OfferFrame(PowerOn(cfg).(lastProbeAt := boot, mode := Idle), Get(cfg, 0x7F, 7, OnPlatform, 0, NoFailAction));
  }

  // ----- what is asked of a device just identified -----

  lemma ProbeReadsDistinct(cfg: Config)
    ensures DistinctKeys(ProbeReads(cfg)) && |ProbeReads(cfg)| == 6 && AllUrgent(ProbeReads(cfg))
  {}

  /** The identities that wait with the highest priority. */
  ghost function UrgentIn(m: map<Key, Txn>): set<Key> { set k | k in m && m[k].priority == 0 }

  ghost function Urgent(q: seq<Slot>): set<Key> { UrgentIn(Contents(q)) }

  function KeysOf(ts: seq<Txn>): set<Key> { set i | 0 <= i < |ts| :: KeyOf(ts[i]) }

  predicate AllUrgent(ts: seq<Txn>) { forall i :: 0 <= i < |ts| ==> ts[i].priority == 0 }

  /** The request waits. */
  ghost predicate Found(m: map<Key, Txn>, t: Txn) { KeyOf(t) in m && IsRequest(m[KeyOf(t)], t) }

  ghost predicate SameAt(m: map<Key, Txn>, m': map<Key, Txn>, k: Key) { k in m && k in m' && m'[k] == m[k] }

  lemma OnlyUrgent(m: map<Key, Txn>)
    ensures (forall k :: k in m ==> m[k].priority == 0) ==> UrgentIn(m) == m.Keys
  {}

  /** An urgent request for which there is a place among the urgent ones takes none of theirs. */
  lemma MapFits(m: map<Key, Txn>, depth: nat, t: Txn, m': map<Key, Txn>, o: Outcome)
    requires MapEnqueue(m, depth, t, m', o) && t.priority == 0 && |UrgentIn(m) + {KeyOf(t)}| <= depth
    ensures UrgentIn(m') == UrgentIn(m) + {KeyOf(t)} && Found(m', t)
    ensures forall k :: k in UrgentIn(m) && k != KeyOf(t) ==> SameAt(m, m', k)
  {
    hide KeyOf;
    OnlyUrgent(m);
    match o
    case Replaced(older) =>
    case Placed =>
    case Evicted(victim) => assert victim.priority > 0;
    case Refused =>
  }

  lemma UrgentFits(h: Hub, t: Txn)
    requires UniqueKeys(h.queue) && t.priority == 0 && |Urgent(h.queue) + {KeyOf(t)}| <= |h.queue|
    ensures var q, q' := h.queue, Offer(h, t).queue;
      && UniqueKeys(q') && |q'| == |q| && Urgent(q') == Urgent(q) + {KeyOf(t)} && Found(Contents(q'), t)
      && forall k :: k in Urgent(q) && k != KeyOf(t) ==> SameAt(Contents(q), Contents(q'), k)
  {
    hide Enqueue, UniqueKeys, Contents, Add32, Endings, MapEnqueue, UrgentIn, SameAt;
    var u := t.(id := h.nextId);
    EnqueueRefines(h.queue, u);
    MapFits(Contents(h.queue), |h.queue|, u, Contents(Enqueue(h.queue, u).0), Enqueue(h.queue, u).1);
  }

  lemma KeysOfFirst(ts: seq<Txn>)
    requires ts != []
    ensures KeysOf(ts) == {KeyOf(ts[0])} + KeysOf(ts[1..])
  {
    hide KeyOf;
    forall k | k in KeysOf(ts)
      ensures k == KeyOf(ts[0]) || k in KeysOf(ts[1..])
    {
      var i :| 0 <= i < |ts| && KeyOf(ts[i]) == k;
      if i > 0 {
        assert ts[1..][i - 1] == ts[i];
      }
    }
  }

  lemma {:induction false} UrgentAllFit(h: Hub, ts: seq<Txn>)
    requires UniqueKeys(h.queue) && AllUrgent(ts) && DistinctKeys(ts) && |Urgent(h.queue) + KeysOf(ts)| <= |h.queue|
    ensures var q, q' := h.queue, OfferAll(h, ts).queue;
      && Urgent(q') == Urgent(q) + KeysOf(ts)
      && (forall i :: 0 <= i < |ts| ==> Found(Contents(q'), ts[i]))
      && forall k :: k in Urgent(q) && k !in KeysOf(ts) ==> SameAt(Contents(q), Contents(q'), k)
    decreases |ts|
  {
    hide UniqueKeys, Offer, Contents, Found, SameAt, KeysOf, KeyOf, UrgentIn;
    UrgentWait(h.queue);
    if ts != [] {
      KeysOfFirst(ts);
      Smaller(Urgent(h.queue) + {KeyOf(ts[0])}, Urgent(h.queue) + KeysOf(ts));
      UrgentFits(h, ts[0]);
      var g := Offer(h, ts[0]);
      assert Urgent(g.queue) + KeysOf(ts[1..]) == Urgent(h.queue) + KeysOf(ts);
      UrgentAllFit(g, ts[1..]);
      FirstStays(ts);
      ThenFit(Contents(h.queue), Contents(g.queue), Contents(OfferAll(g, ts[1..]).queue), Urgent(h.queue), ts);
    } else {
      NoKeys(ts);
      SameAsBefore(Contents(h.queue));
    }
  }

  lemma NoKeys(ts: seq<Txn>)
    requires ts == []
    ensures KeysOf(ts) == {}
  {}

  lemma SameAsBefore(m: map<Key, Txn>)
    ensures forall k :: k in m ==> SameAt(m, m, k)
  {}

  /** The first request has entered `m1`, the others `m2`. */
  lemma ThenFit(m0: map<Key, Txn>, m1: map<Key, Txn>, m2: map<Key, Txn>, urgent: set<Key>, ts: seq<Txn>)
    requires ts != [] && KeyOf(ts[0]) !in KeysOf(ts[1..]) && Found(m1, ts[0])
    requires forall k :: k in urgent && k != KeyOf(ts[0]) ==> SameAt(m0, m1, k)
    requires forall k :: k in urgent + {KeyOf(ts[0])} && k !in KeysOf(ts[1..]) ==> SameAt(m1, m2, k)
    requires forall i :: 0 <= i < |ts[1..]| ==> Found(m2, ts[1..][i])
    ensures forall i :: 0 <= i < |ts| ==> Found(m2, ts[i])
    ensures forall k :: k in urgent && k !in KeysOf(ts) ==> SameAt(m0, m2, k)
  {
    hide KeyOf, KeysOf, IsRequest;
    KeysOfFirst(ts);
    forall i | 0 <= i < |ts|
      ensures Found(m2, ts[i])
    {
      if i > 0 {
        assert ts[i] == ts[1..][i - 1];
      } else {
        assert SameAt(m1, m2, KeyOf(ts[0]));
      }
    }
  }

  lemma UrgentWait(q: seq<Slot>)
    ensures Urgent(q) <= Contents(q).Keys
  {
    hide Contents;
  }

  lemma FirstStays(ts: seq<Txn>)
    requires ts != [] && DistinctKeys(ts)
    ensures KeyOf(ts[0]) !in KeysOf(ts[1..])
  {}

  lemma Smaller(a: set<Key>, b: set<Key>)
    requires a <= b
    ensures |a| <= |b|
  {
    if a != b {
      assert b == a + (b - a);
    }
  }

  /** Everything urgent that waited still does, and all of these requests wait. */
  ghost predicate NoneLost(h: Hub, g: Hub, ts: seq<Txn>) {
    Urgent(h.queue) + KeysOf(ts) <= Contents(g.queue).Keys
  }

  lemma OfferAllLength(h: Hub, ts: seq<Txn>)
    requires UniqueKeys(h.queue)
    ensures UniqueKeys(OfferAll(h, ts).queue) && |OfferAll(h, ts).queue| == |h.queue|
    decreases |ts|
  {
    hide UniqueKeys, Enqueue, Contents, Add32, Endings;
    if ts != [] {
      EnqueueRefines(h.queue, ts[0].(id := h.nextId));
      OfferAllLength(Offer(h, ts[0]), ts[1..]);
    }
  }

  /**
   The reads made once per device are urgent but not held back for room: with those that wait already, they all find a place
   without pushing an urgent request out exactly if there are no more than twelve identities of both kinds.
   */
  lemma PlatformReadsFit(h: Hub, cfg: Config, data: seq<byte>, now: u32)
    requires Inv(h) && h.mode == Idle && |data| >= 2
    ensures NoneLost(h, PlatformReply(h, cfg, data, now), ProbeReads(cfg))
      <==> |Urgent(h.queue) + KeysOf(ProbeReads(cfg))| <= 12
  {
    assert UniqueKeys(h.queue) && |h.queue| == 12;
    var k := h.(identified := true, failures := 0, toggleUnsupported := 0);
    var ts := ProbeReads(cfg);
    ProbeReadsDistinct(cfg);
    hide Inv, UniqueKeys, OfferAll, Contents, Urgent, KeysOf, ProbeReads, AllUrgent, DistinctKeys, Add32;
    FitExactly(k, ts);
    assert PlatformReply(h, cfg, data, now).queue == OfferAll(k, ts).queue;
  }

  lemma FitExactly(h: Hub, ts: seq<Txn>)
    requires UniqueKeys(h.queue) && AllUrgent(ts) && DistinctKeys(ts)
    ensures NoneLost(h, OfferAll(h, ts), ts) <==> |Urgent(h.queue) + KeysOf(ts)| <= |h.queue|
  {
    hide UniqueKeys, OfferAll, Contents, UrgentIn, KeysOf, AllUrgent, DistinctKeys, FreeCount, Found, SameAt;
    var q := OfferAll(h, ts).queue;
    UrgentWait(q);
    OfferAllLength(h, ts);
    Occupied(q);
    if |Urgent(h.queue) + KeysOf(ts)| <= |h.queue| {
      UrgentAllFit(h, ts);
    }
    if NoneLost(h, OfferAll(h, ts), ts) {
      Smaller(Urgent(h.queue) + KeysOf(ts), Contents(q).Keys);
    }
  }

  /** Then they wait as these reads. */
  lemma PlatformAsksFor(h: Hub, cfg: Config, data: seq<byte>, now: u32)
    requires Inv(h) && h.mode == Idle && |data| >= 2 && |Urgent(h.queue) + KeysOf(ProbeReads(cfg))| <= 12
    ensures var q := PlatformReply(h, cfg, data, now).queue;
      && ReadWaits(q, cfg, 0xF6, 8, 0, OnUartConfig, NoFailAction)
      && ReadWaits(q, cfg, 0xF9, 8, 0, OnOther(0), NoFailAction)
      && ReadWaits(q, cfg, 0xEF, 6, 0, OnOther(1), NoFailAction)
      && ReadWaits(q, cfg, 0x69, 1, 0, OnOther(2), NoFailAction)
      && ReadWaits(q, cfg, 0x6B, 1, 0, OnOther(3), NoFailAction)
      && ReadWaits(q, cfg, 0x95, 7, 0, OnOther(4), NoFailAction)
  {
    assert UniqueKeys(h.queue) && |h.queue| == 12;
    var k := h.(identified := true, failures := 0, toggleUnsupported := 0);
    ProbeReadsDistinct(cfg);
    hide Inv, ReadWaits, Contents, UniqueKeys, OfferAll, Urgent, KeysOf, Found, SameAt, ProbeReads, Add32, DistinctKeys,
      AllUrgent;
    UrgentAllFit(k, ProbeReads(cfg));
    assert PlatformReply(h, cfg, data, now).queue == OfferAll(k, ProbeReads(cfg)).queue;
    ReadsFound(OfferAll(k, ProbeReads(cfg)), cfg);
  }

  lemma ReadsFound(g: Hub, cfg: Config)
    requires forall i :: 0 <= i < 6 ==> Found(Contents(g.queue), ProbeReads(cfg)[i])
    ensures ReadWaits(g.queue, cfg, 0xF6, 8, 0, OnUartConfig, NoFailAction)
    ensures ReadWaits(g.queue, cfg, 0xF9, 8, 0, OnOther(0), NoFailAction)
    ensures ReadWaits(g.queue, cfg, 0xEF, 6, 0, OnOther(1), NoFailAction)
    ensures ReadWaits(g.queue, cfg, 0x69, 1, 0, OnOther(2), NoFailAction)
    ensures ReadWaits(g.queue, cfg, 0x6B, 1, 0, OnOther(3), NoFailAction)
    ensures ReadWaits(g.queue, cfg, 0x95, 7, 0, OnOther(4), NoFailAction)
  {
    hide ReadWaits, Contents, IsRequest;
    WaitsAs(g, cfg, ProbeReads(cfg)[0]);
    WaitsAs(g, cfg, ProbeReads(cfg)[1]);
    WaitsAs(g, cfg, ProbeReads(cfg)[2]);
    WaitsAs(g, cfg, ProbeReads(cfg)[3]);
    WaitsAs(g, cfg, ProbeReads(cfg)[4]);
    WaitsAs(g, cfg, ProbeReads(cfg)[5]);
  }

  /** Every slot holds a request of the highest priority. */
  predicate Crowded(q: seq<Slot>) {
    q != [] && forall i :: 0 <= i < |q| ==> q[i].Used? && q[i].txn.priority == 0
  }

  predicate NoneHolds(q: seq<Slot>, k: Key) { forall i :: 0 <= i < |q| ==> !Holds(q[i], k) }

  lemma CrowdStep(q: seq<Slot>, t: Txn)
    requires Crowded(q) && NoneHolds(q, KeyOf(t)) && t.priority == 0
    ensures Enqueue(q, t).0 == q[0 := Used(t)] && Crowded(q[0 := Used(t)])
  {
    hide FindVictim;
    assert Full(q);
    assert IsVictim(q, FindVictim(q));
  }

  /** Requests of that priority offered to a crowded queue all take the same place: only the last of them stays. */
  lemma {:induction false} CrowdOut(h: Hub, ts: seq<Txn>)
    requires Crowded(h.queue) && DistinctKeys(ts) && ts != []
    requires forall i :: 0 <= i < |ts| ==> NoneHolds(h.queue, KeyOf(ts[i])) && ts[i].priority == 0
    ensures var q := OfferAll(h, ts).queue;
      |q| == |h.queue| && q[1..] == h.queue[1..] && q[0].Used? && KeyOf(q[0].txn) == KeyOf(ts[|ts| - 1])
    decreases |ts|
  {
    hide Crowded, Enqueue, NoneHolds, KeyOf, Add32, Endings;
    var t := ts[0].(id := h.nextId);
    SameKey(ts[0], h.nextId);
    CrowdStep(h.queue, t);
    var g := Offer(h, ts[0]);
    NotEmpty(h.queue);
    assert g.queue == h.queue[0 := Used(t)];
    if |ts| > 1 {
      forall i | 1 <= i < |ts|
        ensures NoneHolds(g.queue, KeyOf(ts[i]))
      {
        OtherStays(h.queue, t, KeyOf(ts[i]));
      }
      CrowdOut(g, ts[1..]);
    } else {
      assert OfferAll(g, ts[1..]) == g;
    }
  }

  lemma SameKey(t: Txn, id: nat)
    ensures KeyOf(t.(id := id)) == KeyOf(t)
  {}

  lemma NotEmpty(q: seq<Slot>)
    requires Crowded(q)
    ensures |q| > 0
  {}

  lemma OtherStays(q: seq<Slot>, t: Txn, k: Key)
    requires q != [] && NoneHolds(q, k) && KeyOf(t) != k
    ensures NoneHolds(q[0 := Used(t)], k)
  {}

  /**
   And at worst: in a queue full of other urgent requests five of the six are lost, and nothing asks for them again while
   the device stays identified.
   */
  lemma ReadsCrowdedOut(h: Hub, cfg: Config, data: seq<byte>, now: u32, k: Key)
    requires h.mode == Idle && |data| >= 2 && Crowded(h.queue)
    requires forall i :: 0 <= i < 6 ==> NoneHolds(h.queue, KeyOf(ProbeReads(cfg)[i]))
    requires k == Key(0xF6, 0x02, 0) || k == Key(0xF9, 0x02, 0) || k == Key(0xEF, 0x02, 0) || k == Key(0x69, 0x02, 0)
          || k == Key(0x6B, 0x02, 0)
    ensures k !in Contents(PlatformReply(h, cfg, data, now).queue)
    ensures Key(0x95, 0x02, 0) in Contents(PlatformReply(h, cfg, data, now).queue)
  {
    hide OfferAll, Crowded, NoneHolds;
    ProbeReadsDistinct(cfg);
    ProbeKeys(cfg);
    NotEmpty(h.queue);
    var g := h.(identified := true, failures := 0, toggleUnsupported := 0);
    CrowdOut(g, ProbeReads(cfg));
    var q := PlatformReply(h, cfg, data, now).queue;
    assert q == OfferAll(g, ProbeReads(cfg)).queue;
    OnlyFirst(h.queue, q, KeyOf(ProbeReads(cfg)[5]), k);
  }

  lemma ProbeKeys(cfg: Config)
    ensures var ts := ProbeReads(cfg);
      && KeyOf(ts[0]) == Key(0xF6, 0x02, 0) && KeyOf(ts[1]) == Key(0xF9, 0x02, 0) && KeyOf(ts[2]) == Key(0xEF, 0x02, 0)
      && KeyOf(ts[3]) == Key(0x69, 0x02, 0) && KeyOf(ts[4]) == Key(0x6B, 0x02, 0) && KeyOf(ts[5]) == Key(0x95, 0x02, 0)
  {}

  lemma OnlyFirst(p: seq<Slot>, q: seq<Slot>, last: Key, k: Key)
    requires |p| == |q| > 0 && q[1..] == p[1..] && q[0].Used? && KeyOf(q[0].txn) == last && k != last
    requires NoneHolds(p, k)
    ensures k !in Keys(q) && last in Keys(q)
  {
    forall i | 0 <= i < |q|
      ensures !Holds(q[i], k)
    {
      if i > 0 {
        assert q[i] == q[1..][i - 1] && p[i] == p[1..][i - 1];
      }
    }
  }
}
