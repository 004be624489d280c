/** The refresh burst goes out whole or not at all, and a lost notification always leads to one. */
module Refresh {
  import opened Wire
  import opened Toggles
  import opened Queue
  import opened Clock32
  import opened HubModel
  import opened HubInvariant
  import opened Progress

  // ----- inserting into a queue with room -----

  /** The log has only grown, and only by superseded transactions. */
  predicate OnlySuperseded(log: seq<Ending>, log': seq<Ending>) {
    && |log| <= |log'| && log'[..|log|] == log
    && forall i :: |log| <= i < |log'| ==> log'[i].fate.Superseded?
  }

  lemma OnlySupersededTrans(a: seq<Ending>, b: seq<Ending>, c: seq<Ending>)
    requires OnlySuperseded(a, b) && OnlySuperseded(b, c)
    ensures OnlySuperseded(a, c)
  {
    assert c[..|a|] == c[..|b|][..|a|];
    forall i | |a| <= i < |c|
      ensures c[i].fate.Superseded?
    {
      assert i < |b| ==> c[i] == c[..|b|][i];
    }
  }

  /** `u` is the request `t`, numbered and possibly charged with the attempts of the one it replaced. */
  predicate IsRequest(u: Txn, t: Txn) { u == t.(id := u.id, attempts := u.attempts) }

  /** What one insertion into a queue with a free slot does. */
  lemma InsertWithRoom(h: Hub, t: Txn)
    requires UniqueKeys(h.queue) && FreeCount(h.queue) >= 1
    ensures var g := Insert(h, t);
            && UniqueKeys(g.queue)
            && FreeCount(g.queue) + 1 >= FreeCount(h.queue)
            && g.dropped == h.dropped
            && OnlySuperseded(h.log, g.log)
            && g.queue == Enqueue(h.queue, t).0
    ensures exists a :: Contents(Enqueue(h.queue, t).0) == Contents(h.queue)[KeyOf(t) := t.(attempts := a)]
  {
    hide UniqueKeys, Contents, Sum, FindKey, FindFree;
    EnqueueRefines(h.queue, t);
    Add32Zero(h.dropped);
    RoomEnough(h.queue, t);
    var o := Enqueue(h.queue, t).1;
    var m := Contents(h.queue);
    if o.Replaced? {
      var m' := Contents(Enqueue(h.queue, t).0);
      assert m' == m[KeyOf(t) := t.(attempts := m'[KeyOf(t)].attempts)];
    } else {
      assert t == t.(attempts := t.attempts);
    }
  }

  lemma RoomEnough(q: seq<Slot>, t: Txn)
    requires FreeCount(q) >= 1
    ensures var (q', o) := Enqueue(q, t);
            (o.Replaced? || o.Placed?) && FreeCount(q') + 1 >= FreeCount(q)
  {
    hide Sum, FindKey, FindFree;
    FreePositive(q);
    var k, i := FindKey(q, KeyOf(t)), FindFree(q);
    var q' := Enqueue(q, t).0;
    if k < |q| {
      SumUpdate(q, k, q'[k], IsFree);
    } else {
      SumUpdate(q, i, Used(t), IsFree);
    }
  }

  /** Every request of the list waits, and nothing that waited before has lost its place. */
  ghost predicate AllWait(h: Hub, g: Hub, ts: seq<Txn>) {
    && UniqueKeys(g.queue)
    && Keys(h.queue) <= Keys(g.queue)
    && (forall i :: 0 <= i < |ts| ==>
          KeyOf(ts[i]) in Contents(g.queue) && IsRequest(Contents(g.queue)[KeyOf(ts[i])], ts[i]))
    && g.dropped == h.dropped
    && OnlySuperseded(h.log, g.log)
  }

  predicate DistinctKeys(ts: seq<Txn>) {
    forall i, j :: 0 <= i < j < |ts| ==> KeyOf(ts[i]) != KeyOf(ts[j])
  }

  lemma OfferWithRoom(h: Hub, t: Txn)
    requires UniqueKeys(h.queue) && FreeCount(h.queue) >= 1
    ensures var g := Offer(h, t);
            && AllWait(h, g, [t])
            && FreeCount(g.queue) + 1 >= FreeCount(h.queue)
            && (forall k :: k in Contents(h.queue) && k != KeyOf(t) ==>
                  k in Contents(g.queue) && Contents(g.queue)[k] == Contents(h.queue)[k])
  {
    hide UniqueKeys, FreeCount, Insert, Enqueue, OnlySuperseded, Keys;
    InsertWithRoom(h.(nextId := h.nextId + 1), t.(id := h.nextId));
  }

  lemma {:induction false} OfferAllWithRoom(h: Hub, ts: seq<Txn>)
    requires UniqueKeys(h.queue) && FreeCount(h.queue) >= |ts| && DistinctKeys(ts)
    ensures AllWait(h, OfferAll(h, ts), ts)
    ensures forall k :: k in Contents(h.queue) && (forall i :: 0 <= i < |ts| ==> KeyOf(ts[i]) != k) ==>
              k in Contents(OfferAll(h, ts).queue) && Contents(OfferAll(h, ts).queue)[k] == Contents(h.queue)[k]
    decreases |ts|
  {
    hide UniqueKeys, FreeCount, Offer, OnlySuperseded, Keys, KeyOf;
    if ts == [] {
      NothingSuperseded(h.log);
    } else {
      var g := Offer(h, ts[0]);
      OfferWithRoom(h, ts[0]);
      OfferAllWithRoom(g, ts[1..]);
      var k := OfferAll(g, ts[1..]);
      OnlySupersededTrans(h.log, g.log, k.log);
      assert [ts[0]][0] == ts[0];
      forall i | 0 <= i < |ts|
        ensures KeyOf(ts[i]) in Contents(k.queue) && IsRequest(Contents(k.queue)[KeyOf(ts[i])], ts[i])
      {
        if i > 0 {
          assert ts[i] == ts[1..][i - 1];
        }
      }
    }
  }

  lemma NothingSuperseded(log: seq<Ending>)
    ensures OnlySuperseded(log, log)
  {}

  // ----- the burst -----

  lemma OpcodesDistinct(a: ToggleTarget, b: ToggleTarget)
    requires a != b
    ensures ToggleGetOpcode(a) != ToggleGetOpcode(b)
  {}

  lemma OpcodeNotFixed(cfg: Config, t: ToggleTarget, i: nat)
    requires i < 5
    ensures FixedReads(cfg)[i].req != ToggleGetOpcode(t)
  {}

  lemma FixedDistinct(cfg: Config, i: nat, j: nat)
    requires i < j < 5
    ensures FixedReads(cfg)[i].req != FixedReads(cfg)[j].req
  {}

  ghost predicate ReadOf(u: Txn, cfg: Config, mask: bv16, n: nat) {
    exists t: ToggleTarget :: t < n && Selected(mask, t) && u == ToggleRead(cfg, t)
  }

  lemma {:induction false} ToggleReadsShape(cfg: Config, mask: bv16, n: nat)
    requires n <= TOGGLE_COUNT
    ensures var ts := ToggleReads(cfg, mask, n);
            && (forall i :: 0 <= i < |ts| ==> ReadOf(ts[i], cfg, mask, n))
            && (forall t: ToggleTarget :: t < n && Selected(mask, t) ==> ToggleRead(cfg, t) in ts)
            && DistinctKeys(ts)
    decreases n
  {
    hide Selected, ToggleRead, SelectedCount, KeyOf;
    if n > 0 {
      ToggleReadsShape(cfg, mask, n - 1);
      var ts := ToggleReads(cfg, mask, n - 1);
      if Selected(mask, n - 1) {
        var u := ToggleRead(cfg, n - 1);
        forall i | 0 <= i < |ts|
          ensures KeyOf(ts[i]) != KeyOf(u)
        {
          OtherTarget(ts[i], cfg, mask, n - 1);
        }
      }
    }
  }

  lemma OtherTarget(u: Txn, cfg: Config, mask: bv16, n: ToggleTarget)
    requires ReadOf(u, cfg, mask, n)
    ensures KeyOf(u) != KeyOf(ToggleRead(cfg, n))
  {
    hide Selected, ToggleGetOpcode;
    var t: ToggleTarget :| t < n && Selected(mask, t) && u == ToggleRead(cfg, t);
    OpcodesDistinct(t, n);
  }

  lemma BurstDistinct(h: Hub, cfg: Config)
    ensures DistinctKeys(BurstReads(h, cfg))
  {
    hide Selected, ToggleGetOpcode, TogglesToRead, SelectedCount, ToggleReads, FixedReads, ToggleRead;
    var mask := TogglesToRead(h);
    ToggleReadsShape(cfg, mask, TOGGLE_COUNT);
    var fs, ts := FixedReads(cfg), ToggleReads(cfg, mask, TOGGLE_COUNT);
    var all := BurstReads(h, cfg);
    forall i, j | 0 <= i < j < |all|
      ensures KeyOf(all[i]) != KeyOf(all[j])
    {
      if j < 5 {
        FixedDistinct(cfg, i, j);
        assert all[i] == fs[i] && all[j] == fs[j];
      } else if i < 5 {
        assert all[i] == fs[i] && all[j] == ts[j - 5];
        var t: ToggleTarget :| Selected(mask, t) && ts[j - 5] == ToggleRead(cfg, t);
        OpcodeNotFixed(cfg, t, i);
        ToggleReadReq(cfg, t);
      }
    }
  }

  lemma ToggleReadReq(cfg: Config, t: ToggleTarget)
    ensures ToggleRead(cfg, t).req == ToggleGetOpcode(t)
  {}

  /**
   When a refresh is consumed, every fixed read and every selected toggle read is waiting, everything that waited
   before still waits, and nothing was evicted, refused or dropped. Otherwise nothing changes at all.
   */
  lemma BurstWholeOrNothing(h: Hub, cfg: Config, now: u32)
    requires Inv(h)
    ensures var g := ServiceRefresh(h, cfg, now);
            if BurstFires(h, now) then
              && !g.refreshPending
              && AllWait(h, g, FixedReads(cfg) + ToggleReads(cfg, TogglesToRead(h), TOGGLE_COUNT))
              && (forall t: ToggleTarget :: Selected(TogglesToRead(h), t) ==> KeyOf(ToggleRead(cfg, t)) in Contents(g.queue))
            else g == h
  {
    hide Selected, TogglesToRead, ToggleReads, FixedReads, ToggleRead, AllMild, UniqueKeys, FindNext, Keys, Contents,
      FreeCount, OfferAll, OnlySuperseded, Reached, IsRequest;
    var mask := TogglesToRead(h);
    var ts := ToggleReads(cfg, mask, TOGGLE_COUNT);
    CountCoversLoop(mask);
    BurstDistinct(h, cfg);
    ToggleReadsShape(cfg, mask, TOGGLE_COUNT);
    if BurstFires(h, now) {
      var p := h.(refreshPending := false);
      var all := BurstReads(h, cfg);
      OfferAllWithRoom(p, all);
      var g := OfferAll(p, all);
      OfferAllFlag(p, all);
      forall t: ToggleTarget | Selected(mask, t)
        ensures KeyOf(ToggleRead(cfg, t)) in Contents(g.queue)
      {
        var i :| 0 <= i < |ts| && ts[i] == ToggleRead(cfg, t);
        assert all[5 + i] == ts[i];
      }
    }
  }

  lemma {:induction false} OfferAllFlag(h: Hub, ts: seq<Txn>)
    ensures OfferAll(h, ts).refreshPending == h.refreshPending
    decreases |ts|
  {
    hide Enqueue;
    if ts != [] {
      OfferAllFlag(Offer(h, ts[0]), ts[1..]);
    }
  }

  // ----- a pending refresh survives until its burst -----

  predicate Fired(h: Hub, cfg: Config, steps: seq<Step>)
    decreases |steps|
  {
    steps != [] &&
      ((steps[0].BurstDue? && BurstFires(h, steps[0].now)) || Fired(Apply(h, cfg, steps[0]), cfg, steps[1..]))
  }

  lemma {:induction false} PendingSurvives(h: Hub, cfg: Config, steps: seq<Step>)
    requires h.refreshPending && !Fired(h, cfg, steps)
    ensures Run(h, cfg, steps).refreshPending
    decreases |steps|
  {
    hide Apply, BurstFires;
    if steps != [] {
      StepFrame(h, cfg, steps[0]);
      PendingSurvives(Apply(h, cfg, steps[0]), cfg, steps[1..]);
    }
  }

  // ----- lost notifications -----

  /** The device numbers its events; the packet carries the number modulo 256. */
  function SeqByte(n: nat): byte { ToByte(n % 256) }

  ghost predicate Carries(packet: seq<byte>, n: nat) {
    |packet| >= NOTIFY_HEADER_LEN && packet[0] == NOTIFY_VERSION_V2 && packet[3] == SeqByte(n)
  }

  lemma NextOfSeqByte(m: nat)
    ensures Next8(SeqByte(m)) == SeqByte(m + 1)
  {
    hide ToByte, Value;
    ByteRoundTrip(m % 256);
    OneFurther(m);
  }

  lemma OneFurther(m: nat)
    ensures (m % 256 + 1) % 256 == (m + 1) % 256
  {}

  lemma SeqByteAgrees(m: nat, n: nat)
    requires m < n
    ensures SeqByte(n) == Next8(SeqByte(m)) <==> (n - m - 1) % 256 == 0
  {
    hide ToByte, Value, Next8;
    NextOfSeqByte(m);
    ByteRoundTrip(n % 256);
    ByteRoundTrip((m + 1) % 256);
    SameResidue(n, m + 1);
  }

  lemma SameResidue(n: nat, m: nat)
    requires m <= n
    ensures n % 256 == m % 256 <==> (n - m) % 256 == 0
  {}

  /** The last event seen was number `n`. */
  predicate Heard(h: Hub, n: nat) { h.notes.haveSeq && h.notes.lastSeq == SeqByte(n) }

  /**
   If `k` events were lost between two received ones, a gap is counted exactly when `k` is not a multiple of 256; a
   refresh is pending afterwards exactly if one was, a gap was seen, or the event itself asks for one; the queue, the
   outstanding request and the hub's mode are untouched.
   */
  lemma LossIsNoticed(h: Hub, cfg: Config, m: nat, k: nat, packet: seq<byte>, now: u32)
    requires Heard(h, m) && Carries(packet, m + 1 + k)
    ensures var g := HandleNotification(h, cfg, packet, now);
            && Heard(g, m + 1 + k)
            && g.notes.gaps == Add32(h.notes.gaps, if k % 256 != 0 then 1 else 0)
            && (g.refreshPending <==> h.refreshPending || k % 256 != 0 || AffectsParams(packet[1]))
            && g == h.(notes := g.notes, refreshPending := g.refreshPending, refreshDueAt := g.refreshDueAt)
  {
    hide Next8, SeqByte, Add32, AffectsParams;
    SeqByteAgrees(m, m + 1 + k);
  }

  /** The first packet after an offline spell sets the baseline and counts no gap, whatever its number. */
  lemma FirstIsBaseline(h: Hub, cfg: Config, n: nat, packet: seq<byte>, now: u32)
    requires !h.notes.haveSeq && Carries(packet, n)
    ensures var g := HandleNotification(h, cfg, packet, now); Heard(g, n) && g.notes.gaps == h.notes.gaps
  {
    hide Next8, SeqByte, Add32, AffectsParams;
    Add32Zero(h.notes.gaps);
  }

  predicate WellFormed(packet: seq<byte>) { |packet| >= NOTIFY_HEADER_LEN && packet[0] == NOTIFY_VERSION_V2 }

  /** The well-formed packets among the steps carry these event numbers, in this order. */
  ghost predicate Hears(steps: seq<Step>, numbers: seq<nat>)
    decreases |steps|
  {
    if steps == [] then numbers == []
    else if steps[0].Notification? && WellFormed(steps[0].packet) then
      numbers != [] && Carries(steps[0].packet, numbers[0]) && Hears(steps[1..], numbers[1..])
    else Hears(steps[1..], numbers)
  }

  predicate NeverOffline(h: Hub, cfg: Config, steps: seq<Step>)
    decreases |steps|
  {
    h.mode != Offline && (steps == [] || NeverOffline(Apply(h, cfg, steps[0]), cfg, steps[1..]))
  }

  ghost predicate Rising(last: nat, numbers: seq<nat>)
    decreases |numbers|
  {
    numbers == [] || (last < numbers[0] && Rising(numbers[0], numbers[1..]))
  }

  /** How many of the losses in a rising list are not a multiple of 256 events. */
  function Gaps(last: nat, numbers: seq<nat>): nat
    decreases |numbers|
  {
    if numbers == [] then 0
    else (if (numbers[0] - last - 1) % 256 != 0 then 1 else 0) + Gaps(numbers[0], numbers[1..])
  }

  function Last(last: nat, numbers: seq<nat>): nat { if numbers == [] then last else numbers[|numbers| - 1] }

  /** No other step touches the sequence check, unless it takes the hub offline. */
  lemma OtherStepsKeepNotes(h: Hub, cfg: Config, s: Step)
    requires !(s.Notification? && WellFormed(s.packet))
    ensures var g := Apply(h, cfg, s);
      g.notes.gaps == h.notes.gaps
      && ((g.notes.haveSeq == h.notes.haveSeq && g.notes.lastSeq == h.notes.lastSeq) || g.mode == Offline)
  {
    hide Apply;
    StepFrame(h, cfg, s);
    if s.Notification? {
      Ignored(h, cfg, s);
    }
  }

  lemma Ignored(h: Hub, cfg: Config, s: Step)
    requires s.Notification? && !WellFormed(s.packet)
    ensures Apply(h, cfg, s) == h
  {}

  /**
   Between two offline spells, whatever else happens, the counter counts exactly the losses that can be seen, modulo
   2^32, and a seen loss is followed by a refresh burst or leaves a refresh pending.
   */
  lemma {:induction false} GapsCounted(h: Hub, cfg: Config, last: nat, numbers: seq<nat>, steps: seq<Step>)
    requires Heard(h, last) && Rising(last, numbers) && Hears(steps, numbers) && NeverOffline(h, cfg, steps)
    ensures var g := Run(h, cfg, steps);
            && Heard(g, Last(last, numbers))
            && g.notes.gaps == Add32(h.notes.gaps, Gaps(last, numbers))
            && (Gaps(last, numbers) > 0 || h.refreshPending ==> g.refreshPending || Fired(h, cfg, steps))
    decreases |steps|
  {
    hide Apply, Carries, Add32, SeqByte, BurstFires, WellFormed;
    if steps == [] {
      Add32Zero(h.notes.gaps);
    } else {
      var s := steps[0];
      var g := Apply(h, cfg, s);
      if s.Notification? && WellFormed(s.packet) {
        var k := numbers[0] - last - 1;
        assert numbers[0] == last + 1 + k;
        Noticed(h, cfg, last, k, s);
        GapsCounted(g, cfg, numbers[0], numbers[1..], steps[1..]);
        Add32Twice(h.notes.gaps, if k % 256 != 0 then 1 else 0, Gaps(numbers[0], numbers[1..]));
      } else {
        OtherStepsKeepNotes(h, cfg, s);
        GapsCounted(g, cfg, last, numbers, steps[1..]);
        if h.refreshPending && !(s.BurstDue? && BurstFires(h, s.now)) {
          StepFrame(h, cfg, s);
        }
      }
    }
  }

  lemma Noticed(h: Hub, cfg: Config, m: nat, k: nat, s: Step)
    requires s.Notification? && Heard(h, m) && Carries(s.packet, m + 1 + k)
    ensures var g := Apply(h, cfg, s);
            && Heard(g, m + 1 + k)
            && g.notes.gaps == Add32(h.notes.gaps, if k % 256 != 0 then 1 else 0)
            && (h.refreshPending || k % 256 != 0 ==> g.refreshPending)
  {
    hide HandleNotification, Heard, Carries, AffectsParams, Add32;
    LossIsNoticed(h, cfg, m, k, s.packet, s.now);
  }
}
