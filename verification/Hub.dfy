/** The hub as the program runs it: fields updated in place, loops over the slots, proved against HubModel. */
module HubObject {
  import opened Wire
  import opened Toggles
  import opened Queue
  import opened Clock32
  import opened HubModel
  import opened Transport
  import opened Progress
  import opened Sending

  predicate Sendable(s: Slot) { s.Used? ==> |s.txn.payload| <= MAX_TX_PAYLOAD }

  class DSPiHub {
    const cfg: Config
    const queue: array<Slot>
    var mode: Mode
    var current: Txn
    var hasCurrent: bool
    var sentAt: u32
    var backoffUntil: u32
    var lastProbeAt: u32
    var lastPollAt: u32
    var refreshPending: bool
    var refreshDueAt: u32
    var failures: u8
    var identified: bool
    var toggleRead: bv16
    var toggleUnsupported: bv16
    var notes: Notes
    var dropped: u32
    var timeouts: u32
    var nextId: nat
    ghost var log: seq<Ending>

    ghost function View(): Hub
      reads this, queue
    {
      Hub(queue[..], mode, current, hasCurrent, sentAt, backoffUntil, lastProbeAt, lastPollAt, refreshPending,
          refreshDueAt, failures, identified, toggleRead, toggleUnsupported, notes, dropped, timeouts, nextId, log)
    }

    /** No request is too long for the transmit buffer. */
    ghost predicate Valid()
      reads this, queue
    {
      && queue.Length == QUEUE_DEPTH
      && (forall i :: 0 <= i < queue.Length ==> Sendable(queue[i]))
      && |current.payload| <= MAX_TX_PAYLOAD
    }

    constructor (cfg: Config)
      ensures Valid() && fresh(queue) && this.cfg == cfg
      ensures View() == PowerOn(cfg)
    {
      this.cfg := cfg;
      queue := new Slot[QUEUE_DEPTH](_ => Slot.Free);
      mode, current, hasCurrent := Init, Get(cfg, 0, 0, NoAction, 1, NoFailAction), false;
      sentAt, backoffUntil, lastProbeAt, lastPollAt := 0, 0, 0, 0;
      refreshPending, refreshDueAt, failures, identified := false, 0, 0, false;
      toggleRead, toggleUnsupported, notes := ToggleBit(0), 0, Notes(false, 0, false, 0, 0);
      dropped, timeouts, nextId, log := 0, 0, 0, [];
      new;
      assert queue[..] == AllFree(QUEUE_DEPTH);
    }

    // ----- the queue -----

    method FindSameKey(k: Key) returns (i: nat)
      ensures i == FindKey(queue[..], k)
    {
      i := 0;
      while i < queue.Length
        invariant i <= queue.Length
        invariant forall j :: 0 <= j < i ==> !Holds(queue[..][j], k)
      {
        if queue[i].Used? && KeyOf(queue[i].txn) == k {
          assert Holds(queue[..][i], k);
          return;
        }
        assert !Holds(queue[..][i], k);
        i := i + 1;
      }
    }

    method FindFreeSlot() returns (i: nat)
      ensures i == FindFree(queue[..])
    {
      i := 0;
      while i < queue.Length
        invariant i <= queue.Length
        invariant forall j :: 0 <= j < i ==> queue[..][j].Used?
      {
        if queue[i].Free? {
          assert queue[..][i].Free?;
          return;
        }
        assert queue[..][i].Used?;
        i := i + 1;
      }
    }

    method FindLeastImportant() returns (v: nat)
      requires queue.Length > 0 && Full(queue[..])
      ensures v == FindVictim(queue[..])
    {
      hide FindVictim;
      ghost var q := queue[..];
      v := 0;
      for i := 1 to queue.Length
        invariant v < i
        invariant forall j :: 0 <= j < i ==> q[j].txn.priority <= q[v].txn.priority
        invariant forall j :: 0 <= j < v ==> q[j].txn.priority < q[v].txn.priority
      {
        assert queue[i] == q[i] && queue[v] == q[v];
        if queue[i].txn.priority > queue[v].txn.priority {
          v := i;
        }
      }
      VictimUnique(q, v, FindVictim(q));
    }

    method FindNextSlot() returns (best: int)
      ensures best == FindNext(queue[..])
    {
      hide FindNext;
      ghost var q := queue[..];
      best := -1;
      for i := 0 to queue.Length
        invariant IsNext(q[..i], best)
      {
        assert queue[i] == q[i] && q[..i + 1] == q[..i] + [q[i]];
        assert best != -1 ==> queue[best] == q[best];
        if queue[i].Used? {
          if best < 0 || queue[i].txn.priority < queue[best].txn.priority {
            best := i;
          }
        }
      }
      assert q[..queue.Length] == q;
      NextUnique(q, best, FindNext(q));
    }

    method QueueFree() returns (n: nat)
      ensures n == FreeCount(queue[..])
    {
      n := 0;
      ghost var q := queue[..];
      for i := 0 to queue.Length
        invariant n == FreeCount(q[..i])
      {
        assert queue[i] == q[i];
        FreeSnoc(q, i);
        if queue[i].Free? {
          n := n + 1;
        }
      }
      assert q[..queue.Length] == q;
    }

    /** `enqueue_`: coalesce, else place, else evict the least important entry, else refuse. */
    method Enqueue(t: Txn) returns (accepted: bool)
      requires Valid() && |t.payload| <= MAX_TX_PAYLOAD
      modifies this`dropped, this`log, queue
      ensures Valid()
      ensures View() == Insert(old(View()), t)
      ensures accepted <==> !Queue.Enqueue(old(queue[..]), t).1.Refused?
    {
      hide FindKey, FindFree, FindVictim, Add32;
      ghost var q, o := queue[..], Queue.Enqueue(queue[..], t).1;
      log := log + Endings(o, t);
      Add32Zero(dropped);
      var i := FindSameKey(KeyOf(t));
      if i < queue.Length {
        var attempts := queue[i].txn.attempts;
        queue[i] := Used(t.(attempts := Max(attempts, t.attempts)));
        assert queue[..] == q[i := Used(t.(attempts := Max(attempts, t.attempts)))];
        return true;
      }
      i := FindFreeSlot();
      if i < queue.Length {
        queue[i] := Used(t);
        assert queue[..] == q[i := Used(t)];
        return true;
      }
      accepted := EvictOrRefuse(t);
    }

    method EvictOrRefuse(t: Txn) returns (accepted: bool)
      requires Valid() && |t.payload| <= MAX_TX_PAYLOAD && Full(queue[..])
      modifies this`dropped, queue
      ensures Valid()
      ensures dropped == Add32(old(dropped), 1)
      ensures var q := old(queue[..]); var v := FindVictim(q);
              accepted == (q[v].txn.priority >= t.priority) && queue[..] == if accepted then q[v := Used(t)] else q
    {
      hide FindVictim, Add32;
      ghost var q := queue[..];
      var victim := FindLeastImportant();
      accepted := queue[victim].txn.priority >= t.priority;
      if accepted {
        queue[victim] := Used(t);
        assert queue[..] == q[victim := Used(t)];
      }
      dropped := Add32(dropped, 1);
    }

    /** A new transaction gets the next number. */
    method Submit(t: Txn) returns (accepted: bool)
      requires Valid() && |t.payload| <= MAX_TX_PAYLOAD
      modifies this`dropped, this`log, this`nextId, queue
      ensures Valid()
      ensures View() == Offer(old(View()), t)
      ensures accepted <==> !Queue.Enqueue(old(queue[..]), t.(id := old(nextId))).1.Refused?
    {
      hide Insert;
      var u := t.(id := nextId);
      nextId := nextId + 1;
      ghost var before := View();
      assert before == old(View()).(nextId := old(nextId) + 1);
      accepted := Enqueue(u);
    }

    // ----- sending -----

    /** `send_next_`: the most important entry becomes outstanding and its frame goes to the driver. */
    method SendNextRequest(now: u32) returns (frame: seq<byte>)
      requires Valid()
      modifies this`current, this`hasCurrent, this`sentAt, this`mode, queue
      ensures Valid()
      ensures View() == SendNext(old(View()), now)
      ensures frame == if FindNext(old(queue[..])) == -1 then [] else FrameOfRequest(current)
      ensures FindNext(old(queue[..])) != -1 ==> LaidOut(frame, current) && ReadAs(frame, current)
    {
      hide FindNext, FrameOfRequest, ReadAs, LaidOut, ParseRequest, Describes;
      ghost var q := queue[..];
      var i := FindNextSlot();
      if i < 0 {
        return [];
      }
      TakeSlot(i);
      hasCurrent := true;
      frame := Transmit();
      RequestLayout(current);
      ghost var r := SentIsRead(current);
      ReadBack(frame, current, r);
      sentAt := now;
      mode := AwaitResp;
    }

    method TakeSlot(i: nat)
      requires Valid() && i < queue.Length && queue[i].Used?
      modifies this`current, queue
      ensures Valid()
      ensures current == old(queue[i]).txn
      ensures queue[..] == old(queue[..])[i := Slot.Free]
    {
      assert Sendable(queue[i]);
      current := queue[i].txn;
      queue[i] := Slot.Free;
    }

    /** Serialises the outstanding request for the driver. */
    method Transmit() returns (frame: seq<byte>)
      requires |current.payload| <= MAX_TX_PAYLOAD
      ensures frame == FrameOfRequest(current)
    {
      hide EncodeRequest;
      var buffer := new byte[MAX_TX_FRAME](_ => 0);
      var n := BuildRequestFrame(buffer, WireRequest(current));
      frame := buffer[..n];
    }

    // ----- endings -----

    method ClearSlots()
      modifies queue
      ensures queue[..] == AllFree(queue.Length)
      ensures forall j :: 0 <= j < queue.Length ==> Sendable(queue[j])
    {
      for i := 0 to queue.Length
        invariant forall j :: 0 <= j < i ==> queue[j].Free?
      {
        queue[i] := Slot.Free;
      }
    }

    method GoOffline(now: u32)
      requires Valid()
      modifies this`mode, this`lastProbeAt, this`identified, this`notes, this`log, queue
      ensures Valid()
      ensures View() == HubModel.GoOffline(old(View()), now)
    {
      hide FlushLog, AllFree, Sendable;
      Disconnect(now);
      log := log + FlushLog(queue[..]);
      ClearSlots();
    }

    method Disconnect(now: u32)
      requires Valid()
      modifies this`mode, this`lastProbeAt, this`identified, this`notes
      ensures Valid()
      ensures View() == old(View()).(mode := Offline, lastProbeAt := now, identified := false,
                                     notes := old(notes).(haveSeq := false))
    {
      mode := Offline;
      lastProbeAt := now;
      identified := false;
      notes := notes.(haveSeq := false);
    }

    method FailCurrent(now: u32)
      requires Valid()
      modifies this`mode, this`lastProbeAt, this`identified, this`notes, this`log, this`hasCurrent, this`dropped,
        this`failures, queue
      ensures Valid()
      ensures View() == HubModel.FailCurrent(old(View()), now)
    {
      hide HubModel.GoOffline, Add32;
      GiveUp();
      if failures >= FAILURES_BEFORE_OFFLINE {
        GoOffline(now);
      }
      ReportFailure();
    }

    method GiveUp()
      requires Valid()
      modifies this`hasCurrent, this`dropped, this`mode, this`failures
      ensures Valid()
      ensures View() == old(View()).(hasCurrent := false, dropped := Add32(old(dropped), 1), mode := Idle,
                                     failures := (old(failures) + 1) % 256)
    {
      hide Add32;
      hasCurrent := false;
      dropped := Add32(dropped, 1);
      mode := Idle;
      failures := (failures + 1) % 256;
    }

    method ReportFailure()
      requires Valid()
      modifies this`log
      ensures Valid()
      ensures View() == old(View()).(log := old(log) + [Ending(old(current).id, Exhausted)])
    {
      log := log + [Ending(current.id, Exhausted)];
    }

    method RetryOrDrop(now: u32)
      requires Valid()
      modifies this, queue
      ensures Valid()
      ensures View() == HubModel.RetryOrDrop(old(View()), cfg, now)
    {
      hide HubModel.FailCurrent, Insert, BackoffMs, Add32;
      if !hasCurrent {
        mode := Idle;
        return;
      }
      current := current.(attempts := (current.attempts + 1) % 256);
      var limit := if current.maxRetries == RETRIES_DEFAULT then cfg.maxRetries else current.maxRetries;
      assert View() == old(View()).(current := current);
      if current.attempts > limit {
        FailCurrent(now);
      } else {
        Requeue(now);
      }
    }

    /** The retry: the outstanding request goes back to the queue with its attempts and priority. */
    method Requeue(now: u32)
      requires Valid()
      modifies this`backoffUntil, this`mode, this`hasCurrent, this`dropped, this`log, queue
      ensures Valid()
      ensures var h := old(View());
              View() == Insert(h.(backoffUntil := Add32(now, BackoffMs(cfg, h.current.attempts)), mode := Backoff,
                                  hasCurrent := false), h.current)
    {
      hide Insert, BackoffMs, Add32;
      backoffUntil := Add32(now, BackoffMs(cfg, current.attempts));
      mode := Backoff;
      var again := current;
      hasCurrent := false;
      assert View() == old(View()).(backoffUntil := backoffUntil, mode := Backoff, hasCurrent := false);
      var accepted := Enqueue(again);
    }

    method HandleResponse(frameType: byte, status: byte, data: seq<byte>, now: u32)
      requires Valid()
      modifies this, queue
      ensures Valid()
      ensures View() == HubModel.HandleResponse(old(View()), cfg, frameType, status, data, now)
    {
      hide HubModel.RetryOrDrop, IsRetryable;
      if mode != AwaitResp || !hasCurrent {
        return;
      }
      var expected := if current.frameType == SET_REQ then SET_RESP else GET_RESP;
      if frameType != expected {
        return;
      }
      if status == STATUS_OK {
        failures := 0;
        hasCurrent := false;
        mode := Idle;
        log := log + [Ending(current.id, Ok(data))];
        return;
      }
      if IsRetryable(status) {
        RetryOrDrop(now);
        return;
      }
      hasCurrent := false;
      mode := Idle;
      log := log + [Ending(current.id, Rejected(status))];
    }

    // ----- notifications, timers, probing, refreshing -----

    method RequestRefresh(now: u32)
      requires Valid()
      modifies this`refreshDueAt, this`refreshPending
      ensures Valid()
      ensures View() == HubModel.RequestRefresh(old(View()), cfg, now)
    {
      refreshDueAt := Add32(now, cfg.refreshDebounceMs);
      refreshPending := true;
    }

    method HandleNotification(packet: seq<byte>, now: u32)
      requires Valid()
      modifies this`notes, this`refreshDueAt, this`refreshPending
      ensures Valid()
      ensures View() == HubModel.HandleNotification(old(View()), cfg, packet, now)
    {
      hide Add32, Next8, AffectsParams;
      if |packet| < NOTIFY_HEADER_LEN || packet[0] != NOTIFY_VERSION_V2 {
        return;
      }
      Add32Zero(notes.gaps);
      notes := notes.(count := Add32(notes.count, 1), active := true);
      if notes.haveSeq && packet[3] != Next8(notes.lastSeq) {
        notes := notes.(gaps := Add32(notes.gaps, 1));
        RequestRefresh(now);
      }
      notes := notes.(lastSeq := packet[3], haveSeq := true);
      if AffectsParams(packet[1]) {
        RequestRefresh(now);
      }
    }

    /** Dispatches on the type of the frame, whatever the hub is doing. */
    method HandleFrame(frameType: byte, status: byte, data: seq<byte>, now: u32)
      requires Valid()
      modifies this, queue
      ensures Valid()
      ensures View() == HubModel.HandleFrame(old(View()), cfg, frameType, status, data, now)
    {
      hide HubModel.HandleNotification, HubModel.HandleResponse;
      if frameType == NOTIFY {
        HandleNotification(data, now);
        return;
      }
      HandleResponse(frameType, status, data, now);
    }

    method Timers(now: u32)
      requires Valid()
      modifies this, queue
      ensures Valid()
      ensures View() == HubModel.Timers(old(View()), cfg, now)
    {
      hide HubModel.RetryOrDrop, Add32, Elapsed;
      match mode {
        case AwaitResp =>
          if Elapsed(now, sentAt) >= current.timeoutMs {
            timeouts := Add32(timeouts, 1);
            RetryOrDrop(now);
          }
        case Backoff =>
          if Reached(now, backoffUntil) {
            mode := Idle;
          }
        case _ =>
      }
    }

    method StartProbe(now: u32)
      requires Valid()
      modifies this`mode, this`lastProbeAt, this`dropped, this`log, this`nextId, queue
      ensures Valid()
      ensures View() == HubModel.StartProbe(old(View()), cfg, now)
    {
      hide Insert;
      mode := Probing;
      lastProbeAt := now;
      mode := Idle;
      assert View() == old(View()).(lastProbeAt := now, mode := Idle);
      var accepted := Submit(Get(cfg, 0x7F, 7, OnPlatform, 0, NoFailAction));
    }

    method ProbeIsDue(now: u32) returns (due: bool)
      ensures due == Reprobes(View(), now)
    {
      due := !identified && (mode == Idle || mode == Offline) && Elapsed(now, lastProbeAt) >= OFFLINE_PROBE_INTERVAL_MS;
    }

    method Reprobe(now: u32)
      requires Valid()
      modifies this, queue
      ensures Valid()
      ensures View() == HubModel.Reprobe(old(View()), cfg, now)
    {
      hide HubModel.StartProbe, Elapsed;
      if !identified && (mode == Idle || mode == Offline) && Elapsed(now, lastProbeAt) >= OFFLINE_PROBE_INTERVAL_MS {
        StartProbe(now);
      }
    }

    method EnqueueAll(ts: seq<Txn>)
      requires Valid() && forall i :: 0 <= i < |ts| ==> |ts[i].payload| <= MAX_TX_PAYLOAD
      modifies this`dropped, this`log, this`nextId, queue
      ensures Valid()
      ensures View() == OfferAll(old(View()), ts)
    {
      hide Offer;
      for i := 0 to |ts|
        invariant Valid()
        invariant OfferAll(View(), ts[i..]) == OfferAll(old(View()), ts)
      {
        assert ts[i..][1..] == ts[i + 1..];
        var accepted := Submit(ts[i]);
      }
    }

    /** The refresh part of the loop: wait for room for the whole burst, then issue it. */
    method ServiceRefresh(now: u32)
      requires Valid()
      modifies this, queue
      ensures Valid()
      ensures View() == HubModel.ServiceRefresh(old(View()), cfg, now)
    {
      hide OfferAll, Reached, Sum, Ones;
      if refreshPending && Reached(now, refreshDueAt) {
        var toggles := Less(toggleRead, toggleUnsupported);
        var free := QueueFree();
        var count := ToggleMaskCount(toggles);
        if free >= 5 + count {
          refreshPending := false;
          NoPayloads(cfg, toggles, TOGGLE_COUNT);
          EnqueueAll(FixedReads(cfg) + ToggleReads(cfg, toggles, TOGGLE_COUNT));
        }
      }
    }

    method Poll(now: u32)
      requires Valid()
      modifies this`lastPollAt, this`refreshDueAt, this`refreshPending
      ensures Valid()
      ensures View() == HubModel.Poll(old(View()), cfg, now)
    {
      hide Elapsed, Add32;
      if cfg.pollIntervalMs != 0 && !notes.active && mode == Idle && Elapsed(now, lastPollAt) >= cfg.pollIntervalMs {
        lastPollAt := now;
        RequestRefresh(now);
      }
    }

    /** The platform reply, handled right after the response that carried it. */
    method HandlePlatform(data: seq<byte>, now: u32)
      requires Valid() && mode == Idle
      modifies this, queue
      ensures Valid()
      ensures View() == PlatformReply(old(View()), cfg, data, now)
    {
      hide OfferAll, Add32;
      if |data| < 2 {
        return;
      }
      identified := true;
      failures := 0;
      toggleUnsupported := 0;
      assert View() == Identify(old(View()));
      EnqueueAll(ProbeReads(cfg));
      RequestRefresh(now);
    }

    /** One pass of the main loop after reception; `extra` is what the preset and spectrum services enqueue in it. */
    method Loop(now: u32, extra: seq<Txn>) returns (frame: seq<byte>)
      requires Valid() && forall i :: 0 <= i < |extra| ==> |extra[i].payload| <= MAX_TX_PAYLOAD
      modifies this, queue
      ensures Valid()
      ensures View() == Pass(old(View()), cfg, now, extra)
      ensures frame == FrameOf(BeforeSend(old(View()), cfg, now, extra), View())
      ensures frame != [] ==> LaidOut(frame, current) && ReadAs(frame, current)
    {
      hide *;
      ghost var h := View();
      Timers(now);
      Reprobe(now);
      frame := Produce(now, extra);
      PassIs(h, cfg, now, extra);
      ModeOfView();
      WrittenIsRead(BeforeSend(h, cfg, now, extra), View());
    }

    /** The producers of the pass, and the transmission. */
    method Produce(now: u32, extra: seq<Txn>) returns (frame: seq<byte>)
      requires Valid() && forall i :: 0 <= i < |extra| ==> |extra[i].payload| <= MAX_TX_PAYLOAD
      modifies this, queue
      ensures Valid()
      ensures var ready := OfferAll(HubModel.Poll(HubModel.ServiceRefresh(old(View()), cfg, now), cfg, now), extra);
        View() == (if ready.mode == Idle then SendNext(ready, now) else ready) && frame == FrameOf(ready, View())
    {
      hide *;
      ServiceRefresh(now);
      Poll(now);
      EnqueueAll(extra);
      ModeOfView();
      ghost var ready := View();
      frame := [];
      if mode == Idle {
        frame := SendNextRequest(now);
      }
      ModeOfView();
      FrameIs(ready, View(), frame);
    }

    lemma ModeOfView()
      ensures View().mode == mode && View().queue == queue[..] && View().current == current
    {}
  }

  /** What a pass writes to the wire: the encoding of the request it has just made outstanding, or nothing. */
  function FrameOf(ready: Hub, sent: Hub): seq<byte> {
    if ready.mode == Idle && Waiting(ready) then FrameOfRequest(sent.current) else []
  }

  /** What a pass writes is read by the other side as the request that is now outstanding. */
  lemma WrittenIsRead(ready: Hub, sent: Hub)
    ensures FrameOf(ready, sent) != [] ==>
      LaidOut(FrameOf(ready, sent), sent.current) && ReadAs(FrameOf(ready, sent), sent.current)
    ensures FrameOf(ready, sent) == [] <==> !(ready.mode == Idle && Waiting(ready))
  {
    hide FindNext, FrameOfRequest, ReadAs;
    RequestLayout(sent.current);
    var r := SentIsRead(sent.current);
    ReadBack(FrameOfRequest(sent.current), sent.current, r);
  }

  lemma FrameIs(ready: Hub, sent: Hub, frame: seq<byte>)
    requires ready.mode != Idle ==> frame == []
    requires ready.mode == Idle ==>
      frame == if FindNext(ready.queue) == -1 then [] else FrameOfRequest(sent.current)
    ensures frame == FrameOf(ready, sent)
  {
    hide FrameOfRequest, FindNext;
  }

  lemma PassIs(h: Hub, cfg: Config, now: u32, extra: seq<Txn>)
    ensures var ready := OfferAll(HubModel.Poll(HubModel.ServiceRefresh(
                                    HubModel.Reprobe(HubModel.Timers(h, cfg, now), cfg, now), cfg, now), cfg, now), extra);
            BeforeSend(h, cfg, now, extra) == ready
            && Pass(h, cfg, now, extra) == if ready.mode == Idle then SendNext(ready, now) else ready
  {
    hide HubModel.Timers, HubModel.Reprobe, HubModel.ServiceRefresh, HubModel.Poll, OfferAll, SendNext;
  }

  lemma VictimUnique(q: seq<Slot>, v: nat, w: nat)
    requires Full(q) && IsVictim(q, v) && IsVictim(q, w)
    ensures v == w
  {
    VictimNotAfter(q, v, w);
    VictimNotAfter(q, w, v);
  }

  lemma VictimNotAfter(q: seq<Slot>, v: nat, w: nat)
    requires Full(q) && IsVictim(q, v) && IsVictim(q, w)
    ensures v >= w
  {
    assert q[w].Used? && q[v].Used?;
    assert q[w].txn.priority <= q[v].txn.priority;
  }

  lemma NextUnique(q: seq<Slot>, r: int, s: int)
    requires IsNext(q, r) && IsNext(q, s)
    ensures r == s
  {
    if r == -1 {
      NothingNext(q, s);
    } else if s == -1 {
      NothingNext(q, r);
    } else {
      NotAfter(q, r, s);
      NotAfter(q, s, r);
    }
  }

  lemma NothingNext(q: seq<Slot>, s: int)
    requires IsNext(q, -1) && IsNext(q, s)
    ensures s == -1
  {}

  lemma NotAfter(q: seq<Slot>, r: int, s: int)
    requires IsNext(q, r) && IsNext(q, s) && r >= 0 && s >= 0
    ensures r >= s
  {}

  lemma FreeSnoc(q: seq<Slot>, i: nat)
    requires i < |q|
    ensures FreeCount(q[..i + 1]) == FreeCount(q[..i]) + IsFree(q[i])
  {
    SumSnoc(q[..i], q[i], IsFree);
    assert q[..i + 1] == q[..i] + [q[i]];
  }

  lemma {:induction false} SumSnoc(q: seq<Slot>, s: Slot, f: Slot -> nat)
    ensures Sum(q + [s], f) == Sum(q, f) + f(s)
  {
    if q == [] {
      assert q + [s] == [s];
    } else {
      assert (q + [s])[1..] == q[1..] + [s];
      SumSnoc(q[1..], s, f);
    }
  }

  lemma {:induction false} NoPayloads(cfg: Config, mask: bv16, n: nat)
    requires n <= TOGGLE_COUNT
    ensures forall i :: 0 <= i < |ToggleReads(cfg, mask, n)| ==> ToggleReads(cfg, mask, n)[i].payload == []
  {
    hide Selected, SelectedCount;
    if n > 0 {
      NoPayloads(cfg, mask, n - 1);
    }
  }
}
