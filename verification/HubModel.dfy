/**
 The transaction hub as a function on its state: one definition per hub operation, and `Apply` for one atomic step of
 a run. The class in Hub.dfy is proved against these definitions; the run theorems are proved about `Apply`.

 Two things are added to the program's fields so that runs can be described: `nextId`, which numbers transactions in
 the order they are offered, and `log`, which records how each one ended. Callbacks appear in `log` only.
 */
module HubModel {
  import opened Wire
  import opened Toggles
  import opened Queue
  import opened Clock32

  const OFFLINE_PROBE_INTERVAL_MS: nat := 5000
  const FAILURES_BEFORE_OFFLINE: nat := 5

  const NOTIFY_VERSION_V2: byte := 0x02
  const NOTIFY_HEADER_LEN: nat := 4

  predicate AffectsParams(event: byte) { event == 0x02 || event == 0x03 || event == 0x04 || event == 0x05 }

  // ----- state -----

  datatype Mode = Init | Probing | Idle | AwaitResp | Backoff | Offline

  /** Settings fixed before the hub runs; the configuration schema allows at most ten retries. */
  datatype Config = Config(
    requestTimeoutMs: u32, maxRetries: u8, backoffBaseMs: u32, refreshDebounceMs: u32, pollIntervalMs: u32)
  {
    predicate Valid() { maxRetries <= 10 }
  }

  datatype Fate = Ok(data: seq<byte>) | Rejected(status: byte) | Exhausted | Superseded | Dislodged | TurnedAway | Flushed

  datatype Ending = Ending(id: nat, fate: Fate)

  datatype Notes = Notes(haveSeq: bool, lastSeq: byte, active: bool, count: u32, gaps: u32)

  datatype Hub = Hub(
    queue: seq<Slot>, mode: Mode, current: Txn, hasCurrent: bool,
    sentAt: u32, backoffUntil: u32, lastProbeAt: u32, lastPollAt: u32,
    refreshPending: bool, refreshDueAt: u32, failures: u8, identified: bool,
    toggleRead: bv16, toggleUnsupported: bv16, notes: Notes, dropped: u32, timeouts: u32,
    nextId: nat, log: seq<Ending>)

  // ----- queue operations -----

  function Endings(o: Outcome, t: Txn): seq<Ending> {
    match o
    case Replaced(older) => [Ending(older.id, Superseded)]
    case Placed => []
    case Evicted(victim) => [Ending(victim.id, Dislodged)]
    case Refused => [Ending(t.id, TurnedAway)]
  }

  function Drops(o: Outcome): nat { if o.Evicted? || o.Refused? then 1 else 0 }

  /** `enqueue_` on a transaction that already has a number: the retry of one that was sent. */
  function Insert(h: Hub, t: Txn): Hub {
    var (q, o) := Enqueue(h.queue, t);
    h.(queue := q, dropped := Add32(h.dropped, Drops(o)), log := h.log + Endings(o, t))
  }

  /** `enqueue_` on a new transaction. */
  function Offer(h: Hub, t: Txn): Hub {
    Insert(h.(nextId := h.nextId + 1), t.(id := h.nextId))
  }

  function OfferAll(h: Hub, ts: seq<Txn>): Hub
    decreases |ts|
  {
    if ts == [] then h else OfferAll(Offer(h, ts[0]), ts[1..])
  }

  function SendNext(h: Hub, now: u32): Hub {
    var i := FindNext(h.queue);
    if i == -1 then h
    else h.(current := h.queue[i].txn, queue := h.queue[i := Slot.Free], hasCurrent := true, sentAt := now,
            mode := AwaitResp)
  }

  // ----- how a transaction ends -----

  function Limit(cfg: Config, t: Txn): u8 {
    if t.maxRetries == RETRIES_DEFAULT then cfg.maxRetries else t.maxRetries
  }

  function RetryShift(attempts: u8): nat {
    if attempts > 3 then 3 else if attempts == 0 then 0 else attempts - 1
  }

  function Pow2(n: nat): nat { if n == 0 then 1 else 2 * Pow2(n - 1) }

  /** The delay before attempt number `attempts + 1`, as 32-bit arithmetic computes it. */
  function BackoffMs(cfg: Config, attempts: u8): u32 {
    (cfg.backoffBaseMs * Pow2(RetryShift(attempts))) % TWO32
  }

  function FlushLog(q: seq<Slot>): seq<Ending> {
    if q == [] then []
    else (if q[0].Used? then [Ending(q[0].txn.id, Flushed)] else []) + FlushLog(q[1..])
  }

  function AllFree(n: nat): (q: seq<Slot>)
    ensures |q| == n
  {
    seq(n, _ => Slot.Free)
  }

  function GoOffline(h: Hub, now: u32): Hub {
    h.(mode := Offline, lastProbeAt := now, identified := false, notes := h.notes.(haveSeq := false),
       queue := AllFree(|h.queue|), log := h.log + FlushLog(h.queue))
  }

  function FailCurrent(h: Hub, now: u32): Hub {
    var f := (h.failures + 1) % 256;
    var g := h.(hasCurrent := false, dropped := Add32(h.dropped, 1), mode := Idle, failures := f);
    var k := if f >= FAILURES_BEFORE_OFFLINE then GoOffline(g, now) else g;
    k.(log := k.log + [Ending(h.current.id, Exhausted)])
  }

  function RetryOrDrop(h: Hub, cfg: Config, now: u32): Hub {
    if !h.hasCurrent then h.(mode := Idle)
    else
      var again := h.current.(attempts := (h.current.attempts + 1) % 256);
      var g := h.(current := again);
      if again.attempts > Limit(cfg, again) then FailCurrent(g, now)
      else
        Insert(g.(backoffUntil := Add32(now, BackoffMs(cfg, again.attempts)), mode := Backoff, hasCurrent := false),
               again)
  }

  function ExpectedResponse(t: Txn): byte { if t.frameType == SET_REQ then SET_RESP else GET_RESP }

  predicate Answers(h: Hub, frameType: byte) {
    h.mode == AwaitResp && h.hasCurrent && frameType == ExpectedResponse(h.current)
  }

  /** `handle_response_` up to the callback, which appears in the log as the ending of the transaction. */
  function HandleResponse(h: Hub, cfg: Config, frameType: byte, status: byte, data: seq<byte>, now: u32): Hub {
    if !Answers(h, frameType) then h
    else if status == STATUS_OK then
      h.(failures := 0, hasCurrent := false, mode := Idle, log := h.log + [Ending(h.current.id, Ok(data))])
    else if IsRetryable(status) then RetryOrDrop(h, cfg, now)
    else h.(hasCurrent := false, mode := Idle, log := h.log + [Ending(h.current.id, Rejected(status))])
  }

  // ----- timers and notifications -----

  function Timers(h: Hub, cfg: Config, now: u32): Hub {
    if h.mode == AwaitResp then
      if Elapsed(now, h.sentAt) >= h.current.timeoutMs
      then RetryOrDrop(h.(timeouts := Add32(h.timeouts, 1)), cfg, now) else h
    else if h.mode == Backoff && Reached(now, h.backoffUntil) then h.(mode := Idle)
    else h
  }

  function RequestRefresh(h: Hub, cfg: Config, now: u32): Hub {
    h.(refreshDueAt := Add32(now, cfg.refreshDebounceMs), refreshPending := true)
  }

  /** One more, truncated to a byte. */
  function Next8(b: byte): byte { ToByte((Value(b) + 1) % 256) }

  function HandleNotification(h: Hub, cfg: Config, packet: seq<byte>, now: u32): Hub {
    if |packet| < NOTIFY_HEADER_LEN || packet[0] != NOTIFY_VERSION_V2 then h
    else
      var n := h.notes;
      var gap := n.haveSeq && packet[3] != Next8(n.lastSeq);
      var g := h.(notes := Notes(true, packet[3], true, Add32(n.count, 1), Add32(n.gaps, if gap then 1 else 0)));
      if gap || AffectsParams(packet[1]) then RequestRefresh(g, cfg, now) else g
  }

  /** A notification, whatever it says, touches only its own bookkeeping and the refresh request. */
  lemma NotificationTouches(h: Hub, cfg: Config, packet: seq<byte>, now: u32)
    ensures var g := HandleNotification(h, cfg, packet, now);
      g == h.(notes := g.notes, refreshDueAt := g.refreshDueAt, refreshPending := g.refreshPending)
  {
    hide Add32, Next8, AffectsParams;
  }

  function HandleFrame(h: Hub, cfg: Config, frameType: byte, status: byte, data: seq<byte>, now: u32): Hub {
    if frameType == NOTIFY then HandleNotification(h, cfg, data, now)
    else HandleResponse(h, cfg, frameType, status, data, now)
  }

  // ----- probing and refreshing -----

  function Get(cfg: Config, req: byte, wlen: u16, onOk: OkHandler, priority: nat, onFail: FailHandler): Txn {
    Txn(0, req, GET_REQ, 0, wlen, [], 0, priority, RETRIES_DEFAULT, cfg.requestTimeoutMs, onOk, onFail)
  }

  function StartProbe(h: Hub, cfg: Config, now: u32): Hub {
    Offer(h.(lastProbeAt := now, mode := Idle), Get(cfg, 0x7F, 7, OnPlatform, 0, NoFailAction))
  }

  predicate Reprobes(h: Hub, now: u32) {
    !h.identified && (h.mode == Idle || h.mode == Offline) && Elapsed(now, h.lastProbeAt) >= OFFLINE_PROBE_INTERVAL_MS
  }

  function Reprobe(h: Hub, cfg: Config, now: u32): Hub {
    if Reprobes(h, now) then StartProbe(h, cfg, now) else h
  }

  /** What the platform reply does to the hub itself; it runs with the hub idle. */
  function Identify(h: Hub): Hub {
    if h.mode == Idle then h.(identified := true, failures := 0, toggleUnsupported := 0) else h
  }

  function ProbeReads(cfg: Config): seq<Txn> {
    [ Get(cfg, 0xF6, 8, OnUartConfig, 0, NoFailAction),
      Get(cfg, 0xF9, 8, OnOther(0), 0, NoFailAction),
      Get(cfg, 0xEF, 6, OnOther(1), 0, NoFailAction),
      Get(cfg, 0x69, 1, OnOther(2), 0, NoFailAction),
      Get(cfg, 0x6B, 1, OnOther(3), 0, NoFailAction),
      Get(cfg, 0x95, 7, OnOther(4), 0, NoFailAction) ]
  }

  function FixedReads(cfg: Config): (ts: seq<Txn>)
    ensures |ts| == 5
  {
    [ Get(cfg, 0xD3, 4, OnMasterVolume, 1, NoFailAction),
      Get(cfg, 0xDB, 4, OnUserVolume, 1, NoFailAction),
      Get(cfg, 0xE1, 1, OnInputSource, 1, NoFailAction),
      Get(cfg, 0xEE, 8, OnInputRate, 1, NoFailAction),
      Get(cfg, 0x9A, 1, OnPresetActive, 1, NoFailAction) ]
  }

  function ToggleRead(cfg: Config, t: ToggleTarget): Txn {
    Get(cfg, ToggleGetOpcode(t), 1, OnToggle(t), 1, OnToggleFailed(t))
  }

  /** The toggle reads issued by the first `n` turns of the loop. */
  function ToggleReads(cfg: Config, mask: bv16, n: nat): (ts: seq<Txn>)
    requires n <= TOGGLE_COUNT
    ensures |ts| == SelectedCount(mask, n)
  {
    if n == 0 then []
    else ToggleReads(cfg, mask, n - 1) + (if Selected(mask, n - 1) then [ToggleRead(cfg, n - 1)] else [])
  }

  function TogglesToRead(h: Hub): bv16 { Less(h.toggleRead, h.toggleUnsupported) }

  function BurstReads(h: Hub, cfg: Config): seq<Txn> {
    FixedReads(cfg) + ToggleReads(cfg, TogglesToRead(h), TOGGLE_COUNT)
  }

  predicate BurstFires(h: Hub, now: u32) {
    && h.refreshPending && Reached(now, h.refreshDueAt)
    && FreeCount(h.queue) >= 5 + Ones(TogglesToRead(h), 16)
  }

  function ServiceRefresh(h: Hub, cfg: Config, now: u32): Hub {
    if BurstFires(h, now) then OfferAll(h.(refreshPending := false), BurstReads(h, cfg)) else h
  }

  function Poll(h: Hub, cfg: Config, now: u32): Hub {
    if cfg.pollIntervalMs != 0 && !h.notes.active && h.mode == Idle && Elapsed(now, h.lastPollAt) >= cfg.pollIntervalMs
    then RequestRefresh(h.(lastPollAt := now), cfg, now) else h
  }

  /** `on_platform_`: a device has answered the probe. The preset and spectrum machines restart separately. */
  function PlatformReply(h: Hub, cfg: Config, data: seq<byte>, now: u32): Hub {
    if |data| < 2 then h else RequestRefresh(OfferAll(Identify(h), ProbeReads(cfg)), cfg, now)
  }

  // ----- steps and runs -----

  datatype Step =
    | Submit(txn: Txn)                 // enqueue_ by a setter, a handler or a service
    | Refresh(now: u32)                // request_refresh() by a setter
    | Identified
    | NotifyEnabled(on: bool)          // the interface configuration reply
    | ToggleAsked(target: ToggleTarget)
    | ToggleFailed(target: ToggleTarget, status: byte)  // its read ended without success
    | Response(frameType: byte, status: byte, data: seq<byte>, now: u32)
    | Notification(packet: seq<byte>, now: u32)
    | TimersDue(now: u32)
    | ReprobeDue(now: u32)
    | BurstDue(now: u32)
    | PollDue(now: u32)
    | Send(now: u32)

  function Apply(h: Hub, cfg: Config, s: Step): Hub {
    match s
    case Submit(t) => Offer(h, t.(attempts := 0))
    case Refresh(now) => RequestRefresh(h, cfg, now)
    case Identified => Identify(h)
    case NotifyEnabled(on) => h.(notes := h.notes.(active := on))
    case ToggleAsked(t) => h.(toggleRead := Or(h.toggleRead, ToggleBit(t)))
    case ToggleFailed(t, st) =>
      if st == LINK_FAILED then h else h.(toggleUnsupported := Or(h.toggleUnsupported, ToggleBit(t)))
    case Response(ft, st, data, now) => HandleResponse(h, cfg, ft, st, data, now)
    case Notification(p, now) => HandleNotification(h, cfg, p, now)
    case TimersDue(now) => Timers(h, cfg, now)
    case ReprobeDue(now) => Reprobe(h, cfg, now)
    case BurstDue(now) => ServiceRefresh(h, cfg, now)
    case PollDue(now) => Poll(h, cfg, now)
    case Send(now) => if h.mode == Idle then SendNext(h, now) else h
  }

  function Run(h: Hub, cfg: Config, steps: seq<Step>): Hub
    decreases |steps|
  {
    if steps == [] then h else Run(Apply(h, cfg, steps[0]), cfg, steps[1..])
  }

  lemma {:induction false} RunConcat(h: Hub, cfg: Config, a: seq<Step>, b: seq<Step>)
    ensures Run(h, cfg, a + b) == Run(Run(h, cfg, a), cfg, b)
    decreases |a|
  {
    hide Apply;
    if a == [] {
      assert a + b == b;
    } else {
      assert (a + b)[1..] == a[1..] + b;
      RunConcat(Apply(h, cfg, a[0]), cfg, a[1..], b);
    }
  }

  lemma RunOne(h: Hub, cfg: Config, s: Step)
    ensures Run(h, cfg, [s]) == Apply(h, cfg, s)
  {
    hide Apply;
    assert [s][1..] == [];
  }

  function PowerOn(cfg: Config): Hub {
    Hub(AllFree(QUEUE_DEPTH), Init, Get(cfg, 0, 0, NoAction, 1, NoFailAction), false, 0, 0, 0, 0, false, 0, 0, false,
        ToggleBit(0), 0, Notes(false, 0, false, 0, 0), 0, 0, 0, [])
  }

  /** Power-on, then `setup()`. */
  function Boot(cfg: Config, now: u32): Hub {
    StartProbe(PowerOn(cfg), cfg, now)
  }
}
