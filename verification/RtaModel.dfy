/**
 The spectrum analyser's client as a function on its state: bring-up, streaming, stopping. `trace` records every update
 handed to the display, with the number of the streaming session it belongs to.
 */
module RtaModel {
  import opened Wire
  import opened Clock32
  import opened RoundRobin
  import opened RtaWire

  datatype Phase =
    | Disabled | Unsupported | NeedCaps | NeedCentres | ReadConfig | SetConfig | VerifyConfig | Streaming | Stopping

  datatype Update = Update(frame: BandFrame, levelZero: byte, live: bool)

  datatype Shown = Shown(update: Update, epoch: nat)

  datatype Settings = Settings(intervalMs: u32, statusIntervalMs: u32, staleMs: u32)

  type SeqTable = t: seq<byte> | |t| == CHANNELS witness seq(CHANNELS, _ => 0)

  /** What the client knows about the display. */
  datatype Display = Display(
    live: bool, last: Update, lastSeq: SeqTable, seqValid: bv16, frames: u32, stale: u32, epoch: nat, trace: seq<Shown>)

  datatype Rta = Rta(
    phase: Phase, configured: bool, enabled: bool, busy: bool, nextDue: u32, statusDue: u32,
    desired: RtaConfig, applied: RtaConfig, caps: RtaCaps, capsValid: bool,
    centres: seq<bv16>, chunk: nat, pollMask: bv16, pollCursor: Channel, dropped: u32, display: Display)

  function Advance(r: Rta, next: Phase, gap: u32, now: u32): Rta {
    r.(phase := next, busy := false, nextDue := Add32(now, gap))
  }

  // ----- bring-up -----

  predicate Outside(b: byte, low: byte, high: byte) { b < low || b > high }

  /** An FFT size the device does not offer is replaced by the device's default. */
  function Settle(d: RtaConfig, caps: RtaCaps): RtaConfig {
    if Outside(d.fftOrder, caps.orderMin, caps.orderMax) then d.(fftOrder := caps.orderDefault) else d
  }

  function WithCaps(r: Rta, c: RtaCaps): Rta {
    var caps := c.(maxBands := Least(c.maxBands, MAX_BANDS));
    r.(caps := caps, capsValid := true, desired := Settle(r.desired, caps))
  }

  function OnCaps(r: Rta, s: Settings, data: seq<byte>, now: u32): Rta {
    match ParseCaps(data)
    case Bad => Advance(r, NeedCaps, s.intervalMs, now)
    case Good(c) =>
      if c.version != CFG_VERSION then r.(phase := Unsupported, busy := false)
      else
        var g := WithCaps(r, c).(centres := [], chunk := 1);
        Advance(g, if g.caps.maxBands != 0 then NeedCentres else ReadConfig, 0, now)
  }

  /** The 16-bit words of a chunk; an odd last byte is ignored. */
  function Words(data: seq<byte>): (w: seq<bv16>)
    ensures |w| == |data| / 2
  {
    seq(|data| / 2, i requires 0 <= i < |data| / 2 => Join(data[2 * i], data[2 * i + 1]))
  }

  /** The free places of the table that the promised number still fills. */
  function Room(have: nat, want: nat): nat {
    if have < want && have < MAX_BANDS then Least(want, MAX_BANDS) - have else 0
  }

  /** The table with the words of a chunk added, as far as there is room. */
  function Extended(table: seq<bv16>, want: nat, data: seq<byte>): seq<bv16> {
    table + Words(data)[..Least(|Words(data)|, Room(|table|, want))]
  }

  function OnCentres(r: Rta, data: seq<byte>, now: u32): Rta {
    var g := r.(centres := Extended(r.centres, r.caps.maxBands, data));
    if |g.centres| >= r.caps.maxBands || |data| / 2 == 0 then Advance(g, ReadConfig, 0, now)
    else Advance(g.(chunk := g.chunk + 1), NeedCentres, 0, now)
  }

  predicate Matches(a: RtaConfig, d: RtaConfig) {
    a.tap == d.tap && a.channelMask == d.channelMask && a.fftOrder == d.fftOrder && a.flags == d.flags
  }

  /** The sequence numbers of one streaming session say nothing about the next. */
  function NewSession(d: Display): Display { d.(seqValid := 0, epoch := d.epoch + 1) }

  function StartStreaming(r: Rta, s: Settings, now: u32): Rta {
    Advance(r.(pollMask := r.applied.channelMask, pollCursor := 0, display := NewSession(r.display),
               statusDue := Add32(now, s.statusIntervalMs)), Streaming, 0, now)
  }

  function OnConfig(r: Rta, s: Settings, data: seq<byte>, now: u32): Rta {
    if r.phase == SetConfig then Advance(r, VerifyConfig, 0, now)
    else
      match ParseConfig(data)
      case Bad => Advance(r, ReadConfig, s.intervalMs, now)
      case Good(c) =>
        var g := r.(applied := c);
        if !Matches(c, r.desired) && r.phase != VerifyConfig then Advance(g, SetConfig, 0, now)
        else StartStreaming(g, s, now)
  }

  // ----- streaming -----

  function GoDark(d: Display): Display {
    if !d.live then d
    else
      var u := d.last.(live := false);
      d.(live := false, stale := Add32(d.stale, 1), last := u, trace := d.trace + [Shown(u, d.epoch)])
  }

  /** The current update is handed to the display. */
  function Told(r: Rta): Rta {
    r.(display := r.display.(trace := r.display.trace + [Shown(r.display.last, r.display.epoch)]))
  }

  function Darkened(r: Rta): Rta { r.(display := GoDark(r.display)) }

  predicate SameFrameAgain(d: Display, f: BandFrame) {
    f.channel < CHANNELS && Has(d.seqValid, f.channel) && d.lastSeq[f.channel] == f.seqNo && d.live
  }

  function Noted(d: Display, f: BandFrame): Display {
    if f.channel < CHANNELS then d.(lastSeq := d.lastSeq[f.channel := f.seqNo], seqValid := Or(d.seqValid, Bit(f.channel)))
    else d
  }

  function Show(d: Display, f: BandFrame, levelZero: byte): Display {
    var u := Update(f, levelZero, true);
    Noted(d, f).(frames := Add32(d.frames, 1), live := true, last := u, trace := d.trace + [Shown(u, d.epoch)])
  }

  function Received(d: Display, f: BandFrame, staleMs: u32, levelZero: byte): Display {
    if f.bands == 0 then d
    else if f.ageMs == AGE_NEVER || f.ageMs > staleMs then GoDark(d)
    else if SameFrameAgain(d, f) then d
    else Show(d, f, levelZero)
  }

  function OnBands(r: Rta, s: Settings, data: seq<byte>, now: u32): Rta {
    var g := r.(busy := false, nextDue := Add32(now, s.intervalMs));
    match ParseBandFrame(data)
    case Bad => g.(dropped := Add32(g.dropped, 1))
    case Good(f) => g.(display := Received(g.display, f, s.staleMs, g.caps.levelZero))
  }

  // ----- failures, control, setters -----

  function SetupFailed(r: Rta, status: byte, now: u32): Rta {
    if status == LINK_FAILED then r.(busy := false, nextDue := Add32(now, 1000))
    else r.(busy := false, phase := Unsupported)
  }

  function BandsFailed(r: Rta, s: Settings, status: byte, wvalue: u16, now: u32): Rta {
    var g := r.(busy := false, dropped := Add32(r.dropped, 1), nextDue := Add32(now, s.intervalMs));
    if status == LINK_FAILED || IsRetryable(status) then g
    else g.(pollMask := Less(g.pollMask, Bit(if wvalue < CHANNELS then wvalue else 0)))
  }

  function OptionalFailed(r: Rta, s: Settings, now: u32): Rta {
    if r.phase == NeedCentres then Advance(r, ReadConfig, 0, now)
    else if r.phase == Stopping then r.(busy := false, phase := Disabled)
    else r.(busy := false, nextDue := Add32(now, s.intervalMs))
  }

  function OnControl(r: Rta): Rta {
    r.(busy := false, phase := if r.phase == Stopping then Disabled else r.phase)
  }

  function Restarted(r: Rta): Phase {
    if !r.configured || !r.enabled then Disabled else if r.capsValid then ReadConfig else NeedCaps
  }

  function Cleared(r: Rta): Rta {
    r.(busy := false, chunk := 1, pollCursor := 0, nextDue := 0, statusDue := 0)
  }

  /** `reset_rta_`: the link went down. */
  function Reset(r: Rta): Rta {
    Cleared(r).(phase := Restarted(r), display := GoDark(NewSession(r.display)))
  }

  /** A device has just been identified: what is known of its capabilities may be about another one. */
  function OnIdentified(r: Rta): Rta { Reset(r.(capsValid := false, centres := [])) }

  /** One courtesy stop if nothing is outstanding. */
  function StoppedOrDisabled(r: Rta, online: bool, now: u32): Rta {
    if r.phase == Streaming && !r.busy && online then r.(phase := Stopping, nextDue := now)
    else r.(phase := Disabled, busy := false)
  }

  function SetEnabled(r: Rta, on: bool, online: bool, now: u32): Rta {
    if !r.configured || on == r.enabled then r
    else if on then
      if r.phase == Unsupported then r.(enabled := true)
      else r.(enabled := true, busy := false, nextDue := now, phase := if r.capsValid then ReadConfig else NeedCaps)
    else
      StoppedOrDisabled(Darkened(r.(enabled := false)), online, now)
  }

  function Reconfigure(r: Rta, desired: RtaConfig, now: u32): Rta {
    var g := r.(desired := desired);
    if r.enabled && r.phase != Unsupported then Advance(g, ReadConfig, 0, now) else g
  }

  // ----- the service routine -----

  datatype Ask =
    | NoAsk | AskCaps | AskCentres(chunk: nat) | AskConfig | AskSetConfig(config: RtaConfig) | AskStop | AskStatus
    | AskBands(ch: Channel)

  /** What the service routine requests when it is due, in the phases that do not stream. */
  function AskOf(r: Rta): Ask {
    match r.phase
    case NeedCaps => AskCaps
    case NeedCentres => AskCentres(r.chunk)
    case ReadConfig => AskConfig
    case VerifyConfig => AskConfig
    case SetConfig => AskSetConfig(r.desired)
    case Stopping => AskStop
    case _ => NoAsk
  }

  /** A request was offered to the queue: it is outstanding, or the queue had no room for it. */
  function Offered(r: Rta, s: Settings, taken: bool, now: u32): Rta {
    if taken then r.(busy := true) else r.(nextDue := Add32(now, s.intervalMs))
  }

  /** `service_rta_`. `ready`: the device is identified and the hub is not offline; `room`: the queue takes the request. */
  function ServiceStep(r: Rta, s: Settings, ready: bool, room: bool, now: u32): (Rta, Ask) {
    if !r.configured || r.busy || !ready || !Reached(now, r.nextDue) then (r, NoAsk)
    else if r.phase == Streaming then ServeStream(r, s, room, now)
    else if AskOf(r) == NoAsk then (r, NoAsk)
    else (Offered(r, s, room, now), AskOf(r))
  }

  function ServeStream(r: Rta, s: Settings, room: bool, now: u32): (Rta, Ask) {
    if Reached(now, r.statusDue) then
      (Offered(r.(statusDue := Add32(now, s.statusIntervalMs)), s, room, now), AskStatus)
    else
      var ch := Pick(r.pollMask, r.pollCursor);
      if ch == NO_CHANNEL then (r.(phase := Unsupported), NoAsk)
      else (Offered(r.(pollCursor := After(ch)), s, room, now), AskBands(ch))
  }

  // ----- steps and runs -----

  datatype RtaStep =
    | Caps(data: seq<byte>, now: u32)
    | Centres(data: seq<byte>, now: u32)
    | Config(data: seq<byte>, now: u32)
    | Bands(data: seq<byte>, now: u32)
    | Status(now: u32)
    | Control
    | SetupFailure(status: byte, now: u32)
    | BandsFailure(status: byte, wvalue: u16, now: u32)
    | OptionalFailure(now: u32)
    | Restart
    | Identified
    | Enable(on: bool, online: bool, now: u32)
    | Tap(tap: byte, now: u32)
    | Mask(mask: bv16, now: u32)
    | Serve(ready: bool, room: bool, now: u32)

  function Apply(r: Rta, s: Settings, e: RtaStep): Rta {
    match e
    case Caps(d, now) => OnCaps(r, s, d, now)
    case Centres(d, now) => OnCentres(r, d, now)
    case Config(d, now) => OnConfig(r, s, d, now)
    case Bands(d, now) => OnBands(r, s, d, now)
    case Status(now) => r.(busy := false, nextDue := now)
    case Control => OnControl(r)
    case SetupFailure(st, now) => SetupFailed(r, st, now)
    case BandsFailure(st, w, now) => BandsFailed(r, s, st, w, now)
    case OptionalFailure(now) => OptionalFailed(r, s, now)
    case Restart => Reset(r)
    case Identified => OnIdentified(r)
    case Enable(on, online, now) => SetEnabled(r, on, online, now)
    case Tap(t, now) => if r.desired.tap == t then r else Reconfigure(r, r.desired.(tap := t), now)
    case Mask(m, now) =>
      if m == 0 || r.desired.channelMask == m then r else Reconfigure(r, r.desired.(channelMask := m), now)
    case Serve(ready, room, now) => ServiceStep(r, s, ready, room, now).0
  }
}
