/** What the analyser's client makes of its setters and of the answers to its requests, over whole runs where it can. */
module RtaSetup {
  import opened Wire
  import opened Clock32
  import opened RoundRobin
  import opened RtaWire
  import opened RtaModel
  import opened RtaTrace

  // ----- the wanted configuration -----

  /** The tap and the channels asked for last; no channels at all is not a request. */
  function Wanted(r: Rta, steps: seq<RtaStep>): (byte, bv16) {
    if steps == [] then (r.desired.tap, r.desired.channelMask)
    else
      var (tap, mask) := Wanted(r, steps[..|steps| - 1]);
      match steps[|steps| - 1]
      case Tap(t, _) => (t, mask)
      case Mask(m, _) => (tap, if m != 0 then m else mask)
      case _ => (tap, mask)
  }

  /** What one step makes of the wanted configuration. */
  predicate Follows(w: RtaConfig, d: RtaConfig, e: RtaStep) {
    && d.tap == (if e.Tap? then e.tap else w.tap)
    && d.channelMask == (if e.Mask? && e.mask != 0 then e.mask else w.channelMask)
    && d.flags == w.flags
  }

  lemma StepWants(r: Rta, s: Settings, e: RtaStep)
    ensures Follows(r.desired, Apply(r, s, e).desired, e)
  {
    if e.Tap? || e.Mask? {
      SetterWants(r, s, e);
    } else if e.Caps? {
      hide OnCaps;
      CapsWants(r, s, e.data, e.now);
    } else if e.Config? {
      hide OnConfig;
      ConfigWants(r, s, e.data, e.now);
    } else if e.Serve? {
      hide ServiceStep;
      ServiceWants(r, s, e.ready, e.room, e.now);
    } else {
      hide Apply;
      OthersWant(r, s, e);
    }
  }

  lemma SetterWants(r: Rta, s: Settings, e: RtaStep)
    requires e.Tap? || e.Mask?
    ensures Follows(r.desired, Apply(r, s, e).desired, e)
  {
    hide Reconfigure;
    match e
    case Tap(tap, now) => ReconfiguredTo(r, r.desired.(tap := tap), now);
    case Mask(mask, now) => ReconfiguredTo(r, r.desired.(channelMask := mask), now);
  }

  lemma ReconfiguredTo(r: Rta, desired: RtaConfig, now: u32)
    ensures Reconfigure(r, desired, now).desired == desired
  {
    hide Add32;
  }

  lemma CapsWants(r: Rta, s: Settings, data: seq<byte>, now: u32)
    ensures Follows(r.desired, OnCaps(r, s, data, now).desired, Caps(data, now))
  {
    hide Add32, ParseCaps;
  }

  lemma OthersWant(r: Rta, s: Settings, e: RtaStep)
    requires !e.Tap? && !e.Mask? && !e.Caps? && !e.Config? && !e.Serve?
    ensures Apply(r, s, e).desired == r.desired
  {
    hide OnBands, BandsFailed, OnCentres, GoDark, NewSession, Add32;
    if e.Bands? {
      BandsWant(r, s, e.data, e.now);
    } else if e.Centres? {
      CentresWant(r, e.data, e.now);
    } else if e.BandsFailure? {
      RefusalWants(r, s, e.status, e.wvalue, e.now);
    }
  }

  lemma BandsWant(r: Rta, s: Settings, data: seq<byte>, now: u32)
    ensures OnBands(r, s, data, now).desired == r.desired
    ensures OnBands(r, s, data, now).capsValid == r.capsValid
  {
    hide Add32, Received, ParseBandFrame;
    match ParseBandFrame(data)
    case Bad =>
    case Good(f) =>
  }

  lemma CentresWant(r: Rta, data: seq<byte>, now: u32)
    ensures OnCentres(r, data, now).desired == r.desired && OnCentres(r, data, now).capsValid == r.capsValid
  {
    hide Add32, Extended;
  }

  lemma RefusalWants(r: Rta, s: Settings, status: byte, wvalue: u16, now: u32)
    ensures var g := BandsFailed(r, s, status, wvalue, now); g.desired == r.desired && g.capsValid == r.capsValid
  {
    hide Add32, Less, Bit, IsRetryable;
  }

  lemma ConfigWants(r: Rta, s: Settings, data: seq<byte>, now: u32)
    ensures OnConfig(r, s, data, now).desired == r.desired
  {
    hide Add32, NewSession, ParseConfig, Matches;
  }

  lemma ServiceWants(r: Rta, s: Settings, ready: bool, room: bool, now: u32)
    ensures ServiceStep(r, s, ready, room, now).0.desired == r.desired
  {
    hide Reached, Add32, Pick, After;
  }

  /** Over every run the client wants the tap and the channels asked for last; nothing the device says changes them. */
  lemma {:induction false} WantedExactly(r: Rta, s: Settings, steps: seq<RtaStep>)
    ensures var d := Run(r, s, steps).desired;
      (d.tap, d.channelMask) == Wanted(r, steps) && d.flags == r.desired.flags
  {
    hide Apply;
    if steps != [] {
      WantedExactly(r, s, steps[..|steps| - 1]);
      StepWants(Run(r, s, steps[..|steps| - 1]), s, steps[|steps| - 1]);
    }
  }

  /** A setter that changes something has an enabled client read the configuration again at once, unless unsupported. */
  lemma SetterRereads(r: Rta, s: Settings, e: RtaStep)
    requires (e.Tap? && e.tap != r.desired.tap) || (e.Mask? && e.mask != 0 && e.mask != r.desired.channelMask)
    ensures var g := Apply(r, s, e);
      if r.enabled && r.phase != Unsupported then g.phase == ReadConfig && !g.busy && g.nextDue == e.now
      else g.phase == r.phase && g.busy == r.busy && g.nextDue == r.nextDue
  {
    hide Add32;
    Add32Zero(e.now);
  }

  /** What is ever written to the device is the wanted tap and channels, when it is due in the phase that writes. */
  lemma WritesWanted(r: Rta, s: Settings, steps: seq<RtaStep>, ready: bool, room: bool, now: u32)
    ensures var g := Run(r, s, steps);
      var a := ServiceStep(g, s, ready, room, now).1;
      && (a.AskSetConfig? <==> g.phase == SetConfig && g.configured && !g.busy && ready && Reached(now, g.nextDue))
      && (a.AskSetConfig? ==> (a.config.tap, a.config.channelMask) == Wanted(r, steps) && a.config.flags == r.desired.flags)
  {
    hide Run, Wanted, Reached, Add32, Pick;
    WantedExactly(r, s, steps);
  }

  // ----- what is known of the device -----

  /** A usable capabilities record has come since a device was last identified. */
  function Known(r: Rta, steps: seq<RtaStep>): bool {
    if steps == [] then r.capsValid
    else
      match steps[|steps| - 1]
      case Identified => false
      case Caps(data, _) => (|data| >= 16 && data[0] == 3) || Known(r, steps[..|steps| - 1])
      case _ => Known(r, steps[..|steps| - 1])
  }

  lemma StepKnows(r: Rta, s: Settings, e: RtaStep)
    ensures Apply(r, s, e).capsValid
      == match e
         case Identified => false
         case Caps(data, _) => (|data| >= 16 && data[0] == 3) || r.capsValid
         case _ => r.capsValid
  {
    if e.Caps? {
      hide OnCaps;
      CapsKnow(r, s, e.data, e.now);
    } else if e.Config? {
      hide OnConfig;
      ConfigKnows(r, s, e.data, e.now);
    } else if e.Serve? {
      hide ServiceStep;
      ServiceKnows(r, s, e.ready, e.room, e.now);
    } else if e.Bands? || e.Centres? || e.BandsFailure? {
      hide Apply;
      RepliesKnow(r, s, e);
    } else {
      hide OnBands, BandsFailed, OnCentres, OnCaps, OnConfig, ServiceStep, GoDark, NewSession, Add32;
    }
  }

  lemma CapsKnow(r: Rta, s: Settings, data: seq<byte>, now: u32)
    ensures OnCaps(r, s, data, now).capsValid == ((|data| >= 16 && data[0] == 3) || r.capsValid)
  {
    if |data| < 16 {
      ShortCaps(r, s, data, now);
    } else if data[0] != 3 {
      ForeignCaps(r, s, data, now);
    } else {
      UsableCaps(r, s, data, now);
    }
    hide OnCaps, Add32, Value, Outside;
  }

  lemma ConfigKnows(r: Rta, s: Settings, data: seq<byte>, now: u32)
    ensures OnConfig(r, s, data, now).capsValid == r.capsValid
  {
    hide Add32, NewSession, ParseConfig, Matches;
  }

  lemma ServiceKnows(r: Rta, s: Settings, ready: bool, room: bool, now: u32)
    ensures ServiceStep(r, s, ready, room, now).0.capsValid == r.capsValid
  {
    hide Reached, Add32, Pick, After;
  }

  lemma RepliesKnow(r: Rta, s: Settings, e: RtaStep)
    requires e.Bands? || e.Centres? || e.BandsFailure?
    ensures Apply(r, s, e).capsValid == r.capsValid
  {
    hide OnBands, OnCentres, BandsFailed;
    match e
    case Bands(data, now) => BandsWant(r, s, data, now);
    case Centres(data, now) => CentresWant(r, data, now);
    case BandsFailure(status, wvalue, now) => RefusalWants(r, s, status, wvalue, now);
  }

  /** Over every run capabilities are believed exactly from a usable record until another device may have come. */
  lemma {:induction false} KnownExactly(r: Rta, s: Settings, steps: seq<RtaStep>)
    ensures Run(r, s, steps).capsValid == Known(r, steps)
  {
    hide Apply;
    if steps != [] {
      KnownExactly(r, s, steps[..|steps| - 1]);
      StepKnows(Run(r, s, steps[..|steps| - 1]), s, steps[|steps| - 1]);
    }
  }

  /** Where bring-up begins: with the capabilities if they are not known, with the configuration if they are. */
  predicate Begins(g: Rta) { g.phase == (if g.capsValid then ReadConfig else NeedCaps) && !g.busy }

  /** After the link went down or a device was identified an enabled client begins again, at once or when due from zero. */
  lemma ResetBegins(r: Rta, s: Settings, e: RtaStep)
    requires e.Restart? || e.Identified?
    ensures var g := Apply(r, s, e);
      && (if r.configured && r.enabled then Begins(g) else g.phase == Disabled && !g.busy)
      && g.nextDue == 0 && g.statusDue == 0 && g.chunk == 1 && !g.display.live
      && g.display == GoDark(r.display.(seqValid := 0, epoch := r.display.epoch + 1))
      && (e.Identified? ==> !g.capsValid && g.centres == []) && (e.Restart? ==> g.capsValid == r.capsValid)
  {
    DarkIsDark(r.display.(seqValid := 0, epoch := r.display.epoch + 1));
    hide GoDark;
  }

  lemma DarkIsDark(d: Display)
    ensures !GoDark(d).live
  {
    hide Add32;
  }

  /** Enabling begins at once, unless the device is known not to be able. */
  lemma EnablingBegins(r: Rta, s: Settings, online: bool, now: u32)
    requires r.configured && !r.enabled
    ensures var g := Apply(r, s, Enable(true, online, now));
      && g.enabled && g.display == r.display
      && (if r.phase == Unsupported then g == r.(enabled := true) else Begins(g) && g.nextDue == now)
  {}

  /** Disabling darkens the display, and sends one courtesy stop exactly if it streams with nothing outstanding. */
  lemma DisablingEnds(r: Rta, s: Settings, online: bool, now: u32)
    requires r.configured && r.enabled
    ensures var g := Apply(r, s, Enable(false, online, now));
      && !g.enabled && g.display == GoDark(r.display) && !g.display.live
      && (if r.phase == Streaming && !r.busy && online then g.phase == Stopping && g.nextDue == now && !g.busy
          else g.phase == Disabled && !g.busy)
  {
    DarkIsDark(r.display);
    hide GoDark;
  }

  // ----- answers -----

  /** The sizes the device has are those from the lowest to the highest. */
  lemma OutsideIs(b: byte, low: byte, high: byte)
    ensures Outside(b, low, high) <==> !(low <= b && b <= high)
  {}

  /** A short capabilities record is asked for again after a pause, */
  lemma ShortCaps(r: Rta, s: Settings, data: seq<byte>, now: u32)
    requires |data| < 16
    ensures OnCaps(r, s, data, now) == r.(phase := NeedCaps, busy := false, nextDue := Add32(now, s.intervalMs))
  {
    hide Add32;
  }

  /** another version than 3 is the end, */
  lemma ForeignCaps(r: Rta, s: Settings, data: seq<byte>, now: u32)
    requires |data| >= 16 && data[0] != 3
    ensures OnCaps(r, s, data, now) == r.(phase := Unsupported, busy := false)
  {}

  /**
   and otherwise at most 37 bands are promised, the table is read from its first chunk, and the FFT size is one the device
   has: its own default if the wanted one is not.
   */
  lemma UsableCaps(r: Rta, s: Settings, data: seq<byte>, now: u32)
    requires |data| >= 16 && data[0] == 3
    ensures var g := OnCaps(r, s, data, now);
      && g.capsValid && g.centres == [] && g.chunk == 1 && !g.busy && g.nextDue == now
      && g.phase == (if data[7] == 0 then ReadConfig else NeedCentres)
      && g.caps.maxBands == (if Value(data[7]) < 37 then Value(data[7]) else 37) && g.caps.levelZero == data[8]
      && g.desired.fftOrder == (if Outside(r.desired.fftOrder, data[3], data[4]) then data[5] else r.desired.fftOrder)
  {
    var c := ParseCaps(data).value;
    KeptCaps(r, data);
    ZeroValue(data[7]);
    Add32Zero(now);
    hide Add32, WithCaps, Value, Outside;
  }

  lemma KeptCaps(r: Rta, data: seq<byte>)
    requires |data| >= 16
    ensures var g := WithCaps(r, ParseCaps(data).value);
      && g.capsValid && g.caps.levelZero == data[8]
      && g.caps.maxBands == (if Value(data[7]) < 37 then Value(data[7]) else 37)
      && g.desired.fftOrder == (if Outside(r.desired.fftOrder, data[3], data[4]) then data[5] else r.desired.fftOrder)
  {
    hide Value, Settle, Outside;
    var caps := ParseCaps(data).value;
    SettledOrder(r.desired, caps.(maxBands := Least(caps.maxBands, MAX_BANDS)));
  }

  lemma SettledOrder(d: RtaConfig, caps: RtaCaps)
    ensures Settle(d, caps).fftOrder
      == if Outside(d.fftOrder, caps.orderMin, caps.orderMax) then caps.orderDefault else d.fftOrder
  {
    hide Outside;
  }

  lemma ZeroValue(b: byte)
    ensures Value(b) == 0 <==> b == 0
  {}

  /** The words of a chunk are pairs of its bytes, low byte first. */
  lemma WordsOfChunk(data: seq<byte>, i: nat)
    requires i < |data| / 2
    ensures Words(data)[i] & 0x00FF == data[2 * i] as bv16 && Words(data)[i] >> 8 == data[2 * i + 1] as bv16
  {
    hide Join;
    LowByteFirst(data[2 * i], data[2 * i + 1]);
  }

  /** A bring-up request that was never answered is made again a second later; one that was refused is the end. */
  lemma SetupFailureDecides(r: Rta, s: Settings, status: byte, now: u32)
    ensures var g := Apply(r, s, SetupFailure(status, now));
      !g.busy && (if status == 0xFF then g.phase == r.phase && g.nextDue == Add32(now, 1000) else g.phase == Unsupported)
  {
    hide Add32;
  }

  /** Requests the client can do without: missing centres are skipped, a failed stop is a stop. */
  lemma OptionalFailureDecides(r: Rta, s: Settings, now: u32)
    ensures var g := Apply(r, s, OptionalFailure(now));
      && !g.busy
      && g.phase == (if r.phase == NeedCentres then ReadConfig else if r.phase == Stopping then Disabled else r.phase)
      && (r.phase == Streaming ==> g.nextDue == Add32(now, s.intervalMs))
  {
    hide Add32;
  }

  // ----- the pace of polling -----

  /** The answer to a poll, its failure, and a queue without room for it all put the next request off. */
  predicate EndsPoll(r: Rta, s: Settings, e: RtaStep) {
    || e.Bands? || e.BandsFailure?
    || (e.Serve? && !e.room && ServiceStep(r, s, e.ready, e.room, e.now).1 != NoAsk)
  }

  lemma PollEnds(r: Rta, s: Settings, e: RtaStep)
    requires EndsPoll(r, s, e)
    ensures Apply(r, s, e).nextDue == Add32(e.now, s.intervalMs) && (e.Serve? || !Apply(r, s, e).busy)
  {
    hide OnBands, BandsFailed, ServiceStep, Add32;
    if e.Bands? {
      BandsEnd(r, s, e.data, e.now);
    } else if e.BandsFailure? {
      FailureEnds(r, s, e.status, e.wvalue, e.now);
    } else {
      RefusalEnds(r, s, e.ready, e.now);
    }
  }

  lemma BandsEnd(r: Rta, s: Settings, data: seq<byte>, now: u32)
    ensures OnBands(r, s, data, now).nextDue == Add32(now, s.intervalMs)
    ensures !OnBands(r, s, data, now).busy
  {
    hide Add32, Received, ParseBandFrame;
    match ParseBandFrame(data)
    case Bad =>
    case Good(f) =>
  }

  lemma FailureEnds(r: Rta, s: Settings, status: byte, wvalue: u16, now: u32)
    ensures var g := BandsFailed(r, s, status, wvalue, now);
      g.nextDue == Add32(now, s.intervalMs) && !g.busy && g.dropped == Add32(r.dropped, 1)
  {
    hide Add32, Less, Bit, IsRetryable;
  }

  lemma RefusalEnds(r: Rta, s: Settings, ready: bool, now: u32)
    requires ServiceStep(r, s, ready, false, now).1 != NoAsk
    ensures ServiceStep(r, s, ready, false, now).0.nextDue == Add32(now, s.intervalMs)
  {
    hide Add32, Reached, Pick, After;
  }

  /** And until the interval is over, in true time, nothing is asked. */
  lemma PauseAfterPoll(r: Rta, s: Settings, e: RtaStep, at: nat, ready: bool, room: bool, time: nat)
    requires EndsPoll(r, s, e) && e.now == Clock(at) && s.intervalMs <= 0x8000_0000
    requires at <= time < at + s.intervalMs
    ensures ServiceStep(Apply(r, s, e), s, ready, room, Clock(time)) == (Apply(r, s, e), NoAsk)
  {
    hide EndsPoll, Apply, Add32, Clock, Elapsed, ServeStream;
    PollEnds(r, s, e);
    ClockAdd(at, s.intervalMs);
    ReachedIsTrueTime(time, at + s.intervalMs);
  }

  /** The answer to a status read does not pause the polls: the next may follow in the same pass. */
  lemma StatusNoPause(r: Rta, s: Settings, now: u32)
    ensures var g := Apply(r, s, Status(now)); g == r.(busy := false, nextDue := now) && Reached(now, g.nextDue)
  {}

  /** Starting to stream: a new session, the channels the device reported, and the first status read after its interval. */
  lemma StreamingStarts(r: Rta, s: Settings, now: u32)
    ensures var g := StartStreaming(r, s, now);
      && g.phase == Streaming && g.pollMask == r.applied.channelMask && g.pollCursor == 0 && g.nextDue == now && !g.busy
      && g.statusDue == Add32(now, s.statusIntervalMs)
      && g.display == r.display.(seqValid := 0, epoch := r.display.epoch + 1) && g.desired == r.desired
  {
    hide Add32;
    Add32Zero(now);
  }
}
