/** The analyser's client as the program runs it: fields and tables updated in place, proved against RtaModel. */
module RtaObject {
  import opened Wire
  import opened Clock32
  import opened RoundRobin
  import opened RtaWire
  import opened RtaModel
  import opened RtaTrace

  class RtaClient {
    const cfg: Settings
    const configured: bool
    const centreHz: array<bv16>
    const lastSeq: array<byte>
    var phase: Phase
    var enabled: bool
    var busy: bool
    var nextDue: u32
    var statusDue: u32
    var desired: RtaConfig
    var applied: RtaConfig
    var caps: RtaCaps
    var capsValid: bool
    var centresHave: nat
    var chunk: nat
    var pollMask: bv16
    var pollCursor: Channel
    var dropped: u32
    var live: bool
    var last: Update
    var seqValid: bv16
    var frames: u32
    var stale: u32
    ghost var epoch: nat
    ghost var trace: seq<Shown>

    ghost predicate Valid()
      reads this
    {
      centreHz.Length == MAX_BANDS && lastSeq.Length == CHANNELS && centresHave <= MAX_BANDS
    }

    ghost function Table(): seq<bv16>
      requires centresHave <= centreHz.Length
      reads this`centresHave, centreHz
    {
      centreHz[..centresHave]
    }

    ghost function Seqs(): SeqTable
      requires lastSeq.Length == CHANNELS
      reads lastSeq
    {
      lastSeq[..]
    }

    ghost function ShownState(): Display
      requires Valid()
      reads this, lastSeq
    {
      Display(live, last, Seqs(), seqValid, frames, stale, epoch, trace)
    }

    ghost function View(): Rta
      requires Valid()
      reads this, lastSeq, centreHz
    {
      Rta(phase, configured, enabled, busy, nextDue, statusDue, desired, applied, caps, capsValid,
          Table(), chunk, pollMask, pollCursor, dropped, ShownState())
    }

    constructor (cfg: Settings, configured: bool, desired: RtaConfig)
      ensures Valid() && fresh(centreHz) && fresh(lastSeq) && this.cfg == cfg && this.configured == configured
      ensures View().phase == Disabled && !View().enabled && !View().busy && !View().capsValid && View().desired == desired
      ensures Untouched(View())
    {
      this.cfg := cfg;
      this.configured := configured;
      this.desired := desired;
      centreHz := new bv16[MAX_BANDS](_ => 0);
      lastSeq := new byte[CHANNELS](_ => 0);
      phase, enabled, busy, nextDue, statusDue := Disabled, false, false, 0, 0;
      applied, caps, capsValid := desired, RtaCaps(0, 0, 0, 0, 0, 0, 0, 0), false;
      centresHave, chunk, pollMask, pollCursor, dropped := 0, 1, 0, 0, 0;
      live, last, seqValid, frames, stale := false, Update(BandFrame(0, 0, 0, 0, [], []), 0, false), 0, 0, 0;
      epoch, trace := 0, [];
    }

    // ----- bring-up -----

    method Advance(next: Phase, gap: u32, now: u32)
      requires Valid()
      modifies this`phase, this`busy, this`nextDue
      ensures Valid() && View() == RtaModel.Advance(old(View()), next, gap, now)
    {
      phase := next;
      busy := false;
      nextDue := Add32(now, gap);
    }

    method OnCaps(data: seq<byte>, now: u32)
      requires Valid()
      modifies this
      ensures Valid() && View() == RtaModel.OnCaps(old(View()), cfg, data, now)
    {
      hide Add32;
      var parsed := ParseCaps(data);
      if parsed.Bad? {
        Advance(NeedCaps, cfg.intervalMs, now);
        return;
      }
      if parsed.value.version != CFG_VERSION {
        phase := Unsupported;
        busy := false;
        return;
      }
      hide ParseCaps, WithCaps;
      AcceptCaps(parsed.value);
      ClearTable();
      Advance(if caps.maxBands != 0 then NeedCentres else ReadConfig, 0, now);
    }

    method ClearTable()
      requires Valid()
      modifies this`centresHave, this`chunk
      ensures Valid() && View() == old(View()).(centres := [], chunk := 1)
    {
      centresHave := 0;
      chunk := 1;
    }

    method AcceptCaps(reported: RtaCaps)
      requires Valid()
      modifies this`caps, this`capsValid, this`desired
      ensures Valid() && View() == WithCaps(old(View()), reported)
    {
      hide Settle;
      caps := reported.(maxBands := if reported.maxBands > MAX_BANDS then MAX_BANDS else reported.maxBands);
      capsValid := true;
      SettleFftOrder();
    }

    method SettleFftOrder()
      requires Valid()
      modifies this`desired
      ensures Valid() && View() == old(View()).(desired := Settle(old(View()).desired, old(View()).caps))
    {
      if desired.fftOrder < caps.orderMin || desired.fftOrder > caps.orderMax {
        desired := desired.(fftOrder := caps.orderDefault);
      }
    }

    /** Copies words into the table until the chunk ends or the promised number is reached. */
    method StoreCentres(data: seq<byte>)
      requires Valid()
      modifies this`centresHave, centreHz
      ensures Valid()
      ensures Table() == Extended(old(Table()), caps.maxBands, data)
      ensures lastSeq[..] == old(lastSeq[..])
    {
      hide Join;
      var i := 0;
      ghost var start := centresHave;
      ghost var words := Words(data);
      while i < |data| / 2 && centresHave < caps.maxBands && centresHave < MAX_BANDS
        invariant Valid()
        invariant i <= |words| && centresHave == start + i <= MAX_BANDS && i <= Room(start, caps.maxBands)
        invariant Table() == old(Table()) + words[..i]
        invariant lastSeq[..] == old(lastSeq[..])
      {
        StoreCentre(Join(data[2 * i], data[2 * i + 1]));
        assert words[..i + 1] == words[..i] + [words[i]];
        i := i + 1;
      }
    }

    method StoreCentre(hz: bv16)
      requires Valid() && centresHave < MAX_BANDS
      modifies this`centresHave, centreHz
      ensures Valid() && centresHave == old(centresHave) + 1
      ensures Table() == old(Table()) + [hz]
      ensures lastSeq[..] == old(lastSeq[..])
    {
      assert centreHz.Length != lastSeq.Length;
      centreHz[centresHave] := hz;
      centresHave := centresHave + 1;
    }

    method ExtendTable(data: seq<byte>)
      requires Valid()
      modifies this`centresHave, centreHz
      ensures Valid()
      ensures View() == old(View()).(centres := Extended(old(View()).centres, old(View()).caps.maxBands, data))
      ensures |View().centres| == centresHave
    {
      hide Extended;
      StoreCentres(data);
    }

    method OnCentres(data: seq<byte>, now: u32)
      requires Valid()
      modifies this, centreHz
      ensures Valid() && View() == RtaModel.OnCentres(old(View()), data, now)
    {
      hide Add32, Extended;
      ExtendTable(data);
      if centresHave >= caps.maxBands || |data| / 2 == 0 {
        Advance(ReadConfig, 0, now);
        return;
      }
      chunk := chunk + 1;
      Advance(NeedCentres, 0, now);
    }

    /** Forgets the sequence numbers; the session number is for the record only. */
    method BeginSession()
      requires Valid()
      modifies this`seqValid, this`epoch
      ensures Valid() && View() == old(View()).(display := NewSession(old(View()).display))
    {
      seqValid := 0;
      epoch := epoch + 1;
    }

    method StartStreaming(now: u32)
      requires Valid()
      modifies this
      ensures Valid() && View() == RtaModel.StartStreaming(old(View()), cfg, now)
    {
      hide Add32, NewSession;
      ghost var r := View();
      BeginSession();
      pollMask := applied.channelMask;
      pollCursor := 0;
      statusDue := Add32(now, cfg.statusIntervalMs);
      assert View() == r.(pollMask := r.applied.channelMask, pollCursor := 0, statusDue := Add32(now, cfg.statusIntervalMs),
                          display := NewSession(r.display));
      hide View;
      Advance(Streaming, 0, now);
    }

    method OnConfig(data: seq<byte>, now: u32)
      requires Valid()
      modifies this
      ensures Valid() && View() == RtaModel.OnConfig(old(View()), cfg, data, now)
    {
      hide Add32, RtaModel.StartStreaming;
      if phase == SetConfig {
        Advance(VerifyConfig, 0, now);
        return;
      }
      var parsed := ParseConfig(data);
      if parsed.Bad? {
        Advance(ReadConfig, cfg.intervalMs, now);
        return;
      }
      applied := parsed.value;
      var matches := Matches(applied, desired);
      if !matches {
        if phase != VerifyConfig {
          Advance(SetConfig, 0, now);
          return;
        }
      }
      StartStreaming(now);
    }

    // ----- streaming -----

    /** Hands the current update to the display. */
    method Tell()
      requires Valid()
      modifies this`trace
      ensures Valid() && View() == Told(old(View()))
    {
      trace := trace + [Shown(last, epoch)];
    }

    method MarkNotLive()
      requires Valid()
      modifies this`live, this`stale, this`last, this`trace
      ensures Valid() && View() == Darkened(old(View()))
    {
      hide Add32;
      if !live {
        return;
      }
      CountDark();
      last := last.(live := false);
      Tell();
    }

    method CountDark()
      requires Valid()
      modifies this`live, this`stale
      ensures Valid()
      ensures View() == old(View()).(display := old(View()).display.(live := false, stale := Add32(old(stale), 1)))
    {
      hide Add32;
      live := false;
      stale := Add32(stale, 1);
    }

    method NoteSeq(f: BandFrame)
      requires Valid()
      modifies this`seqValid, lastSeq
      ensures Valid() && View() == old(View()).(display := Noted(old(View()).display, f))
    {
      hide Or, Bit;
      if f.channel < CHANNELS {
        lastSeq[f.channel] := f.seqNo;
        seqValid := Or(seqValid, Bit(f.channel));
        assert lastSeq[..] == old(lastSeq[..])[f.channel := f.seqNo];
      }
    }

    method Publish(f: BandFrame)
      requires Valid()
      modifies this, lastSeq
      ensures Valid() && View() == old(View()).(display := Show(old(View()).display, f, old(caps).levelZero))
    {
      hide Add32, Noted;
      NoteSeq(f);
      frames := Add32(frames, 1);
      live := true;
      last := Update(f, caps.levelZero, true);
      Tell();
    }

    method EndPoll(now: u32)
      requires Valid()
      modifies this`busy, this`nextDue
      ensures Valid() && View() == old(View()).(busy := false, nextDue := Add32(now, cfg.intervalMs))
    {
      hide Add32;
      busy := false;
      nextDue := Add32(now, cfg.intervalMs);
    }

    method OnBands(data: seq<byte>, now: u32)
      requires Valid()
      modifies this, lastSeq
      ensures Valid() && View() == RtaModel.OnBands(old(View()), cfg, data, now)
    {
      hide Add32, GoDark, Show, Has, ParseBandFrame;
      EndPoll(now);
      var parsed := ParseBandFrame(data);
      if parsed.Bad? {
        dropped := Add32(dropped, 1);
        return;
      }
      var f := parsed.value;
      if f.bands == 0 {
        return;
      }
      if f.ageMs == AGE_NEVER || f.ageMs > cfg.staleMs {
        MarkNotLive();
        return;
      }
      if f.channel < CHANNELS && Has(seqValid, f.channel) && lastSeq[f.channel] == f.seqNo && live {
        return;
      }
      Publish(f);
    }

    method OnStatus(now: u32)
      requires Valid()
      modifies this`busy, this`nextDue
      ensures Valid() && View() == Apply(old(View()), cfg, Status(now))
    {
      busy := false;
      nextDue := now;
    }

    // ----- failures and control -----

    method OnSetupFailed(status: byte, now: u32)
      requires Valid()
      modifies this`busy, this`nextDue, this`phase
      ensures Valid() && View() == SetupFailed(old(View()), status, now)
    {
      busy := false;
      if status == LINK_FAILED {
        nextDue := Add32(now, 1000);
        return;
      }
      phase := Unsupported;
    }

    method DropChannel(ch: Channel)
      requires Valid()
      modifies this`pollMask
      ensures Valid() && View() == old(View()).(pollMask := Less(old(View()).pollMask, Bit(ch)))
    {
      hide Less, Bit, And;
      if Has(pollMask, ch) {
        pollMask := Less(pollMask, Bit(ch));
      } else {
        NothingToDrop(pollMask, Bit(ch));
      }
    }

    method OnBandsFailed(status: byte, wvalue: u16, now: u32)
      requires Valid()
      modifies this`busy, this`dropped, this`nextDue, this`pollMask
      ensures Valid() && View() == BandsFailed(old(View()), cfg, status, wvalue, now)
    {
      hide Add32, Less, Bit, And, IsRetryable;
      EndPoll(now);
      dropped := Add32(dropped, 1);
      if status != LINK_FAILED && !IsRetryable(status) {
        DropChannel(if wvalue < CHANNELS then wvalue else 0);
      }
    }

    method OnOptionalFailed(now: u32)
      requires Valid()
      modifies this`busy, this`phase, this`nextDue
      ensures Valid() && View() == OptionalFailed(old(View()), cfg, now)
    {
      busy := false;
      match phase
      case NeedCentres => Advance(ReadConfig, 0, now);
      case Stopping => phase := Disabled;
      case _ => nextDue := Add32(now, cfg.intervalMs);
    }

    method OnControlReply()
      requires Valid()
      modifies this`busy, this`phase
      ensures Valid() && View() == OnControl(old(View()))
    {
      busy := false;
      if phase == Stopping {
        phase := Disabled;
      }
    }

    method ClearProgress()
      requires Valid()
      modifies this`busy, this`chunk, this`pollCursor
      ensures Valid() && View() == old(View()).(busy := false, chunk := 1, pollCursor := 0)
    {
      busy := false;
      chunk := 1;
      pollCursor := 0;
    }

    method ClearDeadlines()
      requires Valid()
      modifies this`nextDue, this`statusDue
      ensures Valid() && View() == old(View()).(nextDue := 0, statusDue := 0)
    {
      nextDue := 0;
      statusDue := 0;
    }

    method ResetRta()
      requires Valid()
      modifies this
      ensures Valid() && View() == Reset(old(View()))
    {
      hide *;
      ClearProgress();
      ClearDeadlines();
      BeginSession();
      MarkNotLive();
      SettlePhase();
      ResetIs(old(View()));
    }

    method ForgetDevice()
      requires Valid()
      modifies this
      ensures Valid() && View() == OnIdentified(old(View()))
    {
      hide Reset;
      capsValid := false;
      centresHave := 0;
      ResetRta();
    }

    method SettlePhase()
      requires Valid()
      modifies this`phase
      ensures Valid() && View() == old(View()).(phase := Restarted(old(View())))
    {
      if !configured {
        phase := Disabled;
        return;
      }
      phase := if enabled then if capsValid then ReadConfig else NeedCaps else Disabled;
    }

    // ----- setters -----

    method SetRtaEnabled(on: bool, online: bool, now: u32)
      requires Valid()
      modifies this
      ensures Valid() && View() == SetEnabled(old(View()), on, online, now)
    {
      if !configured || on == enabled {
        return;
      }
      if on {
        TurnOn(now);
      } else {
        TurnOff(online, now);
      }
    }

    method TurnOn(now: u32)
      requires Valid() && configured && !enabled
      modifies this`enabled, this`busy, this`nextDue, this`phase
      ensures Valid() && View() == SetEnabled(old(View()), true, false, now)
    {
      enabled := true;
      if phase == Unsupported {
        return;
      }
      StartOver(now);
    }

    method StartOver(now: u32)
      requires Valid()
      modifies this`busy, this`nextDue, this`phase
      ensures Valid()
      ensures View() == old(View()).(busy := false, nextDue := now, phase := if capsValid then ReadConfig else NeedCaps)
    {
      busy := false;
      nextDue := now;
      phase := if capsValid then ReadConfig else NeedCaps;
    }

    method TurnOff(online: bool, now: u32)
      requires Valid() && configured && enabled
      modifies this
      ensures Valid() && View() == SetEnabled(old(View()), false, online, now)
    {
      hide GoDark;
      enabled := false;
      MarkNotLive();
      StopOrDisable(online, now);
    }

    method StopOrDisable(online: bool, now: u32)
      requires Valid()
      modifies this`phase, this`nextDue, this`busy
      ensures Valid() && View() == StoppedOrDisabled(old(View()), online, now)
    {
      if phase == Streaming && !busy && online {
        phase := Stopping;
        nextDue := now;
      } else {
        phase := Disabled;
        busy := false;
      }
    }

    method SetRtaTap(tap: byte, now: u32)
      requires Valid()
      modifies this
      ensures Valid() && View() == Apply(old(View()), cfg, Tap(tap, now))
    {
      if desired.tap == tap {
        return;
      }
      desired := desired.(tap := tap);
      if enabled && phase != Unsupported {
        Advance(ReadConfig, 0, now);
      }
    }

    method SetRtaChannelMask(mask: bv16, now: u32)
      requires Valid()
      modifies this
      ensures Valid() && View() == Apply(old(View()), cfg, Mask(mask, now))
    {
      if mask == 0 || desired.channelMask == mask {
        return;
      }
      desired := desired.(channelMask := mask);
      if enabled && phase != Unsupported {
        Advance(ReadConfig, 0, now);
      }
    }

    // ----- the service routine -----

    /** The next channel to ask, or 0xFF when none is left. */
    method NextPollChannel() returns (ch: nat)
      modifies this`pollCursor
      ensures ch == Pick(pollMask, old(pollCursor))
      ensures ch == NO_CHANNEL <==> Members(pollMask) == {}
      ensures ch != NO_CHANNEL ==> ch < CHANNELS && Nearest(Members(pollMask), old(pollCursor), ch)
      ensures pollCursor == if ch == NO_CHANNEL then old(pollCursor) else After(ch)
    {
      hide At, Has, Members, Nearest;
      PickIsNearest(pollMask, pollCursor);
      if pollMask == 0 {
        EmptyMask(pollMask);
        return NO_CHANNEL;
      }
      for i := 0 to CHANNELS
        invariant pollCursor == old(pollCursor)
        invariant FirstFrom(pollMask, pollCursor, i) == Pick(pollMask, pollCursor)
      {
        var c: Channel := (pollCursor + i) % CHANNELS;
        AtIs(pollCursor, i);
        if Has(pollMask, c) {
          pollCursor := (c + 1) % CHANNELS;
          return c;
        }
      }
      return NO_CHANNEL;
    }

    /** What follows from the queue taking a request or having no room for it. */
    method Offer(taken: bool, now: u32)
      requires Valid()
      modifies this`busy, this`nextDue
      ensures Valid() && View() == Offered(old(View()), cfg, taken, now)
    {
      if taken {
        busy := true;
      } else {
        nextDue := Add32(now, cfg.intervalMs);
      }
    }

    /** `ready`: the device is identified and the hub is not offline; `room`: the queue takes what it is offered. */
    method Service(ready: bool, room: bool, now: u32) returns (ask: Ask)
      requires Valid()
      modifies this
      ensures Valid()
      ensures (View(), ask) == ServiceStep(old(View()), cfg, ready, room, now)
    {
      hide Add32, Elapsed, Offered, ServeStream;
      if !configured || busy || !ready || !Reached(now, nextDue) {
        return NoAsk;
      }
      match phase
      case Disabled => ask := NoAsk;
      case Unsupported => ask := NoAsk;
      case NeedCaps => ask := AskCaps; Offer(room, now);
      case NeedCentres => ask := AskCentres(chunk); Offer(room, now);
      case ReadConfig => ask := AskConfig; Offer(room, now);
      case VerifyConfig => ask := AskConfig; Offer(room, now);
      case SetConfig => ask := AskSetConfig(desired); Offer(room, now);
      case Stopping => ask := AskStop; Offer(room, now);
      case Streaming => ask := ServiceStreaming(room, now);
    }

    method ServiceStreaming(room: bool, now: u32) returns (ask: Ask)
      requires Valid()
      modifies this
      ensures Valid()
      ensures (View(), ask) == ServeStream(old(View()), cfg, room, now)
    {
      hide Add32, Elapsed, Members, Nearest, After, Offered, Pick;
      if Reached(now, statusDue) {
        statusDue := Add32(now, cfg.statusIntervalMs);
        Offer(room, now);
        return AskStatus;
      }
      var ch := NextPollChannel();
      if ch == NO_CHANNEL {
        phase := Unsupported;
        return NoAsk;
      }
      ask := AskBands(ch);
      Offer(room, now);
    }
  }

  lemma ResetIs(r: Rta)
    ensures var c := r.(busy := false, chunk := 1, pollCursor := 0).(nextDue := 0, statusDue := 0);
      var g := Darkened(c.(display := NewSession(c.display)));
      Reset(r) == g.(phase := Restarted(g))
  {
    hide GoDark, NewSession;
  }

  lemma NothingToDrop(mask: bv16, bit: bv16)
    requires And(mask, bit) == 0
    ensures Less(mask, bit) == mask
  {
    assert mask & !bit == mask;
  }
}
