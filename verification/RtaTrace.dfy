/** What the display is told: every run of the analyser client, whatever arrives and whoever calls. */
module RtaTrace {
  import opened Wire
  import opened Clock32
  import opened RoundRobin
  import opened RtaWire
  import opened RtaModel

  function CountLive(t: seq<Shown>, live: bool): nat {
    if t == [] then 0
    else CountLive(t[..|t| - 1], live) + (if t[|t| - 1].update.live == live then 1 else 0)
  }

  /** The sequence number last shown for a channel in this session, unless the display has gone dark since. */
  function LastSeen(t: seq<Shown>, ch: Channel, epoch: nat): Parsed<byte> {
    if t == [] then Bad
    else
      var e := t[|t| - 1];
      if !e.update.live || e.epoch != epoch then Bad
      else if e.update.frame.channel == ch then Good(e.update.frame.seqNo)
      else LastSeen(t[..|t| - 1], ch, epoch)
  }

  /** A dark update repeats the live update just before it; no live update repeats the last one of its channel. */
  ghost predicate Sound(t: seq<Shown>) {
    t == [] ||
    (var e := t[|t| - 1];
     var before := t[..|t| - 1];
     && Sound(before)
     && (!e.update.live ==>
           && before != []
           && before[|before| - 1].update.live
           && before[|before| - 1].update.frame == e.update.frame
           && before[|before| - 1].update.levelZero == e.update.levelZero)
     && (e.update.live && e.update.frame.channel < CHANNELS ==>
           LastSeen(before, e.update.frame.channel, e.epoch) != Good(e.update.frame.seqNo)))
  }

  /** The client's flag and its copy of the last update agree with the end of the trace. */
  ghost predicate Mirrors(d: Display) {
    && (d.live <==> d.trace != [] && d.trace[|d.trace| - 1].update.live)
    && (d.trace != [] ==> d.last == d.trace[|d.trace| - 1].update)
  }

  ghost predicate Counts(d: Display) {
    d.frames == CountLive(d.trace, true) % TWO32 && d.stale == CountLive(d.trace, false) % TWO32
  }

  /** Every sequence number that must not repeat is still remembered. */
  ghost predicate Remembers(d: Display) {
    forall ch: Channel :: LastSeen(d.trace, ch, d.epoch).Good? ==>
      Has(d.seqValid, ch) && d.lastSeq[ch] == LastSeen(d.trace, ch, d.epoch).value
  }

  ghost predicate Dated(t: seq<Shown>, epoch: nat) { forall i :: 0 <= i < |t| ==> t[i].epoch <= epoch }

  ghost predicate Inv(d: Display) {
    Sound(d.trace) && Mirrors(d) && Counts(d) && Remembers(d) && Dated(d.trace, d.epoch)
  }

  lemma CountMore(n: nat)
    ensures Add32(n % TWO32, 1) == (n + 1) % TWO32
  {}

  lemma Snoc(t: seq<Shown>, e: Shown)
    ensures (t + [e])[..|t|] == t && (t + [e])[|t|] == e
  {}

  lemma CountSnoc(t: seq<Shown>, e: Shown, live: bool)
    ensures CountLive(t + [e], live) == CountLive(t, live) + (if e.update.live == live then 1 else 0)
  {
    Snoc(t, e);
  }

  lemma CountsGrow(t: seq<Shown>, e: Shown)
    ensures Add32(CountLive(t, true) % TWO32, 1) == (CountLive(t, true) + 1) % TWO32
    ensures Add32(CountLive(t, false) % TWO32, 1) == (CountLive(t, false) + 1) % TWO32
    ensures CountLive(t + [e], true) == CountLive(t, true) + (if e.update.live then 1 else 0)
    ensures CountLive(t + [e], false) == CountLive(t, false) + (if e.update.live then 0 else 1)
  {
    hide CountLive, Add32;
    CountMore(CountLive(t, true));
    CountMore(CountLive(t, false));
    CountSnoc(t, e, true);
    CountSnoc(t, e, false);
  }

  lemma DarkKeeps(d: Display)
    requires Inv(d)
    ensures Inv(GoDark(d))
  {
    hide Add32, Has, CountLive;
    if d.live {
      var e := Shown(d.last.(live := false), d.epoch);
      Snoc(d.trace, e);
      CountsGrow(d.trace, e);
    }
  }

  lemma OtherEpoch(t: seq<Shown>, epoch: nat, ch: Channel)
    requires Dated(t, epoch)
    ensures LastSeen(t, ch, epoch + 1) == Bad
  {}

  /** A new session forgets the sequence numbers of the old one. */
  lemma SessionKeeps(d: Display)
    requires Inv(d)
    ensures Inv(NewSession(d))
  {
    hide CountLive, Sound, Has, LastSeen;
    var g := NewSession(d);
    forall ch: Channel
      ensures LastSeen(g.trace, ch, g.epoch) == Bad
    {
      OtherEpoch(d.trace, d.epoch, ch);
    }
  }

  /** If the display is dark, nothing has been seen since. */
  lemma NothingSeen(d: Display, ch: Channel)
    requires Mirrors(d) && !d.live
    ensures LastSeen(d.trace, ch, d.epoch) == Bad
  {}

  function Fresh(d: Display, f: BandFrame, levelZero: byte): Shown { Shown(Update(f, levelZero, true), d.epoch) }

  lemma ShowSound(d: Display, f: BandFrame, levelZero: byte)
    requires Inv(d) && !SameFrameAgain(d, f)
    ensures Sound(d.trace + [Fresh(d, f, levelZero)])
  {
    hide Has, CountLive, LastSeen, Dated;
    Snoc(d.trace, Fresh(d, f, levelZero));
    if f.channel < CHANNELS && !d.live {
      NothingSeen(d, f.channel);
    }
  }

  lemma SeenSnoc(t: seq<Shown>, e: Shown, ch: Channel, epoch: nat)
    requires e.update.live && e.epoch == epoch
    ensures LastSeen(t + [e], ch, epoch) ==
      if e.update.frame.channel == ch then Good(e.update.frame.seqNo) else LastSeen(t, ch, epoch)
  {
    Snoc(t, e);
  }

  lemma ShowNotes(d: Display, f: BandFrame, levelZero: byte, ch: Channel)
    ensures var g := Show(d, f, levelZero);
      && (ch == f.channel ==> Has(g.seqValid, ch) && g.lastSeq[ch] == f.seqNo)
      && (ch != f.channel ==> Has(g.seqValid, ch) == Has(d.seqValid, ch) && g.lastSeq[ch] == d.lastSeq[ch])
  {
    hide Bit, Or, Has;
    if f.channel < CHANNELS {
      AddMember(d.seqValid, f.channel, ch);
    }
  }

  lemma ShowRemembers(d: Display, f: BandFrame, levelZero: byte)
    requires Remembers(d)
    ensures Remembers(Show(d, f, levelZero))
  {
    var g := Show(d, f, levelZero);
    assert g.trace == d.trace + [Fresh(d, f, levelZero)] && g.epoch == d.epoch;
    hide Show, Has, LastSeen;
    forall ch: Channel | LastSeen(g.trace, ch, g.epoch).Good?
      ensures Has(g.seqValid, ch) && g.lastSeq[ch] == LastSeen(g.trace, ch, g.epoch).value
    {
      SeenSnoc(d.trace, Fresh(d, f, levelZero), ch, d.epoch);
      ShowNotes(d, f, levelZero, ch);
    }
  }

  lemma ShowKeeps(d: Display, f: BandFrame, levelZero: byte)
    requires Inv(d) && !SameFrameAgain(d, f)
    ensures Inv(Show(d, f, levelZero))
  {
    ShowSound(d, f, levelZero);
    ShowRemembers(d, f, levelZero);
    hide Add32, Bit, Or, Has, LastSeen, Sound, Remembers, CountLive, SameFrameAgain;
    CountsGrow(d.trace, Fresh(d, f, levelZero));
  }

  lemma ReceivedKeeps(d: Display, f: BandFrame, staleMs: u32, levelZero: byte)
    requires Inv(d)
    ensures Inv(Received(d, f, staleMs, levelZero))
  {
    hide Inv, GoDark, Show, SameFrameAgain;
    DarkKeeps(d);
    if !SameFrameAgain(d, f) {
      ShowKeeps(d, f, levelZero);
    }
  }

  lemma BandsKeep(r: Rta, s: Settings, data: seq<byte>, now: u32)
    requires Inv(r.display)
    ensures Inv(OnBands(r, s, data, now).display)
  {
    hide Inv, Add32, ParseBandFrame, Received;
    match ParseBandFrame(data)
    case Bad =>
    case Good(f) => ReceivedKeeps(r.display, f, s.staleMs, r.caps.levelZero);
  }

  lemma TablesKeep(r: Rta, s: Settings, data: seq<byte>, now: u32)
    ensures OnCaps(r, s, data, now).display == r.display
    ensures OnCentres(r, data, now).display == r.display
  {
    hide Add32, ParseCaps, Words;
  }

  lemma ConfigKeeps(r: Rta, s: Settings, data: seq<byte>, now: u32)
    requires Inv(r.display)
    ensures Inv(OnConfig(r, s, data, now).display)
  {
    hide Inv, Add32, ParseConfig, Matches, NewSession;
    SessionKeeps(r.display);
  }

  lemma CallsKeep(r: Rta, s: Settings, e: RtaStep)
    requires Inv(r.display) && (e.Enable? || e.Restart? || e.Identified?)
    ensures Inv(Apply(r, s, e).display)
  {
    hide Inv, OnCaps, OnCentres, OnConfig, OnBands, GoDark, NewSession, ServiceStep;
    DarkKeeps(r.display);
    SessionKeeps(r.display);
    DarkKeeps(NewSession(r.display));
  }

  lemma ServiceKeeps(r: Rta, s: Settings, ready: bool, room: bool, now: u32)
    ensures ServiceStep(r, s, ready, room, now).0.display == r.display
  {
    hide Reached, Add32, Pick, After;
  }

  lemma OthersKeep(r: Rta, s: Settings, e: RtaStep)
    requires e.SetupFailure? || e.BandsFailure? || e.OptionalFailure? || e.Control? || e.Status? || e.Tap? || e.Mask?
    ensures Apply(r, s, e).display == r.display
  {
    hide OnCaps, OnCentres, OnConfig, OnBands, ServiceStep, Add32, Less, Bit, IsRetryable;
  }

  /** Every step of the client keeps what the display has been told in order. */
  lemma ApplyKeeps(r: Rta, s: Settings, e: RtaStep)
    requires Inv(r.display)
    ensures Inv(Apply(r, s, e).display)
  {
    if e.Enable? || e.Restart? || e.Identified? {
      hide Apply;
      CallsKeep(r, s, e);
    } else if e.Caps? || e.Centres? {
      hide Inv, OnCaps, OnCentres;
      TablesKeep(r, s, e.data, e.now);
    } else if e.Config? {
      hide Inv, OnConfig;
      ConfigKeeps(r, s, e.data, e.now);
    } else if e.Bands? {
      hide Inv, OnBands;
      BandsKeep(r, s, e.data, e.now);
    } else if e.Serve? {
      hide Inv, ServiceStep;
      ServiceKeeps(r, s, e.ready, e.room, e.now);
    } else {
      hide Apply, Inv;
      OthersKeep(r, s, e);
    }
  }

  function Run(r: Rta, s: Settings, steps: seq<RtaStep>): Rta {
    if steps == [] then r else Apply(Run(r, s, steps[..|steps| - 1]), s, steps[|steps| - 1])
  }

  /** A client that has not shown anything yet. */
  predicate Untouched(r: Rta) { r.display.trace == [] && !r.display.live && r.display.frames == r.display.stale == 0 }

  lemma {:induction false} RunKeeps(r: Rta, s: Settings, steps: seq<RtaStep>)
    requires Untouched(r)
    ensures Inv(Run(r, s, steps).display)
  {
    hide Apply;
    if steps == [] {
    } else {
      hide Inv;
      RunKeeps(r, s, steps[..|steps| - 1]);
      ApplyKeeps(Run(r, s, steps[..|steps| - 1]), s, steps[|steps| - 1]);
    }
  }

  lemma {:induction false} SoundEverywhere(t: seq<Shown>, i: nat)
    requires Sound(t) && i < |t|
    ensures Sound(t[..i + 1])
    decreases |t|
  {
    if i + 1 < |t| {
      SoundEverywhere(t[..|t| - 1], i);
      assert t[..|t| - 1][..i + 1] == t[..i + 1];
    } else {
      assert t[..i + 1] == t;
    }
  }

  lemma {:induction false} SeenAt(t: seq<Shown>, i: nat, ch: Channel, epoch: nat)
    requires i < |t| && t[i].update.frame.channel == ch
    requires forall k :: i <= k < |t| ==> t[k].update.live && t[k].epoch == epoch
    requires forall k :: i < k < |t| ==> t[k].update.frame.channel != ch
    ensures LastSeen(t, ch, epoch) == Good(t[i].update.frame.seqNo)
    decreases |t|
  {
    if i + 1 < |t| {
      SeenAt(t[..|t| - 1], i, ch, epoch);
    }
  }

  /** Whatever happens, a dark update repeats the frame of the live one directly before it; */
  lemma DarkRepeatsLive(r: Rta, s: Settings, steps: seq<RtaStep>, i: nat)
    requires Untouched(r) && i < |Run(r, s, steps).display.trace| && !Run(r, s, steps).display.trace[i].update.live
    ensures var t := Run(r, s, steps).display.trace;
      i > 0 && t[i - 1].update.live && t[i].update == t[i - 1].update.(live := false)
  {
    hide Apply, Run, CountLive, LastSeen;
    RunKeeps(r, s, steps);
    var t := Run(r, s, steps).display.trace;
    SoundEverywhere(t, i);
    assert t[..i + 1][..i] == t[..i];
  }

  /** no frame is shown twice in a row for a channel within a session that stayed live between; */
  lemma NoFrameTwice(r: Rta, s: Settings, steps: seq<RtaStep>, i: nat, j: nat)
    requires Untouched(r) && i < j < |Run(r, s, steps).display.trace|
    requires var t := Run(r, s, steps).display.trace;
      && t[i].update.frame.channel == t[j].update.frame.channel < CHANNELS
      && (forall k :: i <= k <= j ==> t[k].update.live && t[k].epoch == t[j].epoch)
      && (forall k :: i < k < j ==> t[k].update.frame.channel != t[j].update.frame.channel)
    ensures var t := Run(r, s, steps).display.trace; t[i].update.frame.seqNo != t[j].update.frame.seqNo
  {
    hide Apply, Run, CountLive, LastSeen;
    RunKeeps(r, s, steps);
    var t := Run(r, s, steps).display.trace;
    SoundEverywhere(t, j);
    var u := t[..j + 1];
    assert u[..j] == t[..j];
    SeenAt(t[..j], i, t[j].update.frame.channel, t[j].epoch);
  }

  /** and the flag and the counters always say what the display was told. */
  lemma FlagAndCounters(r: Rta, s: Settings, steps: seq<RtaStep>)
    requires Untouched(r)
    ensures var g := Run(r, s, steps).display;
      && (g.live <==> g.trace != [] && g.trace[|g.trace| - 1].update.live)
      && g.frames == CountLive(g.trace, true) % TWO32
      && g.stale == CountLive(g.trace, false) % TWO32
  {
    hide Apply, Run, CountLive, LastSeen, Sound;
    RunKeeps(r, s, steps);
  }
}
