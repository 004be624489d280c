/**
 Which band frames are shown. In every run, exactly the usable ones that are recent and new to the display; a frame that
 is too old turns the display dark.
 */
module Freshness {
  import opened Wire
  import opened RoundRobin
  import opened RtaWire
  import opened RtaModel
  import opened RtaTrace

  /** The frame is at most `staleMs` old; 0xFFFF says that there never was one. */
  predicate Recent(f: BandFrame, staleMs: u32) { f.ageMs != 0xFFFF && f.ageMs <= staleMs }

  /** The sequence number of the last live update of a channel in this session, whether or not it was dark since. */
  function LastShown(t: seq<Shown>, ch: nat, epoch: nat): Parsed<byte> {
    if t == [] then Bad
    else
      var e := t[|t| - 1];
      if e.update.live && e.epoch == epoch && e.update.frame.channel == ch then Good(e.update.frame.seqNo)
      else LastShown(t[..|t| - 1], ch, epoch)
  }

  predicate Dark(t: seq<Shown>) { t == [] || !t[|t| - 1].update.live }

  /** Another frame than the one shown last for its channel, or one for a dark display. Only 16 channels are remembered. */
  predicate New(t: seq<Shown>, f: BandFrame, epoch: nat) {
    Dark(t) || f.channel >= 16 || LastShown(t, f.channel, epoch) != Good(f.seqNo)
  }

  /** The table of sequence numbers is what the trace says. */
  ghost predicate Knows(d: Display) {
    && (d.live <==> !Dark(d.trace))
    && Dated(d.trace, d.epoch)
    && (d.live ==> d.last == d.trace[|d.trace| - 1].update)
    && forall ch: Channel ::
         LastShown(d.trace, ch, d.epoch) == if Has(d.seqValid, ch) then Good(d.lastSeq[ch]) else Bad
  }

  // ----- one step -----

  lemma LastShownSnoc(t: seq<Shown>, e: Shown, ch: nat, epoch: nat)
    ensures LastShown(t + [e], ch, epoch)
      == if e.update.live && e.epoch == epoch && e.update.frame.channel == ch then Good(e.update.frame.seqNo)
         else LastShown(t, ch, epoch)
  {
    Snoc(t, e);
  }

  lemma {:induction false} NothingLater(t: seq<Shown>, epoch: nat, ch: nat)
    requires Dated(t, epoch)
    ensures LastShown(t, ch, epoch + 1) == Bad
  {
    if t != [] {
      NothingLater(t[..|t| - 1], epoch, ch);
    }
  }

  lemma NoneHas(ch: Channel)
    ensures !Has(0, ch)
  {
    assert And(0, Bit(ch)) == 0;
  }

  lemma SessionKnows(d: Display)
    requires Knows(d)
    ensures Knows(NewSession(d))
  {
    hide Has, LastShown;
    var g := NewSession(d);
    forall ch: Channel
      ensures LastShown(g.trace, ch, g.epoch) == if Has(g.seqValid, ch) then Good(g.lastSeq[ch]) else Bad
    {
      NothingLater(d.trace, d.epoch, ch);
      NoneHas(ch);
    }
  }

  /** The display is told once that what it shows is no longer live. */
  lemma DarkExactly(d: Display)
    requires Knows(d)
    ensures var g := GoDark(d);
      && Knows(g) && Dark(g.trace)
      && g.trace == (if Dark(d.trace) then d.trace
                     else d.trace + [Shown(d.trace[|d.trace| - 1].update.(live := false), d.epoch)])
  {
    hide Has, LastShown, Add32;
    var g := GoDark(d);
    if d.live {
      var e := Shown(d.last.(live := false), d.epoch);
      Snoc(d.trace, e);
      forall ch: Channel
        ensures LastShown(g.trace, ch, g.epoch) == LastShown(d.trace, ch, d.epoch)
      {
        LastShownSnoc(d.trace, e, ch, d.epoch);
      }
    }
  }

  lemma ShowKnows(d: Display, f: BandFrame, levelZero: byte)
    requires Knows(d)
    ensures var g := Show(d, f, levelZero);
      Knows(g) && g.trace == d.trace + [Shown(Update(f, levelZero, true), d.epoch)]
  {
    var g := Show(d, f, levelZero);
    var e := Shown(Update(f, levelZero, true), d.epoch);
    Snoc(d.trace, e);
    hide Has, LastShown, Noted, Add32;
    NotedKeeps(d, f);
    forall ch: Channel
      ensures LastShown(g.trace, ch, g.epoch) == if Has(g.seqValid, ch) then Good(g.lastSeq[ch]) else Bad
    {
      LastShownSnoc(d.trace, e, ch, d.epoch);
      ShowNotes(d, f, levelZero, ch);
    }
  }

  lemma NotedKeeps(d: Display, f: BandFrame)
    ensures var g := Noted(d, f); g == d.(lastSeq := g.lastSeq, seqValid := g.seqValid)
  {
    hide Or, Bit;
  }

  lemma SameIsNotNew(d: Display, f: BandFrame)
    requires Knows(d)
    ensures SameFrameAgain(d, f) <==> !New(d.trace, f, d.epoch)
  {
    hide Has, LastShown;
  }

  /** What a band reply with a usable frame does to the display. */
  ghost predicate ShownIf(d: Display, f: BandFrame, staleMs: u32, levelZero: byte, g: Display) {
    && Knows(g)
    && (f.bands == 0 ==> g.trace == d.trace)
    && (f.bands > 0 && !Recent(f, staleMs) ==>
          Dark(g.trace)
          && g.trace == (if Dark(d.trace) then d.trace
                         else d.trace + [Shown(d.trace[|d.trace| - 1].update.(live := false), d.epoch)]))
    && (f.bands > 0 && Recent(f, staleMs) ==>
          g.trace == (if New(d.trace, f, d.epoch) then d.trace + [Shown(Update(f, levelZero, true), d.epoch)] else d.trace))
  }

  lemma ReceivedShows(d: Display, f: BandFrame, staleMs: u32, levelZero: byte)
    requires Knows(d)
    ensures ShownIf(d, f, staleMs, levelZero, Received(d, f, staleMs, levelZero))
  {
    hide Knows, GoDark, Show, SameFrameAgain, New, Dark;
    DarkExactly(d);
    ShowKnows(d, f, levelZero);
    SameIsNotNew(d, f);
  }

  lemma BandsShow(r: Rta, s: Settings, data: seq<byte>, now: u32)
    requires Knows(r.display)
    ensures var g := OnBands(r, s, data, now);
      && Knows(g.display)
      && (ParseBandFrame(data).Bad? ==> g.display == r.display && g.dropped == Add32(r.dropped, 1))
      && (ParseBandFrame(data).Good? ==>
            g.dropped == r.dropped
            && ShownIf(r.display, ParseBandFrame(data).value, s.staleMs, r.caps.levelZero, g.display))
  {
    hide Knows, Add32, ParseBandFrame, Received, ShownIf;
    match ParseBandFrame(data)
    case Bad =>
    case Good(f) =>
      ReceivedShows(r.display, f, s.staleMs, r.caps.levelZero);
      IfKnows(r.display, f, s.staleMs, r.caps.levelZero, Received(r.display, f, s.staleMs, r.caps.levelZero));
  }

  lemma IfKnows(d: Display, f: BandFrame, staleMs: u32, levelZero: byte, g: Display)
    requires ShownIf(d, f, staleMs, levelZero, g)
    ensures Knows(g)
  {
    hide Knows, New, Dark;
  }

  // ----- every run -----

  /** The frames of the live updates, in order. */
  function LiveFrames(t: seq<Shown>): seq<BandFrame> {
    if t == [] then []
    else LiveFrames(t[..|t| - 1]) + (if t[|t| - 1].update.live then [t[|t| - 1].update.frame] else [])
  }

  lemma LiveSnoc(t: seq<Shown>, e: Shown)
    ensures LiveFrames(t + [e]) == LiveFrames(t) + (if e.update.live then [e.update.frame] else [])
  {
    Snoc(t, e);
  }

  /** The frame a step brings, if it is to be shown: it parses, has bands, is recent, and is new. */
  ghost function Due(r: Rta, s: Settings, e: RtaStep): seq<BandFrame> {
    if e.Bands? && ParseBandFrame(e.data).Good? then
      var f := ParseBandFrame(e.data).value;
      if f.bands > 0 && Recent(f, s.staleMs) && New(r.display.trace, f, r.display.epoch) then [f] else []
    else []
  }

  ghost function DueInRun(r: Rta, s: Settings, steps: seq<RtaStep>): seq<BandFrame> {
    if steps == [] then []
    else
      var before := steps[..|steps| - 1];
      DueInRun(r, s, before) + Due(Run(r, s, before), s, steps[|steps| - 1])
  }

  /** `g` shows what `d` did and perhaps says that it is no longer live. */
  ghost predicate NothingNew(d: Display, g: Display) { Knows(g) && LiveFrames(g.trace) == LiveFrames(d.trace) }

  lemma DarkNothingNew(d: Display)
    requires Knows(d)
    ensures NothingNew(d, GoDark(d))
  {
    hide Knows, LiveFrames;
    DarkExactly(d);
    if !Dark(d.trace) {
      LiveSnoc(d.trace, Shown(d.trace[|d.trace| - 1].update.(live := false), d.epoch));
    }
  }

  lemma SessionNothingNew(d: Display)
    requires Knows(d)
    ensures NothingNew(d, NewSession(d)) && NothingNew(d, GoDark(NewSession(d)))
  {
    hide Knows, LiveFrames;
    SessionKnows(d);
    DarkNothingNew(NewSession(d));
  }

  lemma OtherSteps(r: Rta, s: Settings, e: RtaStep)
    requires Knows(r.display) && !e.Bands?
    ensures NothingNew(r.display, Apply(r, s, e).display)
  {
    hide Knows, LiveFrames;
    if e.Enable? || e.Restart? || e.Identified? {
      CallsShowNothing(r, s, e);
    } else if e.Caps? || e.Centres? {
      hide OnCaps, OnCentres;
      TablesKeep(r, s, e.data, e.now);
    } else if e.Config? {
      hide OnConfig;
      ConfigShowsNothing(r, s, e.data, e.now);
    } else if e.Serve? {
      hide ServiceStep;
      ServiceKeeps(r, s, e.ready, e.room, e.now);
    } else {
      hide Apply;
      OthersKeep(r, s, e);
    }
  }

  lemma CallsShowNothing(r: Rta, s: Settings, e: RtaStep)
    requires Knows(r.display) && (e.Enable? || e.Restart? || e.Identified?)
    ensures NothingNew(r.display, Apply(r, s, e).display)
  {
    hide Knows, LiveFrames, GoDark, NewSession;
    DarkNothingNew(r.display);
    SessionNothingNew(r.display);
  }

  lemma ConfigShowsNothing(r: Rta, s: Settings, data: seq<byte>, now: u32)
    requires Knows(r.display)
    ensures NothingNew(r.display, OnConfig(r, s, data, now).display)
  {
    hide Knows, LiveFrames, Add32, ParseConfig, Matches, NewSession;
    SessionNothingNew(r.display);
  }

  lemma BandsLive(r: Rta, s: Settings, data: seq<byte>, now: u32)
    requires Knows(r.display)
    ensures var g := OnBands(r, s, data, now);
      Knows(g.display) && LiveFrames(g.display.trace) == LiveFrames(r.display.trace) + Due(r, s, Bands(data, now))
  {
    hide Knows, LiveFrames, ParseBandFrame, OnBands, New, Recent;
    BandsShow(r, s, data, now);
    var d := r.display;
    var t := d.trace;
    assert LiveFrames(t) + [] == LiveFrames(t);
    if ParseBandFrame(data).Good? {
      LiveSnoc(t, Shown(Update(ParseBandFrame(data).value, r.caps.levelZero, true), d.epoch));
      if !Dark(t) {
        LiveSnoc(t, Shown(t[|t| - 1].update.(live := false), d.epoch));
      }
    }
  }

  lemma {:induction false} RunShows(r: Rta, s: Settings, steps: seq<RtaStep>)
    requires Untouched(r) && r.display.seqValid == 0
    ensures var g := Run(r, s, steps).display;
      Knows(g) && LiveFrames(g.trace) == DueInRun(r, s, steps)
  {
    if steps == [] {
      forall ch: Channel ensures !Has(0, ch) { NoneHas(ch); }
    } else {
      hide Apply, Knows, LiveFrames, Due;
      var before, e := steps[..|steps| - 1], steps[|steps| - 1];
      RunShows(r, s, before);
      var p := Run(r, s, before);
      if e.Bands? {
        BandsLive(p, s, e.data, e.now);
        BandsIsStep(p, s, e);
      } else {
        OtherSteps(p, s, e);
        NotDue(p, s, e);
      }
    }
  }

  lemma BandsIsStep(r: Rta, s: Settings, e: RtaStep)
    requires e.Bands?
    ensures Apply(r, s, e) == OnBands(r, s, e.data, e.now) && e == Bands(e.data, e.now)
  {
    hide OnBands;
  }

  lemma NotDue(r: Rta, s: Settings, e: RtaStep)
    requires !e.Bands?
    ensures Due(r, s, e) == []
  {}

  /**
   In every run, whatever arrives and whoever calls, the live updates are exactly the frames that parse, have bands, are
   recent, and are new to the display when they arrive, in order.
   */
  lemma LiveExactly(r: Rta, s: Settings, steps: seq<RtaStep>)
    requires Untouched(r) && r.display.seqValid == 0
    ensures LiveFrames(Run(r, s, steps).display.trace) == DueInRun(r, s, steps)
  {
    hide Run, DueInRun, LiveFrames;
    RunShows(r, s, steps);
  }

  lemma {:induction false} DueIsRecent(r: Rta, s: Settings, steps: seq<RtaStep>, i: nat)
    requires i < |DueInRun(r, s, steps)|
    ensures var f := DueInRun(r, s, steps)[i]; f.bands > 0 && Recent(f, s.staleMs)
  {
    hide Run, New, ParseBandFrame;
    var before := steps[..|steps| - 1];
    if i < |DueInRun(r, s, before)| {
      DueIsRecent(r, s, before, i);
    }
  }

  lemma {:induction false} LiveIsThere(t: seq<Shown>, i: nat)
    requires i < |t| && t[i].update.live
    ensures t[i].update.frame in LiveFrames(t)
  {
    if i + 1 < |t| {
      LiveIsThere(t[..|t| - 1], i);
    }
  }

  /** So no live update is ever of a frame without bands or of a stale one. */
  lemma LiveIsRecent(r: Rta, s: Settings, steps: seq<RtaStep>, i: nat)
    requires Untouched(r) && r.display.seqValid == 0
    requires i < |Run(r, s, steps).display.trace| && Run(r, s, steps).display.trace[i].update.live
    ensures var f := Run(r, s, steps).display.trace[i].update.frame; f.bands > 0 && Recent(f, s.staleMs)
  {
    hide Run, DueInRun, LiveFrames, Recent;
    LiveExactly(r, s, steps);
    LiveIsThere(Run(r, s, steps).display.trace, i);
    var j :| 0 <= j < |DueInRun(r, s, steps)| && DueInRun(r, s, steps)[j] == Run(r, s, steps).display.trace[i].update.frame;
    DueIsRecent(r, s, steps, j);
  }

  /** And a usable frame that is too old always leaves the display dark. */
  lemma StaleIsDark(r: Rta, s: Settings, steps: seq<RtaStep>, data: seq<byte>, now: u32)
    requires Untouched(r) && r.display.seqValid == 0 && ParseBandFrame(data).Good?
    requires ParseBandFrame(data).value.bands > 0 && !Recent(ParseBandFrame(data).value, s.staleMs)
    ensures var g := OnBands(Run(r, s, steps), s, data, now).display; !g.live && Dark(g.trace)
  {
    hide Run, ParseBandFrame, Recent, OnBands, LastShown, New;
    RunShows(r, s, steps);
    BandsShow(Run(r, s, steps), s, data, now);
  }
}
