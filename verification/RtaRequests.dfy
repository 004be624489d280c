/**
 The analyser's requests and their answers. `open` lists the requests the queue has taken and that have neither been
 answered nor lost; the client itself only remembers whether it thinks there is one.
 */
module RtaRequests {
  import opened Wire
  import opened Clock32
  import opened RoundRobin
  import opened RtaWire
  import opened RtaModel

  datatype Traffic = Traffic(rta: Rta, open: seq<Ask>)

  datatype Event =
    | Service(ready: bool, room: bool, now: u32)
    | Answer(i: nat, handler: RtaStep)   // the reply or failure handler of an open request runs
    | Lose(i: nat)                       // evicted or flushed: nobody is told
    | Call(call: RtaStep)                // a setter, the link going down, a device identified

  /** Which handlers are registered with a request. */
  predicate Handles(a: Ask, e: RtaStep) {
    match a
    case NoAsk => false
    case AskCaps => e.Caps? || e.SetupFailure?
    case AskCentres(_) => e.Centres? || e.OptionalFailure?
    case AskConfig => e.Config? || e.SetupFailure?
    case AskSetConfig(_) => e.Config? || e.SetupFailure?
    case AskStop => e.Control? || e.OptionalFailure?
    case AskStatus => e.Status? || e.OptionalFailure?
    case AskBands(_) => e.Bands? || e.BandsFailure?
  }

  predicate IsCall(e: RtaStep) { e.Enable? || e.Tap? || e.Mask? || e.Restart? || e.Identified? }

  predicate Possible(t: Traffic, e: Event) {
    match e
    case Service(_, _, _) => true
    case Answer(i, h) => i < |t.open| && Handles(t.open[i], h)
    case Lose(i) => i < |t.open|
    case Call(c) => IsCall(c)
  }

  function Without(open: seq<Ask>, i: nat): seq<Ask>
    requires i < |open|
  {
    open[..i] + open[i + 1..]
  }

  /** The request made by an event, if any. */
  function Asked(t: Traffic, s: Settings, e: Event): seq<Ask> {
    if !e.Service? then []
    else
      var a := ServiceStep(t.rta, s, e.ready, e.room, e.now).1;
      if a == NoAsk || !e.room then [] else [a]
  }

  function Next(t: Traffic, s: Settings, e: Event): Traffic
    requires Possible(t, e)
  {
    match e
    case Service(ready, room, now) => Traffic(Apply(t.rta, s, Serve(ready, room, now)), t.open + Asked(t, s, e))
    case Answer(i, h) => Traffic(Apply(t.rta, s, h), Without(t.open, i))
    case Lose(i) => Traffic(t.rta, Without(t.open, i))
    case Call(c) => Traffic(Apply(t.rta, s, c), t.open)
  }

  ghost predicate PossibleRun(t: Traffic, s: Settings, es: seq<Event>)
    decreases |es|
  {
    es == [] || (Possible(t, es[0]) && PossibleRun(Next(t, s, es[0]), s, es[1..]))
  }

  function After(t: Traffic, s: Settings, es: seq<Event>): Traffic
    requires PossibleRun(t, s, es)
    decreases |es|
  {
    if es == [] then t else After(Next(t, s, es[0]), s, es[1..])
  }

  // ----- one request at a time -----

  /** Calls that make the client forget a request: effective setters, and both kinds of reset. */
  predicate Disturbs(r: Rta, c: RtaStep) {
    match c
    case Enable(on, _, _) => r.configured && on != r.enabled && (on ==> r.phase != Unsupported)
    case Tap(tap, _) => tap != r.desired.tap && r.enabled && r.phase != Unsupported
    case Mask(mask, _) => mask != 0 && mask != r.desired.channelMask && r.enabled && r.phase != Unsupported
    case _ => true
  }

  predicate Calm(t: Traffic, e: Event) { e.Call? && t.open != [] ==> !Disturbs(t.rta, e.call) }

  ghost predicate CalmRun(t: Traffic, s: Settings, es: seq<Event>)
    requires PossibleRun(t, s, es)
    decreases |es|
  {
    es == [] || (Calm(t, es[0]) && CalmRun(Next(t, s, es[0]), s, es[1..]))
  }

  predicate Single(t: Traffic) { |t.open| <= 1 && (t.open != [] ==> t.rta.busy) }

  /** The service asks only when nothing is remembered as outstanding, and remembers what it asks. */
  lemma ServiceAsksAlone(r: Rta, s: Settings, ready: bool, room: bool, now: u32)
    ensures var (g, a) := ServiceStep(r, s, ready, room, now);
      && (a != NoAsk ==> !r.busy && r.configured && Reached(now, r.nextDue))
      && (a != NoAsk && room ==> g.busy)
      && (a == NoAsk || !room ==> g.busy == r.busy)
  {
    hide Reached, Pick, Add32, After;
  }

  lemma ResetForgets(r: Rta, s: Settings, c: RtaStep)
    requires c.Restart? || c.Identified?
    ensures var g := Apply(r, s, c);
      && !g.busy && g.configured == r.configured && g.enabled == r.enabled
      && (r.configured && g.enabled ==> g.phase == ReadConfig || g.phase == NeedCaps)
      && (!g.enabled ==> g.phase == Disabled)
  {
    hide Add32, GoDark, NewSession, OnCaps, OnCentres, OnConfig, OnBands, ServiceStep;
  }

  lemma SetterForgets(r: Rta, s: Settings, c: RtaStep)
    requires c.Enable? || c.Tap? || c.Mask?
    ensures var g := Apply(r, s, c);
      && g.configured == r.configured
      && (r.busy ==> (g.busy <==> !Disturbs(r, c)))
      && (r.configured && Disturbs(r, c) && g.enabled ==> g.phase == ReadConfig || g.phase == NeedCaps)
      && (r.configured && Disturbs(r, c) && !g.enabled ==> g.phase == Disabled || (!r.busy && g.phase == Stopping))
  {
    hide Add32, GoDark, OnCaps, OnCentres, OnConfig, OnBands, ServiceStep;
  }

  lemma CallKeepsBusy(r: Rta, s: Settings, c: RtaStep)
    requires IsCall(c) && r.busy
    ensures Apply(r, s, c).busy <==> !Disturbs(r, c)
  {
    if c.Restart? || c.Identified? {
      hide Apply;
      ResetForgets(r, s, c);
    } else {
      hide Apply, Disturbs;
      SetterForgets(r, s, c);
    }
  }

  lemma StaysSingle(t: Traffic, s: Settings, e: Event)
    requires Single(t) && Possible(t, e) && Calm(t, e)
    ensures Single(Next(t, s, e))
  {
    hide Disturbs, Handles;
    match e
    case Service(ready, room, now) =>
      hide ServiceStep;
      ServiceAsksAlone(t.rta, s, ready, room, now);
    case Call(c) =>
      hide Apply;
      if t.open != [] { CallKeepsBusy(t.rta, s, c); }
    case Answer(i, h) => hide Apply;
    case Lose(i) =>
  }

  /**
   Over every run in which no setter takes effect, no link goes down and no device is identified while a request is
   open, at most one request is open, and the client knows of it.
   */
  lemma {:induction false} OneAtATime(t: Traffic, s: Settings, es: seq<Event>)
    requires Single(t) && PossibleRun(t, s, es) && CalmRun(t, s, es)
    ensures Single(After(t, s, es))
    decreases |es|
  {
    hide Single, Next, Possible, Calm;
    if es != [] {
      StaysSingle(t, s, es[0]);
      OneAtATime(Next(t, s, es[0]), s, es[1..]);
    }
  }

  lemma RestartPhase(r: Rta, s: Settings, c: RtaStep)
    requires r.configured && r.busy && IsCall(c) && Disturbs(r, c)
    ensures var g := Apply(r, s, c);
      && g.configured && !g.busy
      && (if g.enabled then g.phase == ReadConfig || g.phase == NeedCaps else g.phase == Disabled)
  {
    hide Apply, Disturbs;
    if c.Restart? || c.Identified? {
      ResetForgets(r, s, c);
    } else {
      SetterForgets(r, s, c);
    }
  }

  lemma ServeFromStart(r: Rta, s: Settings, now: u32)
    requires r.configured && !r.busy && (r.phase == ReadConfig || r.phase == NeedCaps || r.phase == Disabled)
    ensures ServiceStep(r, s, true, true, now).1 != NoAsk <==> r.phase != Disabled && Reached(now, r.nextDue)
  {
    hide Reached, Pick, Add32, After;
  }

  /**
   Each of those calls does break it: with one request open, the next service pass that is due opens a second one,
   exactly if the call leaves the client enabled.
   */
  lemma SecondRequest(t: Traffic, s: Settings, c: RtaStep, now: u32)
    requires |t.open| == 1 && t.rta.busy && t.rta.configured && IsCall(c) && Disturbs(t.rta, c)
    ensures var u := Next(t, s, Call(c));
      |Next(u, s, Service(true, true, now)).open| == 2 <==> u.rta.enabled && Reached(now, u.rta.nextDue)
  {
    hide Apply, Disturbs, ServiceStep, Reached;
    RestartPhase(t.rta, s, c);
    ServeFromStart(Apply(t.rta, s, c), s, now);
  }

  lemma FirstRequest(r: Rta, s: Settings, now: u32)
    requires r.configured && !r.enabled && r.phase == Disabled && !r.busy && !r.capsValid
    ensures var t := Next(Next(Traffic(r, []), s, Call(Enable(true, true, now))), s, Service(true, true, now));
      t.open == [AskCaps] && t.rta.configured && t.rta.enabled && t.rta.phase == NeedCaps && t.rta.desired == r.desired
  {
    DueNow(now);
    hide Reached, Pick, Add32;
  }

  lemma ThenTap(t: Traffic, s: Settings, tap: byte, now: u32)
    requires t.rta.configured && t.rta.enabled && t.rta.phase == NeedCaps && tap != t.rta.desired.tap
    ensures var u := Next(t, s, Call(Tap(tap, now)));
      u.open == t.open && u.rta.configured && !u.rta.busy && u.rta.phase == ReadConfig && Reached(now, u.rta.nextDue)
  {
    DueNow(now);
    hide Reached, Add32;
  }

  /** A run that opens two: enable, ask for the capabilities, change the tap, ask for the configuration. */
  lemma TwoAtOnce(r: Rta, s: Settings, tap: byte, now: u32)
    requires r.configured && !r.enabled && r.phase == Disabled && !r.busy && !r.capsValid && tap != r.desired.tap
    ensures var es := [Call(Enable(true, true, now)), Service(true, true, now), Call(Tap(tap, now)),
                       Service(true, true, now)];
      PossibleRun(Traffic(r, []), s, es) && After(Traffic(r, []), s, es).open == [AskCaps, AskConfig]
  {
    hide Next, Reached;
    var e0, e1 := Call(Enable(true, true, now)), Service(true, true, now);
    var e2, e3 := Call(Tap(tap, now)), Service(true, true, now);
    var t0 := Traffic(r, []);
    var t1 := Next(t0, s, e0);
    var t2 := Next(t1, s, e1);
    FirstRequest(r, s, now);
    var t3 := Next(t2, s, e2);
    ThenTap(t2, s, tap, now);
    FromReadConfig(t3, s, now);
    Unroll(t3, s, e3, []);
    Unroll(t2, s, e2, [e3]);
    Unroll(t1, s, e1, [e2, e3]);
    Unroll(t0, s, e0, [e1, e2, e3]);
  }

  lemma FromReadConfig(t: Traffic, s: Settings, now: u32)
    requires t.rta.configured && !t.rta.busy && t.rta.phase == ReadConfig && Reached(now, t.rta.nextDue)
    ensures Next(t, s, Service(true, true, now)).open == t.open + [AskConfig]
  {
    hide Reached;
  }

  lemma DueNow(now: u32)
    ensures Reached(now, now) && Add32(now, 0) == now
  {}

  lemma Unroll(t: Traffic, s: Settings, e: Event, es: seq<Event>)
    requires Possible(t, e) && PossibleRun(Next(t, s, e), s, es)
    ensures PossibleRun(t, s, [e] + es) && After(t, s, [e] + es) == After(Next(t, s, e), s, es)
  {
    hide Next, Possible;
    assert ([e] + es)[1..] == es;
  }

  // ----- a lost request -----

  /** The client waits for an answer that will never come. */
  predicate Stuck(t: Traffic) { t.rta.busy && t.open == [] }

  ghost predicate Undisturbed(t: Traffic, s: Settings, es: seq<Event>)
    requires PossibleRun(t, s, es)
    decreases |es|
  {
    es == [] || (!(es[0].Call? && Disturbs(t.rta, es[0].call)) && Undisturbed(Next(t, s, es[0]), s, es[1..]))
  }

  lemma StaysStuck(t: Traffic, s: Settings, e: Event)
    requires Stuck(t) && Possible(t, e) && !(e.Call? && Disturbs(t.rta, e.call))
    ensures Stuck(Next(t, s, e)) && Asked(t, s, e) == []
  {
    hide Disturbs, Handles;
    match e
    case Service(ready, room, now) =>
      hide ServiceStep;
      ServiceAsksAlone(t.rta, s, ready, room, now);
    case Call(c) =>
      hide Apply;
      CallKeepsBusy(t.rta, s, c);
  }

  lemma {:induction false} StuckRun(t: Traffic, s: Settings, es: seq<Event>)
    requires Stuck(t) && PossibleRun(t, s, es) && Undisturbed(t, s, es)
    ensures AskedInRun(t, s, es) == [] && Stuck(After(t, s, es))
    decreases |es|
  {
    hide Stuck, Next, Possible, Asked, Disturbs;
    if es != [] {
      StaysStuck(t, s, es[0]);
      StuckRun(Next(t, s, es[0]), s, es[1..]);
    }
  }

  /**
   One lost request stops the client: if the only open request is evicted from the queue, nothing more is asked until a
   setter takes effect, the link goes down, or a device is identified.
   */
  lemma LostRequestStops(t: Traffic, s: Settings, e: Event, es: seq<Event>)
    requires t.open == [] && e.Service? && Asked(t, s, e) != []
    requires PossibleRun(Next(Next(t, s, e), s, Lose(0)), s, es)
    requires Undisturbed(Next(Next(t, s, e), s, Lose(0)), s, es)
    ensures AskedInRun(Next(Next(t, s, e), s, Lose(0)), s, es) == []
    ensures Stuck(After(Next(Next(t, s, e), s, Lose(0)), s, es))
  {
    assert Stuck(Next(Next(t, s, e), s, Lose(0))) by {
      hide ServiceStep;
      ServiceAsksAlone(t.rta, s, e.ready, e.room, e.now);
    }
    hide Next, Stuck, Asked;
    StuckRun(Next(Next(t, s, e), s, Lose(0)), s, es);
  }

  /** An instance: the capabilities request of a client just enabled is evicted. */
  lemma LostCapabilities(r: Rta, s: Settings, now: u32)
    requires r.configured && !r.enabled && r.phase == Disabled && !r.busy && !r.capsValid
    ensures var t := Next(Traffic(r, []), s, Call(Enable(true, true, now)));
      Asked(t, s, Service(true, true, now)) == [AskCaps]
      && Stuck(Next(Next(t, s, Service(true, true, now)), s, Lose(0)))
  {
    FirstRequest(r, s, now);
    DueNow(now);
    hide Reached, Pick, Add32;
  }

  // ----- silence after disabling -----

  /** Requests whose answers carry the bring-up on, whether or not anybody wants it any more. */
  predicate BringsUp(a: Ask) { a.AskCaps? || a.AskCentres? || a.AskConfig? || a.AskSetConfig? }

  predicate Stopped(r: Rta) { !r.enabled && (r.phase == Disabled || r.phase == Unsupported) }

  /** Nothing is asked any more, except that a courtesy stop may be about to be sent. */
  ghost predicate Winding(t: Traffic) {
    || (Stopped(t.rta) && forall i :: 0 <= i < |t.open| ==> !BringsUp(t.open[i]))
    || (!t.rta.enabled && t.rta.phase == Stopping && (t.open == [] || (t.open == [AskStop] && t.rta.busy)))
  }

  /** The courtesy stop is still to be sent. */
  function StopsLeft(t: Traffic): nat { if t.rta.phase == Stopping && !t.rta.busy then 1 else 0 }

  predicate Wakes(t: Traffic, e: Event) { e.Call? && e.call.Enable? && e.call.on && t.rta.configured }

  lemma ServiceWinds(t: Traffic, s: Settings, e: Event)
    requires Winding(t) && e.Service?
    ensures var g := Next(t, s, e);
      && Winding(g) && |Asked(t, s, e)| + StopsLeft(g) <= StopsLeft(t)
      && (Asked(t, s, e) == [] || Asked(t, s, e) == [AskStop])
  {
    hide Reached, Pick, Add32, BringsUp;
    assert t.open + [] == t.open;
  }

  lemma CallWinds(t: Traffic, s: Settings, e: Event)
    requires Winding(t) && e.Call? && IsCall(e.call) && !Wakes(t, e)
    ensures Winding(Next(t, s, e)) && StopsLeft(Next(t, s, e)) <= StopsLeft(t)
  {
    hide Add32, GoDark, NewSession, OnCaps, OnCentres, OnConfig, OnBands, ServiceStep;
  }

  lemma AnswerWinds(t: Traffic, s: Settings, e: Event)
    requires Winding(t) && Possible(t, e) && e.Answer?
    ensures Winding(Next(t, s, e)) && StopsLeft(Next(t, s, e)) <= StopsLeft(t)
  {
    assert !BringsUp(t.open[e.i]);
    HarmlessAnswer(t.rta, s, t.open[e.i], e.handler);
    hide Apply;
  }

  lemma HarmlessAnswer(r: Rta, s: Settings, a: Ask, h: RtaStep)
    requires Handles(a, h) && !BringsUp(a)
    requires !r.enabled && (r.phase == Disabled || r.phase == Unsupported || (r.phase == Stopping && a == AskStop))
    ensures var g := Apply(r, s, h);
      !g.enabled && g.phase == if r.phase == Stopping then Disabled else r.phase
  {
    hide Add32, OnCaps, OnCentres, OnConfig, ServiceStep, Received, ParseBandFrame, Less, Bit, IsRetryable;
  }

  function AskedInRun(t: Traffic, s: Settings, es: seq<Event>): seq<Ask>
    requires PossibleRun(t, s, es)
    decreases |es|
  {
    if es == [] then [] else Asked(t, s, es[0]) + AskedInRun(Next(t, s, es[0]), s, es[1..])
  }

  ghost predicate NoWaking(t: Traffic, s: Settings, es: seq<Event>)
    requires PossibleRun(t, s, es)
    decreases |es|
  {
    es == [] || (!Wakes(t, es[0]) && NoWaking(Next(t, s, es[0]), s, es[1..]))
  }

  lemma StepWinds(t: Traffic, s: Settings, e: Event)
    requires Winding(t) && Possible(t, e) && !Wakes(t, e)
    ensures var g := Next(t, s, e);
      && Winding(g) && |Asked(t, s, e)| + StopsLeft(g) <= StopsLeft(t)
      && (Asked(t, s, e) == [] || Asked(t, s, e) == [AskStop])
  {
    if e.Service? {
      ServiceWinds(t, s, e);
    } else {
      assert Asked(t, s, e) == [];
      hide Asked, Wakes;
      if e.Call? {
        CallWinds(t, s, e);
      } else if e.Answer? {
        AnswerWinds(t, s, e);
      }
    }
  }

  lemma {:induction false} AtMostOneStop(t: Traffic, s: Settings, es: seq<Event>)
    requires Winding(t) && PossibleRun(t, s, es) && NoWaking(t, s, es)
    ensures AskedInRun(t, s, es) == [] || AskedInRun(t, s, es) == [AskStop]
    ensures |AskedInRun(t, s, es)| <= StopsLeft(t)
    decreases |es|
  {
    hide Winding, Next, Possible, Asked, Wakes;
    if es != [] {
      StepWinds(t, s, es[0]);
      AtMostOneStop(Next(t, s, es[0]), s, es[1..]);
    }
  }

  /**
   After disabling with no bring-up request open, whatever happens until it is enabled again, the client asks for
   nothing but at most one courtesy stop.
   */
  lemma SilentAfterDisabling(t: Traffic, s: Settings, online: bool, now: u32, es: seq<Event>)
    requires Single(t) && t.rta.configured && t.rta.enabled && forall i :: 0 <= i < |t.open| ==> !BringsUp(t.open[i])
    requires PossibleRun(Next(t, s, Call(Enable(false, online, now))), s, es)
    requires NoWaking(Next(t, s, Call(Enable(false, online, now))), s, es)
    ensures var asks := AskedInRun(Next(t, s, Call(Enable(false, online, now))), s, es); asks == [] || asks == [AskStop]
  {
    assert Winding(Next(t, s, Call(Enable(false, online, now)))) by {
      hide GoDark, Add32;
    }
    hide Next, Winding, PossibleRun, NoWaking, AskedInRun;
    AtMostOneStop(Next(t, s, Call(Enable(false, online, now))), s, es);
  }

  /** A bring-up answer that arrives after disabling wakes the client, unless it fails or ends in "unsupported". */
  lemma BringUpWakes(t: Traffic, s: Settings, i: nat, h: RtaStep)
    requires Stopped(t.rta) && i < |t.open| && BringsUp(t.open[i]) && Handles(t.open[i], h)
    ensures !Stopped(Next(t, s, Answer(i, h)).rta) <==>
      match h
      case Caps(data, _) => |data| < CAPS_LEN || data[0] == CFG_VERSION
      case SetupFailure(_, _) => false
      case OptionalFailure(_) => false
      case _ => true
  {
    if h.Caps? {
      hide OnCaps;
      CapsWake(t.rta, s, h.data, h.now);
    } else if h.Centres? {
      hide Extended, Add32;
    } else if h.Config? {
      hide OnConfig;
      ConfigWakes(t.rta, s, h.data, h.now);
    } else {
      hide Add32;
    }
  }

  lemma CapsWake(r: Rta, s: Settings, data: seq<byte>, now: u32)
    requires Stopped(r)
    ensures !Stopped(OnCaps(r, s, data, now)) <==> |data| < CAPS_LEN || data[0] == CFG_VERSION
  {
    hide Add32, Settle, Least;
  }

  lemma ConfigWakes(r: Rta, s: Settings, data: seq<byte>, now: u32)
    requires Stopped(r)
    ensures !Stopped(OnConfig(r, s, data, now))
  {
    hide Add32, ParseConfig, NewSession, Matches;
  }
}
