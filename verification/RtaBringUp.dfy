/**
 Bringing the spectrum analyser up: capabilities, the table of band centres, the configuration, and at most one attempt
 to change it. One reply answers each request; nobody calls a setter meanwhile.
 */
module RtaBringUp {
  import opened Wire
  import opened RtaWire
  import opened RtaModel
  import opened RtaSetup

  datatype Reply = Accepted(data: seq<byte>, now: u32) | Refused(status: byte, now: u32)

  /** The handler registered with the request of each phase. */
  function Handle(r: Rta, s: Settings, e: Reply): Rta {
    match AskOf(r)
    case AskCaps => if e.Accepted? then OnCaps(r, s, e.data, e.now) else SetupFailed(r, e.status, e.now)
    case AskCentres(_) => if e.Accepted? then OnCentres(r, e.data, e.now) else OptionalFailed(r, s, e.now)
    case AskConfig => if e.Accepted? then OnConfig(r, s, e.data, e.now) else SetupFailed(r, e.status, e.now)
    case AskSetConfig(_) => if e.Accepted? then OnConfig(r, s, e.data, e.now) else SetupFailed(r, e.status, e.now)
    case _ => r
  }

  /** Long enough where a record is expected, and not the synthetic "no answer" status where that is retried for ever. */
  predicate Adequate(r: Rta, e: Reply) {
    match AskOf(r)
    case AskCaps => if e.Accepted? then |e.data| >= CAPS_LEN else e.status != LINK_FAILED
    case AskConfig => if e.Accepted? then |e.data| >= CONFIG_LEN else e.status != LINK_FAILED
    case AskSetConfig(_) => e.Accepted? || e.status != LINK_FAILED
    case _ => true
  }

  predicate BringingUp(r: Rta) {
    || r.phase == NeedCaps || r.phase == NeedCentres || r.phase == ReadConfig || r.phase == SetConfig
    || r.phase == VerifyConfig
  }

  predicate Finished(r: Rta) { r.phase == Streaming || r.phase == Unsupported }

  /** The table is short while it is being read, and no chunk so far was empty. */
  predicate InOrder(r: Rta) {
    && (BringingUp(r) || Finished(r))
    && (r.phase == NeedCentres ==> |r.centres| < r.caps.maxBands <= MAX_BANDS && 1 <= r.chunk <= 1 + |r.centres|)
  }

  /** How many replies bring-up can still take. */
  function Measure(r: Rta): nat
    requires InOrder(r)
  {
    match r.phase
    case NeedCaps => 1 + MAX_BANDS + 3
    case NeedCentres => (r.caps.maxBands - |r.centres|) + 3
    case ReadConfig => 3
    case SetConfig => 2
    case VerifyConfig => 1
    case _ => 0
  }

  lemma CapsReply(r: Rta, s: Settings, data: seq<byte>, now: u32)
    requires |data| >= CAPS_LEN
    ensures var g := OnCaps(r, s, data, now);
      && InOrder(g) && g.phase != NeedCaps
      && (Measure(g) <= g.caps.maxBands + 3 <= MAX_BANDS + 3 || g.phase == Unsupported)
  {
    hide Add32;
  }

  lemma CentresReply(r: Rta, data: seq<byte>, now: u32)
    requires r.phase == NeedCentres && InOrder(r)
    ensures var g := OnCentres(r, data, now);
      InOrder(g) && Measure(g) < Measure(r) && g.caps == r.caps && g.phase != NeedCaps
    ensures OnCentres(r, data, now).centres == Cut(r.centres + Words(data), r.caps.maxBands)
  {
    hide Add32, Words;
    CutAppend(r.centres, Words(data), r.caps.maxBands);
  }

  /** The first `n` elements, or all if there are fewer. */
  function Cut(w: seq<bv16>, n: nat): seq<bv16> { w[..Least(|w|, n)] }

  lemma CutAppend(a: seq<bv16>, b: seq<bv16>, n: nat)
    requires |a| <= n
    ensures Cut(a + b, n) == a + b[..Least(|b|, n - |a|)]
  {}

  lemma ConfigReply(r: Rta, s: Settings, data: seq<byte>, now: u32)
    requires r.phase == SetConfig || ((r.phase == ReadConfig || r.phase == VerifyConfig) && |data| >= CONFIG_LEN)
    ensures var g := OnConfig(r, s, data, now);
      InOrder(g) && Measure(g) < Measure(r) && g.caps == r.caps && g.phase != NeedCaps && g.centres == r.centres
  {
    hide Add32, Matches, Number, Join, NewSession;
  }

  lemma FailureReply(r: Rta, s: Settings, status: byte, now: u32)
    requires InOrder(r) && BringingUp(r) && Adequate(r, Refused(status, now))
    ensures var g := Handle(r, s, Refused(status, now));
      InOrder(g) && Measure(g) < Measure(r) && g.caps == r.caps && g.phase != NeedCaps && g.centres == r.centres
  {
    hide Add32;
  }

  /** Every reply that can be used brings the end nearer, also when a chunk brings a single word. */
  lemma MeasureFalls(r: Rta, s: Settings, e: Reply)
    requires InOrder(r) && BringingUp(r) && Adequate(r, e)
    ensures var g := Handle(r, s, e);
      && InOrder(g) && Measure(g) < Measure(r) && g.phase != NeedCaps
      && (r.phase == NeedCaps ==> Measure(g) <= g.caps.maxBands + 3 || Finished(g))
      && (r.phase != NeedCaps ==> g.caps == r.caps)
      && (r.phase != NeedCaps && r.phase != NeedCentres ==> g.centres == r.centres)
  {
    hide OnCaps, OnCentres, OnConfig;
    if e.Refused? {
      FailureReply(r, s, e.status, e.now);
    } else {
      if r.phase == NeedCaps {
        CapsReply(r, s, e.data, e.now);
      } else if r.phase == NeedCentres {
        CentresReply(r, e.data, e.now);
      } else {
        ConfigReply(r, s, e.data, e.now);
      }
    }
  }

  // ----- runs -----

  function After(r: Rta, s: Settings, es: seq<Reply>): Rta
    decreases |es|
  {
    if es == [] then r else After(Handle(r, s, es[0]), s, es[1..])
  }

  predicate AllAdequate(r: Rta, s: Settings, es: seq<Reply>)
    decreases |es|
  {
    es == [] || (Adequate(r, es[0]) && AllAdequate(Handle(r, s, es[0]), s, es[1..]))
  }

  lemma StaysFinished(r: Rta, s: Settings, es: seq<Reply>)
    requires Finished(r)
    ensures After(r, s, es) == r
  {}

  lemma {:induction false} Ends(r: Rta, s: Settings, es: seq<Reply>)
    requires InOrder(r) && AllAdequate(r, s, es) && |es| >= Measure(r)
    ensures Finished(After(r, s, es))
    decreases |es|
  {
    if Finished(r) {
      StaysFinished(r, s, es);
    } else {
      MeasureFalls(r, s, es[0]);
      hide Handle;
      Ends(Handle(r, s, es[0]), s, es[1..]);
    }
  }

  lemma {:induction false} CapsStay(r: Rta, s: Settings, es: seq<Reply>)
    requires InOrder(r) && AllAdequate(r, s, es) && r.phase != NeedCaps
    ensures After(r, s, es).caps == r.caps
    decreases |es|
  {
    if Finished(r) {
      StaysFinished(r, s, es);
    } else if es != [] {
      MeasureFalls(r, s, es[0]);
      hide Handle;
      CapsStay(Handle(r, s, es[0]), s, es[1..]);
    }
  }

  /** Bring-up takes at most one reply for the capabilities, one per promised band and three for the configuration. */
  lemma BringUpEnds(r: Rta, s: Settings, es: seq<Reply>)
    requires r.phase == NeedCaps && AllAdequate(r, s, es) && es != []
    requires |es| >= 1 + After(r, s, es).caps.maxBands + 3
    ensures Finished(After(r, s, es))
  {
    MeasureFalls(r, s, es[0]);
    hide Handle;
    var g := Handle(r, s, es[0]);
    if Finished(g) {
      StaysFinished(g, s, es[1..]);
    } else {
      CapsStay(g, s, es[1..]);
      Ends(g, s, es[1..]);
    }
  }

  // ----- what is asked and collected -----

  /** All the words of the chunks accepted during the run. */
  function ChunkWords(r: Rta, s: Settings, es: seq<Reply>): seq<bv16>
    decreases |es|
  {
    if es == [] then []
    else
      (if r.phase == NeedCentres && es[0].Accepted? then Words(es[0].data) else [])
      + ChunkWords(Handle(r, s, es[0]), s, es[1..])
  }

  lemma {:induction false} NoMoreChunks(r: Rta, s: Settings, es: seq<Reply>)
    requires InOrder(r) && AllAdequate(r, s, es) && r.phase != NeedCaps && r.phase != NeedCentres
    ensures ChunkWords(r, s, es) == [] && After(r, s, es).centres == r.centres && ChunksAsked(r, s, es) == []
    decreases |es|
  {
    if es != [] {
      if Finished(r) {
        assert Handle(r, s, es[0]) == r;
      } else {
        MeasureFalls(r, s, es[0]);
        LaterPhases(r, s, es[0]);
      }
      hide Handle;
      NoMoreChunks(Handle(r, s, es[0]), s, es[1..]);
    }
  }

  lemma LaterPhases(r: Rta, s: Settings, e: Reply)
    requires r.phase == ReadConfig || r.phase == SetConfig || r.phase == VerifyConfig
    ensures Handle(r, s, e).phase != NeedCentres
    ensures Handle(r, s, e).phase == SetConfig ==> r.phase == ReadConfig || e.Refused?
  {
    hide OnConfig, Add32;
    if e.Accepted? {
      ConfigPhases(r, s, e.data, e.now);
    }
  }

  /** The table is the chunks in order of arrival, cut to the promised number of bands. */
  lemma {:induction false} TableIsChunks(r: Rta, s: Settings, es: seq<Reply>)
    requires InOrder(r) && AllAdequate(r, s, es) && r.phase == NeedCentres
    ensures After(r, s, es).centres == Cut(r.centres + ChunkWords(r, s, es), r.caps.maxBands)
    decreases |es|
  {
    if es == [] {
      assert r.centres + [] == r.centres;
    } else {
      MeasureFalls(r, s, es[0]);
      var g := Handle(r, s, es[0]);
      var w := if es[0].Accepted? then Words(es[0].data) else [];
      assert g.centres == Cut(r.centres + w, r.caps.maxBands) by {
        if es[0].Accepted? {
          CentresReply(r, es[0].data, es[0].now);
        } else {
          assert r.centres + w == r.centres;
        }
      }
      TableStep(r, s, es, g, w);
    }
  }

  lemma {:induction false} TableStep(r: Rta, s: Settings, es: seq<Reply>, g: Rta, w: seq<bv16>)
    requires InOrder(g) && es != [] && g == Handle(r, s, es[0]) && AllAdequate(g, s, es[1..]) && g.phase != NeedCaps
    requires r.phase == NeedCentres && g.caps == r.caps && w == (if es[0].Accepted? then Words(es[0].data) else [])
    requires g.centres == Cut(r.centres + w, r.caps.maxBands)
    ensures After(r, s, es).centres == Cut(r.centres + ChunkWords(r, s, es), r.caps.maxBands)
    decreases |es|, 0
  {
    hide Handle, Words;
    var rest := ChunkWords(g, s, es[1..]);
    if g.phase == NeedCentres {
      TableIsChunks(g, s, es[1..]);
      CutTwice(r.centres + w, rest, r.caps.maxBands);
    } else {
      NoMoreChunks(g, s, es[1..]);
      assert r.centres + w + [] == r.centres + w;
    }
    assert (r.centres + w) + rest == r.centres + (w + rest);
  }

  lemma CutTwice(a: seq<bv16>, b: seq<bv16>, n: nat)
    ensures |a| <= n ==> Cut(Cut(a, n) + b, n) == Cut(a + b, n)
    ensures |a| > n ==> Cut(Cut(a, n) + b, n) == Cut(a + b, n)
  {}

  /** The chunk numbers asked for during the run. */
  function ChunksAsked(r: Rta, s: Settings, es: seq<Reply>): seq<nat>
    decreases |es|
  {
    if es == [] then []
    else
      (if AskOf(r).AskCentres? then [AskOf(r).chunk] else []) + ChunksAsked(Handle(r, s, es[0]), s, es[1..])
  }

  /** Chunks are asked for in order, without a gap or a repetition, and the number stays small. */
  lemma {:induction false} ChunksInOrder(r: Rta, s: Settings, es: seq<Reply>, i: nat)
    requires InOrder(r) && AllAdequate(r, s, es) && r.phase == NeedCentres && i < |ChunksAsked(r, s, es)|
    ensures ChunksAsked(r, s, es)[i] == r.chunk + i <= MAX_BANDS
    decreases |es|
  {
    MeasureFalls(r, s, es[0]);
    var g := Handle(r, s, es[0]);
    if g.phase == NeedCentres {
      assert g.chunk == r.chunk + 1;
      hide Handle;
      if i > 0 {
        ChunksInOrder(g, s, es[1..], i - 1);
      }
    } else {
      NoMoreChunks(g, s, es[1..]);
    }
  }

  /** The configuration writes asked for during the run. */
  function WritesAsked(r: Rta, s: Settings, es: seq<Reply>): nat
    decreases |es|
  {
    if es == [] then 0
    else (if AskOf(r).AskSetConfig? then 1 else 0) + WritesAsked(Handle(r, s, es[0]), s, es[1..])
  }

  /** The device's configuration is written at most once, and streaming starts on another one only after that attempt. */
  lemma {:induction false} OneWrite(r: Rta, s: Settings, es: seq<Reply>)
    requires InOrder(r) && AllAdequate(r, s, es)
    ensures WritesAsked(r, s, es) <= (if r.phase == VerifyConfig || Finished(r) then 0 else 1)
    ensures var g := After(r, s, es);
      BringingUp(r) && g.phase == Streaming ==>
        && g.pollMask == g.applied.channelMask
        && (Matches(g.applied, g.desired) || r.phase == VerifyConfig || WritesAsked(r, s, es) == 1)
    decreases |es|
  {
    if es != [] {
      var g := Handle(r, s, es[0]);
      if Finished(r) {
        OneWrite(g, s, es[1..]);
      } else {
        MeasureFalls(r, s, es[0]);
        WriteStep(r, s, es[0]);
        hide Handle, Matches;
        OneWrite(g, s, es[1..]);
        if Finished(g) {
          StaysFinished(g, s, es[1..]);
        }
      }
    }
  }

  lemma TablePhases(r: Rta, s: Settings, e: Reply)
    requires r.phase == NeedCaps || r.phase == NeedCentres
    ensures Handle(r, s, e).phase != VerifyConfig && Handle(r, s, e).phase != Streaming
  {
    hide Add32, ParseCaps, Words, OnConfig, WithCaps, Settle;
  }

  lemma ConfigPhases(r: Rta, s: Settings, data: seq<byte>, now: u32)
    ensures var g := OnConfig(r, s, data, now);
      && g.phase != NeedCentres
      && (g.phase == SetConfig ==> r.phase != SetConfig && r.phase != VerifyConfig)
      && (r.phase == SetConfig ==> g.phase == VerifyConfig)
      && (r.phase == VerifyConfig && |data| >= CONFIG_LEN ==> g.phase == Streaming)
      && (g.phase == VerifyConfig ==> r.phase == SetConfig)
      && (g.phase == Streaming ==>
            g.pollMask == g.applied.channelMask && (Matches(g.applied, g.desired) || r.phase == VerifyConfig))
  {
    hide Add32, ParseConfig, Number, NewSession, Matches;
    ParsesIfLong(data);
  }

  /**
   The device's own record decides: streaming starts on it exactly if tap, channel mask, FFT size and flags are the wanted
   ones, with the reported mask to poll; otherwise it is written. The other fields do not matter.
   */
  lemma RecordDecides(r: Rta, s: Settings, data: seq<byte>, now: u32)
    requires r.phase == ReadConfig && |data| >= 12
    ensures var g := OnConfig(r, s, data, now);
      var d := r.desired;
      var same := data[1] == d.tap && data[4] == d.fftOrder && data[9] == d.flags
                  && Join(data[2], data[3]) == d.channelMask;
      && g.phase == (if same then Streaming else SetConfig)
      && (same ==> g.pollMask == Join(data[2], data[3]) && g.pollCursor == 0)
      && !g.busy && g.nextDue == now && g.desired == d
  {
    hide Join, NewSession, StartStreaming, Add32;
    Add32Zero(now);
    var c := ParseConfig(data).value;
    StreamingStarts(r.(applied := c), s, now);
  }

  lemma ParsesIfLong(data: seq<byte>)
    ensures ParseConfig(data).Good? <==> |data| >= CONFIG_LEN
  {
    hide Join;
  }

  lemma WriteStep(r: Rta, s: Settings, e: Reply)
    requires BringingUp(r) && Adequate(r, e)
    ensures var g := Handle(r, s, e);
      && (r.phase == SetConfig ==> g.phase == VerifyConfig || Finished(g))
      && (r.phase == VerifyConfig ==> Finished(g))
      && (g.phase == VerifyConfig ==> r.phase == SetConfig)
      && (g.phase == Streaming ==>
            g.pollMask == g.applied.channelMask && (Matches(g.applied, g.desired) || r.phase == VerifyConfig))
  {
    if r.phase == NeedCaps || r.phase == NeedCentres {
      TablePhases(r, s, e);
      hide Handle;
    } else {
      hide OnConfig, OnCaps, OnCentres, Matches;
      if e.Accepted? {
        ConfigPhases(r, s, e.data, e.now);
      }
    }
  }
}
