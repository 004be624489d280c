/**
 Fair polling. The channels whose turn comes in a streaming run of the client are picks of the round robin. A turn passes
 also when the queue refuses the request; then the channel is skipped.
 */
module RtaPolling {
  import opened Wire
  import opened Clock32
  import opened RoundRobin
  import opened RtaWire
  import opened RtaModel

  /** The steps of a session that nobody interferes with: polls, their answers and failures, and the status reads. */
  predicate Steady(e: RtaStep) {
    e.Serve? || e.Bands? || e.BandsFailure? || e.Status? || e.OptionalFailure? || e.Control?
  }

  predicate Streams(r: Rta, s: Settings, es: seq<RtaStep>)
    decreases |es|
  {
    r.phase == Streaming && (es == [] || (Steady(es[0]) && Streams(Apply(r, s, es[0]), s, es[1..])))
  }

  /** The channel a step picks, if it picks one. */
  function Picked(r: Rta, s: Settings, e: RtaStep): seq<Channel> {
    if e.Serve? && ServiceStep(r, s, e.ready, e.room, e.now).1.AskBands?
    then [ServiceStep(r, s, e.ready, e.room, e.now).1.ch] else []
  }

  function PickedChannels(r: Rta, s: Settings, es: seq<RtaStep>): seq<Channel>
    decreases |es|
  {
    if es == [] then [] else Picked(r, s, es[0]) + PickedChannels(Apply(r, s, es[0]), s, es[1..])
  }

  /** For each pick, whether the queue took the request. */
  function Taken(r: Rta, s: Settings, es: seq<RtaStep>): seq<bool>
    decreases |es|
  {
    if es == [] then []
    else (if Picked(r, s, es[0]) == [] then [] else [es[0].room]) + Taken(Apply(r, s, es[0]), s, es[1..])
  }

  /** The channels left to poll, and the cursor, at each pick; the cursor also at the end. */
  ghost function Sets(r: Rta, s: Settings, es: seq<RtaStep>): seq<set<Channel>>
    decreases |es|
  {
    if es == [] then []
    else
      (if Picked(r, s, es[0]) == [] then [] else [Members(r.pollMask)]) + Sets(Apply(r, s, es[0]), s, es[1..])
  }

  function Cursors(r: Rta, s: Settings, es: seq<RtaStep>): seq<Channel>
    decreases |es|
  {
    if es == [] then [r.pollCursor]
    else (if Picked(r, s, es[0]) == [] then [] else [r.pollCursor]) + Cursors(Apply(r, s, es[0]), s, es[1..])
  }

  function End(r: Rta, s: Settings, es: seq<RtaStep>): Rta
    decreases |es|
  {
    if es == [] then r else End(Apply(r, s, es[0]), s, es[1..])
  }

  lemma ServePolls(r: Rta, s: Settings, e: RtaStep)
    requires r.phase == Streaming && e.Serve? && Apply(r, s, e).phase == Streaming
    ensures var g := Apply(r, s, e);
      && g.pollMask == r.pollMask
      && (if Picked(r, s, e) == [] then g.pollCursor == r.pollCursor
          else Nearest(Members(r.pollMask), r.pollCursor, Picked(r, s, e)[0]) && g.pollCursor == After(Picked(r, s, e)[0]))
  {
    hide Reached, Add32, Pick, Nearest, Members, After;
    PickIsNearest(r.pollMask, r.pollCursor);
  }

  lemma AnswerPolls(r: Rta, s: Settings, e: RtaStep)
    requires r.phase == Streaming && Steady(e) && !e.Serve?
    ensures var g := Apply(r, s, e); g.pollCursor == r.pollCursor && Members(g.pollMask) <= Members(r.pollMask)
  {
    hide Add32, OnCaps, OnCentres, OnConfig, ServiceStep, Received, ParseBandFrame, Less, Bit, IsRetryable, Members;
    if e.BandsFailure? {
      DropMember(r.pollMask, if e.wvalue < CHANNELS then e.wvalue else 0);
    }
  }

  lemma FirstOfRun(r: Rta, s: Settings, es: seq<RtaStep>)
    ensures |Cursors(r, s, es)| == |PickedChannels(r, s, es)| + 1 && |Sets(r, s, es)| == |PickedChannels(r, s, es)|
    ensures |Taken(r, s, es)| == |PickedChannels(r, s, es)|
    decreases |es|
  {
    hide Apply, Picked;
    if es != [] {
      AtMostOne(r, s, es[0]);
      FirstOfRun(Apply(r, s, es[0]), s, es[1..]);
    }
  }

  lemma AtMostOne(r: Rta, s: Settings, e: RtaStep)
    ensures |Picked(r, s, e)| <= 1
  {
    hide ServiceStep;
  }

  /** The picks of a streaming run are the round robin's, over sets that only shrink. */
  lemma {:induction false} RunPicks(r: Rta, s: Settings, es: seq<RtaStep>)
    requires Streams(r, s, es)
    ensures Picks(Sets(r, s, es), Cursors(r, s, es), PickedChannels(r, s, es)) && Shrinking(Sets(r, s, es))
    ensures Cursors(r, s, es)[0] == r.pollCursor
    ensures forall i :: 0 <= i < |Sets(r, s, es)| ==>
      Members(End(r, s, es).pollMask) <= Sets(r, s, es)[i] <= Members(r.pollMask)
    ensures Members(End(r, s, es).pollMask) <= Members(r.pollMask)
    decreases |es|
  {
    hide Apply, Picked, Steady, Members, Nearest, RoundRobin.After;
    FirstOfRun(r, s, es);
    if es != [] {
      var g := Apply(r, s, es[0]);
      AtMostOne(r, s, es[0]);
      FirstOfRun(g, s, es[1..]);
      RunPicks(g, s, es[1..]);
      StepPolls(r, s, es[0]);
      assert g.phase == Streaming;
      if Picked(r, s, es[0]) != [] {
        var sets, cursors, picks := Sets(g, s, es[1..]), Cursors(g, s, es[1..]), PickedChannels(g, s, es[1..]);
        assert Picked(r, s, es[0]) == [Picked(r, s, es[0])[0]];
        PickFirst(Members(r.pollMask), r.pollCursor, Picked(r, s, es[0])[0], sets, cursors, picks);
      }
    }
  }

  lemma StepPolls(r: Rta, s: Settings, e: RtaStep)
    requires r.phase == Streaming && Steady(e) && Apply(r, s, e).phase == Streaming
    ensures var g := Apply(r, s, e);
      && Members(g.pollMask) <= Members(r.pollMask)
      && (if Picked(r, s, e) == [] then g.pollCursor == r.pollCursor
          else Nearest(Members(r.pollMask), r.pollCursor, Picked(r, s, e)[0]) && g.pollCursor == After(Picked(r, s, e)[0]))
  {
    if e.Serve? {
      ServePolls(r, s, e);
    } else {
      AnswerPolls(r, s, e);
    }
  }

  lemma PickFirst(m: set<Channel>, cursor: Channel, ch: Channel,
                  sets: seq<set<Channel>>, cursors: seq<Channel>, picks: seq<Channel>)
    requires Picks(sets, cursors, picks) && Shrinking(sets) && Nearest(m, cursor, ch) && cursors[0] == After(ch)
    requires sets == [] || sets[0] <= m
    ensures Picks([m] + sets, [cursor] + cursors, [ch] + picks) && Shrinking([m] + sets)
  {
    hide Nearest, After;
  }

  /** A channel the device does not refuse has its turn within as many picks as there were channels, whoever is refused. */
  lemma TurnInTime(r: Rta, s: Settings, es: seq<RtaStep>, x: Channel)
    requires Streams(r, s, es) && x in Members(End(r, s, es).pollMask)
    requires |PickedChannels(r, s, es)| >= |Members(r.pollMask)|
    ensures exists i :: 0 <= i < |Members(r.pollMask)| && PickedChannels(r, s, es)[i] == x
  {
    hide Streams, Members, Rank, Picks, Shrinking, Sets, Cursors, PickedChannels, End, Taken;
    RunPicks(r, s, es);
    FirstOfRun(r, s, es);
    var sets, cursors, picks := Sets(r, s, es), Cursors(r, s, es), PickedChannels(r, s, es);
    OneMember(Members(r.pollMask), x);
    RankBelow(sets[0], cursors[0], x);
    Smaller(sets[0], Members(r.pollMask));
    ServedInTime(sets, cursors, picks, x);
  }

  /** A request for `x` was made: it was picked and the queue took it. */
  ghost predicate Requested(r: Rta, s: Settings, es: seq<RtaStep>, x: Channel)
    decreases |es|
  {
    es != [] &&
      ((Picked(r, s, es[0]) == [x] && es[0].room && Apply(r, s, es[0]).busy)
       || Requested(Apply(r, s, es[0]), s, es[1..], x))
  }

  /** The queue has room whenever it is the turn of `x`. */
  ghost predicate NeverTurnedAway(r: Rta, s: Settings, es: seq<RtaStep>, x: Channel) {
    |Taken(r, s, es)| == |PickedChannels(r, s, es)|
    && forall i :: 0 <= i < |PickedChannels(r, s, es)| ==> PickedChannels(r, s, es)[i] == x ==> Taken(r, s, es)[i]
  }

  /** A pick becomes a request exactly if the queue takes it; otherwise the turn passes all the same. */
  lemma PickBecomesRequest(r: Rta, s: Settings, e: RtaStep)
    requires r.phase == Streaming && Picked(r, s, e) != []
    ensures e.Serve? && (Apply(r, s, e).busy <==> e.room)
    ensures Apply(r, s, e).pollCursor == After(Picked(r, s, e)[0])
  {
    hide Reached, Add32, Pick, After;
  }

  /** Requested exactly if some pick of the channel was taken. */
  lemma {:induction false} RequestedIffTaken(r: Rta, s: Settings, es: seq<RtaStep>, x: Channel)
    requires Streams(r, s, es)
    ensures |Taken(r, s, es)| == |PickedChannels(r, s, es)|
    ensures Requested(r, s, es, x) <==>
      exists i :: 0 <= i < |PickedChannels(r, s, es)| && PickedChannels(r, s, es)[i] == x && Taken(r, s, es)[i]
    decreases |es|
  {
    hide Apply, Picked, Steady;
    FirstOfRun(r, s, es);
    if es != [] {
      var e, g := es[0], Apply(r, s, es[0]);
      RequestedIffTaken(g, s, es[1..], x);
      AtMostOne(r, s, e);
      var picks, taken := PickedChannels(g, s, es[1..]), Taken(g, s, es[1..]);
      if Picked(r, s, e) == [] {
        assert PickedChannels(r, s, es) == picks && Taken(r, s, es) == taken;
      } else {
        PickBecomesRequest(r, s, e);
        var ch := Picked(r, s, e)[0];
        assert Picked(r, s, e) == [ch];
        assert PickedChannels(r, s, es) == [ch] + picks && Taken(r, s, es) == [e.room] + taken;
        FirstOrLater(ch, e.room, picks, taken, x);
      }
    }
  }

  lemma FirstOrLater(ch: Channel, room: bool, picks: seq<Channel>, taken: seq<bool>, x: Channel)
    requires |picks| == |taken|
    ensures (exists i :: 0 <= i < |[ch] + picks| && ([ch] + picks)[i] == x && ([room] + taken)[i])
      <==> (ch == x && room) || exists i :: 0 <= i < |picks| && picks[i] == x && taken[i]
  {
    if i :| 0 <= i < |picks| && picks[i] == x && taken[i] {
      assert ([ch] + picks)[i + 1] == x && ([room] + taken)[i + 1];
    }
    if ch == x && room {
      assert ([ch] + picks)[0] == x && ([room] + taken)[0];
    }
  }

  /**
   So a channel is requested within as many turns as there were channels, if the device does not refuse it and the queue
   has room whenever its turn comes.
   */
  lemma PolledInTime(r: Rta, s: Settings, es: seq<RtaStep>, x: Channel)
    requires Streams(r, s, es) && x in Members(End(r, s, es).pollMask) && NeverTurnedAway(r, s, es, x)
    requires |PickedChannels(r, s, es)| >= |Members(r.pollMask)|
    ensures exists i :: 0 <= i < |Members(r.pollMask)| && PickedChannels(r, s, es)[i] == x && Taken(r, s, es)[i]
    ensures Requested(r, s, es, x)
  {
    hide Streams, Members, PickedChannels, Taken, End, Requested;
    TurnInTime(r, s, es, x);
    RequestedIffTaken(r, s, es, x);
  }

  // ----- which channels are left -----

  /** The device has refused the channel, rather than been silent, busy, locked or hit by a damaged request. */
  function RefusedBy(e: RtaStep): set<Channel> {
    if e.BandsFailure? && e.status != 0xFF && e.status != 0x01 && e.status != 0x04 && e.status != 0x05
    then {if e.wvalue < 16 then e.wvalue else 0} else {}
  }

  function RefusedInRun(es: seq<RtaStep>): set<Channel> {
    if es == [] then {} else RefusedBy(es[0]) + RefusedInRun(es[1..])
  }

  lemma FailureDrops(r: Rta, s: Settings, status: byte, wvalue: u16, now: u32)
    ensures Members(BandsFailed(r, s, status, wvalue, now).pollMask)
      == Members(r.pollMask) - RefusedBy(BandsFailure(status, wvalue, now))
  {
    DropMember(r.pollMask, if wvalue < CHANNELS then wvalue else 0);
    hide Add32, Members, Less, Bit;
  }

  lemma OthersKeepMask(r: Rta, s: Settings, e: RtaStep)
    requires r.phase == Streaming && Steady(e) && !e.BandsFailure? && Apply(r, s, e).phase == Streaming
    ensures Apply(r, s, e).pollMask == r.pollMask
  {
    hide Add32, Reached, Pick, Received, ParseBandFrame;
  }

  lemma StepDrops(r: Rta, s: Settings, e: RtaStep)
    requires r.phase == Streaming && Steady(e) && Apply(r, s, e).phase == Streaming
    ensures Members(Apply(r, s, e).pollMask) == Members(r.pollMask) - RefusedBy(e)
  {
    if e.BandsFailure? {
      hide BandsFailed, Members;
      FailureDrops(r, s, e.status, e.wvalue, e.now);
    } else {
      hide Apply, Members, Steady;
      OthersKeepMask(r, s, e);
    }
  }

  /** In every streaming run, the channels still polled are the accepted ones without those the device has refused. */
  lemma {:induction false} DroppedExactly(r: Rta, s: Settings, es: seq<RtaStep>)
    requires Streams(r, s, es)
    ensures Members(End(r, s, es).pollMask) == Members(r.pollMask) - RefusedInRun(es)
    decreases |es|
  {
    hide Apply, Members, RefusedBy, Steady;
    if es != [] {
      StepDrops(r, s, es[0]);
      DroppedExactly(Apply(r, s, es[0]), s, es[1..]);
    }
  }

  /** A service that is due asks the nearest channel left; with none left the client gives the device up. */
  lemma AsksWhoIsLeft(r: Rta, s: Settings, room: bool, now: u32)
    requires r.phase == Streaming && r.configured && !r.busy && Reached(now, r.nextDue) && !Reached(now, r.statusDue)
    ensures var (g, a) := ServiceStep(r, s, true, room, now);
      if Members(r.pollMask) == {} then g == r.(phase := Unsupported) && a == NoAsk
      else g.phase == Streaming && a.AskBands? && Nearest(Members(r.pollMask), r.pollCursor, a.ch)
  {
    hide Reached, Add32, Pick, Members, Nearest;
    PickIsNearest(r.pollMask, r.pollCursor);
  }

  // ----- status reads leave the channels their turns -----

  /** The services of the run look at the clock at these true times, before `until`. */
  ghost predicate LookedAt(es: seq<RtaStep>, from: nat, until: nat) {
    forall i :: 0 <= i < |es| && es[i].Serve? ==> exists time: nat :: from <= time < until && es[i].now == Clock(time)
  }

  function StatusAsked(r: Rta, s: Settings, es: seq<RtaStep>): nat
    decreases |es|
  {
    if es == [] then 0
    else
      (if es[0].Serve? && ServiceStep(r, s, es[0].ready, es[0].room, es[0].now).1.AskStatus? then 1 else 0)
      + StatusAsked(Apply(r, s, es[0]), s, es[1..])
  }

  /** The status is asked for exactly when it is due and anything may be asked at all; it comes before the channels. */
  lemma StatusFirst(r: Rta, s: Settings, ready: bool, room: bool, now: u32)
    requires r.phase == Streaming
    ensures ServiceStep(r, s, ready, room, now).1.AskStatus? <==>
      r.configured && !r.busy && ready && Reached(now, r.nextDue) && Reached(now, r.statusDue)
  {
    hide Reached, Pick, Add32;
  }

  /** A status read puts the next one off by its interval. */
  lemma StatusPutOff(r: Rta, s: Settings, ready: bool, room: bool, now: u32)
    requires ServiceStep(r, s, ready, room, now).1.AskStatus?
    ensures ServiceStep(r, s, ready, room, now).0.statusDue == (now + s.statusIntervalMs) % TWO32
  {
    hide Reached, Pick;
  }

  lemma NoStatusYet(r: Rta, s: Settings, e: RtaStep, from: nat, until: nat)
    requires r.phase == Streaming && Steady(e) && r.statusDue == Clock(until) && until <= from + 0x8000_0000
    requires e.Serve? ==> exists time: nat :: from <= time < until && e.now == Clock(time)
    ensures !(e.Serve? && ServiceStep(r, s, e.ready, e.room, e.now).1.AskStatus?)
    ensures Apply(r, s, e).statusDue == r.statusDue
  {
    hide Clock, Elapsed, Add32, Pick, Less, Bit, Received, ParseBandFrame, IsRetryable;
    if e.Serve? {
      var time: nat :| from <= time < until && e.now == Clock(time);
      ReachedIsTrueTime(time, until);
    }
  }

  /** Until it is due again no service of a streaming run asks for the status: all turns are the channels'. */
  lemma {:induction false} TurnsAreChannels(r: Rta, s: Settings, es: seq<RtaStep>, from: nat, until: nat)
    requires Streams(r, s, es) && r.statusDue == Clock(until) && until <= from + 0x8000_0000 && LookedAt(es, from, until)
    ensures StatusAsked(r, s, es) == 0
    decreases |es|
  {
    hide Apply, Clock, Steady, ServiceStep;
    if es != [] {
      NoStatusYet(r, s, es[0], from, until);
      assert LookedAt(es[1..], from, until) by {
        forall i | 0 <= i < |es[1..]| && es[1..][i].Serve?
          ensures exists time: nat :: from <= time < until && es[1..][i].now == Clock(time)
        {
          assert es[1..][i] == es[i + 1];
        }
      }
      TurnsAreChannels(Apply(r, s, es[0]), s, es[1..], from, until);
    }
  }

  // ----- how a channel starves -----

  /** A queue that is full at each turn of channel 0 and has room at each turn of channel 1, `n` times over. */
  function FullAtZero(s: Settings, now: u32, n: nat): seq<RtaStep>
    decreases n
  {
    if n == 0 then []
    else
      var later := Add32(now, s.intervalMs);
      [Serve(true, false, now), Serve(true, true, later), Bands([], later)]
      + FullAtZero(s, Add32(later, s.intervalMs), n - 1)
  }

  /** The status read does not come between. */
  ghost predicate NoStatusDue(s: Settings, statusDue: u32, now: u32, n: nat)
    decreases n
  {
    n == 0 ||
      (var later := Add32(now, s.intervalMs);
       !Reached(now, statusDue) && !Reached(later, statusDue)
       && NoStatusDue(s, statusDue, Add32(later, s.intervalMs), n - 1))
  }

  /** Channels 0 and 1 stream, it is the turn of 0, and a poll is due now. */
  predicate TurnOfZero(r: Rta, now: u32) {
    r.phase == Streaming && r.configured && !r.busy && r.pollMask == 3 && r.pollCursor != 1 && r.nextDue == now
  }

  lemma PickOfTwo(cursor: Channel)
    ensures Pick(3, cursor) == if cursor == 1 then 1 else 0
  {
    hide Pick;
    PickIsNearest(3, cursor);
    TwoMembers();
  }

  lemma TwoMembers()
    ensures Members(3) == {0, 1}
  {
    forall c: Channel
      ensures Has(3, c) <==> c == 0 || c == 1
    {
      BitOfThree(c);
    }
  }

  lemma BitOfThree(c: Channel)
    ensures Has(3, c) <==> c == 0 || c == 1
  {}

  lemma FirstTurn(r: Rta, s: Settings, now: u32)
    requires TurnOfZero(r, now) && !Reached(now, r.statusDue)
    ensures Picked(r, s, Serve(true, false, now)) == [0]
    ensures Apply(r, s, Serve(true, false, now)) == r.(pollCursor := 1, nextDue := Add32(now, s.intervalMs))
  {
    ReachedNow(now);
    PickOfTwo(r.pollCursor);
    hide Reached, Pick, Add32;
  }

  lemma SecondTurn(r: Rta, s: Settings, later: u32)
    requires r.phase == Streaming && r.configured && !r.busy && r.pollMask == 3 && r.pollCursor == 1 && r.nextDue == later
    requires !Reached(later, r.statusDue)
    ensures Picked(r, s, Serve(true, true, later)) == [1]
    ensures Apply(r, s, Serve(true, true, later)) == r.(pollCursor := 2, busy := true)
  {
    ReachedNow(later);
    PickOfTwo(1);
    hide Reached, Pick, Add32;
  }

  lemma ReachedNow(now: u32)
    ensures Reached(now, now)
  {}

  lemma BadAnswer(r: Rta, s: Settings, later: u32)
    ensures Apply(r, s, Bands([], later))
      == r.(busy := false, nextDue := Add32(later, s.intervalMs), dropped := Add32(r.dropped, 1))
    ensures Picked(r, s, Bands([], later)) == []
  {
    hide Add32;
  }

  /** Channel 0 starves: in all those rounds it is picked every time and never requested. */
  lemma {:induction false} ZeroStarves(r: Rta, s: Settings, now: u32, n: nat)
    requires TurnOfZero(r, now) && NoStatusDue(s, r.statusDue, now, n)
    ensures Streams(r, s, FullAtZero(s, now, n)) && !Requested(r, s, FullAtZero(s, now, n), 0)
    ensures |PickedChannels(r, s, FullAtZero(s, now, n))| == 2 * n
    decreases n
  {
    if n > 0 {
      hide Apply, Picked, Reached, Add32;
      var later := Add32(now, s.intervalMs);
      var e0, e1, e2 := Serve(true, false, now), Serve(true, true, later), Bands([], later);
      var rest := FullAtZero(s, Add32(later, s.intervalMs), n - 1);
      FirstTurn(r, s, now);
      var r1 := Apply(r, s, e0);
      SecondTurn(r1, s, later);
      var r2 := Apply(r1, s, e1);
      BadAnswer(r2, s, later);
      var r3 := Apply(r2, s, e2);
      ZeroStarves(r3, s, Add32(later, s.intervalMs), n - 1);
      OneStepOn(r2, s, e2, rest);
      OneStepOn(r1, s, e1, [e2] + rest);
      OneStepOn(r, s, e0, [e1] + ([e2] + rest));
      assert FullAtZero(s, now, n) == [e0] + ([e1] + ([e2] + rest));
    }
  }

  lemma OneStepOn(r: Rta, s: Settings, e: RtaStep, es: seq<RtaStep>)
    requires r.phase == Streaming && Steady(e)
    ensures var g := Apply(r, s, e);
      && (Streams(r, s, [e] + es) <==> Streams(g, s, es))
      && PickedChannels(r, s, [e] + es) == Picked(r, s, e) + PickedChannels(g, s, es)
      && (Requested(r, s, [e] + es, 0) <==>
            (Picked(r, s, e) == [0] && e.room && g.busy) || Requested(g, s, es, 0))
  {
    hide Apply, Picked, Steady;
    assert ([e] + es)[1..] == es;
  }

  lemma OneMember(s: set<Channel>, x: Channel)
    requires x in s
    ensures |s| >= 1
  {}

  lemma RankBelow(s: set<Channel>, cursor: Channel, x: Channel)
    requires x in s
    ensures Rank(s, cursor, x) < |s|
  {
    var b := Before(s, cursor, x);
    assert b <= s - {x};
    Smaller(b, s - {x});
  }
}
