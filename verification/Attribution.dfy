/**
 Replies carry no request number. The hub attributes a reply to the request outstanding when it arrives; this is right
 as long as the device answers each transmission at most once, and never after the timeout of that transmission. Here
 the device is part of the run: what was transmitted, which transmissions it has answered, and which have timed out.
 */
module Attribution {
  import opened Wire
  import opened Queue
  import opened Clock32
  import opened HubModel
  import opened HubInvariant
  import opened Effects
  import opened Progress
  import opened Sending

  /** Transmissions are numbered as they are made; `answers` is the device's own record. */
  datatype World = World(hub: Hub, sent: seq<Txn>, answered: set<nat>, expired: set<nat>, answers: seq<Ending>)

  datatype Event =
    | HubStep(step: Step)                                              // anything but a response
    | Reply(i: nat, status: byte, data: seq<byte>, now: u32)           // the device answers transmission `i`
    | Stray(frameType: byte, status: byte, data: seq<byte>, now: u32)  // a response of the other kind

  /** The device answers the frame it received: type 0x01 with 0x81, any other with 0x82. */
  function AnswerType(wire: seq<byte>): byte { if |wire| > 1 && wire[1] == 0x01 then 0x81 else 0x82 }

  function AnswerTo(t: Txn): byte { AnswerType(FrameOfRequest(t)) }

  lemma AnswerIsExpected(t: Txn)
    ensures AnswerTo(t) == ExpectedResponse(t)
  {
    hide FrameOfRequest;
    RequestLayout(t);
  }

  predicate Possible(w: World, e: Event) {
    match e
    case HubStep(s) => !s.Response?
    case Reply(i, _, _, _) => i < |w.sent|
    case Stray(ft, _, _, _) => !(w.hub.hasCurrent && ft == AnswerTo(w.hub.current))
  }

  /** The two assumptions: answered at most once, and before its timeout or never. */
  predicate Prompt(w: World, e: Event) { e.Reply? ==> e.i !in w.answered && e.i !in w.expired }

  /** What the device recorded for this answer: retryable statuses are invitations to ask again, not answers. */
  function Answer(t: Txn, status: byte, data: seq<byte>): seq<Ending> {
    if status == STATUS_OK then [Ending(t.id, Ok(data))]
    else if IsRetryable(status) then []
    else [Ending(t.id, Rejected(status))]
  }

  function Next(w: World, cfg: Config, e: Event): World
    requires Possible(w, e)
  {
    match e
    case HubStep(s) =>
      var g := Apply(w.hub, cfg, s);
      w.(hub := g,
         sent := if !w.hub.hasCurrent && g.hasCurrent then w.sent + [g.current] else w.sent,
         expired := if w.hub.hasCurrent && !g.hasCurrent && w.sent != [] then w.expired + {|w.sent| - 1} else w.expired)
    case Reply(i, status, data, now) =>
      w.(hub := Apply(w.hub, cfg, Response(AnswerTo(w.sent[i]), status, data, now)), answered := w.answered + {i},
         answers := w.answers + Answer(w.sent[i], status, data))
    case Stray(ft, status, data, now) => w.(hub := Apply(w.hub, cfg, Response(ft, status, data, now)))
  }

  predicate IsReply(e: Ending) { e.fate.Ok? || e.fate.Rejected? }

  /** The callbacks that carry a reply, in the order they were made. */
  function Callbacks(log: seq<Ending>): seq<Ending> {
    if log == [] then [] else (if IsReply(log[0]) then [log[0]] else []) + Callbacks(log[1..])
  }

  /** Every transmission but the outstanding one is over, and all answers so far went to the right request. */
  ghost predicate Faithful(w: World) {
    && Inv(w.hub)
    && (w.hub.hasCurrent ==> w.sent != [] && w.sent[|w.sent| - 1] == w.hub.current)
    && (forall j :: 0 <= j < |w.sent| ==>
          (j !in w.answered && j !in w.expired <==> w.hub.hasCurrent && j == |w.sent| - 1))
    && (forall j :: j in w.answered || j in w.expired ==> j < |w.sent|)
    && Callbacks(w.hub.log) == w.answers
  }

  // ----- log bookkeeping -----

  lemma {:induction false} CallbacksConcat(s: seq<Ending>, t: seq<Ending>)
    ensures Callbacks(s + t) == Callbacks(s) + Callbacks(t)
  {
    hide IsReply;
    if s == [] {
      assert s + t == t;
    } else {
      assert (s + t)[1..] == s[1..] + t;
      CallbacksConcat(s[1..], t);
    }
  }

  lemma CallbacksOne(e: Ending)
    ensures Callbacks([e]) == (if IsReply(e) then [e] else []) && Callbacks([]) == []
  {
    assert [e][1..] == [];
  }

  /** `g` has the log of `h` and possibly endings that are not replies. */
  ghost predicate NoReplies(h: Hub, g: Hub) { Callbacks(g.log) == Callbacks(h.log) }

  lemma InsertNoReplies(h: Hub, t: Txn)
    ensures NoReplies(h, Insert(h, t))
  {
    hide Enqueue, Callbacks;
    var o := Enqueue(h.queue, t).1;
    CallbacksConcat(h.log, Endings(o, t));
    CallbacksOne(Ending(0, Flushed));
    if Endings(o, t) != [] {
      CallbacksOne(Endings(o, t)[0]);
    }
  }

  lemma {:induction false} FlushNoReplies(q: seq<Slot>)
    ensures Callbacks(FlushLog(q)) == []
  {
    if q != [] {
      FlushNoReplies(q[1..]);
      var e := if q[0].Used? then [Ending(q[0].txn.id, Flushed)] else [];
      CallbacksConcat(e, FlushLog(q[1..]));
      CallbacksOne(Ending(if q[0].Used? then q[0].txn.id else 0, Flushed));
    }
  }

  lemma FailNoReplies(h: Hub, now: u32)
    ensures NoReplies(h, FailCurrent(h, now))
  {
    hide Callbacks, FlushLog, AllFree, Add32;
    var e := Ending(h.current.id, Exhausted);
    CallbacksOne(e);
    CallbacksConcat(h.log, [e]);
    FlushNoReplies(h.queue);
    CallbacksConcat(h.log, FlushLog(h.queue));
    CallbacksConcat(h.log + FlushLog(h.queue), [e]);
  }

  lemma RetryNoReplies(h: Hub, cfg: Config, now: u32)
    ensures NoReplies(h, RetryOrDrop(h, cfg, now))
  {
    hide Callbacks, FailCurrent, Insert, BackoffMs, Add32;
    if h.hasCurrent {
      var again := h.current.(attempts := (h.current.attempts + 1) % 256);
      var g := h.(current := again);
      FailNoReplies(g, now);
      InsertNoReplies(g.(backoffUntil := Add32(now, BackoffMs(cfg, again.attempts)), mode := Backoff,
                         hasCurrent := false), again);
    }
  }

  lemma {:induction false} OfferAllNoReplies(h: Hub, ts: seq<Txn>)
    ensures NoReplies(h, OfferAll(h, ts))
    decreases |ts|
  {
    hide Callbacks, Insert;
    if ts != [] {
      InsertNoReplies(h.(nextId := h.nextId + 1), ts[0].(id := h.nextId));
      OfferAllNoReplies(Offer(h, ts[0]), ts[1..]);
    }
  }

  lemma StepNoReplies(h: Hub, cfg: Config, s: Step)
    requires !s.Response?
    ensures NoReplies(h, Apply(h, cfg, s))
  {
    if Offers(s) {
      OffersNoReplies(h, cfg, s);
    } else if s.TimersDue? {
      TimersNoReplies(h, cfg, s.now);
    } else {
      hide Apply, Callbacks;
      if s.Send? {
        SendFrame(h, cfg, s.now);
      } else {
        QuietFrame(h, cfg, s);
      }
    }
  }

  lemma OffersNoReplies(h: Hub, cfg: Config, s: Step)
    requires Offers(s)
    ensures NoReplies(h, Apply(h, cfg, s))
  {
    hide Callbacks, Insert, OfferAll, Elapsed, BurstFires, BurstReads;
    match s
    case Submit(t) => InsertNoReplies(h.(nextId := h.nextId + 1), t.(attempts := 0, id := h.nextId));
    case ReprobeDue(now) =>
      InsertNoReplies(h.(lastProbeAt := now, mode := Idle, nextId := h.nextId + 1),
                      Get(cfg, 0x7F, 7, OnPlatform, 0, NoFailAction).(id := h.nextId));
    case BurstDue(now) => OfferAllNoReplies(h.(refreshPending := false), BurstReads(h, cfg));
  }

  lemma TimersNoReplies(h: Hub, cfg: Config, now: u32)
    ensures NoReplies(h, Timers(h, cfg, now))
  {
    hide Callbacks, RetryOrDrop, Add32, Elapsed, Reached;
    RetryNoReplies(h.(timeouts := Add32(h.timeouts, 1)), cfg, now);
  }

  /** The reply to the outstanding request is logged under that request, and it is no longer outstanding. */
  lemma ReplyLogged(h: Hub, cfg: Config, status: byte, data: seq<byte>, now: u32)
    requires Inv(h) && h.hasCurrent
    ensures var g := HandleResponse(h, cfg, AnswerTo(h.current), status, data, now);
            && Callbacks(g.log) == Callbacks(h.log) + Answer(h.current, status, data)
            && !g.hasCurrent
  {
    hide Callbacks, RetryOrDrop, IsRetryable, UniqueKeys, AllMild, FindNext, AnswerTo;
    AnswerIsExpected(h.current);
    RetryNoReplies(h, cfg, now);
    RetryFrame(h, cfg, now);
    var a, b := Ending(h.current.id, Ok(data)), Ending(h.current.id, Rejected(status));
    CallbacksConcat(h.log, [a]);
    CallbacksConcat(h.log, [b]);
    CallbacksOne(a);
    CallbacksOne(b);
  }

  // ----- the theorem -----

  lemma HubStepFaithful(w: World, cfg: Config, s: Step)
    requires Faithful(w) && !s.Response? && cfg.Valid()
    ensures Faithful(Next(w, cfg, HubStep(s)))
  {
    hide Inv, Callbacks, Apply;
    ApplyKeeps(w.hub, cfg, s);
    StepNoReplies(w.hub, cfg, s);
    if w.hub.hasCurrent {
      OutstandingIsStable(w.hub, cfg, s);
    }
  }

  lemma ReplyFaithful(w: World, cfg: Config, e: Event)
    requires Faithful(w) && Possible(w, e) && Prompt(w, e) && e.Reply? && cfg.Valid()
    ensures Faithful(Next(w, cfg, e))
  {
    hide Inv, Callbacks, HandleResponse, IsRetryable, AnswerTo;
    assert w.hub.hasCurrent && e.i == |w.sent| - 1;
    ReplyLogged(w.hub, cfg, e.status, e.data, e.now);
    ApplyKeeps(w.hub, cfg, Response(AnswerTo(w.sent[e.i]), e.status, e.data, e.now));
  }

  lemma NextFaithful(w: World, cfg: Config, e: Event)
    requires Faithful(w) && Possible(w, e) && Prompt(w, e) && cfg.Valid()
    ensures Faithful(Next(w, cfg, e))
  {
    match e
    case HubStep(s) =>
      hide Faithful, Next;
      HubStepFaithful(w, cfg, s);
    case Reply(_, _, _, _) =>
      hide Faithful, Next;
      ReplyFaithful(w, cfg, e);
    case Stray(ft, status, data, now) =>
      hide Inv, Callbacks, AnswerTo;
      AnswerIsExpected(w.hub.current);
  }

  ghost predicate PromptRun(w: World, cfg: Config, events: seq<Event>)
    decreases |events|
  {
    events == [] || (Possible(w, events[0]) && Prompt(w, events[0]) && PromptRun(Next(w, cfg, events[0]), cfg, events[1..]))
  }

  function After(w: World, cfg: Config, events: seq<Event>): World
    requires PromptRun(w, cfg, events)
    decreases |events|
  {
    if events == [] then w else After(Next(w, cfg, events[0]), cfg, events[1..])
  }

  lemma {:induction false} RunFaithful(w: World, cfg: Config, events: seq<Event>)
    requires Faithful(w) && PromptRun(w, cfg, events) && cfg.Valid()
    ensures Faithful(After(w, cfg, events))
    decreases |events|
  {
    hide Faithful, Possible, Prompt, Next;
    if events != [] {
      NextFaithful(w, cfg, events[0]);
      RunFaithful(Next(w, cfg, events[0]), cfg, events[1..]);
    }
  }

  /**
   From power-on, under the two assumptions on the device, the callbacks made are exactly the device's answers, each
   under the request it answers and in the same order, whatever else happens on the link.
   */
  lemma RepliesReachTheirRequests(cfg: Config, now: u32, events: seq<Event>)
    requires cfg.Valid() && PromptRun(World(Boot(cfg, now), [], {}, {}, []), cfg, events)
    ensures var w := After(World(Boot(cfg, now), [], {}, {}, []), cfg, events);
            Callbacks(w.hub.log) == w.answers
  {
    hide Boot, Inv, After, PromptRun;
    BootInv(cfg, now);
    BootQuiet(cfg, now);
    RunFaithful(World(Boot(cfg, now), [], {}, {}, []), cfg, events);
  }

  /** Without the second assumption it goes wrong: an answer that comes late is given to the request outstanding then. */
  lemma LateReplyMisattributed(w: World, cfg: Config, i: nat, data: seq<byte>, now: u32)
    requires Faithful(w) && w.hub.hasCurrent && i < |w.sent| - 1 && w.sent[i].id != w.hub.current.id
    requires AnswerTo(w.sent[i]) == AnswerTo(w.hub.current)
    ensures var g := Next(w, cfg, Reply(i, STATUS_OK, data, now));
      && Callbacks(g.hub.log) == Callbacks(w.hub.log) + [Ending(w.hub.current.id, Ok(data))]
      && g.answers == w.answers + [Ending(w.sent[i].id, Ok(data))]
      && Callbacks(g.hub.log) != g.answers
  {
    hide Inv, Callbacks, HandleResponse, IsRetryable, AnswerTo;
    ReplyLogged(w.hub, cfg, STATUS_OK, data, now);
    var g := Next(w, cfg, Reply(i, STATUS_OK, data, now));
    assert Callbacks(g.hub.log)[|w.answers|] != g.answers[|w.answers|];
  }

  lemma BootQuiet(cfg: Config, now: u32)
    ensures Callbacks(Boot(cfg, now).log) == [] && !Boot(cfg, now).hasCurrent
  {
    hide Insert, AllFree, Callbacks;
    var h := PowerOn(cfg).(lastProbeAt := now, mode := Idle, nextId := 1);
    var probe := Get(cfg, 0x7F, 7, OnPlatform, 0, NoFailAction).(id := 0);
    CallbacksOne(Ending(0, Flushed));
    InsertNoReplies(h, probe);
    InsertFrame(h, probe);
  }
}
