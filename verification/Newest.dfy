/**
 "The newest value wins." Setters rely on a waiting request being overwritten by a newer one of the same identity. That
 holds for fresh requests; a retry re-enters the queue the same way and brings its older value back.
 */
module Newest {
  import opened Wire
  import opened Queue
  import opened Clock32
  import opened HubModel
  import opened HubInvariant
  import opened Effects
  import opened Progress
  import opened Drain

  // ----- what was asked for last -----

  /** The last accepted value of each identity, after a fresh request has been offered. */
  function Note(h: Hub, m: map<Key, seq<byte>>, t: Txn): map<Key, seq<byte>> {
    if Enqueue(h.queue, t.(id := h.nextId)).1 == Refused then m else m[KeyOf(t) := t.payload]
  }

  function NoteAll(h: Hub, m: map<Key, seq<byte>>, ts: seq<Txn>): map<Key, seq<byte>>
    decreases |ts|
  {
    if ts == [] then m else NoteAll(Offer(h, ts[0]), Note(h, m, ts[0]), ts[1..])
  }

  function ProbeRequest(cfg: Config): Txn { Get(cfg, 0x7F, 7, OnPlatform, 0, NoFailAction) }

  function NoteStep(h: Hub, cfg: Config, m: map<Key, seq<byte>>, s: Step): map<Key, seq<byte>> {
    match s
    case Submit(t) => Note(h, m, t.(attempts := 0))
    case ReprobeDue(now) =>
      if Reprobes(h, now) then Note(h.(lastProbeAt := now, mode := Idle), m, ProbeRequest(cfg)) else m
    case BurstDue(now) => if BurstFires(h, now) then NoteAll(h.(refreshPending := false), m, BurstReads(h, cfg)) else m
    case _ => m
  }

  function NoteRun(h: Hub, cfg: Config, m: map<Key, seq<byte>>, steps: seq<Step>): map<Key, seq<byte>>
    decreases |steps|
  {
    if steps == [] then m else NoteRun(Apply(h, cfg, steps[0]), cfg, NoteStep(h, cfg, m, steps[0]), steps[1..])
  }

  /** A fresh request with another value for the identity that is outstanding. */
  predicate Clash(h: Hub, t: Txn) {
    h.hasCurrent && KeyOf(h.current) == KeyOf(t) && h.current.payload != t.payload
  }

  ghost predicate NoClash(h: Hub, cfg: Config, s: Step) {
    match s
    case Submit(t) => !Clash(h, t)
    case BurstDue(now) => forall i :: 0 <= i < |BurstReads(h, cfg)| ==> !Clash(h, BurstReads(h, cfg)[i])
    case _ => true
  }

  ghost predicate NoClashes(h: Hub, cfg: Config, steps: seq<Step>)
    decreases |steps|
  {
    steps == [] || (NoClash(h, cfg, steps[0]) && NoClashes(Apply(h, cfg, steps[0]), cfg, steps[1..]))
  }

  /** Everything waiting carries the last accepted value of its identity. */
  ghost predicate Current(q: seq<Slot>, m: map<Key, seq<byte>>) {
    forall k :: k in Contents(q) ==> k in m && Contents(q)[k].payload == m[k]
  }

  /** And the identity of what is outstanding has been asked for, if perhaps with a newer value since. */
  ghost predicate Upright(h: Hub, m: map<Key, seq<byte>>) {
    Current(h.queue, m) && (h.hasCurrent ==> KeyOf(h.current) in m)
  }

  function Again(t: Txn): Txn { t.(attempts := (t.attempts + 1) % 256) }

  /** The outstanding attempt fails, is retried although another value has been accepted since, and finds a place. */
  predicate StaleRetry(h: Hub, g: Hub, m: map<Key, seq<byte>>) {
    && h.hasCurrent && !g.hasCurrent && g.mode == Backoff
    && KeyOf(h.current) in m && m[KeyOf(h.current)] != h.current.payload
    && Enqueue(h.queue, Again(h.current)).1 != Refused
  }

  // ----- one step -----

  lemma EnqueueCurrent(q: seq<Slot>, m: map<Key, seq<byte>>, t: Txn)
    requires UniqueKeys(q) && Current(q, m)
    ensures Current(Enqueue(q, t).0, if Enqueue(q, t).1 == Refused then m else m[KeyOf(t) := t.payload])
  {
    hide Enqueue, Contents, UniqueKeys;
    EnqueueRefines(q, t);
  }

  lemma OfferUpright(h: Hub, m: map<Key, seq<byte>>, t: Txn)
    requires UniqueKeys(h.queue) && Upright(h, m)
    ensures Upright(Offer(h, t), Note(h, m, t)) && UniqueKeys(Offer(h, t).queue)
  {
    hide Enqueue, UniqueKeys, Current, Add32, Endings, Contents;
    EnqueueCurrent(h.queue, m, t.(id := h.nextId));
    EnqueueRefines(h.queue, t.(id := h.nextId));
  }

  lemma {:induction false} OfferAllUpright(h: Hub, m: map<Key, seq<byte>>, ts: seq<Txn>)
    requires UniqueKeys(h.queue) && Upright(h, m)
    ensures Upright(OfferAll(h, ts), NoteAll(h, m, ts))
    decreases |ts|
  {
    hide UniqueKeys, Upright, Note, Offer;
    if ts != [] {
      OfferUpright(h, m, ts[0]);
      OfferAllUpright(Offer(h, ts[0]), Note(h, m, ts[0]), ts[1..]);
    }
  }

  /** What is sent carries the last accepted value. */
  lemma SendUpright(h: Hub, m: map<Key, seq<byte>>, now: u32)
    requires UniqueKeys(h.queue) && Upright(h, m)
    ensures var g := SendNext(h, now);
      Upright(g, m) && (g == h || (g.hasCurrent && KeyOf(g.current) in m && m[KeyOf(g.current)] == g.current.payload))
  {
    hide UniqueKeys, Contents, FindNext;
    if FindNext(h.queue) != -1 {
      TakeRefines(h.queue);
    }
  }

  lemma NothingIsCurrent(n: nat, m: map<Key, seq<byte>>)
    ensures Current(AllFree(n), m)
  {
    assert Keys(AllFree(n)) == {};
  }

  lemma FailCurrentKeeps(h: Hub, m: map<Key, seq<byte>>, now: u32)
    requires Current(h.queue, m)
    ensures Current(FailCurrent(h, now).queue, m)
  {
    hide Current, AllFree, FlushLog, Add32;
    NothingIsCurrent(|h.queue|, m);
  }

  /** A retry keeps the queue current exactly if its value is the last accepted one, or the queue refuses it. */
  lemma RetriedCurrent(q: seq<Slot>, m: map<Key, seq<byte>>, t: Txn)
    requires UniqueKeys(q) && Current(q, m) && KeyOf(t) in m
    ensures Current(Enqueue(q, t).0, m) <==> m[KeyOf(t)] == t.payload || Enqueue(q, t).1 == Refused
  {
    hide Enqueue, Contents, UniqueKeys;
    EnqueueRefines(q, t);
    EnqueueCurrent(q, m, t);
    if m[KeyOf(t)] == t.payload {
      assert m[KeyOf(t) := t.payload] == m;
    } else if Enqueue(q, t).1 != Refused {
      assert KeyOf(t) in Contents(Enqueue(q, t).0);
    }
  }

  lemma RetryUpright(h: Hub, cfg: Config, m: map<Key, seq<byte>>, now: u32)
    requires UniqueKeys(h.queue) && Upright(h, m) && h.hasCurrent
    ensures var g := RetryOrDrop(h, cfg, now); Upright(g, m) <==> !StaleRetry(h, g, m)
  {
    hide UniqueKeys, Current, FailCurrent, BackoffMs, Limit, Enqueue, Add32, Endings;
    var again := Again(h.current);
    var k := h.(current := again);
    FailCurrentKeeps(k, m, now);
    FailFrame(k, now);
    RetriedCurrent(h.queue, m, again);
  }

  lemma Untouched(h: Hub, g: Hub, m: map<Key, seq<byte>>)
    requires Upright(h, m) && g.queue == h.queue && (!g.hasCurrent || (h.hasCurrent && g.current == h.current))
    ensures Upright(g, m)
  {
    hide Current;
  }

  lemma ReplyUpright(h: Hub, cfg: Config, m: map<Key, seq<byte>>, ft: byte, st: byte, data: seq<byte>, now: u32)
    requires UniqueKeys(h.queue) && Upright(h, m)
    ensures var g := HandleResponse(h, cfg, ft, st, data, now); Upright(g, m) <==> !StaleRetry(h, g, m)
  {
    hide Upright, RetryOrDrop, UniqueKeys, IsRetryable, Enqueue;
    if Answers(h, ft) && st != STATUS_OK && IsRetryable(st) {
      RetryUpright(h, cfg, m, now);
    } else {
      Untouched(h, HandleResponse(h, cfg, ft, st, data, now), m);
    }
  }

  lemma TimersUpright(h: Hub, cfg: Config, m: map<Key, seq<byte>>, now: u32)
    requires Inv(h) && Upright(h, m)
    ensures var g := Timers(h, cfg, now); Upright(g, m) <==> !StaleRetry(h, g, m)
  {
    hide Upright, RetryOrDrop, UniqueKeys, AllMild, FindNext, Elapsed, Reached, Add32, Enqueue;
    if h.mode == AwaitResp && Elapsed(now, h.sentAt) >= h.current.timeoutMs {
      var k := h.(timeouts := Add32(h.timeouts, 1));
      Untouched(h, k, m);
      RetryUpright(k, cfg, m, now);
    } else {
      Untouched(h, Timers(h, cfg, now), m);
    }
  }

  lemma EndsUpright(h: Hub, cfg: Config, m: map<Key, seq<byte>>, s: Step)
    requires Inv(h) && Upright(h, m) && Ends(s)
    ensures var g := Apply(h, cfg, s); Upright(g, m) <==> !StaleRetry(h, g, m)
  {
    hide Upright, HandleResponse, Timers, StaleRetry;
    match s
    case Response(ft, st, data, now) => ReplyUpright(h, cfg, m, ft, st, data, now);
    case TimersDue(now) => TimersUpright(h, cfg, m, now);
  }

  lemma OffersUpright(h: Hub, cfg: Config, m: map<Key, seq<byte>>, s: Step)
    requires Inv(h) && Upright(h, m) && Offers(s)
    ensures Upright(Apply(h, cfg, s), NoteStep(h, cfg, m, s))
  {
    hide Current, UniqueKeys, AllMild, FindNext, Offer, OfferAll, Note, NoteAll, Elapsed, BurstFires, BurstReads;
    match s
    case Submit(t) => OfferUpright(h, m, t.(attempts := 0));
    case ReprobeDue(now) =>
      if Reprobes(h, now) { OfferUpright(h.(lastProbeAt := now, mode := Idle), m, ProbeRequest(cfg)); }
    case BurstDue(now) => if BurstFires(h, now) { OfferAllUpright(h.(refreshPending := false), m, BurstReads(h, cfg)); }
  }

  lemma SendStepUpright(h: Hub, cfg: Config, m: map<Key, seq<byte>>, now: u32)
    requires Inv(h) && Upright(h, m)
    ensures Upright(Apply(h, cfg, Send(now)), m)
    ensures var g := Apply(h, cfg, Send(now));
      g == h || (g.hasCurrent && KeyOf(g.current) in m && m[KeyOf(g.current)] == g.current.payload)
  {
    hide Upright, SendNext, UniqueKeys, AllMild, FindNext;
    SendUpright(h, m, now);
  }

  /** Exactly one kind of step makes the queue carry an outdated value: a stale retry. */
  lemma StepUpright(h: Hub, cfg: Config, m: map<Key, seq<byte>>, s: Step)
    requires Inv(h) && Upright(h, m)
    ensures var g := Apply(h, cfg, s); Upright(g, NoteStep(h, cfg, m, s)) <==> !StaleRetry(h, g, m)
  {
    if Offers(s) {
      OffersUpright(h, cfg, m, s);
      hide Apply, Upright, NoteStep, Enqueue;
      OffersFrame(h, cfg, s);
    } else {
      assert NoteStep(h, cfg, m, s) == m;
      hide Upright, NoteStep, Enqueue;
      if Ends(s) {
        EndsUpright(h, cfg, m, s);
      } else if s.Send? {
        hide Apply;
        SendStepUpright(h, cfg, m, s.now);
        SendFrame(h, cfg, s.now);
        SendingIsNoRetry(h, cfg, s.now, m);
      } else {
        hide Apply;
        QuietFrame(h, cfg, s);
        Untouched(h, Apply(h, cfg, s), m);
      }
    }
  }

  lemma SendingIsNoRetry(h: Hub, cfg: Config, now: u32, m: map<Key, seq<byte>>)
    ensures !StaleRetry(h, Apply(h, cfg, Send(now)), m)
  {
    hide FindNext, Enqueue;
  }

  // ----- runs -----

  ghost predicate NoStaleRetries(h: Hub, cfg: Config, m: map<Key, seq<byte>>, steps: seq<Step>)
    decreases |steps|
  {
    steps == [] ||
      (!StaleRetry(h, Apply(h, cfg, steps[0]), m)
       && NoStaleRetries(Apply(h, cfg, steps[0]), cfg, NoteStep(h, cfg, m, steps[0]), steps[1..]))
  }

  ghost predicate AlwaysUpright(h: Hub, cfg: Config, m: map<Key, seq<byte>>, steps: seq<Step>)
    decreases |steps|
  {
    Upright(h, m) &&
      (steps == [] || AlwaysUpright(Apply(h, cfg, steps[0]), cfg, NoteStep(h, cfg, m, steps[0]), steps[1..]))
  }

  lemma {:induction false} RunUpright(h: Hub, cfg: Config, m: map<Key, seq<byte>>, steps: seq<Step>)
    requires Inv(h) && cfg.Valid() && Upright(h, m)
    ensures AlwaysUpright(h, cfg, m, steps) <==> NoStaleRetries(h, cfg, m, steps)
    decreases |steps|
  {
    hide Apply, Inv, Upright, NoteStep, StaleRetry;
    if steps != [] {
      var g, m' := Apply(h, cfg, steps[0]), NoteStep(h, cfg, m, steps[0]);
      StepUpright(h, cfg, m, steps[0]);
      ApplyKeeps(h, cfg, steps[0]);
      if Upright(g, m') {
        RunUpright(g, cfg, m', steps[1..]);
      }
    }
  }

  /**
   Whatever is asked for and whenever: at every moment of a run everything waiting carries the value last accepted for
   its identity, if and only if no retry brings back a value that has been replaced since it was sent.
   */
  lemma NewestWaits(cfg: Config, boot: u32, steps: seq<Step>)
    requires cfg.Valid()
    ensures AlwaysUpright(Boot(cfg, boot), cfg, FirstWish(cfg), steps)
      <==> NoStaleRetries(Boot(cfg, boot), cfg, FirstWish(cfg), steps)
  {
    hide Boot, AlwaysUpright, NoStaleRetries, FirstWish;
    BootInv(cfg, boot);
    BootUpright(cfg, boot);
    RunUpright(Boot(cfg, boot), cfg, FirstWish(cfg), steps);
  }

  // ----- also what is outstanding -----

  ghost predicate AllCurrent(h: Hub, m: map<Key, seq<byte>>) {
    Upright(h, m) && (h.hasCurrent ==> KeyOf(h.current) in m && m[KeyOf(h.current)] == h.current.payload)
  }

  lemma {:induction false} NotesKeep(h: Hub, m: map<Key, seq<byte>>, ts: seq<Txn>)
    requires h.hasCurrent && KeyOf(h.current) in m && m[KeyOf(h.current)] == h.current.payload
    requires forall i :: 0 <= i < |ts| ==> !Clash(h, ts[i])
    ensures var m' := NoteAll(h, m, ts); KeyOf(h.current) in m' && m'[KeyOf(h.current)] == h.current.payload
    decreases |ts|
  {
    hide Offer, Enqueue;
    if ts != [] {
      OfferFrame(h, ts[0]);
      NotesKeep(Offer(h, ts[0]), Note(h, m, ts[0]), ts[1..]);
    }
  }

  lemma OffersKeepOutstanding(h: Hub, cfg: Config, m: map<Key, seq<byte>>, s: Step)
    requires Inv(h) && Offers(s) && NoClash(h, cfg, s)
    requires h.hasCurrent && KeyOf(h.current) in m && m[KeyOf(h.current)] == h.current.payload
    ensures var m' := NoteStep(h, cfg, m, s); KeyOf(h.current) in m' && m'[KeyOf(h.current)] == h.current.payload
  {
    hide UniqueKeys, AllMild, FindNext, Enqueue, NoteAll, Elapsed, BurstFires, BurstReads;
    if s.BurstDue? {
      NotesKeep(h.(refreshPending := false), m, BurstReads(h, cfg));
    }
  }

  lemma StepCurrent(h: Hub, cfg: Config, m: map<Key, seq<byte>>, s: Step)
    requires Inv(h) && AllCurrent(h, m) && NoClash(h, cfg, s)
    ensures AllCurrent(Apply(h, cfg, s), NoteStep(h, cfg, m, s))
  {
    var g := Apply(h, cfg, s);
    StepUpright(h, cfg, m, s);
    if !Offers(s) {
      assert NoteStep(h, cfg, m, s) == m;
    }
    hide Apply, Upright, NoteStep, NoClash, Enqueue;
    if h.hasCurrent {
      assert h.mode == AwaitResp;
      hide Inv;
      OutstandingIsStable(h, cfg, s);
      if Offers(s) {
        OffersKeepOutstanding(h, cfg, m, s);
      }
    } else {
      hide Inv;
      if s.Send? {
        SendStepUpright(h, cfg, m, s.now);
      } else {
        OnlySendSends(h, cfg, s);
      }
    }
  }

  lemma OnlySendSends(h: Hub, cfg: Config, s: Step)
    requires !h.hasCurrent && !s.Send?
    ensures !Apply(h, cfg, s).hasCurrent
  {
    hide Apply;
    if Offers(s) {
      OffersFrame(h, cfg, s);
    } else if Ends(s) {
      EndsWithNothing(h, cfg, s);
    } else {
      QuietFrame(h, cfg, s);
    }
  }

  lemma EndsWithNothing(h: Hub, cfg: Config, s: Step)
    requires !h.hasCurrent && Ends(s)
    ensures !Apply(h, cfg, s).hasCurrent
  {
    hide Elapsed, Reached, Add32;
  }

  lemma {:induction false} RunCurrent(h: Hub, cfg: Config, m: map<Key, seq<byte>>, steps: seq<Step>)
    requires Inv(h) && cfg.Valid() && AllCurrent(h, m) && NoClashes(h, cfg, steps)
    ensures AllCurrent(Run(h, cfg, steps), NoteRun(h, cfg, m, steps))
    decreases |steps|
  {
    hide Apply, Inv, AllCurrent, NoteStep, NoClash;
    if steps != [] {
      StepCurrent(h, cfg, m, steps[0]);
      ApplyKeeps(h, cfg, steps[0]);
      RunCurrent(Apply(h, cfg, steps[0]), cfg, NoteStep(h, cfg, m, steps[0]), steps[1..]);
    }
  }

  /** What is asked for at power-on: the probe. */
  function FirstWish(cfg: Config): map<Key, seq<byte>> { map[KeyOf(ProbeRequest(cfg)) := []] }

  lemma BootUpright(cfg: Config, boot: u32)
    ensures Upright(Boot(cfg, boot), FirstWish(cfg)) && !Boot(cfg, boot).hasCurrent
  {
    hide Current, Offer;
    var h := PowerOn(cfg).(lastProbeAt := boot, mode := Idle);
    NothingIsCurrent(QUEUE_DEPTH, map[]);
    FreeIsFine(QUEUE_DEPTH);
    FreeIsNotFull(QUEUE_DEPTH, ProbeRequest(cfg).(id := 0));
    OfferUpright(h, map[], ProbeRequest(cfg));
    OfferFrame(h, ProbeRequest(cfg));
    assert Note(h, map[], ProbeRequest(cfg)) == FirstWish(cfg);
  }

  lemma FreeIsNotFull(n: nat, t: Txn)
    requires n > 0
    ensures Enqueue(AllFree(n), t).1 != Refused
  {
    var f := FindFree(AllFree(n));
    assert AllFree(n)[0].Free?;
  }

  /**
   In particular, as long as nobody asks for another value of the identity that is outstanding, there is no such retry,
   and what is outstanding carries the value last accepted for its identity too.
   */
  lemma NewestValueWins(cfg: Config, boot: u32, steps: seq<Step>)
    requires cfg.Valid() && NoClashes(Boot(cfg, boot), cfg, steps)
    ensures var h := Run(Boot(cfg, boot), cfg, steps);
      var m := NoteRun(Boot(cfg, boot), cfg, FirstWish(cfg), steps);
      && (forall i :: 0 <= i < |h.queue| && h.queue[i].Used? ==>
            KeyOf(h.queue[i].txn) in m && m[KeyOf(h.queue[i].txn)] == h.queue[i].txn.payload)
      && (h.hasCurrent ==> KeyOf(h.current) in m && m[KeyOf(h.current)] == h.current.payload)
  {
    hide Boot, Run, NoteRun, NoClashes, FirstWish;
    var h := Run(Boot(cfg, boot), cfg, steps);
    BootInv(cfg, boot);
    BootUpright(cfg, boot);
    RunCurrent(Boot(cfg, boot), cfg, FirstWish(cfg), steps);
    AlwaysInv(cfg, boot, steps);
    EachSlot(h.queue, NoteRun(Boot(cfg, boot), cfg, FirstWish(cfg), steps));
  }

  lemma EachSlot(q: seq<Slot>, m: map<Key, seq<byte>>)
    requires UniqueKeys(q) && Current(q, m)
    ensures forall i :: 0 <= i < |q| && q[i].Used? ==> KeyOf(q[i].txn) in m && m[KeyOf(q[i].txn)] == q[i].txn.payload
  {
    hide UniqueKeys, Lookup;
    forall i | 0 <= i < |q| && q[i].Used?
      ensures KeyOf(q[i].txn) in m && m[KeyOf(q[i].txn)] == q[i].txn.payload
    {
      LookupIs(q, i);
      assert KeyOf(q[i].txn) in Contents(q);
    }
  }

  // ----- where it fails -----

  /** The newer value waiting for the identity of the outstanding request, if there is one, still waits with that value. */
  predicate NewerSurvives(h: Hub, g: Hub) {
    var k := KeyOf(h.current);
    k in Contents(h.queue) ==> k in Contents(g.queue) && Contents(g.queue)[k].payload == Contents(h.queue)[k].payload
  }

  /** One more attempt is allowed. */
  predicate WillRetry(h: Hub, cfg: Config) { h.current.attempts < Limit(cfg, h.current) }

  /**
   When the outstanding attempt fails, a newer value waiting behind it is lost exactly if the older one is retried in its
   place, or if giving up takes the hub offline.
   */
  lemma NewerLost(h: Hub, cfg: Config, now: u32)
    requires Inv(h) && h.hasCurrent
    ensures var k := KeyOf(h.current);
      !NewerSurvives(h, RetryOrDrop(h, cfg, now)) <==>
        && k in Contents(h.queue)
        && (if WillRetry(h, cfg) then Contents(h.queue)[k].payload != h.current.payload
            else (h.failures + 1) % 256 >= FAILURES_BEFORE_OFFLINE)
  {
    hide Contents, UniqueKeys, AllMild, FindNext, Add32, BackoffMs, Limit, Enqueue, FailCurrent;
    SameLimit(cfg, h.current, h.current.attempts + 1);
    var again := h.current.(attempts := (h.current.attempts + 1) % 256);
    EnqueueRefines(h.queue, again);
    GivesUp(h.(current := again), now);
  }

  lemma SameLimit(cfg: Config, t: Txn, attempts: nat)
    requires attempts < 256
    ensures Limit(cfg, t.(attempts := attempts)) == Limit(cfg, t)
  {}

  lemma GivesUp(h: Hub, now: u32)
    ensures var g := FailCurrent(h, now);
      if (h.failures + 1) % 256 >= FAILURES_BEFORE_OFFLINE then Contents(g.queue) == map[] else g.queue == h.queue
  {
    hide Contents, FlushLog, Add32, AllFree;
    assert Contents(AllFree(|h.queue|)) == map[] by {
      EmptyContents(|h.queue|);
    }
  }

  lemma EmptyContents(n: nat)
    ensures Contents(AllFree(n)) == map[]
  {
    assert Keys(AllFree(n)) == {};
  }

  /** What `set_toggle` sends for the user mute. */
  function Mute(cfg: Config, on: byte): Txn {
    Txn(0, 0xDC, SET_REQ, 0, 1, [on], 0, 0, RETRIES_DEFAULT, cfg.requestTimeoutMs, NoAction, NoFailAction)
  }

  /** The probe is answered; "mute" is sent; "unmute" is asked for; the answer to "mute" does not come. */
  function MuteThenUnmute(cfg: Config): seq<Step> {
    [Send(0), Response(GET_RESP, STATUS_OK, [], 0), Submit(Mute(cfg, 1)), Send(0), Submit(Mute(cfg, 0)),
     TimersDue(cfg.requestTimeoutMs)]
  }

  lemma OfferToEmpty(h: Hub, t: Txn)
    requires h.queue == AllFree(QUEUE_DEPTH)
    ensures Offer(h, t) == h.(queue := h.queue[0 := Used(t.(id := h.nextId))], nextId := h.nextId + 1)
  {
    hide Enqueue, AllFree, Add32;
    OneWaiting(t.(id := h.nextId));
    Add32Zero(h.dropped);
    NoEndings(h.log);
  }

  lemma SendOnly(h: Hub, t: Txn, now: u32)
    requires h.queue == AllFree(QUEUE_DEPTH)[0 := Used(t)]
    ensures SendNext(h, now) ==
      h.(current := t, queue := AllFree(QUEUE_DEPTH), hasCurrent := true, sentAt := now, mode := AwaitResp)
  {
    hide FindNext, AllFree, Enqueue;
    OneWaiting(t);
  }

  lemma ReplaceOnly(h: Hub, t: Txn, u: Txn)
    requires h.queue == AllFree(QUEUE_DEPTH)[0 := Used(u)] && KeyOf(u) == KeyOf(t) && t.attempts >= u.attempts
    ensures Insert(h, t).queue == h.queue[0 := Used(t)] && Insert(h, t).log == h.log + [Ending(u.id, Superseded)]
  {
    assert FindKey(h.queue, KeyOf(t)) == 0;
  }

  /** After the probe has been answered the hub is idle with an empty queue. */
  lemma ProbeAnswered(cfg: Config) returns (h: Hub)
    ensures h == Apply(Apply(Boot(cfg, 0), cfg, Send(0)), cfg, Response(GET_RESP, STATUS_OK, [], 0))
    ensures h.queue == AllFree(QUEUE_DEPTH) && h.mode == Idle && !h.hasCurrent && h.nextId == 1
  {
    hide Offer, SendNext, AllFree;
    var p := PowerOn(cfg).(lastProbeAt := 0, mode := Idle);
    OfferToEmpty(p, ProbeRequest(cfg));
    assert Boot(cfg, 0) == Offer(p, ProbeRequest(cfg));
    SendOnly(Boot(cfg, 0), ProbeRequest(cfg).(id := p.nextId), 0);
    h := Apply(Apply(Boot(cfg, 0), cfg, Send(0)), cfg, Response(GET_RESP, STATUS_OK, [], 0));
  }

  lemma MuteOvertakes(h: Hub, cfg: Config)
    requires h.queue == AllFree(QUEUE_DEPTH) && h.mode == Idle && !h.hasCurrent && cfg.maxRetries > 0
    ensures var g := Apply(Apply(Apply(Apply(h, cfg, Submit(Mute(cfg, 1))), cfg, Send(0)), cfg, Submit(Mute(cfg, 0))), cfg,
                           TimersDue(cfg.requestTimeoutMs));
      && g.queue == AllFree(QUEUE_DEPTH)[0 := Used(Mute(cfg, 1).(id := h.nextId, attempts := 1))]
      && g.log == h.log + [Ending(h.nextId + 1, Superseded)]
  {
    hide Offer, SendNext, AllFree, Insert, Elapsed, BackoffMs;
    var mute := Mute(cfg, 1).(id := h.nextId);
    OfferToEmpty(h, Mute(cfg, 1).(attempts := 0));
    var h1 := Apply(h, cfg, Submit(Mute(cfg, 1)));
    SendOnly(h1, mute, 0);
    var h2 := Apply(h1, cfg, Send(0));
    OfferToEmpty(h2, Mute(cfg, 0).(attempts := 0));
    var h3 := Apply(h2, cfg, Submit(Mute(cfg, 0)));
    AtItsTime(0, cfg.requestTimeoutMs);
    var again := mute.(attempts := 1);
    var k := h3.(timeouts := Add32(h3.timeouts, 1), current := again,
                 backoffUntil := Add32(cfg.requestTimeoutMs, BackoffMs(cfg, 1)), mode := Backoff, hasCurrent := false);
    ReplaceOnly(k, again, Mute(cfg, 0).(id := h2.nextId));
    assert Apply(h3, cfg, TimersDue(cfg.requestTimeoutMs)) == Insert(k, again);
  }

  lemma AtItsTime(sentAt: u32, timeout: u32)
    ensures sentAt == 0 ==> Elapsed(timeout, sentAt) == timeout
  {}

  lemma RunSix(h: Hub, cfg: Config, a: Step, b: Step, c: Step, d: Step, e: Step, f: Step)
    ensures Run(h, cfg, [a, b, c, d, e, f])
      == Apply(Apply(Apply(Apply(Apply(Apply(h, cfg, a), cfg, b), cfg, c), cfg, d), cfg, e), cfg, f)
  {
    hide Apply, Run;
    assert [a, b, c, d, e, f] == [a, b, c] + [d, e, f];
    RunConcat(h, cfg, [a, b, c], [d, e, f]);
    RunThree(h, cfg, a, b, c);
    RunThree(Run(h, cfg, [a, b, c]), cfg, d, e, f);
  }

  /** A run from power-on after which only "mute" is left: "unmute", accepted later, was superseded by the retry. */
  lemma OldMuteReturns(cfg: Config)
    requires cfg.maxRetries > 0
    ensures var h := Run(Boot(cfg, 0), cfg, MuteThenUnmute(cfg));
      && h.queue == AllFree(QUEUE_DEPTH)[0 := Used(Mute(cfg, 1).(id := 1, attempts := 1))]
      && Ending(2, Superseded) in h.log
  {
    hide Run, Boot, Apply, AllFree, Mute;
    var h := ProbeAnswered(cfg);
    MuteOvertakes(h, cfg);
    RunSix(Boot(cfg, 0), cfg, Send(0), Response(GET_RESP, STATUS_OK, [], 0), Submit(Mute(cfg, 1)), Send(0),
           Submit(Mute(cfg, 0)), TimersDue(cfg.requestTimeoutMs));
  }
}
