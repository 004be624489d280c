/**
 How an attempt ends, in terms of the bytes of the reply and the numbers of the request alone, and when repeated failures
 take the hub offline.
 */
module Replies {
  import opened Wire
  import opened Queue
  import opened Clock32
  import opened HubModel
  import opened HubInvariant
  import opened Effects

  // ----- what a reply does -----

  /** A reply of the kind the outstanding request asks for: 0x81 answers a request of type 0x01, 0x82 any other. */
  predicate Fitting(h: Hub, frameType: byte) {
    if h.current.frameType == 0x01 then frameType == 0x81 else frameType == 0x82
  }

  /** The same hub, idle, with the outstanding request ended in this way. */
  predicate EndedAs(h: Hub, g: Hub, fate: Fate) {
    g == h.(hasCurrent := false, mode := Idle, failures := g.failures, log := h.log + [Ending(h.current.id, fate)])
  }

  /** A successful reply ends the request, and the count of failures, exactly if it is of the kind asked for. */
  lemma GoodReply(h: Hub, cfg: Config, frameType: byte, data: seq<byte>, now: u32)
    requires Inv(h) && h.hasCurrent
    ensures var g := HandleResponse(h, cfg, frameType, 0, data, now);
      if Fitting(h, frameType) then EndedAs(h, g, Ok(data)) && g.failures == 0 else g == h
  {
    hide UniqueKeys, AllMild, FindNext, RetryOrDrop;
  }

  /** A reply with another status ends it as rejected, unless the status is one of three that invite a retry. */
  lemma BadReply(h: Hub, cfg: Config, frameType: byte, status: byte, data: seq<byte>, now: u32)
    requires Inv(h) && h.hasCurrent && status != 0
    ensures var g := HandleResponse(h, cfg, frameType, status, data, now);
      if !Fitting(h, frameType) then g == h
      else if status == 0x01 || status == 0x04 || status == 0x05 then FailedAttempt(h, cfg, g, now)
      else EndedAs(h, g, Rejected(status)) && g.failures == h.failures
  {
    hide UniqueKeys, AllMild, FindNext, RetryOrDrop, FailedAttempt;
    AttemptFails(h, cfg, now);
  }

  /** Nobody's reply: with nothing outstanding a response changes nothing. */
  lemma StrayReply(h: Hub, cfg: Config, frameType: byte, status: byte, data: seq<byte>, now: u32)
    requires !h.hasCurrent
    ensures HandleResponse(h, cfg, frameType, status, data, now) == h
  {}

  /** A timeout counts, and is a failed attempt. */
  lemma TimeoutFails(h: Hub, cfg: Config, now: u32)
    requires Inv(h) && h.hasCurrent && Elapsed(now, h.sentAt) >= h.current.timeoutMs
    ensures FailedAttempt(h.(timeouts := Add32(h.timeouts, 1)), cfg, Timers(h, cfg, now), now)
  {
    hide UniqueKeys, AllMild, FindNext, RetryOrDrop, FailedAttempt, Elapsed, Add32;
    AttemptFails(h.(timeouts := Add32(h.timeouts, 1)), cfg, now);
  }

  // ----- what a failed attempt leads to -----

  /** The failures a request may have before it is given up: its own number, or the hub's if it has none. */
  function Allowed(cfg: Config, t: Txn): nat { if t.maxRetries == 255 then cfg.maxRetries else t.maxRetries }

  /** The delays in units of the base delay: 1, 2, 4, and 8 from then on. */
  function Factor(attempt: nat): nat {
    if attempt <= 1 then 1 else if attempt == 2 then 2 else if attempt == 3 then 4 else 8
  }

  predicate WaitsAgain(u: Txn, t: Txn) { u == t.(attempts := u.attempts) && u.attempts >= t.attempts + 1 }

  /** The request waits again with one attempt more, or it is refused a place; the hub backs off. */
  ghost predicate Retried(h: Hub, cfg: Config, g: Hub, now: u32) {
    var k, a := KeyOf(h.current), h.current.attempts + 1;
    && g.mode == Backoff && !g.hasCurrent && g.failures == h.failures
    && g.backoffUntil == (now + (cfg.backoffBaseMs * Factor(a)) % TWO32) % TWO32
    && (if k in Contents(g.queue) then WaitsAgain(Contents(g.queue)[k], h.current)
        else g.queue == h.queue && g.log == h.log + [Ending(h.current.id, TurnedAway)])
  }

  /** The request has ended and is counted; five in a row, and the hub is offline with nothing left. */
  ghost predicate GivenUp(h: Hub, g: Hub) {
    && !g.hasCurrent && g.failures == (h.failures + 1) % 256 && g.dropped == Add32(h.dropped, 1)
    && |g.log| > |h.log| && g.log[|g.log| - 1] == Ending(h.current.id, Exhausted)
    && (if g.failures >= 5
        then g.mode == Offline && !g.identified && !g.notes.haveSeq && Contents(g.queue) == map[]
        else g.mode == Idle && g.identified == h.identified && g.queue == h.queue && |g.log| == |h.log| + 1)
  }

  ghost predicate FailedAttempt(h: Hub, cfg: Config, g: Hub, now: u32) {
    if h.current.attempts + 1 <= Allowed(cfg, h.current) then Retried(h, cfg, g, now) else GivenUp(h, g)
  }

  lemma AttemptFails(h: Hub, cfg: Config, now: u32)
    requires Inv(h) && h.hasCurrent
    ensures FailedAttempt(h, cfg, RetryOrDrop(h, cfg, now), now)
  {
    assert h.current.attempts < 255 && UniqueKeys(h.queue);
    hide Inv, UniqueKeys, FailCurrent, Retried, GivenUp, RetryOrDrop, Requeue;
    RetryIs(h, cfg, now);
    var k := h.(current := OneMore(h.current));
    Requeued(h, cfg, now);
    Abandoned(k, now);
    SameGivenUp(h, k, FailCurrent(k, now));
  }

  function OneMore(t: Txn): Txn
    requires t.attempts < 255
  {
    t.(attempts := t.attempts + 1)
  }

  function Requeue(h: Hub, cfg: Config, now: u32): Hub
    requires h.current.attempts < 255
  {
    Insert(h.(current := OneMore(h.current), backoffUntil := Add32(now, BackoffMs(cfg, h.current.attempts + 1)),
              mode := Backoff, hasCurrent := false), OneMore(h.current))
  }

  lemma RetryIs(h: Hub, cfg: Config, now: u32)
    requires h.hasCurrent && h.current.attempts < 255
    ensures RetryOrDrop(h, cfg, now)
      == if h.current.attempts + 1 <= Allowed(cfg, h.current) then Requeue(h, cfg, now)
         else FailCurrent(h.(current := OneMore(h.current)), now)
  {
    hide Insert, FailCurrent, BackoffMs, Add32;
  }

  lemma SameGivenUp(h: Hub, k: Hub, g: Hub)
    requires k == h.(current := k.current) && k.current.id == h.current.id && GivenUp(k, g)
    ensures GivenUp(h, g)
  {
    hide Contents, Add32;
  }

  lemma DelayIs(cfg: Config, a: u8)
    ensures a >= 1 ==> BackoffMs(cfg, a) == (cfg.backoffBaseMs * Factor(a)) % TWO32
  {
    assert Pow2(0) == 1 && Pow2(1) == 2 && Pow2(2) == 4 && Pow2(3) == 8;
  }

  lemma Requeued(h: Hub, cfg: Config, now: u32)
    requires UniqueKeys(h.queue) && h.current.attempts < 255
    ensures Retried(h, cfg, Requeue(h, cfg, now), now)
  {
    var b := h.(current := OneMore(h.current), backoffUntil := Add32(now, BackoffMs(cfg, h.current.attempts + 1)),
                mode := Backoff, hasCurrent := false);
    DelayIs(cfg, h.current.attempts + 1);
    hide UniqueKeys, Insert, Contents, BackoffMs, Factor, WaitsAgain;
    InsertFrame(b, OneMore(h.current));
    RequeuedWaits(b, h.current);
  }

  lemma RequeuedWaits(b: Hub, t: Txn)
    requires UniqueKeys(b.queue) && t.attempts < 255
    ensures var g := Insert(b, OneMore(t));
      if KeyOf(t) in Contents(g.queue) then WaitsAgain(Contents(g.queue)[KeyOf(t)], t)
      else g.queue == b.queue && g.log == b.log + [Ending(t.id, TurnedAway)]
  {
    hide UniqueKeys, Enqueue, Contents, Add32;
    EnqueueRefines(b.queue, OneMore(t));
    RefusedSame(b.queue, OneMore(t));
  }

  lemma RefusedSame(q: seq<Slot>, t: Txn)
    ensures Enqueue(q, t).1.Refused? ==> Enqueue(q, t).0 == q
  {
    hide FindKey, FindFree, FindVictim;
  }

  lemma EmptyContents(n: nat)
    ensures Contents(AllFree(n)) == map[]
  {
    assert Keys(AllFree(n)) == {};
  }

  lemma Abandoned(h: Hub, now: u32)
    ensures GivenUp(h, FailCurrent(h, now))
  {
    hide GoOffline, Contents, Add32;
    var f := (h.failures + 1) % 256;
    var g := h.(hasCurrent := false, dropped := Add32(h.dropped, 1), mode := Idle, failures := f);
    OfflineMeans(g, now);
  }

  lemma OfflineMeans(h: Hub, now: u32)
    ensures var g := GoOffline(h, now);
      && g.mode == Offline && !g.identified && !g.notes.haveSeq && Contents(g.queue) == map[] && |g.log| >= |h.log|
      && g.hasCurrent == h.hasCurrent && g.failures == h.failures && g.dropped == h.dropped
  {
    hide FlushLog, AllFree, Contents;
    EmptyContents(|h.queue|);
  }
}
