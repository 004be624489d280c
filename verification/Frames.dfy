/**
 What the receiver recognises, stated over whole byte strings.

 `Take` is the receiver as an automaton whose state is just the bytes collected since the sync byte; everything
 about a frame is computed from those bytes when they are complete. `Decode` is the reference: a recursive
 decoder that sees the whole buffer at once and cuts frames out of it.
 */
module Frames {
  import opened Wire
  import opened Crc16

  datatype Event =
    | Frame(frameType: byte, status: byte, payload: seq<byte>)
    | CrcFailed
    | Oversize

  /** A body is the bytes from the type byte on: type, status, length (2), payload, checksum (2). */
  function LenOf(body: seq<byte>): u16
    requires |body| >= 4
  {
    Number(body[2], body[3])
  }

  /** What a complete body means: the checksum over all but its last two bytes must equal those two bytes. */
  function Close(body: seq<byte>): Event
    requires |body| >= 6
  {
    var n := |body| - 2;
    if Crc(INIT, body[..n]) == Join(body[n], body[n + 1]) then Frame(body[0], body[1], body[4..n]) else CrcFailed
  }

  datatype Rx = Hunt | Armed | Body(got: seq<byte>) {
    /** What the collected bytes satisfy between two calls. */
    predicate Valid() {
      Body? ==>
        && |got| >= 1
        && IsRxType(got[0])
        && (|got| >= 4 ==> LenOf(got) <= MAX_RX_PAYLOAD && |got| < LenOf(got) + 6)
    }
  }

  function Take(s: Rx, b: byte): (r: (Rx, seq<Event>))
    requires s.Valid()
    ensures r.0.Valid()
  {
    match s
    case Hunt => (if b == SYNC then Armed else Hunt, [])
    case Armed =>
      if b == SYNC then (Armed, [])
      else if IsRxType(b) then (Body([b]), [])
      else (Hunt, [])
    case Body(got) =>
      var body := got + [b];
      if |body| < 4 then (Body(body), [])
      else if LenOf(body) > MAX_RX_PAYLOAD then (Hunt, [Oversize])
      else if |body| < LenOf(body) + 6 then (Body(body), [])
      else (Hunt, [Close(body)])
  }

  /** Feeding a byte string: the final state and every event, in order. */
  function Feed(s: Rx, bytes: seq<byte>): (r: (Rx, seq<Event>))
    requires s.Valid()
    ensures r.0.Valid()
    decreases |bytes|
  {
    if bytes == [] then (s, [])
    else
      var (s1, e1) := Take(s, bytes[0]);
      var (s2, e2) := Feed(s1, bytes[1..]);
      (s2, e1 + e2)
  }

  function Decode(bytes: seq<byte>): seq<Event>
    decreases |bytes|
  {
    if |bytes| < 2 then []
    else if bytes[0] != SYNC || bytes[1] == SYNC then Decode(bytes[1..])
    else if !IsRxType(bytes[1]) then Decode(bytes[2..])
    else if |bytes| < 5 then []
    else
      var n := Number(bytes[3], bytes[4]);
      if n > MAX_RX_PAYLOAD then [Oversize] + Decode(bytes[5..])
      else if |bytes| < n + 7 then []
      else [Close(bytes[1..n + 7])] + Decode(bytes[n + 7..])
  }

  // ----- cutting the stream anywhere makes no difference -----

  lemma {:induction false} FeedConcat(s: Rx, a: seq<byte>, b: seq<byte>)
    requires s.Valid()
    ensures var (s1, e1) := Feed(s, a);
            var (s2, e2) := Feed(s1, b);
            Feed(s, a + b) == (s2, e1 + e2)
    decreases |a|
  {
    hide Take;
    if a == [] {
      assert a + b == b;
      assert [] + Feed(s, b).1 == Feed(s, b).1;
    } else {
      assert (a + b)[1..] == a[1..] + b;
      var (t, e) := Take(s, a[0]);
      FeedConcat(t, a[1..], b);
      var (t1, e1) := Feed(t, a[1..]);
      assert e + (e1 + Feed(t1, b).1) == (e + e1) + Feed(t1, b).1;
    }
  }

  lemma FeedSnoc(s: Rx, a: seq<byte>, b: byte)
    requires s.Valid()
    ensures var (s1, e1) := Feed(s, a);
            var (s2, e2) := Take(s1, b);
            Feed(s, a + [b]) == (s2, e1 + e2)
  {
    hide Take;
    FeedConcat(s, a, [b]);
    FeedOne(Feed(s, a).0, b);
  }

  lemma FeedOne(s: Rx, b: byte)
    requires s.Valid()
    ensures Feed(s, [b]) == Take(s, b)
  {
    hide Take;
    var r := Take(s, b);
    assert Feed(r.0, [b][1..]) == (r.0, []);
    assert r.1 + [] == r.1;
  }

  lemma Quiet(e: seq<Event>)
    ensures [] + e == e && e + [] == e
  {}

  /** Bytes that neither complete nor overflow a body are just collected. */
  lemma {:induction false} Collect(got: seq<byte>, more: seq<byte>)
    requires Body(got).Valid() && Body(got + more).Valid()
    ensures Feed(Body(got), more) == (Body(got + more), [])
    decreases |more|
  {
    hide Number;
    if more == [] {
      assert got + more == got;
    } else {
      var body := got + [more[0]];
      assert body + more[1..] == got + more;
      assert |body| >= 4 ==> LenOf(body) == LenOf(got + more);
      assert Body(body).Valid();
      assert Take(Body(got), more[0]) == (Body(body), []);
      Collect(body, more[1..]);
      Quiet([]);
    }
  }

  /** All but the last byte of a body of at most 138 bytes is collected without comment. */
  lemma CollectInit(body: seq<byte>, n: nat)
    requires 0 < n < |body| && IsRxType(body[0]) && Body(body[..n]).Valid()
    ensures Feed(Armed, body[..n]) == (Body(body[..n]), [])
  {
    hide Number;
    assert body[..n] == [body[0]] + body[1..n];
    FeedConcat(Armed, [body[0]], body[1..n]);
    FeedOne(Armed, body[0]);
    Collect([body[0]], body[1..n]);
    Quiet([]);
  }

  lemma Complete(body: seq<byte>)
    requires |body| >= 6 && IsRxType(body[0])
    requires LenOf(body) <= MAX_RX_PAYLOAD && |body| == LenOf(body) + 6
    ensures Feed(Armed, body) == (Hunt, [Close(body)])
  {
    hide Number, Close;
    var n := |body| - 1;
    assert LenOf(body[..n]) == LenOf(body);
    CollectInit(body, n);
    FinishBody(body);
    assert body[..n] + [body[n]] == body;
    FeedSnoc(Armed, body[..n], body[n]);
    Quiet([Close(body)]);
  }

  lemma FinishBody(body: seq<byte>)
    requires |body| >= 6 && IsRxType(body[0])
    requires LenOf(body) <= MAX_RX_PAYLOAD && |body| == LenOf(body) + 6
    ensures Body(body[..|body| - 1]).Valid()
    ensures Take(Body(body[..|body| - 1]), body[|body| - 1]) == (Hunt, [Close(body)])
  {
    hide Number, Close;
    var n := |body| - 1;
    assert LenOf(body[..n]) == LenOf(body);
    assert body[..n] + [body[n]] == body;
    assert Take(Body(body[..n]), body[n]) == (Hunt, [Close(body)]);
  }

  lemma TooLong(body: seq<byte>)
    requires |body| == 4 && IsRxType(body[0]) && LenOf(body) > MAX_RX_PAYLOAD
    ensures Feed(Armed, body) == (Hunt, [Oversize])
  {
    hide Number;
    CollectInit(body, 3);
    assert body[..3] + [body[3]] == body;
    FeedSnoc(Armed, body[..3], body[3]);
    Quiet([Oversize]);
  }

  lemma HuntStep(b: byte)
    ensures Take(Hunt, b) == (if b == SYNC then Armed else Hunt, [])
    ensures Take(Armed, SYNC) == (Armed, [])
    ensures b != SYNC && !IsRxType(b) ==> Take(Armed, b) == (Hunt, [])
    ensures b != SYNC && IsRxType(b) ==> Take(Armed, b) == (Body([b]), [])
  {}

  /** After a sync byte, repeated sync bytes change nothing. */
  lemma SyncIsArmed(bytes: seq<byte>)
    requires |bytes| >= 1 && bytes[0] == SYNC
    ensures Feed(Hunt, bytes) == Feed(Armed, bytes[1..])
    ensures Feed(Armed, bytes) == Feed(Armed, bytes[1..])
  {
    hide Take;
    HuntStep(SYNC);
    var r := Feed(Armed, bytes[1..]);
    assert [] + r.1 == r.1;
  }

  lemma SkipByte(s: Rx, bytes: seq<byte>)
    requires s.Valid() && |bytes| >= 1 && Take(s, bytes[0]) == (Hunt, [])
    ensures Feed(s, bytes) == Feed(Hunt, bytes[1..])
  {
    hide Take, IsRxType;
    Quiet(Feed(Hunt, bytes[1..]).1);
  }

  /** The automaton, fed any stream one byte at a time, reports exactly what the whole-buffer decoder finds. */
  lemma {:induction false} FeedIsDecode(bytes: seq<byte>)
    ensures Feed(Hunt, bytes).1 == Decode(bytes)
    decreases |bytes|
  {
    hide Take, Close, Number, Feed;
    if |bytes| == 0 {
      FeedNothing(Hunt);
    } else if bytes[0] != SYNC {
      HuntStep(bytes[0]);
      SkipByte(Hunt, bytes);
      FeedIsDecode(bytes[1..]);
      DecodeSkip(bytes);
    } else {
      SyncIsArmed(bytes);
      if |bytes| == 1 {
        FeedNothing(Armed);
      } else if bytes[1] == SYNC {
        SyncIsArmed(bytes[1..]);
        FeedIsDecode(bytes[1..]);
      } else if !IsRxType(bytes[1]) {
        HuntStep(bytes[1]);
        SkipByte(Armed, bytes[1..]);
        assert bytes[1..][1..] == bytes[2..];
        FeedIsDecode(bytes[2..]);
      } else {
        BodyIsDecode(bytes);
      }
    }
  }

  lemma FeedNothing(s: Rx)
    requires s.Valid()
    ensures Feed(s, []) == (s, [])
  {}

  lemma DecodeSkip(bytes: seq<byte>)
    requires |bytes| >= 1 && bytes[0] != SYNC
    ensures Decode(bytes) == Decode(bytes[1..])
  {}

  lemma {:induction false} BodyIsDecode(bytes: seq<byte>)
    requires |bytes| >= 2 && bytes[0] == SYNC && IsRxType(bytes[1])
    ensures Feed(Hunt, bytes).1 == Decode(bytes)
    decreases |bytes|, 0
  {
    hide Take, Close, Number, Feed;
    SyncIsArmed(bytes);
    var rest := bytes[1..];
    var n := if |rest| < 4 then 0 else LenOf(rest);
    if |rest| < 4 || (n <= MAX_RX_PAYLOAD && |rest| < n + 6) {
      UnfinishedBody(rest);
    } else if n > MAX_RX_PAYLOAD {
      assert LenOf(rest[..4]) == LenOf(rest);
      TooLong(rest[..4]);
      FeedRest(rest, 4, Oversize);
      FeedIsDecode(rest[4..]);
      assert rest[4..] == bytes[5..];
    } else {
      var body := rest[..n + 6];
      assert LenOf(body) == LenOf(rest);
      Complete(body);
      FeedRest(rest, n + 6, Close(body));
      FeedIsDecode(rest[n + 6..]);
      assert rest[n + 6..] == bytes[n + 7..] && body == bytes[1..n + 7];
    }
  }

  lemma UnfinishedBody(rest: seq<byte>)
    requires |rest| >= 1 && IsRxType(rest[0]) && Body(rest).Valid()
    ensures Feed(Armed, rest) == (Body(rest), [])
  {
    hide Number;
    FeedConcat(Armed, [rest[0]], rest[1..]);
    FeedOne(Armed, rest[0]);
    Collect([rest[0]], rest[1..]);
    Quiet([]);
    assert [rest[0]] + rest[1..] == rest;
  }

  lemma FeedRest(rest: seq<byte>, n: nat, e: Event)
    requires n <= |rest| && Feed(Armed, rest[..n]) == (Hunt, [e])
    ensures Feed(Armed, rest).1 == [e] + Feed(Hunt, rest[n..]).1
  {
    hide Feed;
    assert rest == rest[..n] + rest[n..];
    FeedConcat(Armed, rest[..n], rest[n..]);
  }
}
