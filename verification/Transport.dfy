/** The two loops around the wire: draining received bytes under a budget, and building a request frame. */
module Transport {
  import opened Wire
  import opened Crc16
  import opened Frames
  import opened FrameLaws
  import opened FrameParsing

  function CountOf(events: seq<Event>, e: Event): nat {
    if events == [] then 0 else (if events[0] == e then 1 else 0) + CountOf(events[1..], e)
  }

  lemma {:induction false} CountOfConcat(s: seq<Event>, t: seq<Event>, e: Event)
    ensures CountOf(s + t, e) == CountOf(s, e) + CountOf(t, e)
  {
    if s == [] {
      assert s + t == t;
    } else {
      assert (s + t)[1..] == s[1..] + t;
      CountOfConcat(s[1..], t, e);
    }
  }

  // ----- receiving -----

  /** The receiving end of the hub: the parser and its diagnostic counters. */
  class Receiver {
    const parser: FrameParser
    var rxBytes: u32
    var framesBadCrc: u32
    var framesMalformed: u32

    constructor ()
      ensures parser.Valid() && parser.rx == Hunt && fresh(parser) && fresh(parser.payload)
      ensures rxBytes == framesBadCrc == framesMalformed == 0
    {
      parser := new FrameParser();
      rxBytes, framesBadCrc, framesMalformed := 0, 0, 0;
    }

    /**
     The receiving half of the loop; `Link.PumpRx` is the loop with the hub in it. One call drains at most `budget`
     of the waiting bytes. What it reports, and the state it leaves, are those of the automaton fed the drained
     bytes; `ChunkingIrrelevant` turns that into a statement about all calls.
     */
    method PumpRx(waiting: seq<byte>, budget: nat) returns (taken: nat, events: seq<Event>)
      requires parser.Valid()
      modifies this, parser, parser.payload
      ensures parser.Valid()
      ensures taken == if |waiting| < budget then |waiting| else budget
      ensures (parser.rx, events) == Frames.Feed(old(parser.rx), waiting[..taken])
      ensures rxBytes == Add32(old(rxBytes), taken)
      ensures framesBadCrc == Add32(old(framesBadCrc), CountOf(events, CrcFailed))
      ensures framesMalformed == Add32(old(framesMalformed), CountOf(events, Oversize))
    {
      hide Take, Frames.Feed, FrameParser.Valid, FrameParser.Reports, Add32;
      taken, events := 0, [];
      StartOfPump(parser.rx, rxBytes);
      Add32Twice(framesBadCrc, 0, 0);
      Add32Twice(framesMalformed, 0, 0);
      while taken < budget && taken < |waiting|
        invariant parser.Valid()
        invariant taken <= |waiting| && taken <= budget
        invariant (parser.rx, events) == Frames.Feed(old(parser.rx), waiting[..taken])
        invariant rxBytes == Add32(old(rxBytes), taken)
        invariant framesBadCrc == Add32(old(framesBadCrc), CountOf(events, CrcFailed))
        invariant framesMalformed == Add32(old(framesMalformed), CountOf(events, Oversize))
      {
        var e := PumpByte(waiting[taken]);
        FeedSnoc(old(parser.rx), waiting[..taken], waiting[taken]);
        assert waiting[..taken + 1] == waiting[..taken] + [waiting[taken]];
        CountOfConcat(events, e, CrcFailed);
        CountOfConcat(events, e, Oversize);
        Add32Twice(old(rxBytes), taken, 1);
        Add32Twice(old(framesBadCrc), CountOf(events, CrcFailed), CountOf(e, CrcFailed));
        Add32Twice(old(framesMalformed), CountOf(events, Oversize), CountOf(e, Oversize));
        events := events + e;
        taken := taken + 1;
      }
    }

    method PumpByte(b: byte) returns (events: seq<Event>)
      requires parser.Valid()
      modifies this, parser, parser.payload
      ensures parser.Valid()
      ensures (parser.rx, events) == Take(old(parser.rx), b)
      ensures rxBytes == Add32(old(rxBytes), 1)
      ensures framesBadCrc == Add32(old(framesBadCrc), CountOf(events, CrcFailed))
      ensures framesMalformed == Add32(old(framesMalformed), CountOf(events, Oversize))
    {
      hide Take, FrameParser.Valid, Add32;
      Add32Twice(framesBadCrc, 0, 0);
      Add32Twice(framesMalformed, 0, 0);
      rxBytes := Add32(rxBytes, 1);
      var r := parser.Feed(b);
      match r {
        case NeedMore => events := [];
        case FrameReady =>
          events := [Frame(parser.frameType, parser.status, parser.payload[..parser.len])];
        case CrcBad =>
          framesBadCrc := Add32(framesBadCrc, 1);
          events := [CrcFailed];
        case TooBig =>
          framesMalformed := Add32(framesMalformed, 1);
          events := [Oversize];
      }
    }
  }

  lemma StartOfPump(s: Rx, a: u32)
    requires s.Valid()
    ensures Frames.Feed(s, []) == (s, []) && Add32(a, 0) == a
  {}

  /** What happens to the parser between two looks at it: a call that drains some bytes, or a reset by a probe. */
  datatype Turn = Drained(bytes: seq<byte>) | Reset

  /** One call after the other, each continuing where the last one stopped. */
  function FeedTurns(s: Rx, turns: seq<Turn>): (r: (Rx, seq<Event>))
    requires s.Valid()
    ensures r.0.Valid()
    decreases |turns|
  {
    if turns == [] then (s, [])
    else
      match turns[0]
      case Reset => FeedTurns(Hunt, turns[1..])
      case Drained(bytes) =>
        var (s1, e1) := Frames.Feed(s, bytes);
        var (s2, e2) := FeedTurns(s1, turns[1..]);
        (s2, e1 + e2)
  }

  /** The bytes between resets, however many calls drained them. */
  function Stretches(turns: seq<Turn>): (r: seq<seq<byte>>)
    ensures r != []
  {
    if turns == [] then [[]]
    else
      var rest := Stretches(turns[1..]);
      match turns[0]
      case Reset => [[]] + rest
      case Drained(bytes) => [bytes + rest[0]] + rest[1..]
  }

  function DecodeAll(stretches: seq<seq<byte>>): seq<Event> {
    if stretches == [] then [] else Decode(stretches[0]) + DecodeAll(stretches[1..])
  }

  lemma {:induction false} TurnsAreFeeds(s: Rx, turns: seq<Turn>)
    requires s.Valid()
    ensures FeedTurns(s, turns).1 == Frames.Feed(s, Stretches(turns)[0]).1 + DecodeAll(Stretches(turns)[1..])
    decreases |turns|
  {
    hide Frames.Feed, Decode;
    if turns == [] {
      FeedNothing(s);
    } else {
      var rest := Stretches(turns[1..]);
      match turns[0]
      case Reset =>
        TurnsAreFeeds(Hunt, turns[1..]);
        FeedIsDecode(rest[0]);
        FeedNothing(s);
        Quiet(DecodeAll(rest));
        assert Stretches(turns)[1..] == rest;
      case Drained(bytes) =>
        var s1 := Frames.Feed(s, bytes).0;
        TurnsAreFeeds(s1, turns[1..]);
        FeedConcat(s, bytes, rest[0]);
        assert Stretches(turns)[1..] == rest[1..];
        Associate(Frames.Feed(s, bytes).1, Frames.Feed(s1, rest[0]).1, DecodeAll(rest[1..]));
    }
  }

  lemma Associate(a: seq<Event>, b: seq<Event>, c: seq<Event>)
    ensures a + (b + c) == (a + b) + c
  {}

  /**
   However the bytes are split over calls, the reports are what the whole-buffer decoder finds in each stretch between
   two resets.
   */
  lemma ChunkingIrrelevant(turns: seq<Turn>)
    ensures FeedTurns(Hunt, turns).1 == DecodeAll(Stretches(turns))
  {
    hide Frames.Feed, Decode, FeedTurns;
    TurnsAreFeeds(Hunt, turns);
    FeedIsDecode(Stretches(turns)[0]);
  }

  // ----- sending -----

  datatype Request = Request(frameType: byte, req: byte, wvalue: u16, windex: u16, wlen: u16, payload: seq<byte>)

  function Header(r: Request): (h: seq<byte>)
    ensures |h| == 8
  {
    [r.frameType, r.req, LoOf(r.wvalue), HiOf(r.wvalue), LoOf(r.windex), HiOf(r.windex), LoOf(r.wlen), HiOf(r.wlen)]
  }

  function EncodeRequest(r: Request): seq<byte> {
    [SYNC] + Seal(Header(r) + r.payload)
  }

  datatype Option<T> = None | Some(value: T)

  /** How the other side reads a request: sync byte, checksum, then the fields. */
  function ParseRequest(wire: seq<byte>): Option<Request> {
    var n := |wire| - 2;
    if n < 9 || wire[0] != SYNC || Crc(INIT, wire[1..n]) != Join(wire[n], wire[n + 1]) then None
    else Some(Request(wire[1], wire[2], Number(wire[3], wire[4]), Number(wire[5], wire[6]), Number(wire[7], wire[8]),
                      wire[9..n]))
  }

  /** The request on the wire is read back field by field; in particular different requests differ on the wire. */
  lemma RequestRoundTrip(r: Request)
    ensures ParseRequest(EncodeRequest(r)) == Some(r)
  {
    hide Crc, LoOf, HiOf, Number, Join, Lo, Hi;
    var m := Header(r) + r.payload;
    var wire := EncodeRequest(r);
    var n := |wire| - 2;
    assert wire[1..n] == m;
    assert wire[9..n] == r.payload;
    JoinSplit(Crc(INIT, m));
    NumberRoundTrip(r.wvalue);
    NumberRoundTrip(r.windex);
    NumberRoundTrip(r.wlen);
  }

  /** Copies covered bytes into the frame, folding the checksum as it goes. */
  method WriteCovered(out: array<byte>, start: nat, data: seq<byte>, crc0: bv16, ghost covered: seq<byte>)
    returns (n: nat, crc: bv16)
    requires start + |data| <= out.Length && crc0 == Crc(INIT, covered)
    modifies out
    ensures n == start + |data|
    ensures out[..n] == old(out[..start]) + data
    ensures forall k :: n <= k < out.Length ==> out[k] == old(out[k])
    ensures crc == Crc(INIT, covered + data)
  {
    hide Crc, Update;
    n, crc := start, crc0;
    assert covered + data[..0] == covered;
    for i := 0 to |data|
      invariant n == start + i
      invariant out[..n] == old(out[..start]) + data[..i]
      invariant forall k :: n <= k < out.Length ==> out[k] == old(out[k])
      invariant crc == Crc(INIT, covered + data[..i])
    {
      CrcSnoc(INIT, covered + data[..i], data[i]);
      assert covered + data[..i + 1] == covered + data[..i] + [data[i]];
      out[n] := data[i];
      n := n + 1;
      crc := Crc16Update(crc, data[i]);
    }
    assert data[..|data|] == data;
  }

  /** Serialises a request into `out`, which needs room for the whole frame. */
  method BuildRequestFrame(out: array<byte>, r: Request) returns (n: nat)
    requires out.Length >= 11 + |r.payload|
    modifies out
    ensures n == 11 + |r.payload|
    ensures out[..n] == EncodeRequest(r)
    ensures forall k :: n <= k < out.Length ==> out[k] == old(out[k])
  {
    hide Crc, Header, Lo, Hi;
    CrcNothing();
    out[0] := SYNC;
    var crc: bv16;
    n, crc := WriteCovered(out, 1, Header(r), INIT, []);
    assert [] + Header(r) == Header(r);
    n, crc := WriteCovered(out, n, r.payload, crc, Header(r));
    ghost var written := out[..n];
    assert written == [SYNC] + (Header(r) + r.payload);
    out[n] := Lo(crc);
    out[n + 1] := Hi(crc);
    n := n + 2;
    assert out[..n] == written + [Lo(crc), Hi(crc)];
  }

  lemma CrcNothing()
    ensures Crc(INIT, []) == INIT
  {}
}
