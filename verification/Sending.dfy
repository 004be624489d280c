/** What a queued request looks like on the wire, byte by byte and as the other side reads it. */
module Sending {
  import opened Wire
  import opened Crc16
  import opened Transport
  import opened Queue

  /** The frame of a queued request; no request of this program uses the index field. */
  function WireRequest(t: Txn): Request { Request(t.frameType, t.req, t.wvalue, 0, t.wlen, t.payload) }

  function FrameOfRequest(t: Txn): seq<byte> { EncodeRequest(WireRequest(t)) }

  /** Two bytes as a number, low byte first. */
  function Word(lo: byte, hi: byte): nat { (lo as nat) + 256 * (hi as nat) }

  /** The bytes of a request, one by one. */
  ghost predicate LaidOut(wire: seq<byte>, t: Txn) {
    var n := |t.payload|;
    && |wire| == n + 11
    && wire[0] == 0xA5 && wire[1] == t.frameType && wire[2] == t.req
    && Word(wire[3], wire[4]) == t.wvalue && Word(wire[5], wire[6]) == 0 && Word(wire[7], wire[8]) == t.wlen
    && wire[9..9 + n] == t.payload
    && Join(wire[9 + n], wire[10 + n]) == Crc(0xFFFF, wire[1..9 + n])
  }

  lemma WordIs(n: u16)
    ensures Word(LoOf(n), HiOf(n)) == n
  {
    NumberRoundTrip(n);
  }

  /** A request is written as its type, opcode, value, a zero index, the length, the payload and the checksum. */
  lemma RequestLayout(t: Txn)
    ensures LaidOut(FrameOfRequest(t), t)
  {
    hide Crc, LoOf, HiOf, Join, Lo, Hi, Word;
    var m := Header(WireRequest(t)) + t.payload;
    var wire := FrameOfRequest(t);
    WordIs(t.wvalue);
    WordIs(0);
    WordIs(t.wlen);
    JoinSplit(Crc(INIT, m));
    assert wire == [SYNC] + m + [Lo(Crc(INIT, m)), Hi(Crc(INIT, m))];
    assert wire[1..9 + |t.payload|] == m;
  }

  /** The request has the type, opcode, value, length and payload of this entry of the queue, and no index. */
  predicate Describes(r: Request, t: Txn) {
    && r.frameType == t.frameType && r.req == t.req && r.wvalue == t.wvalue && r.windex == 0 && r.wlen == t.wlen
    && r.payload == t.payload
  }

  /** The other side reads this entry. */
  ghost predicate ReadAs(wire: seq<byte>, t: Txn) {
    ParseRequest(wire).Some? && Describes(ParseRequest(wire).value, t)
  }

  /** What is sent for an entry of the queue is read as that entry. */
  lemma SentIsRead(t: Txn) returns (r: Request)
    ensures ParseRequest(FrameOfRequest(t)) == Some(r) && Describes(r, t)
  {
    hide EncodeRequest, ParseRequest;
    r := WireRequest(t);
    RequestRoundTrip(r);
  }

  lemma ReadBack(wire: seq<byte>, t: Txn, r: Request)
    requires ParseRequest(wire) == Some(r) && Describes(r, t)
    ensures ReadAs(wire, t)
  {}

  /** Two entries have the same identity exactly if the other side reads the same type, opcode and value. */
  lemma IdentityOnWire(t: Txn, u: Txn)
    ensures var a, b := FrameOfRequest(t), FrameOfRequest(u);
      |a| >= 11 && |b| >= 11 && (KeyOf(t) == KeyOf(u) <==> a[1..5] == b[1..5])
  {
    hide FrameOfRequest, Word;
    RequestLayout(t);
    RequestLayout(u);
    SameHeads(FrameOfRequest(t), FrameOfRequest(u), t, u);
  }

  lemma SameHeads(a: seq<byte>, b: seq<byte>, t: Txn, u: Txn)
    requires LaidOut(a, t) && LaidOut(b, u)
    ensures KeyOf(t) == KeyOf(u) <==> a[1..5] == b[1..5]
  {
    hide Crc, Join, Word;
    FourBytes(a, b);
    if KeyOf(t) == KeyOf(u) {
      WordUnique(a[3], a[4], b[3], b[4]);
    }
  }

  lemma FourBytes(a: seq<byte>, b: seq<byte>)
    requires |a| >= 5 && |b| >= 5
    ensures a[1..5] == b[1..5] <==> a[1] == b[1] && a[2] == b[2] && a[3] == b[3] && a[4] == b[4]
  {
    var x, y := a[1..5], b[1..5];
    assert x[0] == a[1] && x[1] == a[2] && x[2] == a[3] && x[3] == a[4];
    assert y[0] == b[1] && y[1] == b[2] && y[2] == b[3] && y[3] == b[4];
  }

  lemma WordUnique(a: byte, b: byte, c: byte, d: byte)
    requires Word(a, b) == Word(c, d)
    ensures a == c && b == d
  {
    SplitNumber(a, b);
    SplitNumber(c, d);
    hide LoOf, HiOf;
  }
}
