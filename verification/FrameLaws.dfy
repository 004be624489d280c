/** What the receiver guarantees for whole streams: it delivers what was sent, and nothing that was not on the wire. */
module FrameLaws {
  import opened Wire
  import opened Crc16
  import opened Frames

  predicate Legal(f: Event) {
    f.Frame? && IsRxType(f.frameType) && |f.payload| <= MAX_RX_PAYLOAD
  }

  /** The bytes the checksum covers. */
  function Message(f: Event): seq<byte>
    requires Legal(f)
  {
    [f.frameType, f.status, LoOf(|f.payload|), HiOf(|f.payload|)] + f.payload
  }

  function Seal(message: seq<byte>): seq<byte> {
    message + [Lo(Crc(INIT, message)), Hi(Crc(INIT, message))]
  }

  /** A device-to-host frame on the wire. */
  function Encode(f: Event): seq<byte>
    requires Legal(f)
  {
    [SYNC] + Seal(Message(f))
  }

  /** The bytes of a frame, one by one: sync, type, status, length and checksum low byte first, payload between them. */
  lemma FrameLayout(f: Event)
    requires Legal(f)
    ensures var wire := Encode(f);
      var n := |f.payload|;
      && |wire| == n + 7
      && wire[0] == 0xA5 && wire[1] == f.frameType && wire[2] == f.status
      && (wire[3] as nat) + 256 * (wire[4] as nat) == n
      && wire[5..5 + n] == f.payload
      && Join(wire[5 + n], wire[6 + n]) == Crc(0xFFFF, wire[1..5 + n])
  {
    hide Crc, LoOf, HiOf, Join, Lo, Hi;
    var m := Message(f);
    NumberRoundTrip(|f.payload|);
    JoinSplit(Crc(INIT, m));
    assert Encode(f) == [SYNC] + m + [Lo(Crc(INIT, m)), Hi(Crc(INIT, m))];
    assert Encode(f)[1..5 + |f.payload|] == m;
  }

  lemma SealedBody(f: Event)
    requires Legal(f)
    ensures var body := Seal(Message(f));
            && |body| == |f.payload| + 6
            && LenOf(body) == |f.payload|
            && Close(body) == f
  {
    hide Crc, Lo, Hi, LoOf, HiOf, Number, Join, IsRxType;
    var m := Message(f);
    var body := Seal(m);
    NumberRoundTrip(|f.payload|);
    assert body[..|body| - 2] == m;
    assert body[4..|body| - 2] == f.payload;
    JoinSplit(Crc(INIT, m));
  }

  /** One frame sent to a receiver that is hunting is delivered as it was, and the receiver hunts again. */
  lemma RoundTrip(f: Event)
    requires Legal(f)
    ensures Feed(Hunt, Encode(f)) == (Hunt, [f])
  {
    hide Feed, Close, Seal, Message;
    var body := Seal(Message(f));
    SealedBody(f);
    BodyHead(f);
    Complete(body);
    SyncIsArmed([SYNC] + body);
    assert ([SYNC] + body)[1..] == body;
  }

  /** Replies to both kinds of request and notifications, with up to 132 bytes of payload, all arrive; */
  lemma EveryKindArrives(f: Event)
    requires f.Frame? && (f.frameType == 0x81 || f.frameType == 0x82 || f.frameType == 0x40) && |f.payload| <= 132
    ensures Legal(f) && Feed(Hunt, Encode(f)) == (Hunt, [f])
  {
    assert Legal(f);
    hide Feed, Encode;
    RoundTrip(f);
  }

  /** nothing else begins a frame. */
  lemma OtherTypesIgnored(b: byte)
    ensures Take(Armed, b)
      == (if b == 0x81 || b == 0x82 || b == 0x40 then Body([b]) else if b == 0xA5 then Armed else Hunt, [])
  {}

  lemma BodyHead(f: Event)
    requires Legal(f)
    ensures |Seal(Message(f))| > 0 && Seal(Message(f))[0] == f.frameType
  {}

  // ----- streams of frames with noise between them -----

  predicate NoSync(s: seq<byte>) {
    forall i :: 0 <= i < |s| ==> s[i] != SYNC
  }

  lemma {:induction false} HuntThrough(s: seq<byte>)
    requires NoSync(s)
    ensures Feed(Hunt, s) == (Hunt, [])
    decreases |s|
  {
    if s == [] {
      FeedNothing(Hunt);
    } else {
      HuntStep(s[0]);
      SkipByte(Hunt, s);
      HuntThrough(s[1..]);
    }
  }

  function Syncs(n: nat): (s: seq<byte>)
    ensures |s| == n
  {
    seq(n, _ => SYNC)
  }

  lemma {:induction false} ExtraSyncs(n: nat, s: seq<byte>)
    requires |s| >= 1 && s[0] == SYNC
    ensures Feed(Hunt, Syncs(n) + s) == Feed(Hunt, s)
    decreases n
  {
    hide Feed;
    if n == 0 {
      assert Syncs(n) + s == s;
    } else {
      var t := Syncs(n - 1) + s;
      assert (Syncs(n) + s)[1..] == t;
      SyncIsArmed(Syncs(n) + s);
      SyncIsArmed(t);
      ExtraSyncs(n - 1, s);
    }
  }

  /** A frame on the wire, after noise without sync bytes and any number of stray sync bytes. */
  datatype Burst = Burst(noise: seq<byte>, strays: nat, frame: Event) {
    predicate Valid() { NoSync(noise) && Legal(frame) }

    function OnWire(): seq<byte>
      requires Valid()
    {
      noise + (Syncs(strays) + Encode(frame))
    }
  }

  predicate AllValid(bursts: seq<Burst>) {
    forall i :: 0 <= i < |bursts| ==> bursts[i].Valid()
  }

  function Stream(bursts: seq<Burst>, tail: seq<byte>): seq<byte>
    requires AllValid(bursts)
  {
    if bursts == [] then tail else bursts[0].OnWire() + Stream(bursts[1..], tail)
  }

  function FramesOf(bursts: seq<Burst>): seq<Event> {
    if bursts == [] then [] else [bursts[0].frame] + FramesOf(bursts[1..])
  }

  lemma BurstDelivered(u: Burst)
    requires u.Valid()
    ensures Feed(Hunt, u.OnWire()) == (Hunt, [u.frame])
  {
    hide Feed, Encode, Syncs;
    EncodeHead(u.frame);
    HuntThrough(u.noise);
    FeedConcat(Hunt, u.noise, Syncs(u.strays) + Encode(u.frame));
    ExtraSyncs(u.strays, Encode(u.frame));
    RoundTrip(u.frame);
    Quiet([u.frame]);
  }

  lemma EncodeHead(f: Event)
    requires Legal(f)
    ensures |Encode(f)| >= 1 && Encode(f)[0] == SYNC
  {}

  /** Any list of frames, whatever their payloads, comes out of the receiver as that list. */
  lemma {:induction false} StreamRoundTrip(bursts: seq<Burst>, tail: seq<byte>)
    requires AllValid(bursts) && NoSync(tail)
    ensures Feed(Hunt, Stream(bursts, tail)) == (Hunt, FramesOf(bursts))
    ensures Decode(Stream(bursts, tail)) == FramesOf(bursts)
    decreases |bursts|
  {
    hide Feed, Decode, Burst.OnWire;
    FeedIsDecode(Stream(bursts, tail));
    if bursts == [] {
      HuntThrough(tail);
    } else {
      BurstDelivered(bursts[0]);
      StreamRoundTrip(bursts[1..], tail);
      FeedConcat(Hunt, bursts[0].OnWire(), Stream(bursts[1..], tail));
    }
  }

  // ----- nothing is delivered that was not on the wire -----

  predicate EndsWith(s: seq<byte>, t: seq<byte>) {
    |t| <= |s| && s[|s| - |t|..] == t
  }

  lemma EndsWithSnoc(s: seq<byte>, t: seq<byte>, b: byte)
    requires EndsWith(s, t)
    ensures EndsWith(s + [b], t + [b])
  {
    assert (s + [b])[|s| - |t|..] == t + [b];
  }

  /** The bytes a receiver holds are the last bytes it was fed, and a sync byte came before them. */
  lemma {:induction false} HeldIsSuffix(s: seq<byte>)
    ensures var r := Feed(Hunt, s).0;
            && (r.Armed? ==> EndsWith(s, [SYNC]))
            && (r.Body? ==> EndsWith(s, [SYNC] + r.got))
    decreases |s|
  {
    hide Feed, EndsWith, Number;
    if s == [] {
      FeedNothing(Hunt);
    } else {
      var n := |s| - 1;
      HeldIsSuffix(s[..n]);
      assert s == s[..n] + [s[n]];
      FeedSnoc(Hunt, s[..n], s[n]);
      var before := Feed(Hunt, s[..n]).0;
      LastByte(s);
      if before.Armed? {
        EndsWithSnoc(s[..n], [SYNC], s[n]);
      } else if before.Body? {
        EndsWithSnoc(s[..n], [SYNC] + before.got, s[n]);
        assert [SYNC] + before.got + [s[n]] == [SYNC] + (before.got + [s[n]]);
      }
    }
  }

  lemma LastByte(s: seq<byte>)
    requires s != []
    ensures EndsWith(s, [s[|s| - 1]])
  {}

  /** Closing a body is the inverse of sealing a message. */
  lemma CloseInverse(body: seq<byte>)
    requires |body| >= 6 && IsRxType(body[0])
    requires LenOf(body) <= MAX_RX_PAYLOAD && |body| == LenOf(body) + 6
    requires Close(body).Frame?
    ensures Legal(Close(body)) && Seal(Message(Close(body))) == body
  {
    hide Crc, Lo, Hi, LoOf, HiOf, Number, Join, IsRxType;
    var n := |body| - 2;
    var f := Close(body);
    SplitNumber(body[2], body[3]);
    assert Message(f) == body[..n];
    SplitJoin(body[n], body[n + 1]);
    assert body == body[..n] + [body[n], body[n + 1]];
  }

  /**
   When a byte makes the receiver report a frame, the bytes received up to it end with exactly the encoding of
   that frame: sync byte, type, status, length, payload, checksum.
   */
  lemma FrameIsSuffix(s: seq<byte>, b: byte, f: Event)
    requires Take(Feed(Hunt, s).0, b).1 == [f] && f.Frame?
    ensures Legal(f) && EndsWith(s + [b], Encode(f))
  {
    hide Feed, EndsWith, Seal, Message, Number, Close;
    HeldIsSuffix(s);
    var got := Feed(Hunt, s).0.got;
    var body := got + [b];
    CloseInverse(body);
    EndsWithSnoc(s, [SYNC] + got, b);
    assert [SYNC] + got + [b] == [SYNC] + body;
  }
}
