/** How soon the receiver recovers after losing the frame boundaries. */
module Recovery {
  import opened Wire
  import opened Frames
  import opened FrameLaws

  /** The most bytes other than the sync byte that can pass before the receiver hunts again. */
  function Rank(s: Rx): (r: nat)
    requires s.Valid()
    ensures r <= 138
    ensures s.Body? ==> 0 < r <= 137
  {
    match s
    case Hunt => 0
    case Armed => 138
    case Body(got) => if |got| < 4 then 138 - |got| else LenOf(got) + 6 - |got|
  }

  lemma RankFalls(s: Rx, b: byte)
    requires s.Valid() && (b != SYNC || s.Body?)
    ensures s == Hunt ==> Take(s, b).0 == Hunt
    ensures s != Hunt ==> Rank(Take(s, b).0) < Rank(s)
  {
    hide Number, Close;
    if s.Body? {
      var body := s.got + [b];
      assert |s.got| >= 4 ==> LenOf(body) == LenOf(s.got);
    }
  }

  /** Inside a frame at most 137 bytes, whatever they are, lead back to hunting. */
  lemma {:induction false} BodyEnds(s: Rx, bytes: seq<byte>) returns (n: nat)
    requires s.Valid() && s.Body? && |bytes| >= 137
    ensures n <= 137 && Feed(s, bytes[..n]).0 == Hunt
  {
    n := BodyEndsWithin(s, bytes, 137);
  }

  lemma {:induction false} BodyEndsWithin(s: Rx, bytes: seq<byte>, limit: nat) returns (n: nat)
    requires s.Valid() && s.Body? && |bytes| >= limit >= Rank(s)
    ensures 0 < n <= limit && Feed(s, bytes[..n]).0 == Hunt
    decreases limit
  {
    hide Take, Rank;
    RankFalls(s, bytes[0]);
    var t := Take(s, bytes[0]).0;
    BodyNext(s, bytes[0]);
    if t == Hunt {
      n := 1;
      assert bytes[..1] == [bytes[0]];
      FeedOne(s, bytes[0]);
    } else {
      var m := BodyEndsWithin(t, bytes[1..], limit - 1);
      n := m + 1;
      assert bytes[..n][1..] == bytes[1..][..m];
    }
  }

  lemma BodyNext(s: Rx, b: byte)
    requires s.Valid() && s.Body?
    ensures !Take(s, b).0.Armed?
    ensures Rank(s) > 0
  {}

  lemma {:induction false} QuietHunts(s: Rx, bytes: seq<byte>)
    requires s.Valid() && NoSync(bytes) && |bytes| >= Rank(s)
    ensures Feed(s, bytes).0 == Hunt
    decreases |bytes|
  {
    hide Take, Rank;
    if bytes == [] {
      RankZero(s);
    } else {
      RankFalls(s, bytes[0]);
      RankZero(Hunt);
      QuietHunts(Take(s, bytes[0]).0, bytes[1..]);
    }
  }

  lemma RankZero(s: Rx)
    requires s.Valid()
    ensures Rank(s) == 0 <==> s == Hunt
  {}

  /** After any traffic at all, 138 bytes without a sync byte guarantee the next frame. */
  lemma Resynchronises(past: seq<byte>, quiet: seq<byte>, f: Event)
    requires NoSync(quiet) && |quiet| >= 138 && Legal(f)
    ensures var (s, events) := Feed(Hunt, past + quiet + Encode(f));
            s == Hunt && events == Feed(Hunt, past + quiet).1 + [f]
  {
    hide Feed, Encode, Rank;
    QuietHunts(Feed(Hunt, past).0, quiet);
    FeedConcat(Hunt, past, quiet);
    FeedConcat(Hunt, past + quiet, Encode(f));
    RoundTrip(f);
  }

  /** A type, status and length announcing 132 bytes, those bytes, and one of the two checksum bytes. */
  function Cut(): (quiet: seq<byte>)
    ensures |quiet| == 137 && quiet[0] == GET_RESP && NoSync(quiet)
  {
    [GET_RESP, 0, 132, 0] + seq(132, _ => 0) + [0]
  }

  const LOST := Frame(SET_RESP, 0, [])

  lemma CutLength()
    ensures LenOf(Cut()) == 132
  {
    assert Cut()[2] == 132 && Cut()[3] == 0;
  }

  /** The bound is sharp: after one stray sync byte, 137 quiet bytes can cost the next frame. */
  lemma OneByteLessLosesAFrame()
    ensures NoSync(Cut()) && |Cut()| == 137 && Legal(LOST)
    ensures LOST !in Feed(Hunt, [SYNC] + Cut() + Encode(LOST)).1
  {
    hide Feed, Encode, Cut, Close, Number;
    var quiet, wire := Cut(), Encode(LOST);
    CutLength();
    UnfinishedBody(quiet);
    LostHeader();
    assert [SYNC] + quiet + wire == [SYNC] + (quiet + wire);
    assert ([SYNC] + (quiet + wire))[1..] == quiet + wire;
    SyncIsArmed([SYNC] + (quiet + wire));
    FeedConcat(Armed, quiet, wire);
    LostTail(quiet, wire);
    Quiet(Feed(Body(quiet), wire).1);
  }

  lemma LostHeader()
    ensures var w := Encode(LOST);
            |w| == 7 && w[0] == SYNC && w[1] == SET_RESP && w[2] == 0 && w[3] == 0 && w[4] == 0
  {}

  lemma LostTail(quiet: seq<byte>, wire: seq<byte>)
    requires |quiet| == 137 && quiet[0] == GET_RESP && LenOf(quiet) == 132
    requires |wire| == 7 && wire[0] == SYNC && wire[1] == SET_RESP && wire[2] == 0 && wire[3] == 0 && wire[4] == 0
    ensures Body(quiet).Valid() && LOST !in Feed(Body(quiet), wire).1
  {
    hide Feed, Close, Number;
    var body := quiet + [wire[0]];
    assert body[..|body| - 1] == quiet;
    assert LenOf(body) == LenOf(quiet);
    FinishBody(body);
    CloseKeepsType(body);
    FeedOne(Body(quiet), wire[0]);
    assert wire == [wire[0]] + wire[1..];
    FeedConcat(Body(quiet), [wire[0]], wire[1..]);
    assert wire[1..] == wire[1..5] + wire[5..];
    HuntThrough(wire[1..5]);
    FeedConcat(Hunt, wire[1..5], wire[5..]);
    TwoBytes(wire[5..]);
    Quiet([]);
    Quiet([Close(body)]);
  }

  lemma CloseKeepsType(body: seq<byte>)
    requires |body| >= 6
    ensures Close(body).Frame? ==> Close(body).frameType == body[0]
  {}

  lemma TwoBytes(s: seq<byte>)
    requires |s| == 2
    ensures Feed(Hunt, s).1 == []
  {
    hide Number, Close;
    assert s == [s[0]] + [s[1]];
    FeedConcat(Hunt, [s[0]], [s[1]]);
    FeedOne(Hunt, s[0]);
    FeedOne(Feed(Hunt, [s[0]]).0, s[1]);
    Quiet([]);
  }
}
