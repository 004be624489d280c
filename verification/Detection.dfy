/**
 Damage on the wire. A damage pattern is exclusive-ored over the covered bytes and the checksum of a frame; it leaves
 the length alone, so that the receiver still sees one frame. `DamageDetected` says exactly which patterns slip
 through; the other results follow from it, for payloads of every length.
 */
module Detection {
  import opened Wire
  import opened Crc16
  import opened CrcAlgebra
  import opened Frames
  import opened FrameLaws

  datatype Damage = Damage(message: seq<byte>, crc: bv16)

  ghost predicate Fits(d: Damage, f: Event) {
    && Legal(f)
    && |d.message| == |f.payload| + 4
    && d.message[2] == 0 && d.message[3] == 0
    && IsRxType(f.frameType ^ d.message[0])
  }

  /** The frame's bytes after the sync byte, as they arrive. */
  function Arriving(f: Event, d: Damage): seq<byte>
    requires Legal(f) && |d.message| == |f.payload| + 4
  {
    var crc := Xor(Crc(INIT, Message(f)), d.crc);
    XorBytes(Message(f), d.message) + [Lo(crc), Hi(crc)]
  }

  lemma XorCancels(a: bv16, e: bv16, x: bv16)
    ensures Xor(a, e) == Xor(a, x) <==> e == x
  {}

  lemma XorInit(c: bv16)
    ensures Xor(c, 0) == c
  {}

  lemma KeepsLength(f: Event, d: Damage)
    requires Fits(d, f)
    ensures var body := Arriving(f, d);
            && |body| == |f.payload| + 6
            && LenOf(body) == |f.payload|
            && IsRxType(body[0])
            && body[..|body| - 2] == XorBytes(Message(f), d.message)
  {
    hide Crc, Xor, Lo, Hi, LoOf, HiOf, IsRxType;
    NumberRoundTrip(|f.payload|);
    XorByteZero(Message(f)[2]);
    XorByteZero(Message(f)[3]);
    var body := Arriving(f, d);
    assert body[2] == LoOf(|f.payload|) && body[3] == HiOf(|f.payload|);
  }

  lemma XorByteZero(b: byte)
    ensures b ^ 0 == b
  {}

  lemma ArrivingCrc(f: Event, d: Damage)
    requires Fits(d, f)
    ensures var body := Arriving(f, d);
            Join(body[|body| - 2], body[|body| - 1]) == Xor(Crc(INIT, Message(f)), d.crc)
  {
    hide Crc, Xor, Message, IsRxType;
    JoinSplit(Xor(Crc(INIT, Message(f)), d.crc));
  }

  /** A damaged frame is accepted if and only if the damage to its checksum is the checksum of the damage. */
  lemma DamageDetected(f: Event, d: Damage)
    requires Fits(d, f)
    ensures var body := Arriving(f, d);
            Feed(Hunt, [SYNC] + body) == (Hunt, [Close(body)])
    ensures Close(Arriving(f, d)) == CrcFailed <==> Crc(0, d.message) != d.crc
  {
    hide Feed, Crc, Xor, Arriving, IsRxType;
    var body := Arriving(f, d);
    KeepsLength(f, d);
    ArrivingCrc(f, d);
    Complete(body);
    SyncIsArmed([SYNC] + body);
    assert ([SYNC] + body)[1..] == body;
    CrcLinear(INIT, 0, Message(f), d.message);
    XorInit(INIT);
    XorCancels(Crc(INIT, Message(f)), Crc(0, d.message), d.crc);
  }

  /** How many bits the damage flips. */
  function Flips(d: Damage): nat {
    Count(AllBits(d.message)) + Count(Unpack(d.crc, 16))
  }

  /** An odd number of flipped bits, anywhere in the covered bytes and the checksum, is always refused. */
  lemma OddDamageRefused(f: Event, d: Damage)
    requires Fits(d, f) && Flips(d) % 2 == 1
    ensures Feed(Hunt, [SYNC] + Arriving(f, d)) == (Hunt, [CrcFailed])
  {
    hide Feed, Crc, Arriving, Close, AllBits, Unpack, Shift, Odd, Count;
    DamageDetected(f, d);
    CrcIsShift(0, d.message);
    OddShift(0, AllBits(d.message));
    OddConstants();
    OddCount(d.crc, 16);
  }

  /**
   Damage confined to 16 consecutive bits of the covered bytes, each byte taken most significant bit first as the
   checksum takes it, is always refused. `Bursts` says the same of the order in which the link sends the bits.
   */
  lemma BurstRefused(f: Event, d: Damage, before: nat, w: bv16, after: nat)
    requires Fits(d, f) && d.crc == 0 && w != 0
    requires AllBits(d.message) == Zeros(before) + Unpack(w, 16) + Zeros(after)
    ensures Feed(Hunt, [SYNC] + Arriving(f, d)) == (Hunt, [CrcFailed])
  {
    hide Feed, Crc, Arriving, Close, AllBits, Unpack, Shift, Zeros;
    DamageDetected(f, d);
    CrcIsShift(0, d.message);
    BurstNonzero(before, w, after);
  }

  // ----- one or two adjacent bytes -----

  lemma {:induction false} QuietBits(n: nat)
    ensures AllBits(Blank(n)) == Zeros(8 * n)
    decreases n
  {
    hide Bits;
    if n > 0 {
      BitsOfZero();
      assert Blank(n)[1..] == Blank(n - 1);
      QuietBits(n - 1);
    }
  }

  function Blank(n: nat): (s: seq<byte>)
    ensures |s| == n
  {
    seq(n, _ => 0)
  }

  lemma BitsOfZero()
    ensures Bits(0) == Zeros(8)
  {
    hide Unpack, Zeros;
    assert Widen(0) == 0;
    UnpackZero(8);
  }

  lemma {:induction false} UnpackZero(n: nat)
    ensures Unpack(0, n) == Zeros(n)
    decreases n
  {
    if n > 0 {
      UnpackZero(n - 1);
      assert Dbl(0) == 0;
    }
  }

  lemma {:induction false} AllBitsConcat(s: seq<byte>, t: seq<byte>)
    ensures AllBits(s + t) == AllBits(s) + AllBits(t)
    decreases |s|
  {
    hide Bits;
    if s == [] {
      assert s + t == t;
    } else {
      assert (s + t)[1..] == s[1..] + t;
      AllBitsConcat(s[1..], t);
    }
  }

  function Quad(w: bv16): bv16 { Dbl(Dbl(Dbl(Dbl(w)))) }

  function TopFour(w: bv16): seq<bool> {
    [Top(w), Top(Dbl(w)), Top(Dbl(Dbl(w))), Top(Dbl(Dbl(Dbl(w))))]
  }

  lemma UnpackFour(w: bv16, n: nat)
    ensures Unpack(w, n + 4) == TopFour(w) + Unpack(Quad(w), n)
  {
    hide Top, Dbl, Unpack;
    UnpackTwo(w, n + 2);
    UnpackTwo(Dbl(Dbl(w)), n);
  }

  lemma UnpackTwo(w: bv16, n: nat)
    ensures Unpack(w, n + 2) == [Top(w), Top(Dbl(w))] + Unpack(Dbl(Dbl(w)), n)
  {
    hide Top, Dbl;
    assert Unpack(w, n + 2) == [Top(w)] + Unpack(Dbl(w), n + 1);
  }

  lemma UnpackEight(w: bv16, n: nat)
    ensures Unpack(w, n + 8) == TopFour(w) + TopFour(Quad(w)) + Unpack(Quad(Quad(w)), n)
  {
    hide Quad, TopFour, Unpack;
    UnpackFour(w, n + 4);
    UnpackFour(Quad(w), n);
  }

  lemma TopEightOfJoin(hi: byte, lo: byte)
    ensures TopFour(Join(lo, hi)) == TopFour(Widen(hi))
    ensures TopFour(Quad(Join(lo, hi))) == TopFour(Quad(Widen(hi)))
    ensures Quad(Quad(Join(lo, hi))) == Widen(lo)
  {}

  lemma BitsOfPair(hi: byte, lo: byte)
    ensures Unpack(Join(lo, hi), 16) == Bits(hi) + Bits(lo)
  {
    hide TopFour, Quad, Widen, Unpack, Join;
    TopEightOfJoin(hi, lo);
    UnpackEight(Join(lo, hi), 8);
    UnpackEight(Widen(hi), 0);
    UnpackNothing(Quad(Quad(Widen(hi))));
  }

  lemma UnpackNothing(w: bv16)
    ensures Unpack(w, 0) == []
  {}

  lemma JoinNonzero(lo: byte, hi: byte)
    requires lo != 0 || hi != 0
    ensures Join(lo, hi) != 0
  {}

  lemma PairBits(n: nat, x: byte, y: byte, m: nat)
    ensures AllBits(Blank(n) + [x, y] + Blank(m)) == Zeros(8 * n) + Unpack(Join(y, x), 16) + Zeros(8 * m)
  {
    hide Bits, Unpack, Zeros, Blank;
    AllBitsConcat(Blank(n) + [x, y], Blank(m));
    AllBitsConcat(Blank(n), [x, y]);
    QuietBits(n);
    QuietBits(m);
    BitsOfPair(x, y);
    assert [x, y][1..] == [y] && [y][1..] == [];
    assert AllBits([y]) == Bits(y) + [];
    assert AllBits([x, y]) == Bits(x) + Bits(y);
  }

  /** Any change confined to one or two adjacent bytes of the status and payload is always refused. */
  lemma AdjacentBytesRefused(f: Event, n: nat, x: byte, y: byte, m: nat)
    requires Fits(Damage(Blank(n) + [x, y] + Blank(m), 0), f)
    requires x != 0 || y != 0
    ensures Feed(Hunt, [SYNC] + Arriving(f, Damage(Blank(n) + [x, y] + Blank(m), 0))) == (Hunt, [CrcFailed])
  {
    hide *;
    PairBits(n, x, y, m);
    JoinNonzero(y, x);
    BurstRefused(f, Damage(Blank(n) + [x, y] + Blank(m), 0), 8 * n, Join(y, x), 8 * m);
  }

  // ----- across the boundary between payload and checksum -----

  function Fold(x: byte): bv16 {
    var t := (x ^ (x >> 4)) as bv16;
    (t << 12) ^ (t << 5) ^ t
  }

  lemma UpdateFromZero(x: byte)
    ensures Update(0, x) == Fold(x)
  {
    EightSteps(x);
    hide BitStep, Fold;
    var c := Widen(x);
    assert Xor(0, c) == c;
    FourMore(c, 4);
    FourMore(BitStep(BitStep(BitStep(BitStep(c)))), 0);
  }

  lemma FourMore(c: bv16, n: nat)
    ensures Steps(c, n + 4) == Steps(BitStep(BitStep(BitStep(BitStep(c)))), n)
  {
    hide BitStep;
    assert Steps(c, n + 4) == Steps(BitStep(BitStep(c)), n + 2);
  }

  lemma EightSteps(x: byte)
    ensures BitStep(BitStep(BitStep(BitStep(BitStep(BitStep(BitStep(BitStep(Widen(x))))))))) == Fold(x)
  {}

  lemma OnlyPair(x: byte, y: byte)
    ensures Fold(x) == y as bv16 <==> (x == 0 && y == 0) || (x == 0x89 && y == 0xA1)
  {}

  /**
   The checksum travels low byte first, so damage to the last payload byte and the low checksum byte is not a burst of
   the code. Exactly one change of these two bytes goes unnoticed; `Bursts` lists all unnoticed bursts.
   */
  lemma StraddlingDamage(f: Event, x: byte, y: byte)
    requires Legal(f) && |f.payload| >= 1
    requires x != 0 || y != 0
    ensures var d := Damage(Blank(|f.payload| + 3) + [x], y as bv16);
            && Fits(d, f)
            && (Feed(Hunt, [SYNC] + Arriving(f, d)) == (Hunt, [CrcFailed]) <==> !(x == 0x89 && y == 0xA1))
  {
    hide Feed, Crc, Arriving, Close, Update, Fold;
    var n := |f.payload| + 3;
    var d := Damage(Blank(n) + [x], y as bv16);
    XorByteZero(f.frameType);
    DamageDetected(f, d);
    CrcSnoc(0, Blank(n), x);
    CrcIsShift(0, Blank(n));
    QuietBits(n);
    ShiftZeros(0, 8 * n);
    StepsNonzero(0, 8 * n);
    UpdateFromZero(x);
    OnlyPair(x, y);
  }
}
