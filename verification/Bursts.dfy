/**
 Bursts as the link sends them: bytes in order, the least significant bit of each first, the checksum's low byte before
 its high byte. A burst is any damage within 16 consecutive bits of that stream.
 */
module Bursts {
  import opened Wire
  import opened Crc16
  import opened CrcAlgebra
  import opened Frames
  import opened FrameLaws
  import opened Detection

  /** The first one of a word, alone. */
  function LowestOne(w: bv32): bv32 { w & (0 - w) }

  /** From its first one on, the word has ones in the next 16 places only. */
  predicate Short(w: bv32) { w & !((LowestOne(w) << 16) - 1) == 0 }

  /** Four bytes in the order of their bits on the link: the first byte's bits come first. */
  function Sent(a: byte, b: byte, c: byte, d: byte): bv32 {
    (a as bv32) | ((b as bv32) << 8) | ((c as bv32) << 16) | ((d as bv32) << 24)
  }

  // ----- the fold of one byte, without the loop -----

  function LowByte(c: bv16): bv16 { c & 0xFF }

  function Up(c: bv16): bv16 { c << 8 }

  function XorByte(a: byte, b: byte): byte { a ^ b }

  function Folded(c: bv16, x: byte): bv16 { Xor(Up(c), Fold(XorByte(Hi(c), x))) }

  lemma SplitRegister(c: bv16, x: byte)
    ensures Xor(c, Widen(x)) == Xor(LowByte(c), Widen(XorByte(Hi(c), x)))
  {}

  lemma LowByteShifts(c: bv16)
    ensures BitStep(BitStep(BitStep(BitStep(BitStep(BitStep(BitStep(BitStep(LowByte(c))))))))) == Up(c)
  {}

  lemma StepsOfLowByte(c: bv16)
    ensures Steps(LowByte(c), 8) == Up(c)
  {
    LowByteShifts(c);
    hide BitStep, LowByte, Up;
    FourMore(LowByte(c), 4);
    FourMore(BitStep(BitStep(BitStep(BitStep(LowByte(c))))), 0);
  }

  lemma UpdateIsFolded(c: bv16, x: byte)
    ensures Update(c, x) == Folded(c, x)
  {
    hide Steps, LowByte, Up, Fold, Xor, Widen, XorByte, Hi;
    var y := XorByte(Hi(c), x);
    SplitRegister(c, x);
    StepsLinear(LowByte(c), Widen(y), 8);
    StepsOfLowByte(c);
    UpdateFromZero(y);
    ZeroXor(Widen(y));
  }

  lemma ZeroXor(w: bv16)
    ensures Xor(0, w) == w
  {}

  /** The checksum of damage confined to the last two covered bytes. */
  function Tail(a: byte, b: byte): bv16 { Folded(Fold(a), b) }

  lemma QuietLead(n: nat)
    ensures Crc(0, Blank(n)) == 0
  {
    hide Crc;
    CrcIsShift(0, Blank(n));
    QuietBits(n);
    ShiftZeros(0, 8 * n);
    StepsNonzero(0, 8 * n);
  }

  lemma CrcOfTail(n: nat, a: byte, b: byte)
    ensures Crc(0, Blank(n) + [a, b]) == Tail(a, b)
  {
    hide Crc, Update, Fold, Folded;
    QuietLead(n);
    assert Blank(n) + [a, b] == (Blank(n) + [a]) + [b];
    CrcSnoc(0, Blank(n) + [a], b);
    CrcSnoc(0, Blank(n), a);
    UpdateFromZero(a);
    UpdateIsFolded(Fold(a), b);
  }

  // ----- inside the covered bytes -----

  lemma ThreeBytes(a: byte, b: byte, c: byte)
    ensures Short(Sent(a, b, c, 0)) && (a != 0 || b != 0 || c != 0) ==> Folded(Tail(a, b), c) != 0
  {}

  lemma CrcOfThree(n: nat, a: byte, b: byte, c: byte, m: nat)
    ensures Crc(0, Blank(n) + [a, b, c] + Blank(m)) == 0 <==> Folded(Tail(a, b), c) == 0
  {
    hide Crc, Update, Tail, Folded, Shift;
    var head := Blank(n) + [a, b];
    CrcOfTail(n, a, b);
    CrcSnoc(0, head, c);
    UpdateIsFolded(Tail(a, b), c);
    assert Blank(n) + [a, b, c] == head + [c];
    var r := Folded(Tail(a, b), c);
    CrcConcat(0, head + [c], Blank(m));
    CrcIsShift(r, Blank(m));
    QuietBits(m);
    ShiftZeros(r, 8 * m);
    StepsNonzero(r, 8 * m);
  }

  /** A burst inside the covered bytes is always refused, wherever it begins within a byte. */
  lemma CoveredBurstRefused(f: Event, n: nat, a: byte, b: byte, c: byte, m: nat)
    requires Fits(Damage(Blank(n) + [a, b, c] + Blank(m), 0), f)
    requires Short(Sent(a, b, c, 0)) && (a != 0 || b != 0 || c != 0)
    ensures Feed(Hunt, [SYNC] + Arriving(f, Damage(Blank(n) + [a, b, c] + Blank(m), 0))) == (Hunt, [CrcFailed])
  {
    hide Feed, Crc, Arriving, Close, Tail, Folded, Short, Sent;
    DamageDetected(f, Damage(Blank(n) + [a, b, c] + Blank(m), 0));
    CrcOfThree(n, a, b, c, m);
    ThreeBytes(a, b, c);
  }

  // ----- reaching the checksum -----

  /** The three bursts that carry their own checksum. */
  predicate SelfSealed(a: byte, b: byte, crc: bv16) {
    || (a == 0x00 && b == 0x89 && crc == 0x00A1)
    || (a == 0x00 && b == 0x98 && crc == 0x02B1)
    || (a == 0xC8 && b == 0xF7 && crc == 0x0005)
  }

  lemma TailBursts(a: byte, b: byte, crc: bv16)
    requires a != 0 || b != 0 || crc != 0
    ensures Short(Sent(a, b, Lo(crc), Hi(crc))) ==> (Tail(a, b) == crc <==> SelfSealed(a, b, crc))
  {}

  /**
   Of the bursts that reach into the last two covered bytes and the checksum, exactly three go unnoticed, in frames of
   any length: the checksum is not sent in the order that would make the frame one code word.
   */
  lemma TailBurst(f: Event, n: nat, a: byte, b: byte, crc: bv16)
    requires Fits(Damage(Blank(n) + [a, b], crc), f)
    requires Short(Sent(a, b, Lo(crc), Hi(crc))) && (a != 0 || b != 0 || crc != 0)
    ensures Feed(Hunt, [SYNC] + Arriving(f, Damage(Blank(n) + [a, b], crc))) == (Hunt, [CrcFailed])
      <==> !SelfSealed(a, b, crc)
  {
    hide Feed, Crc, Arriving, Close, Tail, Short, Sent, SelfSealed;
    DamageDetected(f, Damage(Blank(n) + [a, b], crc));
    CrcOfTail(n, a, b);
    TailBursts(a, b, crc);
  }

  /** The three are bursts, and each fits every frame with at least two bytes of payload. */
  lemma SelfSealedHappens(f: Event, a: byte, b: byte, crc: bv16)
    requires Legal(f) && |f.payload| >= 2 && SelfSealed(a, b, crc)
    ensures Short(Sent(a, b, Lo(crc), Hi(crc)))
    ensures Fits(Damage(Blank(|f.payload| + 2) + [a, b], crc), f)
  {
    FitsTail(f, a, b, crc);
    hide Fits, Legal;
  }

  lemma FitsTail(f: Event, a: byte, b: byte, crc: bv16)
    requires Legal(f) && |f.payload| >= 2
    ensures Fits(Damage(Blank(|f.payload| + 2) + [a, b], crc), f)
  {
    hide IsRxType;
    XorByteZero(f.frameType);
  }

  /** The check value of this checksum: that of the digits 1 to 9. */
  lemma CheckValue()
    ensures Crc(0xFFFF, [0x31, 0x32, 0x33, 0x34, 0x35, 0x36, 0x37, 0x38, 0x39]) == 0x29B1
  {
    hide Crc;
    var d: seq<byte> := [0x31, 0x32, 0x33, 0x34, 0x35, 0x36, 0x37, 0x38, 0x39];
    assert d[0..] == d && d[9..] == [];
    FeedDigit(d, 0, 0xFFFF, 0xC782);
    FeedDigit(d, 1, 0xC782, 0x3DBA);
    FeedDigit(d, 2, 0x3DBA, 0x5BCE);
    FeedDigit(d, 3, 0x5BCE, 0x5349);
    FeedDigit(d, 4, 0x5349, 0x4560);
    FeedDigit(d, 5, 0x4560, 0x2EF4);
    FeedDigit(d, 6, 0x2EF4, 0x7718);
    FeedDigit(d, 7, 0x7718, 0xA12B);
    FeedDigit(d, 8, 0xA12B, 0x29B1);
    CrcNone(0x29B1);
  }

  lemma FeedDigit(d: seq<byte>, i: nat, c: bv16, next: bv16)
    requires i < |d| && Folded(c, d[i]) == next
    ensures Crc(c, d[i..]) == Crc(next, d[i + 1..])
  {
    hide Folded, Update;
    UpdateIsFolded(c, d[i]);
    assert d[i..][1..] == d[i + 1..];
  }

  lemma CrcNone(c: bv16)
    ensures Crc(c, []) == c
  {}
}
