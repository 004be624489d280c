/**
 What the checksum detects, for messages of any length.

 `Shift` feeds a shift register one message bit at a time, the most significant bit of each byte first; `CrcIsShift`
 shows that the byte-wise fold of the program computes the same register. Three facts about one step carry everything
 else: it is linear, it loses no information, and it keeps the parity of the register, because the generator has an even
 number of terms.
 */
module CrcAlgebra {
  import opened Wire
  import opened Crc16

  // ----- bit strings, most significant bit first -----

  function Unpack(w: bv16, n: nat): (bits: seq<bool>)
    ensures |bits| == n
    decreases n
  {
    if n == 0 then [] else [Top(w)] + Unpack(Dbl(w), n - 1)
  }

  function Bits(b: byte): seq<bool> { Unpack(Widen(b), 8) }

  function AllBits(data: seq<byte>): seq<bool>
    decreases |data|
  {
    if data == [] then [] else Bits(data[0]) + AllBits(data[1..])
  }

  function Count(bits: seq<bool>): nat {
    if bits == [] then 0 else (if bits[0] then 1 else 0) + Count(bits[1..])
  }

  function Zeros(n: nat): (bits: seq<bool>)
    ensures |bits| == n
  {
    seq(n, _ => false)
  }

  function Shift(c: bv16, bits: seq<bool>): bv16
    decreases |bits|
  {
    if bits == [] then c else Shift(BitStep(Inject(c, bits[0])), bits[1..])
  }

  function Inject(c: bv16, bit: bool): bv16 {
    if bit then Xor(c, 0x8000) else c
  }

  // ----- facts about exclusive or -----

  lemma XorAssoc(a: bv16, b: bv16, c: bv16)
    ensures Xor(Xor(a, b), c) == Xor(a, Xor(b, c))
    ensures Xor(a, b) == Xor(b, a)
  {}

  lemma XorZero(a: bv16)
    ensures Xor(a, 0) == a && Xor(a, a) == 0
  {}

  lemma XorSwap(a: bv16, b: bv16, x: byte, y: byte)
    ensures Xor(Xor(a, b), Widen(x ^ y)) == Xor(Xor(a, Widen(x)), Xor(b, Widen(y)))
  {}

  lemma XorDbl(a: bv16, b: bv16)
    ensures Dbl(Xor(a, b)) == Xor(Dbl(a), Dbl(b))
  {}

  lemma XorTop(a: bv16, b: bv16)
    ensures Top(Xor(a, b)) == (Top(a) != Top(b))
  {
    assert (a ^ b) & 0x8000 == (a & 0x8000) ^ (b & 0x8000);
    assert a & 0x8000 == 0 || a & 0x8000 == 0x8000;
    assert b & 0x8000 == 0 || b & 0x8000 == 0x8000;
  }

  // ----- linearity -----

  lemma BitStepLinear(a: bv16, b: bv16)
    ensures BitStep(Xor(a, b)) == Xor(BitStep(a), BitStep(b))
  {
    hide Xor, Dbl, Top;
    var p := 0x1021;
    XorTop(a, b);
    XorDbl(a, b);
    var x, y := Dbl(a), Dbl(b);
    XorAssoc(x, y, p);
    XorAssoc(x, p, y);
    XorAssoc(p, y, x);
    XorAssoc(x, p, Xor(y, p));
    XorAssoc(p, y, p);
    XorAssoc(y, p, p);
    XorZero(p);
    XorZero(y);
  }

  lemma {:induction false} StepsLinear(a: bv16, b: bv16, n: nat)
    ensures Steps(Xor(a, b), n) == Xor(Steps(a, n), Steps(b, n))
    decreases n
  {
    hide Xor, BitStep;
    if n > 0 {
      BitStepLinear(a, b);
      StepsLinear(BitStep(a), BitStep(b), n - 1);
    }
  }

  function XorBytes(s: seq<byte>, e: seq<byte>): (r: seq<byte>)
    requires |s| == |e|
    ensures |r| == |s|
  {
    seq(|s|, i requires 0 <= i < |s| => s[i] ^ e[i])
  }

  /** Changing a message by the pattern `e` changes its checksum by the checksum of `e` from a zero register. */
  lemma {:induction false} CrcLinear(c: bv16, d: bv16, s: seq<byte>, e: seq<byte>)
    requires |s| == |e|
    ensures Crc(Xor(c, d), XorBytes(s, e)) == Xor(Crc(c, s), Crc(d, e))
    decreases |s|
  {
    hide Xor, Widen, Steps;
    if s != [] {
      var x, y := s[0], e[0];
      XorSwap(c, d, x, y);
      StepsLinear(Xor(c, Widen(x)), Xor(d, Widen(y)), 8);
      assert XorBytes(s, e)[1..] == XorBytes(s[1..], e[1..]);
      assert XorBytes(s, e)[0] == x ^ y;
      CrcLinear(Update(c, x), Update(d, y), s[1..], e[1..]);
    }
  }

  // ----- the byte-wise fold is the shift register -----

  function Rest(w: bv16): bv16 { w & 0x7FFF }

  function TopBit(w: bv16): bv16 { w & 0x8000 }

  lemma TopBitIs(w: bv16)
    ensures TopBit(w) == 0 || TopBit(w) == 0x8000
  {}

  lemma ClearTopBit(w: bv16)
    ensures Xor(w, TopBit(w)) == Rest(w)
  {}

  lemma InjectTop(w: bv16)
    ensures Inject(w, Top(w)) == Rest(w)
  {
    assert Top(w) <==> TopBit(w) != 0;
    hide TopBit, Top, Xor, Rest;
    TopBitIs(w);
    ClearTopBit(w);
    XorZero(w);
  }

  lemma RestTop(w: bv16)
    ensures !Top(Rest(w))
  {}

  lemma RestDbl(w: bv16)
    ensures Dbl(Rest(w)) == Dbl(w)
  {}

  /** Injecting its own top bit clears it, which doubling does not notice. */
  lemma DropTop(w: bv16)
    ensures Inject(w, Top(w)) == Rest(w) && !Top(Rest(w)) && Dbl(Rest(w)) == Dbl(w)
  {
    hide *;
    InjectTop(w);
    RestTop(w);
    RestDbl(w);
  }

  lemma InjectXor(c: bv16, w: bv16, bit: bool)
    ensures Xor(c, w) == Xor(Inject(c, bit), Inject(w, bit))
  {}

  lemma AbsorbTop(c: bv16, w: bv16)
    ensures BitStep(Xor(c, w)) == Xor(BitStep(Inject(c, Top(w))), Dbl(w))
  {
    DropTop(w);
    InjectXor(c, w, Top(w));
    var low := Inject(w, Top(w));
    hide Xor, Dbl, Inject;
    BitStepLinear(Inject(c, Top(w)), low);
  }

  function Dbls(w: bv16, n: nat): bv16
    decreases n
  {
    if n == 0 then w else Dbls(Dbl(w), n - 1)
  }

  lemma Dbls4(w: bv16, n: nat)
    ensures Dbls(w, n + 4) == Dbls(w << 4, n)
  {
    assert (((w << 1) << 1) << 1) << 1 == w << 4;
    assert Dbls(w, n + 4) == Dbls((w << 1) << 1, n + 2);
  }

  lemma DblsVanish(w: bv16, b: byte)
    ensures Dbls(w, 16) == 0 && Dbls(Widen(b), 8) == 0
  {
    var w4 := w << 4;
    var w8 := w4 << 4;
    var w12 := w8 << 4;
    assert w12 << 4 == 0;
    Dbls4(w, 12);
    Dbls4(w4, 8);
    Dbls4(w8, 4);
    Dbls4(w12, 0);
    var b4 := Widen(b) << 4;
    assert b4 << 4 == 0;
    Dbls4(Widen(b), 4);
    Dbls4(b4, 0);
  }

  /** Injecting `n` bits one by one is injecting the whole word first, up to the bits not yet reached. */
  lemma {:induction false} ShiftUnpack(c: bv16, w: bv16, n: nat)
    ensures Shift(c, Unpack(w, n)) == Xor(Steps(Xor(c, w), n), Dbls(w, n))
    decreases n
  {
    hide Xor, Dbl, Inject, BitStep, Top;
    if n == 0 {
      XorAssoc(c, w, w);
      XorZero(w);
      XorZero(c);
    } else {
      AbsorbTop(c, w);
      assert Unpack(w, n)[1..] == Unpack(Dbl(w), n - 1);
      ShiftUnpack(BitStep(Inject(c, Top(w))), Dbl(w), n - 1);
    }
  }

  lemma UpdateIsShift(c: bv16, b: byte)
    ensures Update(c, b) == Shift(c, Bits(b))
  {
    hide Xor, Widen, Steps, Shift, Unpack;
    ShiftUnpack(c, Widen(b), 8);
    DblsVanish(0, b);
    XorZero(Update(c, b));
  }

  lemma {:induction false} ShiftConcat(c: bv16, s: seq<bool>, t: seq<bool>)
    ensures Shift(c, s + t) == Shift(Shift(c, s), t)
    decreases |s|
  {
    hide Inject, BitStep;
    if s == [] {
      assert s + t == t;
    } else {
      assert (s + t)[1..] == s[1..] + t;
      ShiftConcat(BitStep(Inject(c, s[0])), s[1..], t);
    }
  }

  lemma {:induction false} CrcIsShift(c: bv16, data: seq<byte>)
    ensures Crc(c, data) == Shift(c, AllBits(data))
    decreases |data|
  {
    hide Update, Bits, Shift;
    if data == [] {
      ShiftNothing(c);
    } else {
      UpdateIsShift(c, data[0]);
      CrcIsShift(Update(c, data[0]), data[1..]);
      ShiftConcat(c, Bits(data[0]), AllBits(data[1..]));
    }
  }

  lemma ShiftNothing(c: bv16)
    ensures Shift(c, []) == c
  {}

  // ----- no information is lost -----

  lemma BitStepNonzero(c: bv16)
    ensures BitStep(c) == 0 <==> c == 0
  {}

  lemma {:induction false} StepsNonzero(c: bv16, n: nat)
    ensures Steps(c, n) == 0 <==> c == 0
    decreases n
  {
    hide BitStep;
    if n > 0 {
      BitStepNonzero(c);
      StepsNonzero(BitStep(c), n - 1);
    }
  }

  lemma {:induction false} ShiftZeros(c: bv16, n: nat)
    ensures Shift(c, Zeros(n)) == Steps(c, n)
    decreases n
  {
    hide BitStep;
    if n > 0 {
      assert Zeros(n)[1..] == Zeros(n - 1);
      ShiftZeros(BitStep(c), n - 1);
    }
  }

  /** A nonzero pattern within any 16 consecutive bits, at any alignment, has a nonzero checksum. */
  lemma BurstNonzero(before: nat, w: bv16, after: nat)
    requires w != 0
    ensures Shift(0, Zeros(before) + Unpack(w, 16) + Zeros(after)) != 0
  {
    hide Steps, Shift, Unpack, Zeros, Xor;
    ShiftConcat(0, Zeros(before) + Unpack(w, 16), Zeros(after));
    ShiftConcat(0, Zeros(before), Unpack(w, 16));
    ShiftZeros(0, before);
    StepsNonzero(0, before);
    ShiftUnpack(0, w, 16);
    DblsVanish(w, 0);
    XorAssoc(0, w, 0);
    XorZero(w);
    XorZero(Steps(w, 16));
    StepsNonzero(w, 16);
    var c := Shift(0, Zeros(before) + Unpack(w, 16));
    ShiftZeros(c, after);
    StepsNonzero(c, after);
  }

  // ----- parity is kept -----

  predicate Odd(c: bv16, n: nat)
    decreases n
  {
    if n == 0 then false else Top(c) != Odd(Dbl(c), n - 1)
  }

  lemma {:induction false} OddCount(c: bv16, n: nat)
    ensures Odd(c, n) <==> Count(Unpack(c, n)) % 2 == 1
    decreases n
  {
    hide Top, Dbl;
    if n > 0 {
      OddCount(Dbl(c), n - 1);
      assert Unpack(c, n)[1..] == Unpack(Dbl(c), n - 1);
    }
  }

  lemma {:induction false} OddXor(a: bv16, b: bv16, n: nat)
    ensures Odd(Xor(a, b), n) == (Odd(a, n) != Odd(b, n))
    decreases n
  {
    hide Xor, Dbl, Top;
    if n > 0 {
      XorTop(a, b);
      XorDbl(a, b);
      OddXor(Dbl(a), Dbl(b), n - 1);
    } else {
    }
  }

  lemma {:induction false} OddSnoc(c: bv16, n: nat)
    ensures Odd(c, n + 1) == (Odd(c, n) != Top(Dbls(c, n)))
    decreases n
  {
    hide Dbl, Top;
    if n > 0 {
      OddSnoc(Dbl(c), n - 1);
    }
  }

  lemma OddDbl(c: bv16)
    ensures Odd(Dbl(c), 16) == (Odd(c, 16) != Top(c))
  {
    hide Dbl;
    OddSnoc(Dbl(c), 15);
    DblsVanish(c, 0);
    assert Dbls(c, 16) == Dbls(Dbl(c), 15);
  }

  lemma OddConstants()
    ensures Odd(0x1021, 16) && Odd(0x8000, 16) && !Odd(0, 16)
  {
    assert !Odd(0, 2);
    assert !Odd(0, 4);
    assert !Odd(0, 6);
    assert !Odd(0, 8);
    assert !Odd(0, 10);
    assert !Odd(0, 12);
    assert !Odd(0, 14);
    assert Odd(0x8000, 1) && Odd(0x8000, 16);
    assert Odd(0x2000, 3);
    assert Odd(0x0800, 5);
    assert !Odd(0x4200, 7);
    assert !Odd(0x1080, 9);
    assert !Odd(0x0420, 11);
    assert Odd(0x8108, 13);
    assert Odd(0x2042, 15);
  }

  lemma OddBitStep(c: bv16)
    ensures Odd(BitStep(c), 16) == Odd(c, 16)
  {
    hide Xor, Dbl, Odd, Top;
    OddDbl(c);
    OddXor(Dbl(c), 0x1021, 16);
    OddConstants();
  }

  /** The register's parity is its starting parity changed once for every one bit fed in. */
  lemma {:induction false} OddShift(c: bv16, bits: seq<bool>)
    ensures Odd(Shift(c, bits), 16) == (Odd(c, 16) != (Count(bits) % 2 == 1))
    decreases |bits|
  {
    hide Xor, Odd, BitStep;
    if bits != [] {
      var d := Inject(c, bits[0]);
      OddXor(c, 0x8000, 16);
      OddConstants();
      OddBitStep(d);
      OddShift(BitStep(d), bits[1..]);
    }
  }
}
