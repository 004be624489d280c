/** Bytes, 16-bit words and the constants of the DSPi UART control transport. */
module Wire {

  type byte = bv8

  const SYNC: byte := 0xA5

  // Frame types: the byte after the sync byte.
  const SET_REQ: byte := 0x01
  const GET_REQ: byte := 0x02
  const NOTIFY: byte := 0x40
  const SET_RESP: byte := 0x81
  const GET_RESP: byte := 0x82

  const MAX_TX_PAYLOAD: nat := 16
  const MAX_TX_FRAME: nat := 27
  const MAX_RX_PAYLOAD: nat := 132

  /** Types the receiver accepts; request types travel the other way. */
  predicate IsRxType(b: byte) {
    b == SET_RESP || b == GET_RESP || b == NOTIFY
  }

  const STATUS_OK: byte := 0x00
  const STATUS_BUSY: byte := 0x01
  const STATUS_BULK_LOCKED: byte := 0x04
  const STATUS_CRC_ERROR: byte := 0x05

  /** Made up by the client for a request that was never answered. */
  const LINK_FAILED: byte := 0xFF

  predicate IsRetryable(status: byte) {
    status == STATUS_BUSY || status == STATUS_BULK_LOCKED || status == STATUS_CRC_ERROR
  }

  // 16-bit registers travel low byte first.
  function Lo(w: bv16): byte { (w & 0xFF) as byte }

  function Hi(w: bv16): byte { (w >> 8) as byte }

  function Join(lo: byte, hi: byte): bv16 { (lo as bv16) | ((hi as bv16) << 8) }

  // Bit operations have names so that proofs can keep them folded.
  function And(a: bv16, b: bv16): bv16 { a & b }

  function Or(a: bv16, b: bv16): bv16 { a | b }

  function Less(a: bv16, b: bv16): bv16 { a & !b }

  function Half(a: bv16): bv16 { a >> 1 }

  lemma JoinSplit(w: bv16)
    ensures Join(Lo(w), Hi(w)) == w
  {}

  lemma SplitJoin(lo: byte, hi: byte)
    ensures Lo(Join(lo, hi)) == lo && Hi(Join(lo, hi)) == hi
  {}

  /** The first byte is the low one. */
  lemma LowByteFirst(lo: byte, hi: byte)
    ensures Join(lo, hi) & 0x00FF == lo as bv16 && Join(lo, hi) >> 8 == hi as bv16
  {}

  // Lengths and request parameters are 16-bit numbers, also low byte first.
  type u16 = n: nat | n < 0x1_0000

  // Clocks and counters are 32 bits wide and wrap.
  const TWO32: nat := 0x1_0000_0000

  type u32 = n: nat | n < TWO32

  function Add32(a: u32, n: nat): u32 { (a + n) % TWO32 }

  lemma Add32Twice(a: u32, m: nat, n: nat)
    ensures Add32(Add32(a, m), n) == Add32(a, m + n)
    ensures Add32(a, 0) == a
  {}

  lemma Add32Zero(a: u32)
    ensures Add32(a, 0) == a
  {}

  /** A byte as a number and back. The conversions have names so that proofs about numbers can keep them folded. */
  function Value(b: byte): (n: nat)
    ensures n < 256
  {
    b as nat
  }

  function ToByte(n: nat): byte
    requires n < 256
  {
    n as byte
  }

  function LoOf(n: u16): byte { ToByte(n % 256) }

  function HiOf(n: u16): byte { ToByte(n / 256) }

  function Number(lo: byte, hi: byte): (n: u16) { Value(lo) + 256 * Value(hi) }

  // The eight binary digits of a number below 256, which is what the conversion to a byte computes.
  lemma Digits(n: nat)
    requires n < 256
    ensures n == 2 * (n / 2) + n % 2 && n / 2 == 2 * (n / 4) + (n / 2) % 2 && n / 4 == 2 * (n / 8) + (n / 4) % 2
    ensures n / 8 == 2 * (n / 16) + (n / 8) % 2 && n / 16 == 2 * (n / 32) + (n / 16) % 2
    ensures n / 32 == 2 * (n / 64) + (n / 32) % 2
    ensures n / 64 == 2 * (n / 128) + (n / 64) % 2 && n / 128 == (n / 128) % 2
  {
    HalfOf(n, 2);
    HalfOf(n, 4);
    HalfOf(n, 8);
    HalfOf(n, 16);
    HalfOf(n, 32);
    HalfOf(n, 64);
  }

  lemma HalfOf(n: nat, d: nat)
    requires d > 0
    ensures n / d == 2 * (n / (2 * d)) + (n / d) % 2
  {
    var q, r := n / d, n % d;
    assert n == d * q + r;
    var h, b := q / 2, q % 2;
    assert q == 2 * h + b;
    assert n == (2 * d) * h + (d * b + r);
    QuotientUnique(n, 2 * d, h, d * b + r);
  }

  lemma QuotientUnique(n: nat, d: nat, q: nat, r: nat)
    requires d > 0 && n == d * q + r && r < d
    ensures n / d == q
  {
    var p, s := n / d, n % d;
    assert n == d * p + s;
    if p > q {
      Apart(d, p, q);
    } else if p < q {
      Apart(d, q, p);
    }
  }

  lemma Apart(d: nat, p: nat, q: nat)
    requires p > q
    ensures d * p >= d * q + d
  {
    assert d * p == d * q + d * (p - q);
    assert p - q >= 1;
    assert d * (p - q) >= d;
  }

  lemma ByteRoundTrip(n: nat)
    requires n < 256
    ensures Value(ToByte(n)) == n
  {
    Digits(n);
  }

  lemma ValueRoundTrip(b: byte)
    ensures ToByte(Value(b)) == b
  {}

  lemma NumberRoundTrip(n: u16)
    ensures Number(LoOf(n), HiOf(n)) == n
  {
    hide Value, ToByte;
    ByteRoundTrip(n % 256);
    ByteRoundTrip(n / 256);
  }

  lemma SplitNumber(lo: byte, hi: byte)
    ensures LoOf(Number(lo, hi)) == lo && HiOf(Number(lo, hi)) == hi
  {
    hide Value, ToByte;
    Divides(Value(lo), Value(hi));
    ValueRoundTrip(lo);
    ValueRoundTrip(hi);
  }

  lemma Divides(low: nat, high: nat)
    requires low < 256
    ensures (low + 256 * high) % 256 == low && (low + 256 * high) / 256 == high
  {}
}
