/** The byte-at-a-time receiver with its registers. */
module FrameParsing {
  import opened Wire
  import opened Crc16
  import opened Frames

  datatype ParseResult = NeedMore | FrameReady | CrcBad | TooBig

  datatype State = InSync | InType | InHeader | InPayload | InCrcLo | InCrcHi

  const RESP_HEADER_LEN: nat := 3

  /**
   The receiver's registers. `rx` is the abstract automaton they implement: between two calls the registers are a
   running summary of the bytes `rx` has collected, and the checksum register is the checksum of the covered ones.
   */
  class FrameParser {
    var state: State
    var frameType: byte
    var status: byte
    var len: nat
    var crc: bv16
    var rxCrc: byte
    var headerPos: nat
    var payloadPos: nat
    const payload: array<byte>
    ghost var rx: Rx

    ghost predicate Valid()
      reads this, payload
      ensures Valid() ==> rx.Valid() && payload.Length == MAX_RX_PAYLOAD
    {
      && payload.Length == MAX_RX_PAYLOAD
      && rx.Valid()
      && match state
         case InSync => rx == Hunt
         case InType => rx == Armed
         case InHeader =>
           && rx.Body? && |rx.got| == 1 + headerPos && headerPos < RESP_HEADER_LEN
           && rx.got[0] == frameType && crc == Crc(INIT, rx.got)
           && (headerPos >= 1 ==> rx.got[1] == status)
           && (headerPos >= 2 ==> len == Value(rx.got[2]))
         case InPayload =>
           && Held(4 + payloadPos) && payloadPos < len && crc == Crc(INIT, rx.got)
         case InCrcLo =>
           && Held(4 + len) && crc == Crc(INIT, rx.got)
         case InCrcHi =>
           && Held(5 + len) && crc == Crc(INIT, rx.got[..4 + len]) && rx.got[4 + len] == rxCrc
    }

    /** The registers describe a body of `n` bytes whose header is complete. */
    ghost predicate Held(n: nat)
      requires payload.Length == MAX_RX_PAYLOAD
      reads this, payload
    {
      && rx.Body? && |rx.got| == n >= 4 && len <= MAX_RX_PAYLOAD
      && rx.got[0] == frameType && rx.got[1] == status && LenOf(rx.got) == len
      && (forall i :: 4 <= i < n && i < 4 + len ==> rx.got[i] == payload[i - 4])
    }

    constructor ()
      ensures Valid() && rx == Hunt && fresh(payload)
    {
      state, frameType, status, len, crc, rxCrc, headerPos, payloadPos := InSync, 0, 0, 0, INIT, 0, 0, 0;
      payload := new byte[MAX_RX_PAYLOAD](_ => 0);
      rx := Hunt;
    }

    method Reset()
      requires Valid()
      modifies this
      ensures Valid() && rx == Hunt
    {
      state := InSync;
      rx := Hunt;
    }

    /** The getters together, as the frame they describe. */
    ghost function Current(): Event
      requires payload.Length == MAX_RX_PAYLOAD && len <= MAX_RX_PAYLOAD
      reads this, payload
    {
      Frame(frameType, status, payload[..len])
    }

    /** What the result of one call says, as events. */
    ghost predicate Reports(r: ParseResult, events: seq<Event>)
      requires payload.Length == MAX_RX_PAYLOAD
      reads this, payload
    {
      match r
      case NeedMore => events == []
      case FrameReady => len <= MAX_RX_PAYLOAD && events == [Current()]
      case CrcBad => events == [CrcFailed]
      case TooBig => events == [Oversize]
    }

    method Feed(b: byte) returns (r: ParseResult)
      requires Valid()
      modifies this, payload
      ensures Valid()
      ensures rx == Take(old(rx), b).0
      ensures Reports(r, Take(old(rx), b).1)
    {
      hide *;
      match state {
        case InSync => r := FeedSync(b);
        case InType => r := FeedType(b);
        case InHeader => r := FeedHeader(b);
        case InPayload => r := FeedPayload(b);
        case InCrcLo => r := FeedCrcLo(b);
        case InCrcHi => r := FeedCrcHi(b);
      }
    }

    method FeedSync(b: byte) returns (r: ParseResult)
      requires Valid() && state == InSync
      modifies this
      ensures Valid()
      ensures rx == Take(old(rx), b).0
      ensures Reports(r, Take(old(rx), b).1)
    {
      if b == SYNC {
        state := InType;
        rx := Armed;
      }
      r := NeedMore;
    }

    method FeedType(b: byte) returns (r: ParseResult)
      requires Valid() && state == InType
      modifies this
      ensures Valid()
      ensures rx == Take(old(rx), b).0
      ensures Reports(r, Take(old(rx), b).1)
    {
      hide Update, Number;
      r := NeedMore;
      if b == SYNC {
        return;
      }
      if b != SET_RESP && b != GET_RESP && b != NOTIFY {
        state := InSync;
        rx := Hunt;
        return;
      }
      frameType := b;
      CrcSnoc(INIT, [], b);
      assert [] + [b] == [b];
      crc := Crc16Update(INIT, b);
      headerPos := 0;
      state := InHeader;
      rx := Body([b]);
    }

    method FeedHeader(b: byte) returns (r: ParseResult)
      requires Valid() && state == InHeader
      modifies this
      ensures Valid()
      ensures rx == Take(old(rx), b).0
      ensures Reports(r, Take(old(rx), b).1)
    {
      hide Crc, Update, Number;
      CrcSnoc(INIT, rx.got, b);
      if headerPos == 0 {
        crc := Crc16Update(crc, b);
        status := b;
      } else if headerPos == 1 {
        crc := Crc16Update(crc, b);
        len := Value(b);
      } else {
        r := FeedLengthHigh(b);
        return;
      }
      headerPos := headerPos + 1;
      rx := Body(rx.got + [b]);
      r := NeedMore;
    }

    method FeedLengthHigh(b: byte) returns (r: ParseResult)
      requires Valid() && state == InHeader && headerPos == RESP_HEADER_LEN - 1
      modifies this
      ensures Valid()
      ensures rx == Take(old(rx), b).0
      ensures Reports(r, Take(old(rx), b).1)
    {
      hide Crc, Update;
      CrcSnoc(INIT, rx.got, b);
      crc := Crc16Update(crc, b);
      ghost var body := rx.got + [b];
      len := len + 256 * Value(b);  // the low byte is in place, so or-ing in the high byte adds it
      assert LenOf(body) == len;
      headerPos := headerPos + 1;
      if len > MAX_RX_PAYLOAD {
        state := InSync;
        rx := Hunt;
        return TooBig;
      }
      payloadPos := 0;
      state := if len != 0 then InPayload else InCrcLo;
      rx := Body(body);
      r := NeedMore;
    }

    method FeedCrcLo(b: byte) returns (r: ParseResult)
      requires Valid() && state == InCrcLo
      modifies this
      ensures Valid()
      ensures rx == Take(old(rx), b).0
      ensures Reports(r, Take(old(rx), b).1)
    {
      hide Crc, Number;
      ghost var body := rx.got + [b];
      assert LenOf(body) == len;
      assert body[..4 + len] == rx.got;
      rxCrc := b;
      state := InCrcHi;
      rx := Body(body);
      r := NeedMore;
    }

    method FeedPayload(b: byte) returns (r: ParseResult)
      requires Valid() && state == InPayload
      modifies this, payload
      ensures Valid()
      ensures rx == Take(old(rx), b).0
      ensures Reports(r, Take(old(rx), b).1)
    {
      hide Crc, Update, Number, IsRxType, Close;
      CrcSnoc(INIT, rx.got, b);
      ghost var body := rx.got + [b];
      assert LenOf(body) == len;
      assert Take(rx, b) == (Body(body), []);
      crc := Crc16Update(crc, b);
      payload[payloadPos] := b;
      payloadPos := payloadPos + 1;
      rx := Body(body);
      if payloadPos >= len {
        state := InCrcLo;
      }
      r := NeedMore;
    }

    method FeedCrcHi(b: byte) returns (r: ParseResult)
      requires Valid() && state == InCrcHi
      modifies this
      ensures Valid()
      ensures rx == Take(old(rx), b).0
      ensures Reports(r, Take(old(rx), b).1)
    {
      hide Crc, Number;
      ghost var body := rx.got + [b];
      assert LenOf(body) == len;
      assert body[..|body| - 2] == rx.got[..4 + len];
      assert body[4..|body| - 2] == payload[..len];
      var received := Join(rxCrc, b);
      state := InSync;
      rx := Hunt;
      r := if received == crc then FrameReady else CrcBad;
    }
  }
}
