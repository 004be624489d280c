/** The spectrum analyser's structures on the wire, assembled from byte offsets. */
module RtaWire {
  import opened Wire

  const CFG_VERSION: byte := 3
  const CONFIG_LEN: nat := 12
  const CAPS_LEN: nat := 16
  const MAX_BANDS: nat := 37
  const BAND_FRAME_LEN: nat := 82
  const OFF_AVG: nat := 8
  const OFF_PEAK: nat := 45
  const AGE_NEVER: nat := 0xFFFF

  datatype RtaConfig = RtaConfig(
    version: byte, tap: byte, channelMask: bv16, fftOrder: byte, avgMs: bv16, peakDecay: byte, flags: byte)

  datatype RtaCaps = RtaCaps(
    version: byte, inputChannels: byte, outputChannels: byte, orderMin: byte, orderMax: byte, orderDefault: byte,
    maxBands: nat, levelZero: byte)

  datatype BandFrame = BandFrame(channel: nat, seqNo: byte, bands: nat, ageMs: u16, avg: seq<byte>, peak: seq<byte>)

  datatype Parsed<T> = Bad | Good(value: T)

  function ParseConfig(d: seq<byte>): Parsed<RtaConfig> {
    if |d| < CONFIG_LEN then Bad
    else Good(RtaConfig(d[0], d[1], Join(d[2], d[3]), d[4], Join(d[6], d[7]), d[8], d[9]))
  }

  function ParseCaps(d: seq<byte>): Parsed<RtaCaps> {
    if |d| < CAPS_LEN then Bad
    else Good(RtaCaps(d[0], d[1], d[2], d[3], d[4], d[5], Value(d[7]), d[8]))
  }

  function Least(a: nat, b: nat): nat { if a < b then a else b }

  function ParseBandFrame(d: seq<byte>): (r: Parsed<BandFrame>)
    ensures r.Good? ==> r.value.bands <= MAX_BANDS && |r.value.avg| == |r.value.peak| == MAX_BANDS
  {
    if |d| < BAND_FRAME_LEN || d[0] != CFG_VERSION then Bad
    else Good(BandFrame(Value(d[1]), d[2], Least(Value(d[3]), MAX_BANDS), Number(d[4], d[5]),
                        d[OFF_AVG..OFF_PEAK], d[OFF_PEAK..OFF_PEAK + MAX_BANDS]))
  }

  function ConfigBytes(c: RtaConfig): (s: seq<byte>)
    ensures |s| == CONFIG_LEN
  {
    [c.version, c.tap, Lo(c.channelMask), Hi(c.channelMask), c.fftOrder, 0, Lo(c.avgMs), Hi(c.avgMs), c.peakDecay,
     c.flags, 0, 0]
  }

  method ClearRecord(out: array<byte>, n: nat)
    requires n <= out.Length
    modifies out
    ensures forall i :: 0 <= i < n ==> out[i] == 0
    ensures forall i :: n <= i < out.Length ==> out[i] == old(out[i])
  {
    for i := 0 to n
      invariant forall j :: 0 <= j < i ==> out[j] == 0
      invariant forall j :: n <= j < out.Length ==> out[j] == old(out[j])
    {
      out[i] := 0;
    }
  }

  /** Clears the record, then writes the fields at their offsets. */
  method WriteConfig(out: array<byte>, c: RtaConfig)
    requires out.Length >= CONFIG_LEN
    modifies out
    ensures out[..CONFIG_LEN] == ConfigBytes(c)
    ensures forall i :: CONFIG_LEN <= i < out.Length ==> out[i] == old(out[i])
  {
    hide Lo, Hi, ConfigBytes;
    ClearRecord(out, CONFIG_LEN);
    ghost var blank := out[..CONFIG_LEN];
    out[0] := c.version;
    out[1] := c.tap;
    out[2] := Lo(c.channelMask);
    out[3] := Hi(c.channelMask);
    out[4] := c.fftOrder;
    out[6] := Lo(c.avgMs);
    out[7] := Hi(c.avgMs);
    out[8] := c.peakDecay;
    out[9] := c.flags;
    assert out[..CONFIG_LEN] == blank[0 := c.version][1 := c.tap][2 := Lo(c.channelMask)][3 := Hi(c.channelMask)]
      [4 := c.fftOrder][6 := Lo(c.avgMs)][7 := Hi(c.avgMs)][8 := c.peakDecay][9 := c.flags];
    FieldsInPlace(blank, c);
  }

  lemma FieldsInPlace(blank: seq<byte>, c: RtaConfig)
    requires |blank| == CONFIG_LEN && forall i :: 0 <= i < CONFIG_LEN ==> blank[i] == 0
    ensures blank[0 := c.version][1 := c.tap][2 := Lo(c.channelMask)][3 := Hi(c.channelMask)]
      [4 := c.fftOrder][6 := Lo(c.avgMs)][7 := Hi(c.avgMs)][8 := c.peakDecay][9 := c.flags] == ConfigBytes(c)
  {
    hide Lo, Hi;
  }

  /** A configuration is read back as it was written. */
  lemma ConfigRoundTrip(c: RtaConfig)
    ensures ParseConfig(ConfigBytes(c)) == Good(c)
  {
    hide Lo, Hi, Join;
    JoinSplit(c.channelMask);
    JoinSplit(c.avgMs);
  }

  // ----- records the device sends -----

  /** A band frame as the device sends it: version, channel, sequence number, bands, age, two reserved bytes, levels. */
  function BandBytes(version: byte, channel: byte, seqNo: byte, bands: byte, age: u16, reserved: (byte, byte),
                     avg: seq<byte>, peak: seq<byte>): seq<byte>
  {
    [version, channel, seqNo, bands, LoOf(age), HiOf(age), reserved.0, reserved.1] + avg + peak
  }

  /** A frame of protocol version 3 is read field by field, whatever is reserved or follows; at most 37 bands count. */
  lemma BandRoundTrip(channel: byte, seqNo: byte, bands: byte, age: u16, reserved: (byte, byte), avg: seq<byte>,
                      peak: seq<byte>, more: seq<byte>)
    requires |avg| == |peak| == 37
    ensures var r := ParseBandFrame(BandBytes(3, channel, seqNo, bands, age, reserved, avg, peak) + more);
      && r.Good?
      && r.value.channel == channel as nat && r.value.seqNo == seqNo && r.value.ageMs == age
      && r.value.bands == (if bands as nat < 37 then bands as nat else 37)
      && r.value.avg == avg && r.value.peak == peak
  {
    hide LoOf, HiOf, Number;
    NumberRoundTrip(age);
    var d := BandBytes(3, channel, seqNo, bands, age, reserved, avg, peak) + more;
    assert d[8..45] == avg && d[45..82] == peak;
  }

  /** Anything shorter than 82 bytes, or of another version, is refused, and nothing else is. */
  lemma BandRefused(d: seq<byte>)
    ensures ParseBandFrame(d).Bad? <==> |d| < 82 || d[0] != 3
  {
    hide Number;
  }

  /** The capabilities as the device sends them; the bass bands and the last seven bytes are not used. */
  function CapsBytes(c: RtaCaps, bass: byte, more: seq<byte>): seq<byte>
    requires c.maxBands < 256
  {
    [c.version, c.inputChannels, c.outputChannels, c.orderMin, c.orderMax, c.orderDefault, bass, ToByte(c.maxBands),
     c.levelZero] + more
  }

  lemma CapsRoundTrip(c: RtaCaps, bass: byte, more: seq<byte>)
    requires c.maxBands < 256 && |more| >= 7
    ensures ParseCaps(CapsBytes(c, bass, more)) == Good(c)
  {
    hide ToByte, Value;
    ByteRoundTrip(c.maxBands);
  }

  lemma CapsRefused(d: seq<byte>)
    ensures ParseCaps(d).Bad? <==> |d| < 16
  {
    hide Value;
  }
}
