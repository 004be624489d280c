/** Which input sources can be selected now, pieced together from three kinds of reply that arrive in any order. */
module Sources {
  import opened Wire

  // Input sources are numbered as on the wire; the eighth bit of the mask stands for none.
  type Source = n: nat | n < 8

  const USB: Source := 0
  const SPDIF: Source := 1
  const I2S: Source := 2
  const ADAT: Source := 3
  const SPDIF2: Source := 4

  const SPDIF_INPUTS: nat := 4
  const NO_PIN: byte := 0xFF

  // ----- masks of eight bits -----

  function Both(a: byte, b: byte): byte { a & b }

  function Either(a: byte, b: byte): byte { a | b }

  function Without(a: byte, b: byte): byte { a & !b }

  function Flag(n: nat): byte
    requires n < 8
  {
    if n == 0 then 1 else if n == 1 then 2 else if n == 2 then 4 else if n == 3 then 8
    else if n == 4 then 16 else if n == 5 then 32 else if n == 6 then 64 else 128
  }

  function Power(n: nat): nat { if n == 0 then 1 else 2 * Power(n - 1) }

  /** The bits of the mask count from the lowest. */
  lemma FlagIsPower(n: nat)
    requires n < 8
    ensures Flag(n) as nat == Power(n)
  {}

  predicate In(n: nat, mask: byte)
    requires n < 8
  {
    Both(mask, Flag(n)) != 0
  }

  lemma FlagsApart(a: nat, b: nat)
    requires a < 8 && b < 8
    ensures Both(Flag(a), Flag(b)) == if a == b then Flag(a) else 0
    ensures Flag(a) != 0
  {}

  lemma MaskAlgebra(m: byte, p: byte, q: byte)
    ensures Both(Either(m, p), q) == Either(Both(m, q), Both(p, q))
    ensures Both(p, q) == 0 ==> Both(Without(m, p), q) == Both(m, q)
    ensures Both(Without(m, p), p) == 0
    ensures Either(m, p) == 0 <==> m == 0 && p == 0
  {
    WithoutElsewhere(m, p, q);
  }

  lemma WithoutElsewhere(m: byte, p: byte, q: byte)
    ensures Both(p, q) == 0 ==> Both(Without(m, p), q) == Both(m, q)
  {
    if p & q == 0 {
      assert q & !p == q;
      assert (m & !p) & q == m & (q & !p);
    }
  }

  lemma InEither(n: nat, m: byte, k: nat)
    requires n < 8 && k < 8
    ensures In(n, Either(m, Flag(k))) <==> In(n, m) || n == k
    ensures In(n, Without(m, Flag(k))) <==> In(n, m) && n != k
  {
    hide Both, Either, Without, Flag;
    FlagsApart(n, k);
    FlagsApart(k, n);
    MaskAlgebra(m, Flag(k), Flag(n));
    MaskAlgebra(Both(m, Flag(n)), Both(Flag(k), Flag(n)), 0);
  }

  // ----- the program -----

  /** S/PDIF input 1 is a source of its own; the others follow each other. */
  function SourceOf(input: nat): Source
    requires input < SPDIF_INPUTS
  {
    if input == 0 then SPDIF else SPDIF2 + input - 1
  }

  /** The mask after the first `n` S/PDIF inputs have been looked at. */
  function SpdifMask(enabled: byte, n: nat): byte
    requires n <= SPDIF_INPUTS
    decreases n
  {
    if n == 0 then Either(Flag(USB), Flag(I2S))
    else if In(n - 1, enabled) then Either(SpdifMask(enabled, n - 1), Flag(SourceOf(n - 1)))
    else SpdifMask(enabled, n - 1)
  }

  function Reported(count: byte): (n: nat)
    ensures n <= SPDIF_INPUTS
  {
    if count < 4 then Value(count) else SPDIF_INPUTS
  }

  datatype Sources = Sources(mask: byte, valid: bool, adatEnabled: bool, adatPinSet: bool)

  function OnSpdif(s: Sources, data: seq<byte>): Sources {
    if |data| < 2 then s
    else s.(mask := Either(SpdifMask(data[1], Reported(data[0])), Both(s.mask, Flag(ADAT))), valid := true)
  }

  function WithAdat(s: Sources): Sources {
    s.(mask := if s.adatEnabled && s.adatPinSet then Either(s.mask, Flag(ADAT)) else Without(s.mask, Flag(ADAT)))
  }

  function OnAdatEnable(s: Sources, data: seq<byte>): Sources {
    if data == [] then s else WithAdat(s.(adatEnabled := data[0] != 0))
  }

  function OnAdatPin(s: Sources, data: seq<byte>): Sources {
    WithAdat(if data == [] then s else s.(adatPinSet := data[0] != NO_PIN))
  }

  class SourceMask {
    var selectableMask: byte
    var selectableValid: bool
    var adatEnabled: bool
    var adatPinSet: bool

    ghost function View(): Sources
      reads this
    {
      Sources(selectableMask, selectableValid, adatEnabled, adatPinSet)
    }

    constructor ()
      ensures View() == Unknown()
    {
      selectableMask, selectableValid, adatEnabled, adatPinSet := 0, false, false, false;
    }

    method OnSpdifInputConfig(data: seq<byte>)
      modifies this`selectableMask, this`selectableValid
      ensures View() == OnSpdif(old(View()), data)
    {
      hide Both, Either, Flag, In, Reported;
      if |data| < 2 {
        return;
      }
      var count := Reported(data[0]);
      var enableMask := data[1];
      var mask := Either(Flag(USB), Flag(I2S));
      for i := 0 to count
        invariant mask == SpdifMask(enableMask, i)
      {
        if In(i, enableMask) {
          mask := Either(mask, Flag(if i == 0 then SPDIF else SPDIF2 + i - 1));
        }
      }
      mask := Either(mask, Both(selectableMask, Flag(ADAT)));
      selectableMask := mask;
      selectableValid := true;
    }

    method OnAdatEnableReply(data: seq<byte>)
      modifies this`selectableMask, this`adatEnabled, this`adatPinSet
      ensures View() == OnAdatEnable(old(View()), data)
    {
      hide Either, Without, Flag;
      if |data| < 1 {
        return;
      }
      adatEnabled := data[0] != 0;
      OnAdatPinReply([]);
    }

    method OnAdatPinReply(data: seq<byte>)
      modifies this`selectableMask, this`adatPinSet
      ensures View() == OnAdatPin(old(View()), data)
    {
      hide Either, Without, Flag;
      if |data| >= 1 {
        adatPinSet := data[0] != NO_PIN;
      }
      if adatEnabled && adatPinSet {
        selectableMask := Either(selectableMask, Flag(ADAT));
      } else {
        selectableMask := Without(selectableMask, Flag(ADAT));
      }
    }
  }

  // ----- meaning -----

  /** USB and I2S always, each enabled S/PDIF input that exists, and nothing else: never ADAT. */
  lemma {:induction false} SpdifMeaning(enabled: byte, n: nat, source: Source)
    requires n <= SPDIF_INPUTS
    ensures In(source, SpdifMask(enabled, n)) <==>
      source == USB || source == I2S || exists i :: 0 <= i < n && In(i, enabled) && SourceOf(i) == source
    decreases n
  {
    hide Both, Either, Flag, In;
    if n == 0 {
      InEither(source, Flag(USB), I2S);
      OneFlag(source);
    } else {
      SpdifMeaning(enabled, n - 1, source);
      InEither(source, SpdifMask(enabled, n - 1), SourceOf(n - 1));
    }
  }

  lemma OneFlag(n: nat)
    requires n < 8
    ensures In(n, Flag(USB)) <==> n == USB
  {}

  lemma NeverAdat(enabled: byte, n: nat)
    requires n <= SPDIF_INPUTS
    ensures !In(ADAT, SpdifMask(enabled, n))
  {
    hide In, SpdifMask;
    SpdifMeaning(enabled, n, ADAT);
  }

  // The bits of a reply, numbered from the lowest.
  predicate BitSet(b: byte, i: nat)
    requires i < 4
  {
    (if i == 0 then Both(b, 1) else if i == 1 then Both(b, 2) else if i == 2 then Both(b, 4) else Both(b, 8)) != 0
  }

  lemma BitIs(b: byte, i: nat)
    requires i < 4
    ensures BitSet(b, i) <==> In(i, b)
  {}

  /**
   The numbers on the wire: 0 is USB and 2 is I2S, always there; S/PDIF input 1 is source 1 and inputs 2, 3, 4 are sources
   4, 5, 6, each if it exists and is enabled; 3 is ADAT; there is no source 7.
   */
  predicate Listed(source: Source, inputs: nat, on: byte, adat: bool) {
    if source == 0 || source == 2 then true
    else if source == 1 then inputs >= 1 && BitSet(on, 0)
    else if source == 3 then adat
    else if source == 4 then inputs >= 2 && BitSet(on, 1)
    else if source == 5 then inputs >= 3 && BitSet(on, 2)
    else if source == 6 then inputs >= 4 && BitSet(on, 3)
    else false
  }

  /** The reply about the S/PDIF inputs lists exactly these sources; the first byte counts the inputs, four at most. */
  lemma SourceNumbers(s: Sources, data: seq<byte>, source: Source)
    requires |data| >= 2
    ensures In(source, OnSpdif(s, data).mask) <==>
      Listed(source, if (data[0] as int) < 4 then data[0] as int else 4, data[1], In(3, s.mask))
  {
    hide OnSpdif, SpdifMask, In, BitSet, Reported;
    SpdifKeeps(s, data, source);
    CountIs(data[0]);
    SpdifMeaning(data[1], Reported(data[0]), source);
    if source != ADAT {
      Numbered(data[1], Reported(data[0]), source);
    }
  }

  lemma CountIs(b: byte)
    ensures Reported(b) as int == if (b as int) < 4 then b as int else 4
  {}

  lemma Numbered(on: byte, n: nat, source: Source)
    requires n <= 4 && source != ADAT
    ensures (source == USB || source == I2S || exists i :: 0 <= i < n && In(i, on) && SourceOf(i) == source)
      <==> Listed(source, n, on, false)
  {
    hide In, BitSet;
    BitIs(on, 0);
    BitIs(on, 1);
    BitIs(on, 2);
    BitIs(on, 3);
    if source == 1 && n >= 1 && In(0, on) {
      assert SourceOf(0) == source;
    }
    if 4 <= source < 7 && n > source - 3 && In(source - 3, on) {
      assert SourceOf(source - 3) == source;
    }
  }

  // ----- runs -----

  datatype Reply = SpdifConfig(data: seq<byte>) | AdatEnable(data: seq<byte>) | AdatPin(data: seq<byte>)

  function Unknown(): Sources { Sources(0, false, false, false) }

  function Apply(s: Sources, e: Reply): Sources {
    match e
    case SpdifConfig(d) => OnSpdif(s, d)
    case AdatEnable(d) => OnAdatEnable(s, d)
    case AdatPin(d) => OnAdatPin(s, d)
  }

  function Run(es: seq<Reply>): Sources {
    if es == [] then Unknown() else Apply(Run(es[..|es| - 1]), es[|es| - 1])
  }

  /** The last usable reply of each kind; empty when there was none. */
  function LastSpdif(es: seq<Reply>): seq<byte> {
    if es == [] then []
    else
      var e := es[|es| - 1];
      if e.SpdifConfig? && |e.data| >= 2 then e.data[..2] else LastSpdif(es[..|es| - 1])
  }

  function LastEnable(es: seq<Reply>): seq<byte> {
    if es == [] then []
    else
      var e := es[|es| - 1];
      if e.AdatEnable? && e.data != [] then e.data[..1] else LastEnable(es[..|es| - 1])
  }

  function LastPin(es: seq<Reply>): seq<byte> {
    if es == [] then []
    else
      var e := es[|es| - 1];
      if e.AdatPin? && e.data != [] then e.data[..1] else LastPin(es[..|es| - 1])
  }

  predicate AdatUsable(es: seq<Reply>) {
    && LastEnable(es) != [] && LastEnable(es)[0] != 0
    && LastPin(es) != [] && LastPin(es)[0] != 0xFF
  }

  /** What the mask should contain, from the last replies alone. */
  predicate Selectable(es: seq<Reply>, source: Source) {
    if source == ADAT then AdatUsable(es)
    else if |LastSpdif(es)| < 2 then false
    else In(source, SpdifMask(LastSpdif(es)[1], Reported(LastSpdif(es)[0])))
  }

  lemma AdatKeeps(s: Sources, source: Source)
    ensures In(source, WithAdat(s).mask) <==> if source == ADAT then s.adatEnabled && s.adatPinSet else In(source, s.mask)
  {
    hide Both, Either, Without, Flag, In;
    InEither(source, s.mask, ADAT);
  }

  lemma SpdifKeeps(s: Sources, data: seq<byte>, source: Source)
    requires |data| >= 2
    ensures In(source, OnSpdif(s, data).mask) <==>
      if source == ADAT then In(ADAT, s.mask) else In(source, SpdifMask(data[1], Reported(data[0])))
  {
    hide SpdifMask, Reported;
    NeverAdat(data[1], Reported(data[0]));
    KeepAdat(SpdifMask(data[1], Reported(data[0])), s.mask, source);
  }

  lemma KeepAdat(fresh_: byte, mask: byte, source: Source)
    ensures In(source, Either(fresh_, Both(mask, Flag(ADAT)))) <==>
      In(source, fresh_) || (source == ADAT && In(ADAT, mask))
  {
    hide Both, Either, Flag;
    MaskAlgebra(fresh_, Both(mask, Flag(ADAT)), Flag(source));
    MaskAlgebra(Both(fresh_, Flag(source)), Both(Both(mask, Flag(ADAT)), Flag(source)), 0);
    FlagsApart(ADAT, source);
    BothTwice(mask, Flag(ADAT), Flag(source));
  }

  lemma BothTwice(m: byte, p: byte, q: byte)
    ensures Both(Both(m, p), q) == Both(m, Both(p, q))
    ensures Both(m, 0) == 0
  {}

  ghost predicate Agrees(s: Sources, es: seq<Reply>) {
    && s.valid == (LastSpdif(es) != [])
    && s.adatEnabled == (LastEnable(es) != [] && LastEnable(es)[0] != 0)
    && s.adatPinSet == (LastPin(es) != [] && LastPin(es)[0] != 0xFF)
    && forall source: Source :: In(source, s.mask) <==> Selectable(es, source)
  }

  lemma {:induction false} LastSpdifLength(es: seq<Reply>)
    ensures LastSpdif(es) == [] || |LastSpdif(es)| == 2
  {
    if es != [] {
      LastSpdifLength(es[..|es| - 1]);
    }
  }

  /** In every run the mask is what the last usable reply of each kind says, whatever came before and in whatever order. */
  lemma {:induction false} MaskFromLastReplies(es: seq<Reply>)
    ensures Agrees(Run(es), es)
  {
    hide Either, Both, Flag, Without, SpdifMask, Reported, In;
    if es == [] {
      NothingYet();
    } else {
      var before := es[..|es| - 1];
      MaskFromLastReplies(before);
      LastSpdifLength(es);
      forall source: Source
        ensures In(source, Run(es).mask) <==> Selectable(es, source)
      {
        StepAgrees(es, source);
      }
    }
  }

  lemma NothingYet()
    ensures forall source: Source :: !In(source, 0)
  {}

  lemma SpdifAgrees(s: Sources, before: seq<Reply>, data: seq<byte>, source: Source)
    requires Agrees(s, before)
    ensures In(source, OnSpdif(s, data).mask) <==> Selectable(before + [SpdifConfig(data)], source)
  {
    hide Either, Both, Flag, SpdifMask, Reported, In;
    Snoc(before, SpdifConfig(data));
    if |data| >= 2 {
      SpdifKeeps(s, data, source);
    }
  }

  lemma EnableAgrees(s: Sources, before: seq<Reply>, data: seq<byte>, source: Source)
    requires Agrees(s, before)
    ensures In(source, OnAdatEnable(s, data).mask) <==> Selectable(before + [AdatEnable(data)], source)
  {
    hide SpdifMask, Reported, In, WithAdat;
    Snoc(before, AdatEnable(data));
    if data != [] {
      AdatKeeps(s.(adatEnabled := data[0] != 0), source);
    }
  }

  lemma PinAgrees(s: Sources, before: seq<Reply>, data: seq<byte>, source: Source)
    requires Agrees(s, before)
    ensures In(source, OnAdatPin(s, data).mask) <==> Selectable(before + [AdatPin(data)], source)
  {
    hide SpdifMask, Reported, In, WithAdat;
    Snoc(before, AdatPin(data));
    AdatKeeps(if data == [] then s else s.(adatPinSet := data[0] != NO_PIN), source);
  }

  lemma Snoc(es: seq<Reply>, e: Reply)
    ensures (es + [e])[..|es|] == es && (es + [e])[|es|] == e
  {}

  lemma RunSnoc(before: seq<Reply>, e: Reply)
    ensures Run(before + [e]) == Apply(Run(before), e)
  {
    hide Apply;
    Snoc(before, e);
  }

  lemma StepAgrees(es: seq<Reply>, source: Source)
    requires es != [] && Agrees(Run(es[..|es| - 1]), es[..|es| - 1])
    ensures In(source, Run(es).mask) <==> Selectable(es, source)
  {
    hide In, Selectable, Agrees, OnSpdif, OnAdatEnable, OnAdatPin, Run;
    var before, e := es[..|es| - 1], es[|es| - 1];
    assert es == before + [e];
    RunSnoc(before, e);
    match e
    case SpdifConfig(d) => SpdifAgrees(Run(before), before, d, source);
    case AdatEnable(d) => EnableAgrees(Run(before), before, d, source);
    case AdatPin(d) => PinAgrees(Run(before), before, d, source);
  }

  lemma SameBits(a: byte, b: byte)
    requires forall n: Source :: In(n, a) <==> In(n, b)
    ensures a == b
  {
    assert In(0, a) <==> In(0, b);
    assert In(1, a) <==> In(1, b);
    assert In(2, a) <==> In(2, b);
    assert In(3, a) <==> In(3, b);
    assert In(4, a) <==> In(4, b);
    assert In(5, a) <==> In(5, b);
    assert In(6, a) <==> In(6, b);
    assert In(7, a) <==> In(7, b);
  }

  /** Two histories that end with the same usable reply of each kind leave the same mask. */
  lemma Confluent(es: seq<Reply>, fs: seq<Reply>)
    requires LastSpdif(es) == LastSpdif(fs) && LastEnable(es) == LastEnable(fs) && LastPin(es) == LastPin(fs)
    ensures Run(es).mask == Run(fs).mask && Run(es).valid == Run(fs).valid
  {
    hide In, Run, SpdifMask, Reported;
    MaskFromLastReplies(es);
    MaskFromLastReplies(fs);
    SameBits(Run(es).mask, Run(fs).mask);
  }

  /** The ADAT bit is set exactly when ADAT is enabled and has a pin. */
  lemma AdatBit(es: seq<Reply>)
    ensures In(ADAT, Run(es).mask) <==> Run(es).adatEnabled && Run(es).adatPinSet
  {
    hide In, Run, SpdifMask, Reported;
    MaskFromLastReplies(es);
  }
}
