/** Which channel the spectrum poll asks next: the first set channel at or after the cursor, cyclically. */
module RoundRobin {
  import opened Wire

  const CHANNELS: nat := 16

  type Channel = n: nat | n < 16

  function Bit(ch: Channel): bv16 {
    if ch < 8 then LowBit(ch) else LowBit(ch - 8) << 8
  }

  function LowBit(ch: nat): bv16
    requires ch < 8
  {
    if ch == 0 then 1 else if ch == 1 then 2 else if ch == 2 then 4 else if ch == 3 then 8
    else if ch == 4 then 16 else if ch == 5 then 32 else if ch == 6 then 64 else 128
  }

  function Power(n: nat): nat { if n == 0 then 1 else 2 * Power(n - 1) }

  /** The bits of the channel mask count from the lowest. */
  lemma BitIsPower(ch: Channel)
    ensures Bit(ch) as nat == Power(ch)
  {}

  predicate Has(mask: bv16, ch: Channel) { And(mask, Bit(ch)) != 0 }

  function Members(mask: bv16): set<Channel> {
    set ch: Channel | 0 <= ch < CHANNELS && Has(mask, ch)
  }

  lemma BitsDisjoint(a: Channel, b: Channel)
    ensures And(Bit(a), Bit(b)) == 0 <==> a != b
  {}

  lemma AndLess(m: bv16, p: bv16, q: bv16)
    ensures And(p, q) == 0 ==> And(Less(m, p), q) == And(m, q) && And(Or(m, p), q) == And(m, q)
    ensures And(Less(m, p), p) == 0
    ensures And(Or(m, p), p) == p
  {
    if And(p, q) == 0 {
      LessElsewhere(m, p, q);
      OrElsewhere(m, p, q);
    }
  }

  lemma LessElsewhere(m: bv16, p: bv16, q: bv16)
    requires And(p, q) == 0
    ensures And(Less(m, p), q) == And(m, q)
  {
    assert (m & !p) & q == m & (q & !p);
    assert q & !p == q;
  }

  lemma OrElsewhere(m: bv16, p: bv16, q: bv16)
    requires And(p, q) == 0
    ensures And(Or(m, p), q) == And(m, q)
  {
    assert (m | p) & q == (m & q) | (p & q);
  }

  lemma DropMember(mask: bv16, ch: Channel)
    ensures Members(Less(mask, Bit(ch))) == Members(mask) - {ch}
  {
    hide And, Less, Or, Bit;
    forall c: Channel
      ensures Has(Less(mask, Bit(ch)), c) <==> Has(mask, c) && c != ch
    {
      BitsDisjoint(ch, c);
      AndLess(mask, Bit(ch), Bit(c));
    }
  }

  lemma AddMember(mask: bv16, ch: Channel, c: Channel)
    ensures Has(Or(mask, Bit(ch)), c) <==> Has(mask, c) || c == ch
  {
    hide And, Less, Or, Bit;
    BitsDisjoint(ch, c);
    BitsDisjoint(ch, ch);
    AndLess(mask, Bit(ch), Bit(c));
    BitNonzero(ch);
  }

  lemma BitNonzero(ch: Channel)
    ensures Bit(ch) != 0
  {}

  lemma EmptyMask(mask: bv16)
    ensures mask == 0 <==> Members(mask) == {}
  {
    if mask != 0 {
      var ch := SomeMember(mask);
      assert ch in Members(mask);
    } else {
      assert forall c: Channel :: !Has(0, c);
    }
  }

  lemma SomeMember(mask: bv16) returns (ch: Channel)
    requires mask != 0
    ensures Has(mask, ch)
  {
    if mask & 0x00FF != 0 {
      ch := if mask & 1 != 0 then 0 else if mask & 2 != 0 then 1 else if mask & 4 != 0 then 2 else if mask & 8 != 0 then 3
            else if mask & 16 != 0 then 4 else if mask & 32 != 0 then 5 else if mask & 64 != 0 then 6 else 7;
    } else {
      ch := if mask & 0x100 != 0 then 8 else if mask & 0x200 != 0 then 9 else if mask & 0x400 != 0 then 10
            else if mask & 0x800 != 0 then 11 else if mask & 0x1000 != 0 then 12 else if mask & 0x2000 != 0 then 13
            else if mask & 0x4000 != 0 then 14 else 15;
    }
  }

  // ----- the pick -----

  /** How far `ch` is ahead of the cursor on the circle of channels. */
  function Ahead(cursor: Channel, ch: Channel): Channel {
    if ch >= cursor then ch - cursor else ch + CHANNELS - cursor
  }

  function At(cursor: Channel, steps: Channel): Channel { (cursor + steps) % CHANNELS }

  lemma AheadAt(cursor: Channel, steps: Channel, ch: Channel)
    ensures Ahead(cursor, At(cursor, steps)) == steps
    ensures At(cursor, Ahead(cursor, ch)) == ch
  {}

  /** `ch` is set and no set channel is nearer. */
  ghost predicate Nearest(set_: set<Channel>, cursor: Channel, ch: Channel) {
    ch in set_ && forall c :: c in set_ ==> Ahead(cursor, ch) <= Ahead(cursor, c)
  }

  const NO_CHANNEL: nat := 0xFF

  /** The first set channel at least `i` places after the cursor. */
  function FirstFrom(mask: bv16, cursor: Channel, i: nat): (ch: nat)
    requires i <= CHANNELS
    ensures ch < CHANNELS || ch == NO_CHANNEL
    decreases CHANNELS - i
  {
    if i == CHANNELS then NO_CHANNEL
    else if Has(mask, At(cursor, i)) then At(cursor, i)
    else FirstFrom(mask, cursor, i + 1)
  }

  function Pick(mask: bv16, cursor: Channel): (ch: nat)
    ensures ch < CHANNELS || ch == NO_CHANNEL
  {
    FirstFrom(mask, cursor, 0)
  }

  lemma {:induction false} FirstIsNearest(mask: bv16, cursor: Channel, i: nat)
    requires i <= CHANNELS && forall c :: c in Members(mask) ==> Ahead(cursor, c) >= i
    ensures var ch := FirstFrom(mask, cursor, i);
      if ch == NO_CHANNEL then Members(mask) == {} else Nearest(Members(mask), cursor, ch)
    decreases CHANNELS - i
  {
    hide Ahead, At, Has;
    if i < CHANNELS {
      AheadAt(cursor, i, At(cursor, i));
      if Has(mask, At(cursor, i)) {
        assert At(cursor, i) in Members(mask);
      } else {
        forall d | d in Members(mask)
          ensures Ahead(cursor, d) >= i + 1
        {
          AheadAt(cursor, i, d);
        }
        FirstIsNearest(mask, cursor, i + 1);
      }
    }
  }

  /** The picked channel is set and nearest; none is picked exactly when none is set. */
  lemma PickIsNearest(mask: bv16, cursor: Channel)
    ensures Pick(mask, cursor) == NO_CHANNEL <==> Members(mask) == {}
    ensures Pick(mask, cursor) != NO_CHANNEL ==> Nearest(Members(mask), cursor, Pick(mask, cursor))
  {
    hide FirstFrom, Ahead, Has;
    FirstIsNearest(mask, cursor, 0);
  }

  lemma AtIs(cursor: Channel, i: Channel)
    ensures At(cursor, i) == (cursor + i) % CHANNELS
  {}

  // ----- fairness -----

  /** The channels asked before `ch` comes round. */
  ghost function Before(s: set<Channel>, cursor: Channel, ch: Channel): set<Channel> {
    set c | c in s && Ahead(cursor, c) < Ahead(cursor, ch)
  }

  function After(ch: Channel): Channel { (ch + 1) % CHANNELS }

  lemma AheadAfter(cursor: Channel, ch: Channel, c: Channel)
    ensures Ahead(After(ch), c) ==
      if Ahead(cursor, c) > Ahead(cursor, ch) then Ahead(cursor, c) - Ahead(cursor, ch) - 1
      else Ahead(cursor, c) + 15 - Ahead(cursor, ch)
  {}

  lemma BeforeStep(s: set<Channel>, cursor: Channel, ch: Channel, x: Channel)
    requires Nearest(s, cursor, ch) && x in s
    ensures x != ch ==> ch in Before(s, cursor, x) && Before(s, After(ch), x) == Before(s, cursor, x) - {ch}
    ensures x == ch ==> Before(s, cursor, x) == {} && Before(s, After(ch), x) == s - {ch}
  {
    hide Ahead, After;
    AheadInjective(cursor, x, ch);
    AheadAfter(cursor, ch, x);
    forall c | c in s
      ensures c in Before(s, After(ch), x) <==>
        if x == ch then c != ch else c in Before(s, cursor, x) && c != ch
    {
      AheadAfter(cursor, ch, c);
      AheadInjective(cursor, c, ch);
      AheadBound(cursor, c);
    }
  }

  lemma AheadInjective(cursor: Channel, a: Channel, b: Channel)
    ensures Ahead(cursor, a) == Ahead(cursor, b) <==> a == b
  {}

  lemma AheadBound(cursor: Channel, a: Channel)
    ensures 0 <= Ahead(cursor, a) < 16
  {}

  /** A run of picks; before each one, channels may have been dropped. */
  ghost predicate Picks(sets: seq<set<Channel>>, cursors: seq<Channel>, picks: seq<Channel>) {
    && |cursors| == |picks| + 1 && |sets| == |picks|
    && forall i :: 0 <= i < |picks| ==> Nearest(sets[i], cursors[i], picks[i]) && cursors[i + 1] == After(picks[i])
  }

  ghost predicate Shrinking(sets: seq<set<Channel>>) {
    forall i :: 0 < i < |sets| ==> sets[i] <= sets[i - 1]
  }

  ghost function Rank(s: set<Channel>, cursor: Channel, ch: Channel): nat { |Before(s, cursor, ch)| }

  lemma RankStep(s: set<Channel>, cursor: Channel, ch: Channel, x: Channel)
    requires Nearest(s, cursor, ch) && x in s
    ensures x != ch ==> Rank(s, cursor, x) > 0 && Rank(s, After(ch), x) == Rank(s, cursor, x) - 1
    ensures x == ch ==> Rank(s, cursor, x) == 0 && Rank(s, After(ch), x) == |s| - 1
    ensures Rank(s, cursor, x) < |s|
  {
    hide Ahead, After;
    BeforeStep(s, cursor, ch, x);
    var b := Before(s, cursor, x);
    assert b <= s - {x};
    Smaller(b, s - {x});
  }

  lemma Smaller(a: set<Channel>, b: set<Channel>)
    requires a <= b
    ensures |a| <= |b|
  {
    assert b == a + (b - a);
    assert |b| == |a| + |b - a|;
  }

  lemma RankShrinks(s: set<Channel>, t: set<Channel>, cursor: Channel, x: Channel)
    requires t <= s
    ensures Rank(t, cursor, x) <= Rank(s, cursor, x)
  {
    Smaller(Before(t, cursor, x), Before(s, cursor, x));
  }

  /** A channel that stays set is asked before as many calls have passed as there were channels, whoever drops out. */
  lemma {:induction false} ServedInTime(sets: seq<set<Channel>>, cursors: seq<Channel>, picks: seq<Channel>, x: Channel)
    requires Picks(sets, cursors, picks) && Shrinking(sets)
    requires sets != [] && (forall i :: 0 <= i < |sets| ==> x in sets[i]) && |picks| > Rank(sets[0], cursors[0], x)
    ensures exists i :: 0 <= i <= Rank(sets[0], cursors[0], x) && picks[i] == x
    decreases |picks|
  {
    hide Nearest, Rank, After;
    RankStep(sets[0], cursors[0], picks[0], x);
    if picks[0] != x {
      RankShrinks(sets[0], sets[1], cursors[1], x);
      ServedInTime(sets[1..], cursors[1..], picks[1..], x);
      var i :| 0 <= i <= Rank(sets[1], cursors[1], x) && picks[1..][i] == x;
      assert picks[i + 1] == x;
    }
  }

  /** With no channel dropping out, call number `i` asks the channel that was `i`-th in line, and only that one. */
  lemma {:induction false} AskedInTurn(s: set<Channel>, cursors: seq<Channel>, picks: seq<Channel>, x: Channel, i: nat)
    requires Picks(seq(|picks|, _ => s), cursors, picks) && x in s && i < |picks| <= |s|
    ensures picks[i] == x <==> i == Rank(s, cursors[0], x)
    decreases i
  {
    hide Nearest, Rank, After;
    assert seq(|picks|, _ => s)[0] == s;
    RankStep(s, cursors[0], picks[0], x);
    if i > 0 {
      var sets := seq(|picks|, _ => s);
      assert sets[1..] == seq(|picks[1..]|, _ => s);
      assert Picks(sets[1..], cursors[1..], picks[1..]);
      AskedInTurn(s, cursors[1..], picks[1..], x, i - 1);
      assert sets[0] == s;
    }
  }

  /** As many consecutive calls as there are set channels ask every one of them exactly once. */
  lemma EachExactlyOnce(s: set<Channel>, cursors: seq<Channel>, picks: seq<Channel>, x: Channel)
    requires Picks(seq(|picks|, _ => s), cursors, picks) && x in s && |picks| == |s|
    ensures Rank(s, cursors[0], x) < |picks|
    ensures forall i :: 0 <= i < |picks| ==> (picks[i] == x <==> i == Rank(s, cursors[0], x))
  {
    hide Nearest, Rank, After;
    assert |s| > 0;
    assert seq(|picks|, _ => s)[0] == s;
    RankStep(s, cursors[0], picks[0], x);
    forall i | 0 <= i < |picks|
      ensures picks[i] == x <==> i == Rank(s, cursors[0], x)
    {
      AskedInTurn(s, cursors, picks, x, i);
    }
  }
}
