/**
 The transaction queue: a fixed number of slots that coalesce, evict and hand out the most important entry first.

 The functions here are the slot-level meaning of the loops in the hub. The lemmas show that, as long as keys are
 unique, which every operation keeps, the slots behave as a bounded map from request identity to transaction.
 */
module Queue {
  import opened Wire

  type u8 = n: nat | n < 256

  /** Continuations of a transaction; the program stores pointers to member functions. */
  datatype OkHandler =
    | NoAction | OnPlatform | OnUartConfig | OnMasterVolume | OnUserVolume | OnInputSource | OnInputRate
    | OnPresetActive | OnToggle(target: nat) | OnOther(code: nat)

  datatype FailHandler = NoFailAction | OnToggleFailed(target: nat) | OnOtherFailed(code: nat)

  const RETRIES_DEFAULT: u8 := 255

  /** One request. `id` names the transaction in statements about runs; the program does not store it. */
  datatype Txn = Txn(
    id: nat, req: byte, frameType: byte, wvalue: u16, wlen: u16, payload: seq<byte>,
    attempts: u8, priority: nat, maxRetries: u8, timeoutMs: u32, onOk: OkHandler, onFail: FailHandler)

  /** The identity by which waiting requests coalesce. */
  datatype Key = Key(req: byte, frameType: byte, wvalue: u16)

  function KeyOf(t: Txn): Key { Key(t.req, t.frameType, t.wvalue) }

  datatype Slot = Free | Used(txn: Txn)

  const QUEUE_DEPTH: nat := 12

  predicate Holds(s: Slot, k: Key) { s.Used? && KeyOf(s.txn) == k }

  function Max(a: u8, b: u8): u8 { if a > b then a else b }

  // ----- the four searches -----

  function FindKey(q: seq<Slot>, k: Key): (r: nat)
    ensures r <= |q|
    ensures forall i :: 0 <= i < r ==> !Holds(q[i], k)
    ensures r < |q| ==> Holds(q[r], k)
  {
    if q == [] || Holds(q[0], k) then 0 else 1 + FindKey(q[1..], k)
  }

  function FindFree(q: seq<Slot>): (r: nat)
    ensures r <= |q|
    ensures forall i :: 0 <= i < r ==> q[i].Used?
    ensures r < |q| ==> q[r].Free?
  {
    if q == [] || q[0].Free? then 0 else 1 + FindFree(q[1..])
  }

  ghost predicate Full(q: seq<Slot>) { forall i :: 0 <= i < |q| ==> q[i].Used? }

  /** The first of the least important entries. */
  ghost predicate IsVictim(q: seq<Slot>, v: nat)
    requires Full(q)
  {
    && v < |q|
    && (forall i :: 0 <= i < |q| ==> q[i].txn.priority <= q[v].txn.priority)
    && (forall i :: 0 <= i < v ==> q[i].txn.priority < q[v].txn.priority)
  }

  function FindVictim(q: seq<Slot>): (v: nat)
    requires q != [] && Full(q)
    ensures IsVictim(q, v)
  {
    var n := |q| - 1;
    if n == 0 then 0 else
      var v := FindVictim(q[..n]);
      if q[n].txn.priority > q[v].txn.priority then n else v
  }

  /** The first of the most important entries; -1 when nothing is waiting. */
  ghost predicate IsNext(q: seq<Slot>, r: int) {
    if r == -1 then forall i :: 0 <= i < |q| ==> q[i].Free?
    else
      && 0 <= r < |q| && q[r].Used?
      && (forall i :: 0 <= i < |q| && q[i].Used? ==> q[r].txn.priority <= q[i].txn.priority)
      && (forall i :: 0 <= i < r && q[i].Used? ==> q[r].txn.priority < q[i].txn.priority)
  }

  function FindNext(q: seq<Slot>): (r: int)
    ensures IsNext(q, r)
  {
    if q == [] then -1 else
      var n := |q| - 1;
      var r := FindNext(q[..n]);
      if q[n].Used? && (r == -1 || q[n].txn.priority < q[r].txn.priority) then n else r
  }

  // ----- enqueue and dequeue -----

  datatype Outcome = Replaced(older: Txn) | Placed | Evicted(victim: Txn) | Refused

  function Enqueue(q: seq<Slot>, t: Txn): (r: (seq<Slot>, Outcome))
    ensures |r.0| == |q|
  {
    var k := FindKey(q, KeyOf(t));
    if k < |q| then
      (q[k := Used(t.(attempts := Max(q[k].txn.attempts, t.attempts)))], Replaced(q[k].txn))
    else
      var f := FindFree(q);
      if f < |q| then (q[f := Used(t)], Placed)
      else if q == [] then (q, Refused)
      else
        var v := FindVictim(q);
        if q[v].txn.priority >= t.priority then (q[v := Used(t)], Evicted(q[v].txn)) else (q, Refused)
  }

  predicate UniqueKeys(q: seq<Slot>) {
    forall i, j :: 0 <= i < j < |q| && q[i].Used? && q[j].Used? ==> KeyOf(q[i].txn) != KeyOf(q[j].txn)
  }

  function Keys(q: seq<Slot>): set<Key> {
    set i | 0 <= i < |q| && q[i].Used? :: KeyOf(q[i].txn)
  }

  /** The queue as a map. */
  function Contents(q: seq<Slot>): (m: map<Key, Txn>)
    ensures m.Keys == Keys(q)
  {
    map k | k in Keys(q) :: Lookup(q, k)
  }

  function Lookup(q: seq<Slot>, k: Key): (t: Txn)
    requires k in Keys(q)
    ensures KeyOf(t) == k
  {
    q[FindKey(q, k)].txn
  }

  lemma LookupIs(q: seq<Slot>, i: nat)
    requires UniqueKeys(q) && i < |q| && q[i].Used?
    ensures KeyOf(q[i].txn) in Keys(q) && Lookup(q, KeyOf(q[i].txn)) == q[i].txn
  {
    var k := FindKey(q, KeyOf(q[i].txn));
    assert k <= i;
  }

  lemma KeysHold(q: seq<Slot>, k: Key)
    ensures k in Keys(q) <==> FindKey(q, k) < |q|
  {}

  lemma WriteUnique(q: seq<Slot>, i: nat, t: Txn)
    requires UniqueKeys(q) && i < |q|
    requires forall j :: 0 <= j < |q| && j != i ==> !Holds(q[j], KeyOf(t))
    ensures UniqueKeys(q[i := Used(t)])
  {}

  /** Writing a slot with a key no other slot holds. */
  lemma WriteSlot(q: seq<Slot>, i: nat, t: Txn)
    requires UniqueKeys(q) && i < |q|
    requires forall j :: 0 <= j < |q| && j != i ==> !Holds(q[j], KeyOf(t))
    ensures var q' := q[i := Used(t)];
            && UniqueKeys(q')
            && (q[i].Free? ==> Contents(q') == Contents(q)[KeyOf(t) := t])
            && (q[i].Used? ==> Contents(q') == (Contents(q) - {KeyOf(q[i].txn)})[KeyOf(t) := t])
  {
    hide UniqueKeys, Lookup, FindKey, Holds, Keys;
    var q' := q[i := Used(t)];
    WriteUnique(q, i, t);
    WriteKeys(q, i, t);
    forall k | k in Keys(q')
      ensures k != KeyOf(t) ==> k in Keys(q)
      ensures Lookup(q', k) == if k == KeyOf(t) then t else Lookup(q, k)
    {
      WriteLookup(q, i, t, k);
    }
  }

  lemma WriteLookup(q: seq<Slot>, i: nat, t: Txn, k: Key)
    requires i < |q| && UniqueKeys(q) && UniqueKeys(q[i := Used(t)]) && k in Keys(q[i := Used(t)])
    requires k != KeyOf(t) ==> k in Keys(q)
    ensures Lookup(q[i := Used(t)], k) == if k == KeyOf(t) then t else Lookup(q, k)
  {
    var q' := q[i := Used(t)];
    var j := FindKey(q', k);
    LookupIs(q', i);
    LookupIs(q', j);
    if j != i {
      LookupIs(q, j);
    }
  }

  lemma WriteKeys(q: seq<Slot>, i: nat, t: Txn)
    requires UniqueKeys(q) && i < |q|
    ensures var q' := q[i := Used(t)];
            && (q[i].Free? ==> Keys(q') == Keys(q) + {KeyOf(t)})
            && (q[i].Used? ==> Keys(q') == Keys(q) - {KeyOf(q[i].txn)} + {KeyOf(t)})
  {
    var q' := q[i := Used(t)];
    forall j | 0 <= j < |q| && j != i
      ensures q'[j] == q[j]
    {}
    assert q'[i] == Used(t);
  }

  /**
   What enqueueing means for the map: coalesce, place, evict, or refuse, and nothing else changes. A coalesced request
   carries on with the larger of the two attempt counts.
   */
  ghost predicate MapEnqueue(m: map<Key, Txn>, depth: nat, t: Txn, m': map<Key, Txn>, o: Outcome) {
    var k := KeyOf(t);
    match o
    case Replaced(older) =>
      && k in m && older == m[k] && k in m' && m' == m[k := t.(attempts := m'[k].attempts)]
      && m'[k].attempts >= older.attempts && m'[k].attempts >= t.attempts
      && (m'[k].attempts == older.attempts || m'[k].attempts == t.attempts)
    case Placed =>
      k !in m && |m| < depth && m' == m[k := t]
    case Evicted(victim) =>
      && k !in m && |m| == depth
      && KeyOf(victim) in m && m[KeyOf(victim)] == victim
      && t.priority <= victim.priority
      && (forall j :: j in m ==> m[j].priority <= victim.priority)
      && m' == (m - {KeyOf(victim)})[k := t]
    case Refused =>
      && k !in m && |m| == depth && m' == m
      && (forall j :: j in m ==> m[j].priority < t.priority)
  }

  lemma EnqueueRefines(q: seq<Slot>, t: Txn)
    requires UniqueKeys(q)
    ensures var (q', o) := Enqueue(q, t);
            && UniqueKeys(q')
            && MapEnqueue(Contents(q), |q|, t, Contents(q'), o)
            && (t.priority == 0 && q != [] ==> o != Refused)
  {
    hide Contents, UniqueKeys, Lookup, IsVictim;
    var k := FindKey(q, KeyOf(t));
    KeysHold(q, KeyOf(t));
    Occupied(q);
    if k < |q| {
      ReplaceSlot(q, k, t);
    } else {
      var f := FindFree(q);
      if f < |q| {
        WriteSlot(q, f, t);
        FreeSomewhere(q, f);
      } else {
        NoneFree(q);
        FullRefines(q, t);
      }
    }
  }

  lemma ReplaceSlot(q: seq<Slot>, k: nat, t: Txn)
    requires UniqueKeys(q) && k < |q| && k == FindKey(q, KeyOf(t))
    ensures var a := t.(attempts := Max(q[k].txn.attempts, t.attempts));
            && UniqueKeys(q[k := Used(a)])
            && KeyOf(t) in Contents(q) && Contents(q)[KeyOf(t)] == q[k].txn
            && Contents(q[k := Used(a)]) == Contents(q)[KeyOf(t) := a]
  {
    hide Keys, Lookup;
    var a := t.(attempts := Max(q[k].txn.attempts, t.attempts));
    LookupIs(q, k);
    WriteSlot(q, k, a);
    var m := Contents(q);
    assert (m - {KeyOf(t)})[KeyOf(t) := a] == m[KeyOf(t) := a];
  }

  lemma FullRefines(q: seq<Slot>, t: Txn)
    requires UniqueKeys(q) && Full(q) && FindKey(q, KeyOf(t)) == |q| && |Contents(q)| == |q|
    ensures var (q', o) := Enqueue(q, t);
            && UniqueKeys(q')
            && MapEnqueue(Contents(q), |q|, t, Contents(q'), o)
            && (t.priority == 0 && q != [] ==> o != Refused)
  {
    hide Contents, UniqueKeys, Lookup, IsVictim, Full;
    KeysHold(q, KeyOf(t));
    FindFreeFull(q);
    if q == [] {
      PriorityAll(q);
    } else {
      var v := FindVictim(q);
      VictimInRange(q, v);
      WriteSlot(q, v, t);
      LookupOf(q, v);
      VictimIsLeast(q, v);
    }
  }

  lemma VictimInRange(q: seq<Slot>, v: nat)
    requires Full(q) && IsVictim(q, v)
    ensures v < |q| && q[v].Used?
  {}

  lemma VictimIsLeast(q: seq<Slot>, v: nat)
    requires Full(q) && IsVictim(q, v)
    ensures v < |q| && forall k :: k in Contents(q) ==> Contents(q)[k].priority <= q[v].txn.priority
  {
    hide Contents;
    PriorityAll(q);
  }

  lemma LookupOf(q: seq<Slot>, i: nat)
    requires UniqueKeys(q) && i < |q| && q[i].Used?
    ensures var k := KeyOf(q[i].txn); k in Contents(q) && Contents(q)[k] == q[i].txn
  {
    LookupIs(q, i);
  }

  lemma FindFreeFull(q: seq<Slot>)
    requires Full(q)
    ensures FindFree(q) == |q|
  {}

  /** Every waiting transaction sits in some slot. */
  lemma PriorityAll(q: seq<Slot>)
    ensures forall k :: k in Contents(q) ==> exists i :: 0 <= i < |q| && q[i] == Used(Contents(q)[k])
  {
    forall k | k in Contents(q)
      ensures exists i :: 0 <= i < |q| && q[i] == Used(Contents(q)[k])
    {
      var i := FindKey(q, k);
      assert q[i] == Used(Contents(q)[k]);
    }
  }

  // ----- counting -----

  function Sum(q: seq<Slot>, f: Slot -> nat): nat {
    if q == [] then 0 else f(q[0]) + Sum(q[1..], f)
  }

  lemma {:induction false} SumUpdate(q: seq<Slot>, i: nat, s: Slot, f: Slot -> nat)
    requires i < |q|
    ensures Sum(q[i := s], f) + f(q[i]) == Sum(q, f) + f(s)
  {
    if i == 0 {
      assert q[0 := s][1..] == q[1..];
    } else {
      assert q[i := s][1..] == q[1..][i - 1 := s];
      SumUpdate(q[1..], i - 1, s, f);
    }
  }

  function IsFree(s: Slot): nat { if s.Free? then 1 else 0 }

  function FreeCount(q: seq<Slot>): nat { Sum(q, IsFree) }

  lemma {:induction false} FreePositive(q: seq<Slot>)
    ensures FreeCount(q) > 0 <==> FindFree(q) < |q|
    ensures FreeCount(q) <= |q|
    ensures FreeCount(q) == 0 <==> Full(q)
  {
    if q != [] {
      FreePositive(q[1..]);
      assert Full(q) <==> q[0].Used? && Full(q[1..]) by {
        if q[0].Used? && Full(q[1..]) {
          forall i | 0 <= i < |q| ensures q[i].Used? { assert i > 0 ==> q[i] == q[1..][i - 1]; }
        }
      }
    }
  }

  lemma FreeSomewhere(q: seq<Slot>, f: nat)
    requires f < |q| && f == FindFree(q)
    ensures FreeCount(q) > 0
  {
    FreePositive(q);
  }

  lemma NoneFree(q: seq<Slot>)
    requires FindFree(q) == |q|
    ensures Full(q) && FreeCount(q) == 0
  {
    FreePositive(q);
  }

  /** Slots in use and slots free make up the queue. */
  lemma {:induction false} Occupied(q: seq<Slot>)
    requires UniqueKeys(q)
    ensures |Contents(q)| + FreeCount(q) == |q|
  {
    OccupiedKeys(q);
  }

  lemma {:induction false} OccupiedKeys(q: seq<Slot>)
    requires UniqueKeys(q)
    ensures |Keys(q)| + FreeCount(q) == |q|
  {
    if q != [] {
      OccupiedKeys(q[1..]);
      HeadKeys(q);
    }
  }

  lemma HeadKeys(q: seq<Slot>)
    requires UniqueKeys(q) && q != []
    ensures UniqueKeys(q[1..])
    ensures q[0].Free? ==> Keys(q) == Keys(q[1..])
    ensures q[0].Used? ==> Keys(q) == {KeyOf(q[0].txn)} + Keys(q[1..]) && KeyOf(q[0].txn) !in Keys(q[1..])
  {
    forall i | 1 <= i < |q| ensures q[i] == q[1..][i - 1] {}
  }

  // ----- taking the next entry -----

  lemma TakeRefines(q: seq<Slot>)
    requires UniqueKeys(q) && FindNext(q) != -1
    ensures var i := FindNext(q);
            var t := q[i].txn;
            && UniqueKeys(q[i := Free])
            && KeyOf(t) in Contents(q) && Contents(q)[KeyOf(t)] == t
            && Contents(q[i := Free]) == Contents(q) - {KeyOf(t)}
            && (forall k :: k in Contents(q) ==> t.priority <= Contents(q)[k].priority)
  {
    var i := FindNext(q);
    PriorityAll(q);
    LookupOf(q, i);
    ClearSlot(q, i);
  }

  lemma ClearSlot(q: seq<Slot>, i: nat)
    requires UniqueKeys(q) && i < |q| && q[i].Used?
    ensures UniqueKeys(q[i := Free])
    ensures Contents(q[i := Free]) == Contents(q) - {KeyOf(q[i].txn)}
  {
    var q' := q[i := Free];
    forall j | 0 <= j < |q| && j != i ensures q'[j] == q[j] {}
    assert Keys(q') == Keys(q) - {KeyOf(q[i].txn)};
    forall k | k in Keys(q')
      ensures Lookup(q', k) == Lookup(q, k)
    {
      var j := FindKey(q', k);
      LookupIs(q', j);
      LookupIs(q, j);
    }
  }
}
