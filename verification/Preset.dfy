/**
 Confirming a preset load. The device answers a load before it has happened, so the hub reads the active slot back until
 it matches, a few times, with a pause before each read.
 */
module PresetConfirmation {
  import opened Wire
  import opened Clock32

  const PRESET_SLOTS: byte := 10
  const SETTLE_MS: nat := 250
  const ATTEMPTS: nat := 6
  const PRESET_OK: byte := 0

  /** One accepted load and the true times of the reads made to confirm it. */
  datatype Load = Load(slot: byte, at: nat, checks: seq<nat>)

  /** `loads` and `published` record what was sent and shown. */
  datatype Preset = Preset(
    active: byte, activeValid: bool, pending: bool, slot: byte, attempts: nat, due: u32,
    loads: seq<Load>, published: seq<byte>)

  function Publish(p: Preset): Preset {
    if p.activeValid then p.(published := p.published + [p.active]) else p
  }

  /** `set_preset_slot`; `accepted`: the queue took the request. */
  function SetSlot(p: Preset, slot: byte, accepted: bool, time: nat): Preset {
    if slot >= PRESET_SLOTS || !accepted then p
    else p.(pending := true, slot := slot, attempts := 0, due := Add32(Clock(time), SETTLE_MS),
            loads := p.loads + [Load(slot, time, [])])
  }

  function OnActive(p: Preset, data: seq<byte>): Preset {
    if data == [] || data[0] >= PRESET_SLOTS then p
    else Publish(p.(active := data[0], activeValid := true, pending := p.pending && data[0] != p.slot))
  }

  function OnLoad(p: Preset, data: seq<byte>): Preset {
    if data != [] && data[0] != PRESET_OK then Publish(p.(pending := false)) else p
  }

  function OnLoadFailed(p: Preset): Preset { Publish(p.(pending := false)) }

  /** `on_platform_`: the load was asked of a device that may be another one now. */
  function OnPlatform(p: Preset, data: seq<byte>): Preset { if |data| < 2 then p else p.(pending := false) }

  predicate CheckDue(p: Preset, time: nat) { p.pending && Reached(Clock(time), p.due) }

  function WithRead(loads: seq<Load>, time: nat): seq<Load> {
    if loads == [] then loads
    else
      var last := loads[|loads| - 1];
      loads[|loads| - 1 := last.(checks := last.checks + [time])]
  }

  function Service(p: Preset, time: nat): Preset {
    if !CheckDue(p, time) then p
    else if p.attempts + 1 > ATTEMPTS then Publish(p.(attempts := p.attempts + 1, pending := false))
    else p.(attempts := p.attempts + 1, due := Add32(Clock(time), SETTLE_MS), loads := WithRead(p.loads, time))
  }

  // ----- the program -----

  class PresetConfirm {
    var activePreset: byte
    var activeValid: bool
    var pending: bool
    var slot: byte
    var attempts: nat
    var due: u32
    ghost var loads: seq<Load>
    ghost var published: seq<byte>

    ghost function View(): Preset
      reads this
    {
      Preset(activePreset, activeValid, pending, slot, attempts, due, loads, published)
    }

    constructor ()
      ensures View() == Start()
    {
      activePreset, activeValid, pending, slot, attempts, due := 0, false, false, 0, 0, 0;
      loads, published := [], [];
    }

    method PublishState()
      modifies this`published
      ensures View() == Publish(old(View()))
    {
      if activeValid {
        published := published + [activePreset];
      }
    }

    method SetPresetSlot(wanted: byte, accepted: bool, ghost time: nat, now: u32)
      requires now == Clock(time)
      modifies this
      ensures View() == SetSlot(old(View()), wanted, accepted, time)
    {
      hide Add32, Clock;
      if wanted >= PRESET_SLOTS {
        return;
      }
      if !accepted {
        return;
      }
      pending := true;
      slot := wanted;
      attempts := 0;
      due := Add32(now, SETTLE_MS);
      loads := loads + [Load(wanted, time, [])];
    }

    method OnPresetActive(data: seq<byte>)
      modifies this
      ensures View() == OnActive(old(View()), data)
    {
      if |data| < 1 {
        return;
      }
      var reported := data[0];
      if reported >= PRESET_SLOTS {
        return;
      }
      activePreset := reported;
      activeValid := true;
      if pending && reported == slot {
        pending := false;
      }
      PublishState();
    }

    method OnPresetLoad(data: seq<byte>)
      modifies this
      ensures View() == OnLoad(old(View()), data)
    {
      var status := if |data| >= 1 then data[0] else PRESET_OK;
      if status != PRESET_OK {
        pending := false;
        PublishState();
      }
    }

    method OnPresetLoadFailed()
      modifies this
      ensures View() == OnLoadFailed(old(View()))
    {
      pending := false;
      PublishState();
    }

    method ForgetPresetLoad(data: seq<byte>)
      modifies this`pending
      ensures View() == OnPlatform(old(View()), data)
    {
      if |data| < 2 {
        return;
      }
      pending := false;
    }

    method ServicePresetConfirm(ghost time: nat, now: u32) returns (read: bool)
      requires now == Clock(time)
      modifies this
      ensures View() == Service(old(View()), time)
      ensures read <==> CheckDue(old(View()), time) && old(attempts) < ATTEMPTS
    {
      hide Add32, Clock, Elapsed;
      if !pending || !Reached(now, due) {
        return false;
      }
      attempts := attempts + 1;
      if attempts > ATTEMPTS {
        pending := false;
        PublishState();
        return false;
      }
      due := Add32(now, SETTLE_MS);
      loads := WithRead(loads, time);
      return true;
    }
  }

  // ----- runs -----

  datatype Event =
    | SetTo(slot: byte, accepted: bool)
    | Active(data: seq<byte>)
    | LoadReply(data: seq<byte>)
    | LoadFailed
    | Platform(data: seq<byte>)
    | Tick

  /** An event and the true time at which it happens. */
  datatype Timed = Timed(event: Event, at: nat)

  function Start(): Preset { Preset(0, false, false, 0, 0, 0, [], []) }

  function Apply(p: Preset, e: Timed): Preset {
    match e.event
    case SetTo(slot, accepted) => SetSlot(p, slot, accepted, e.at)
    case Active(data) => OnActive(p, data)
    case LoadReply(data) => OnLoad(p, data)
    case LoadFailed => OnLoadFailed(p)
    case Platform(data) => OnPlatform(p, data)
    case Tick => Service(p, e.at)
  }

  function Run(p: Preset, es: seq<Timed>): Preset {
    if es == [] then p else Apply(Run(p, es[..|es| - 1]), es[|es| - 1])
  }

  ghost predicate InOrder(es: seq<Timed>) {
    forall i :: 0 < i < |es| ==> es[i - 1].at <= es[i].at
  }

  /** The read times of a load: none early, none too soon after the one before. */
  ghost predicate Spaced(at: nat, checks: seq<nat>) {
    && (checks != [] ==> checks[0] >= at + SETTLE_MS)
    && forall i :: 0 < i < |checks| ==> checks[i] >= checks[i - 1] + SETTLE_MS
  }

  ghost predicate Modest(l: Load) { l.slot < PRESET_SLOTS && |l.checks| <= ATTEMPTS && Spaced(l.at, l.checks) }

  /** The true time of the next check. */
  ghost function DueAt(l: Load): nat { (if l.checks == [] then l.at else l.checks[|l.checks| - 1]) + SETTLE_MS }

  ghost predicate PendingInv(p: Preset, time: nat) {
    p.pending ==>
      && p.loads != []
      && var l := p.loads[|p.loads| - 1];
         l.slot == p.slot && |l.checks| == p.attempts && p.due == Clock(DueAt(l)) && DueAt(l) <= time + SETTLE_MS
  }

  ghost predicate Inv(p: Preset, time: nat) {
    && (forall i :: 0 <= i < |p.loads| ==> Modest(p.loads[i]))
    && PendingInv(p, time)
  }

  /** The check never comes early, however long the hub was not looking. */
  lemma NeverEarly(time: nat, dueAt: nat)
    requires dueAt <= time + SETTLE_MS && Reached(Clock(time), Clock(dueAt))
    ensures time >= dueAt
  {
    if time < dueAt {
      ReachedIsTrueTime(time, dueAt);
    }
  }

  /** and, looked for within half the range of the clock, never late. */
  lemma DueWhenDue(p: Preset, before: nat, time: nat)
    requires PendingInv(p, before) && p.pending && before <= time
    requires time < DueAt(p.loads[|p.loads| - 1]) + 0x8000_0000
    ensures CheckDue(p, time) <==> time >= DueAt(p.loads[|p.loads| - 1])
  {
    hide Clock, Elapsed, DueAt;
    var dueAt := DueAt(p.loads[|p.loads| - 1]);
    ReachedIsTrueTime(time, dueAt);
  }

  lemma ServiceKeeps(p: Preset, time: nat)
    requires Inv(p, time)
    ensures Inv(Service(p, time), time)
  {
    hide Add32, Clock, Elapsed;
    if CheckDue(p, time) && p.attempts < ATTEMPTS {
      var l := p.loads[|p.loads| - 1];
      NeverEarly(time, DueAt(l));
      ClockAdd(time, SETTLE_MS);
      assert Modest(l);
      assert Modest(l.(checks := l.checks + [time]));
    }
  }

  lemma ApplyKeeps(p: Preset, e: Timed, time: nat)
    requires Inv(p, time) && time <= e.at
    ensures Inv(Apply(p, e), e.at)
  {
    hide Add32, Clock, Elapsed, Modest;
    match e.event
    case Tick => ServiceKeeps(p, e.at);
    case SetTo(slot, accepted) =>
      ClockAdd(e.at, SETTLE_MS);
      NewLoad(slot, e.at);
    case _ =>
  }

  lemma NewLoad(slot: byte, at: nat)
    ensures slot < PRESET_SLOTS ==> Modest(Load(slot, at, []))
  {}

  lemma {:induction false} RunKeeps(es: seq<Timed>)
    requires InOrder(es)
    ensures Inv(Run(Start(), es), if es == [] then 0 else es[|es| - 1].at)
  {
    if es == [] {
    } else {
      hide Inv, Apply;
      var before := es[..|es| - 1];
      assert InOrder(before);
      RunKeeps(before);
      ApplyKeeps(Run(Start(), before), es[|es| - 1], if before == [] then 0 else before[|before| - 1].at);
    }
  }

  /** In every run an accepted load is followed by at most six reads, each at least 250 ms of true time after the last. */
  lemma ReadsBounded(es: seq<Timed>, i: nat)
    requires InOrder(es) && i < |Run(Start(), es).loads|
    ensures var l := Run(Start(), es).loads[i]; l.slot < PRESET_SLOTS && |l.checks| <= ATTEMPTS && Spaced(l.at, l.checks)
  {
    hide Run;
    RunKeeps(es);
    assert Modest(Run(Start(), es).loads[i]);
  }

  /** A load the queue accepted starts a wait of its own: for this slot, with nothing read, due 250 ms later. */
  lemma LoadStartsWait(p: Preset, slot: byte, accepted: bool, time: nat)
    ensures var g := Apply(p, Timed(SetTo(slot, accepted), time));
      if slot < 10 && accepted then
        && g.pending && g.slot == slot && g.attempts == 0 && g.due == Clock(time + 250)
        && g.loads == p.loads + [Load(slot, time, [])] && g.published == p.published
        && g.active == p.active && g.activeValid == p.activeValid
      else g == p
  {
    hide Clock, Add32;
    ClockAdd(time, 250);
  }

  /** Every check that is due, up to the sixth, reads the active slot and puts the next check off by 250 ms. */
  lemma DueCheckReads(p: Preset, time: nat)
    requires p.loads != [] && CheckDue(p, time)
    ensures var g := Apply(p, Timed(Tick, time));
      if p.attempts < 6 then
        && g.pending && g.attempts == p.attempts + 1 && g.due == Clock(time + 250)
        && |g.loads| == |p.loads| && g.loads[|g.loads| - 1].checks == p.loads[|p.loads| - 1].checks + [time]
      else !g.pending && g.loads == p.loads
  {
    hide Clock, Add32, Elapsed;
    ClockAdd(time, 250);
  }

  // ----- the end of the wait -----

  /** Exactly these events end the wait for a confirmation. */
  lemma EndsTheWait(p: Preset, e: Timed)
    requires p.pending
    ensures !Apply(p, e).pending <==>
      match e.event
      case Active(data) => data != [] && data[0] < PRESET_SLOTS && data[0] == p.slot
      case LoadReply(data) => data != [] && data[0] != PRESET_OK
      case LoadFailed => true
      case Platform(data) => |data| >= 2
      case Tick => CheckDue(p, e.at) && p.attempts >= ATTEMPTS
      case SetTo(_, _) => false
  {
    hide Add32, Clock, Elapsed;
  }

  /** How many of the checks in a run found one due. */
  function DueChecks(p: Preset, es: seq<Timed>): nat {
    if es == [] then 0
    else
      var before := es[..|es| - 1];
      DueChecks(p, before)
      + (if es[|es| - 1].event.Tick? && CheckDue(Run(p, before), es[|es| - 1].at) then 1 else 0)
  }

  predicate NoLoads(es: seq<Timed>) { forall i :: 0 <= i < |es| ==> !es[i].event.SetTo? }

  /** Without another load, the seventh due check at the latest ends the wait; as long as it lasts, each was counted. */
  lemma {:induction false} WaitIsFinite(p: Preset, es: seq<Timed>)
    requires NoLoads(es) && p.pending && p.attempts <= ATTEMPTS
    ensures Run(p, es).pending ==> DueChecks(p, es) == Run(p, es).attempts - p.attempts && Run(p, es).attempts <= ATTEMPTS
    ensures DueChecks(p, es) > ATTEMPTS - p.attempts ==> !Run(p, es).pending
  {
    if es != [] {
      hide Clock, Elapsed, Add32;
      var before := es[..|es| - 1];
      assert NoLoads(before);
      WaitIsFinite(p, before);
    }
  }

  // ----- what is published -----

  /** The last slot in range that the device reported. */
  function LastReported(es: seq<Timed>): seq<byte> {
    if es == [] then []
    else
      var e := es[|es| - 1].event;
      if e.Active? && e.data != [] && e.data[0] < PRESET_SLOTS then [e.data[0]] else LastReported(es[..|es| - 1])
  }

  /** The slot shown is always the last one in range that the device reported, whatever was asked for. */
  lemma {:induction false} ActiveIsReported(es: seq<Timed>)
    ensures var p := Run(Start(), es);
      LastReported(es) == if p.activeValid then [p.active] else []
  {
    if es != [] {
      hide Clock, Elapsed, Add32, WithRead;
      ActiveIsReported(es[..|es| - 1]);
    }
  }

  lemma {:induction false} ReportedInRange(es: seq<Timed>)
    ensures LastReported(es) != [] ==> |LastReported(es)| == 1 && LastReported(es)[0] < PRESET_SLOTS
  {
    if es != [] {
      ReportedInRange(es[..|es| - 1]);
    }
  }

  /** Every slot ever published was the device's own report at that moment. */
  lemma {:induction false} PublishedIsReported(es: seq<Timed>, k: nat)
    requires k < |Run(Start(), es).published|
    ensures exists n :: 0 < n <= |es| && LastReported(es[..n]) == [Run(Start(), es).published[k]]
    ensures Run(Start(), es).published[k] < PRESET_SLOTS
  {
    assert es != [];
    var before := es[..|es| - 1];
    var p := Run(Start(), before);
    if k < |p.published| {
      PublishedIsReported(before, k);
      var n :| 0 < n <= |before| && LastReported(before[..n]) == [p.published[k]];
      assert before[..n] == es[..n];
      PublishedGrows(p, es[|es| - 1]);
    } else {
      PublishedGrows(p, es[|es| - 1]);
      hide Apply;
      ActiveIsReported(es);
      ReportedInRange(es);
      assert es[..|es|] == es;
    }
  }

  /** These events, and no others, publish the slot: */
  predicate Publishes(p: Preset, e: Timed) {
    match e.event
    case Active(data) => data != [] && data[0] < 10
    case LoadReply(data) => p.activeValid && data != [] && data[0] != 0
    case LoadFailed => p.activeValid
    case Tick => p.activeValid && CheckDue(p, e.at) && p.attempts >= 6
    case _ => false
  }

  /** each report in range as reported, and the slot the device is on whenever a load comes to nothing. */
  lemma PublishesExactly(p: Preset, e: Timed)
    ensures var g := Apply(p, e);
      g.published == (if Publishes(p, e) then p.published + [g.active] else p.published)
  {
    hide CheckDue, Add32, WithRead, Clock;
  }

  /** Only a report in range changes the slot shown. */
  lemma OnlyReportsMove(p: Preset, e: Timed)
    ensures var g := Apply(p, e);
      if e.event.Active? && Publishes(p, e) then g.active == e.event.data[0] && g.activeValid
      else g.active == p.active && g.activeValid == p.activeValid
  {
    hide CheckDue, Add32, WithRead, Clock;
  }

  lemma PublishedGrows(p: Preset, e: Timed)
    ensures var g := Apply(p, e);
      g.published == p.published || (g.activeValid && g.published == p.published + [g.active])
  {
    hide Clock, Elapsed, Add32, WithRead;
  }
}
