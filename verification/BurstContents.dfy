/** What a refresh asks for: five fixed reads and one for each toggle somebody asked about and the device has. */
module BurstContents {
  import opened Wire
  import opened Toggles
  import opened Queue
  import opened Clock32
  import opened HubModel
  import opened HubInvariant
  import opened Effects
  import opened Refresh

  /** A read of this opcode waits, with this length and these continuations, at the given priority. */
  ghost predicate ReadWaits(q: seq<Slot>, cfg: Config, req: byte, wlen: u16, priority: nat, onOk: OkHandler,
                            onFail: FailHandler)
  {
    Key(req, 0x02, 0) in Contents(q) &&
    var u := Contents(q)[Key(req, 0x02, 0)];
      u == Txn(u.id, req, 0x02, 0, wlen, [], u.attempts, priority, 255, cfg.requestTimeoutMs, onOk, onFail)
  }

  /** The opcodes that read the toggles: user mute, loudness, EQ bypass, crossfeed, leveller. */
  const TOGGLE_OPCODES: seq<byte> := [0xDD, 0x59, 0x47, 0x5F, 0xB5]

  const FIXED_OPCODES: seq<byte> := [0xD3, 0xDB, 0xE1, 0xEE, 0x9A]

  lemma Opcode(t: ToggleTarget)
    ensures ToggleGetOpcode(t) == TOGGLE_OPCODES[t]
  {}

  lemma WaitsAs(g: Hub, cfg: Config, t: Txn)
    requires KeyOf(t) in Contents(g.queue) && IsRequest(Contents(g.queue)[KeyOf(t)], t)
    requires t.frameType == 0x02 && t.wvalue == 0 && t.payload == [] && t.maxRetries == 255
    requires t.timeoutMs == cfg.requestTimeoutMs
    ensures ReadWaits(g.queue, cfg, t.req, t.wlen, t.priority, t.onOk, t.onFail)
  {
    hide Contents;
  }

  /** When a refresh is due and there is room, exactly these reads join what waits, and none is lost. */
  lemma BurstAsksFor(h: Hub, cfg: Config, now: u32)
    requires Inv(h) && BurstFires(h, now)
    ensures var q := ServiceRefresh(h, cfg, now).queue;
      && ReadWaits(q, cfg, 0xD3, 4, 1, OnMasterVolume, NoFailAction)
      && ReadWaits(q, cfg, 0xDB, 4, 1, OnUserVolume, NoFailAction)
      && ReadWaits(q, cfg, 0xE1, 1, 1, OnInputSource, NoFailAction)
      && ReadWaits(q, cfg, 0xEE, 8, 1, OnInputRate, NoFailAction)
      && ReadWaits(q, cfg, 0x9A, 1, 1, OnPresetActive, NoFailAction)
      && (forall t: ToggleTarget :: Selected(TogglesToRead(h), t) ==>
            ReadWaits(q, cfg, TOGGLE_OPCODES[t], 1, 1, OnToggle(t), OnToggleFailed(t)))
  {
    hide ReadWaits, ToggleGetOpcode, Inv, Selected, TogglesToRead, ToggleReads, Contents, IsRequest, BurstFires,
      FixedReads, ToggleRead;
    BurstWholeOrNothing(h, cfg, now);
    var g := ServiceRefresh(h, cfg, now);
    var fixed_, toggles := FixedReads(cfg), ToggleReads(cfg, TogglesToRead(h), TOGGLE_COUNT);
    forall i | 0 <= i < 5
      ensures KeyOf(fixed_[i]) in Contents(g.queue) && IsRequest(Contents(g.queue)[KeyOf(fixed_[i])], fixed_[i])
    {
      assert (fixed_ + toggles)[i] == fixed_[i];
    }
    FixedWait(g, cfg);
    forall t: ToggleTarget | Selected(TogglesToRead(h), t)
      ensures ReadWaits(g.queue, cfg, TOGGLE_OPCODES[t], 1, 1, OnToggle(t), OnToggleFailed(t))
    {
      ToggleReadsShape(cfg, TogglesToRead(h), TOGGLE_COUNT);
      var i :| 0 <= i < |toggles| && toggles[i] == ToggleRead(cfg, t);
      assert (fixed_ + toggles)[5 + i] == toggles[i];
      ToggleWaits(g, cfg, t);
    }
  }

  lemma ToggleWaits(g: Hub, cfg: Config, t: ToggleTarget)
    requires var u := ToggleRead(cfg, t); KeyOf(u) in Contents(g.queue) && IsRequest(Contents(g.queue)[KeyOf(u)], u)
    ensures ReadWaits(g.queue, cfg, TOGGLE_OPCODES[t], 1, 1, OnToggle(t), OnToggleFailed(t))
  {
    hide ReadWaits, ToggleGetOpcode, Contents, IsRequest;
    Opcode(t);
    WaitsAs(g, cfg, ToggleRead(cfg, t));
  }

  lemma FixedWait(g: Hub, cfg: Config)
    requires forall i :: 0 <= i < 5 ==>
      KeyOf(FixedReads(cfg)[i]) in Contents(g.queue)
      && IsRequest(Contents(g.queue)[KeyOf(FixedReads(cfg)[i])], FixedReads(cfg)[i])
    ensures ReadWaits(g.queue, cfg, 0xD3, 4, 1, OnMasterVolume, NoFailAction)
    ensures ReadWaits(g.queue, cfg, 0xDB, 4, 1, OnUserVolume, NoFailAction)
    ensures ReadWaits(g.queue, cfg, 0xE1, 1, 1, OnInputSource, NoFailAction)
    ensures ReadWaits(g.queue, cfg, 0xEE, 8, 1, OnInputRate, NoFailAction)
    ensures ReadWaits(g.queue, cfg, 0x9A, 1, 1, OnPresetActive, NoFailAction)
  {
    hide ReadWaits, Contents, IsRequest;
    WaitsAs(g, cfg, FixedReads(cfg)[0]);
    WaitsAs(g, cfg, FixedReads(cfg)[1]);
    WaitsAs(g, cfg, FixedReads(cfg)[2]);
    WaitsAs(g, cfg, FixedReads(cfg)[3]);
    WaitsAs(g, cfg, FixedReads(cfg)[4]);
  }

  // ----- and nothing else -----

  lemma OfferKeys(h: Hub, t: Txn)
    requires UniqueKeys(h.queue)
    ensures var g := Offer(h, t); UniqueKeys(g.queue) && Keys(g.queue) <= Keys(h.queue) + {KeyOf(t)}
  {
    hide Enqueue, UniqueKeys, Keys, Add32, Endings, Lookup;
    EnqueueRefines(h.queue, t.(id := h.nextId));
  }

  lemma {:induction false} OfferAllKeys(h: Hub, ts: seq<Txn>)
    requires UniqueKeys(h.queue)
    ensures forall k :: k in Keys(OfferAll(h, ts).queue) ==>
      k in Keys(h.queue) || exists i :: 0 <= i < |ts| && KeyOf(ts[i]) == k
    decreases |ts|
  {
    hide Offer, UniqueKeys, Keys, KeyOf;
    if ts != [] {
      OfferKeys(h, ts[0]);
      var g := Offer(h, ts[0]);
      OfferAllKeys(g, ts[1..]);
      forall k | k in Keys(OfferAll(h, ts).queue)
        ensures k in Keys(h.queue) || exists i :: 0 <= i < |ts| && KeyOf(ts[i]) == k
      {
        if k !in Keys(g.queue) {
          var i :| 0 <= i < |ts[1..]| && KeyOf(ts[1..][i]) == k;
          assert ts[i + 1] == ts[1..][i];
        } else if k !in Keys(h.queue) {
          assert KeyOf(ts[0]) == k;
        }
      }
    }
  }

  /** What a refresh adds is a fixed read or the read of a selected toggle. */
  lemma NothingElse(h: Hub, cfg: Config, now: u32, k: Key)
    requires Inv(h) && k in Contents(ServiceRefresh(h, cfg, now).queue) && k !in Contents(h.queue)
    ensures k.frameType == 0x02 && k.wvalue == 0
    ensures k.req in FIXED_OPCODES || exists t: ToggleTarget :: Selected(TogglesToRead(h), t) && k.req == TOGGLE_OPCODES[t]
  {
    hide Selected, TogglesToRead, ToggleReads, UniqueKeys, AllMild, FindNext, Keys, OfferAll, BurstFires,
      FixedReads, ToggleRead, ToggleGetOpcode;
    assert BurstFires(h, now);
    OfferAllKeys(h.(refreshPending := false), BurstReads(h, cfg));
    var all, toggles := BurstReads(h, cfg), ToggleReads(cfg, TogglesToRead(h), TOGGLE_COUNT);
    var i :| 0 <= i < |all| && KeyOf(all[i]) == k;
    if i < 5 {
      assert all[i] == FixedReads(cfg)[i];
      FixedOpcode(cfg, i);
    } else {
      assert all[i] == toggles[i - 5];
      ToggleReadsShape(cfg, TogglesToRead(h), TOGGLE_COUNT);
      assert ReadOf(toggles[i - 5], cfg, TogglesToRead(h), TOGGLE_COUNT);
      var t: ToggleTarget :| Selected(TogglesToRead(h), t) && toggles[i - 5] == ToggleRead(cfg, t);
      ToggleOpcode(cfg, t);
    }
  }

  lemma FixedOpcode(cfg: Config, i: nat)
    requires i < 5
    ensures var t := FixedReads(cfg)[i]; t.frameType == 0x02 && t.wvalue == 0 && t.req == FIXED_OPCODES[i]
  {}

  lemma ToggleOpcode(cfg: Config, t: ToggleTarget)
    ensures var u := ToggleRead(cfg, t); u.frameType == 0x02 && u.wvalue == 0 && u.req == TOGGLE_OPCODES[t]
  {}

  // ----- which toggles -----

  /** The toggles asked for, and those the device has refused since it was identified; silence is no refusal. */
  datatype Interest = Interest(asked: set<ToggleTarget>, refused: set<ToggleTarget>)

  function Follow(h: Hub, i: Interest, s: Step): Interest {
    match s
    case ToggleAsked(t) => i.(asked := i.asked + {t})
    case ToggleFailed(t, st) => if st == 0xFF then i else i.(refused := i.refused + {t})
    case Identified => if h.mode == Idle then i.(refused := {}) else i
    case _ => i
  }

  function FollowRun(h: Hub, cfg: Config, i: Interest, steps: seq<Step>): Interest
    decreases |steps|
  {
    if steps == [] then i else FollowRun(Apply(h, cfg, steps[0]), cfg, Follow(h, i, steps[0]), steps[1..])
  }

  ghost predicate Tracks(h: Hub, i: Interest) {
    && (forall t: ToggleTarget :: Selected(h.toggleRead, t) <==> t in i.asked)
    && (forall t: ToggleTarget :: Selected(h.toggleUnsupported, t) <==> t in i.refused)
  }

  lemma AddToggle(mask: bv16, t: ToggleTarget, u: ToggleTarget)
    ensures Selected(Or(mask, ToggleBit(t)), u) <==> Selected(mask, u) || u == t
  {
    ApartBits(t, u);
    OrBit(mask, ToggleBit(t), ToggleBit(u));
    OrBit(And(mask, ToggleBit(u)), And(ToggleBit(t), ToggleBit(u)), 0xFFFF);
    hide And, Or, ToggleBit;
  }

  lemma ApartBits(t: ToggleTarget, u: ToggleTarget)
    ensures And(ToggleBit(t), ToggleBit(u)) == if t == u then ToggleBit(u) else 0
    ensures ToggleBit(u) != 0
  {}

  lemma OrBit(m: bv16, p: bv16, q: bv16)
    ensures And(Or(m, p), q) == Or(And(m, q), And(p, q))
    ensures Or(m, p) == 0 <==> m == 0 && p == 0
  {
    assert (m | p) & q == (m & q) | (p & q);
  }

  lemma LessBit(a: bv16, b: bv16, t: ToggleTarget)
    ensures Selected(Less(a, b), t) <==> Selected(a, t) && !Selected(b, t)
  {
    OneBit(a, b, ToggleBit(t));
    SingleBit(t);
  }

  predicate IsBit(p: bv16) { p == 1 || p == 2 || p == 4 || p == 8 || p == 16 }

  lemma SingleBit(t: ToggleTarget)
    ensures IsBit(ToggleBit(t))
  {}

  lemma OneBit(a: bv16, b: bv16, p: bv16)
    ensures IsBit(p) ==> (And(Less(a, b), p) != 0 <==> And(a, p) != 0 && And(b, p) == 0)
  {}

  lemma NoToggles(t: ToggleTarget)
    ensures !Selected(0, t)
  {}

  lemma StepTracks(h: Hub, cfg: Config, i: Interest, s: Step)
    requires Tracks(h, i)
    ensures Tracks(Apply(h, cfg, s), Follow(h, i, s))
  {
    hide Selected, Or, ToggleBit;
    if s.ToggleAsked? {
      forall t: ToggleTarget
        ensures Selected(Or(h.toggleRead, ToggleBit(s.target)), t) <==> t in i.asked || t == s.target
      {
        AddToggle(h.toggleRead, s.target, t);
      }
    } else if s.ToggleFailed? && s.status != 0xFF {
      forall t: ToggleTarget
        ensures Selected(Or(h.toggleUnsupported, ToggleBit(s.target)), t) <==> t in i.refused || t == s.target
      {
        AddToggle(h.toggleUnsupported, s.target, t);
      }
    } else if s.Identified? {
      forall t: ToggleTarget ensures !Selected(0, t) { NoToggles(t); }
    } else {
      hide Apply;
      OtherToggles(h, cfg, s);
    }
  }

  lemma OtherToggles(h: Hub, cfg: Config, s: Step)
    requires !s.ToggleAsked? && !(s.ToggleFailed? && s.status != 0xFF) && !s.Identified?
    ensures var g := Apply(h, cfg, s); g.toggleRead == h.toggleRead && g.toggleUnsupported == h.toggleUnsupported
  {
    if Offers(s) {
      hide Apply;
      OffersFrame(h, cfg, s);
    } else if Ends(s) {
      hide Apply;
      EndsFrame(h, cfg, s);
    } else if s.Send? {
      hide Apply;
      SendFrame(h, cfg, s.now);
    } else {
      hide Add32, HandleNotification, Elapsed;
      if s.Notification? {
        NotificationTouches(h, cfg, s.packet, s.now);
      }
    }
  }

  lemma {:induction false} RunTracks(h: Hub, cfg: Config, i: Interest, steps: seq<Step>)
    requires Tracks(h, i)
    ensures Tracks(Run(h, cfg, steps), FollowRun(h, cfg, i, steps))
    decreases |steps|
  {
    hide Apply, Tracks;
    if steps != [] {
      StepTracks(h, cfg, i, steps[0]);
      RunTracks(Apply(h, cfg, steps[0]), cfg, Follow(h, i, steps[0]), steps[1..]);
    }
  }

  /** After every run from power-on a refresh reads the mute and the toggles asked for, without those refused since. */
  lemma TogglesReadExactly(cfg: Config, boot: u32, steps: seq<Step>, t: ToggleTarget)
    ensures var i := FollowRun(Boot(cfg, boot), cfg, Interest({0}, {}), steps);
      Selected(TogglesToRead(Run(Boot(cfg, boot), cfg, steps)), t) <==> t in i.asked && t !in i.refused
  {
    hide Boot, Run, FollowRun, Selected, Less;
    BootTracks(cfg, boot);
    RunTracks(Boot(cfg, boot), cfg, Interest({0}, {}), steps);
    var h := Run(Boot(cfg, boot), cfg, steps);
    LessBit(h.toggleRead, h.toggleUnsupported, t);
  }

  lemma BootTracks(cfg: Config, boot: u32)
    ensures Tracks(Boot(cfg, boot), Interest({0}, {}))
  {
    hide Offer, AllFree, Selected, ToggleBit;
    OfferFrame(PowerOn(cfg).(lastProbeAt := boot, mode := Idle), Get(cfg, 0x7F, 7, OnPlatform, 0, NoFailAction));
    forall t: ToggleTarget ensures Selected(ToggleBit(0), t) <==> t == 0 { FirstToggle(t); }
    forall t: ToggleTarget ensures !Selected(0, t) { NoToggles(t); }
  }

  lemma FirstToggle(t: ToggleTarget)
    ensures Selected(ToggleBit(0), t) <==> t == 0
  {}
}
