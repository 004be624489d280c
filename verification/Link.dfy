/**
 From received bytes to the hub: every frame is handled where it ends, with whatever its callback makes the hub do, and
 nothing else reaches the hub.
 */
module Link {
  import opened Wire
  import opened Frames
  import opened FrameLaws
  import opened Recovery
  import opened Detection
  import opened Queue
  import opened HubModel
  import opened Progress
  import opened Sending
  import opened HubObject
  import opened Transport

  /** What the callback of a frame makes the hub do, given the hub as the callback finds it. */
  type Reaction = (Hub, Event) -> seq<Step>

  function Handle(h: Hub, cfg: Config, react: Reaction, e: Event, now: u32): Hub {
    if e.Frame? then
      var g := HandleFrame(h, cfg, e.frameType, e.status, e.payload, now);
      Run(g, cfg, react(g, e))
    else h
  }

  function HandleAll(h: Hub, cfg: Config, react: Reaction, events: seq<Event>, now: u32): Hub
    decreases |events|
  {
    if events == [] then h else HandleAll(Handle(h, cfg, react, events[0], now), cfg, react, events[1..], now)
  }

  /** The receive loop: each byte goes to the parser, each report to the hub, before the next byte is read. */
  function Pump(h: Hub, cfg: Config, react: Reaction, rx: Rx, bytes: seq<byte>, now: u32): (Hub, Rx)
    requires rx.Valid()
    decreases |bytes|
  {
    if bytes == [] then (h, rx)
    else
      var (next, events) := Take(rx, bytes[0]);
      Pump(HandleAll(h, cfg, react, events, now), cfg, react, next, bytes[1..], now)
  }

  lemma {:induction false} HandleConcat(h: Hub, cfg: Config, react: Reaction, a: seq<Event>, b: seq<Event>, now: u32)
    ensures HandleAll(h, cfg, react, a + b, now) == HandleAll(HandleAll(h, cfg, react, a, now), cfg, react, b, now)
    decreases |a|
  {
    hide Handle;
    if a == [] {
      assert a + b == b;
    } else {
      assert (a + b)[1..] == a[1..] + b;
      HandleConcat(Handle(h, cfg, react, a[0], now), cfg, react, a[1..], b, now);
    }
  }

  /** The hub sees exactly the frames the receiver recognises, in order. */
  lemma {:induction false} PumpIsHandling(h: Hub, cfg: Config, react: Reaction, rx: Rx, bytes: seq<byte>, now: u32)
    requires rx.Valid()
    ensures Pump(h, cfg, react, rx, bytes, now)
      == (HandleAll(h, cfg, react, Feed(rx, bytes).1, now), Feed(rx, bytes).0)
    decreases |bytes|
  {
    hide Take, Handle;
    if bytes == [] {
    } else {
      var (next, events) := Take(rx, bytes[0]);
      PumpIsHandling(HandleAll(h, cfg, react, events, now), cfg, react, next, bytes[1..], now);
      HandleConcat(h, cfg, react, events, Feed(next, bytes[1..]).1, now);
    }
  }

  function StepOf(e: Event, now: u32): Step
    requires e.Frame?
  {
    if e.frameType == NOTIFY then Notification(e.payload, now) else Response(e.frameType, e.status, e.payload, now)
  }

  lemma FrameIsStep(h: Hub, cfg: Config, e: Event, now: u32)
    requires e.Frame?
    ensures HandleFrame(h, cfg, e.frameType, e.status, e.payload, now) == Apply(h, cfg, StepOf(e, now))
  {
    hide HandleResponse, HandleNotification;
  }

  /** Bytes can only take the hub where its own steps can: all statements about runs hold of hubs driven by bytes. */
  lemma {:induction false} HandlingIsRun(h: Hub, cfg: Config, react: Reaction, events: seq<Event>, now: u32)
    returns (steps: seq<Step>)
    ensures HandleAll(h, cfg, react, events, now) == Run(h, cfg, steps)
    decreases |events|
  {
    hide Handle;
    if events == [] {
      steps := [];
    } else {
      var g := Handle(h, cfg, react, events[0], now);
      var first := OneEventIsRun(h, cfg, react, events[0], now);
      var more := HandlingIsRun(g, cfg, react, events[1..], now);
      RunConcat(h, cfg, first, more);
      steps := first + more;
    }
  }

  lemma OneEventIsRun(h: Hub, cfg: Config, react: Reaction, e: Event, now: u32) returns (steps: seq<Step>)
    ensures Handle(h, cfg, react, e, now) == Run(h, cfg, steps)
  {
    hide Apply, HandleFrame;
    if e.Frame? {
      var g := HandleFrame(h, cfg, e.frameType, e.status, e.payload, now);
      FrameIsStep(h, cfg, e, now);
      RunOne(h, cfg, StepOf(e, now));
      RunConcat(h, cfg, [StepOf(e, now)], react(g, e));
      steps := [StepOf(e, now)] + react(g, e);
    } else {
      steps := [];
    }
  }

  lemma PumpSnoc(h: Hub, cfg: Config, react: Reaction, rx: Rx, bytes: seq<byte>, b: byte, now: u32)
    requires rx.Valid()
    ensures var (g, mid) := Pump(h, cfg, react, rx, bytes, now);
      mid.Valid()
      && Pump(h, cfg, react, rx, bytes + [b], now) == (HandleAll(g, cfg, react, Take(mid, b).1, now), Take(mid, b).0)
  {
    hide Take, Feed, Pump, HandleAll;
    PumpIsHandling(h, cfg, react, rx, bytes, now);
    PumpIsHandling(h, cfg, react, rx, bytes + [b], now);
    FeedSnoc(rx, bytes, b);
    HandleConcat(h, cfg, react, Feed(rx, bytes).1, Take(Feed(rx, bytes).0, b).1, now);
  }

  // ----- the program -----

  /** The receive loop of the classes below stops at the hub's own handlers. */
  function NoReaction(): Reaction { (h: Hub, e: Event) => [] }

  /** `pump_rx_` as it runs: the hub handles a frame before the next byte is read. */
  method PumpRx(hub: DSPiHub, receiver: Receiver, waiting: seq<byte>, budget: nat, now: u32) returns (taken: nat)
    requires hub.Valid() && receiver.parser.Valid()
    modifies hub, hub.queue, receiver, receiver.parser, receiver.parser.payload
    ensures hub.Valid() && receiver.parser.Valid()
    ensures taken == if |waiting| < budget then |waiting| else budget
    ensures (hub.View(), receiver.parser.rx)
      == Pump(old(hub.View()), hub.cfg, NoReaction(), old(receiver.parser.rx), waiting[..taken], now)
  {
    hide *;
    taken := 0;
    ghost var h0, rx0 := hub.View(), receiver.parser.rx;
    PumpNothing(h0, hub.cfg, NoReaction(), rx0, now);
    while taken < budget && taken < |waiting|
      invariant taken <= |waiting| && taken <= budget
      invariant hub.Valid() && receiver.parser.Valid()
      invariant (hub.View(), receiver.parser.rx) == Pump(h0, hub.cfg, NoReaction(), rx0, waiting[..taken], now)
    {
      PumpSnoc(h0, hub.cfg, NoReaction(), rx0, waiting[..taken], waiting[taken], now);
      assert waiting[..taken + 1] == waiting[..taken] + [waiting[taken]];
      PumpOne(hub, receiver, waiting[taken], now);
      taken := taken + 1;
    }
  }

  method PumpOne(hub: DSPiHub, receiver: Receiver, b: byte, now: u32)
    requires hub.Valid() && receiver.parser.Valid()
    modifies hub, hub.queue, receiver, receiver.parser, receiver.parser.payload
    ensures hub.Valid() && receiver.parser.Valid()
    ensures receiver.parser.rx == Take(old(receiver.parser.rx), b).0
    ensures hub.View() == HandleAll(old(hub.View()), hub.cfg, NoReaction(), Take(old(receiver.parser.rx), b).1, now)
  {
    // The hub's queue and the parser's buffer are told apart by their lengths.
    assert hub.queue.Length != receiver.parser.payload.Length;
    hide *;
    var events := receiver.PumpByte(b);
    HandleReports(hub, events, now);
  }

  method HandleReports(hub: DSPiHub, events: seq<Event>, now: u32)
    requires hub.Valid()
    modifies hub, hub.queue
    ensures hub.Valid() && hub.View() == HandleAll(old(hub.View()), hub.cfg, NoReaction(), events, now)
  {
    hide HandleFrame;
    if events != [] {
      var e := events[0];
      if e.Frame? {
        hub.HandleFrame(e.frameType, e.status, e.payload, now);
      }
      HandleReports(hub, events[1..], now);
    }
  }

  lemma PumpNothing(h: Hub, cfg: Config, react: Reaction, rx: Rx, now: u32)
    requires rx.Valid()
    ensures Pump(h, cfg, react, rx, [], now) == (h, rx)
  {}

  /** A probe that is due also drops whatever the parser holds. */
  method ReprobeLink(hub: DSPiHub, receiver: Receiver, now: u32)
    requires hub.Valid() && receiver.parser.Valid()
    modifies hub, hub.queue, receiver.parser
    ensures hub.Valid() && receiver.parser.Valid()
    ensures hub.View() == Reprobe(old(hub.View()), hub.cfg, now)
    ensures receiver.parser.rx == if Reprobes(old(hub.View()), now) then Hunt else old(receiver.parser.rx)
  {
    assert hub.queue.Length != receiver.parser.payload.Length;
    hide *;
    var due := hub.ProbeIsDue(now);
    if due {
      receiver.parser.Reset();
    }
    hub.Reprobe(now);
  }

  /** One pass of `loop()`: reception, timers, the probe, the producers, the transmission. */
  method Loop(hub: DSPiHub, receiver: Receiver, waiting: seq<byte>, budget: nat, now: u32, extra: seq<Txn>)
    returns (taken: nat, frame: seq<byte>)
    requires hub.Valid() && receiver.parser.Valid()
    requires forall i :: 0 <= i < |extra| ==> |extra[i].payload| <= MAX_TX_PAYLOAD
    modifies hub, hub.queue, receiver, receiver.parser, receiver.parser.payload
    ensures hub.Valid() && receiver.parser.Valid()
    ensures taken == if |waiting| < budget then |waiting| else budget
    ensures var (h, rx) := Pump(old(hub.View()), hub.cfg, NoReaction(), old(receiver.parser.rx), waiting[..taken], now);
      && hub.View() == Pass(h, hub.cfg, now, extra)
      && frame == FrameOf(BeforeSend(h, hub.cfg, now, extra), hub.View())
      && receiver.parser.rx == if Reprobes(Timers(h, hub.cfg, now), now) then Hunt else rx
    ensures frame != [] ==> LaidOut(frame, hub.current) && ReadAs(frame, hub.current)
  {
    assert hub.queue.Length != receiver.parser.payload.Length;
    hide *;
    taken := PumpRx(hub, receiver, waiting, budget, now);
    ghost var h := hub.View();
    hub.Timers(now);
    ReprobeLink(hub, receiver, now);
    frame := hub.Produce(now, extra);
    PassIs(h, hub.cfg, now, extra);
    hub.ModeOfView();
    WrittenIsRead(BeforeSend(h, hub.cfg, now, extra), hub.View());
  }

  // ----- whole streams -----

  /** A stream of frames with noise between them drives the hub through the handling of those frames. */
  lemma StreamDrivesHub(h: Hub, cfg: Config, react: Reaction, bursts: seq<Burst>, tail: seq<byte>, now: u32)
    requires AllValid(bursts) && NoSync(tail)
    ensures Pump(h, cfg, react, Hunt, Stream(bursts, tail), now) == (HandleAll(h, cfg, react, FramesOf(bursts), now), Hunt)
  {
    hide Pump, Feed, HandleAll, Stream, FramesOf;
    StreamRoundTrip(bursts, tail);
    PumpIsHandling(h, cfg, react, Hunt, Stream(bursts, tail), now);
  }

  /** A reply or notification damaged in an odd number of bits leaves the hub untouched: it will be a timeout. */
  lemma OddDamageIsSilence(h: Hub, cfg: Config, react: Reaction, f: Event, d: Damage, now: u32)
    requires Fits(d, f) && Flips(d) % 2 == 1
    ensures Pump(h, cfg, react, Hunt, [SYNC] + Arriving(f, d), now) == (h, Hunt)
  {
    hide Pump, Feed, Arriving, Flips;
    OddDamageRefused(f, d);
    Refusal(h, cfg, react, [SYNC] + Arriving(f, d), now);
  }

  /** So does any damage to one byte, or two adjacent bytes, of what the checksum covers. */
  lemma ByteDamageIsSilence(h: Hub, cfg: Config, react: Reaction, f: Event, n: nat, x: byte, y: byte, m: nat, now: u32)
    requires (x != 0 || y != 0) && Fits(Damage(Blank(n) + [x, y] + Blank(m), 0), f)
    ensures Pump(h, cfg, react, Hunt, [SYNC] + Arriving(f, Damage(Blank(n) + [x, y] + Blank(m), 0)), now) == (h, Hunt)
  {
    hide Pump, Feed, Arriving;
    AdjacentBytesRefused(f, n, x, y, m);
    Refusal(h, cfg, react, [SYNC] + Arriving(f, Damage(Blank(n) + [x, y] + Blank(m), 0)), now);
  }

  lemma Refusal(h: Hub, cfg: Config, react: Reaction, bytes: seq<byte>, now: u32)
    requires Feed(Hunt, bytes) == (Hunt, [CrcFailed])
    ensures Pump(h, cfg, react, Hunt, bytes, now) == (h, Hunt)
  {
    hide Pump, Feed, Run;
    PumpIsHandling(h, cfg, react, Hunt, bytes, now);
    assert HandleAll(h, cfg, react, [CrcFailed], now) == h;
  }

  /** After any traffic, a quiet stretch of 138 bytes makes sure that a reply reaches the request it answers. */
  lemma ReplyAfterQuiet(h: Hub, cfg: Config, react: Reaction, past: seq<byte>, quiet: seq<byte>, f: Event, now: u32)
    requires NoSync(quiet) && |quiet| >= 138 && Legal(f)
    ensures var before := HandleAll(h, cfg, react, Feed(Hunt, past + quiet).1, now);
      Pump(h, cfg, react, Hunt, past + quiet + Encode(f), now) == (Handle(before, cfg, react, f, now), Hunt)
  {
    hide Pump, Feed, Encode, Handle;
    Resynchronises(past, quiet, f);
    PumpIsHandling(h, cfg, react, Hunt, past + quiet + Encode(f), now);
    HandleConcat(h, cfg, react, Feed(Hunt, past + quiet).1, [f], now);
    assert [f][1..] == [];
  }
}
