/**
 The analyser's requests in the hub's queue: what each is on the wire, that they ask for enough, that a band poll is
 never repeated, and that polls make way for everything else.
 */
module AnalyserRequests {
  import opened Wire
  import opened RtaWire
  import opened RtaModel
  import opened Queue
  import Hubs = HubModel
  import opened Identity

  type Config = Hubs.Config

  function GetOf(cfg: Config, req: byte, wvalue: u16, wlen: u16, priority: nat, maxRetries: u8, handler: nat): Txn {
    Txn(0, req, GET_REQ, wvalue, wlen, [], 0, priority, maxRetries, cfg.requestTimeoutMs, OnOther(handler),
        OnOtherFailed(handler))
  }

  /** The transaction the service routine offers for each kind of request; chunk numbers stay far below 2^16. */
  function RequestFor(cfg: Config, a: Ask): Txn
    requires a != NoAsk && (a.AskCentres? ==> a.chunk < 0x1_0000)
  {
    match a
    case AskCaps => GetOf(cfg, 0x0A, 0, 16, 1, RETRIES_DEFAULT, 10)
    case AskCentres(chunk) => GetOf(cfg, 0x0A, chunk, 64, 1, RETRIES_DEFAULT, 11)
    case AskConfig => GetOf(cfg, 0x09, 0, 12, 1, RETRIES_DEFAULT, 12)
    case AskSetConfig(c) =>
      GetOf(cfg, 0x08, 0, 12, 1, RETRIES_DEFAULT, 12).(frameType := SET_REQ, payload := ConfigBytes(c))
    case AskStop => GetOf(cfg, 0x0E, 0, 1, 1, 0, 13)
    case AskStatus => GetOf(cfg, 0x0D, 0, 24, 1, RETRIES_DEFAULT, 14)
    case AskBands(ch) => GetOf(cfg, 0x0B, ch, 82, 2, 0, 15)
  }

  // ----- identities -----

  /** Two requests of the analyser share an identity exactly if they are the same request, but for the record written. */
  lemma AsksApart(cfg: Config, a: Ask, b: Ask)
    requires a != NoAsk && (a.AskCentres? ==> 1 <= a.chunk < 0x1_0000)
    requires b != NoAsk && (b.AskCentres? ==> 1 <= b.chunk < 0x1_0000)
    ensures KeyOf(RequestFor(cfg, a)) == KeyOf(RequestFor(cfg, b)) <==> a == b || (a.AskSetConfig? && b.AskSetConfig?)
  {}

  // ----- lengths -----

  /** The device cuts a reply to the length asked for. */
  function CutTo(data: seq<byte>, wlen: u16): seq<byte> { if |data| > wlen then data[..wlen] else data }

  /** Every request asks for enough: what is read from the cut reply is what would have been read from the whole one. */
  lemma EnoughAsked(cfg: Config, ch: u16, data: seq<byte>)
    requires ch < 16
    ensures ParseCaps(CutTo(data, RequestFor(cfg, AskCaps).wlen)) == ParseCaps(data)
    ensures ParseConfig(CutTo(data, RequestFor(cfg, AskConfig).wlen)) == ParseConfig(data)
    ensures ParseBandFrame(CutTo(data, RequestFor(cfg, AskBands(ch)).wlen)) == ParseBandFrame(data)
  {
    CutCaps(data);
    CutConfig(data);
    CutBands(data);
    hide ParseCaps, ParseConfig, ParseBandFrame;
  }

  lemma CutCaps(data: seq<byte>)
    ensures ParseCaps(CutTo(data, 16)) == ParseCaps(data)
  {
    hide Value;
  }

  lemma CutConfig(data: seq<byte>)
    ensures ParseConfig(CutTo(data, 12)) == ParseConfig(data)
  {
    hide Join;
  }

  lemma CutBands(data: seq<byte>)
    ensures ParseBandFrame(CutTo(data, 82)) == ParseBandFrame(data)
  {
    hide Value, Number;
    if |data| > 82 {
      assert data[..82][8..45] == data[8..45] && data[..82][45..82] == data[45..82];
    }
  }

  // ----- never repeated -----

  /** Whatever else is asked for, this channel's bands are asked for by polls only. */
  predicate OnlyPolls(cfg: Config, steps: seq<Hubs.Step>, ch: u16)
    requires ch < 16
  {
    forall i :: 0 <= i < |steps| && steps[i].Submit? && KeyOf(steps[i].txn) == Key(0x0B, GET_REQ, ch) ==>
      steps[i].txn == RequestFor(cfg, AskBands(ch))
  }

  lemma {:induction false} NotAToggle(cfg: Config, mask: bv16, n: nat, i: nat)
    requires n <= 5 && i < |Hubs.ToggleReads(cfg, mask, n)|
    ensures Hubs.ToggleReads(cfg, mask, n)[i].req != 0x0B
  {
    hide Toggles.Selected, Toggles.SelectedCount;
    if i < |Hubs.ToggleReads(cfg, mask, n - 1)| {
      NotAToggle(cfg, mask, n - 1, i);
    }
  }

  lemma HubAsksOthers(h: Hubs.Hub, cfg: Config, s: Hubs.Step, ch: u16)
    requires !s.Submit?
    ensures AskedWithin(h, cfg, s, Key(0x0B, GET_REQ, ch), 0)
  {
    hide Hubs.BurstFires, Hubs.Reprobes, Hubs.ToggleReads, Hubs.TogglesToRead;
    var ts := Asked(h, cfg, s);
    forall i | 0 <= i < |ts|
      ensures ts[i].req != 0x0B
    {
      if s.BurstDue? && i >= 5 {
        NotAToggle(cfg, Hubs.TogglesToRead(h), 5, i - 5);
      }
    }
  }

  lemma {:induction false} PollsAreWithin(h: Hubs.Hub, cfg: Config, steps: seq<Hubs.Step>, ch: u16)
    requires ch < 16 && OnlyPolls(cfg, steps, ch)
    ensures RunWithin(h, cfg, steps, Key(0x0B, GET_REQ, ch), 0)
    decreases |steps|
  {
    hide Hubs.Apply, AskedWithin, RequestFor;
    if steps != [] {
      if steps[0].Submit? {
        SubmitWithin(h, cfg, steps[0], ch);
      } else {
        HubAsksOthers(h, cfg, steps[0], ch);
      }
      PollsAreWithin(Hubs.Apply(h, cfg, steps[0]), cfg, steps[1..], ch);
    }
  }

  lemma SubmitWithin(h: Hubs.Hub, cfg: Config, s: Hubs.Step, ch: u16)
    requires ch < 16 && s.Submit?
    requires KeyOf(s.txn) == Key(0x0B, GET_REQ, ch) ==> s.txn == RequestFor(cfg, AskBands(ch))
    ensures AskedWithin(h, cfg, s, Key(0x0B, GET_REQ, ch), 0)
  {}

  /** Over every run from power-on, the poll of a channel is transmitted at most once before it ends. */
  lemma PollsNotRepeated(cfg: Config, boot: u32, past: seq<Hubs.Step>, future: seq<Hubs.Step>, ch: u16)
    requires cfg.Valid() && ch < 16 && OnlyPolls(cfg, past, ch) && OnlyPolls(cfg, future, ch)
    requires Stays(Hubs.Run(Hubs.Boot(cfg, boot), cfg, past), cfg, future, Key(0x0B, GET_REQ, ch))
    ensures Transmissions(Hubs.Run(Hubs.Boot(cfg, boot), cfg, past), cfg, future, Key(0x0B, GET_REQ, ch)) <= 1
  {
    hide Hubs.Run, Hubs.Boot, Stays, Transmissions, RunWithin, OnlyPolls;
    PollsAreWithin(Hubs.Boot(cfg, boot), cfg, past, ch);
    PollsAreWithin(Hubs.Run(Hubs.Boot(cfg, boot), cfg, past), cfg, future, ch);
    IdentityIsBounded(cfg, boot, past, future, Key(0x0B, GET_REQ, ch), 0);
  }

  // ----- making way -----

  /** A poll displaces nothing but other polls, */
  lemma PollsYield(q: seq<Slot>, cfg: Config, ch: u16, k: Key)
    requires UniqueKeys(q) && ch < 16 && k in Contents(q) && Contents(q)[k].priority < 2 && k != Key(0x0B, GET_REQ, ch)
    ensures var q' := Enqueue(q, RequestFor(cfg, AskBands(ch))).0; k in Contents(q') && Contents(q')[k] == Contents(q)[k]
  {
    hide Enqueue, UniqueKeys, Contents;
    EnqueueRefines(q, RequestFor(cfg, AskBands(ch)));
  }

  /** and while one waits, a more important request always enters and displaces nothing more important than a poll. */
  lemma PollsGiveWay(q: seq<Slot>, t: Txn, poll: Key, k: Key)
    requires UniqueKeys(q) && t.priority < 2 && poll in Contents(q) && Contents(q)[poll].priority >= 2
    requires k in Contents(q) && Contents(q)[k].priority < 2 && k != KeyOf(t)
    ensures var q' := Enqueue(q, t).0;
      KeyOf(t) in Contents(q') && k in Contents(q') && Contents(q')[k] == Contents(q)[k]
  {
    hide Enqueue, UniqueKeys, Contents;
    EnqueueRefines(q, t);
  }
}
