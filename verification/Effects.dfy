/** Which parts of the hub each kind of step can touch, whatever its arguments. */
module Effects {
  import opened Wire
  import opened Queue
  import opened Clock32
  import opened HubModel

  lemma InsertFrame(h: Hub, t: Txn)
    ensures var g := Insert(h, t);
            g == h.(queue := g.queue, dropped := g.dropped, log := g.log)
  {
    hide Enqueue, Add32, Endings;
  }

  lemma OfferFrame(h: Hub, t: Txn)
    ensures var g := Offer(h, t);
            g == h.(queue := g.queue, dropped := g.dropped, log := g.log, nextId := h.nextId + 1)
  {
    hide Insert;
    InsertFrame(h.(nextId := h.nextId + 1), t.(id := h.nextId));
  }

  lemma {:induction false} OfferAllFrame(h: Hub, ts: seq<Txn>)
    ensures var g := OfferAll(h, ts);
            g == h.(queue := g.queue, dropped := g.dropped, log := g.log, nextId := h.nextId + |ts|)
    decreases |ts|
  {
    hide Offer;
    if ts != [] {
      OfferFrame(h, ts[0]);
      OfferAllFrame(Offer(h, ts[0]), ts[1..]);
    }
  }

  lemma OfflineFrame(h: Hub, now: u32)
    ensures var g := GoOffline(h, now);
      g == h.(queue := g.queue, mode := Offline, lastProbeAt := now, identified := false, log := g.log,
              notes := h.notes.(haveSeq := false))
  {
    hide AllFree, FlushLog;
  }

  lemma FailFrame(h: Hub, now: u32)
    ensures var g := FailCurrent(h, now);
      && g == h.(queue := g.queue, mode := g.mode, hasCurrent := false, lastProbeAt := g.lastProbeAt,
                 failures := g.failures, identified := g.identified, notes := g.notes, dropped := g.dropped, log := g.log)
      && (g.mode == Idle || g.mode == Offline)
      && (g.notes == h.notes || (g.mode == Offline && g.notes == h.notes.(haveSeq := false)))
  {
    hide GoOffline, Add32;
    var f := (h.failures + 1) % 256;
    OfflineFrame(h.(hasCurrent := false, dropped := Add32(h.dropped, 1), mode := Idle, failures := f), now);
  }

  /** The end of an attempt: the clock stamps of sending and refreshing, the numbering and the toggles stay. */
  ghost predicate EndsOnly(h: Hub, g: Hub) {
    && g == h.(queue := g.queue, mode := g.mode, current := g.current, hasCurrent := g.hasCurrent,
               backoffUntil := g.backoffUntil, lastProbeAt := g.lastProbeAt, failures := g.failures,
               identified := g.identified, notes := g.notes, dropped := g.dropped, timeouts := g.timeouts, log := g.log)
    && (g.notes == h.notes || (g.mode == Offline && g.notes == h.notes.(haveSeq := false)))
  }

  lemma RetryFrame(h: Hub, cfg: Config, now: u32)
    ensures var g := RetryOrDrop(h, cfg, now);
      && EndsOnly(h, g) && g.timeouts == h.timeouts && (h.hasCurrent ==> !g.hasCurrent)
  {
    hide FailCurrent, Insert, BackoffMs, Limit, Add32;
    if h.hasCurrent {
      var again := h.current.(attempts := (h.current.attempts + 1) % 256);
      var k := h.(current := again);
      FailFrame(k, now);
      InsertFrame(k.(backoffUntil := Add32(now, BackoffMs(cfg, again.attempts)), mode := Backoff,
                    hasCurrent := false), again);
    }
  }

  lemma ResponseFrame(h: Hub, cfg: Config, ft: byte, st: byte, data: seq<byte>, now: u32)
    ensures var g := HandleResponse(h, cfg, ft, st, data, now);
      EndsOnly(h, g) && (g.hasCurrent ==> g == h)
  {
    hide RetryOrDrop, IsRetryable;
    if Answers(h, ft) {
      RetryFrame(h, cfg, now);
    }
  }

  lemma TimersFrame(h: Hub, cfg: Config, now: u32)
    ensures var g := Timers(h, cfg, now);
      EndsOnly(h, g) && (h.hasCurrent && g.hasCurrent ==> g == h || h.mode == Backoff)
  {
    hide RetryOrDrop, Add32, Elapsed, Reached;
    if h.mode == AwaitResp {
      RetryFrame(h.(timeouts := Add32(h.timeouts, 1)), cfg, now);
    }
  }

  predicate Offers(s: Step) { s.Submit? || s.ReprobeDue? || s.BurstDue? }

  predicate Ends(s: Step) { s.Response? || s.TimersDue? }

  lemma OffersFrame(h: Hub, cfg: Config, s: Step)
    requires Offers(s)
    ensures var g := Apply(h, cfg, s);
      && g == h.(queue := g.queue, dropped := g.dropped, log := g.log, nextId := g.nextId, lastProbeAt := g.lastProbeAt,
                 mode := g.mode, refreshPending := g.refreshPending)
      && g.nextId >= h.nextId
      && (g.mode == h.mode || (g.mode == Idle && h.mode == Offline))
      && (g.refreshPending == h.refreshPending || (s.BurstDue? && BurstFires(h, s.now)))
  {
    hide Offer, OfferAll, Elapsed, BurstFires, BurstReads;
    match s
    case Submit(t) => OfferFrame(h, t.(attempts := 0));
    case ReprobeDue(now) =>
      OfferFrame(h.(lastProbeAt := now, mode := Idle), Get(cfg, 0x7F, 7, OnPlatform, 0, NoFailAction));
    case BurstDue(now) => OfferAllFrame(h.(refreshPending := false), BurstReads(h, cfg));
  }

  lemma EndsFrame(h: Hub, cfg: Config, s: Step)
    requires Ends(s)
    ensures var g := Apply(h, cfg, s);
      EndsOnly(h, g) && (h.hasCurrent && g.hasCurrent ==> g == h || h.mode == Backoff)
  {
    hide HandleResponse, Timers;
    match s
    case Response(ft, st, data, now) => ResponseFrame(h, cfg, ft, st, data, now);
    case TimersDue(now) => TimersFrame(h, cfg, now);
  }

  lemma SendFrame(h: Hub, cfg: Config, now: u32)
    ensures var g := Apply(h, cfg, Send(now));
      && g == h.(queue := g.queue, current := g.current, hasCurrent := g.hasCurrent, sentAt := g.sentAt, mode := g.mode)
      && (h.mode != Idle ==> g == h)
  {
    hide FindNext;
  }

  /** Only the polling stamp, the refresh request, the identification, the toggles and the notes change. */
  ghost predicate Quietly(h: Hub, g: Hub) {
    && g == h.(lastPollAt := g.lastPollAt, refreshPending := g.refreshPending, refreshDueAt := g.refreshDueAt,
               failures := g.failures, identified := g.identified, toggleRead := g.toggleRead,
               toggleUnsupported := g.toggleUnsupported, notes := g.notes)
    && (h.refreshPending ==> g.refreshPending)
    && (g.identified == h.identified || h.mode == Idle)
  }

  lemma RefreshFrame(h: Hub, cfg: Config, now: u32)
    ensures var g := RequestRefresh(h, cfg, now); g == h.(refreshPending := true, refreshDueAt := g.refreshDueAt)
  {
    hide Add32;
  }

  lemma PollFrame(h: Hub, cfg: Config, now: u32)
    ensures var g := Poll(h, cfg, now); Quietly(h, g) && g.toggleRead == h.toggleRead && g.notes == h.notes
  {
    hide RequestRefresh, Elapsed;
    RefreshFrame(h.(lastPollAt := now), cfg, now);
  }

  lemma NotificationFrame(h: Hub, cfg: Config, packet: seq<byte>, now: u32)
    ensures var g := HandleNotification(h, cfg, packet, now); Quietly(h, g) && g.toggleRead == h.toggleRead
  {
    hide HandleNotification;
    NotificationTouches(h, cfg, packet, now);
    RefreshKept(h, cfg, packet, now);
  }

  /** The remaining steps touch no request at all. */
  lemma QuietFrame(h: Hub, cfg: Config, s: Step)
    requires !Offers(s) && !Ends(s) && !s.Send?
    ensures var g := Apply(h, cfg, s);
      && Quietly(h, g)
      && (!s.ToggleAsked? ==> g.toggleRead == h.toggleRead)
      && (!s.Notification? ==> g.notes == h.notes.(active := g.notes.active))
  {
    hide Add32, Or, Poll, HandleNotification, Quietly;
    if s.Notification? {
      NotificationFrame(h, cfg, s.packet, s.now);
    } else if s.PollDue? {
      PollFrame(h, cfg, s.now);
    } else {
      PlainFrame(h, cfg, s);
    }
  }

  lemma PlainFrame(h: Hub, cfg: Config, s: Step)
    requires s.Refresh? || s.Identified? || s.NotifyEnabled? || s.ToggleAsked? || s.ToggleFailed?
    ensures var g := Apply(h, cfg, s);
      && Quietly(h, g)
      && (!s.ToggleAsked? ==> g.toggleRead == h.toggleRead)
      && g.notes == h.notes.(active := g.notes.active)
  {
    hide Add32, Or;
  }

  lemma RefreshKept(h: Hub, cfg: Config, packet: seq<byte>, now: u32)
    ensures h.refreshPending ==> HandleNotification(h, cfg, packet, now).refreshPending
  {
    hide Next8, Add32, AffectsParams;
  }
}
