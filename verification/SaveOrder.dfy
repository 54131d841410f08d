/**
 When the replay table may be saved. The re-ACK law - a sender is told
 "delivered" only about a packet the host really took - survives power cuts
 exactly when no replay save gets ahead of the inbox on flash. Saving the inbox
 first is one way to keep it so; saving the replay table first is not.
 */
module SaveOrder {
  import opened Words
  import R = ReplayTables
  import I = InboxTables
  import W = ReplayWindows
  import S = Stores
  import H = Handover
  import opened Brainstem
  import opened Lives

  /** The replay table marks the pair, in a slot that a save of `k` slots reaches. */
  ghost predicate MarkedBelow(replay: seq<R.Slot>, k: nat, s: u16, c: u64) {
    var i := R.Find(replay, s);
    i < k && i < |replay| && W.Seen(replay[i].value.window, c)
  }

  /** Every packet the save would vouch for, and the host never took, is on flash already. */
  ghost predicate SafeToSave(l: Life, k: nat) {
    var b := l.board;
    forall s: u16, c: u64 ::
      MarkedBelow(b.tables.replay, k, s, c) && HeldFrom(b.tables.inbox, (s, c), 0) && (s, c) !in l.history.taken ==>
        HeldFrom(b.flashInbox, (s, c), 0)
  }

  /** No empty packets, and no replay save ahead of the inbox. */
  ghost predicate InboxFirst(l: Life, e: Event) {
    match e
    case Arrival(_, _, packet) => |packet| > 0
    case SaveReplay(k) => SafeToSave(l, k)
    case _ => true
  }

  ghost predicate InboxFirstRun(l: Life, events: seq<Event>)
    requires Inv(l)
    decreases |events|
  {
    events == [] ||
    (InboxFirst(l, events[0]) && (StepInv(l, events[0]); InboxFirstRun(Step(l, events[0]), events[1..])))
  }

  /** Every pair the table marks was taken or is in the inbox. */
  ghost predicate Accounted(replay: seq<R.Slot>, inbox: seq<I.Slot>, taken: set<Pair>) {
    forall s: u16, c: u64 :: R.Marked(replay, s, c) ==> (s, c) in taken || HeldFrom(inbox, (s, c), 0)
  }

  ghost predicate NoEmptyPackets(inbox: seq<I.Slot>) {
    forall i :: 0 <= i < |inbox| && inbox[i].Some? ==> inbox[i].value.len > 0
  }

  ghost predicate OrderInv(l: Life) { Inv(l) && InOrder(l) }

  ghost predicate InOrder(l: Life) {
    var b, h := l.board, l.history;
    && NoEmptyPackets(b.tables.inbox)
    && Accounted(b.tables.replay, b.tables.inbox, h.taken)
    && Accounted(b.flashReplay, b.flashInbox, h.taken)
    && (h.clean ==> forall p: Pair :: HeldFrom(b.tables.inbox, p, 0) ==>
          p !in h.stale && HeldFrom(b.flashInbox, p, 0))
  }

  lemma HeldIffContained(inbox: seq<I.Slot>, p: Pair)
    requires NoEmptyPackets(inbox)
    ensures HeldFrom(inbox, p, 0) <==> I.Contains(inbox, p.0, p.1)
  {
    I.ContainsMeans(inbox, p.0, p.1);
    if I.Contains(inbox, p.0, p.1) {
      var i :| 0 <= i < |inbox| && I.Matches(inbox[i], p.0, p.1);
      assert HeldAt(inbox, p, i);
    }
  }

  lemma ArrivalOrder(l: Life, s: u16, c: u64, packet: Bytes)
    requires OrderInv(l) && |packet| > 0
    ensures InOrder(Step(l, Arrival(s, c, packet)))
  {
    var b, h := l.board, l.history;
    H.DecisionMeaning(b.tables, s, c, packet);
    var d := H.Decide(b.tables, s, c, packet);
    if d.inbound == H.Deliver {
      assert NoEmptyPackets(d.tables.inbox);
      forall n: u16, k: u64 | R.Marked(d.tables.replay, n, k)
        ensures (n, k) in h.taken || HeldFrom(d.tables.inbox, (n, k), 0)
      {
        R.AcceptRemembers(b.tables.replay, s, c, n, k);
        I.InsertMeaning(b.tables.inbox, s, c, packet, n, k);
        HeldIffContained(b.tables.inbox, (n, k));
        HeldIffContained(d.tables.inbox, (n, k));
      }
    }
  }

  lemma TakeOrder(l: Life, s: u16, c: u64)
    requires OrderInv(l)
    ensures InOrder(Step(l, HostTake(s, c)))
  {
    var b, h := l.board, l.history;
    var v := Step(l, HostTake(s, c));
    var ram := v.board.tables.inbox;
    forall p: Pair
      ensures HeldFrom(ram, p, 0) <==> HeldFrom(b.tables.inbox, p, 0) && p != (s, c)
    {
      HeldIffContained(b.tables.inbox, p);
      HeldIffContained(ram, p);
      I.TakeMeaning(b.tables.inbox, s, c, p.0, p.1);
    }
    HeldIffContained(b.tables.inbox, (s, c));
  }

  /** After a save of `k` slots a sender's marks are the new ones if its slot was reached, else the old ones. */
  lemma SavedMarks(l: Life, k: nat, s: u16, c: u64)
    requires Inv(l)
    ensures var b := l.board;
            var i := R.Find(b.tables.replay, s);
            R.Marked(S.Overwrite(b.flashReplay, b.tables.replay, k), s, c) <==>
            if i < k && i < |b.tables.replay| then MarkedBelow(b.tables.replay, k, s, c)
            else R.Marked(b.flashReplay, s, c)
  {
    var b, h := l.board, l.history;
    var saved := S.Overwrite(b.flashReplay, b.tables.replay, k);
    SaveReplayPlaces(b, h.live, h.durable, k);
    SaveReplayMixes(b, h.live, h.durable, k, s);
    var i := R.Find(b.tables.replay, s);
    if i < |b.tables.replay| {
      assert R.OwnedBy(s)(b.tables.replay[i]);
      if i >= k && R.Find(saved, s) == i {
        assert saved[i] == b.flashReplay[i];
      }
    }
  }

  /** One replay save keeps flash accountable exactly when it was safe. */
  lemma SafeToSaveExactly(l: Life, k: nat)
    requires OrderInv(l)
    ensures Accounted(S.Overwrite(l.board.flashReplay, l.board.tables.replay, k), l.board.flashInbox, l.history.taken)
       <==> SafeToSave(l, k)
  {
    var b, h := l.board, l.history;
    var saved := S.Overwrite(b.flashReplay, b.tables.replay, k);
    if SafeToSave(l, k) {
      forall s: u16, c: u64 | R.Marked(saved, s, c)
        ensures (s, c) in h.taken || HeldFrom(b.flashInbox, (s, c), 0)
      {
        SavedMarks(l, k, s, c);
        assert MarkedBelow(b.tables.replay, k, s, c) ==> R.Marked(b.tables.replay, s, c);
      }
    }
    if Accounted(saved, b.flashInbox, h.taken) {
      forall s: u16, c: u64 |
          MarkedBelow(b.tables.replay, k, s, c) && HeldFrom(b.tables.inbox, (s, c), 0) && (s, c) !in h.taken
        ensures HeldFrom(b.flashInbox, (s, c), 0)
      {
        SavedMarks(l, k, s, c);
        assert R.Marked(saved, s, c);
      }
    }
  }

  /** With nothing delivered since the last whole inbox save, any replay save is safe. */
  lemma InboxFirstIsSafe(l: Life, k: nat)
    requires OrderInv(l) && l.history.clean
    ensures SafeToSave(l, k)
  {
  }

  lemma SaveReplayOrder(l: Life, k: nat)
    requires OrderInv(l) && SafeToSave(l, k)
    ensures InOrder(Step(l, SaveReplay(k)))
  {
    SafeToSaveExactly(l, k);
  }

  lemma SaveInboxOrder(l: Life, k: nat)
    requires OrderInv(l)
    ensures InOrder(Step(l, SaveInbox(k)))
  {
    var b, h := l.board, l.history;
    var v := Step(l, SaveInbox(k));
    forall p: Pair | p !in h.stale && HeldFrom(b.flashInbox, p, 0)
      ensures HeldFrom(SavedInbox(b, k), p, 0)
    {
      SavedKeepsBoth(b, k, h.stale, p);
    }
    forall p: Pair | v.history.clean && HeldFrom(b.tables.inbox, p, 0)
      ensures p !in v.history.stale && HeldFrom(SavedInbox(b, k), p, 0)
    {
      if k >= I.MAX_INBOX { SavedComesFromEither(b, k, p); } else { SavedKeepsBoth(b, k, h.stale, p); }
    }
  }

  lemma RebootOrder(l: Life)
    requires OrderInv(l)
    ensures InOrder(Step(l, Reboot))
  {
    var b := l.board;
    var ram := S.RestoreAll(b.flashInbox);
    S.RestoreMeaning(b.flashInbox, |b.flashInbox|);
    forall p: Pair ensures HeldFrom(ram, p, 0) <==> HeldFrom(b.flashInbox, p, 0) {
      RestoreKeeps(b.flashInbox, p);
    }
  }

  lemma OrderStep(l: Life, e: Event)
    requires OrderInv(l) && InboxFirst(l, e)
    ensures OrderInv(Step(l, e))
  {
    StepInv(l, e);
    match e
    case Arrival(s, c, packet) => ArrivalOrder(l, s, c, packet);
    case HostTake(s, c) => TakeOrder(l, s, c);
    case SaveReplay(k) => SaveReplayOrder(l, k);
    case SaveInbox(k) => SaveInboxOrder(l, k);
    case Reboot => RebootOrder(l);
  }

  lemma {:induction false} OrderRun(l: Life, events: seq<Event>)
    requires OrderInv(l) && InboxFirstRun(l, events)
    ensures OrderInv(After(l, events))
    decreases |events|
  {
    if events != [] {
      OrderStep(l, events[0]);
      OrderRun(Step(l, events[0]), events[1..]);
    }
  }

  /**
   With only safe replay saves, over any life of cuts and reboots: a re-ACK for a
   counter the window still reaches is only given for a pair the host took.
   */
  lemma ReAckMeansTaken(events: seq<Event>, s: u16, c: u64, packet: Bytes)
    requires InboxFirstRun(FIRST_BOOT, events)
    ensures var l := After(FIRST_BOOT, events);
            H.Decide(l.board.tables, s, c, packet).inbound == H.ReAck
            && c >= 1 && c + W.WINDOW_SIZE > R.Highest(l.board.tables.replay, s)
            ==> (s, c) in l.history.taken
  {
    OrderRun(FIRST_BOOT, events);
    var l := After(FIRST_BOOT, events);
    var t := l.board.tables;
    H.DecisionMeaning(t, s, c, packet);
    if H.Decide(t, s, c, packet).inbound == H.ReAck && c >= 1 && c + W.WINDOW_SIZE > R.Highest(t.replay, s) {
      R.AnswerMeaning(t.replay, s, c);
      R.RefusalInReachIsMarked(t.replay, s, c);
      HeldIffContained(t.inbox, (s, c));
    }
  }
}
