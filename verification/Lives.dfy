/**
 What whole lives of the board keep: held packets through cut saves, the bytes
 they were delivered with, and refusals through reboots.
 */
module Lives {
  import opened Words
  import R = ReplayTables
  import I = InboxTables
  import S = Stores
  import H = Handover
  import opened Brainstem

  // ---- Cut saves ----

  /** A save of `k` inbox slots, then a reboot. */
  ghost function CutSave(l: Life, k: nat): (end: Life)
    requires Inv(l)
    ensures Inv(end)
    ensures end.board.tables.inbox == S.RestoreAll(SavedInbox(l.board, k))
  {
    StepInv(l, SaveInbox(k));
    StepInv(Step(l, SaveInbox(k)), Reboot);
    Step(Step(l, SaveInbox(k)), Reboot)
  }

  lemma RestoredIsSaved(b: Board, k: nat, p: Pair)
    requires WellFormedBoard(b) && WellFormedInboxes(b)
    ensures HeldFrom(S.RestoreAll(SavedInbox(b, k)), p, 0) <==> HeldFrom(SavedInbox(b, k), p, 0)
  {
    RestoreKeeps(SavedInbox(b, k), p);
  }

  /**
   Crash safety of the inbox, in every reachable life and for a save cut after
   any number of slots: a pair that was on flash and is still held in RAM comes
   back from the reboot, unless the host took it since the last whole save.
   */
  lemma CutSaveKeepsHeldPairs(events: seq<Event>, k: nat, p: Pair)
    ensures var l := After(FIRST_BOOT, events);
            p !in l.history.stale && HeldFrom(l.board.flashInbox, p, 0) && HeldFrom(l.board.tables.inbox, p, 0) ==>
              HeldFrom(CutSave(l, k).board.tables.inbox, p, 0)
  {
    var l := After(FIRST_BOOT, events);
    if p !in l.history.stale && HeldFrom(l.board.flashInbox, p, 0) && HeldFrom(l.board.tables.inbox, p, 0) {
      SavedKeepsBoth(l.board, k, l.history.stale, p);
    }
    RestoredIsSaved(l.board, k, p);
  }

  /**
   Which pairs held in RAM slot `j` every cut save brings back: exactly those that
   flash holds in that slot or a later one. A cut right at `j` loses any other.
   */
  lemma EveryCutKeepsExactly(l: Life, p: Pair, j: nat)
    requires Inv(l) && HeldAt(l.board.tables.inbox, p, j)
    ensures (forall k: nat :: HeldFrom(CutSave(l, k).board.tables.inbox, p, 0))
       <==> HeldFrom(l.board.flashInbox, p, j)
  {
    var b := l.board;
    if HeldFrom(b.flashInbox, p, j) {
      forall k: nat ensures HeldFrom(CutSave(l, k).board.tables.inbox, p, 0) {
        var i :| j <= i < |b.flashInbox| && HeldAt(b.flashInbox, p, i);
        assert HeldAt(SavedInbox(b, k), p, if j < Min(k, I.MAX_INBOX) then j else i);
        RestoredIsSaved(b, k, p);
      }
    } else {
      CutAtLoses(b, p, j);
      RestoredIsSaved(b, j, p);
      assert !HeldFrom(CutSave(l, j).board.tables.inbox, p, 0);
    }
  }

  lemma CutAtLoses(b: Board, p: Pair, j: nat)
    requires WellFormedBoard(b) && WellFormedInboxes(b)
    requires HeldAt(b.tables.inbox, p, j) && !HeldFrom(b.flashInbox, p, j)
    ensures !HeldFrom(SavedInbox(b, j), p, 0)
  {
    var saved := SavedInbox(b, j);
    forall i | 0 <= i < |saved| ensures !HeldAt(saved, p, i) {
      if i < j {
        assert !I.Matches(b.tables.inbox[i], b.tables.inbox[j].value.sender, b.tables.inbox[j].value.ctr);
      } else {
        assert !HeldAt(b.flashInbox, p, i);
      }
    }
  }

  lemma RestoredSlotWasThere(b: Board, k: nat, j: nat)
    requires WellFormedBoard(b) && WellFormedInboxes(b) && j < I.MAX_INBOX
    ensures var ram := S.RestoreAll(SavedInbox(b, k));
            ram[j].Some? ==> ram[j] in b.tables.inbox || ram[j] in b.flashInbox
  {
    S.RestoredSlotIsSaved(SavedInbox(b, k), j);
    forall slot | slot in SavedInbox(b, k) ensures slot in b.tables.inbox || slot in b.flashInbox {}
  }

  /** Nor is anything invented: each reloaded slot was, packet and all, in RAM or on flash. */
  lemma CutSaveInventsNothing(events: seq<Event>, k: nat, j: nat)
    requires j < I.MAX_INBOX
    ensures var l := After(FIRST_BOOT, events);
            var ram := CutSave(l, k).board.tables.inbox;
            ram[j].Some? ==> ram[j] in l.board.tables.inbox || ram[j] in l.board.flashInbox
  {
    RestoredSlotWasThere(After(FIRST_BOOT, events).board, k, j);
  }

  /** After a whole save a reboot brings back exactly the nonempty packets that were held. */
  lemma WholeSaveReloadsExactly(events: seq<Event>, k: nat, p: Pair)
    requires k >= I.MAX_INBOX
    ensures var l := After(FIRST_BOOT, events);
            HeldFrom(CutSave(l, k).board.tables.inbox, p, 0) <==> HeldFrom(l.board.tables.inbox, p, 0)
  {
    var l := After(FIRST_BOOT, events);
    SavedComesFromEither(l.board, k, p);
    RestoredIsSaved(l.board, k, p);
  }

  /** The host took the pair, or it is held both on flash and in RAM. */
  ghost predicate Safe(l: Life, p: Pair) {
    || p in l.history.taken
    || (HeldFrom(l.board.flashInbox, p, 0) && HeldFrom(l.board.tables.inbox, p, 0))
  }

  lemma {:induction false} SafeStaysSafe(l: Life, events: seq<Event>, p: Pair)
    requires Inv(l) && Safe(l, p)
    ensures Safe(After(l, events), p)
    decreases |events|
  {
    if events != [] {
      var e := events[0];
      StepInv(l, e);
      if e.SaveInbox? && p !in l.history.taken { SavedKeepsBoth(l.board, e.slots, l.history.stale, p); }
      SafeStaysSafe(Step(l, e), events[1..], p);
    }
  }

  /**
   Durability over whole lives: once flash holds a packet, then after any number
   of arrivals, takes, cut saves and reboots the host took it, or flash and RAM
   both still hold it.
   */
  lemma FlashedIsNeverLost(l: Life, events: seq<Event>, p: Pair)
    requires Inv(l) && HeldFrom(l.board.flashInbox, p, 0)
    ensures Safe(After(l, events), p)
  {
    SafeStaysSafe(l, events, p);
  }

  // ---- What is held is what was delivered ----

  /** The packets delivered in the run, with their pairs, and those in `sent`. */
  ghost function Parcels(l: Life, events: seq<Event>, sent: set<(Pair, Bytes)>): (all: set<(Pair, Bytes)>)
    requires Inv(l)
    decreases |events|
  {
    if events == [] then sent
    else
      StepInv(l, events[0]);
      Parcels(Step(l, events[0]), events[1..], sent + Parcel(l, events[0]))
  }

  function Parcel(l: Life, e: Event): (p: set<(Pair, Bytes)>) {
    if e.Arrival? && H.Decide(l.board.tables, e.sender, e.ctr, e.packet).inbound == H.Deliver
    then {((e.sender, e.ctr), e.packet)} else {}
  }

  /** Each occupied slot holds the packet of some parcel for its pair, byte for byte. */
  ghost predicate HoldsParcels(slots: seq<I.Slot>, sent: set<(Pair, Bytes)>) {
    forall i :: 0 <= i < |slots| && slots[i].Some? ==>
      var e := slots[i].value;
      e.len <= |e.bytes| && ((e.sender, e.ctr), e.bytes[..e.len]) in sent
  }

  lemma StepHoldsParcels(l: Life, e: Event, sent: set<(Pair, Bytes)>)
    requires Inv(l) && HoldsParcels(l.board.tables.inbox, sent) && HoldsParcels(l.board.flashInbox, sent)
    ensures var v, all := Step(l, e).board, sent + Parcel(l, e);
            HoldsParcels(v.tables.inbox, all) && HoldsParcels(v.flashInbox, all)
  {
    var b := l.board;
    match e
    case Arrival(s, c, packet) =>
      H.DecisionMeaning(b.tables, s, c, packet);
      if H.Decide(b.tables, s, c, packet).inbound == H.Deliver {
        I.InsertHoldsThePacket(b.tables.inbox, s, c, packet);
        I.ContainsMeans(b.tables.inbox, s, c);
      }
    case Reboot =>
      var ram := S.RestoreAll(b.flashInbox);
      forall i | 0 <= i < I.MAX_INBOX ensures ram[i].Some? ==> ram[i] in b.flashInbox {
        S.RestoredSlotIsSaved(b.flashInbox, i);
      }
    case _ =>
  }

  lemma {:induction false} RunHoldsParcels(l: Life, events: seq<Event>, sent: set<(Pair, Bytes)>)
    requires Inv(l) && HoldsParcels(l.board.tables.inbox, sent) && HoldsParcels(l.board.flashInbox, sent)
    ensures var end, all := After(l, events).board, Parcels(l, events, sent);
            HoldsParcels(end.tables.inbox, all) && HoldsParcels(end.flashInbox, all)
    decreases |events|
  {
    if events != [] {
      StepInv(l, events[0]);
      StepHoldsParcels(l, events[0], sent);
      RunHoldsParcels(Step(l, events[0]), events[1..], sent + Parcel(l, events[0]));
    }
  }

  /** Over whole lives, cut saves and reboots included, what RAM or flash holds for a pair was delivered for it. */
  lemma OnlyDeliveredPackets(events: seq<Event>)
    ensures var b, sent := After(FIRST_BOOT, events).board, Parcels(FIRST_BOOT, events, {});
            HoldsParcels(b.tables.inbox, sent) && HoldsParcels(b.flashInbox, sent)
  {
    RunHoldsParcels(FIRST_BOOT, events, {});
  }

  /**
   Replay memory: whatever happened - cut saves, reboots - a pair accepted
   before some whole save of the replay table is never answered `Fresh` again,
   before or after one more reboot.
   */
  lemma DurablePairsStayRefused(events: seq<Event>, p: Pair)
    ensures var l := After(FIRST_BOOT, events);
            p in l.history.durable ==>
              && R.TableAccept(l.board.tables.replay, p.0, p.1).admit == R.Replay
              && R.TableAccept(Step(l, Reboot).board.tables.replay, p.0, p.1).admit == R.Replay
  {
    var l := After(FIRST_BOOT, events);
    R.AnswerMeaning(l.board.tables.replay, p.0, p.1);
    R.AnswerMeaning(l.board.flashReplay, p.0, p.1);
  }

  lemma {:induction false} DurableGrows(l: Life, events: seq<Event>)
    requires Inv(l)
    ensures l.history.durable <= After(l, events).history.durable
    decreases |events|
  {
    if events != [] {
      StepInv(l, events[0]);
      DurableGrows(Step(l, events[0]), events[1..]);
    }
  }

  /** The same, said from the moment the pair was accepted. */
  lemma SavedAcceptanceIsForever(l: Life, s: u16, c: u64, packet: Bytes, k: nat, later: seq<Event>)
    requires Inv(l) && H.Decide(l.board.tables, s, c, packet).inbound == H.Deliver
    requires k >= R.MAX_REPLAY_SENDERS
    ensures Inv(Step(l, Arrival(s, c, packet))) && Inv(Step(Step(l, Arrival(s, c, packet)), SaveReplay(k)))
    ensures var end := After(Step(Step(l, Arrival(s, c, packet)), SaveReplay(k)), later);
            R.TableAccept(end.board.tables.replay, s, c).admit == R.Replay
  {
    StepInv(l, Arrival(s, c, packet));
    var m := Step(l, Arrival(s, c, packet));
    StepInv(m, SaveReplay(k));
    var n := Step(m, SaveReplay(k));
    DurableGrows(n, later);
    var end := After(n, later);
    assert (s, c) in n.history.durable;
    R.AnswerMeaning(end.board.tables.replay, s, c);
    assert R.Refuses(end.board.tables.replay, (s, c).0, (s, c).1);
  }

  /** A replay save cut after any slot reloads each sender flash knew with its old window or its new one. */
  lemma CutReplaySaveReloads(events: seq<Event>, k: nat, n: u16)
    ensures var l := After(FIRST_BOOT, events);
            && Inv(Step(l, SaveReplay(k)))
            && var reloaded := Step(Step(l, SaveReplay(k)), Reboot).board.tables.replay;
               var i := R.Find(l.board.flashReplay, n);
               i < |l.board.flashReplay| ==>
                 && R.Find(reloaded, n) == i
                 && (reloaded[i] == l.board.flashReplay[i] || reloaded[i] == l.board.tables.replay[i])
  {
    var l := After(FIRST_BOOT, events);
    StepInv(l, SaveReplay(k));
    SaveReplayMixes(l.board, l.history.live, l.history.durable, k, n);
  }
}
