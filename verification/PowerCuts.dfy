/**
 What a power cut after a replay save shows: the re-ACK law survives exactly the
 safe saves, and the shipped order of saves loses a packet.
 */
module PowerCuts {
  import opened Words
  import R = ReplayTables
  import I = InboxTables
  import W = ReplayWindows
  import S = Stores
  import H = Handover
  import opened Brainstem
  import opened Lives
  import opened SaveOrder

  /** Save `k` slots of the replay table, lose power. */
  ghost function CutAfterSave(l: Life, k: nat): (end: Life)
    requires Inv(l)
    ensures Inv(end) && end.history.taken == l.history.taken
    ensures end.board.tables.replay == S.Overwrite(l.board.flashReplay, l.board.tables.replay, k)
    ensures end.board.tables.inbox == S.RestoreAll(l.board.flashInbox)
  {
    StepInv(l, SaveReplay(k));
    StepInv(Step(l, SaveReplay(k)), Reboot);
    Step(Step(l, SaveReplay(k)), Reboot)
  }

  /** Every pair the table marks is held or was taken. */
  ghost predicate Vouched(t: H.Tables, taken: set<Pair>) {
    forall s: u16, c: u64 :: R.Marked(t.replay, s, c) ==> (s, c) in taken || I.Contains(t.inbox, s, c)
  }

  lemma AccountedIsVouched(replay: seq<R.Slot>, flash: seq<I.Slot>, taken: set<Pair>)
    requires |flash| == I.MAX_INBOX
    requires I.AllWellFormed(flash)
    ensures Accounted(replay, flash, taken) <==> Vouched(H.Tables(replay, S.RestoreAll(flash)), taken)
  {
    var ram := S.RestoreAll(flash);
    forall s: u16, c: u64 ensures I.Contains(ram, s, c) <==> HeldFrom(flash, (s, c), 0) {
      RestoreKeeps(flash, (s, c));
    }
  }

  /** Seen from outside: after the power cut every marked pair is held or was taken, exactly when the save was safe. */
  lemma SafeSaveSurvivesTheCut(l: Life, k: nat)
    requires OrderInv(l)
    ensures Vouched(CutAfterSave(l, k).board.tables, l.history.taken) <==> SafeToSave(l, k)
  {
    var saved := S.Overwrite(l.board.flashReplay, l.board.tables.replay, k);
    SafeToSaveExactly(l, k);
    AccountedIsVouched(saved, l.board.flashInbox, l.history.taken);
    assert CutAfterSave(l, k).board.tables == H.Tables(saved, S.RestoreAll(l.board.flashInbox));
  }

  /**
   An unsafe save does break the law: after it and a power cut some pair the
   host never took is answered with a re-ACK, or dropped while the inbox is full.
   */
  lemma UnsafeSaveBreaksTheLaw(l: Life, k: nat) returns (s: u16, c: u64)
    requires OrderInv(l) && !SafeToSave(l, k)
    ensures HeldFrom(l.board.tables.inbox, (s, c), 0)
    ensures var end := CutAfterSave(l, k);
            var t := end.board.tables;
            && (s, c) !in end.history.taken && !I.Contains(t.inbox, s, c)
            && forall packet: Bytes :: |packet| <= I.INBOX_PACKET_MAX ==>
                 H.Decide(t, s, c, packet).inbound == if I.IsFull(t.inbox) then H.Drop else H.ReAck
  {
    var b := l.board;
    s, c :| MarkedBelow(b.tables.replay, k, s, c) && HeldFrom(b.tables.inbox, (s, c), 0)
            && (s, c) !in l.history.taken && !HeldFrom(b.flashInbox, (s, c), 0);
    var t := CutAfterSave(l, k).board.tables;
    SavedMarks(l, k, s, c);
    RestoreKeeps(b.flashInbox, (s, c));
    forall packet: Bytes | |packet| <= I.INBOX_PACKET_MAX
      ensures H.Decide(t, s, c, packet).inbound == if I.IsFull(t.inbox) then H.Drop else H.ReAck
    {
      MarkedIsReplay(t.replay, s, c);
    }
  }

  lemma MarkedIsReplay(replay: seq<R.Slot>, s: u16, c: u64)
    requires R.Marked(replay, s, c)
    ensures R.TableAccept(replay, s, c).admit == R.Replay
  {
    W.AcceptMeaning(replay[R.Find(replay, s)].value.window, c);
  }

  /** A pair delivered now, and not taken since the last whole save, cannot be on flash yet. */
  lemma DeliveredIsNotOnFlash(l: Life, s: u16, c: u64, packet: Bytes)
    requires Inv(l) && H.Decide(l.board.tables, s, c, packet).inbound == H.Deliver
    requires (s, c) !in l.history.stale
    ensures !HeldFrom(l.board.flashInbox, (s, c), 0)
  {
    H.DecisionMeaning(l.board.tables, s, c, packet);
    if HeldFrom(l.board.flashInbox, (s, c), 0) {
      HeldIsContained(l.board.tables.inbox, (s, c));
    }
  }

  /** Deliver, save the replay table whole, lose power. */
  ghost function ReplayFirstCut(l: Life, s: u16, c: u64, packet: Bytes): (end: Life)
    requires Inv(l)
  {
    StepInv(l, Arrival(s, c, packet));
    CutAfterSave(Step(l, Arrival(s, c, packet)), R.MAX_REPLAY_SENDERS)
  }

  /**
   The radio task saves the replay table first. In the machine where `Decide` alone
   meets each frame (`Handover.RadioLoopNeverDelivers` says what the radio loop's
   extra offer does instead), for every life: a pair just delivered, then a whole
   replay save, then the power goes. The sender's retry is refused as a replay for
   ever, but the packet is held only if flash had it already - and it never has,
   unless the host took the pair since the last save.
   */
  lemma ReplayFirstLosesThePacket(l: Life, s: u16, c: u64, packet: Bytes)
    requires Inv(l) && H.Decide(l.board.tables, s, c, packet).inbound == H.Deliver
    ensures var end := ReplayFirstCut(l, s, c, packet);
            && (I.Contains(end.board.tables.inbox, s, c) <==> HeldFrom(l.board.flashInbox, (s, c), 0))
            && ((s, c) !in l.history.stale ==> !I.Contains(end.board.tables.inbox, s, c))
            && end.history.taken == l.history.taken
            && H.Decide(end.board.tables, s, c, packet).inbound ==
               if I.Contains(end.board.tables.inbox, s, c) then H.WaitHost
               else if I.IsFull(end.board.tables.inbox) then H.Drop else H.ReAck
  {
    var m := Step(l, Arrival(s, c, packet));
    StepInv(l, Arrival(s, c, packet));
    WholeSaveKeepsReplay(m);
    var t := CutAfterSave(m, R.MAX_REPLAY_SENDERS).board.tables;
    RestoreKeeps(l.board.flashInbox, (s, c));
    if (s, c) !in l.history.stale { DeliveredIsNotOnFlash(l, s, c, packet); }
    RetryIsRefused(l.board.tables, s, c, packet, t.inbox);
  }

  lemma WholeSaveKeepsReplay(l: Life)
    requires Inv(l)
    ensures CutAfterSave(l, R.MAX_REPLAY_SENDERS).board.tables.replay == l.board.tables.replay
  {
    SaveReplayPlaces(l.board, l.history.live, l.history.durable, R.MAX_REPLAY_SENDERS);
  }

  /** Whatever the inbox then holds, the retry of a delivered packet meets a spent counter. */
  lemma RetryIsRefused(t: H.Tables, s: u16, c: u64, packet: Bytes, inbox: seq<I.Slot>)
    requires R.Packed(t.replay) && H.Decide(t, s, c, packet).inbound == H.Deliver
    ensures H.Decide(H.Tables(H.Decide(t, s, c, packet).tables.replay, inbox), s, c, packet).inbound ==
            if I.Contains(inbox, s, c) then H.WaitHost else if I.IsFull(inbox) then H.Drop else H.ReAck
  {
    R.AcceptRemembers(t.replay, s, c, s, c);
    R.AnswerMeaning(R.TableAccept(t.replay, s, c).slots, s, c);
  }

  /** It happens, with `Decide` alone meeting each frame, to the very first packet. */
  lemma ReplayFirstLosesTheFirstPacket(s: u16, c: u64, packet: Bytes)
    requires c >= 1 && 0 < |packet| <= I.INBOX_PACKET_MAX
    ensures Inv(FIRST_BOOT)
    ensures var end := ReplayFirstCut(FIRST_BOOT, s, c, packet);
            && H.Decide(end.board.tables, s, c, packet).inbound == H.ReAck
            && (s, c) !in end.history.taken
  {
    ReplayFirstLosesThePacket(FIRST_BOOT, s, c, packet);
    var flash := FIRST_BOOT.board.flashInbox;
    S.RestoreMeaning(flash, |flash|);
    assert I.VACANT(S.RestoreAll(flash)[0]);
  }
}
