/**
 Why a cut save is only promised to keep packets not taken since the last whole
 one: a packet that is taken and delivered again can sit higher in RAM than on
 flash, and a cut between the two slots erases it.
 */
module Redelivery {
  import opened Words
  import Search
  import R = ReplayTables
  import I = InboxTables
  import W = ReplayWindows
  import S = Stores
  import H = Handover
  import opened Brainstem
  import opened Lives

  function OneHeld(s: u16, c: u64, packet: Bytes): (inbox: seq<I.Slot>)
    requires |packet| <= I.INBOX_PACKET_MAX
  {
    [Some(I.MakeHeld(s, c, packet))] + seq(I.MAX_INBOX - 1, _ => None)
  }

  /** The first packet of a board: held alone, and both tables know it. */
  lemma FirstDelivery(l: Life, s: u16, c: u64, packet: Bytes)
    requires WellFormedBoard(l.board) && l.board.tables == H.EMPTY_TABLES
    requires c >= 1 && |packet| <= I.INBOX_PACKET_MAX
    ensures var d := H.Decide(l.board.tables, s, c, packet);
            && d.inbound == H.Deliver
            && d.tables.inbox == OneHeld(s, c, packet)
            && d.tables.replay[1..] == H.EMPTY_TABLES.replay[1..]
            && d.tables.replay[0].Some? && d.tables.replay[0].value.nodeId == s
  {
    H.EmptyTablesDeliver(s, c, packet);
    I.ContainsMeans(H.EMPTY_TABLES.inbox, s, c);
    assert I.VACANT(H.EMPTY_TABLES.inbox[0]);
  }

  /** Restoring one packet and taking it leaves nothing. */
  lemma RestoredThenTaken(s: u16, c: u64, packet: Bytes)
    requires 0 < |packet| <= I.INBOX_PACKET_MAX
    ensures I.AllWellFormed(OneHeld(s, c, packet))
    ensures I.Take(S.RestoreAll(OneHeld(s, c, packet)), s, c) == H.EMPTY_TABLES.inbox
  {
    var flash := OneHeld(s, c, packet);
    S.RestoreMeaning(flash, |flash|);
    var ram := S.RestoreAll(flash);
    assert flash[0].Some?;
    I.ContainsMeans(ram, s, c);
    forall j | 0 <= j < |ram| && ram[j].Some? ensures I.Matches(ram[j], s, c) && j == 0 {
      var i :| j <= i < |flash| && flash[i] == ram[j];
    }
    Search.FirstIs(ram, I.PairIs(s, c), 0);
  }

  lemma {:induction false} AfterSplits(l: Life, first: seq<Event>, rest: seq<Event>)
    requires Inv(l)
    ensures After(l, first + rest) == After(After(l, first), rest)
    decreases |first|
  {
    if first == [] {
      assert first + rest == rest;
    } else {
      assert (first + rest)[1..] == first[1..] + rest;
      StepInv(l, first[0]);
      AfterSplits(Step(l, first[0]), first[1..], rest);
    }
  }

  lemma AfterOne(l: Life, e: Event)
    requires Inv(l)
    ensures After(l, [e]) == Step(l, e)
  {
    StepInv(l, e);
    assert After(Step(l, e), []) == Step(l, e);
  }

  /** Save, reboot, take: RAM is as new, flash still holds the packet. */
  lemma TakenAfterReboot(l: Life, s: u16, c: u64, packet: Bytes)
    requires Inv(l) && 0 < |packet| <= I.INBOX_PACKET_MAX
    requires l.board.tables.inbox == OneHeld(s, c, packet) && l.board.flashReplay == H.EMPTY_TABLES.replay
    ensures var end := After(l, Saved(s, c));
            end.board.tables == H.EMPTY_TABLES && end.board.flashInbox == OneHeld(s, c, packet)
  {
    RestoredThenTaken(s, c, packet);
    AfterOne(l, SaveInbox(I.MAX_INBOX));
    var saved := Step(l, SaveInbox(I.MAX_INBOX));
    AfterOne(saved, Reboot);
    AfterSplits(l, [SaveInbox(I.MAX_INBOX)], [Reboot]);
    assert [SaveInbox(I.MAX_INBOX)] + [Reboot] == [SaveInbox(I.MAX_INBOX), Reboot];
    AfterOne(Step(saved, Reboot), HostTake(s, c));
    AfterSplits(l, [SaveInbox(I.MAX_INBOX), Reboot], [HostTake(s, c)]);
    assert saved.board.flashInbox == l.board.tables.inbox;
  }

  /** With another sender's packet in slot 0, the next one lands in slot 1. */
  lemma SecondDelivery(t: H.Tables, a: u16, b: u16, c: u64, packet: Bytes)
    requires a != b && c >= 1 && 0 < |packet| <= I.INBOX_PACKET_MAX
    requires t.inbox == OneHeld(b, c, packet) && |t.replay| == R.MAX_REPLAY_SENDERS
    requires t.replay[0].Some? && t.replay[0].value.nodeId == b
    requires t.replay[1..] == H.EMPTY_TABLES.replay[1..]
    ensures HeldAt(H.Decide(t, a, c, packet).tables.inbox, (a, c), 1)
  {
    I.ContainsMeans(t.inbox, a, c);
    Search.FirstIs(t.inbox, I.VACANT, 1);
    assert forall i :: 1 <= i < |t.replay| ==> t.replay[i] == t.replay[1..][i - 1];
    Search.FirstIs(t.replay, R.OwnedBy(a), |t.replay|);
    Search.FirstIs(t.replay, R.VACANT, 1);
    W.AcceptMeaning(W.FRESH_WINDOW, c);
  }

  /** Two more deliveries: another sender's takes slot 0, the pair's own retry slot 1. */
  lemma RetryLandsHigher(l: Life, a: u16, b: u16, c: u64, packet: Bytes)
    requires Inv(l) && l.board.tables == H.EMPTY_TABLES && a != b
    requires c >= 1 && 0 < |packet| <= I.INBOX_PACKET_MAX
    ensures var end := After(l, Again(a, b, c, packet));
            HeldAt(end.board.tables.inbox, (a, c), 1) && end.board.flashInbox == l.board.flashInbox
  {
    FirstDelivery(l, b, c, packet);
    AfterOne(l, Arrival(b, c, packet));
    var m := Step(l, Arrival(b, c, packet));
    SecondDelivery(m.board.tables, a, b, c, packet);
    AfterOne(m, Arrival(a, c, packet));
    AfterSplits(l, [Arrival(b, c, packet)], [Arrival(a, c, packet)]);
  }

  /** Delivered, saved and taken after a reboot; then delivered again, behind another sender's packet. */
  function Saved(a: u16, c: u64): (events: seq<Event>) { [SaveInbox(I.MAX_INBOX), Reboot] + [HostTake(a, c)] }

  function Again(a: u16, b: u16, c: u64, packet: Bytes): (events: seq<Event>) {
    [Arrival(b, c, packet)] + [Arrival(a, c, packet)]
  }

  /**
   A run from a new board: the packet, taken since the last whole save and delivered
   again behind another, is on flash in slot 0 and in RAM in slot 1; a save cut
   after one slot loses it.
   */
  lemma RedeliveredPairIsLost(a: u16, b: u16, c: u64, packet: Bytes)
    requires a != b && c >= 1 && 0 < |packet| <= I.INBOX_PACKET_MAX
    ensures var l := After(FIRST_BOOT, [Arrival(a, c, packet)] + (Saved(a, c) + Again(a, b, c, packet)));
            && HeldFrom(l.board.flashInbox, (a, c), 0) && HeldFrom(l.board.tables.inbox, (a, c), 0)
            && !HeldFrom(CutSave(l, 1).board.tables.inbox, (a, c), 0)
  {
    FirstDelivery(FIRST_BOOT, a, c, packet);
    AfterOne(FIRST_BOOT, Arrival(a, c, packet));
    var l1 := Step(FIRST_BOOT, Arrival(a, c, packet));
    TakenAfterReboot(l1, a, c, packet);
    var l2 := After(l1, Saved(a, c));
    RetryLandsHigher(l2, a, b, c, packet);
    AfterSplits(FIRST_BOOT, [Arrival(a, c, packet)], Saved(a, c) + Again(a, b, c, packet));
    AfterSplits(l1, Saved(a, c), Again(a, b, c, packet));
    var l := After(l2, Again(a, b, c, packet));
    assert HeldAt(l.board.flashInbox, (a, c), 0);
    CutAtLoses(l.board, (a, c), 1);
    RestoredIsSaved(l.board, 1, (a, c));
  }
}
