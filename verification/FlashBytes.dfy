/** The bytes on flash over whole lives: what the records hold, and that they always load. */
module FlashBytes {
  import opened Words
  import R = ReplayTables
  import I = InboxTables
  import S = Stores
  import H = Handover
  import opened Brainstem

  /** The two banks of records. */
  datatype Flash = Flash(replay: S.Bank, inbox: S.Bank)

  const BLANK_FLASH := Flash(seq(R.MAX_REPLAY_SENDERS, _ => None), seq(I.MAX_INBOX, _ => None))

  predicate FlashFits(f: Flash) { |f.replay| == R.MAX_REPLAY_SENDERS && |f.inbox| == I.MAX_INBOX }

  /** The same events on the records: saves write as `Stores.Store.SaveReplay` and `SaveInbox` do, nothing else does. */
  ghost function Write(f: Flash, l: Life, e: Event): (g: Flash)
    requires FlashFits(f) && WellFormedBoard(l.board) && WellFormedInboxes(l.board)
    ensures FlashFits(g)
  {
    match e
    case SaveReplay(k) => f.(replay := S.Overwrite(f.replay, S.ReplayRecords(l.board.tables.replay), k))
    case SaveInbox(k) => f.(inbox := S.Overwrite(f.inbox, S.InboxRecords(l.board.tables.inbox), k))
    case _ => f
  }

  ghost function WriteAll(f: Flash, l: Life, events: seq<Event>): (g: Flash)
    requires FlashFits(f) && Inv(l)
    ensures FlashFits(g)
    decreases |events|
  {
    if events == [] then f
    else
      StepInv(l, events[0]);
      WriteAll(Write(f, l, events[0]), Step(l, events[0]), events[1..])
  }

  /** The records hold the life's logical flash slots. */
  ghost predicate Holds(f: Flash, b: Board) {
    S.HoldsInbox(f.inbox, b.flashInbox) && S.HoldsReplay(f.replay, b.flashReplay)
  }

  lemma WriteHolds(f: Flash, l: Life, e: Event)
    requires Inv(l) && FlashFits(f) && Holds(f, l.board)
    ensures Holds(Write(f, l, e), Step(l, e).board)
  {
    match e
    case SaveReplay(k) => S.ReplaySaveHolds(f.replay, l.board.flashReplay, l.board.tables.replay, k);
    case SaveInbox(k) =>
      var n := Min(k, I.MAX_INBOX);
      S.InboxSaveHolds(f.inbox, l.board.flashInbox, l.board.tables.inbox, n);
      assert S.Overwrite(f.inbox, S.InboxRecords(l.board.tables.inbox), k)
          == S.Overwrite(f.inbox, S.InboxRecords(l.board.tables.inbox), n);
    case _ =>
  }

  lemma {:induction false} RunHolds(f: Flash, l: Life, events: seq<Event>)
    requires Inv(l) && FlashFits(f) && Holds(f, l.board)
    ensures Holds(WriteAll(f, l, events), After(l, events).board)
    decreases |events|
  {
    if events != [] {
      WriteHolds(f, l, events[0]);
      StepInv(l, events[0]);
      RunHolds(Write(f, l, events[0]), Step(l, events[0]), events[1..]);
    }
  }

  lemma RebootReadsFlash(l: Life)
    requires Inv(l)
    ensures Step(l, Reboot).board.tables == H.Tables(l.board.flashReplay, S.RestoreAll(l.board.flashInbox))
  {
  }

  lemma Loads(f: Flash, b: Board)
    requires Holds(f, b) && R.Packed(b.flashReplay)
    ensures S.LoadInboxAll(f.inbox) == Some(S.RestoreAll(b.flashInbox))
    ensures S.LoadReplayAll(f.replay) == Some(b.flashReplay)
  {
    S.LoadIsRestore(f.inbox, b.flashInbox, |f.inbox|);
    S.LoadReplayAllIsIdentity(f.replay, b.flashReplay);
  }

  /**
   From a blank flash, after any sequence of events with saves cut anywhere, both
   banks of records load, and to exactly the tables a reboot is given above.
   */
  lemma EveryFlashLoads(events: seq<Event>)
    ensures var l := After(FIRST_BOOT, events);
            var f := WriteAll(BLANK_FLASH, FIRST_BOOT, events);
            var booted := Step(l, Reboot).board.tables;
            && S.LoadInboxAll(f.inbox) == Some(booted.inbox)
            && S.LoadReplayAll(f.replay) == Some(booted.replay)
  {
    RunHolds(BLANK_FLASH, FIRST_BOOT, events);
    Loads(WriteAll(BLANK_FLASH, FIRST_BOOT, events), After(FIRST_BOOT, events).board);
    RebootReadsFlash(After(FIRST_BOOT, events));
  }
}
