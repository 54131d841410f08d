/**
 The board over whole lives: radio arrivals, host takes, saves that may be cut
 after any slot, and reboots that keep only flash. The flash banks are held as
 logical slots; `Stores.LoadIsRestore`, `LoadReplayIsIdentity`, `InboxSaveHolds`
 and `ReplaySaveHolds` tie each of them to the bytes on flash.
 */
module Brainstem {
  import opened Words
  import R = ReplayTables
  import I = InboxTables
  import W = ReplayWindows
  import S = Stores
  import H = Handover

  type Pair = H.Pair

  datatype Board = Board(tables: H.Tables, flashReplay: seq<R.Slot>, flashInbox: seq<I.Slot>)

  /**
   What happened, for the properties to speak about:
   `taken`   - every pair the host ever took;
   `stale`   - pairs taken since the inbox was last saved whole (or since boot);
   `live`    - pairs the running replay table has accepted;
   `durable` - pairs accepted when the replay table was last saved whole;
   `clean`   - nothing was delivered since the inbox was last saved whole (or since boot).
   */
  datatype History = History(taken: set<Pair>, stale: set<Pair>, live: set<Pair>, durable: set<Pair>, clean: bool)

  datatype Life = Life(board: Board, history: History)

  datatype Event =
    | Arrival(sender: u16, ctr: u64, packet: Bytes)
    | HostTake(sender: u16, ctr: u64)
    | SaveReplay(slots: nat)
    | SaveInbox(slots: nat)
    | Reboot

  const FIRST_BOOT := Life(Board(H.EMPTY_TABLES, H.EMPTY_TABLES.replay, H.EMPTY_TABLES.inbox),
                           History({}, {}, {}, {}, true))

  function Min(a: nat, b: nat): (r: nat) { if a < b then a else b }

  predicate WellFormedBoard(b: Board) {
    && |b.tables.replay| == |b.flashReplay| == R.MAX_REPLAY_SENDERS
    && |b.tables.inbox| == |b.flashInbox| == I.MAX_INBOX
  }

  ghost predicate WellFormedInboxes(b: Board) {
    I.Distinct(b.tables.inbox) && I.AllWellFormed(b.flashInbox)
  }

  ghost function SavedInbox(b: Board, k: nat): (r: seq<I.Slot>)
    requires WellFormedBoard(b)
    ensures |r| == I.MAX_INBOX
    ensures WellFormedInboxes(b) ==> I.AllWellFormed(r)
  {
    var n := Min(k, I.MAX_INBOX);
    b.tables.inbox[..n] + b.flashInbox[n..]
  }

  ghost function Step(l: Life, e: Event): (r: Life)
    requires WellFormedBoard(l.board) && WellFormedInboxes(l.board)
  {
    var b, h := l.board, l.history;
    match e
    case Arrival(s, c, packet) =>
      var d := H.Decide(b.tables, s, c, packet);
      var p := (s, c);
      if d.inbound == H.Deliver then Life(b.(tables := d.tables), h.(live := h.live + {p}, clean := false))
      else Life(b.(tables := d.tables), h)
    case HostTake(s, c) =>
      var p := (s, c);
      var inbox := I.Take(b.tables.inbox, s, c);
      Life(b.(tables := b.tables.(inbox := inbox)),
           if I.Contains(b.tables.inbox, s, c) then h.(taken := h.taken + {p}, stale := h.stale + {p}) else h)
    case SaveReplay(k) =>
      Life(b.(flashReplay := S.Overwrite(b.flashReplay, b.tables.replay, k)),
           if k >= R.MAX_REPLAY_SENDERS then h.(durable := h.live) else h)
    case SaveInbox(k) =>
      Life(b.(flashInbox := SavedInbox(b, k)),
           if k >= I.MAX_INBOX then h.(stale := {}, clean := true) else h)
    case Reboot =>
      Life(b.(tables := H.Tables(b.flashReplay, S.RestoreAll(b.flashInbox))),
           h.(stale := {}, live := h.durable, clean := true))
  }

  // ---- The inbox on flash ----

  /** Slot `i` holds the pair with a packet a reload keeps. */
  predicate HeldAt(slots: seq<I.Slot>, p: Pair, i: nat) {
    i < |slots| && I.Matches(slots[i], p.0, p.1) && slots[i].value.len > 0
  }

  ghost predicate HeldFrom(slots: seq<I.Slot>, p: Pair, from: nat) {
    exists i :: from <= i < |slots| && HeldAt(slots, p, i)
  }

  ghost predicate InboxInv(b: Board, stale: set<Pair>) {
    && WellFormedBoard(b) && WellFormedInboxes(b)
    // a held pair that is on flash is on flash no lower than its RAM slot
    && (forall j, p: Pair ::
          0 <= j < I.MAX_INBOX && p !in stale && HeldAt(b.tables.inbox, p, j) && HeldFrom(b.flashInbox, p, 0) ==>
            HeldFrom(b.flashInbox, p, j))
    // what flash holds and the host has not taken since, RAM holds too
    && (forall p: Pair :: p !in stale && HeldFrom(b.flashInbox, p, 0) ==> HeldFrom(b.tables.inbox, p, 0))
  }

  lemma HeldIsContained(slots: seq<I.Slot>, p: Pair)
    requires HeldFrom(slots, p, 0)
    ensures I.Contains(slots, p.0, p.1)
  {
    I.ContainsMeans(slots, p.0, p.1);
  }

  lemma SavedComesFromEither(b: Board, k: nat, p: Pair)
    requires WellFormedBoard(b)
    ensures HeldFrom(SavedInbox(b, k), p, 0) ==> HeldFrom(b.tables.inbox, p, 0) || HeldFrom(b.flashInbox, p, 0)
    ensures k >= I.MAX_INBOX ==> SavedInbox(b, k) == b.tables.inbox
  {
    var n := Min(k, I.MAX_INBOX);
    var saved := SavedInbox(b, k);
    if i :| 0 <= i < |saved| && HeldAt(saved, p, i) {
      assert if i < n then HeldAt(b.tables.inbox, p, i) else HeldAt(b.flashInbox, p, i);
    }
  }

  lemma SavedKeepsBoth(b: Board, k: nat, stale: set<Pair>, p: Pair)
    requires InboxInv(b, stale) && p !in stale
    requires HeldFrom(b.tables.inbox, p, 0) && HeldFrom(b.flashInbox, p, 0)
    ensures HeldFrom(SavedInbox(b, k), p, 0)
  {
    var saved := SavedInbox(b, k);
    var j :| 0 <= j < |b.tables.inbox| && HeldAt(b.tables.inbox, p, j);
    if j < Min(k, I.MAX_INBOX) {
      assert HeldAt(saved, p, j);
    } else {
      assert HeldFrom(b.flashInbox, p, j);
      var i :| j <= i < |b.flashInbox| && HeldAt(b.flashInbox, p, i);
      assert HeldAt(saved, p, i);
    }
  }

  lemma SaveInboxInv(b: Board, stale: set<Pair>, k: nat)
    requires InboxInv(b, stale)
    ensures InboxInv(b.(flashInbox := SavedInbox(b, k)), if k >= I.MAX_INBOX then {} else stale)
  {
    var n := Min(k, I.MAX_INBOX);
    var saved := SavedInbox(b, k);
    var v := b.(flashInbox := saved);
    var rest := if k >= I.MAX_INBOX then {} else stale;
    forall j, p: Pair | 0 <= j < I.MAX_INBOX && p !in rest && HeldAt(b.tables.inbox, p, j) && HeldFrom(saved, p, 0)
      ensures HeldFrom(saved, p, j)
    {
      if j < n {
        assert HeldAt(saved, p, j);
      } else {
        var i :| 0 <= i < |saved| && HeldAt(saved, p, i);
        assert HeldAt(if i < n then b.tables.inbox else b.flashInbox, p, i);
        assert HeldAt(b.flashInbox, p, i);
        var m :| j <= m < |b.flashInbox| && HeldAt(b.flashInbox, p, m);
        assert HeldAt(saved, p, m);
      }
    }
    forall p: Pair | p !in rest && HeldFrom(saved, p, 0)
      ensures HeldFrom(b.tables.inbox, p, 0)
    {
      SavedComesFromEither(b, k, p);
    }
  }

  lemma RestoreKeeps(flash: seq<I.Slot>, p: Pair)
    requires |flash| == I.MAX_INBOX
    requires I.AllWellFormed(flash)
    ensures var ram := S.RestoreAll(flash);
            && (HeldFrom(flash, p, 0) <==> HeldFrom(ram, p, 0))
            && (HeldFrom(ram, p, 0) <==> I.Contains(ram, p.0, p.1))
  {
    var ram := S.RestoreAll(flash);
    S.RestoreMeaning(flash, |flash|);
    I.ContainsMeans(ram, p.0, p.1);
    if HeldFrom(flash, p, 0) {
      var i :| 0 <= i < |flash| && HeldAt(flash, p, i);
      assert I.Contains(ram, flash[i].value.sender, flash[i].value.ctr);
    }
    if I.Contains(ram, p.0, p.1) {
      var j :| 0 <= j < |ram| && I.Matches(ram[j], p.0, p.1);
      assert HeldAt(ram, p, j);
      var i :| j <= i < |flash| && flash[i] == ram[j];
      assert HeldAt(flash, p, i);
    }
  }

  lemma RebootInboxInv(b: Board, stale: set<Pair>, replay: seq<R.Slot>)
    requires InboxInv(b, stale) && |replay| == R.MAX_REPLAY_SENDERS
    ensures InboxInv(b.(tables := H.Tables(replay, S.RestoreAll(b.flashInbox))), {})
  {
    var ram := S.RestoreAll(b.flashInbox);
    S.RestoreMeaning(b.flashInbox, |b.flashInbox|);
    forall j, p: Pair | 0 <= j < I.MAX_INBOX && HeldAt(ram, p, j)
      ensures HeldFrom(b.flashInbox, p, j)
    {
      var i :| j <= i < I.MAX_INBOX && b.flashInbox[i] == ram[j];
      assert HeldAt(b.flashInbox, p, i);
    }
    forall p: Pair | HeldFrom(b.flashInbox, p, 0) ensures HeldFrom(ram, p, 0) {
      RestoreKeeps(b.flashInbox, p);
    }
  }

  lemma ArrivalInboxInv(b: Board, stale: set<Pair>, s: u16, c: u64, packet: Bytes)
    requires InboxInv(b, stale) && R.Packed(b.tables.replay)
    ensures InboxInv(b.(tables := H.Decide(b.tables, s, c, packet).tables), stale)
  {
    H.DecisionMeaning(b.tables, s, c, packet);
    if H.Decide(b.tables, s, c, packet).inbound == H.Deliver {
      I.InsertMeaning(b.tables.inbox, s, c, packet, s, c);
      var f := I.FreeSlot(b.tables.inbox);
      var ram := H.Decide(b.tables, s, c, packet).tables.inbox;
      assert I.VACANT(b.tables.inbox[f]);
      assert forall j :: 0 <= j < |ram| && j != f ==> ram[j] == b.tables.inbox[j];
      forall p: Pair | p !in stale && HeldFrom(b.flashInbox, p, 0)
        ensures HeldFrom(ram, p, 0) && p != (s, c)
      {
        HeldIsContained(b.tables.inbox, p);
        var j :| 0 <= j < |b.tables.inbox| && HeldAt(b.tables.inbox, p, j);
        assert HeldAt(ram, p, j);
      }
    }
  }

  lemma TakeInboxInv(b: Board, stale: set<Pair>, s: u16, c: u64)
    requires InboxInv(b, stale)
    ensures InboxInv(b.(tables := b.tables.(inbox := I.Take(b.tables.inbox, s, c))),
                     if I.Contains(b.tables.inbox, s, c) then stale + {(s, c)} else stale)
  {
    I.TakeMeaning(b.tables.inbox, s, c, s, c);
    var ram := I.Take(b.tables.inbox, s, c);
    var k := I.Find(b.tables.inbox, s, c);
    if k < |ram| {
      assert I.PairIs(s, c)(b.tables.inbox[k]);
      assert forall j :: 0 <= j < |ram| && j != k ==> ram[j] == b.tables.inbox[j];
      forall p: Pair | p !in stale + {(s, c)} && HeldFrom(b.flashInbox, p, 0)
        ensures HeldFrom(ram, p, 0)
      {
        var j :| 0 <= j < |b.tables.inbox| && HeldAt(b.tables.inbox, p, j);
        assert HeldAt(ram, p, j);
      }
    }
  }

  // ---- The replay table on flash ----

  ghost predicate ReplayInv(b: Board, live: set<Pair>, durable: set<Pair>) {
    && WellFormedBoard(b)
    && R.Packed(b.tables.replay) && R.Packed(b.flashReplay)
    && R.SendersStay(b.flashReplay, b.tables.replay)
    && durable <= live
    && (forall p <- live :: R.Refuses(b.tables.replay, p.0, p.1))
    && (forall p <- durable :: R.Refuses(b.flashReplay, p.0, p.1))
  }

  /** A cut save keeps the slots packed and every sender in its place. */
  lemma SaveReplayPlaces(b: Board, live: set<Pair>, durable: set<Pair>, k: nat)
    requires ReplayInv(b, live, durable)
    ensures var saved := S.Overwrite(b.flashReplay, b.tables.replay, k);
            && R.Packed(saved) && R.SendersStay(saved, b.tables.replay) && R.SendersStay(b.flashReplay, saved)
            && (k >= R.MAX_REPLAY_SENDERS ==> saved == b.tables.replay)
  {
  }

  /** A cut save leaves every saved sender with its old window or its new one. */
  lemma SaveReplayMixes(b: Board, live: set<Pair>, durable: set<Pair>, k: nat, n: u16)
    requires ReplayInv(b, live, durable)
    ensures var saved := S.Overwrite(b.flashReplay, b.tables.replay, k);
            && (R.Find(saved, n) < |saved| ==>
                  var i := R.Find(saved, n);
                  && R.Find(b.tables.replay, n) == i
                  && (saved[i] == b.tables.replay[i]
                      || (saved[i] == b.flashReplay[i] && R.Find(b.flashReplay, n) == i)))
            && (R.Find(b.flashReplay, n) < |b.flashReplay| ==> R.Find(saved, n) == R.Find(b.flashReplay, n))
  {
    SaveReplayPlaces(b, live, durable, k);
    var saved := S.Overwrite(b.flashReplay, b.tables.replay, k);
    if R.Find(saved, n) < |saved| {
      var i := R.Find(saved, n);
      assert R.OwnedBy(n)(saved[i]);
    }
  }

  lemma SaveReplayInv(b: Board, live: set<Pair>, durable: set<Pair>, k: nat)
    requires ReplayInv(b, live, durable)
    ensures ReplayInv(b.(flashReplay := S.Overwrite(b.flashReplay, b.tables.replay, k)), live,
                      if k >= R.MAX_REPLAY_SENDERS then live else durable)
  {
    SaveReplayPlaces(b, live, durable, k);
    forall p <- durable
      ensures R.Refuses(S.Overwrite(b.flashReplay, b.tables.replay, k), p.0, p.1)
    {
      SaveReplayMixes(b, live, durable, k, p.0);
    }
  }

  /** Every refusal outlives an arrival, and a delivered pair joins them. */
  lemma ArrivalKeepsRefusals(t: H.Tables, live: set<Pair>, s: u16, c: u64, packet: Bytes)
    requires R.Packed(t.replay) && forall p <- live :: R.Refuses(t.replay, p.0, p.1)
    ensures var d := H.Decide(t, s, c, packet);
            forall p <- if d.inbound == H.Deliver then live + {(s, c)} else live ::
              R.Refuses(d.tables.replay, p.0, p.1)
  {
    H.DecisionMeaning(t, s, c, packet);
    var d := H.Decide(t, s, c, packet);
    if d.inbound == H.Deliver {
      R.AcceptRemembers(t.replay, s, c, s, c);
      forall p <- live ensures R.Refuses(d.tables.replay, p.0, p.1) {
        R.AcceptRemembers(t.replay, s, c, p.0, p.1);
      }
    }
  }

  lemma ArrivalKeepsPlaces(t: H.Tables, flash: seq<R.Slot>, s: u16, c: u64, packet: Bytes)
    requires R.Packed(t.replay) && R.SendersStay(flash, t.replay)
    ensures var replay := H.Decide(t, s, c, packet).tables.replay;
            |replay| == |t.replay| && R.Packed(replay) && R.SendersStay(flash, replay)
  {
    R.AcceptKeepsPlaces(t.replay, s, c);
  }

  lemma ArrivalReplayInv(b: Board, live: set<Pair>, durable: set<Pair>, s: u16, c: u64, packet: Bytes)
    requires ReplayInv(b, live, durable)
    ensures var d := H.Decide(b.tables, s, c, packet);
            ReplayInv(b.(tables := d.tables), if d.inbound == H.Deliver then live + {(s, c)} else live, durable)
  {
    ArrivalKeepsRefusals(b.tables, live, s, c, packet);
    ArrivalKeepsPlaces(b.tables, b.flashReplay, s, c, packet);
    H.DecisionMeaning(b.tables, s, c, packet);
  }

  // ---- Whole lives ----

  ghost predicate Inv(l: Life) {
    && InboxInv(l.board, l.history.stale)
    && ReplayInv(l.board, l.history.live, l.history.durable)
    && l.history.stale <= l.history.taken
  }

  lemma StepInv(l: Life, e: Event)
    requires Inv(l)
    ensures Inv(Step(l, e))
  {
    var b, h := l.board, l.history;
    match e
    case Arrival(s, c, packet) =>
      ArrivalInboxInv(b, h.stale, s, c, packet);
      ArrivalReplayInv(b, h.live, h.durable, s, c, packet);
    case HostTake(s, c) => TakeInboxInv(b, h.stale, s, c);
    case SaveReplay(k) => SaveReplayInv(b, h.live, h.durable, k);
    case SaveInbox(k) => SaveInboxInv(b, h.stale, k);
    case Reboot => RebootInboxInv(b, h.stale, b.flashReplay);
  }

  /** The life after a run of events; `Inv` holds all along it. */
  ghost function After(l: Life, events: seq<Event>): (r: Life)
    requires Inv(l)
    ensures Inv(r)
    decreases |events|
  {
    if events == [] then l
    else
      StepInv(l, events[0]);
      After(Step(l, events[0]), events[1..])
  }
}
