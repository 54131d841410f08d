/**
 Handing radio packets to the host: the decision made for one authenticated
 inbound frame, and what it guarantees over any run of arrivals and host takes.
 */
module Handover {
  import opened Words
  import R = ReplayTables
  import I = InboxTables
  import W = ReplayWindows
  import Search

  datatype Inbound = Deliver | WaitHost | ReAck | Drop

  datatype Tables = Tables(replay: seq<R.Slot>, inbox: seq<I.Slot>)
  datatype Decision = Decision(tables: Tables, inbound: Inbound)
  type Pair = (u16, u64)

  const EMPTY_TABLES :=
    Tables(seq(R.MAX_REPLAY_SENDERS, _ => None), seq(I.MAX_INBOX, _ => None))

  /** `decide_radio_inbound`, on the tables' slots. The result of the insert is discarded. */
  function Decide(t: Tables, sender: u16, ctr: u64, packet: Bytes): (r: Decision) {
    if I.Contains(t.inbox, sender, ctr) then Decision(t, WaitHost)
    else if |packet| > I.INBOX_PACKET_MAX || I.IsFull(t.inbox) then Decision(t, Drop)
    else
      var a := R.TableAccept(t.replay, sender, ctr);
      match a.admit
      case Fresh =>
        var inbox := match I.Insert(t.inbox, sender, ctr, packet) case Ok(s) => s case Err(_) => t.inbox;
        Decision(Tables(a.slots, inbox), Deliver)
      case Replay => Decision(Tables(a.slots, t.inbox), ReAck)
      case TableFull => Decision(Tables(a.slots, t.inbox), Drop)
  }

  method DecideRadioInbound(replay: R.ReplayTable, inbox: I.InboxTable, sender: u16, ctr: u64, packet: Bytes)
    returns (r: Inbound)
    requires replay.Valid() && inbox.Valid()
    modifies replay.slots, inbox.slots
    ensures inbox.Valid()
    ensures Decision(Tables(replay.slots[..], inbox.slots[..]), r)
         == Decide(old(Tables(replay.slots[..], inbox.slots[..])), sender, ctr, packet)
  {
    var i := Search.Scan(inbox.slots, I.PairIs(sender, ctr));
    if i < inbox.slots.Length {
      return WaitHost;
    }
    I.CountIsFull(inbox.slots[..]);
    var held := inbox.Len();
    if |packet| > I.INBOX_PACKET_MAX || held == I.MAX_INBOX {
      return Drop;
    }
    ghost var before := inbox.slots[..];
    var admit := replay.Accept(sender, ctr);
    assert inbox.slots[..] == before;
    match admit
    case Fresh =>
      ghost var accepted := replay.slots[..];
      var ignored := inbox.Put(sender, ctr, packet);
      assert replay.slots[..] == accepted;
      return Deliver;
    case Replay => return ReAck;
    case TableFull => return Drop;
  }

  /** Exactly when a frame is handed on, and exactly when it is dropped. */
  lemma DecisionMeaning(t: Tables, sender: u16, ctr: u64, packet: Bytes)
    requires R.Packed(t.replay)
    ensures var d := Decide(t, sender, ctr, packet);
            var held := I.Contains(t.inbox, sender, ctr);
            var room := |packet| <= I.INBOX_PACKET_MAX && !I.IsFull(t.inbox);
            var known := R.Find(t.replay, sender) < |t.replay|;
            var space := R.FreeSlot(t.replay) < |t.replay|;
            && (d.inbound == WaitHost <==> held)
            && (d.inbound == Deliver <==>
                !held && room && ctr >= 1 && (known || space) && !R.Refuses(t.replay, sender, ctr))
            && (d.inbound == Drop <==> !held && (!room || (!known && !space)))
            && (d.inbound != Deliver ==> d.tables == t)
  {
    if !I.Contains(t.inbox, sender, ctr) && |packet| <= I.INBOX_PACKET_MAX && !I.IsFull(t.inbox) {
      R.AnswerMeaning(t.replay, sender, ctr);
      R.AcceptRemembers(t.replay, sender, ctr, sender, ctr);
      var i := R.Find(t.replay, sender);
      if i < |t.replay| { W.AcceptMeaning(t.replay[i].value.window, ctr); }
    }
  }

  /** The discarded insert result is never a refusal. */
  lemma InsertNeverRefuses(t: Tables, sender: u16, ctr: u64, packet: Bytes)
    requires Decide(t, sender, ctr, packet).inbound == Deliver
    ensures I.Insert(t.inbox, sender, ctr, packet).Ok?
  {
  }

  // ---- Whole runs ----

  datatype Event = Arrival(sender: u16, ctr: u64, packet: Bytes) | HostTake(sender: u16, ctr: u64)

  /** The tables, with the pairs ever delivered and ever taken. */
  datatype World = World(tables: Tables, delivered: set<Pair>, taken: set<Pair>)

  const START := World(EMPTY_TABLES, {}, {})

  predicate Delivers(w: World, e: Event) {
    e.Arrival? && Decide(w.tables, e.sender, e.ctr, e.packet).inbound == Deliver
  }

  function Step(w: World, e: Event): (r: World) {
    match e
    case Arrival(s, c, packet) =>
      var d := Decide(w.tables, s, c, packet);
      World(d.tables, if d.inbound == Deliver then w.delivered + {(s, c)} else w.delivered, w.taken)
    case HostTake(s, c) =>
      World(w.tables.(inbox := I.Take(w.tables.inbox, s, c)), w.delivered,
            if I.Contains(w.tables.inbox, s, c) then w.taken + {(s, c)} else w.taken)
  }

  function After(w: World, events: seq<Event>): (r: World)
    decreases |events|
  {
    if events == [] then w else After(Step(w, events[0]), events[1..])
  }

  ghost predicate WellFormed(t: Tables) {
    && |t.replay| == R.MAX_REPLAY_SENDERS && |t.inbox| == I.MAX_INBOX
    && R.Packed(t.replay) && I.Distinct(t.inbox)
  }

  /** The tables know exactly what was delivered, and the inbox what of it was not taken. */
  ghost predicate Booked(w: World) {
    && (forall p <- w.delivered :: R.Refuses(w.tables.replay, p.0, p.1))
    && (forall s: u16, c: u64 :: R.Marked(w.tables.replay, s, c) ==> (s, c) in w.delivered)
    && (forall s: u16, c: u64 :: I.Contains(w.tables.inbox, s, c) <==> (s, c) in w.delivered - w.taken)
  }

  ghost predicate Inv(w: World) {
    && WellFormed(w.tables)
    && w.taken <= w.delivered
    && Booked(w)
  }

  lemma StartInv()
    ensures Inv(START)
  {
    forall s: u16, c: u64 ensures !I.Contains(START.tables.inbox, s, c) {
      I.ContainsMeans(START.tables.inbox, s, c);
    }
  }

  /** What one delivery changes for the pair `(n, k)`. */
  lemma DeliveryChanges(t: Tables, s: u16, c: u64, packet: Bytes, n: u16, k: u64)
    requires R.Packed(t.replay) && I.Distinct(t.inbox) && Decide(t, s, c, packet).inbound == Deliver
    ensures var v := Decide(t, s, c, packet).tables;
            var isNew := n == s && k == c;
            && (R.Marked(v.replay, n, k) ==> R.Marked(t.replay, n, k) || isNew)
            && (R.Refuses(t.replay, n, k) || isNew ==> R.Refuses(v.replay, n, k))
            && (I.Contains(v.inbox, n, k) <==> I.Contains(t.inbox, n, k) || isNew)
            && (isNew ==> !R.Refuses(t.replay, n, k))
  {
    DecisionMeaning(t, s, c, packet);
    R.AcceptRemembers(t.replay, s, c, n, k);
    I.InsertMeaning(t.inbox, s, c, packet, n, k);
  }

  lemma DeliveryKeepsBooks(w: World, v: World, s: u16, c: u64, packet: Bytes)
    requires WellFormed(w.tables) && w.taken <= w.delivered && Booked(w)
    requires Delivers(w, Arrival(s, c, packet)) && v == Step(w, Arrival(s, c, packet))
    ensures Booked(v)
  {
    forall n: u16, k: u64
      ensures R.Marked(v.tables.replay, n, k) ==> (n, k) in v.delivered
      ensures (n, k) in v.delivered ==> R.Refuses(v.tables.replay, n, k)
      ensures I.Contains(v.tables.inbox, n, k) <==> (n, k) in v.delivered - v.taken
    {
      var p: Pair := (n, k);
      assert p in w.delivered ==> R.Refuses(w.tables.replay, p.0, p.1);
      DeliveryChanges(w.tables, s, c, packet, n, k);
    }
  }

  lemma ArrivalInv(w: World, s: u16, c: u64, packet: Bytes)
    requires Inv(w)
    ensures Inv(Step(w, Arrival(s, c, packet)))
  {
    DecisionMeaning(w.tables, s, c, packet);
    if Delivers(w, Arrival(s, c, packet)) {
      R.AcceptKeepsPlaces(w.tables.replay, s, c);
      I.InsertMeaning(w.tables.inbox, s, c, packet, s, c);
      DeliveryKeepsBooks(w, Step(w, Arrival(s, c, packet)), s, c, packet);
    }
  }

  lemma TakeInv(w: World, s: u16, c: u64)
    requires Inv(w)
    ensures Inv(Step(w, HostTake(s, c)))
  {
    var v := Step(w, HostTake(s, c));
    I.TakeMeaning(w.tables.inbox, s, c, s, c);
    forall n: u16, k: u64
      ensures I.Contains(v.tables.inbox, n, k) <==> (n, k) in v.delivered - v.taken
    {
      I.TakeMeaning(w.tables.inbox, s, c, n, k);
    }
  }

  lemma StepInv(w: World, e: Event)
    requires Inv(w)
    ensures Inv(Step(w, e))
  {
    match e
    case Arrival(s, c, packet) => ArrivalInv(w, s, c, packet);
    case HostTake(s, c) => TakeInv(w, s, c);
  }

  lemma {:induction false} RunInv(w: World, events: seq<Event>)
    requires Inv(w)
    ensures Inv(After(w, events))
    ensures w.delivered <= After(w, events).delivered
    decreases |events|
  {
    if events != [] {
      StepInv(w, events[0]);
      RunInv(Step(w, events[0]), events[1..]);
    }
  }

  lemma {:induction false} RunSplits(w: World, a: seq<Event>, b: seq<Event>)
    ensures After(w, a + b) == After(After(w, a), b)
    decreases |a|
  {
    if a == [] {
      assert a + b == b;
    } else {
      assert (a + b)[1..] == a[1..] + b;
      RunSplits(Step(w, a[0]), a[1..], b);
    }
  }

  lemma PrefixRun(w: World, events: seq<Event>, i: nat, j: nat)
    requires i < j < |events|
    ensures After(w, events[..j]) == After(After(w, events[..i]), [events[i]] + events[i + 1..j])
  {
    RunSplits(w, events[..i], [events[i]] + events[i + 1..j]);
    assert events[..i] + ([events[i]] + events[i + 1..j]) == events[..j];
  }

  /** No run delivers the same pair at two different moments. */
  lemma DeliveredAtMostOnce(events: seq<Event>, i: nat, j: nat)
    requires i < j < |events|
    requires Delivers(After(START, events[..i]), events[i])
    requires events[j].Arrival? && events[j].sender == events[i].sender && events[j].ctr == events[i].ctr
    ensures !Delivers(After(START, events[..j]), events[j])
  {
    StartInv();
    RunInv(START, events[..i]);
    PrefixRun(START, events, i, j);
    var first, rest := events[i], events[i + 1..j];
    StepInv(After(START, events[..i]), first);
    RunInv(Step(After(START, events[..i]), first), rest);
    assert ([first] + rest)[1..] == rest;
    var w := After(START, events[..j]);
    DecisionMeaning(w.tables, events[j].sender, events[j].ctr, events[j].packet);
    assert (events[j].sender, events[j].ctr) in w.delivered;
  }

  /**
   The hand-over law in every reachable state: what was delivered is either
   still held or was taken, never both; and a re-ACK for a counter the window
   still reaches is only ever given for a pair the host took.
   */
  lemma HandoverLaw(events: seq<Event>, sender: u16, ctr: u64, packet: Bytes)
    ensures var w := After(START, events);
            && ((sender, ctr) in w.delivered <==>
                I.Contains(w.tables.inbox, sender, ctr) || (sender, ctr) in w.taken)
            && !(I.Contains(w.tables.inbox, sender, ctr) && (sender, ctr) in w.taken)
            && (Decide(w.tables, sender, ctr, packet).inbound == ReAck
                && ctr >= 1 && ctr + W.WINDOW_SIZE > R.Highest(w.tables.replay, sender)
                ==> (sender, ctr) in w.taken)
  {
    StartInv();
    RunInv(START, events);
    var w := After(START, events);
    DecisionMeaning(w.tables, sender, ctr, packet);
    if Decide(w.tables, sender, ctr, packet).inbound == ReAck {
      R.AnswerMeaning(w.tables.replay, sender, ctr);
      if ctr >= 1 && ctr + W.WINDOW_SIZE > R.Highest(w.tables.replay, sender) {
        R.RefusalInReachIsMarked(w.tables.replay, sender, ctr);
      }
    }
  }

  // ---- What is held is what was delivered ----

  /** The packets delivered so far, by pair, after one more event. */
  function AddParcel(w: World, e: Event, sent: map<Pair, Bytes>): (more: map<Pair, Bytes>) {
    if Delivers(w, e) then sent[(e.sender, e.ctr) := e.packet] else sent
  }

  function Parcels(w: World, events: seq<Event>, sent: map<Pair, Bytes>): (all: map<Pair, Bytes>)
    decreases |events|
  {
    if events == [] then sent
    else Parcels(Step(w, events[0]), events[1..], AddParcel(w, events[0], sent))
  }

  /** Each occupied slot holds its pair's packet, byte for byte. */
  ghost predicate HoldsParcels(inbox: seq<I.Slot>, sent: map<Pair, Bytes>) {
    forall i :: 0 <= i < |inbox| && inbox[i].Some? ==> HoldsParcel(inbox[i], sent)
  }

  ghost predicate HoldsParcel(slot: I.Slot, sent: map<Pair, Bytes>)
    requires slot.Some?
  {
    var p := (slot.value.sender, slot.value.ctr);
    p in sent && I.HoldsPacket(slot, p.0, p.1, sent[p])
  }

  lemma StepHoldsParcels(w: World, e: Event, sent: map<Pair, Bytes>)
    requires R.Packed(w.tables.replay) && HoldsParcels(w.tables.inbox, sent)
    ensures HoldsParcels(Step(w, e).tables.inbox, AddParcel(w, e, sent))
  {
    var was, now, more := w.tables.inbox, Step(w, e).tables.inbox, AddParcel(w, e, sent);
    if Delivers(w, e) {
      InsertNeverRefuses(w.tables, e.sender, e.ctr, e.packet);
      I.InsertHoldsThePacket(was, e.sender, e.ctr, e.packet);
      I.ContainsMeans(was, e.sender, e.ctr);
      var i: nat :| && I.FirstVacant(was, i) && I.HoldsPacket(now[i], e.sender, e.ctr, e.packet)
                    && now == was[i := now[i]];
      forall j | 0 <= j < |now| && j != i && now[j].Some? ensures HoldsParcel(now[j], more) {
        assert HoldsParcel(was[j], sent) && !I.Matches(was[j], e.sender, e.ctr);
      }
    } else if e.Arrival? {
      DecisionMeaning(w.tables, e.sender, e.ctr, e.packet);
    }
  }

  lemma {:induction false} RunHoldsParcels(w: World, events: seq<Event>, sent: map<Pair, Bytes>)
    requires Inv(w) && HoldsParcels(w.tables.inbox, sent) && sent.Keys == w.delivered
    ensures var end, all := After(w, events), Parcels(w, events, sent);
            HoldsParcels(end.tables.inbox, all) && all.Keys == end.delivered
    decreases |events|
  {
    if events != [] {
      var e := events[0];
      StepInv(w, e);
      StepHoldsParcels(w, e, sent);
      RunHoldsParcels(Step(w, e), events[1..], AddParcel(w, e, sent));
    }
  }

  /** Until the host takes it, a delivered pair's packet stands in the inbox byte for byte, and nothing else does. */
  lemma DeliveredPacketIsHeld(events: seq<Event>, p: Pair)
    ensures var w, sent := After(START, events), Parcels(START, events, map[]);
            && HoldsParcels(w.tables.inbox, sent)
            && (p in sent && p !in w.taken ==>
                exists i :: 0 <= i < |w.tables.inbox| && I.HoldsPacket(w.tables.inbox[i], p.0, p.1, sent[p]))
  {
    StartInv();
    RunInv(START, events);
    RunHoldsParcels(START, events, map[]);
    var w := After(START, events);
    I.ContainsMeans(w.tables.inbox, p.0, p.1);
  }

  /**
   The two exclusions in the law are needed, each for every value: once some
   counter of a sender was delivered and taken, a re-ACK is given for counter 0
   and for every counter the window no longer reaches, delivered or not.
   */
  lemma ReAckOutOfReach(s: u16, h: u64, packet: Bytes, c: u64, probe: Bytes)
    requires h >= 1 && |packet| <= I.INBOX_PACKET_MAX && |probe| <= I.INBOX_PACKET_MAX
    requires c == 0 || c + W.WINDOW_SIZE <= h
    ensures var w := After(START, [Arrival(s, h, packet), HostTake(s, h)]);
            && R.Highest(w.tables.replay, s) == h
            && Decide(w.tables, s, c, probe).inbound == ReAck
            && (s, c) !in w.delivered
  {
    var w1 := Step(START, Arrival(s, h, packet));
    var w := Step(w1, HostTake(s, h));
    AfterTwo(START, Arrival(s, h, packet), HostTake(s, h));
    AfterFirstDelivery(s, h, packet);
    StartInv();
    StepInv(START, Arrival(s, h, packet));
    W.AcceptMeaning(w.tables.replay[R.Find(w.tables.replay, s)].value.window, c);
    I.TakeMeaning(w1.tables.inbox, s, h, s, c);
    I.InsertMeaning(EMPTY_TABLES.inbox, s, h, packet, s, c);
    I.ContainsMeans(EMPTY_TABLES.inbox, s, c);
    assert I.VACANT(w.tables.inbox[I.Find(w1.tables.inbox, s, h)]);
    DecisionMeaning(w.tables, s, c, probe);
  }

  lemma AfterTwo(w: World, a: Event, b: Event)
    ensures After(w, [a, b]) == Step(Step(w, a), b)
  {
    assert [a, b][1..] == [b] && [b][1..] == [];
    assert After(Step(w, a), [b]) == After(Step(Step(w, a), b), []);
  }

  /** The world after the first packet of all. */
  lemma AfterFirstDelivery(s: u16, h: u64, packet: Bytes)
    requires h >= 1 && |packet| <= I.INBOX_PACKET_MAX
    ensures var w := Step(START, Arrival(s, h, packet));
            && w.delivered == {(s, h)}
            && I.Contains(w.tables.inbox, s, h)
            && R.Find(w.tables.replay, s) == 0 && R.Highest(w.tables.replay, s) == h
            && w.tables.inbox == I.Insert(EMPTY_TABLES.inbox, s, h, packet).value
  {
    EmptyTablesDeliver(s, h, packet);
    R.AcceptRemembers(EMPTY_TABLES.replay, s, h, s, h);
    I.InsertMeaning(EMPTY_TABLES.inbox, s, h, packet, s, h);
    W.AcceptMeaning(W.FRESH_WINDOW, h);
    var replay := R.TableAccept(EMPTY_TABLES.replay, s, h).slots;
    assert R.OwnedBy(s)(replay[0]);
  }

  lemma EmptyTablesDeliver(s: u16, c: u64, packet: Bytes)
    requires c >= 1 && |packet| <= I.INBOX_PACKET_MAX
    ensures Decide(EMPTY_TABLES, s, c, packet).inbound == Deliver
    ensures R.Find(EMPTY_TABLES.replay, s) == R.MAX_REPLAY_SENDERS && R.FreeSlot(EMPTY_TABLES.replay) == 0
  {
    var t := EMPTY_TABLES;
    I.ContainsMeans(t.inbox, s, c);
    assert I.VACANT(t.inbox[0]) && R.VACANT(t.replay[0]);
    forall i | 0 <= i < |t.replay| ensures !R.OwnedBy(s)(t.replay[i]) {}
    DecisionMeaning(t, s, c, packet);
  }

  // ---- The radio loop as it is wired ----

  /**
   The firmware's receive path offers each authenticated frame to the replay
   table itself, and only a `Fresh` one goes on to `Decide` when addressed here.
   */
  function RadioLoopFrame(t: Tables, sender: u16, ctr: u64, packet: Bytes): (r: Option<Decision>) {
    var a := R.TableAccept(t.replay, sender, ctr);
    if a.admit != R.Fresh then None
    else Some(Decide(Tables(a.slots, t.inbox), sender, ctr, packet))
  }

  /**
   With the counter already spent, the decision that follows can never be
   `Deliver`, whatever the tables hold: the inbox is left as it was, and a
   packet that fits is answered with a re-ACK although nobody ever held it.
   */
  lemma RadioLoopNeverDelivers(t: Tables, sender: u16, ctr: u64, packet: Bytes)
    requires R.Packed(t.replay)
    requires RadioLoopFrame(t, sender, ctr, packet).Some?
    ensures var d := RadioLoopFrame(t, sender, ctr, packet).value;
            && d.inbound != Deliver
            && d.tables.inbox == t.inbox
            && (d.inbound == ReAck <==>
                !I.Contains(t.inbox, sender, ctr) && |packet| <= I.INBOX_PACKET_MAX && !I.IsFull(t.inbox))
  {
    R.AcceptKeepsPlaces(t.replay, sender, ctr);
    R.AcceptRemembers(t.replay, sender, ctr, sender, ctr);
    var a := R.TableAccept(t.replay, sender, ctr);
    DecisionMeaning(Tables(a.slots, t.inbox), sender, ctr, packet);
  }

  /** The same frame, offered to `Decide` alone, is delivered exactly when it would be re-ACKed above. */
  lemma DecideAloneDelivers(t: Tables, sender: u16, ctr: u64, packet: Bytes)
    requires R.Packed(t.replay)
    requires RadioLoopFrame(t, sender, ctr, packet).Some?
    ensures Decide(t, sender, ctr, packet).inbound == Deliver <==>
            RadioLoopFrame(t, sender, ctr, packet).value.inbound == ReAck
  {
    RadioLoopNeverDelivers(t, sender, ctr, packet);
  }

  datatype RadioEvent = Frame(sender: u16, ctr: u64, packet: Bytes, addressed: bool) | Taken(sender: u16, ctr: u64)

  function RadioStep(t: Tables, e: RadioEvent): (v: Tables) {
    match e
    case Frame(s, c, packet, addressed) =>
      var d := RadioLoopFrame(t, s, c, packet);
      if d.Some? && addressed then d.value.tables else Tables(R.TableAccept(t.replay, s, c).slots, t.inbox)
    case Taken(s, c) => t.(inbox := I.Take(t.inbox, s, c))
  }

  function RadioRun(t: Tables, events: seq<RadioEvent>): (v: Tables)
    decreases |events|
  {
    if events == [] then t else RadioRun(RadioStep(t, events[0]), events[1..])
  }

  ghost predicate NothingHeld(inbox: seq<I.Slot>) { |inbox| > 0 && forall i :: 0 <= i < |inbox| ==> inbox[i].None? }

  /**
   As wired, the board never holds a packet: from an empty inbox no run of the
   radio loop ever delivers anything, and every fresh packet addressed here that
   would fit is re-ACKed to its sender at once.
   */
  lemma {:induction false} RadioLoopNeverHolds(t: Tables, events: seq<RadioEvent>, s: u16, c: u64, packet: Bytes)
    requires R.Packed(t.replay) && NothingHeld(t.inbox)
    ensures var v := RadioRun(t, events);
            && v.inbox == t.inbox
            && (R.TableAccept(v.replay, s, c).admit == R.Fresh && |packet| <= I.INBOX_PACKET_MAX ==>
                  RadioLoopFrame(v, s, c, packet).value.inbound == ReAck)
    decreases |events|
  {
    if events == [] {
      if R.TableAccept(t.replay, s, c).admit == R.Fresh {
        RadioLoopNeverDelivers(t, s, c, packet);
        I.ContainsMeans(t.inbox, s, c);
        assert I.VACANT(t.inbox[0]);
      }
    } else {
      RadioStepHoldsNothing(t, events[0]);
      RadioLoopNeverHolds(RadioStep(t, events[0]), events[1..], s, c, packet);
    }
  }

  lemma RadioStepHoldsNothing(t: Tables, e: RadioEvent)
    requires R.Packed(t.replay) && NothingHeld(t.inbox)
    ensures R.Packed(RadioStep(t, e).replay) && RadioStep(t, e).inbox == t.inbox
  {
    match e
    case Frame(s, c, packet, addressed) =>
      R.AcceptKeepsPlaces(t.replay, s, c);
      if RadioLoopFrame(t, s, c, packet).Some? {
        R.AcceptKeepsPlaces(R.TableAccept(t.replay, s, c).slots, s, c);
        RadioLoopNeverDelivers(t, s, c, packet);
      }
    case Taken(s, c) => I.ContainsMeans(t.inbox, s, c);
  }

  /** Concretely: the first packet a new board ever hears. */
  lemma FirstPacketIsReAckedUnheld(s: u16, c: u64, packet: Bytes)
    requires c >= 1 && |packet| <= I.INBOX_PACKET_MAX
    ensures RadioLoopFrame(EMPTY_TABLES, s, c, packet).Some?
    ensures RadioLoopFrame(EMPTY_TABLES, s, c, packet).value.inbound == ReAck
    ensures NothingHeld(RadioLoopFrame(EMPTY_TABLES, s, c, packet).value.tables.inbox)
  {
    DecideAloneDelivers(EMPTY_TABLES, s, c, packet);
    RadioLoopNeverDelivers(EMPTY_TABLES, s, c, packet);
  }
}
