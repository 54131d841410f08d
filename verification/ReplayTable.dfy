/**
 The never-evict table of replay windows, one slot per sender, and the 18-byte
 record a slot is saved as. The table steps are functions on the slot sequence;
 the class runs them in place on its array.
 */
module ReplayTables {
  import opened Words
  import opened Search
  import opened ReplayWindows

  const MAX_REPLAY_SENDERS: nat := 16
  const REPLAY_SLOT_BYTES: nat := 18

  datatype Entry = Entry(nodeId: u16, window: Window)
  type Slot = Option<Entry>
  datatype Admit = Fresh | Replay | TableFull

  predicate Belongs(slot: Slot, nodeId: u16) {
    slot.Some? && slot.value.nodeId == nodeId
  }

  function OwnedBy(nodeId: u16): (r: Slot -> bool) { (slot: Slot) => Belongs(slot, nodeId) }
  const VACANT: Slot -> bool := (slot: Slot) => slot.None?

  function Find(slots: seq<Slot>, nodeId: u16): (r: nat) { First(slots, OwnedBy(nodeId)) }
  function FreeSlot(slots: seq<Slot>): (r: nat) { First(slots, VACANT) }

  datatype Admission = Admission(slots: seq<Slot>, admit: Admit)

  /** `ReplayTable::accept`, on the slots. */
  function TableAccept(slots: seq<Slot>, nodeId: u16, ctr: u64): (r: Admission)
    ensures |r.slots| == |slots|
  {
    var i := Find(slots, nodeId);
    if i < |slots| then
      var v := Accept(slots[i].value.window, ctr);
      Admission(slots[i := Some(Entry(nodeId, v.window))], if v.admitted then Fresh else Replay)
    else
      var f := FreeSlot(slots);
      if f == |slots| then Admission(slots, TableFull)
      else
        var v := Accept(FRESH_WINDOW, ctr);
        if v.admitted then Admission(slots[f := Some(Entry(nodeId, v.window))], Fresh)
        else Admission(slots, Replay)
  }

  // ---- What the table remembers ----

  /** The table has a slot for `nodeId`, and its window marks `ctr` as accepted. */
  ghost predicate Marked(slots: seq<Slot>, nodeId: u16, ctr: u64) {
    var i := Find(slots, nodeId);
    i < |slots| && Seen(slots[i].value.window, ctr)
  }

  /** Offering the pair again cannot be answered `Fresh`. */
  ghost predicate Refuses(slots: seq<Slot>, nodeId: u16, ctr: u64) {
    var i := Find(slots, nodeId);
    i < |slots| && Rejects(slots[i].value.window, ctr)
  }

  /** The highest counter accepted from `nodeId`; 0 for a sender not in the table. */
  ghost function Highest(slots: seq<Slot>, nodeId: u16): (r: u64) {
    var i := Find(slots, nodeId);
    if i < |slots| then slots[i].value.window.highest else 0
  }

  /** Senders fill a prefix of the slots, each once. */
  ghost predicate Packed(slots: seq<Slot>) {
    && (forall i, j :: 0 <= i <= j < |slots| && slots[j].Some? ==> slots[i].Some?)
    && (forall i, j :: 0 <= i < j < |slots| && slots[i].Some? && slots[j].Some? ==>
          slots[i].value.nodeId != slots[j].value.nodeId)
  }

  /** `later` has every sender of `earlier` in the same slot. */
  ghost predicate SendersStay(earlier: seq<Slot>, later: seq<Slot>) {
    && |earlier| == |later|
    && forall i :: 0 <= i < |earlier| && earlier[i].Some? ==>
         later[i].Some? && later[i].value.nodeId == earlier[i].value.nodeId
  }

  lemma FindIs(slots: seq<Slot>, nodeId: u16, i: nat)
    requires Packed(slots) && i < |slots| && Belongs(slots[i], nodeId)
    ensures Find(slots, nodeId) == i
  {
    FirstIs(slots, OwnedBy(nodeId), i);
  }

  /** Slots stay packed and no sender ever moves. */
  lemma AcceptKeepsPlaces(slots: seq<Slot>, nodeId: u16, ctr: u64)
    requires Packed(slots)
    ensures Packed(TableAccept(slots, nodeId, ctr).slots)
    ensures SendersStay(slots, TableAccept(slots, nodeId, ctr).slots)
  {
    var i := Find(slots, nodeId);
    var f := FreeSlot(slots);
    if i == |slots| && f < |slots| {
      assert VACANT(slots[f]);
      forall j | f <= j < |slots| ensures slots[j].None? {}
      forall j | 0 <= j < f ensures slots[j].Some? && slots[j].value.nodeId != nodeId {
        assert !VACANT(slots[j]);
        assert !OwnedBy(nodeId)(slots[j]);
      }
    }
  }

  /** `Fresh` marks the pair; nothing else becomes marked, and no refusal is ever lifted. */
  lemma AcceptRemembers(slots: seq<Slot>, nodeId: u16, ctr: u64, n: u16, c: u64)
    requires Packed(slots)
    ensures var r := TableAccept(slots, nodeId, ctr);
            && (r.admit == Fresh ==> Marked(r.slots, nodeId, ctr) && Refuses(r.slots, nodeId, ctr))
            && (r.admit != Fresh ==> r.slots == slots)
            && (Marked(r.slots, n, c) ==> Marked(slots, n, c) || (r.admit == Fresh && n == nodeId && c == ctr))
            && (Refuses(slots, n, c) ==> Refuses(r.slots, n, c))
  {
    var r := TableAccept(slots, nodeId, ctr);
    AcceptKeepsPlaces(slots, nodeId, ctr);
    var i := Find(slots, nodeId);
    var w := if i < |slots| then slots[i].value.window else FRESH_WINDOW;
    AcceptMeaning(w, ctr);
    if r.admit == Fresh {
      var k := if i < |slots| then i else FreeSlot(slots);
      FindIs(r.slots, nodeId, k);
      AcceptedThenRejected(w, ctr);
      if n == nodeId {
        if i < |slots| && Rejects(w, c) { RejectionIsPermanent(w, c, ctr); }
      } else if Find(slots, n) < |slots| {
      } else {
      }
    }
  }

  /** When each answer is given. */
  lemma AnswerMeaning(slots: seq<Slot>, nodeId: u16, ctr: u64)
    ensures var r := TableAccept(slots, nodeId, ctr).admit;
            && (r == Replay <==>
                Refuses(slots, nodeId, ctr)
                || (Find(slots, nodeId) == |slots| && FreeSlot(slots) < |slots| && ctr == 0))
            && (r == TableFull <==> Find(slots, nodeId) == |slots| && FreeSlot(slots) == |slots|)
  {
    AcceptMeaning(FRESH_WINDOW, ctr);
  }

  /** Inside the window's reach a refusal means the very pair was accepted before. */
  lemma RefusalInReachIsMarked(slots: seq<Slot>, nodeId: u16, ctr: u64)
    requires ctr >= 1 && ctr + WINDOW_SIZE > Highest(slots, nodeId)
    requires Refuses(slots, nodeId, ctr)
    ensures Marked(slots, nodeId, ctr)
  {
    AcceptMeaning(slots[Find(slots, nodeId)].value.window, ctr);
  }

  // ---- The flash record ----

  function EncodeSlot(e: Entry): (b: Bytes)
    ensures |b| == REPLAY_SLOT_BYTES
  {
    LeBytes(e.nodeId, 2) + LeBytes(e.window.highest, 8) + LeBytes(e.window.bitmap, 8)
  }

  function DecodeSlot(bytes: Bytes): (r: Slot) {
    if |bytes| < REPLAY_SLOT_BYTES then None
    else Some(Entry(Read16(bytes[0..2]), Window(Read64(bytes[2..10]), Read64(bytes[10..18]))))
  }

  lemma SlotRoundTrip(e: Entry)
    ensures DecodeSlot(EncodeSlot(e)) == Some(e)
  {
    var b := EncodeSlot(e);
    assert b[0..2] == LeBytes(e.nodeId, 2);
    assert b[2..10] == LeBytes(e.window.highest, 8);
    assert b[10..18] == LeBytes(e.window.bitmap, 8);
    RoundTrip16(e.nodeId);
    RoundTrip64(e.window.highest);
    RoundTrip64(e.window.bitmap);
  }

  /** `ReplayTable::load_slot`, on the slots: `None` when the record cannot be restored. */
  function LoadSlot(slots: seq<Slot>, bytes: Bytes): (r: Option<seq<Slot>>)
    ensures r.Some? ==> |r.value| == |slots|
  {
    match DecodeSlot(bytes)
    case None => None
    case Some(e) =>
      if Find(slots, e.nodeId) < |slots| then Some(slots)
      else if FreeSlot(slots) < |slots| then Some(slots[FreeSlot(slots) := Some(e)])
      else None
  }

  /** A record is refused when short or when its sender is new to a full table; a known sender keeps its window. */
  lemma LoadMeaning(slots: seq<Slot>, bytes: Bytes)
    ensures var r := LoadSlot(slots, bytes);
            if |bytes| < 18 then r == None
            else
              var e := DecodeSlot(bytes).value;
              if exists i :: 0 <= i < |slots| && Belongs(slots[i], e.nodeId) then r == Some(slots)
              else if forall i :: 0 <= i < |slots| ==> slots[i].Some? then r == None
              else exists i: nat :: FirstVacant(slots, i) && r == Some(slots[i := Some(e)])
  {
    if |bytes| >= 18 {
      var e := DecodeSlot(bytes).value;
      var i, f := Find(slots, e.nodeId), FreeSlot(slots);
      if i < |slots| { assert OwnedBy(e.nodeId)(slots[i]); }
      assert forall j :: 0 <= j < i ==> !OwnedBy(e.nodeId)(slots[j]);
      if f < |slots| { assert VACANT(slots[f]); }
      assert forall j :: 0 <= j < f ==> !VACANT(slots[j]);
      assert f < |slots| ==> FirstVacant(slots, f);
    }
  }

  predicate FirstVacant(slots: seq<Slot>, i: nat) {
    i < |slots| && slots[i].None? && forall j :: 0 <= j < i ==> slots[j].Some?
  }

  class ReplayTable {
    const slots: array<Slot>

    ghost predicate Valid() { slots.Length == MAX_REPLAY_SENDERS }

    constructor ()
      ensures Valid() && fresh(slots)
      ensures slots[..] == seq(MAX_REPLAY_SENDERS, _ => None)
    {
      slots := new Slot[MAX_REPLAY_SENDERS](_ => None);
    }

    method Accept(nodeId: u16, ctr: u64) returns (admit: Admit)
      modifies slots
      ensures Admission(slots[..], admit) == TableAccept(old(slots[..]), nodeId, ctr)
    {
      var i := Scan(slots, OwnedBy(nodeId));
      if i < slots.Length {
        var w := new ReplayWindow.FromParts(slots[i].value.window);
        var admitted := w.CheckAndAccept(ctr);
        slots[i] := Some(Entry(nodeId, w.Parts()));
        return if admitted then Fresh else Replay;
      }
      var f := Scan(slots, VACANT);
      if f == slots.Length {
        return TableFull;
      }
      var w := new ReplayWindow();
      var admitted := w.CheckAndAccept(ctr);
      if !admitted {
        return Replay;
      }
      slots[f] := Some(Entry(nodeId, w.Parts()));
      return Fresh;
    }

    method Load(bytes: Bytes) returns (ok: bool)
      modifies slots
      ensures var r := LoadSlot(old(slots[..]), bytes);
              ok == r.Some? && slots[..] == if ok then r.value else old(slots[..])
    {
      var decoded := DecodeSlot(bytes);
      if decoded.None? {
        return false;
      }
      var owner := Scan(slots, OwnedBy(decoded.value.nodeId));
      if owner < slots.Length {
        return true;
      }
      var f := Scan(slots, VACANT);
      if f == slots.Length {
        return false;
      }
      slots[f] := decoded;
      return true;
    }

    /** The record for slot `i`; a vacant slot has none. */
    method Encode(i: nat) returns (record: Option<Bytes>)
      ensures record == RecordAt(slots[..], i)
    {
      if i >= slots.Length || slots[i].None? {
        return None;
      }
      return Some(EncodeSlot(slots[i].value));
    }
  }

  function RecordAt(slots: seq<Slot>, i: nat): (r: Option<Bytes>) {
    if i < |slots| && slots[i].Some? then Some(EncodeSlot(slots[i].value)) else None
  }
}
