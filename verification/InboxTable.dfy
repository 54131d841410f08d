/**
 The inbox: addressed packets held until the host takes them, and the 268-byte
 record each slot is saved as. A vacant slot is saved as a zeroed tombstone, so
 that saving erases what was taken.
 */
module InboxTables {
  import opened Words
  import opened Search

  const MAX_INBOX: nat := 8
  const INBOX_PACKET_MAX: nat := 256
  const INBOX_SLOT_BYTES: nat := 268

  datatype Held = Held(sender: u16, ctr: u64, len: u16, bytes: Bytes)
  type Slot = Option<Held>
  datatype Refusal = Full | TooLarge

  /** `InboxSlot::packet`: the first `len` bytes, cut at the buffer's end. */
  function Packet(e: Held): (r: Bytes)
    requires |e.bytes| == INBOX_PACKET_MAX
  {
    e.bytes[..if e.len < INBOX_PACKET_MAX then e.len else INBOX_PACKET_MAX]
  }

  function MakeHeld(sender: u16, ctr: u64, packet: Bytes): (r: Held)
    requires |packet| <= INBOX_PACKET_MAX
  {
    Held(sender, ctr, |packet|, packet + Zeros(INBOX_PACKET_MAX - |packet|))
  }

  /** Every slot the table ever holds is a packet with a zero-filled tail. */
  ghost predicate WellFormed(e: Held) {
    && |e.bytes| == INBOX_PACKET_MAX && e.len <= INBOX_PACKET_MAX
    && e == MakeHeld(e.sender, e.ctr, Packet(e))
  }

  ghost predicate AllWellFormed(slots: seq<Slot>) {
    forall i :: 0 <= i < |slots| && slots[i].Some? ==> WellFormed(slots[i].value)
  }

  predicate Matches(slot: Slot, sender: u16, ctr: u64) {
    slot.Some? && slot.value.sender == sender && slot.value.ctr == ctr
  }

  function PairIs(sender: u16, ctr: u64): (r: Slot -> bool) { (slot: Slot) => Matches(slot, sender, ctr) }
  const VACANT: Slot -> bool := (slot: Slot) => slot.None?

  function Find(slots: seq<Slot>, sender: u16, ctr: u64): (r: nat) { First(slots, PairIs(sender, ctr)) }
  function FreeSlot(slots: seq<Slot>): (r: nat) { First(slots, VACANT) }

  predicate Contains(slots: seq<Slot>, sender: u16, ctr: u64) { Find(slots, sender, ctr) < |slots| }
  predicate IsFull(slots: seq<Slot>) { FreeSlot(slots) == |slots| }

  function HeldCount(slots: seq<Slot>): (n: nat)
    ensures n <= |slots|
  {
    if slots == [] then 0
    else HeldCount(slots[..|slots| - 1]) + if slots[|slots| - 1].Some? then 1 else 0
  }

  /** Counting to capacity is the same test as finding no vacant slot. */
  lemma {:induction false} CountIsFull(slots: seq<Slot>)
    ensures HeldCount(slots) == |slots| <==> forall i :: 0 <= i < |slots| ==> slots[i].Some?
    ensures HeldCount(slots) == |slots| <==> IsFull(slots)
  {
    if slots != [] {
      CountIsFull(slots[..|slots| - 1]);
    }
    var f := FreeSlot(slots);
    assert f < |slots| ==> VACANT(slots[f]);
    assert forall j :: 0 <= j < f ==> !VACANT(slots[j]);
  }

  /** `InboxTable::insert`, on the slots. */
  function Insert(slots: seq<Slot>, sender: u16, ctr: u64, packet: Bytes): (r: Result<seq<Slot>, Refusal>)
    ensures r.Ok? ==> |r.value| == |slots|
  {
    if |packet| > INBOX_PACKET_MAX then Err(TooLarge)
    else if Contains(slots, sender, ctr) then Ok(slots)
    else if IsFull(slots) then Err(Full)
    else Ok(slots[FreeSlot(slots) := Some(MakeHeld(sender, ctr, packet))])
  }

  /** `InboxTable::take`, on the slots. */
  function Take(slots: seq<Slot>, sender: u16, ctr: u64): (r: seq<Slot>)
    ensures |r| == |slots|
  {
    var i := Find(slots, sender, ctr);
    if i < |slots| then slots[i := None] else slots
  }

  /** Slots are well formed and no pair is held twice. */
  ghost predicate Distinct(slots: seq<Slot>) {
    && AllWellFormed(slots)
    && (forall i, j :: 0 <= i < j < |slots| && slots[i].Some? && slots[j].Some? ==>
          !Matches(slots[i], slots[j].value.sender, slots[j].value.ctr))
  }

  /** A pair is contained exactly when some slot holds it. */
  lemma ContainsMeans(slots: seq<Slot>, sender: u16, ctr: u64)
    ensures Contains(slots, sender, ctr) <==> exists i :: 0 <= i < |slots| && Matches(slots[i], sender, ctr)
  {
    var k := Find(slots, sender, ctr);
    if k == |slots| {
      forall i | 0 <= i < |slots| ensures !Matches(slots[i], sender, ctr) {
        assert !PairIs(sender, ctr)(slots[i]);
      }
    } else {
      assert PairIs(sender, ctr)(slots[k]);
    }
  }

  lemma InsertMeaning(slots: seq<Slot>, sender: u16, ctr: u64, packet: Bytes, s: u16, c: u64)
    requires Distinct(slots) && Insert(slots, sender, ctr, packet).Ok?
    ensures var r := Insert(slots, sender, ctr, packet).value;
            && Distinct(r)
            && (Contains(r, s, c) <==> Contains(slots, s, c) || (s == sender && c == ctr))
  {
    var r := Insert(slots, sender, ctr, packet).value;
    ContainsMeans(slots, sender, ctr);
    ContainsMeans(slots, s, c);
    ContainsMeans(r, s, c);
    var f := FreeSlot(slots);
    if !Contains(slots, sender, ctr) {
      assert VACANT(slots[f]);
      assert Matches(r[f], sender, ctr);
      assert forall i :: 0 <= i < |slots| && i != f ==> r[i] == slots[i];
      if Contains(slots, s, c) {
        var i :| 0 <= i < |slots| && Matches(slots[i], s, c);
        assert Matches(r[i], s, c);
      }
    }
  }

  /** The slot holds this packet for this pair, byte for byte. */
  predicate HoldsPacket(slot: Slot, sender: u16, ctr: u64, packet: Bytes) {
    && slot.Some? && slot.value.sender == sender && slot.value.ctr == ctr
    && slot.value.len == |packet| <= |slot.value.bytes|
    && slot.value.bytes[..|packet|] == packet
  }

  /** A new pair that is not refused is held, byte for byte, in the first vacant slot; no other slot changes. */
  lemma InsertHoldsThePacket(slots: seq<Slot>, sender: u16, ctr: u64, packet: Bytes)
    ensures match Insert(slots, sender, ctr, packet)
            case Err(TooLarge) => |packet| > 256
            case Err(Full) => |packet| <= 256 && forall i :: 0 <= i < |slots| ==> slots[i].Some?
            case Ok(r) =>
              |packet| <= 256 &&
              if exists i :: 0 <= i < |slots| && Matches(slots[i], sender, ctr) then r == slots
              else exists i: nat ::
                     FirstVacant(slots, i) && HoldsPacket(r[i], sender, ctr, packet) && r == slots[i := r[i]]
  {
    ContainsMeans(slots, sender, ctr);
    var f := FreeSlot(slots);
    if f < |slots| { assert VACANT(slots[f]); }
    assert forall j :: 0 <= j < f ==> !VACANT(slots[j]);
    if |packet| <= INBOX_PACKET_MAX && !Contains(slots, sender, ctr) && f < |slots| {
      var r := Insert(slots, sender, ctr, packet).value;
      assert FirstVacant(slots, f) && HoldsPacket(r[f], sender, ctr, packet);
    }
  }

  predicate FirstVacant(slots: seq<Slot>, i: nat) {
    i < |slots| && slots[i].None? && forall j :: 0 <= j < i ==> slots[j].Some?
  }

  lemma TakeMeaning(slots: seq<Slot>, sender: u16, ctr: u64, s: u16, c: u64)
    requires Distinct(slots)
    ensures Distinct(Take(slots, sender, ctr))
    ensures Contains(Take(slots, sender, ctr), s, c) <==> Contains(slots, s, c) && !(s == sender && c == ctr)
  {
    var r := Take(slots, sender, ctr);
    ContainsMeans(slots, s, c);
    ContainsMeans(r, s, c);
    ContainsMeans(slots, sender, ctr);
    var k := Find(slots, sender, ctr);
    if k < |slots| {
      assert PairIs(sender, ctr)(slots[k]);
      assert forall i :: 0 <= i < |slots| && i != k ==> r[i] == slots[i];
    }
  }

  // ---- The flash record ----

  function EncodeSlot(e: Held): (b: Bytes)
    requires |e.bytes| == INBOX_PACKET_MAX && e.len <= INBOX_PACKET_MAX
    ensures |b| == INBOX_SLOT_BYTES
  {
    LeBytes(e.sender, 2) + LeBytes(e.ctr, 8) + LeBytes(e.len, 2) + e.bytes[..e.len] + Zeros(INBOX_PACKET_MAX - e.len)
  }

  function DecodeSlot(bytes: Bytes): (slot: Slot)
    ensures slot.Some? ==> slot.value.len <= INBOX_PACKET_MAX && |slot.value.bytes| == INBOX_PACKET_MAX
  {
    if |bytes| < 12 then None
    else
      var len := Read16(bytes[10..12]);
      if len > INBOX_PACKET_MAX then None
      else if |bytes| < 12 + len then None
      else Some(Held(Read16(bytes[0..2]), Read64(bytes[2..10]), len,
                     bytes[12..12 + len] + Zeros(INBOX_PACKET_MAX - len)))
  }

  lemma SlotRoundTrip(e: Held)
    requires WellFormed(e)
    ensures DecodeSlot(EncodeSlot(e)) == Some(e)
  {
    var b := EncodeSlot(e);
    assert b[0..2] == LeBytes(e.sender, 2);
    assert b[2..10] == LeBytes(e.ctr, 8);
    assert b[10..12] == LeBytes(e.len, 2);
    assert b[12..12 + e.len] == e.bytes[..e.len];
    RoundTrip16(e.sender);
    RoundTrip64(e.ctr);
    RoundTrip16(e.len);
  }

  const TOMBSTONE: Bytes := Zeros(INBOX_SLOT_BYTES)

  lemma TombstoneIsEmpty()
    ensures DecodeSlot(TOMBSTONE).Some? && DecodeSlot(TOMBSTONE).value.len == 0
  {
    assert TOMBSTONE[10..12] == [0, 0];
    assert LeValue([0, 0]) == 0 by { assert [0, 0][1..] == [0]; assert LeValue([0]) == 0; }
  }

  /** The record for slot `i`: always one, so a taken slot overwrites its flash copy. */
  function RecordOf(slot: Slot): (r: Bytes)
    requires slot.Some? ==> |slot.value.bytes| == INBOX_PACKET_MAX && slot.value.len <= INBOX_PACKET_MAX
  {
    match slot
    case Some(e) => EncodeSlot(e)
    case None => TOMBSTONE
  }

  /** `InboxTable::load_slot`, on the slots; a zero length is a tombstone and loads as nothing. */
  function LoadSlot(slots: seq<Slot>, bytes: Bytes): (r: Option<seq<Slot>>)
    ensures r.Some? ==> |r.value| == |slots|
  {
    match DecodeSlot(bytes)
    case None => None
    case Some(e) =>
      if e.len == 0 then Some(slots)
      else
        match Insert(slots, e.sender, e.ctr, Packet(e))
        case Ok(t) => Some(t)
        case Err(_) => None
  }

  class InboxTable {
    const slots: array<Slot>

    ghost predicate Valid()
      reads slots
    {
      slots.Length == MAX_INBOX && Distinct(slots[..])
    }

    constructor ()
      ensures Valid() && fresh(slots)
      ensures slots[..] == seq(MAX_INBOX, _ => None)
    {
      slots := new Slot[MAX_INBOX](_ => None);
    }

    method Len() returns (n: nat)
      ensures n == HeldCount(slots[..])
    {
      n := 0;
      var i := 0;
      while i < slots.Length
        invariant i <= slots.Length
        invariant n == HeldCount(slots[..i])
      {
        assert slots[..i + 1][..i] == slots[..i];
        if slots[i].Some? {
          n := n + 1;
        }
        i := i + 1;
      }
      assert slots[..i] == slots[..];
    }

    method Put(sender: u16, ctr: u64, packet: Bytes) returns (r: Result<(), Refusal>)
      requires Valid()
      modifies slots
      ensures Valid()
      ensures var want := Insert(old(slots[..]), sender, ctr, packet);
              match want
              case Ok(t) => r == Ok(()) && slots[..] == t
              case Err(e) => r == Err(e) && slots[..] == old(slots[..])
    {
      ghost var was := slots[..];
      if |packet| > INBOX_PACKET_MAX {
        return Err(TooLarge);
      }
      var i := Scan(slots, PairIs(sender, ctr));
      if i < slots.Length {
        return Ok(());
      }
      var f := Scan(slots, VACANT);
      if f == slots.Length {
        return Err(Full);
      }
      InsertMeaning(was, sender, ctr, packet, sender, ctr);
      slots[f] := Some(MakeHeld(sender, ctr, packet));
      return Ok(());
    }

    method Remove(sender: u16, ctr: u64) returns (taken: Option<Held>)
      requires Valid()
      modifies slots
      ensures Valid()
      ensures slots[..] == Take(old(slots[..]), sender, ctr)
      ensures taken.Some? <==> Contains(old(slots[..]), sender, ctr)
      ensures taken.Some? ==> taken in old(slots[..]) && Matches(taken, sender, ctr)
    {
      TakeMeaning(slots[..], sender, ctr, sender, ctr);
      var i := Scan(slots, PairIs(sender, ctr));
      if i == slots.Length {
        return None;
      }
      assert PairIs(sender, ctr)(slots[..][i]);
      taken := slots[i];
      slots[i] := None;
    }

    method Encode(i: nat) returns (record: Option<Bytes>)
      requires Valid()
      ensures record == if i < MAX_INBOX then Some(RecordOf(slots[i])) else None
    {
      if i >= slots.Length {
        return None;
      }
      return Some(RecordOf(slots[i]));
    }

    method Load(bytes: Bytes) returns (ok: bool)
      requires Valid()
      modifies slots
      ensures Valid()
      ensures var r := LoadSlot(old(slots[..]), bytes);
              ok == r.Some? && slots[..] == if ok then r.value else old(slots[..])
    {
      var decoded := DecodeSlot(bytes);
      if decoded.None? {
        return false;
      }
      var e := decoded.value;
      if e.len == 0 {
        return true;
      }
      var r := Put(e.sender, e.ctr, Packet(e));
      return r.Ok?;
    }
  }
}
