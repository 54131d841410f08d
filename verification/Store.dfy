/**
 The board's flash store: one record per key, written one at a time. A write
 that fails, or a power cut, leaves every earlier record of the same save
 written and every later one as it was; `failAt` is the slot where that happens
 (past the last slot when the save completes).
 */
module Stores {
  import opened Words
  import R = ReplayTables
  import I = InboxTables
  import Search

  const KEY_CTR_HW: nat := 2
  const KEY_REPLAY_BASE: nat := 16
  const KEY_INBOX_BASE: nat := 48
  const CTR_RESERVATION: u64 := 1024

  datatype Record = Readable(bytes: Bytes) | Torn
  type Bank = seq<Option<Record>>

  /** The `n` records from key `base` on. */
  function BankOf(records: map<nat, Record>, base: nat, n: nat): (bank: Bank)
    ensures |bank| == n
  {
    seq(n, i requires i >= 0 => if base + i in records then Some(records[base + i]) else None)
  }

  // ---- What a load makes of a bank ----

  function LoadInboxFrom(bank: Bank, k: nat): (r: Option<seq<I.Slot>>)
    requires k <= |bank|
    ensures r.Some? ==> |r.value| == I.MAX_INBOX
  {
    if k == 0 then Some(seq(I.MAX_INBOX, _ => None))
    else
      match LoadInboxFrom(bank, k - 1)
      case None => None
      case Some(t) => LoadInboxRecord(t, bank[k - 1])
  }

  /** What one inbox record makes of the table; an absent one leaves it alone. */
  function LoadInboxRecord(t: seq<I.Slot>, record: Option<Record>): (r: Option<seq<I.Slot>>)
    ensures r.Some? ==> |r.value| == |t|
  {
    match record
    case None => Some(t)
    case Some(Torn) => None
    case Some(Readable(b)) => I.LoadSlot(t, b)
  }

  function LoadReplayFrom(bank: Bank, k: nat): (r: Option<seq<R.Slot>>)
    requires k <= |bank|
    ensures r.Some? ==> |r.value| == R.MAX_REPLAY_SENDERS
  {
    if k == 0 then Some(seq(R.MAX_REPLAY_SENDERS, _ => None))
    else
      match LoadReplayFrom(bank, k - 1)
      case None => None
      case Some(t) =>
        match bank[k - 1]
        case None => Some(t)
        case Some(Torn) => None
        case Some(Readable(b)) => if |b| == R.REPLAY_SLOT_BYTES then R.LoadSlot(t, b) else None
  }

  // ---- Flash banks as logical slots ----

  /** What the first `k` slots of a save leave in the bank, for records present in `slots`. */
  function Overwrite<T>(bank: seq<Option<T>>, slots: seq<Option<T>>, k: nat): (r: seq<Option<T>>)
    requires |bank| == |slots|
    ensures |r| == |bank|
  {
    seq(|bank|, i requires 0 <= i < |bank| => if i < k && slots[i].Some? then slots[i] else bank[i])
  }

  /** Writing one record changes one place of its bank. */
  lemma BankAfterWrite(records: map<nat, Record>, base: nat, n: nat, k: nat, r: Record)
    requires k < n
    ensures BankOf(records[base + k := r], base, n) == BankOf(records, base, n)[k := Some(r)]
  {
  }

  lemma OverwriteNext<T>(bank: seq<Option<T>>, slots: seq<Option<T>>, k: nat)
    requires |bank| == |slots| && k < |slots|
    ensures Overwrite(bank, slots, k + 1) ==
            if slots[k].Some? then Overwrite(bank, slots, k)[k := slots[k]] else Overwrite(bank, slots, k)
  {
  }

  function InboxRecords(slots: seq<I.Slot>): (bank: Bank)
    requires I.AllWellFormed(slots)
    ensures |bank| == |slots|
  {
    seq(|slots|, i requires 0 <= i < |slots| && (slots[i].Some? ==> I.WellFormed(slots[i].value)) =>
      Some(Readable(I.RecordOf(slots[i]))))
  }

  function ReplayRecords(slots: seq<R.Slot>): (bank: Bank)
    ensures |bank| == |slots|
  {
    seq(|slots|, i requires 0 <= i < |slots| =>
      if slots[i].Some? then Some(Readable(R.EncodeSlot(slots[i].value))) else None)
  }

  /** The bank holds exactly these inbox slots; absent records and tombstones are both vacant. */
  ghost predicate HoldsInbox(bank: Bank, slots: seq<I.Slot>) {
    && |bank| == |slots| == I.MAX_INBOX
    && I.AllWellFormed(slots)
    && forall i :: 0 <= i < |bank| ==>
         (bank[i].None? && slots[i].None?) || bank[i] == Some(Readable(I.RecordOf(slots[i])))
  }

  ghost predicate HoldsReplay(bank: Bank, slots: seq<R.Slot>) {
    && |bank| == |slots| == R.MAX_REPLAY_SENDERS
    && forall i :: 0 <= i < |bank| ==>
         bank[i] == if slots[i].Some? then Some(Readable(R.EncodeSlot(slots[i].value))) else None
  }

  /** An inbox save that reached slot `k` mixes the new prefix with the old tail. */
  lemma InboxSaveHolds(bank: Bank, was: seq<I.Slot>, slots: seq<I.Slot>, k: nat)
    requires HoldsInbox(bank, was) && |slots| == I.MAX_INBOX && I.Distinct(slots) && k <= |slots|
    ensures HoldsInbox(Overwrite(bank, InboxRecords(slots), k), slots[..k] + was[k..])
  {
  }

  lemma ReplaySaveHolds(bank: Bank, was: seq<R.Slot>, slots: seq<R.Slot>, k: nat)
    requires HoldsReplay(bank, was) && |slots| == R.MAX_REPLAY_SENDERS
    ensures HoldsReplay(Overwrite(bank, ReplayRecords(slots), k), Overwrite(was, slots, k))
  {
  }

  /** Restoring logical slots: the load step without the bytes. */
  function RestoreInbox(slots: seq<I.Slot>, k: nat): (r: seq<I.Slot>)
    requires k <= |slots|
    requires I.AllWellFormed(slots)
    ensures |r| == I.MAX_INBOX
  {
    if k == 0 then seq(I.MAX_INBOX, _ => None) else RestoreSlot(RestoreInbox(slots, k - 1), slots[k - 1])
  }

  function RestoreSlot(t: seq<I.Slot>, slot: I.Slot): (r: seq<I.Slot>)
    requires slot.Some? ==> I.WellFormed(slot.value)
    ensures |r| == |t|
  {
    match slot
    case None => t
    case Some(e) =>
      if e.len == 0 then t
      else match I.Insert(t, e.sender, e.ctr, I.Packet(e)) case Ok(s) => s case Err(_) => t
  }

  function RestoreAll(slots: seq<I.Slot>): (r: seq<I.Slot>)
    requires I.AllWellFormed(slots)
    ensures |r| == I.MAX_INBOX
  {
    RestoreInbox(slots, |slots|)
  }

  function LoadInboxAll(bank: Bank): (r: Option<seq<I.Slot>>)
    ensures r.Some? ==> |r.value| == I.MAX_INBOX
  {
    LoadInboxFrom(bank, |bank|)
  }

  function LoadReplayAll(bank: Bank): (r: Option<seq<R.Slot>>)
    ensures r.Some? ==> |r.value| == R.MAX_REPLAY_SENDERS
  {
    LoadReplayFrom(bank, |bank|)
  }

  /** What a restore leaves in RAM after the first `k` flash slots. */
  ghost predicate RestoredFrom(slots: seq<I.Slot>, k: nat, ram: seq<I.Slot>)
    requires k <= |slots|
  {
    && I.Distinct(ram)
    && I.FreeSlot(ram) <= k
    && (forall j :: I.FreeSlot(ram) <= j < |ram| ==> ram[j].None?)
    && (forall j :: 0 <= j < |ram| && ram[j].Some? ==>
          ram[j].value.len > 0 && exists i :: j <= i < k && slots[i] == ram[j])
    && (forall i :: 0 <= i < k && slots[i].Some? && slots[i].value.len > 0 ==>
          I.Contains(ram, slots[i].value.sender, slots[i].value.ctr))
  }

  /** Loading compacts: each pair lands at or below the flash slot it came from. */
  lemma {:induction false} RestoreMeaning(slots: seq<I.Slot>, k: nat)
    requires k <= |slots| == I.MAX_INBOX
    requires I.AllWellFormed(slots)
    ensures RestoredFrom(slots, k, RestoreInbox(slots, k))
  {
    if k > 0 {
      RestoreMeaning(slots, k - 1);
      var t := RestoreInbox(slots, k - 1);
      if slots[k - 1].Some? && slots[k - 1].value.len > 0 {
        RestoreOne(slots, k, t);
      } else {
        assert RestoreInbox(slots, k) == t;
      }
    }
  }

  /** No packet is refused on the way. */
  lemma RestoreNeverRefuses(slots: seq<I.Slot>, k: nat)
    requires 0 < k <= |slots| == I.MAX_INBOX
    requires I.AllWellFormed(slots)
    requires slots[k - 1].Some? && slots[k - 1].value.len > 0
    ensures var e := slots[k - 1].value;
            I.Insert(RestoreInbox(slots, k - 1), e.sender, e.ctr, I.Packet(e)).Ok?
  {
    RestoreMeaning(slots, k - 1);
    RestoreOne(slots, k, RestoreInbox(slots, k - 1));
  }

  lemma RestoredSlotIsSaved(slots: seq<I.Slot>, j: nat)
    requires |slots| == I.MAX_INBOX && j < I.MAX_INBOX
    requires I.AllWellFormed(slots)
    ensures var ram := RestoreAll(slots);
            ram[j].Some? ==> ram[j] in slots
  {
    RestoreMeaning(slots, |slots|);
  }

  lemma RestoreOne(slots: seq<I.Slot>, k: nat, t: seq<I.Slot>)
    requires 0 < k <= |slots| == I.MAX_INBOX == |t|
    requires slots[k - 1].Some? && slots[k - 1].value.len > 0 && I.WellFormed(slots[k - 1].value)
    requires RestoredFrom(slots, k - 1, t)
    ensures var e := slots[k - 1].value;
            var r := I.Insert(t, e.sender, e.ctr, I.Packet(e));
            r.Ok? && RestoredFrom(slots, k, r.value)
  {
    var e := slots[k - 1].value;
    var f := I.FreeSlot(t);
    var r := I.Insert(t, e.sender, e.ctr, I.Packet(e));
    if !I.Contains(t, e.sender, e.ctr) {
      assert I.VACANT(t[f]);
      assert forall j :: 0 <= j < f ==> !I.VACANT(t[j]);
      assert r.value[f] == slots[k - 1];
      Search.FirstIs(r.value, I.VACANT, f + 1);
    }
    I.InsertMeaning(t, e.sender, e.ctr, I.Packet(e), e.sender, e.ctr);
    forall i | 0 <= i < k && slots[i].Some? && slots[i].value.len > 0
      ensures I.Contains(r.value, slots[i].value.sender, slots[i].value.ctr)
    {
      I.InsertMeaning(t, e.sender, e.ctr, I.Packet(e), slots[i].value.sender, slots[i].value.ctr);
    }
  }

  /** Byte-level loading of an inbox bank is `RestoreInbox`; it never fails. */
  lemma {:induction false} LoadIsRestore(bank: Bank, slots: seq<I.Slot>, k: nat)
    requires HoldsInbox(bank, slots) && k <= |slots|
    ensures LoadInboxFrom(bank, k) == Some(RestoreInbox(slots, k))
  {
    if k > 0 {
      LoadIsRestore(bank, slots, k - 1);
      if slots[k - 1].Some? && slots[k - 1].value.len > 0 { RestoreNeverRefuses(slots, k); }
      if bank[k - 1].Some? { RecordLoads(slots[k - 1], RestoreInbox(slots, k - 1)); }
    }
  }

  lemma RecordLoads(slot: I.Slot, t: seq<I.Slot>)
    requires slot.Some? ==> I.WellFormed(slot.value)
    requires slot.Some? && slot.value.len > 0 ==>
               I.Insert(t, slot.value.sender, slot.value.ctr, I.Packet(slot.value)).Ok?
    ensures LoadInboxRecord(t, Some(Readable(I.RecordOf(slot)))) == Some(RestoreSlot(t, slot))
  {
    match slot
    case None => I.TombstoneIsEmpty();
    case Some(e) => I.SlotRoundTrip(e);
  }

  /** A packed replay bank loads as itself, slot for slot. */
  lemma {:induction false} LoadReplayIsIdentity(bank: Bank, slots: seq<R.Slot>, k: nat)
    requires HoldsReplay(bank, slots) && R.Packed(slots) && k <= |slots|
    ensures LoadReplayFrom(bank, k) == Some(FirstOf(slots, k))
  {
    if k == 0 {
      assert FirstOf(slots, 0) == seq(R.MAX_REPLAY_SENDERS, _ => None);
    } else {
      LoadReplayIsIdentity(bank, slots, k - 1);
      match slots[k - 1]
      case None => assert FirstOf(slots, k - 1) == FirstOf(slots, k);
      case Some(e) => NextReplaySlot(slots, k);
    }
  }

  lemma LoadReplayAllIsIdentity(bank: Bank, slots: seq<R.Slot>)
    requires HoldsReplay(bank, slots) && R.Packed(slots)
    ensures LoadReplayAll(bank) == Some(slots)
  {
    LoadReplayIsIdentity(bank, slots, |slots|);
    assert FirstOf(slots, |slots|) == slots;
  }

  function FirstOf(slots: seq<R.Slot>, k: nat): (r: seq<R.Slot>)
    requires k <= |slots|
    ensures |r| == |slots|
  {
    slots[..k] + seq(|slots| - k, _ => None)
  }

  lemma NextReplaySlot(slots: seq<R.Slot>, k: nat)
    requires R.Packed(slots) && 0 < k <= |slots| && slots[k - 1].Some?
    ensures R.LoadSlot(FirstOf(slots, k - 1), R.EncodeSlot(slots[k - 1].value)) == Some(FirstOf(slots, k))
  {
    var e, t := slots[k - 1].value, FirstOf(slots, k - 1);
    R.SlotRoundTrip(e);
    forall j | 0 <= j < |t| ensures !R.OwnedBy(e.nodeId)(t[j]) {
      if j < k - 1 { assert t[j] == slots[j]; }
    }
    Search.FirstIs(t, R.OwnedBy(e.nodeId), |t|);
    forall j | 0 <= j < k - 1 ensures !R.VACANT(t[j]) { assert t[j] == slots[j]; }
    Search.FirstIs(t, R.VACANT, k - 1);
    assert t[k - 1 := Some(e)] == FirstOf(slots, k);
  }

  // ---- The counter record ----

  /** `reserve_from_stored`: a missing record is first boot, an unreadable one never zero. */
  function ReserveFromStored(stored: Result<Option<u64>, ()>, step: u64): (r: Result<(u64, u64), ()>) {
    match stored
    case Err(_) => Err(())
    case Ok(None) => Ok((0, step))
    case Ok(Some(v)) => Ok((v, SaturatingAdd(v, step)))
  }

  function StoredCounter(records: map<nat, Record>): (r: Result<Option<u64>, ()>) {
    if KEY_CTR_HW !in records then Ok(None)
    else
      match records[KEY_CTR_HW]
      case Torn => Err(())
      case Readable(b) => if |b| < 8 then Err(()) else Ok(Some(Read64(b[..8])))
  }

  /**
   A reservation starts at the stored ceiling - zero only when nothing was ever stored -
   and ends 1024 above it or at the top of the range; a record that cannot be read
   yields none.
   */
  lemma ReservationMeaning(records: map<nat, Record>)
    ensures var r := ReserveFromStored(StoredCounter(records), CTR_RESERVATION);
            match Lookup(records, 2)
            case None => r == Ok((0, 1024))
            case Some(Torn) => r.Err?
            case Some(Readable(b)) =>
              if |b| < 8 then r.Err?
              else r.Ok? && r.value.0 == LeValue(b[..8])
                   && r.value.1 == if r.value.0 + 1024 > U64_MAX then U64_MAX else r.value.0 + 1024
  {
  }

  function Lookup(records: map<nat, Record>, key: nat): (r: Option<Record>) {
    if key in records then Some(records[key]) else None
  }

  class Store {
    var records: map<nat, Record>

    constructor ()
      ensures records == map[]
    {
      records := map[];
    }

    /** Raise the persisted ceiling. `writes` says whether the one write lands. */
    method ReserveCounters(writes: bool) returns (r: Result<(u64, u64), ()>)
      modifies this
      ensures r == if writes then ReserveFromStored(old(StoredCounter(records)), CTR_RESERVATION) else Err(())
      ensures r.Ok? ==> StoredCounter(records) == Ok(Some(r.value.1))
      ensures r.Err? ==> records == old(records)
      ensures forall key :: key != KEY_CTR_HW ==>
                (key in records <==> key in old(records)) && (key in records ==> records[key] == old(records)[key])
    {
      var want := ReserveFromStored(StoredCounter(records), CTR_RESERVATION);
      if want.Err? || !writes {
        return Err(());
      }
      RoundTrip64(want.value.1);
      records := records[KEY_CTR_HW := Readable(LeBytes(want.value.1, 8))];
      assert LeBytes(want.value.1, 8)[..8] == LeBytes(want.value.1, 8);
      return want;
    }

    method LoadInbox() returns (r: Result<I.InboxTable, ()>)
      ensures var want := LoadInboxAll(BankOf(records, KEY_INBOX_BASE, I.MAX_INBOX));
              && (r.Ok? <==> want.Some?)
              && (r.Ok? ==> r.value.Valid() && fresh(r.value.slots) && r.value.slots[..] == want.value)
    {
      var table := new I.InboxTable();
      ghost var bank := BankOf(records, KEY_INBOX_BASE, I.MAX_INBOX);
      var i := 0;
      while i < I.MAX_INBOX
        invariant i <= I.MAX_INBOX
        invariant table.Valid() && fresh(table.slots)
        invariant LoadInboxFrom(bank, i) == Some(table.slots[..])
      {
        var key := KEY_INBOX_BASE + i;
        if key in records {
          if records[key].Torn? {
            LoadStuck(bank, i + 1, |bank|);
            return Err(());
          }
          var ok := table.Load(records[key].bytes);
          if !ok {
            LoadStuck(bank, i + 1, |bank|);
            return Err(());
          }
        }
        assert LoadInboxFrom(bank, i + 1) == Some(table.slots[..]);
        i := i + 1;
      }
      return Ok(table);
    }

    method LoadReplay() returns (r: Result<R.ReplayTable, ()>)
      ensures var want := LoadReplayAll(BankOf(records, KEY_REPLAY_BASE, R.MAX_REPLAY_SENDERS));
              && (r.Ok? <==> want.Some?)
              && (r.Ok? ==> r.value.Valid() && fresh(r.value.slots) && r.value.slots[..] == want.value)
    {
      var table := new R.ReplayTable();
      ghost var bank := BankOf(records, KEY_REPLAY_BASE, R.MAX_REPLAY_SENDERS);
      var i := 0;
      while i < R.MAX_REPLAY_SENDERS
        invariant i <= R.MAX_REPLAY_SENDERS
        invariant table.Valid() && fresh(table.slots)
        invariant LoadReplayFrom(bank, i) == Some(table.slots[..])
      {
        var key := KEY_REPLAY_BASE + i;
        if key in records {
          if records[key].Torn? || |records[key].bytes| != R.REPLAY_SLOT_BYTES {
            ReplayStuck(bank, i + 1, |bank|);
            return Err(());
          }
          var ok := table.Load(records[key].bytes);
          if !ok {
            ReplayStuck(bank, i + 1, |bank|);
            return Err(());
          }
        }
        assert LoadReplayFrom(bank, i + 1) == Some(table.slots[..]);
        i := i + 1;
      }
      return Ok(table);
    }

    /** Every slot is written, a vacant one as a tombstone. */
    method SaveInbox(table: I.InboxTable, failAt: nat) returns (ok: bool)
      requires table.Valid()
      modifies this
      ensures ok <==> failAt >= I.MAX_INBOX
      ensures BankOf(records, KEY_INBOX_BASE, I.MAX_INBOX)
           == Overwrite(old(BankOf(records, KEY_INBOX_BASE, I.MAX_INBOX)), InboxRecords(table.slots[..]), failAt)
      ensures forall key :: !(KEY_INBOX_BASE <= key < KEY_INBOX_BASE + I.MAX_INBOX) ==>
                (key in records <==> key in old(records)) && (key in records ==> records[key] == old(records)[key])
    {
      ghost var was := BankOf(records, KEY_INBOX_BASE, I.MAX_INBOX);
      var i := 0;
      while i < I.MAX_INBOX
        invariant i <= I.MAX_INBOX && i <= failAt
        invariant BankOf(records, KEY_INBOX_BASE, I.MAX_INBOX) == Overwrite(was, InboxRecords(table.slots[..]), i)
        invariant forall key :: !(KEY_INBOX_BASE <= key < KEY_INBOX_BASE + I.MAX_INBOX) ==>
                    (key in records <==> key in old(records)) && (key in records ==> records[key] == old(records)[key])
      {
        if i == failAt {
          return false;
        }
        var record := table.Encode(i);
        OverwriteNext(was, InboxRecords(table.slots[..]), i);
        BankAfterWrite(records, KEY_INBOX_BASE, I.MAX_INBOX, i, Readable(record.value));
        records := records[KEY_INBOX_BASE + i := Readable(record.value)];
        i := i + 1;
      }
      return true;
    }

    /** Only occupied slots are written. */
    method SaveReplay(table: R.ReplayTable, failAt: nat) returns (ok: bool)
      requires table.Valid()
      modifies this
      ensures ok <==> failAt >= R.MAX_REPLAY_SENDERS || table.slots[failAt].None?
      ensures BankOf(records, KEY_REPLAY_BASE, R.MAX_REPLAY_SENDERS)
           == Overwrite(old(BankOf(records, KEY_REPLAY_BASE, R.MAX_REPLAY_SENDERS)), ReplayRecords(table.slots[..]),
                        if ok then R.MAX_REPLAY_SENDERS else failAt)
      ensures forall key :: !(KEY_REPLAY_BASE <= key < KEY_REPLAY_BASE + R.MAX_REPLAY_SENDERS) ==>
                (key in records <==> key in old(records)) && (key in records ==> records[key] == old(records)[key])
    {
      ghost var was := BankOf(records, KEY_REPLAY_BASE, R.MAX_REPLAY_SENDERS);
      var i := 0;
      while i < R.MAX_REPLAY_SENDERS
        invariant i <= R.MAX_REPLAY_SENDERS
        invariant i <= failAt || table.slots[failAt].None?
        invariant BankOf(records, KEY_REPLAY_BASE, R.MAX_REPLAY_SENDERS)
               == Overwrite(was, ReplayRecords(table.slots[..]), i)
        invariant forall key :: !(KEY_REPLAY_BASE <= key < KEY_REPLAY_BASE + R.MAX_REPLAY_SENDERS) ==>
                    (key in records <==> key in old(records)) && (key in records ==> records[key] == old(records)[key])
      {
        var record := table.Encode(i);
        OverwriteNext(was, ReplayRecords(table.slots[..]), i);
        if record.Some? {
          if i == failAt {
            return false;
          }
          BankAfterWrite(records, KEY_REPLAY_BASE, R.MAX_REPLAY_SENDERS, i, Readable(record.value));
          records := records[KEY_REPLAY_BASE + i := Readable(record.value)];
        }
        i := i + 1;
      }
      return true;
    }
  }

  lemma {:induction false} LoadStuck(bank: Bank, k: nat, n: nat)
    requires k <= n <= |bank| && LoadInboxFrom(bank, k).None?
    ensures LoadInboxFrom(bank, n).None?
    decreases n - k
  {
    if k < n { LoadStuck(bank, k + 1, n); }
  }

  lemma {:induction false} ReplayStuck(bank: Bank, k: nat, n: nat)
    requires k <= n <= |bank| && LoadReplayFrom(bank, k).None?
    ensures LoadReplayFrom(bank, n).None?
    decreases n - k
  {
    if k < n { ReplayStuck(bank, k + 1, n); }
  }

  // ---- Which banks load ----

  /** The inbox record cannot be read, has no header, or claims a packet that is too long or not all there. */
  predicate BadInboxRecord(r: Option<Record>) {
    r.Some? && (r.value.Torn? || |r.value.bytes| < 12 ||
                var len := Read16(r.value.bytes[10..12]); len > 256 || |r.value.bytes| < 12 + len)
  }

  predicate BadReplayRecord(r: Option<Record>) {
    r.Some? && (r.value.Torn? || |r.value.bytes| != R.REPLAY_SLOT_BYTES)
  }

  /** The first slots are occupied, at most `k` of them, and no others. */
  ghost predicate FilledWithin<T>(slots: seq<Option<T>>, k: nat) {
    exists f: nat :: FilledTo(slots, f) && f <= k
  }

  predicate FilledTo<T>(slots: seq<Option<T>>, f: nat) {
    forall i :: 0 <= i < |slots| ==> (slots[i].Some? <==> i < f)
  }

  lemma InboxRecordLoads(t: seq<I.Slot>, f: nat, b: Bytes)
    requires FilledTo(t, f) && f < |t|
    ensures var v := I.LoadSlot(t, b);
            && (v.None? <==> BadInboxRecord(Some(Readable(b))))
            && (v.Some? ==> FilledTo(v.value, f) || FilledTo(v.value, f + 1))
  {
    Search.FirstIs(t, I.VACANT, f);
  }

  /** An inbox bank is refused exactly when one of its records is bad. */
  lemma {:induction false} InboxLoadsExactly(bank: Bank, k: nat)
    requires k <= |bank| == I.MAX_INBOX
    ensures var r := LoadInboxFrom(bank, k);
            && (r.None? <==> exists i :: 0 <= i < k && BadInboxRecord(bank[i]))
            && (r.Some? ==> FilledWithin(r.value, k))
  {
    if k == 0 {
      assert FilledTo(LoadInboxFrom(bank, 0).value, 0);
    } else {
      InboxLoadsExactly(bank, k - 1);
      var r := LoadInboxFrom(bank, k - 1);
      if r.Some? && bank[k - 1].Some? && bank[k - 1].value.Readable? {
        var f: nat :| FilledTo(r.value, f) && f <= k - 1;
        InboxRecordLoads(r.value, f, bank[k - 1].value.bytes);
      }
    }
  }

  /** A replay bank is refused exactly when one of its records is torn or not 18 bytes long. */
  lemma {:induction false} ReplayLoadsExactly(bank: Bank, k: nat)
    requires k <= |bank| == R.MAX_REPLAY_SENDERS
    ensures var r := LoadReplayFrom(bank, k);
            && (r.None? <==> exists i :: 0 <= i < k && BadReplayRecord(bank[i]))
            && (r.Some? ==> FilledWithin(r.value, k))
  {
    if k == 0 {
      assert FilledTo(LoadReplayFrom(bank, 0).value, 0);
    } else {
      ReplayLoadsExactly(bank, k - 1);
      var r := LoadReplayFrom(bank, k - 1);
      if r.Some? {
        var f: nat :| FilledTo(r.value, f) && f <= k - 1;
        Search.FirstIs(r.value, R.VACANT, f);
        if LoadReplayFrom(bank, k).Some? {
          var t := LoadReplayFrom(bank, k).value;
          assert FilledTo(t, f) || FilledTo(t, f + 1);
        }
      }
    }
  }
}
