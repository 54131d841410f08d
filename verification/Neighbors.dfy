/**
 The radio liveness table: eight slots, the stalest evicted. Against its
 specification - the most recently heard distinct nodes, newest first.
 */
module NeighborTables {
  import opened Words
  import opened Search

  const MAX_NEIGHBORS: nat := 8
  const NEIGHBOR_TIMEOUT_MS: nat := 30_000

  datatype Entry = Entry(nodeId: u16, lastSeenMs: u64, rssiDbm: int)
  type Slot = Option<Entry>

  function Hears(nodeId: u16): (r: Slot -> bool) { (s: Slot) => s.Some? && s.value.nodeId == nodeId }
  const VACANT: Slot -> bool := (s: Slot) => s.None?

  /** The first slot with the smallest time; vacant slots do not compete. */
  function Stalest(slots: seq<Slot>): (i: nat)
    requires slots != []
    ensures i < |slots|
  {
    var n := |slots| - 1;
    if n == 0 then 0
    else
      var i := Stalest(slots[..n]);
      if slots[n].Some? && (slots[i].None? || slots[n].value.lastSeenMs < slots[i].value.lastSeenMs) then n else i
  }

  lemma {:induction false} StalestIsMinimal(slots: seq<Slot>)
    requires slots != [] && forall j :: 0 <= j < |slots| ==> slots[j].Some?
    ensures forall j :: 0 <= j < |slots| ==>
              slots[Stalest(slots)].value.lastSeenMs <= slots[j].value.lastSeenMs
  {
    if |slots| > 1 { StalestIsMinimal(slots[..|slots| - 1]); }
  }

  /** `slot_for`: the node's own slot, else a free one, else the stalest. */
  function SlotFor(slots: seq<Slot>, nodeId: u16): (i: nat)
    requires slots != []
    ensures i < |slots|
  {
    var own := First(slots, Hears(nodeId));
    var free := First(slots, VACANT);
    if own < |slots| then own else if free < |slots| then free else Stalest(slots)
  }

  function Hear(slots: seq<Slot>, e: Entry): (r: seq<Slot>)
    requires slots != []
    ensures |r| == |slots|
  {
    slots[SlotFor(slots, e.nodeId) := Some(e)]
  }

  predicate Recently(e: Entry, nowMs: nat) { SaturatingSub(nowMs, e.lastSeenMs) < NEIGHBOR_TIMEOUT_MS }

  class Neighbors {
    const entries: array<Slot>

    constructor ()
      ensures fresh(entries) && entries[..] == seq(MAX_NEIGHBORS, _ => None)
    {
      entries := new Slot[MAX_NEIGHBORS](_ => None);
    }

    method FindSlot(nodeId: u16) returns (i: nat)
      requires entries.Length == MAX_NEIGHBORS
      ensures i == SlotFor(entries[..], nodeId)
    {
      i := Scan(entries, Hears(nodeId));
      if i < entries.Length {
        return;
      }
      i := Scan(entries, VACANT);
      if i < entries.Length {
        return;
      }
      var best := 0;
      i := 1;
      while i < entries.Length
        invariant 1 <= i <= entries.Length && best < i
        invariant best == Stalest(entries[..i])
      {
        assert entries[..i + 1][..i] == entries[..i];
        if entries[i].Some? && (entries[best].None? || entries[i].value.lastSeenMs < entries[best].value.lastSeenMs) {
          best := i;
        }
        i := i + 1;
      }
      assert entries[..i] == entries[..];
      return best;
    }

    method Heard(nodeId: u16, rssiDbm: int, nowMs: u64)
      requires entries.Length == MAX_NEIGHBORS
      modifies entries
      ensures entries[..] == Hear(old(entries[..]), Entry(nodeId, nowMs, rssiDbm))
    {
      var i := FindSlot(nodeId);
      entries[i] := Some(Entry(nodeId, nowMs, rssiDbm));
    }

    method IsAlive(nodeId: u16, nowMs: u64) returns (alive: bool)
      ensures alive <==> Alive(entries[..], nodeId, nowMs)
    {
      var i := 0;
      while i < entries.Length
        invariant i <= entries.Length
        invariant forall j :: 0 <= j < i ==> !(Hears(nodeId)(entries[..][j]) && Recently(entries[j].value, nowMs))
      {
        if entries[i].Some? && entries[i].value.nodeId == nodeId && Recently(entries[i].value, nowMs) {
          assert Hears(nodeId)(entries[..][i]);
          return true;
        }
        i := i + 1;
      }
      return false;
    }
  }

  // ---- The specification: distinct nodes, newest first ----

  function IsNode(nodeId: u16): (r: Entry -> bool) { (e: Entry) => e.nodeId == nodeId }

  function Without(list: seq<Entry>, nodeId: u16): (r: seq<Entry>) {
    var k := First(list, IsNode(nodeId));
    if k < |list| then list[..k] + list[k + 1..] else list
  }

  function Recent(history: seq<Entry>): (r: seq<Entry>) {
    if history == [] then []
    else
      var last := history[|history| - 1];
      [last] + Without(Recent(history[..|history| - 1]), last.nodeId)
  }

  function Newest(list: seq<Entry>): (r: seq<Entry>) {
    if |list| <= MAX_NEIGHBORS then list else list[..MAX_NEIGHBORS]
  }

  ghost predicate Increasing(history: seq<Entry>) {
    forall i, j :: 0 <= i < j < |history| ==> history[i].lastSeenMs < history[j].lastSeenMs
  }

  ghost predicate NewestFirst(list: seq<Entry>) {
    forall i, j :: 0 <= i < j < |list| ==>
      list[i].lastSeenMs > list[j].lastSeenMs && list[i].nodeId != list[j].nodeId
  }

  function Table(history: seq<Entry>): (slots: seq<Slot>)
    ensures |slots| == MAX_NEIGHBORS
  {
    if history == [] then seq(MAX_NEIGHBORS, _ => None)
    else Hear(Table(history[..|history| - 1]), history[|history| - 1])
  }

  lemma Dropped(list: seq<Entry>, k: nat)
    requires NewestFirst(list) && k < |list|
    ensures forall f :: f in list[..k] + list[k + 1..] <==> f in list && f != list[k]
    ensures forall f :: f in list && f != list[k] ==> f.nodeId != list[k].nodeId
  {
    var rest := list[..k] + list[k + 1..];
    assert forall j :: 0 <= j < |rest| ==> rest[j] == if j < k then list[j] else list[j + 1];
    forall f | f in list && f != list[k] ensures f in rest && f.nodeId != list[k].nodeId {
      var j :| 0 <= j < |list| && list[j] == f;
      assert rest[if j < k then j else j - 1] == f;
    }
  }

  lemma DroppedOrdered(list: seq<Entry>, k: nat)
    requires NewestFirst(list) && k < |list|
    ensures NewestFirst(list[..k] + list[k + 1..])
  {
    var rest := list[..k] + list[k + 1..];
    assert forall j :: 0 <= j < |rest| ==> rest[j] == list[if j < k then j else j + 1];
  }

  lemma WithoutMeaning(list: seq<Entry>, nodeId: u16, e: Entry)
    requires NewestFirst(list)
    ensures NewestFirst(Without(list, nodeId))
    ensures e in Without(list, nodeId) <==> e in list && e.nodeId != nodeId
  {
    var k := First(list, IsNode(nodeId));
    if k < |list| {
      assert IsNode(nodeId)(list[k]);
      Dropped(list, k);
      DroppedOrdered(list, k);
    } else if e in list {
      var i :| 0 <= i < |list| && list[i] == e;
      assert !IsNode(nodeId)(list[i]);
    }
  }

  lemma {:induction false} RecentIsOrdered(history: seq<Entry>)
    requires Increasing(history)
    ensures NewestFirst(Recent(history))
    ensures forall f <- Recent(history) :: f.lastSeenMs <= history[|history| - 1].lastSeenMs
    ensures Recent(history) == [] <==> history == []
    decreases |history|
  {
    if history != [] {
      var n := |history| - 1;
      RecentIsOrdered(history[..n]);
      PrependNewest(Recent(history[..n]), history[n]);
    }
  }

  lemma PrependNewest(older: seq<Entry>, last: Entry)
    requires NewestFirst(older) && forall f <- older :: f.lastSeenMs < last.lastSeenMs
    ensures NewestFirst([last] + Without(older, last.nodeId))
    ensures forall f <- [last] + Without(older, last.nodeId) :: f.lastSeenMs <= last.lastSeenMs
  {
    var w := Without(older, last.nodeId);
    WithoutMeaning(older, last.nodeId, last);
    forall i | 0 <= i < |w| ensures w[i].lastSeenMs < last.lastSeenMs && w[i].nodeId != last.nodeId {
      assert w[i] in w;
      WithoutMeaning(older, last.nodeId, w[i]);
    }
  }

  /** The sighting at `i` is its node's last. */
  predicate LastAt(history: seq<Entry>, i: int) {
    0 <= i < |history| && forall j :: i < j < |history| ==> history[j].nodeId != history[i].nodeId
  }

  /** `Recent` lists each node's last sighting, and nothing else. */
  lemma {:induction false} RecentMeaning(history: seq<Entry>, e: Entry)
    requires Increasing(history)
    ensures e in Recent(history) <==> exists i :: LastAt(history, i) && history[i] == e
    decreases |history|
  {
    if history != [] {
      var n := |history| - 1;
      var older := Recent(history[..n]);
      RecentIsOrdered(history[..n]);
      RecentMeaning(history[..n], e);
      WithoutMeaning(older, history[n].nodeId, e);
      assert e in Recent(history) <==> e == history[n] || (e in older && e.nodeId != history[n].nodeId);
      assert LastAt(history, n);
      if e != history[n] { LastStays(history, e); }
    }
  }

  lemma LastStays(history: seq<Entry>, e: Entry)
    requires history != [] && e != history[|history| - 1]
    ensures var n := |history| - 1;
            (exists i :: LastAt(history, i) && history[i] == e) <==>
            (exists i :: LastAt(history[..n], i) && history[..n][i] == e) && e.nodeId != history[n].nodeId
  {
    var n := |history| - 1;
    if i :| LastAt(history, i) && history[i] == e {
      assert LastAt(history[..n], i) && history[..n][i] == e;
    }
    if i :| LastAt(history[..n], i) && history[..n][i] == e && e.nodeId != history[n].nodeId {
      assert LastAt(history, i) by {
        assert forall j :: i < j < n ==> history[j] == history[..n][j];
      }
    }
  }

  /** The table holds exactly the listed entries, in its first slots. */
  ghost predicate HoldsExactly(slots: seq<Slot>, top: seq<Entry>) {
    && |slots| == MAX_NEIGHBORS && |top| <= MAX_NEIGHBORS
    && (forall i :: 0 <= i < |slots| ==> (slots[i].Some? <==> i < |top|))
    && (forall i :: 0 <= i < |slots| && slots[i].Some? ==> slots[i].value in top)
    && (forall e <- top :: Some(e) in slots)
    && (forall i, j :: 0 <= i < j < |top| ==> slots[i].value.nodeId != slots[j].value.nodeId)
  }

  lemma EvictsTheOldest(slots: seq<Slot>, top: seq<Entry>)
    requires HoldsExactly(slots, top) && NewestFirst(top) && |top| == MAX_NEIGHBORS
    ensures slots[Stalest(slots)] == Some(top[MAX_NEIGHBORS - 1])
  {
    var i := Stalest(slots);
    StalestIsMinimal(slots);
    var oldest := top[MAX_NEIGHBORS - 1];
    assert Some(oldest) in slots;
    var j :| 0 <= j < |slots| && slots[j] == Some(oldest);
    var e := slots[i].value;
    var k :| 0 <= k < |top| && top[k] == e;
    assert e.lastSeenMs <= slots[j].value.lastSeenMs;
  }

  /** Replacing the entry `gone` at slot `i` by `e`. */
  lemma Replaced(slots: seq<Slot>, top: seq<Entry>, i: nat, e: Entry, rest: seq<Entry>)
    requires HoldsExactly(slots, top) && i < |top|
    requires |rest| == |top| - 1
    requires forall f :: f in rest <==> f in top && f != slots[i].value
    requires forall f <- rest :: f.nodeId != e.nodeId
    ensures HoldsExactly(slots[i := Some(e)], [e] + rest)
  {
    var r := slots[i := Some(e)];
    forall f <- [e] + rest ensures Some(f) in r {
      if f == e {
        assert r[i] == Some(e);
      } else {
        assert f in rest;
        var j :| 0 <= j < |slots| && slots[j] == Some(f);
        assert r[j] == Some(f);
      }
    }
    forall j | 0 <= j < |r| && r[j].Some? ensures r[j].value in [e] + rest {
      if j != i {
        assert slots[j].value in top;
        assert slots[j].value != slots[i].value;
        assert slots[j].value in rest;
      }
    }
    forall j | 0 <= j < |top| && j != i ensures r[j].value.nodeId != e.nodeId {
      assert slots[j].value in top && slots[j].value != slots[i].value;
      assert slots[j].value in rest;
    }
  }

  lemma HearKeepsNewest(slots: seq<Slot>, list: seq<Entry>, e: Entry)
    requires NewestFirst(list) && HoldsExactly(slots, Newest(list))
    requires forall f <- list :: f.lastSeenMs < e.lastSeenMs
    ensures HoldsExactly(Hear(slots, e), Newest([e] + Without(list, e.nodeId)))
  {
    var top := Newest(list);
    var own := First(slots, Hears(e.nodeId));
    var k := First(list, IsNode(e.nodeId));
    if k < |top| {
      KnownNode(slots, list, e, k);
    } else {
      UnknownNode(slots, list, e);
    }
  }

  lemma NewestKnown(list: seq<Entry>, e: Entry, k: nat)
    requires k == First(list, IsNode(e.nodeId)) && k < |Newest(list)|
    ensures var top := Newest(list);
            Newest([e] + Without(list, e.nodeId)) == [e] + (top[..k] + top[k + 1..])
  {
    var top, rest := Newest(list), Without(list, e.nodeId);
    assert rest == list[..k] + list[k + 1..];
    if |list| <= MAX_NEIGHBORS {
      assert top == list;
    } else {
      var kept := rest[..MAX_NEIGHBORS - 1];
      assert Newest([e] + rest) == [e] + kept;
      assert kept == top[..k] + top[k + 1..];
    }
  }

  lemma NewestUnknown(list: seq<Entry>, e: Entry)
    requires First(list, IsNode(e.nodeId)) >= |Newest(list)|
    ensures var top := Newest(list);
            Newest([e] + Without(list, e.nodeId)) ==
            [e] + if |top| < MAX_NEIGHBORS then top else top[..MAX_NEIGHBORS - 1]
  {
  }

  lemma KnownNode(slots: seq<Slot>, list: seq<Entry>, e: Entry, k: nat)
    requires NewestFirst(list) && HoldsExactly(slots, Newest(list))
    requires k == First(list, IsNode(e.nodeId)) && k < |Newest(list)|
    ensures HoldsExactly(Hear(slots, e), Newest([e] + Without(list, e.nodeId)))
  {
    var top := Newest(list);
    assert top[k] == list[k] && IsNode(e.nodeId)(list[k]);
    var i := OwnSlot(slots, top, e.nodeId, k);
    Dropped(top, k);
    var rest := top[..k] + top[k + 1..];
    NewestKnown(list, e, k);
    forall f <- rest ensures f.nodeId != e.nodeId { assert f in top && f != top[k]; }
    Replaced(slots, top, i, e, rest);
  }

  lemma OwnSlot(slots: seq<Slot>, top: seq<Entry>, nodeId: u16, k: nat) returns (i: nat)
    requires HoldsExactly(slots, top) && k < |top| && top[k].nodeId == nodeId
    ensures i < |top| && slots[i] == Some(top[k]) && First(slots, Hears(nodeId)) == i
  {
    assert Some(top[k]) in slots;
    i :| 0 <= i < |slots| && slots[i] == Some(top[k]);
    assert Hears(nodeId)(slots[i]);
    forall j | 0 <= j < i ensures !Hears(nodeId)(slots[j]) {}
    FirstIs(slots, Hears(nodeId), i);
  }

  lemma NoOwnSlot(slots: seq<Slot>, top: seq<Entry>, nodeId: u16)
    requires HoldsExactly(slots, top) && forall f <- top :: f.nodeId != nodeId
    ensures SlotFor(slots, nodeId) == if |top| < MAX_NEIGHBORS then |top| else Stalest(slots)
  {
    forall j | 0 <= j < |slots| ensures !Hears(nodeId)(slots[j]) {
      if slots[j].Some? { assert slots[j].value in top; }
    }
    FirstIs(slots, Hears(nodeId), |slots|);
    forall j | 0 <= j < |top| ensures !VACANT(slots[j]) {}
    FirstIs(slots, VACANT, |top|);
  }

  lemma Appended(slots: seq<Slot>, top: seq<Entry>, e: Entry)
    requires HoldsExactly(slots, top) && |top| < MAX_NEIGHBORS && forall f <- top :: f.nodeId != e.nodeId
    ensures HoldsExactly(slots[|top| := Some(e)], [e] + top)
  {
    var r := slots[|top| := Some(e)];
    forall f <- [e] + top ensures Some(f) in r {
      if f == e {
        assert r[|top|] == Some(e);
      } else {
        assert f in top;
        var j :| 0 <= j < |slots| && slots[j] == Some(f);
        assert r[j] == Some(f);
      }
    }
    forall j | 0 <= j < |top| ensures r[j].value.nodeId != e.nodeId { assert slots[j].value in top; }
  }

  lemma EvictedFor(slots: seq<Slot>, top: seq<Entry>, e: Entry)
    requires HoldsExactly(slots, top) && NewestFirst(top) && |top| == MAX_NEIGHBORS
    requires forall f <- top :: f.nodeId != e.nodeId
    ensures HoldsExactly(slots[Stalest(slots) := Some(e)], [e] + top[..MAX_NEIGHBORS - 1])
  {
    EvictsTheOldest(slots, top);
    Dropped(top, MAX_NEIGHBORS - 1);
    assert top[..MAX_NEIGHBORS - 1] + top[MAX_NEIGHBORS..] == top[..MAX_NEIGHBORS - 1];
    Replaced(slots, top, Stalest(slots), e, top[..MAX_NEIGHBORS - 1]);
  }

  lemma HearStranger(slots: seq<Slot>, top: seq<Entry>, e: Entry)
    requires HoldsExactly(slots, top) && NewestFirst(top) && forall f <- top :: f.nodeId != e.nodeId
    ensures HoldsExactly(Hear(slots, e), [e] + if |top| < MAX_NEIGHBORS then top else top[..MAX_NEIGHBORS - 1])
  {
    NoOwnSlot(slots, top, e.nodeId);
    if |top| < MAX_NEIGHBORS {
      Appended(slots, top, e);
    } else {
      EvictedFor(slots, top, e);
    }
  }

  lemma UnknownNode(slots: seq<Slot>, list: seq<Entry>, e: Entry)
    requires NewestFirst(list) && HoldsExactly(slots, Newest(list))
    requires First(list, IsNode(e.nodeId)) >= |Newest(list)|
    ensures HoldsExactly(Hear(slots, e), Newest([e] + Without(list, e.nodeId)))
  {
    forall f <- Newest(list) ensures f.nodeId != e.nodeId {}
    HearStranger(slots, Newest(list), e);
    NewestUnknown(list, e);
  }

  /** For any history of sightings at increasing times, the table is exactly the eight newest distinct nodes. */
  lemma {:induction false} TableIsTheNewestEight(history: seq<Entry>)
    requires Increasing(history)
    ensures HoldsExactly(Table(history), Newest(Recent(history)))
    decreases |history|
  {
    if history != [] {
      var n := |history| - 1;
      TableIsTheNewestEight(history[..n]);
      RecentIsOrdered(history[..n]);
      HearKeepsNewest(Table(history[..n]), Recent(history[..n]), history[n]);
    }
  }

  /** What `is_alive` answers for a table. */
  ghost predicate Alive(slots: seq<Slot>, nodeId: u16, nowMs: u64) {
    exists i :: 0 <= i < |slots| && Hears(nodeId)(slots[i]) && Recently(slots[i].value, nowMs)
  }

  /** A listed node inside the timeout is alive exactly when it is among the first eight. */
  lemma AliveByPosition(history: seq<Entry>, k: nat, nowMs: u64)
    requires Increasing(history) && k < |Recent(history)| && Recently(Recent(history)[k], nowMs)
    ensures Alive(Table(history), Recent(history)[k].nodeId, nowMs) <==> k < MAX_NEIGHBORS
  {
    var list, slots := Recent(history), Table(history);
    TableIsTheNewestEight(history);
    RecentIsOrdered(history);
    if k < MAX_NEIGHBORS {
      assert Newest(list)[k] == list[k];
      var i := OwnSlot(slots, Newest(list), list[k].nodeId, k);
      assert Hears(list[k].nodeId)(slots[i]);
    } else {
      forall i | 0 <= i < |slots| ensures !Hears(list[k].nodeId)(slots[i]) {}
    }
  }

  /** The nodes heard after the sighting at `i`. */
  function HeardAfter(history: seq<Entry>, i: nat): (nodes: set<u16>) {
    set j | i < j < |history| :: history[j].nodeId
  }

  /** The nodes among the first `k` listed. */
  function ListedFirst(list: seq<Entry>, k: nat): (nodes: set<u16>)
    requires k <= |list|
  {
    set q | 0 <= q < k :: list[q].nodeId
  }

  /** Every sighting is followed by, or is, its node's last one. */
  lemma LastSighting(history: seq<Entry>, j: nat)
    requires j < |history|
    ensures exists m :: j <= m && LastAt(history, m) && history[m].nodeId == history[j].nodeId
    decreases |history| - j
  {
    if !LastAt(history, j) {
      var later :| j < later < |history| && history[later].nodeId == history[j].nodeId;
      LastSighting(history, later);
    }
  }

  lemma OneMoreListed(list: seq<Entry>, k: nat)
    requires NewestFirst(list) && k < |list|
    ensures ListedFirst(list, k + 1) == ListedFirst(list, k) + {list[k].nodeId}
    ensures list[k].nodeId !in ListedFirst(list, k)
  {
    forall node ensures node in ListedFirst(list, k + 1) <==> node in ListedFirst(list, k) || node == list[k].nodeId {}
  }

  lemma {:induction false} FirstAreDistinct(list: seq<Entry>, k: nat)
    requires NewestFirst(list) && k <= |list|
    ensures |ListedFirst(list, k)| == k
    decreases k
  {
    if k > 0 {
      FirstAreDistinct(list, k - 1);
      OneMoreListed(list, k - 1);
    }
  }

  /** Newest first, exactly the last sightings. */
  ghost predicate ListsLast(history: seq<Entry>, list: seq<Entry>) {
    NewestFirst(list) && forall e :: e in list <==> exists i :: LastAt(history, i) && history[i] == e
  }

  lemma RecentListsLast(history: seq<Entry>)
    requires Increasing(history)
    ensures ListsLast(history, Recent(history))
  {
    RecentIsOrdered(history);
    forall e ensures e in Recent(history) <==> exists i :: LastAt(history, i) && history[i] == e {
      RecentMeaning(history, e);
    }
  }

  /** The nodes listed before a node's last sighting are those heard after it. */
  lemma SameNodes(history: seq<Entry>, list: seq<Entry>, i: nat, k: nat)
    requires Increasing(history) && ListsLast(history, list)
    requires i < |history| && k < |list| && list[k] == history[i]
    ensures ListedFirst(list, k) == HeardAfter(history, i)
  {
    forall j | i < j < |history| ensures history[j].nodeId in ListedFirst(list, k) {
      LastSighting(history, j);
      var m :| j <= m && LastAt(history, m) && history[m].nodeId == history[j].nodeId;
      assert history[m] in list;
      var q :| 0 <= q < |list| && list[q] == history[m];
    }
    forall q | 0 <= q < k ensures list[q].nodeId in HeardAfter(history, i) {
      assert list[q] in list;
      var m :| LastAt(history, m) && history[m] == list[q];
    }
  }

  /**
   A node heard inside the timeout is reported gone exactly when at least eight
   other nodes were heard after it.
   */
  lemma MissedOnlyWhenCrowdedOut(history: seq<Entry>, i: nat, nowMs: u64)
    requires Increasing(history) && LastAt(history, i) && nowMs < history[i].lastSeenMs + 30_000
    ensures Alive(Table(history), history[i].nodeId, nowMs) <==> |HeardAfter(history, i)| < MAX_NEIGHBORS
    ensures history[i].nodeId !in HeardAfter(history, i)
  {
    var list := Recent(history);
    RecentListsLast(history);
    assert history[i] in list;
    var k :| 0 <= k < |list| && list[k] == history[i];
    AliveByPosition(history, k, nowMs);
    SameNodes(history, list, i, k);
    FirstAreDistinct(list, k);
  }

  /** The sighting at `i` is its node's last, not yet 30 seconds old, with fewer than eight other nodes heard since. */
  predicate StillThere(history: seq<Entry>, i: nat, nowMs: u64) {
    LastAt(history, i) && nowMs < history[i].lastSeenMs + 30_000 && |HeardAfter(history, i)| < 8
  }

  /** Hence exactly which nodes are alive. */
  lemma AliveExactly(history: seq<Entry>, nodeId: u16, nowMs: u64)
    requires Increasing(history)
    ensures Alive(Table(history), nodeId, nowMs) <==>
            exists i: nat :: StillThere(history, i, nowMs) && history[i].nodeId == nodeId
  {
    var slots := Table(history);
    if Alive(slots, nodeId, nowMs) {
      var s :| 0 <= s < |slots| && Hears(nodeId)(slots[s]) && Recently(slots[s].value, nowMs);
      TableIsTheNewestEight(history);
      assert slots[s].value in Recent(history);
      RecentMeaning(history, slots[s].value);
      var i :| LastAt(history, i) && history[i] == slots[s].value;
      MissedOnlyWhenCrowdedOut(history, i, nowMs);
      assert StillThere(history, i, nowMs);
    }
    if i: nat :| StillThere(history, i, nowMs) && history[i].nodeId == nodeId {
      MissedOnlyWhenCrowdedOut(history, i, nowMs);
    }
  }
}
