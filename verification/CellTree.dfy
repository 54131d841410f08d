/**
 The tree of cells kept by address: orphans attach to their nearest living
 ancestor, and a child ordinal is never minted twice. The map holds each cell
 under its own address.
 */
module CellTree {
  import opened Words
  import opened Addresses

  /** What the tree operations touch of a cell record. */
  datatype Cell = Cell(reparentedTo: Option<string>)
  type Cells = map<string, Cell>

  ghost predicate AllValid(cells: Cells) { forall a :: a in cells ==> Valid(a) }

  // ---- Orphans ----

  /** The walk up from an address to the first one with a record. */
  function NearestLiving(cells: Cells, from: Option<string>): (t: Option<string>)
    ensures t.Some? ==> t.value in cells
    decreases if from.Some? then |from.value| + 1 else 0
  {
    match from
    case None => None
    case Some(a) =>
      ParentDropsOneSegment(a);
      if a in cells then Some(a) else NearestLiving(cells, Parent(a))
  }

  /** Where one cell should report when its parent's record is gone; `None` when there is nothing to change. */
  function Target(cells: Cells, a: string): (r: Option<string>) {
    if Parent(a).None? || Parent(a).value in cells then None
    else NearestLiving(cells, Parent(Parent(a).value))
  }

  function Attached(cells: Cells, a: string): (r: Cell)
    requires a in cells
  {
    var t := Target(cells, a);
    if t.Some? then Cell(t) else cells[a]
  }

  /** The whole pass: every cell by itself, from the same set of addresses. */
  function ReparentAll(cells: Cells): (r: Cells) {
    map a | a in cells :: Attached(cells, a)
  }

  lemma {:induction false} NearestDependsOnKeys(c1: Cells, c2: Cells, from: Option<string>)
    requires c1.Keys == c2.Keys
    ensures NearestLiving(c1, from) == NearestLiving(c2, from)
    decreases if from.Some? then |from.value| + 1 else 0
  {
    if from.Some? {
      ParentDropsOneSegment(from.value);
      NearestDependsOnKeys(c1, c2, Parent(from.value));
    }
  }

  lemma TargetDependsOnKeys(c1: Cells, c2: Cells, a: string)
    requires c1.Keys == c2.Keys
    ensures Target(c1, a) == Target(c2, a)
  {
    if Parent(a).Some? {
      NearestDependsOnKeys(c1, c2, Parent(Parent(a).value));
    }
  }

  /**
   `reparent_orphans`. The cells are visited in whatever order the map gives;
   the result does not depend on it.
   */
  method ReparentOrphans(cells: Cells) returns (r: Cells, moved: set<string>)
    ensures r == ReparentAll(cells)
    ensures moved == set a | a in cells && r[a] != cells[a]
  {
    var rest := cells.Keys;
    r, moved := cells, {};
    while rest != {}
      invariant rest <= cells.Keys && r.Keys == cells.Keys
      invariant forall a <- cells.Keys - rest :: r[a] == Attached(cells, a)
      invariant forall a <- rest :: r[a] == cells[a]
      invariant moved == set a | a in cells && r[a] != cells[a]
      decreases |rest|
    {
      var a :| a in rest;
      rest := rest - {a};
      var parent := Parent(a);
      if parent.Some? && parent.value !in r {
        var target := WalkUp(r, Parent(parent.value));
        TargetDependsOnKeys(cells, r, a);
        assert target == Target(cells, a);
        if target.Some? && r[a].reparentedTo != target {
          r := r[a := Cell(target)];
          moved := moved + {a};
        }
      }
    }
    assert cells.Keys - rest == cells.Keys;
  }

  method WalkUp(cells: Cells, from: Option<string>) returns (t: Option<string>)
    ensures t == NearestLiving(cells, from)
  {
    var anc := from;
    while anc.Some? && anc.value !in cells
      invariant NearestLiving(cells, anc) == NearestLiving(cells, from)
      decreases if anc.Some? then |anc.value| + 1 else 0
    {
      ParentDropsOneSegment(anc.value);
      anc := Parent(anc.value);
    }
    return anc;
  }

  /** `t` is a living ancestor of `a`, and every other one is above it. */
  ghost predicate IsNearest(cells: Cells, t: string, a: string) {
    t in cells && forall u <- cells :: IsAncestorOf(u, a) <==> u == t || IsAncestorOf(u, t)
  }

  lemma {:induction false} WalkFindsNearest(cells: Cells, a: string)
    requires Parent(a).Some?
    ensures match NearestLiving(cells, Parent(a))
            case Some(t) => IsNearest(cells, t, a)
            case None => forall u :: u in cells ==> !IsAncestorOf(u, a)
    decreases |a|
  {
    ParentDropsOneSegment(a);
    var p := Parent(a).value;
    forall u ensures IsAncestorOf(u, a) <==> u == p || IsAncestorOf(u, p) {
      AncestorsThroughParent(a, u);
    }
    if p !in cells {
      ParentDropsOneSegment(p);
      if Parent(p).Some? {
        WalkFindsNearest(cells, p);
      } else {
        forall u ensures !IsAncestorOf(u, p) { AncestorsThroughParent(p, u); }
      }
    }
  }

  /** Whom a cell reports to: where it was attached, if it ever was, even while its parent lives; else its parent. */
  function EffectiveParent(cells: Cells, a: string): (t: Option<string>)
    requires a in cells
  {
    if cells[a].reparentedTo.Some? then cells[a].reparentedTo else Parent(a)
  }

  ghost predicate ReportsToNearest(cells: Cells, a: string)
    requires a in cells
  {
    EffectiveParent(cells, a).Some? && IsNearest(cells, EffectiveParent(cells, a).value, a)
  }

  /** While the parent lives, no mark from an earlier orphaning points past it. */
  predicate MarkFollowsParent(cells: Cells, a: string)
    requires a in cells
  {
    Parent(a).Some? && Parent(a).value in cells ==> cells[a].reparentedTo in {None, Parent(a)}
  }

  /** What the pass leaves a cell of a tree with its root. */
  lemma AfterThePass(cells: Cells, a: string)
    requires AllValid(cells) && ROOT in cells && a in cells && a != ROOT
    ensures Parent(a).Some? && NearestLiving(cells, Parent(a)).Some?
    ensures EffectiveParent(ReparentAll(cells), a) ==
            if Parent(a).value in cells then EffectiveParent(cells, a) else NearestLiving(cells, Parent(a))
  {
    RootIsAboveAll(a);
    AncestorsThroughParent(a, ROOT);
    WalkFindsNearest(cells, a);
  }

  /**
   With the root on record, a cell reports to its nearest living ancestor after
   the pass exactly when no stale mark points past a living parent: the pass
   attaches orphans but never clears what an earlier pass wrote.
   */
  lemma ReportsToTheNearestExactly(cells: Cells, a: string)
    requires AllValid(cells) && ROOT in cells && a in cells && a != ROOT
    ensures ReportsToNearest(ReparentAll(cells), a) <==> MarkFollowsParent(cells, a)
  {
    AfterThePass(cells, a);
    WalkFindsNearest(cells, a);
  }

  /** A mark that at least names a living ancestor. */
  predicate MarkLives(cells: Cells, a: string)
    requires a in cells
  {
    Parent(a).Some? && Parent(a).value in cells && cells[a].reparentedTo.Some? ==>
      cells[a].reparentedTo.value in cells && IsAncestorOf(cells[a].reparentedTo.value, a)
  }

  /** Following effective parents, each a living ancestor, ends at the root. */
  ghost predicate ClimbsToRoot(cells: Cells, a: string)
    requires a in cells
    decreases |a|
  {
    a == ROOT ||
    (var t := EffectiveParent(cells, a);
     t.Some? && t.value in cells && IsAncestorOf(t.value, a) && ClimbsToRoot(cells, t.value))
  }

  lemma {:induction false} LivingMarksClimb(cells: Cells, a: string)
    requires AllValid(cells) && ROOT in cells && a in cells
    requires forall b <- cells :: b != ROOT ==> MarkLives(cells, b)
    ensures ClimbsToRoot(ReparentAll(cells), a)
    decreases |a|
  {
    if a != ROOT {
      AfterThePass(cells, a);
      WalkFindsNearest(cells, a);
      ParentDropsOneSegment(a);
      LivingMarksClimb(cells, EffectiveParent(ReparentAll(cells), a).value);
    }
  }

  /** All chains climb to the root exactly when every mark beside a living parent names a living ancestor. */
  lemma AllChainsReachTheRootExactly(cells: Cells)
    requires AllValid(cells) && ROOT in cells
    ensures (forall a <- cells :: ClimbsToRoot(ReparentAll(cells), a)) <==>
            (forall a <- cells :: a != ROOT ==> MarkLives(cells, a))
  {
    if forall b <- cells :: b != ROOT ==> MarkLives(cells, b) {
      forall a <- cells ensures ClimbsToRoot(ReparentAll(cells), a) { LivingMarksClimb(cells, a); }
    }
    if forall b <- cells :: ClimbsToRoot(ReparentAll(cells), b) {
      forall a <- cells | a != ROOT ensures MarkLives(cells, a) {
        assert ClimbsToRoot(ReparentAll(cells), a);
        AfterThePass(cells, a);
      }
    }
  }

  // ---- Where stale marks come from, and where not ----

  function Restrict(disk: Cells, readable: set<string>): (r: Cells) { map a | a in disk && a in readable :: disk[a] }

  /** A boot: the records that parse become the tree, orphans are attached. */
  function Boot(disk: Cells, readable: set<string>): (tree: Cells) { ReparentAll(Restrict(disk, readable)) }

  /** The boot writes the marked cells back. */
  function SaveBack(disk: Cells, tree: Cells): (r: Cells) {
    map a | a in disk :: if a in tree && tree[a].reparentedTo.Some? then tree[a] else disk[a]
  }

  /**
   A parent whose record fails to parse at one boot and parses at the next: its
   children then report past it, for good.
   */
  lemma ParentLostAndFound(disk: Cells, a: string, p: string)
    requires AllValid(disk) && ROOT in disk && a in disk && p in disk
    requires Parent(a) == Some(p) && p != ROOT
    ensures var once := Boot(disk, disk.Keys - {p});
            var twice := Boot(SaveBack(disk, once), disk.Keys);
            && a in twice && p in twice && !ReportsToNearest(twice, a)
            && (Parent(p).Some? && Parent(p).value in disk ==> EffectiveParent(twice, a) == Parent(p))
  {
    var rest := Restrict(disk, disk.Keys - {p});
    ParentDropsOneSegment(a);
    AfterThePass(rest, a);
    WalkFindsNearest(rest, a);
    var once := Boot(disk, disk.Keys - {p});
    var back := SaveBack(disk, once);
    assert Restrict(back, disk.Keys) == back;
    ReportsToTheNearestExactly(back, a);
    var t := NearestLiving(rest, Parent(a)).value;
    assert t in rest && t != p;
    assert once[a].reparentedTo == Some(t);
    ParentDropsOneSegment(p);
  }

  /** For one: cells 0, 0.1 and 0.1.2, with 0.1 unreadable at the first boot. */
  lemma LostAndFoundExample()
    ensures var p, a := Child(ROOT, 1), Child(Child(ROOT, 1), 2);
            var disk := map[ROOT := Cell(None), p := Cell(None), a := Cell(None)];
            var twice := Boot(SaveBack(disk, Boot(disk, disk.Keys - {p})), disk.Keys);
            && a in twice && p in twice
            && EffectiveParent(twice, a) == Some(ROOT)
            && !ReportsToNearest(twice, a)
  {
    var p, a := Child(ROOT, 1), Child(Child(ROOT, 1), 2);
    SplitOfDotFree(ROOT);
    ChildSegments(ROOT, 1);
    ChildSegments(p, 2);
    ParentDropsOneSegment(p);
    ParentDropsOneSegment(a);
    SplitInjective(Parent(p).value, ROOT);
    SplitInjective(Parent(a).value, p);
    ParentLostAndFound(map[ROOT := Cell(None), p := Cell(None), a := Cell(None)], a, p);
  }

  ghost predicate MarksFollowParents(cells: Cells) { forall a <- cells :: MarkFollowsParent(cells, a) }

  /** Records that vanish for good, and the pass over the rest, leave no stale mark. */
  lemma LossKeepsMarks(disk: Cells, readable: set<string>)
    requires MarksFollowParents(disk)
    ensures MarksFollowParents(Boot(disk, readable))
  {
    var rest := Restrict(disk, readable);
    forall a <- Boot(disk, readable) ensures MarkFollowsParent(Boot(disk, readable), a) {
      assert MarkFollowsParent(disk, a);
    }
  }

  /** Neither does minting a child: its address is above no cell, so no orphan gets its parent back. */
  lemma MintKeepsMarks(cells: Cells, parent: string, n: nat)
    requires AllValid(cells) && MarksFollowParents(cells) && IsNextOrdinal(cells, parent, n)
    ensures MarksFollowParents(cells[Child(parent, n) := Cell(None)])
  {
    var more := cells[Child(parent, n) := Cell(None)];
    forall a <- more ensures MarkFollowsParent(more, a) {
      if a in cells {
        MintedAddressIsFresh(cells, parent, n, a);
        ParentDropsOneSegment(a);
        assert MarkFollowsParent(cells, a);
      }
    }
  }

  /** A second pass moves nothing. */
  lemma SecondPassMovesNothing(cells: Cells)
    ensures ReparentAll(ReparentAll(cells)) == ReparentAll(cells)
  {
    var once := ReparentAll(cells);
    forall a | a in cells ensures Attached(once, a) == once[a] {
      TargetDependsOnKeys(cells, once, a);
    }
  }

  // ---- Ordinals ----

  /** The child ordinal under `parent` on the path to `k`, for a descendant `k` whose segment parses. */
  function OrdinalToward(parent: string, k: string): (r: Option<nat>) {
    if !IsAncestorOf(parent, k) then None
    else
      AncestryIsSegmentPrefix(parent, k);
      var seg := Split(k)[|Split(parent)|];
      if GoodSegment(seg) then Some(NumberOf(seg)) else None
  }

  /** One past the highest ordinal on the way to any descendant. */
  ghost predicate IsNextOrdinal(cells: Cells, parent: string, n: nat) {
    && (forall k :: k in cells && OrdinalToward(parent, k).Some? ==> OrdinalToward(parent, k).value < n)
    && (n > 0 ==> exists k :: k in cells && OrdinalToward(parent, k) == Some(n - 1))
  }

  method NextChildOrdinal(cells: Cells, parent: string) returns (n: nat)
    ensures IsNextOrdinal(cells, parent, n)
  {
    n := 0;
    var rest := cells.Keys;
    while rest != {}
      invariant rest <= cells.Keys
      invariant forall k :: k in cells && k !in rest && OrdinalToward(parent, k).Some? ==>
                  OrdinalToward(parent, k).value < n
      invariant n > 0 ==> exists k :: k in cells && OrdinalToward(parent, k) == Some(n - 1)
      decreases |rest|
    {
      var k :| k in rest;
      rest := rest - {k};
      var o := OrdinalToward(parent, k);
      if o.Some? && o.value >= n {
        n := o.value + 1;
        assert OrdinalToward(parent, k) == Some(n - 1);
      }
    }
  }

  /** A cell at or below child `n` shows ordinal `n` to the scan. */
  lemma BelowChildShowsOrdinal(parent: string, n: nat, k: string)
    requires Valid(k) && (Child(parent, n) == k || IsAncestorOf(Child(parent, n), k))
    ensures OrdinalToward(parent, k) == Some(n)
  {
    ChildSegments(parent, n);
    AncestryIsSegmentPrefix(Child(parent, n), k);
    AncestryIsSegmentPrefix(parent, k);
    var depth := |Split(parent)|;
    assert Split(k)[..depth + 1] == Split(parent) + [Decimal(n)];
    assert Split(k)[..depth] == Split(k)[..depth + 1][..depth] == Split(parent);
    assert Split(k)[depth] == Decimal(n);
    DecimalRoundTrip(n);
  }

  /**
   A minted address is never one that exists, nor an ancestor of one: not even
   where the child's own record vanished and only its descendants survive.
   */
  lemma MintedAddressIsFresh(cells: Cells, parent: string, n: nat, k: string)
    requires AllValid(cells) && IsNextOrdinal(cells, parent, n) && k in cells
    ensures Child(parent, n) != k && !IsAncestorOf(Child(parent, n), k)
  {
    if Child(parent, n) == k || IsAncestorOf(Child(parent, n), k) {
      BelowChildShowsOrdinal(parent, n, k);
    }
  }

  // ---- Whole lives of a tree ----

  /** A boot that loses unreadable records for good, or a minted child. */
  datatype Event = BootWith(readable: set<string>) | Mint(parent: string, n: nat)

  function Step(cells: Cells, e: Event): (next: Cells) {
    match e
    case BootWith(readable) => Boot(cells, readable)
    case Mint(parent, n) => cells[Child(parent, n) := Cell(None)]
  }

  /** The root record is never lost, and a child is minted at the next ordinal where the parser takes its address. */
  ghost predicate Allowed(cells: Cells, e: Event) {
    match e
    case BootWith(readable) => ROOT in readable
    case Mint(parent, n) =>
      Valid(parent) && IsNextOrdinal(cells, parent, n) && n < 1_000_000 && |Child(parent, n)| <= 64
  }

  ghost predicate AllowedRun(cells: Cells, events: seq<Event>)
    decreases |events|
  {
    events != [] ==> Allowed(cells, events[0]) && AllowedRun(Step(cells, events[0]), events[1..])
  }

  function After(cells: Cells, events: seq<Event>): (end: Cells)
    decreases |events|
  {
    if events == [] then cells else After(Step(cells, events[0]), events[1..])
  }

  const ROOT_ALONE: Cells := map[ROOT := Cell(None)]

  ghost predicate Sound(cells: Cells) { AllValid(cells) && ROOT in cells && MarksFollowParents(cells) }

  lemma {:induction false} RunKeepsSound(cells: Cells, events: seq<Event>)
    requires Sound(cells) && AllowedRun(cells, events)
    ensures Sound(After(cells, events))
    decreases |events|
  {
    if events != [] {
      match events[0] {
        case BootWith(readable) => LossKeepsMarks(cells, readable);
        case Mint(parent, n) =>
          ChildIsValid(parent, n);
          MintKeepsMarks(cells, parent, n);
      }
      RunKeepsSound(Step(cells, events[0]), events[1..]);
    }
  }

  /**
   A tree grown from its root by minting, through boots that lose any other records
   for good: at every boot each cell reports to its nearest living ancestor.
   */
  lemma GrownTreesReportToTheNearest(events: seq<Event>)
    requires AllowedRun(ROOT_ALONE, events)
    ensures var grown := After(ROOT_ALONE, events);
            forall a <- grown :: a != ROOT ==> ReportsToNearest(ReparentAll(grown), a)
  {
    SplitOfDotFree(ROOT);
    ParentDropsOneSegment(ROOT);
    RunKeepsSound(ROOT_ALONE, events);
    var grown := After(ROOT_ALONE, events);
    forall a <- grown | a != ROOT ensures ReportsToNearest(ReparentAll(grown), a) {
      ReportsToTheNearestExactly(grown, a);
    }
  }
}
