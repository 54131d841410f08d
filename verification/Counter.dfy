/**
 The nonce counter: tasks take numbers below a ceiling that flash has promised,
 with a lock-free retry loop; a top-up raises the ceiling; a reboot resumes
 above the old one. The machine below interleaves the single atomic accesses.
 */
module Counter {
  import opened Words
  import S = Stores

  // ---- Nonces ----

  function NonceFor(sender: u16, ctr: u64): (n: Bytes)
    ensures |n| == 12
  {
    LeBytes(sender, 2) + LeBytes(ctr, 8) + [0, 0]
  }

  function HeaderAad(ver: byte, class_: byte, sender: u16, ctr: u64): (a: Bytes)
    ensures |a| == 12
  {
    [ver, class_] + LeBytes(sender, 2) + LeBytes(ctr, 8)
  }

  lemma NonceInjective(s1: u16, c1: u64, s2: u16, c2: u64)
    requires NonceFor(s1, c1) == NonceFor(s2, c2)
    ensures s1 == s2 && c1 == c2
  {
    var n := NonceFor(s1, c1);
    assert LeBytes(s1, 2) == n[0..2] == LeBytes(s2, 2);
    assert LeBytes(c1, 8) == n[2..10] == LeBytes(c2, 8);
    RoundTrip16(s1);
    RoundTrip16(s2);
    RoundTrip64(c1);
    RoundTrip64(c2);
  }

  /** No two headers share the associated data the tag is computed over. */
  lemma AadInjective(v1: byte, k1: byte, s1: u16, c1: u64, v2: byte, k2: byte, s2: u16, c2: u64)
    requires HeaderAad(v1, k1, s1, c1) == HeaderAad(v2, k2, s2, c2)
    ensures v1 == v2 && k1 == k2
    ensures s1 == s2 && c1 == c2
  {
    var a := HeaderAad(v1, k1, s1, c1);
    assert v1 == a[0] == v2 && k1 == a[1] == k2;
    assert LeBytes(s1, 2) == a[2..4] == LeBytes(s2, 2);
    assert LeBytes(c1, 8) == a[4..12] == LeBytes(c2, 8);
    RoundTrip16(s1);
    RoundTrip16(s2);
    RoundTrip64(c1);
    RoundTrip64(c2);
  }

  // ---- The machine ----

  /** Where a task stands inside `try_next`. */
  datatype Pc = Idle | Loaded(n: u64) | Checked(n: u64)

  /** `raising` is a reservation already on flash whose ceiling RAM has not adopted yet. */
  datatype State = State(next: u64, ceiling: u64, tasks: map<nat, Pc>, raising: Option<u64>,
                         flash: Option<u64>, issued: seq<u64>)

  const NEW_BOARD := State(0, 0, map[], None, None, [])

  datatype Event =
    | Load(task: nat)
    | Check(task: nat)
    | CompareExchange(task: nat)
    | Reserve(reported: bool)  // the write lands; the caller may still see an error
    | ReserveFails
    | RaiseCeiling
    | Boot(readable: bool)

  function PcOf(s: State, task: nat): (r: Pc) { if task in s.tasks then s.tasks[task] else Idle }

  /** `n + 1` on a 64-bit word. */
  function Successor(n: u64): (r: u64) { if n == U64_MAX then 0 else n + 1 }

  function Step(s: State, e: Event): (r: State) {
    match e
    case Load(t) =>
      if PcOf(s, t).Idle? then s.(tasks := s.tasks[t := Loaded(s.next)]) else s
    case Check(t) =>
      (match PcOf(s, t)
       case Loaded(n) =>
         s.(tasks := s.tasks[t := if n == 0 || n > s.ceiling then Idle else Checked(n)])
       case _ => s)
    case CompareExchange(t) =>
      (match PcOf(s, t)
       case Checked(n) =>
         if s.next == n
         then s.(next := Successor(n), issued := s.issued + [n], tasks := s.tasks[t := Idle])
         else s.(tasks := s.tasks[t := Idle])
       case _ => s)
    case Reserve(reported) =>
      (match S.ReserveFromStored(Ok(s.flash), S.CTR_RESERVATION)
       case Ok((_, ceiling)) => s.(flash := Some(ceiling), raising := if reported then Some(ceiling) else s.raising)
       case Err(_) => s)
    case ReserveFails => s
    case RaiseCeiling =>
      if s.raising.Some?
      then s.(ceiling := if s.raising.value > s.ceiling then s.raising.value else s.ceiling, raising := None)
      else s
    case Boot(readable) =>
      if !readable then State(0, 0, map[], None, s.flash, s.issued)
      else
        (match S.ReserveFromStored(Ok(s.flash), S.CTR_RESERVATION)
         case Ok((previous, ceiling)) =>
           State(SaturatingAdd(previous, 1), ceiling, map[], None, Some(ceiling), s.issued)
         case Err(_) => s)
  }

  function Promised(s: State): (r: u64) { if s.flash.Some? then s.flash.value else 0 }

  ghost predicate Distinct(xs: seq<u64>) {
    forall i, j :: 0 <= i < j < |xs| ==> xs[i] != xs[j]
  }

  ghost predicate Inv(s: State) {
    && Distinct(s.issued)
    && (forall i :: 0 <= i < |s.issued| ==> 1 <= s.issued[i] <= Promised(s))
    && (s.next != 0 ==> forall i :: 0 <= i < |s.issued| ==> s.issued[i] < s.next)
    && s.ceiling <= Promised(s)
    && (s.raising.Some? ==> s.raising.value <= Promised(s))
    && (forall t <- s.tasks :: s.tasks[t].Checked? ==> 1 <= s.tasks[t].n <= s.ceiling)
  }

  /** The one boot that cannot resume above what was handed out: the promise is at the top of the range and spent. */
  predicate Exhausted(s: State) {
    s.flash == Some(U64_MAX) && U64_MAX in s.issued
  }

  predicate Allowed(s: State, e: Event) {
    e.Boot? && e.readable ==> !Exhausted(s)
  }

  lemma StepInv(s: State, e: Event)
    requires Inv(s) && Allowed(s, e)
    ensures Inv(Step(s, e))
  {
  }

  function After(s: State, events: seq<Event>): (r: State)
    decreases |events|
  {
    if events == [] then s else After(Step(s, events[0]), events[1..])
  }

  ghost predicate AllowedRun(s: State, events: seq<Event>)
    decreases |events|
  {
    events == [] || (Allowed(s, events[0]) && AllowedRun(Step(s, events[0]), events[1..]))
  }

  lemma {:induction false} RunInv(s: State, events: seq<Event>)
    requires Inv(s) && AllowedRun(s, events)
    ensures Inv(After(s, events))
    decreases |events|
  {
    if events != [] {
      StepInv(s, events[0]);
      RunInv(Step(s, events[0]), events[1..]);
    }
  }

  /**
   Over every interleaving of tasks, top-ups, failed writes and reboots, no
   counter is handed out twice, none is zero, none is above what flash promises.
   */
  lemma NeverHandedOutTwice(events: seq<Event>)
    requires AllowedRun(NEW_BOARD, events)
    ensures var s := After(NEW_BOARD, events);
            && Distinct(s.issued)
            && forall i :: 0 <= i < |s.issued| ==> 1 <= s.issued[i] <= Promised(s)
  {
    RunInv(NEW_BOARD, events);
  }

  /** At the moment of handing out, the number is under the ceiling flash already holds. */
  lemma HandedOutUnderThePromise(s: State, t: nat)
    requires Inv(s)
    ensures var v := Step(s, CompareExchange(t));
            v.issued != s.issued ==>
              |v.issued| == |s.issued| + 1 && 1 <= v.issued[|s.issued|] <= s.ceiling <= Promised(s)
              && v.issued[|s.issued|] !in s.issued
  {
  }

  /** A top-up that was reported and adopted brings the ceiling up to all that flash promises, one reservation more. */
  lemma TopUpReachesThePromise(s: State)
    requires Inv(s)
    ensures var v := Step(Step(s, Reserve(true)), RaiseCeiling);
            && v.ceiling == Promised(v) && v.next == s.next && v.issued == s.issued
            && Promised(v) == if Promised(s) + 1024 > U64_MAX then U64_MAX else Promised(s) + 1024
  {
  }

  /** An undisturbed `try_next` right after a boot. */
  function FirstTake(s: State, t: nat): (r: State) {
    Step(Step(Step(Step(s, Boot(true)), Load(t)), Check(t)), CompareExchange(t))
  }

  /** The condition is exact: an allowed boot resumes on a new counter, any other repeats one at once. */
  lemma ExhaustedBootRepeats(s: State, t: nat)
    requires Inv(s)
    ensures Distinct(FirstTake(s, t).issued) <==> !Exhausted(s)
    ensures FirstTake(s, t).issued == s.issued + [Step(s, Boot(true)).next]
  {
    var booted := Step(s, Boot(true));
    assert FirstTake(s, t).issued == s.issued + [booted.next];
    if Exhausted(s) {
      var i :| 0 <= i < |s.issued| && s.issued[i] == U64_MAX;
      assert FirstTake(s, t).issued[i] == FirstTake(s, t).issued[|s.issued|];
    } else {
      StepInv(s, Boot(true));
    }
  }

  /** Each event raises the promise by at most one reservation. */
  lemma {:induction false} PromiseGrowsSlowly(s: State, events: seq<Event>)
    ensures Promised(After(s, events)) <= Promised(s) + S.CTR_RESERVATION * |events|
    decreases |events|
  {
    if events != [] {
      PromiseGrowsSlowly(Step(s, events[0]), events[1..]);
    }
  }

  /** So a board runs out only after some 2^54 flash writes; below that no condition is needed. */
  lemma {:induction false} ShortLivesAreAllowed(s: State, events: seq<Event>)
    requires Promised(s) + S.CTR_RESERVATION * |events| < U64_MAX
    ensures AllowedRun(s, events)
    decreases |events|
  {
    if events != [] {
      ShortLivesAreAllowed(Step(s, events[0]), events[1..]);
    }
  }

  /** No two nonces ever coincide: neither on one board nor between boards with different ids. */
  lemma NoncesNeverRepeat(s1: u16, life1: seq<Event>, i: nat, s2: u16, life2: seq<Event>, j: nat)
    requires AllowedRun(NEW_BOARD, life1) && AllowedRun(NEW_BOARD, life2)
    requires i < |After(NEW_BOARD, life1).issued| && j < |After(NEW_BOARD, life2).issued|
    requires s1 == s2 ==> life1 == life2 && i != j
    ensures NonceFor(s1, After(NEW_BOARD, life1).issued[i]) != NonceFor(s2, After(NEW_BOARD, life2).issued[j])
  {
    var c1, c2 := After(NEW_BOARD, life1).issued[i], After(NEW_BOARD, life2).issued[j];
    NeverHandedOutTwice(life1);
    if NonceFor(s1, c1) == NonceFor(s2, c2) {
      NonceInjective(s1, c1, s2, c2);
    }
  }

  // ---- One call of try_next, with the other tasks at work ----

  predicate Foreign(task: nat, e: Event) {
    match e
    case Load(t) => t != task
    case Check(t) => t != task
    case CompareExchange(t) => t != task
    case Boot(_) => false
    case _ => true
  }

  /** What the other tasks do during one attempt: between its two loads, and between the second and the exchange. */
  datatype Gap = Gap(toCheck: seq<Event>, toExchange: seq<Event>)

  predicate AllForeign(task: nat, events: seq<Event>) { forall e <- events :: Foreign(task, e) }

  predicate ForeignGaps(task: nat, gaps: seq<Gap>) {
    forall g <- gaps :: AllForeign(task, g.toCheck) && AllForeign(task, g.toExchange)
  }

  function GapAt(gaps: seq<Gap>): (g: Gap) { if gaps == [] then Gap([], []) else gaps[0] }

  datatype Outcome = Outcome(end: State, taken: Option<u64>, events: seq<Event>)

  /** The machine's run of one call: attempts until the exchange succeeds or the range is used up. */
  function TryRun(s: State, task: nat, gaps: seq<Gap>): (r: Outcome)
    decreases |gaps|
  {
    var loaded := After(Step(s, Load(task)), GapAt(gaps).toCheck);
    var checked := Step(loaded, Check(task));
    var start := [Load(task)] + GapAt(gaps).toCheck + [Check(task)];
    match PcOf(checked, task)
    case Checked(n) =>
      var ready := After(checked, GapAt(gaps).toExchange);
      var end := Step(ready, CompareExchange(task));
      var events := start + GapAt(gaps).toExchange + [CompareExchange(task)];
      if ready.next == n then Outcome(end, Some(n), events)
      else if gaps == [] then Outcome(end, None, events)
      else
        var rest := TryRun(end, task, gaps[1..]);
        Outcome(rest.end, rest.taken, events + rest.events)
    case _ => Outcome(checked, None, start)
  }

  lemma {:induction false} AfterSplits(s: State, a: seq<Event>, b: seq<Event>)
    ensures After(s, a + b) == After(After(s, a), b)
    decreases |a|
  {
    if a == [] {
      assert a + b == b;
    } else {
      assert (a + b)[1..] == a[1..] + b;
      AfterSplits(Step(s, a[0]), a[1..], b);
    }
  }

  lemma {:induction false} ForeignKeepsPc(s: State, task: nat, events: seq<Event>)
    requires AllForeign(task, events)
    ensures PcOf(After(s, events), task) == PcOf(s, task)
    ensures AllowedRun(s, events)
    ensures s.issued <= After(s, events).issued
    decreases |events|
  {
    if events != [] {
      assert Foreign(task, events[0]);
      assert AllForeign(task, events[1..]);
      ForeignKeepsPc(Step(s, events[0]), task, events[1..]);
    }
  }

  /** From the load to the comparison with the ceiling. */
  lemma UpToCheck(s: State, task: nat, g: Gap)
    requires PcOf(s, task).Idle? && AllForeign(task, g.toCheck)
    ensures var loaded := After(Step(s, Load(task)), g.toCheck);
            var checked := Step(loaded, Check(task));
            && checked == After(s, [Load(task)] + g.toCheck + [Check(task)])
            && checked.next == loaded.next && checked.ceiling == loaded.ceiling
            && s.issued <= checked.issued
            && PcOf(checked, task) == if s.next == 0 || s.next > loaded.ceiling then Idle else Checked(s.next)
  {
    var first := Step(s, Load(task));
    var loaded := After(first, g.toCheck);
    ForeignKeepsPc(first, task, g.toCheck);
    AfterSplits(s, [Load(task)] + g.toCheck, [Check(task)]);
    AfterSplits(s, [Load(task)], g.toCheck);
  }

  /** From there over the exchange. */
  lemma OverExchange(checked: State, task: nat, g: Gap)
    requires PcOf(checked, task).Checked? && AllForeign(task, g.toExchange)
    ensures var n := PcOf(checked, task).n;
            var ready := After(checked, g.toExchange);
            var end := Step(ready, CompareExchange(task));
            && end == After(checked, g.toExchange + [CompareExchange(task)])
            && PcOf(end, task).Idle? && end.ceiling == ready.ceiling
            && end.next == (if ready.next == n then Successor(n) else ready.next)
            && checked.issued <= ready.issued
            && end.issued == ready.issued + if ready.next == n then [n] else []
  {
    var ready := After(checked, g.toExchange);
    ForeignKeepsPc(checked, task, g.toExchange);
    AfterSplits(checked, g.toExchange, [CompareExchange(task)]);
  }

  /** One attempt that gets past that comparison. */
  lemma AttemptIsARun(s: State, task: nat, g: Gap)
    requires PcOf(s, task).Idle? && AllForeign(task, g.toCheck) && AllForeign(task, g.toExchange)
    requires PcOf(Step(After(Step(s, Load(task)), g.toCheck), Check(task)), task).Checked?
    ensures var ready := After(Step(After(Step(s, Load(task)), g.toCheck), Check(task)), g.toExchange);
            var end := Step(ready, CompareExchange(task));
            && end == After(s, [Load(task)] + g.toCheck + [Check(task)] + g.toExchange + [CompareExchange(task)])
            && PcOf(end, task).Idle?
            && s.issued <= ready.issued
            && end.issued == ready.issued + if ready.next == s.next then [s.next] else []
  {
    var start := [Load(task)] + g.toCheck + [Check(task)];
    var more := g.toExchange + [CompareExchange(task)];
    UpToCheck(s, task, g);
    OverExchange(After(s, start), task, g);
    AfterSplits(s, start, more);
    assert start + more == start + g.toExchange + [CompareExchange(task)];
  }

  /** What one outcome must satisfy to be a run from `s`. */
  ghost predicate RunFrom(s: State, task: nat, r: Outcome) {
    && r.end == After(s, r.events) && PcOf(r.end, task).Idle?
    && s.issued <= r.end.issued
    && (r.taken.Some? ==> |r.end.issued| > |s.issued| && r.end.issued[|r.end.issued| - 1] == r.taken.value)
  }

  lemma RunsChain(s: State, task: nat, first: seq<Event>, r: Outcome)
    requires s.issued <= After(s, first).issued && RunFrom(After(s, first), task, r)
    ensures RunFrom(s, task, Outcome(r.end, r.taken, first + r.events))
  {
    AfterSplits(s, first, r.events);
  }

  /** A call is a run of the machine; what it takes is the last number issued in it. */
  lemma {:induction false} TryIsARun(s: State, task: nat, gaps: seq<Gap>)
    requires PcOf(s, task).Idle? && ForeignGaps(task, gaps)
    ensures RunFrom(s, task, TryRun(s, task, gaps))
    decreases |gaps|
  {
    var g := GapAt(gaps);
    UpToCheck(s, task, g);
    var checked := Step(After(Step(s, Load(task)), g.toCheck), Check(task));
    if PcOf(checked, task).Checked? {
      AttemptIsARun(s, task, g);
      var ready := After(checked, g.toExchange);
      if ready.next != s.next && gaps != [] {
        var end := Step(ready, CompareExchange(task));
        TryIsARun(end, task, gaps[1..]);
        RunsChain(s, task, [Load(task)] + g.toCheck + [Check(task)] + g.toExchange + [CompareExchange(task)],
                  TryRun(end, task, gaps[1..]));
      }
    }
  }

  predicate NoBoots(events: seq<Event>) { forall e <- events :: !e.Boot? }

  lemma {:induction false} WithoutBootsAllowed(s: State, events: seq<Event>)
    requires NoBoots(events)
    ensures AllowedRun(s, events)
    decreases |events|
  {
    if events != [] {
      assert !events[0].Boot?;
      assert NoBoots(events[1..]);
      WithoutBootsAllowed(Step(s, events[0]), events[1..]);
    }
  }

  /** An attempt among other tasks has no boot in it. */
  lemma AttemptHasNoBoots(task: nat, g: Gap)
    requires AllForeign(task, g.toCheck) && AllForeign(task, g.toExchange)
    ensures var start := [Load(task)] + g.toCheck + [Check(task)];
            NoBoots(start) && NoBoots(start + g.toExchange + [CompareExchange(task)])
  {
    forall e <- g.toCheck + g.toExchange ensures !e.Boot? { assert Foreign(task, e); }
  }

  lemma {:induction false} TryHasNoBoots(s: State, task: nat, gaps: seq<Gap>)
    requires ForeignGaps(task, gaps)
    ensures NoBoots(TryRun(s, task, gaps).events)
    decreases |gaps|
  {
    AttemptHasNoBoots(task, GapAt(gaps));
    if gaps != [] {
      var checked := Step(After(Step(s, Load(task)), gaps[0].toCheck), Check(task));
      TryHasNoBoots(Step(After(checked, gaps[0].toExchange), CompareExchange(task)), task, gaps[1..]);
    }
  }

  /** Whatever the other tasks do meanwhile, a call that returns a number returns a new one, nonzero and promised. */
  lemma TryTakesANewNumber(s: State, task: nat, gaps: seq<Gap>)
    requires Inv(s) && PcOf(s, task).Idle? && ForeignGaps(task, gaps)
    ensures var r := TryRun(s, task, gaps);
            Inv(r.end) && (r.taken.Some? ==>
              r.taken.value !in s.issued && r.taken.value in r.end.issued && 1 <= r.taken.value <= Promised(r.end))
  {
    var r := TryRun(s, task, gaps);
    TryIsARun(s, task, gaps);
    TryHasNoBoots(s, task, gaps);
    WithoutBootsAllowed(s, r.events);
    RunInv(s, r.events);
    if r.taken.Some? {
      forall i | 0 <= i < |s.issued| ensures s.issued[i] != r.taken.value {
        assert r.end.issued[i] == s.issued[i];
      }
    }
  }

  /** Other tasks only move the next number on, until the range is used up for good. */
  lemma {:induction false} ForeignOnlyAdvances(s: State, task: nat, events: seq<Event>)
    requires Inv(s) && AllForeign(task, events)
    ensures var v := After(s, events);
            v.next == 0 || 0 < s.next <= v.next
    decreases |events|
  {
    if events != [] {
      assert Foreign(task, events[0]) && AllForeign(task, events[1..]);
      StepInv(s, events[0]);
      ForeignOnlyAdvances(Step(s, events[0]), task, events[1..]);
    }
  }

  /** A task that finds its number out of range has seen the range used up. */
  lemma OutOfRangeMeansUsedUp(s: State, task: nat, g: Gap)
    requires Inv(s) && PcOf(s, task).Idle? && AllForeign(task, g.toCheck)
    ensures var checked := Step(After(Step(s, Load(task)), g.toCheck), Check(task));
            Inv(checked) && (PcOf(checked, task).Idle? ==> checked.next == 0 || checked.next > checked.ceiling)
  {
    var first := Step(s, Load(task));
    UpToCheck(s, task, g);
    StepInv(s, Load(task));
    ForeignKeepsPc(first, task, g.toCheck);
    RunInv(first, g.toCheck);
    ForeignOnlyAdvances(first, task, g.toCheck);
    StepInv(After(first, g.toCheck), Check(task));
  }

  /**
   The retry never gives up early: under any interference, a call that returns no
   number leaves the range used up - no next number, or one above the ceiling.
   */
  lemma {:induction false} NoneMeansUsedUp(s: State, task: nat, gaps: seq<Gap>)
    requires Inv(s) && PcOf(s, task).Idle? && ForeignGaps(task, gaps)
    ensures var r := TryRun(s, task, gaps);
            r.taken.None? ==> r.end.next == 0 || r.end.next > r.end.ceiling
    decreases |gaps|
  {
    var g := GapAt(gaps);
    UpToCheck(s, task, g);
    OutOfRangeMeansUsedUp(s, task, g);
    var checked := Step(After(Step(s, Load(task)), g.toCheck), Check(task));
    if PcOf(checked, task).Checked? && gaps != [] {
      ForeignKeepsPc(checked, task, g.toExchange);
      RunInv(checked, g.toExchange);
      OverExchange(checked, task, g);
      var ready := After(checked, g.toExchange);
      StepInv(ready, CompareExchange(task));
      NoneMeansUsedUp(Step(ready, CompareExchange(task)), task, gaps[1..]);
    }
  }

  /** A call left alone takes the next number, exactly when there is one under the ceiling. */
  lemma TryUndisturbed(s: State, task: nat)
    requires PcOf(s, task).Idle?
    ensures var r := TryRun(s, task, []);
            && r.taken == (if s.next == 0 || s.next > s.ceiling then None else Some(s.next))
            && r.end.next == (if r.taken.Some? then Successor(s.next) else s.next)
            && r.end.ceiling == s.ceiling
  {
    UpToCheck(s, task, Gap([], []));
    var checked := Step(Step(s, Load(task)), Check(task));
    if PcOf(checked, task).Checked? { OverExchange(checked, task, Gap([], [])); }
  }

  /** The allocator's two cells. */
  class Allocator {
    var next: u64
    var ceiling: u64

    /** The cells as the machine has them. */
    predicate Shows(s: State)
      reads this
    {
      next == s.next && ceiling == s.ceiling
    }

    constructor ()
      ensures Shows(NEW_BOARD)
    {
      next, ceiling := 0, 0;
    }

    /**
     Called at boot with what the reservation returned, the cells are the machine's
     after a readable boot: above every number ever handed out unless the range is spent.
     */
    method Init(previousHighWater: u64, newCeiling: u64, ghost s: State)
      modifies this
      ensures S.ReserveFromStored(Ok(s.flash), S.CTR_RESERVATION) == Ok((previousHighWater, newCeiling)) ==>
                && Shows(Step(s, Boot(true)))
                && (Inv(s) && !Exhausted(s) ==> forall i :: 0 <= i < |s.issued| ==> s.issued[i] < next)
    {
      next := SaturatingAdd(previousHighWater, 1);
      ceiling := newCeiling;
    }

    /** Adopting a reservation moves the cells as the machine's step does, and never lowers the ceiling. */
    method Raise(newCeiling: u64, ghost s: State)
      modifies this
      ensures next == old(next) && ceiling >= old(ceiling)
      ensures old(Shows(s)) && s.raising == Some(newCeiling) ==>
                Shows(Step(s, RaiseCeiling)) && (Inv(s) ==> ceiling <= Promised(s))
    {
      if newCeiling > ceiling {
        ceiling := newCeiling;
      }
    }

    /** The compare-exchange itself. */
    method Exchange(expected: u64, desired: u64) returns (ok: bool)
      modifies this
      ensures ceiling == old(ceiling)
      ensures ok == (old(next) == expected) && next == if ok then desired else old(next)
    {
      ok := next == expected;
      if ok {
        next := desired;
      }
    }

    /** The other tasks' turn: the machine moves on, and the cells with it. */
    method LetOthersRun(s: State, events: seq<Event>) returns (v: State)
      requires Shows(s)
      modifies this
      ensures v == After(s, events) && Shows(v)
    {
      v := After(s, events);
      next, ceiling := v.next, v.ceiling;
    }

    /** `try_next` by `task`, in machine state `s`, while the other tasks do what `gaps` says. */
    method TryNext(s: State, task: nat, gaps: seq<Gap>) returns (taken: Option<u64>)
      requires Shows(s) && PcOf(s, task).Idle? && ForeignGaps(task, gaps)
      modifies this
      ensures taken == TryRun(s, task, gaps).taken && Shows(TryRun(s, task, gaps).end)
    {
      var m := s;
      var k := 0;
      while true
        invariant k <= |gaps| && Shows(m) && PcOf(m, task).Idle? && ForeignGaps(task, gaps[k..])
        invariant TryRun(m, task, gaps[k..]).taken == TryRun(s, task, gaps).taken
        invariant TryRun(m, task, gaps[k..]).end == TryRun(s, task, gaps).end
        decreases |gaps| - k
      {
        var g := GapAt(gaps[k..]);
        UpToCheck(m, task, g);
        var n := next;
        m := LetOthersRun(Step(m, Load(task)), g.toCheck);
        m := Step(m, Check(task));
        if n == 0 || n > ceiling {
          return None;
        }
        OverExchange(m, task, g);
        m := LetOthersRun(m, g.toExchange);
        var ok := Exchange(n, Successor(n));
        m := Step(m, CompareExchange(task));
        if ok {
          return Some(n);
        }
        assert gaps[k..][1..] == gaps[k + 1..];
        k := k + 1;
      }
    }
  }
}
