/**
 A measured cell at work: each turn reports a reading or none, the step counter
 runs up to the cell's ceiling, and at the ceiling a cell whose record is still
 falling is granted more steps out of its parent's budget.
 */
module Laps {
  import opened Words
  import opened Budgets

  const MEASURE_HISTORY_CAP: nat := 64

  /** What ends a turn: go on, be done, wait, or no report at all. Readings that are not integers count as absent. */
  datatype Report =
    | Continue(reading: Option<nat>)
    | Finish(reading: Option<nat>)
    | Pause
    | Silence

  /** `Live`: a turn is under way; `Resting`: blocked, idle or parked until woken. */
  datatype Stand = Live | Resting | Ended

  datatype Ring = Ring(measured: bool, parent: Budget, cell: Budget, history: seq<nat>, step: nat, ceiling: nat,
                       stand: Stand)

  /** The last readings a cell record keeps. */
  function Capped(history: seq<nat>): (h: seq<nat>) {
    if |history| > MEASURE_HISTORY_CAP then history[|history| - MEASURE_HISTORY_CAP..] else history
  }

  /** The record the lap is judged on. */
  function Projected(r: Ring, reading: Option<nat>): (h: seq<nat>) {
    if r.measured && reading.Some? then r.history + [reading.value] else r.history
  }

  /** The record the lap leaves. */
  function Kept(r: Ring, reading: Option<nat>): (h: seq<nat>) {
    if r.measured && reading.Some? then Capped(r.history + [reading.value]) else r.history
  }

  predicate Falling(h: seq<nat>) { |h| >= 2 && h[|h| - 1] < h[|h| - 2] }

  /** The last two laps were both not below the lap before. */
  predicate KStalled(h: seq<nat>) {
    |h| >= 3 && h[|h| - 1] >= h[|h| - 2] && h[|h| - 2] >= h[|h| - 3]
  }

  /** The grant a lap would get. */
  function GrantOf(r: Ring, reading: Option<nat>): (g: Option<nat>) {
    var h := Projected(r, reading);
    if r.measured && !KStalled(h) && r.step >= r.ceiling then RenewalGrant(r.parent.steps, h) else None
  }

  /** A turn that reports `continue`. */
  function Lap(r: Ring, reading: Option<nat>): (next: Ring) {
    var h := Projected(r, reading);
    var kept := r.(history := Kept(r, reading));
    if r.measured && KStalled(h) then kept.(stand := Resting)
    else if r.step >= r.ceiling then
      match GrantOf(r, reading)
      case None => kept.(stand := Ended)
      case Some(g) =>
        var (parent, cell) := Renew(r.parent, r.cell, h);
        kept.(parent := parent, cell := cell, step := r.step + 1, ceiling := r.ceiling + g)
    else kept.(step := r.step + 1)
  }

  /** `SiblingRenews`: another cell takes a grant from the same parent. */
  datatype Event = Turn(report: Report) | Wake | Rest | SiblingRenews

  function Sibling(parent: Budget): (left: Budget) {
    if parent.steps < 2 then parent else parent.(steps := parent.steps - Max(parent.steps / 2, 1))
  }

  function Step(r: Ring, e: Event): (next: Ring) {
    match e
    case Turn(report) =>
      if !r.stand.Live? then r
      else
        (match report
         case Continue(reading) => Lap(r, reading)
         case Finish(reading) => r.(history := Kept(r, reading), stand := Ended)
         case Pause => r.(stand := Resting)
         case Silence => r.(stand := Ended))
    case Wake => if r.stand.Resting? then r.(stand := Live) else r
    case Rest => if r.stand.Live? then r.(stand := Resting) else r
    case SiblingRenews => r.(parent := Sibling(r.parent))
  }

  function After(r: Ring, events: seq<Event>): (end: Ring)
    decreases |events|
  {
    if events == [] then r else After(Step(r, events[0]), events[1..])
  }

  // ---- When a lap is granted steps ----

  /**
   Exactly the cells at their ceiling whose record falls, under a parent with two
   steps to share; a falling record is never K-stalled.
   */
  lemma GrantedExactly(r: Ring, reading: Option<nat>)
    ensures GrantOf(r, reading).Some? <==>
            r.measured && r.step >= r.ceiling && r.parent.steps >= 2 && Falling(Projected(r, reading))
  {
  }

  /** The last two of the readings, this lap's included, both did not fall. */
  predicate NotFallingTwice(r: Ring, reading: Option<nat>) {
    var h := r.history + if reading.Some? then [reading.value] else [];
    && r.measured && |h| >= 3
    && h[|h| - 1] >= h[|h| - 2] >= h[|h| - 3]
  }

  /**
   How a lap ends: stalled, the cell rests; out of steps without a grant, it is done;
   else it takes the next step, at its ceiling with half its parent's steps moved to it.
   */
  lemma LapMeaning(r: Ring, reading: Option<nat>)
    requires r.stand.Live?
    ensures var v := Step(r, Turn(Continue(reading)));
            && (v.stand == Resting <==> NotFallingTwice(r, reading))
            && (v.stand == Ended <==>
                !NotFallingTwice(r, reading) && r.step >= r.ceiling && GrantOf(r, reading) == None)
            && (v.step == if v.stand == Live then r.step + 1 else r.step)
            && (r.step < r.ceiling || v.stand != Live ==>
                  v == r.(history := v.history, stand := v.stand, step := v.step))
            && (r.step >= r.ceiling && v.stand == Live ==>
                  var g := r.parent.steps / 2;
                  && v.parent == r.parent.(steps := r.parent.steps - g) && v.ceiling == r.ceiling + g
                  && v.cell == r.cell.(steps := if r.cell.steps + g > 0xFFFF then 0xFFFF else r.cell.steps + g))
  {
    assert r.history + [] == r.history;
  }

  /** A cell that ended never works again; only its siblings still draw on the parent. */
  lemma {:induction false} EndedForGood(r: Ring, events: seq<Event>)
    requires r.stand == Ended
    ensures After(r, events) == r.(parent := After(r, events).parent)
    decreases |events|
  {
    if events != [] { EndedForGood(Step(r, events[0]), events[1..]); }
  }

  /** What a turn reports for the record. */
  function ReadingOf(r: Ring, e: Event): (readings: seq<nat>) {
    if e.Turn? && r.stand == Live && r.measured && (e.report.Continue? || e.report.Finish?) && e.report.reading.Some?
    then [e.report.reading.value] else []
  }

  function Readings(r: Ring, events: seq<Event>): (readings: seq<nat>)
    decreases |events|
  {
    if events == [] then [] else ReadingOf(r, events[0]) + Readings(Step(r, events[0]), events[1..])
  }

  function Last64(s: seq<nat>): (t: seq<nat>) { if |s| <= 64 then s else s[|s| - 64..] }

  lemma LastOfLast(a: seq<nat>, b: seq<nat>, c: seq<nat>)
    ensures Last64(Last64(a + b) + c) == Last64(a + (b + c))
  {
    var s := a + b;
    assert s + c == a + (b + c);
    if |s| > 64 {
      assert Last64(s) + c == (s + c)[|s| - 64..];
    }
  }

  lemma StepRecords(r: Ring, e: Event)
    requires |r.history| <= 64
    ensures Step(r, e).history == Last64(r.history + ReadingOf(r, e))
  {
    assert r.history + [] == r.history;
  }

  /** The record is the last 64 readings, whatever ended the turns they came from. */
  lemma {:induction false} RecordIsTheReadings(r: Ring, events: seq<Event>)
    requires |r.history| <= 64
    ensures After(r, events).history == Last64(r.history + Readings(r, events))
    decreases |events|
  {
    if events == [] {
      assert r.history + [] == r.history;
    } else {
      var next := Step(r, events[0]);
      StepRecords(r, events[0]);
      RecordIsTheReadings(next, events[1..]);
      LastOfLast(r.history, ReadingOf(r, events[0]), Readings(next, events[1..]));
    }
  }

  /** This lap's own reading is below the one recorded before it. */
  predicate ReadingFell(r: Ring, reading: Option<nat>) {
    reading.Some? && r.history != [] && reading.value < r.history[|r.history| - 1]
  }

  /**
   Renewal is promised to a cell whose last lap strictly decreased. A granted lap
   keeps that promise exactly when it carried a reading: without one it is judged
   on the old record.
   */
  lemma GrantKeepsThePromiseExactly(r: Ring, reading: Option<nat>)
    requires GrantOf(r, reading).Some?
    ensures ReadingFell(r, reading) <==> reading.Some?
  {
    if reading.Some? {
      var h := r.history + [reading.value];
      assert h[|h| - 2] == r.history[|r.history| - 1];
    }
  }

  /** So after one fall a cell that reports no more readings is granted all its parent can give. */
  lemma {:induction false} SilentLapsSpendEverything(r: Ring, n: nat)
    requires r.measured && r.stand.Live? && Falling(r.history) && r.step <= r.ceiling && r.parent.steps >= 1
    requires n == r.ceiling - r.step + r.parent.steps - 1
    ensures var end := After(r, seq(n, _ => Turn(Continue(None))));
            && end.parent.steps == 1
            && end.step == end.ceiling == r.ceiling + r.parent.steps - 1
            && end.stand.Live? && Step(end, Turn(Continue(None))).stand.Ended?
    decreases n
  {
    if n > 0 {
      var events := seq(n, _ => Turn(Continue(None)));
      assert events[1..] == seq(n - 1, _ => Turn(Continue(None)));
      SilentLapsSpendEverything(Step(r, events[0]), n - 1);
    }
  }

  // ---- What every run keeps ----

  /** The event takes a grant out of the parent. */
  predicate Takes(r: Ring, e: Event) {
    || (e.Turn? && r.stand.Live? && e.report.Continue? && GrantOf(r, e.report.reading).Some?)
    || (e.SiblingRenews? && r.parent.steps >= 2)
  }

  function Grants(r: Ring, events: seq<Event>): (k: nat)
    decreases |events|
  {
    if events == [] then 0 else (if Takes(r, events[0]) then 1 else 0) + Grants(Step(r, events[0]), events[1..])
  }

  /** The steps that went to siblings. */
  function ByOthers(r: Ring, events: seq<Event>): (steps: int)
    decreases |events|
  {
    if events == [] then 0
    else
      (if events[0].SiblingRenews? then r.parent.steps - Sibling(r.parent).steps else 0)
      + ByOthers(Step(r, events[0]), events[1..])
  }

  /** Over any run the parent is halved, floor 1, once for each grant taken and not otherwise. */
  lemma {:induction false} RunDrains(r: Ring, events: seq<Event>)
    ensures After(r, events).parent.steps == Drained(r.parent.steps, Grants(r, events))
    decreases |events|
  {
    if events != [] {
      var next := Step(r, events[0]);
      assert next.parent.steps == Drained(r.parent.steps, if Takes(r, events[0]) then 1 else 0);
      RunDrains(next, events[1..]);
      DrainedAdds(r.parent.steps, if Takes(r, events[0]) then 1 else 0, Grants(next, events[1..]));
    }
  }

  /** The grants a parent can still fund are those it could fund before, less those taken. */
  lemma {:induction false} GrantsAreCounted(r: Ring, events: seq<Event>)
    ensures var left := After(r, events).parent.steps;
            && (r.parent.steps >= 1 ==> left >= 1)
            && GrantCount(left) + Grants(r, events) == GrantCount(r.parent.steps)
    decreases |events|
  {
    if events != [] {
      assert Step(r, events[0]).parent.steps == Drained(r.parent.steps, if Takes(r, events[0]) then 1 else 0);
      GrantsAreCounted(Step(r, events[0]), events[1..]);
    }
  }

  /**
   Whatever the cell reports and its siblings take, the parent keeps at least one
   step, never gives more than ceil(log2) grants, and is down to exactly one step
   if and only if it gave them all.
   */
  lemma GrantsDrainTheParent(r: Ring, events: seq<Event>)
    requires r.parent.steps >= 1
    ensures var left := After(r, events).parent.steps;
            && left >= 1
            && Grants(r, events) <= GrantCount(r.parent.steps)
            && (left == 1 <==> Grants(r, events) == GrantCount(r.parent.steps))
  {
    GrantsAreCounted(r, events);
  }

  /**
   Steps come from nowhere else: ceiling, parent and what siblings took add up to
   the same all along, and the cell never steps past its ceiling.
   */
  lemma {:induction false} StepsAreBudgeted(r: Ring, events: seq<Event>)
    requires r.step <= r.ceiling
    ensures var end := After(r, events);
            && end.step <= end.ceiling
            && end.ceiling + end.parent.steps + ByOthers(r, events) == r.ceiling + r.parent.steps
            && ByOthers(r, events) >= 0
    decreases |events|
  {
    if events != [] {
      StepsAreBudgeted(Step(r, events[0]), events[1..]);
    }
  }

  /** Hence a cell takes at most its first ceiling and all but one of its parent's steps. */
  lemma StepsAreBounded(r: Ring, events: seq<Event>)
    requires r.step <= r.ceiling && r.parent.steps >= 1
    ensures After(r, events).step <= r.ceiling + r.parent.steps - 1
  {
    StepsAreBudgeted(r, events);
    GrantsDrainTheParent(r, events);
  }

  /** Below its ceiling a cell takes no grant, whatever it reports. */
  lemma {:induction false} NoGrantBelowTheCeiling(r: Ring, events: seq<Event>)
    requires r.step + |events| <= r.ceiling
    requires forall e <- events :: !e.SiblingRenews?
    ensures Grants(r, events) == 0
    decreases |events|
  {
    if events != [] {
      assert !events[0].SiblingRenews?;
      NoGrantBelowTheCeiling(Step(r, events[0]), events[1..]);
    }
  }

  /** A grant of `g` at the ceiling is followed by no other for `g - 1` events: it has to be worked off first. */
  lemma GrantsAreSpaced(r: Ring, reading: Option<nat>, events: seq<Event>)
    requires r.step == r.ceiling && GrantOf(r, reading).Some?
    requires |events| < GrantOf(r, reading).value && forall e <- events :: !e.SiblingRenews?
    ensures Grants(Lap(r, reading), events) == 0
  {
    NoGrantBelowTheCeiling(Lap(r, reading), events);
  }

  /** Three falling readings at a ceiling of four, under a parent of eight: one grant of four, not three grants. */
  lemma ThreeFallsOneGrant(cell: Budget)
    ensures var parent := Budget(2, 1, 8, 0);
            var r := Ring(true, parent, cell, [10], 4, 4, Live);
            var end := After(r, [Turn(Continue(Some(9))), Turn(Continue(Some(8))), Turn(Continue(Some(7)))]);
            end.parent.steps == 4 && end.ceiling == 8 && end.step == 7
  {
    var r := Ring(true, Budget(2, 1, 8, 0), cell, [10], 4, 4, Live);
    var events := [Turn(Continue(Some(9))), Turn(Continue(Some(8))), Turn(Continue(Some(7)))];
    var r1 := Step(r, events[0]);
    assert r1.parent.steps == 4 && r1.ceiling == 8 && r1.step == 5 && r1.history == [10, 9];
    var r2 := Step(r1, events[1]);
    assert r2.parent.steps == 4 && r2.step == 6 && r2.history == [10, 9, 8];
    assert After(r, events) == After(r1, events[1..]);
    assert events[1..][1..] == [events[2]] && [events[2]][1..] == [];
    assert After(r1, events[1..]) == After(r2, [events[2]]);
    assert After(r2, [events[2]]) == Step(r2, events[2]);
  }

  /** And one that no reading earned: the second lap reports none and is granted again. */
  lemma SilentLapIsGranted(cell: Budget)
    ensures var r := Ring(true, Budget(2, 1, 3, 0), cell, [10, 9], 4, 4, Live);
            GrantOf(r, None) == Some(1) && !ReadingFell(r, None)
  {
  }

  /** Parent and cell records together never gain a step. */
  lemma {:induction false} RecordsConserve(r: Ring, events: seq<Event>)
    requires r.parent.steps <= U16_MAX && r.cell.steps <= U16_MAX
    ensures var end := After(r, events);
            end.parent.steps + end.cell.steps <= r.parent.steps + r.cell.steps
    decreases |events|
  {
    if events != [] {
      var e := events[0];
      if e.Turn? && e.report.Continue? { RenewalConserves(r.parent, r.cell, Projected(r, e.report.reading)); }
      RecordsConserve(Step(r, e), events[1..]);
    }
  }
}
