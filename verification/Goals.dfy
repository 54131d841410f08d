/**
 The autonomous goal driver: one dedicated session per goal, advanced a step at
 a time on the session's completed turns, held while a fanned batch is out,
 parked on approvals, failed on stalls. Handlers first, as functions of the
 driver's state; the class runs them in place.
 */
module Goals {
  import opened Words

  const DEFAULT_MAX_STEPS: nat := 12
  const MAX_STEPS_CEIL: nat := 100

  datatype GoalState = Acting | Blocked | Done | Failed | Cancelled
  datatype Verdict = Continue | Finish | Park

  datatype Goal = Goal(session: nat, state: GoalState, step: nat, maxSteps: nat, stepStarted: nat,
                       pending: Option<Verdict>, yolo: bool, awaitingBatch: bool)

  /** What the driver puts on the bus towards a session. */
  datatype Emission = Prompt(session: nat) | CancelTurn(session: nat)

  datatype Driver = Driver(goals: map<nat, Goal>, pendingBatches: map<nat, set<nat>>, doneBatches: set<nat>,
                           yoloSessions: set<nat>, nextSession: nat, nextGoal: nat)

  datatype Effect = Effect(driver: Driver, out: seq<Emission>)

  predicate ActingOn(g: Goal, session: nat) { g.session == session && g.state == Acting }
  predicate Armed(g: Goal) { g.yolo && (g.state == Acting || g.state == Blocked) }

  /** The goal acting on a session. Goals have distinct sessions, so there is at most one. */
  ghost function FindActing(goals: map<nat, Goal>, session: nat): (r: Option<nat>) {
    if exists id :: id in goals && ActingOn(goals[id], session) then
      var id :| id in goals && ActingOn(goals[id], session);
      Some(id)
    else None
  }

  function Batches(d: Driver, session: nat): (r: set<nat>) {
    if session in d.pendingBatches then d.pendingBatches[session] else {}
  }

  /** `(n as u32).clamp(1, 100)`, or the default when the argument is absent. */
  function StepBudget(arg: Option<u64>): (r: nat) {
    match arg
    case None => DEFAULT_MAX_STEPS
    case Some(n) =>
      var low := n % 0x1_0000_0000;
      if low < 1 then 1 else if low > MAX_STEPS_CEIL then MAX_STEPS_CEIL else low
  }

  // ---- The handlers ----

  function Create(d: Driver, budget: Option<u64>, yolo: bool, now: nat): (r: Effect) {
    var sid := d.nextSession;
    var goal := Goal(sid, Acting, 1, StepBudget(budget), now, None, yolo, false);
    Effect(d.(goals := d.goals[d.nextGoal := goal],
              yoloSessions := if yolo then d.yoloSessions + {sid} else d.yoloSessions,
              nextSession := d.nextSession + 1, nextGoal := d.nextGoal + 1),
           [Prompt(sid)])
  }

  ghost function RecordStep(d: Driver, session: nat, verdict: Verdict): (r: Effect) {
    match FindActing(d.goals, session)
    case None => Effect(d, [])
    case Some(id) => Effect(d.(goals := d.goals[id := d.goals[id].(pending := Some(verdict))]), [])
  }

  /** The in-flight step's verdict, applied to its goal. */
  function AdvanceGoal(g: Goal, now: nat): (r: Goal) {
    var clear := g.(pending := None);
    match if g.pending.Some? then g.pending.value else Continue
    case Finish => clear.(state := Done)
    case Park => clear.(state := Blocked)
    case Continue =>
      if g.step >= g.maxSteps then clear.(state := Done)
      else clear.(step := g.step + 1, stepStarted := now)
  }

  ghost function Advance(d: Driver, session: nat, now: nat): (r: Effect) {
    match FindActing(d.goals, session)
    case None => Effect(d, [])
    case Some(id) =>
      var g := AdvanceGoal(d.goals[id], now);
      Effect(d.(goals := d.goals[id := g],
                yoloSessions := if g.state == Done then d.yoloSessions - {session} else d.yoloSessions),
             if g.state == Acting then [Prompt(session)] else [])
  }

  ghost function Hold(d: Driver, session: nat): (r: Effect) {
    match FindActing(d.goals, session)
    case None => Effect(d, [])
    case Some(id) => Effect(d.(goals := d.goals[id := d.goals[id].(awaitingBatch := true)]), [])
  }

  ghost function TurnCompleted(d: Driver, session: nat, now: nat): (r: Effect) {
    if Batches(d, session) != {} then Hold(d, session) else Advance(d, session, now)
  }

  ghost function ApprovalPending(d: Driver, session: nat): (r: Effect) {
    match FindActing(d.goals, session)
    case None => Effect(d, [])
    case Some(id) =>
      Effect(d.(goals := d.goals[id := d.goals[id].(state := Blocked, pending := None)]), [CancelTurn(session)])
  }

  function WorkerChanged(d: Driver, batch: nat, parent: nat): (r: Effect) {
    if batch in d.doneBatches then Effect(d, [])
    else Effect(d.(pendingBatches := d.pendingBatches[parent := Batches(d, parent) + {batch}]), [])
  }

  function IntegrateGoal(g: Goal, now: nat): (r: Goal) {
    g.(awaitingBatch := false, pending := None, stepStarted := now,
       step := if g.step + 1 <= g.maxSteps then g.step + 1 else g.maxSteps)
  }

  ghost function BatchDone(d: Driver, batch: nat, parent: nat, now: nat): (r: Effect) {
    var left := Batches(d, parent) - {batch};
    var noted := d.(doneBatches := d.doneBatches + {batch});
    if left != {} then Effect(noted.(pendingBatches := d.pendingBatches[parent := left]), [])
    else
      var settled := noted.(pendingBatches := d.pendingBatches - {parent});
      match FindActing(d.goals, parent)
      case None => Effect(settled, [])
      case Some(id) =>
        if !d.goals[id].awaitingBatch then Effect(settled, [])
        else Effect(settled.(goals := d.goals[id := IntegrateGoal(d.goals[id], now)]), [Prompt(parent)])
  }

  predicate Stalled(g: Goal, now: nat, timeout: nat) {
    g.state == Acting && !g.awaitingBatch && SaturatingSub(now, g.stepStarted) > timeout
  }

  /** The sessions of the stalled goals among `ids`. */
  ghost function StalledSessions(goals: map<nat, Goal>, ids: set<nat>, now: nat, timeout: nat): (r: set<nat>) {
    set id | id in ids && id in goals && Stalled(goals[id], now, timeout) :: goals[id].session
  }

  /** The goals, with the stalled ones among `ids` failed. */
  ghost function FailAmong(goals: map<nat, Goal>, ids: set<nat>, now: nat, timeout: nat): (r: map<nat, Goal>) {
    map id | id in goals ::
      if id in ids && Stalled(goals[id], now, timeout) then goals[id].(state := Failed) else goals[id]
  }

  lemma OneMoreStalled(goals: map<nat, Goal>, ids: set<nat>, id: nat, now: nat, timeout: nat)
    requires id in goals && id !in ids
    ensures var stalled := Stalled(goals[id], now, timeout);
            && FailAmong(goals, ids, now, timeout)[id] == goals[id]
            && StalledSessions(goals, ids + {id}, now, timeout) ==
               StalledSessions(goals, ids, now, timeout) + (if stalled then {goals[id].session} else {})
            && FailAmong(goals, ids + {id}, now, timeout) ==
               if stalled then FailAmong(goals, ids, now, timeout)[id := goals[id].(state := Failed)]
               else FailAmong(goals, ids, now, timeout)
  {
  }

  ghost function Tick(d: Driver, now: nat, timeout: nat): (r: Effect) {
    Effect(d.(goals := FailAmong(d.goals, d.goals.Keys, now, timeout),
              yoloSessions := d.yoloSessions - StalledSessions(d.goals, d.goals.Keys, now, timeout)),
           [])
  }

  function Resume(d: Driver, id: nat, now: nat): (r: Effect) {
    if id in d.goals && (d.goals[id].state == Blocked || d.goals[id].state == Failed) then
      var g := d.goals[id].(state := Acting, stepStarted := now, pending := None);
      Effect(d.(goals := d.goals[id := g],
                yoloSessions := if g.yolo then d.yoloSessions + {g.session} else d.yoloSessions),
             [Prompt(g.session)])
    else Effect(d, [])
  }

  function Cancel(d: Driver, id: nat): (r: Effect) {
    if id in d.goals && (d.goals[id].state == Acting || d.goals[id].state == Blocked) then
      var g := d.goals[id].(state := Cancelled, pending := None);
      Effect(d.(goals := d.goals[id := g], yoloSessions := d.yoloSessions - {g.session}), [CancelTurn(g.session)])
    else Effect(d, [])
  }

  /** A goal after a restart: what was in flight is parked, the transient fields are gone. */
  function ReloadGoal(g: Goal, now: nat): (r: Goal) {
    g.(state := if g.state == Acting then Blocked else g.state, stepStarted := now, pending := None,
       awaitingBatch := false)
  }

  ghost function ReloadAmong(saved: map<nat, Goal>, ids: set<nat>, now: nat): (r: map<nat, Goal>) {
    map id | id in saved && id in ids :: ReloadGoal(saved[id], now)
  }

  /** The sessions re-armed for the goals among `ids`. */
  ghost function ArmedAmong(saved: map<nat, Goal>, ids: set<nat>, now: nat): (r: set<nat>) {
    set id | id in ids && id in saved && Armed(ReloadGoal(saved[id], now)) :: saved[id].session
  }

  lemma OneMoreReloaded(saved: map<nat, Goal>, ids: set<nat>, id: nat, now: nat)
    requires id in saved && id !in ids
    ensures var g := ReloadGoal(saved[id], now);
            && ReloadAmong(saved, ids + {id}, now) == ReloadAmong(saved, ids, now)[id := g]
            && ArmedAmong(saved, ids + {id}, now) ==
               ArmedAmong(saved, ids, now) + if Armed(g) then {g.session} else {}
  {
  }

  ghost function Restart(d: Driver, now: nat, nextSession: nat, nextGoal: nat): (r: Effect) {
    Effect(Driver(ReloadAmong(d.goals, d.goals.Keys, now), map[], {}, ArmedAmong(d.goals, d.goals.Keys, now),
                  nextSession, nextGoal), [])
  }

  lemma MovedOver(all: set<nat>, rest: set<nat>, done: set<nat>, id: nat)
    requires rest <= all && id in rest && done == all - rest + {id}
    ensures done == all - (rest - {id}) && |rest - {id}| < |rest|
    ensures rest == {id} ==> done == all
  {
    assert rest - {id} < rest;
  }

  ghost predicate SessionsDistinct(goals: map<nat, Goal>) {
    forall a, b :: a in goals && b in goals && a != b ==> goals[a].session != goals[b].session
  }

  // ---- The class ----

  class GoalDriver {
    var goals: map<nat, Goal>
    var pendingBatches: map<nat, set<nat>>
    var doneBatches: set<nat>
    var yoloSessions: set<nat>
    var nextSession: nat
    var nextGoal: nat

    constructor (nextSession: nat, nextGoal: nat)
      ensures View() == Driver(map[], map[], {}, {}, nextSession, nextGoal)
    {
      goals, pendingBatches, doneBatches, yoloSessions := map[], map[], {}, {};
      this.nextSession, this.nextGoal := nextSession, nextGoal;
    }

    /** Boot: what was saved comes back, in-flight goals parked, the goal counter past every loaded id. */
    constructor Reload(saved: map<nat, Goal>, now: nat, nextSession: nat, goalSeed: nat)
      ensures View() == Restart(Driver(saved, map[], {}, {}, 0, 0), now, nextSession, nextGoal).driver
      ensures nextGoal >= goalSeed && forall id: nat :: id in saved ==> id < nextGoal
      ensures nextGoal == goalSeed || nextGoal - 1 in saved
    {
      pendingBatches, doneBatches := map[], {};
      this.nextSession := nextSession;
      new;
      var loaded, armed := LoadAll(saved, now);
      var past := PastEvery(saved.Keys);
      goals, yoloSessions := loaded, armed;
      nextGoal := if goalSeed < past then past else goalSeed;
    }

    static method PastEvery(ids: set<nat>) returns (past: nat)
      ensures forall k: nat :: k in ids ==> k < past
      ensures past == 0 || past - 1 in ids
    {
      var rest := ids;
      past := 0;
      while rest != {}
        invariant rest <= ids && (past == 0 || past - 1 in ids)
        invariant forall k: nat :: k in ids ==> k in rest || k < past
        decreases |rest|
      {
        var id :| id in rest;
        past := if past < id + 1 then id + 1 else past;
        rest := rest - {id};
      }
    }

    static method LoadAll(saved: map<nat, Goal>, now: nat) returns (loaded: map<nat, Goal>, armed: set<nat>)
      ensures loaded == ReloadAmong(saved, saved.Keys, now)
      ensures armed == ArmedAmong(saved, saved.Keys, now)
    {
      var rest := saved.Keys;
      loaded, armed := map[], {};
      ghost var done: set<nat> := {};
      assert ReloadAmong(saved, {}, now) == map[];
      while rest != {}
        invariant rest <= saved.Keys && done == saved.Keys - rest
        invariant loaded == ReloadAmong(saved, done, now)
        invariant armed == ArmedAmong(saved, done, now)
        decreases |rest|
      {
        var id :| id in rest;
        loaded, armed := LoadOne(saved, done, id, loaded, armed, now);
        done := done + {id};
        MovedOver(saved.Keys, rest, done, id);
        rest := rest - {id};
      }
      assert done == saved.Keys;
    }

    static method LoadOne(saved: map<nat, Goal>, ghost done: set<nat>, id: nat, loaded: map<nat, Goal>, armed: set<nat>,
                          now: nat)
      returns (next: map<nat, Goal>, nextArmed: set<nat>)
      requires id in saved && id !in done
      requires loaded == ReloadAmong(saved, done, now) && armed == ArmedAmong(saved, done, now)
      ensures next == ReloadAmong(saved, done + {id}, now)
      ensures nextArmed == ArmedAmong(saved, done + {id}, now)
    {
      OneMoreReloaded(saved, done, id, now);
      var g := ReloadGoal(saved[id], now);
      next, nextArmed := loaded[id := g], armed;
      if Armed(g) {
        nextArmed := armed + {g.session};
      }
    }

    function View(): (r: Driver)
      reads this
    {
      Driver(goals, pendingBatches, doneBatches, yoloSessions, nextSession, nextGoal)
    }

    method FindGoal(session: nat) returns (found: Option<nat>)
      requires SessionsDistinct(goals)
      ensures found == FindActing(goals, session)
    {
      var rest := goals.Keys;
      while rest != {}
        invariant rest <= goals.Keys
        invariant forall id <- goals.Keys - rest :: !ActingOn(goals[id], session)
        decreases |rest|
      {
        var id :| id in rest;
        if ActingOn(goals[id], session) {
          return Some(id);
        }
        rest := rest - {id};
      }
      return None;
    }

    /** `hasObjective`: the request carries an objective that is not blank. */
    method CreateGoal(hasObjective: bool, budget: Option<u64>, yolo: bool, now: nat) returns (out: seq<Emission>)
      modifies this
      ensures Effect(View(), out) ==
              if hasObjective then Create(old(View()), budget, yolo, now) else Effect(old(View()), [])
    {
      if !hasObjective {
        return [];
      }
      var gid, sid := nextGoal, nextSession;
      nextGoal, nextSession := nextGoal + 1, nextSession + 1;
      if yolo {
        yoloSessions := yoloSessions + {sid};
      }
      goals := goals[gid := Goal(sid, Acting, 1, StepBudget(budget), now, None, yolo, false)];
      return [Prompt(sid)];
    }

    method Record(session: nat, verdict: Verdict) returns (recorded: bool)
      requires SessionsDistinct(goals)
      modifies this
      ensures View() == RecordStep(old(View()), session, verdict).driver
      ensures recorded <==> FindActing(old(goals), session).Some?
    {
      var found := FindGoal(session);
      if found.Some? {
        goals := goals[found.value := goals[found.value].(pending := Some(verdict))];
      }
      return found.Some?;
    }

    method OnTurnComplete(session: nat, now: nat) returns (out: seq<Emission>)
      requires SessionsDistinct(goals)
      modifies this
      ensures Effect(View(), out) == TurnCompleted(old(View()), session, now)
    {
      var found := FindGoal(session);
      if found.None? {
        return [];
      }
      var id := found.value;
      var g := goals[id];
      if session in pendingBatches && pendingBatches[session] != {} {
        if !g.awaitingBatch {
          goals := goals[id := g.(awaitingBatch := true)];
        }
        assert goals == old(goals)[id := g.(awaitingBatch := true)];
        return [];
      }
      var verdict := if g.pending.Some? then g.pending.value else Continue;
      g := g.(pending := None);
      match verdict {
        case Finish => g := g.(state := Done);
        case Park => g := g.(state := Blocked);
        case Continue =>
          if g.step >= g.maxSteps {
            g := g.(state := Done);
          } else {
            g := g.(step := g.step + 1, stepStarted := now);
            out := [Prompt(session)];
            goals := goals[id := g];
            return;
          }
      }
      goals := goals[id := g];
      if g.state == Done {
        yoloSessions := yoloSessions - {session};
      }
      return [];
    }

    method OnApprovalPending(session: nat) returns (out: seq<Emission>)
      requires SessionsDistinct(goals)
      modifies this
      ensures Effect(View(), out) == ApprovalPending(old(View()), session)
    {
      var found := FindGoal(session);
      if found.None? {
        return [];
      }
      goals := goals[found.value := goals[found.value].(state := Blocked, pending := None)];
      return [CancelTurn(session)];
    }

    method OnWorkerStateChanged(batch: nat, parent: nat)
      modifies this
      ensures View() == WorkerChanged(old(View()), batch, parent).driver
    {
      if batch !in doneBatches {
        var known := if parent in pendingBatches then pendingBatches[parent] else {};
        pendingBatches := pendingBatches[parent := known + {batch}];
      }
    }

    method OnTaskBatchDone(batch: nat, parent: nat, now: nat) returns (out: seq<Emission>)
      requires SessionsDistinct(goals)
      modifies this
      ensures Effect(View(), out) == BatchDone(old(View()), batch, parent, now)
    {
      doneBatches := doneBatches + {batch};
      var left := (if parent in pendingBatches then pendingBatches[parent] else {}) - {batch};
      pendingBatches := pendingBatches[parent := left];
      if left != {} {
        return [];
      }
      pendingBatches := pendingBatches - {parent};
      assert pendingBatches == old(pendingBatches) - {parent};
      var found := FindGoal(parent);
      if found.None? || !goals[found.value].awaitingBatch {
        return [];
      }
      goals := goals[found.value := IntegrateGoal(goals[found.value], now)];
      return [Prompt(parent)];
    }

    /** The sweep under the lock: mark the stalled goals failed and collect their sessions. */
    static method Sweep(was: map<nat, Goal>, now: nat, timeout: nat)
      returns (current: map<nat, Goal>, failed: set<nat>)
      ensures current == FailAmong(was, was.Keys, now, timeout)
      ensures failed == StalledSessions(was, was.Keys, now, timeout)
    {
      var rest := was.Keys;
      current, failed := was, {};
      ghost var swept := {};
      while rest != {}
        invariant rest <= was.Keys && swept == was.Keys - rest
        invariant current == FailAmong(was, swept, now, timeout)
        invariant failed == StalledSessions(was, swept, now, timeout)
        decreases |rest|
      {
        var id :| id in rest;
        current, failed := SweepOne(was, swept, id, current, failed, now, timeout);
        swept := swept + {id};
        MovedOver(was.Keys, rest, swept, id);
        rest := rest - {id};
      }
    }

    static method SweepOne(was: map<nat, Goal>, ghost swept: set<nat>, id: nat, current: map<nat, Goal>,
                           failed: set<nat>, now: nat, timeout: nat)
      returns (next: map<nat, Goal>, nextFailed: set<nat>)
      requires id in was && id !in swept
      requires current == FailAmong(was, swept, now, timeout) && failed == StalledSessions(was, swept, now, timeout)
      ensures next == FailAmong(was, swept + {id}, now, timeout)
      ensures nextFailed == StalledSessions(was, swept + {id}, now, timeout)
    {
      OneMoreStalled(was, swept, id, now, timeout);
      next, nextFailed := current, failed;
      var g := was[id];
      if Stalled(g, now, timeout) {
        nextFailed := failed + {g.session};
        next := current[id := g.(state := Failed)];
      }
    }

    method FailStalled(now: nat, timeout: nat)
      modifies this
      ensures View() == Tick(old(View()), now, timeout).driver
    {
      var current, failed := Sweep(goals, now, timeout);
      goals := current;
      yoloSessions := yoloSessions - failed;
    }

    method ResumeGoal(id: nat, now: nat) returns (out: seq<Emission>)
      modifies this
      ensures Effect(View(), out) == Resume(old(View()), id, now)
    {
      if id !in goals || (goals[id].state != Blocked && goals[id].state != Failed) {
        return [];
      }
      var g := goals[id].(state := Acting, stepStarted := now, pending := None);
      goals := goals[id := g];
      if g.yolo {
        yoloSessions := yoloSessions + {g.session};
      }
      return [Prompt(g.session)];
    }

    method CancelGoal(id: nat) returns (out: seq<Emission>)
      modifies this
      ensures Effect(View(), out) == Cancel(old(View()), id)
    {
      if id !in goals || (goals[id].state != Acting && goals[id].state != Blocked) {
        return [];
      }
      var g := goals[id].(state := Cancelled, pending := None);
      goals := goals[id := g];
      yoloSessions := yoloSessions - {g.session};
      return [CancelTurn(g.session)];
    }
  }
}
