/** The goal driver on the bus, and what every run of it keeps. */
module GoalRuns {
  import opened Words
  import opened Goals

  /** `outstanding`: sessions prompted by the driver whose turn has neither completed nor been cancelled since. */
  datatype World = World(driver: Driver, outstanding: set<nat>)

  datatype Event =
    | CreateReq(budget: Option<u64>, yolo: bool, now: nat)
    | StepReq(session: nat, verdict: Verdict)
    | ResumeReq(id: nat, now: nat)
    | CancelReq(id: nat)
    | TurnDone(session: nat, now: nat)
    | Approval(session: nat)
    | Worker(batch: nat)
    | Reported(batch: nat, now: nat)
    | Clock(now: nat, timeout: nat)
    | OtherSession
    | Reboot(now: nat, nextSession: nat, nextGoal: nat)

  ghost function Handle(d: Driver, e: Event, parent: nat -> nat): (r: Effect) {
    match e
    case CreateReq(budget, yolo, now) => Create(d, budget, yolo, now)
    case StepReq(session, verdict) => RecordStep(d, session, verdict)
    case ResumeReq(id, now) => Resume(d, id, now)
    case CancelReq(id) => Cancel(d, id)
    case TurnDone(session, now) => TurnCompleted(d, session, now)
    case Approval(session) => ApprovalPending(d, session)
    case Worker(batch) => WorkerChanged(d, batch, parent(batch))
    case Reported(batch, now) => BatchDone(d, batch, parent(batch), now)
    case Clock(now, timeout) => Tick(d, now, timeout)
    case OtherSession => Effect(d.(nextSession := d.nextSession + 1), [])
    case Reboot(now, nextSession, nextGoal) => Restart(d, now, nextSession, nextGoal)
  }

  function Emitted(outstanding: set<nat>, out: seq<Emission>): (r: set<nat>) {
    if out == [] then outstanding
    else
      var before := Emitted(outstanding, out[..|out| - 1]);
      var e := out[|out| - 1];
      if e.Prompt? then before + {e.session} else before - {e.session}
  }

  ghost function Step(w: World, e: Event, parent: nat -> nat): (r: World) {
    var answered := if e.TurnDone? then w.outstanding - {e.session} else if e.Reboot? then {} else w.outstanding;
    var f := Handle(w.driver, e, parent);
    World(f.driver, Emitted(answered, f.out))
  }

  /** After a restart the counters are seeded past every loaded goal and its session. */
  ghost predicate Seeded(w: World, e: Event) {
    match e
    case Reboot(_, nextSession, nextGoal) =>
      forall id :: id in w.driver.goals ==> id < nextGoal && w.driver.goals[id].session < nextSession
    case _ => true
  }

  /** A prompt is out for the goal, or it awaits batches of which some have not reported. */
  ghost predicate Driven(w: World, g: Goal) {
    g.state == Acting ==>
      g.session in w.outstanding || (g.awaitingBatch && Batches(w.driver, g.session) - w.driver.doneBatches != {})
  }

  ghost predicate InBudget(g: Goal) { 1 <= g.step <= g.maxSteps <= MAX_STEPS_CEIL }

  ghost predicate Registry(d: Driver) {
    && SessionsDistinct(d.goals)
    && (forall id :: id in d.goals ==>
          id < d.nextGoal && d.goals[id].session < d.nextSession && InBudget(d.goals[id]))
  }

  /** The auto-approved sessions are exactly those of the goals that asked for it and are Acting or Blocked. */
  ghost predicate YoloExact(d: Driver) {
    forall s :: s in d.yoloSessions <==> HasArmed(d.goals, s)
  }

  ghost predicate HasArmed(goals: map<nat, Goal>, s: nat) {
    exists id :: id in goals && Armed(goals[id]) && goals[id].session == s
  }

  ghost predicate BatchesSound(d: Driver, parent: nat -> nat) {
    forall s, b :: s in d.pendingBatches && b in d.pendingBatches[s] ==> parent(b) == s && b !in d.doneBatches
  }

  ghost predicate NoneStranded(w: World) {
    forall id :: id in w.driver.goals ==> Driven(w, w.driver.goals[id])
  }

  ghost predicate Inv(w: World, parent: nat -> nat) {
    && Registry(w.driver)
    && YoloExact(w.driver)
    && BatchesSound(w.driver, parent)
    && NoneStranded(w)
  }

  const FRESH := World(Driver(map[], map[], {}, {}, 1, 1), {})

  lemma FindActingIs(goals: map<nat, Goal>, session: nat, id: nat)
    requires SessionsDistinct(goals) && id in goals && ActingOn(goals[id], session)
    ensures FindActing(goals, session) == Some(id)
  {
  }

  /** One goal replaced by another on the same session. */
  lemma ReplaceGoal(d: Driver, v: Driver, id: nat)
    requires Registry(d) && YoloExact(d)
    requires id in d.goals && id in v.goals && v.goals == d.goals[id := v.goals[id]]
    requires v.goals[id].session == d.goals[id].session && InBudget(v.goals[id])
    requires v.nextGoal == d.nextGoal && v.nextSession == d.nextSession
    requires v.yoloSessions ==
             if Armed(v.goals[id]) then d.yoloSessions + {v.goals[id].session}
             else d.yoloSessions - {v.goals[id].session}
    ensures Registry(v) && YoloExact(v)
  {
    forall s ensures s in v.yoloSessions <==> HasArmed(v.goals, s) {
      if s == v.goals[id].session {
        assert HasArmed(v.goals, s) <==> Armed(v.goals[id]);
      } else {
        SameArmed(d.goals, v.goals, id, s);
      }
    }
  }

  lemma SameArmed(goals: map<nat, Goal>, later: map<nat, Goal>, id: nat, s: nat)
    requires id in goals && id in later && later == goals[id := later[id]]
    requires later[id].session == goals[id].session != s
    ensures HasArmed(later, s) <==> HasArmed(goals, s)
  {
    if k :| k in goals && Armed(goals[k]) && goals[k].session == s {
      assert later[k] == goals[k];
    }
    if k :| k in later && Armed(later[k]) && later[k].session == s {
      assert goals[k] == later[k];
    }
  }

  lemma EmittedOne(outstanding: set<nat>, e: Emission)
    ensures Emitted(outstanding, [e]) == if e.Prompt? then outstanding + {e.session} else outstanding - {e.session}
    ensures Emitted(outstanding, []) == outstanding
  {
    assert [e][..0] == [];
  }

  /** One goal changed, and nothing was taken from any other session: enough to look at that goal. */
  lemma OthersStayDriven(w: World, v: World, id: nat)
    requires Registry(w.driver) && NoneStranded(w)
    requires id in w.driver.goals && id in v.driver.goals
    requires v.driver.goals == w.driver.goals[id := v.driver.goals[id]]
    requires v.driver.doneBatches == w.driver.doneBatches
    requires forall s :: s != w.driver.goals[id].session ==>
               (s in w.outstanding ==> s in v.outstanding) && Batches(v.driver, s) == Batches(w.driver, s)
    requires Driven(v, v.driver.goals[id])
    ensures NoneStranded(v)
  {
    forall k | k in v.driver.goals && k != id ensures Driven(v, v.driver.goals[k]) {
      assert Driven(w, w.driver.goals[k]);
    }
  }

  lemma HoldKeeps(w: World, parent: nat -> nat, session: nat, now: nat)
    requires Inv(w, parent) && Batches(w.driver, session) != {}
    ensures Inv(Step(w, TurnDone(session, now), parent), parent)
  {
    var v := Step(w, TurnDone(session, now), parent);
    var b :| b in Batches(w.driver, session);
    assert b in Batches(w.driver, session) - w.driver.doneBatches;
    match FindActing(w.driver.goals, session)
    case None => NoGoalActing(w, v, session);
    case Some(id) =>
      ReplaceGoal(w.driver, v.driver, id);
      OthersStayDriven(w, v, id);
  }

  /** A turn of a session no goal acts on concerns nobody. */
  lemma NoGoalActing(w: World, v: World, session: nat)
    requires NoneStranded(w) && FindActing(w.driver.goals, session) == None
    requires v == w.(outstanding := w.outstanding - {session})
    ensures NoneStranded(v)
  {
    forall k | k in v.driver.goals ensures Driven(v, v.driver.goals[k]) {
      assert Driven(w, w.driver.goals[k]);
      assert !ActingOn(w.driver.goals[k], session);
    }
  }

  lemma AdvanceKeeps(w: World, parent: nat -> nat, session: nat, now: nat)
    requires Inv(w, parent) && Batches(w.driver, session) == {}
    ensures Inv(Step(w, TurnDone(session, now), parent), parent)
  {
    var v := Step(w, TurnDone(session, now), parent);
    EmittedOne(w.outstanding - {session}, Prompt(session));
    match FindActing(w.driver.goals, session)
    case None => NoGoalActing(w, v, session);
    case Some(id) =>
      assert Armed(w.driver.goals[id]) ==> session in w.driver.yoloSessions by {
        assert Armed(w.driver.goals[id]) ==> HasArmed(w.driver.goals, session);
      }
      NotArmedNotListed(w.driver, id);
      ReplaceGoal(w.driver, v.driver, id);
      OthersStayDriven(w, v, id);
  }

  /** For an existing goal, being armed and its session being listed are the same. */
  lemma NotArmedNotListed(d: Driver, id: nat)
    requires Registry(d) && YoloExact(d) && id in d.goals
    ensures d.goals[id].session in d.yoloSessions <==> Armed(d.goals[id])
  {
    if Armed(d.goals[id]) {
      assert HasArmed(d.goals, d.goals[id].session);
    }
  }

  lemma StepReqKeeps(w: World, parent: nat -> nat, session: nat, verdict: Verdict)
    requires Inv(w, parent)
    ensures Inv(Step(w, StepReq(session, verdict), parent), parent)
  {
    var v := Step(w, StepReq(session, verdict), parent);
    match FindActing(w.driver.goals, session)
    case None =>
    case Some(id) =>
      NotArmedNotListed(w.driver, id);
      ReplaceGoal(w.driver, v.driver, id);
      assert Driven(w, w.driver.goals[id]);
      OthersStayDriven(w, v, id);
  }

  lemma ApprovalKeeps(w: World, parent: nat -> nat, session: nat)
    requires Inv(w, parent)
    ensures Inv(Step(w, Approval(session), parent), parent)
  {
    var v := Step(w, Approval(session), parent);
    EmittedOne(w.outstanding, CancelTurn(session));
    match FindActing(w.driver.goals, session)
    case None =>
    case Some(id) =>
      NotArmedNotListed(w.driver, id);
      ReplaceGoal(w.driver, v.driver, id);
      OthersStayDriven(w, v, id);
  }

  /** Resuming and cancelling: one goal changes hands, the rest stay driven. */
  lemma RevivalKeeps(w: World, parent: nat -> nat, id: nat, now: nat)
    requires Inv(w, parent)
    ensures forall e <- [ResumeReq(id, now), CancelReq(id)] :: Inv(Step(w, e, parent), parent)
  {
    forall e <- [ResumeReq(id, now), CancelReq(id)] ensures Inv(Step(w, e, parent), parent) {
      var f := Handle(w.driver, e, parent);
      var v := Step(w, e, parent);
      if f.out != [] {
        EmittedOne(w.outstanding, f.out[0]);
        if e.ResumeReq? { NotArmedNotListed(w.driver, id); }
        ReplaceGoal(w.driver, v.driver, id);
        OthersStayDriven(w, v, id);
      }
    }
  }

  lemma WorkerKeeps(w: World, parent: nat -> nat, batch: nat)
    requires Inv(w, parent)
    ensures Inv(Step(w, Worker(batch), parent), parent)
  {
    var v := Step(w, Worker(batch), parent);
    forall k | k in v.driver.goals ensures Driven(v, v.driver.goals[k]) {
      assert Driven(w, w.driver.goals[k]);
      assert Batches(w.driver, w.driver.goals[k].session) - w.driver.doneBatches
          <= Batches(v.driver, w.driver.goals[k].session) - v.driver.doneBatches;
    }
    assert v.driver.goals == w.driver.goals;
  }

  /** A report touches only its own parent's batches; what is pending is never among the reported. */
  lemma ReportedBatches(w: World, parent: nat -> nat, batch: nat, now: nat, s: nat)
    requires BatchesSound(w.driver, parent)
    ensures var v := Step(w, Reported(batch, now), parent).driver;
            && Batches(v, s) == Batches(w.driver, s) - {batch}
            && (s != parent(batch) ==> Batches(v, s) == Batches(w.driver, s))
            && Batches(w.driver, s) - w.driver.doneBatches == Batches(w.driver, s)
            && Batches(v, s) - v.doneBatches == Batches(v, s)
  {
    assert s != parent(batch) ==> batch !in Batches(w.driver, s);
    assert Batches(w.driver, s) !! w.driver.doneBatches;
  }

  lemma ReportKeepsDriven(w: World, parent: nat -> nat, batch: nat, now: nat, k: nat)
    requires Inv(w, parent) && k in w.driver.goals
    ensures var v := Step(w, Reported(batch, now), parent);
            k in v.driver.goals && Driven(v, v.driver.goals[k])
  {
    var v := Step(w, Reported(batch, now), parent);
    var g := w.driver.goals[k];
    EmittedOne(w.outstanding, Prompt(parent(batch)));
    assert Driven(w, g);
    ReportedBatches(w, parent, batch, now, g.session);
    if ActingOn(g, parent(batch)) {
      FindActingIs(w.driver.goals, parent(batch), k);
    }
  }

  lemma ReportKeeps(w: World, parent: nat -> nat, batch: nat, now: nat)
    requires Inv(w, parent)
    ensures Inv(Step(w, Reported(batch, now), parent), parent)
  {
    var d := w.driver;
    var v := Step(w, Reported(batch, now), parent);
    forall s, b | s in v.driver.pendingBatches && b in v.driver.pendingBatches[s]
      ensures parent(b) == s && b !in v.driver.doneBatches
    {
      ReportedBatches(w, parent, batch, now, s);
      assert b in Batches(v.driver, s);
      assert b in Batches(d, s);
    }
    forall k | k in v.driver.goals ensures Driven(v, v.driver.goals[k]) {
      ReportKeepsDriven(w, parent, batch, now, k);
    }
    match FindActing(d.goals, parent(batch))
    case None => assert v.driver.goals == d.goals;
    case Some(id) =>
      NotArmedNotListed(d, id);
      assert v.driver.goals == d.goals[id := v.driver.goals[id]];
      ReplaceGoal(d, v.driver, id);
  }

  lemma CreateKeeps(w: World, parent: nat -> nat, budget: Option<u64>, yolo: bool, now: nat)
    requires Inv(w, parent)
    ensures Inv(Step(w, CreateReq(budget, yolo, now), parent), parent)
  {
    var d := w.driver;
    var v := Step(w, CreateReq(budget, yolo, now), parent);
    EmittedOne(w.outstanding, Prompt(d.nextSession));
    forall k | k in d.goals ensures Driven(v, v.driver.goals[k]) {
      assert Driven(w, d.goals[k]);
    }
    forall s ensures s in v.driver.yoloSessions <==> HasArmed(v.driver.goals, s) {
      if k :| k in d.goals && Armed(d.goals[k]) && d.goals[k].session == s {
        assert v.driver.goals[k] == d.goals[k];
      }
      if k :| k in v.driver.goals && Armed(v.driver.goals[k]) && v.driver.goals[k].session == s {
        assert k == d.nextGoal || d.goals[k] == v.driver.goals[k];
      }
      if yolo && s == d.nextSession {
        assert Armed(v.driver.goals[d.nextGoal]);
      }
    }
  }

  lemma ClockKeeps(w: World, parent: nat -> nat, now: nat, timeout: nat)
    requires Inv(w, parent)
    ensures Inv(Step(w, Clock(now, timeout), parent), parent)
  {
    var d := w.driver;
    var v := Step(w, Clock(now, timeout), parent);
    forall k | k in v.driver.goals ensures Driven(v, v.driver.goals[k]) {
      assert Driven(w, d.goals[k]);
    }
    forall s ensures s in v.driver.yoloSessions <==> HasArmed(v.driver.goals, s) {
      if HasArmed(d.goals, s) {
        var k :| k in d.goals && Armed(d.goals[k]) && d.goals[k].session == s;
        if !Stalled(d.goals[k], now, timeout) {
          assert v.driver.goals[k] == d.goals[k];
        }
      }
      if k :| k in v.driver.goals && Armed(v.driver.goals[k]) && v.driver.goals[k].session == s {
        assert d.goals[k] == v.driver.goals[k];
      }
    }
  }

  lemma RebootKeeps(w: World, parent: nat -> nat, now: nat, nextSession: nat, nextGoal: nat)
    requires Inv(w, parent) && Seeded(w, Reboot(now, nextSession, nextGoal))
    ensures Inv(Step(w, Reboot(now, nextSession, nextGoal), parent), parent)
  {
    var v := Step(w, Reboot(now, nextSession, nextGoal), parent);
    var saved := w.driver.goals;
    forall s ensures s in v.driver.yoloSessions <==> HasArmed(v.driver.goals, s) {
      if s in v.driver.yoloSessions {
        var id :| id in saved && Armed(ReloadGoal(saved[id], now)) && saved[id].session == s;
        assert v.driver.goals[id] == ReloadGoal(saved[id], now);
      }
      if id :| id in v.driver.goals && Armed(v.driver.goals[id]) && v.driver.goals[id].session == s {
        assert v.driver.goals[id] == ReloadGoal(saved[id], now);
      }
    }
  }

  lemma StepInv(w: World, e: Event, parent: nat -> nat)
    requires Inv(w, parent) && Seeded(w, e)
    ensures Inv(Step(w, e, parent), parent)
  {
    match e
    case CreateReq(budget, yolo, now) => CreateKeeps(w, parent, budget, yolo, now);
    case StepReq(session, verdict) => StepReqKeeps(w, parent, session, verdict);
    case ResumeReq(id, now) => RevivalKeeps(w, parent, id, now);
    case CancelReq(id) => RevivalKeeps(w, parent, id, 0);
    case TurnDone(session, now) =>
      if Batches(w.driver, session) != {} {
        HoldKeeps(w, parent, session, now);
      } else {
        AdvanceKeeps(w, parent, session, now);
      }
    case Approval(session) => ApprovalKeeps(w, parent, session);
    case Worker(batch) => WorkerKeeps(w, parent, batch);
    case Reported(batch, now) => ReportKeeps(w, parent, batch, now);
    case Clock(now, timeout) => ClockKeeps(w, parent, now, timeout);
    case OtherSession => OtherSessionKeeps(w, parent);
    case Reboot(now, nextSession, nextGoal) => RebootKeeps(w, parent, now, nextSession, nextGoal);
  }

  lemma OtherSessionKeeps(w: World, parent: nat -> nat)
    requires Inv(w, parent)
    ensures Inv(Step(w, OtherSession, parent), parent)
  {
    var v := Step(w, OtherSession, parent);
    forall k | k in v.driver.goals ensures Driven(v, v.driver.goals[k]) {
      assert Driven(w, w.driver.goals[k]);
    }
  }

  ghost predicate SeededRun(w: World, events: seq<Event>, parent: nat -> nat)
    decreases |events|
  {
    events == [] || (Seeded(w, events[0]) && SeededRun(Step(w, events[0], parent), events[1..], parent))
  }

  ghost function After(w: World, events: seq<Event>, parent: nat -> nat): (r: World)
    decreases |events|
  {
    if events == [] then w else After(Step(w, events[0], parent), events[1..], parent)
  }

  lemma {:induction false} RunInv(w: World, events: seq<Event>, parent: nat -> nat)
    requires Inv(w, parent) && SeededRun(w, events, parent)
    ensures Inv(After(w, events, parent), parent)
    decreases |events|
  {
    if events != [] {
      StepInv(w, events[0], parent);
      RunInv(Step(w, events[0], parent), events[1..], parent);
    }
  }

  /**
   No stranded goal: in every reachable state an Acting goal has a prompt out or
   awaits a batch that has not reported; steps stay in budget; and exactly the
   sessions of Acting or Blocked yolo goals are auto-approved.
   */
  lemma NoGoalIsStranded(events: seq<Event>, parent: nat -> nat, id: nat)
    requires SeededRun(FRESH, events, parent)
    ensures var w := After(FRESH, events, parent);
            id in w.driver.goals ==>
              var g := w.driver.goals[id];
              && Driven(w, g)
              && 1 <= g.step <= g.maxSteps <= MAX_STEPS_CEIL
              && (g.session in w.driver.yoloSessions <==> Armed(g))
  {
    RunInv(FRESH, events, parent);
    var w := After(FRESH, events, parent);
    if id in w.driver.goals {
      NotArmedNotListed(w.driver, id);
    }
  }

  ghost predicate Final(d: Driver, id: nat) {
    id in d.goals && (d.goals[id].state == Done || d.goals[id].state == Cancelled)
  }

  /** A Done or Cancelled goal never changes state or step again. */
  lemma {:induction false} FinalIsForever(w: World, events: seq<Event>, parent: nat -> nat, id: nat)
    requires Inv(w, parent) && SeededRun(w, events, parent) && Final(w.driver, id)
    ensures var d := After(w, events, parent).driver;
            && id in d.goals && d.goals[id].state == w.driver.goals[id].state
            && d.goals[id].step == w.driver.goals[id].step
    decreases |events|
  {
    if events != [] {
      StepInv(w, events[0], parent);
      FinalStep(w, events[0], parent, id);
      FinalIsForever(Step(w, events[0], parent), events[1..], parent, id);
    }
  }

  lemma FinalStep(w: World, e: Event, parent: nat -> nat, id: nat)
    requires Inv(w, parent) && Final(w.driver, id)
    ensures var d := Step(w, e, parent).driver;
            && id in d.goals && d.goals[id].state == w.driver.goals[id].state
            && d.goals[id].step == w.driver.goals[id].step
  {
  }
}
