/** Goals exempt from the stall clock, and daemons restarted with their counters behind. */
module GoalHonesty {
  import opened Words
  import opened Goals
  import opened GoalRuns

  /**
   The stall exemption outlives its reason. A goal held for a batch, parked by
   an approval and resumed after the batch reported is Acting with nothing
   pending, and no clock will ever fail it. `ADishonestRun` gets there from a new
   daemon; `HonestExactly` says when it happens.
   */
  lemma ExemptionOutlivesTheBatch(w: World, parent: nat -> nat, id: nat, batch: nat, t1: nat, t2: nat,
                                  t3: nat, timeout: nat)
    requires Inv(w, parent) && id in w.driver.goals && w.driver.goals[id].state == Acting
    requires w.driver.goals[id].awaitingBatch
    requires Batches(w.driver, w.driver.goals[id].session) == {batch}
    ensures var session := w.driver.goals[id].session;
            var reported := Step(Step(w, Approval(session), parent), Reported(batch, t1), parent);
            var d := Step(reported, ResumeReq(id, t2), parent).driver;
            && id in d.goals && d.goals[id].state == Acting && d.goals[id].awaitingBatch
            && d.goals[id].session == session && Batches(d, session) == {}
            && !Stalled(d.goals[id], t3, timeout)
  {
    var session := w.driver.goals[id].session;
    FindActingIs(w.driver.goals, session, id);
    assert batch in Batches(w.driver, session);
    var w1 := Step(w, Approval(session), parent);
    assert w1.driver.goals[id].state == Blocked;
    ApprovalKeeps(w, parent, session);
    NoOtherActing(w1.driver, id);
    var w2 := Step(w1, Reported(batch, t1), parent);
    assert w2.driver.goals == w1.driver.goals;
    assert Batches(w2.driver, session) == {};
  }

  lemma NoOtherActing(d: Driver, id: nat)
    requires Registry(d) && id in d.goals && d.goals[id].state != Acting
    ensures FindActing(d.goals, d.goals[id].session) == None
  {
  }

  /** An Acting goal is exempt from the stall clock exactly while its flag is set, batch or no batch. */
  lemma ClockFailsExactly(w: World, parent: nat -> nat, id: nat, now: nat, timeout: nat)
    requires Inv(w, parent) && id in w.driver.goals && w.driver.goals[id].state == Acting
    ensures var d := Step(w, Clock(now, timeout), parent).driver;
            var g := w.driver.goals[id];
            && (d.goals[id].state == Failed <==> !g.awaitingBatch && SaturatingSub(now, g.stepStarted) > timeout)
            && (d.goals[id].state == Failed ==> g.session !in d.yoloSessions)
  {
    var g := w.driver.goals[id];
    assert Stalled(g, now, timeout) ==> g.session in StalledSessions(w.driver.goals, w.driver.goals.Keys, now, timeout);
  }

  // ---- When the exemption is honest ----

  /** Every goal exempt from the stall clock has a batch out. */
  ghost predicate Honest(d: Driver) {
    forall id :: id in d.goals && d.goals[id].state == Acting && d.goals[id].awaitingBatch ==>
      Batches(d, d.goals[id].session) != {}
  }

  /** Resuming a goal that still carries the flag although its batches have all reported. */
  ghost predicate StaleResume(d: Driver, e: Event) {
    && e.ResumeReq? && e.id in d.goals
    && (d.goals[e.id].state == Blocked || d.goals[e.id].state == Failed)
    && d.goals[e.id].awaitingBatch && Batches(d, d.goals[e.id].session) == {}
  }

  lemma ReportKeepsHonest(w: World, parent: nat -> nat, batch: nat, now: nat)
    requires Inv(w, parent) && Honest(w.driver)
    ensures Honest(Step(w, Reported(batch, now), parent).driver)
  {
    var d, v := w.driver, Step(w, Reported(batch, now), parent).driver;
    forall id | id in v.goals && v.goals[id].state == Acting && v.goals[id].awaitingBatch
      ensures Batches(v, v.goals[id].session) != {}
    {
      ReportedBatches(w, parent, batch, now, v.goals[id].session);
      if ActingOn(d.goals[id], parent(batch)) {
        FindActingIs(d.goals, parent(batch), id);
      }
    }
  }

  lemma TurnKeepsHonest(w: World, parent: nat -> nat, session: nat, now: nat)
    requires Inv(w, parent) && Honest(w.driver)
    ensures Honest(Step(w, TurnDone(session, now), parent).driver)
  {
  }

  lemma RequestsKeepHonest(w: World, parent: nat -> nat, e: Event)
    requires Inv(w, parent) && Honest(w.driver)
    requires !e.Reported? && !e.TurnDone? && !e.ResumeReq?
    ensures Honest(Step(w, e, parent).driver)
  {
  }

  /** Exactly one kind of event makes an honest exemption dishonest. */
  lemma HonestExactly(w: World, e: Event, parent: nat -> nat)
    requires Inv(w, parent) && Seeded(w, e) && Honest(w.driver)
    ensures Honest(Step(w, e, parent).driver) <==> !StaleResume(w.driver, e)
  {
    if e.Reported? {
      ReportKeepsHonest(w, parent, e.batch, e.now);
    } else if e.TurnDone? {
      TurnKeepsHonest(w, parent, e.session, e.now);
    } else if e.ResumeReq? {
      ResumeHonestExactly(w, parent, e.id, e.now);
    } else {
      RequestsKeepHonest(w, parent, e);
    }
  }

  lemma ResumeHonestExactly(w: World, parent: nat -> nat, id: nat, now: nat)
    requires Inv(w, parent) && Honest(w.driver)
    ensures Honest(Step(w, ResumeReq(id, now), parent).driver) <==> !StaleResume(w.driver, ResumeReq(id, now))
  {
    var d, v := w.driver, Step(w, ResumeReq(id, now), parent).driver;
    if StaleResume(d, ResumeReq(id, now)) {
      assert v.goals[id].state == Acting && v.goals[id].awaitingBatch;
    } else {
      forall k | k in v.goals && v.goals[k].state == Acting && v.goals[k].awaitingBatch
        ensures Batches(v, v.goals[k].session) != {}
      {
        assert k != id ==> v.goals[k] == d.goals[k];
      }
    }
  }

  ghost predicate AlwaysHonest(w: World, events: seq<Event>, parent: nat -> nat)
    decreases |events|
  {
    Honest(w.driver) && (events != [] ==> AlwaysHonest(Step(w, events[0], parent), events[1..], parent))
  }

  ghost predicate NoStaleResume(w: World, events: seq<Event>, parent: nat -> nat)
    decreases |events|
  {
    events != [] ==>
      !StaleResume(w.driver, events[0]) && NoStaleResume(Step(w, events[0], parent), events[1..], parent)
  }

  /** Over a whole run the exemption always means a batch is out, exactly when no stale resume happens. */
  lemma {:induction false} AlwaysHonestExactly(w: World, events: seq<Event>, parent: nat -> nat)
    requires Inv(w, parent) && SeededRun(w, events, parent) && Honest(w.driver)
    ensures AlwaysHonest(w, events, parent) <==> NoStaleResume(w, events, parent)
    decreases |events|
  {
    if events != [] {
      HonestExactly(w, events[0], parent);
      StepInv(w, events[0], parent);
      if Honest(Step(w, events[0], parent).driver) {
        AlwaysHonestExactly(Step(w, events[0], parent), events[1..], parent);
      }
    }
  }

  /** The first goal of a new daemon, held for its batch. */
  ghost function HeldGoal(parent: nat -> nat, batch: nat, t: nat): (w: World)
    requires parent(batch) == 1
  {
    Step(Step(Step(FRESH, CreateReq(None, false, t), parent), Worker(batch), parent), TurnDone(1, t), parent)
  }

  lemma HeldGoalIsHeld(parent: nat -> nat, batch: nat, t: nat)
    requires parent(batch) == 1
    ensures var w := HeldGoal(parent, batch, t);
            && Inv(w, parent) && Honest(w.driver)
            && w.driver.goals == map[1 := Goal(1, Acting, 1, DEFAULT_MAX_STEPS, t, None, false, true)]
            && w.driver.pendingBatches == map[1 := {batch}] && w.driver.doneBatches == {}
  {
    var w1 := Step(FRESH, CreateReq(None, false, t), parent);
    var w2 := Step(w1, Worker(batch), parent);
    CreateKeeps(FRESH, parent, None, false, t);
    WorkerKeeps(w1, parent, batch);
    assert {} + {batch} == {batch};
    assert w2.driver.pendingBatches == map[1 := {batch}];
    FindActingIs(w2.driver.goals, 1, 1);
    assert batch in Batches(w2.driver, 1);
    HoldKeeps(w2, parent, 1, t);
  }

  /** A run from a new daemon to a dishonest exemption: held, blocked by an approval, its batch reports, resumed. */
  lemma ADishonestRun(parent: nat -> nat, batch: nat, t: nat)
    requires parent(batch) == 1
    ensures var events := [CreateReq(None, false, t), Worker(batch), TurnDone(1, t),
                           Approval(1), Reported(batch, t), ResumeReq(1, t)];
            !Honest(After(FRESH, events, parent).driver)
  {
    var events := [CreateReq(None, false, t), Worker(batch), TurnDone(1, t),
                   Approval(1), Reported(batch, t), ResumeReq(1, t)];
    var w := HeldGoal(parent, batch, t);
    assert After(FRESH, events, parent) == After(w, events[3..], parent) by {
      var w1 := Step(FRESH, events[0], parent);
      assert After(FRESH, events, parent) == After(w1, events[1..], parent);
      assert events[1..][1..] == events[2..] && events[2..][1..] == events[3..];
      assert After(w1, events[1..], parent) == After(Step(w1, events[1], parent), events[2..], parent);
    }
    HeldGoalIsHeld(parent, batch, t);
    ExemptionOutlivesTheBatch(w, parent, 1, batch, t, t, t, 0);
    var w4 := Step(w, Approval(1), parent);
    assert events[3..][1..] == events[4..] && events[4..][1..] == events[5..] && events[5..][1..] == [];
    assert After(w, events[3..], parent) == After(w4, events[4..], parent);
    assert After(w4, events[4..], parent) == After(Step(w4, Reported(batch, t), parent), events[5..], parent);
  }

  // ---- Why a restart must seed the session counter past the goals ----

  /** The counter after `n` more sessions were opened for other purposes. */
  ghost function Opened(d: Driver, n: nat): (v: Driver) { d.(nextSession := d.nextSession + n) }

  lemma {:induction false} OpenedIsOtherSessions(w: World, parent: nat -> nat, n: nat)
    ensures After(w, seq(n, _ => OtherSession), parent) == w.(driver := Opened(w.driver, n))
    decreases n
  {
    if n > 0 {
      var events := seq(n, _ => OtherSession);
      assert events[1..] == seq(n - 1, _ => OtherSession);
      OpenedIsOtherSessions(Step(w, OtherSession, parent), parent, n - 1);
    }
  }

  /**
   A new goal gets a session of its own, however many sessions are opened in
   between, exactly when every goal on record has a session below the counter.
   */
  lemma SeedingIsNeededExactly(d: Driver, budget: Option<u64>, yolo: bool, now: nat)
    requires SessionsDistinct(d.goals) && forall id :: id in d.goals ==> id < d.nextGoal
    ensures (forall n: nat :: SessionsDistinct(Create(Opened(d, n), budget, yolo, now).driver.goals)) <==>
            (forall id :: id in d.goals ==> d.goals[id].session < d.nextSession)
  {
    if id :| id in d.goals && d.goals[id].session >= d.nextSession {
      var n := d.goals[id].session - d.nextSession;
      var goals := Create(Opened(d, n), budget, yolo, now).driver.goals;
      assert goals[id].session == goals[d.nextGoal].session;
    }
  }

  /**
   Nor is an ordinary session ever handed an auto-approved id, exactly when every
   armed goal has a session below the counter.
   */
  lemma NoBorrowedApprovalExactly(d: Driver)
    requires YoloExact(d)
    ensures (forall n: nat :: Opened(d, n).nextSession !in d.yoloSessions) <==>
            (forall id :: id in d.goals && Armed(d.goals[id]) ==> d.goals[id].session < d.nextSession)
  {
    if id :| id in d.goals && Armed(d.goals[id]) && d.goals[id].session >= d.nextSession {
      assert HasArmed(d.goals, d.goals[id].session);
      assert Opened(d, d.goals[id].session - d.nextSession).nextSession == d.goals[id].session;
    }
    if n: nat :| Opened(d, n).nextSession in d.yoloSessions {
      assert HasArmed(d.goals, d.nextSession + n);
    }
  }

  /**
   Runs from a new daemon: a goal is created, the daemon restarts with the counter
   back at 1. The next goal shares the first one's session; and the next ordinary
   session is auto-approved if the goal was.
   */
  lemma UnseededRuns(parent: nat -> nat, yolo: bool, t: nat)
    ensures var events := [CreateReq(None, yolo, t), Reboot(t, 1, 2), CreateReq(None, yolo, t)];
            !SessionsDistinct(After(FRESH, events, parent).driver.goals)
    ensures var w := Step(Step(FRESH, CreateReq(None, yolo, t), parent), Reboot(t, 1, 2), parent);
            yolo ==> w.driver.nextSession in w.driver.yoloSessions
  {
    var w1 := Step(FRESH, CreateReq(None, yolo, t), parent);
    var w2 := Step(w1, Reboot(t, 1, 2), parent);
    var w3 := Step(w2, CreateReq(None, yolo, t), parent);
    assert w1.driver.goals[1].session == 1;
    assert w2.driver.goals[1] == ReloadGoal(w1.driver.goals[1], t);
    assert w3.driver.goals[1].session == w3.driver.goals[2].session;
    assert !SessionsDistinct(w3.driver.goals);
    var events := [CreateReq(None, yolo, t), Reboot(t, 1, 2), CreateReq(None, yolo, t)];
    assert events[1..][1..] == [events[2]] && [events[2]][1..] == [];
    assert After(FRESH, events, parent) == After(w1, events[1..], parent) == After(w2, [events[2]], parent);
    assert After(w2, [events[2]], parent) == After(w3, [], parent) == w3;
  }
}
