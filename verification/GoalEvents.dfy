/** What each event does to a goal: reports, resuming and cancelling, batches, approvals, restarts. */
module GoalEvents {
  import opened Words
  import opened Goals
  import opened GoalRuns

  /** Nothing but goal `id` changed, and it is now `g`. */
  ghost predicate OnlyChanged(w: World, v: World, id: nat, g: Goal) {
    v.driver.goals == w.driver.goals[id := g]
  }

  /** Its session is prompted, and auto-approved, exactly as told. */
  ghost predicate Stands(v: World, session: nat, prompted: bool, armed: bool) {
    (session in v.outstanding <==> prompted) && (session in v.driver.yoloSessions <==> armed)
  }

  /** What the end of an Acting goal's turn makes of it, given the agent's word on the step. */
  ghost predicate Decided(w: World, v: World, id: nat, verdict: Verdict, now: nat)
    requires id in w.driver.goals
  {
    var g := w.driver.goals[id];
    if verdict == Finish || (verdict == Continue && g.step == g.maxSteps) then
      OnlyChanged(w, v, id, g.(state := Done, pending := None)) && Stands(v, g.session, false, false)
    else if verdict == Park then
      OnlyChanged(w, v, id, g.(state := Blocked, pending := None)) && Stands(v, g.session, false, g.yolo)
    else
      && OnlyChanged(w, v, id, g.(step := g.step + 1, stepStarted := now, pending := None))
      && Stands(v, g.session, true, g.yolo)
  }

  /** A turn that ends without a word counts as carrying on. */
  lemma TurnDecides(w: World, parent: nat -> nat, id: nat, now: nat)
    requires Registry(w.driver) && YoloExact(w.driver) && id in w.driver.goals && w.driver.goals[id].state == Acting
    requires Batches(w.driver, w.driver.goals[id].session) == {}
    ensures var g := w.driver.goals[id];
            var v := Step(w, TurnDone(g.session, now), parent);
            Decided(w, v, id, if g.pending == None then Continue else g.pending.value, now)
  {
    var g := w.driver.goals[id];
    FindActingIs(w.driver.goals, g.session, id);
    NotArmedNotListed(w.driver, id);
    EmittedOne(w.outstanding - {g.session}, Prompt(g.session));
  }

  lemma WordIsNoted(w: World, parent: nat -> nat, id: nat, verdict: Verdict)
    requires Inv(w, parent) && id in w.driver.goals && w.driver.goals[id].state == Acting
    ensures var g := w.driver.goals[id];
            var noted := Step(w, StepReq(g.session, verdict), parent);
            && noted == w.(driver := w.driver.(goals := w.driver.goals[id := g.(pending := Some(verdict))]))
            && Registry(noted.driver) && YoloExact(noted.driver)
  {
    FindActingIs(w.driver.goals, w.driver.goals[id].session, id);
    StepReqKeeps(w, parent, w.driver.goals[id].session, verdict);
  }

  lemma StillDecided(w: World, noted: World, v: World, id: nat, verdict: Verdict, now: nat)
    requires id in w.driver.goals && id in noted.driver.goals
    requires noted.driver.goals == w.driver.goals[id := w.driver.goals[id].(pending := Some(verdict))]
    requires Decided(noted, v, id, verdict, now)
    ensures Decided(w, v, id, verdict, now)
  {
  }

  /**
   What the agent's word on a step does to its goal when the turn completes: done is
   Done, and so is carrying on at the last step; blocked is Blocked and stays armed;
   otherwise the next step is prompted. No other goal changes.
   */
  lemma VerdictDecides(w: World, parent: nat -> nat, id: nat, verdict: Verdict, now: nat)
    requires Inv(w, parent) && id in w.driver.goals && w.driver.goals[id].state == Acting
    requires Batches(w.driver, w.driver.goals[id].session) == {}
    ensures var session := w.driver.goals[id].session;
            var v := Step(Step(w, StepReq(session, verdict), parent), TurnDone(session, now), parent);
            Decided(w, v, id, verdict, now)
  {
    var g := w.driver.goals[id];
    var noted := Step(w, StepReq(g.session, verdict), parent);
    WordIsNoted(w, parent, id, verdict);
    TurnDecides(noted, parent, id, now);
    StillDecided(w, noted, Step(noted, TurnDone(g.session, now), parent), id, verdict, now);
  }

  /**
   Blocked and failed goals, and no others, resume where they stood; Acting and
   blocked ones, and no others, are cancelled.
   */
  lemma ResumedOrCancelled(w: World, parent: nat -> nat, id: nat, now: nat)
    requires Inv(w, parent) && id in w.driver.goals
    ensures var g, v := w.driver.goals[id], Step(w, ResumeReq(id, now), parent);
            if g.state == Blocked || g.state == Failed then
              && OnlyChanged(w, v, id, g.(state := Acting, stepStarted := now, pending := None))
              && Stands(v, g.session, true, g.yolo)
            else v == w
    ensures var g, v := w.driver.goals[id], Step(w, CancelReq(id), parent);
            if g.state == Acting || g.state == Blocked then
              OnlyChanged(w, v, id, g.(state := Cancelled, pending := None)) && Stands(v, g.session, false, false)
            else v == w
  {
    var g := w.driver.goals[id];
    NotArmedNotListed(w.driver, id);
    EmittedOne(w.outstanding, Prompt(g.session));
    EmittedOne(w.outstanding, CancelTurn(g.session));
  }

  /**
   A goal whose turn ends with batches out is held, whatever it reported; the last
   batch to report takes it one step on, never past its budget; an approval parks it.
   */
  lemma HeldAndReturned(w: World, parent: nat -> nat, id: nat, batch: nat, now: nat)
    requires Inv(w, parent) && id in w.driver.goals && w.driver.goals[id].state == Acting
    ensures var g := w.driver.goals[id];
            Batches(w.driver, g.session) != {} ==>
              OnlyChanged(w, Step(w, TurnDone(g.session, now), parent), id, g.(awaitingBatch := true))
    ensures var g, v := w.driver.goals[id], Step(w, Reported(batch, now), parent);
            if parent(batch) == g.session && Batches(w.driver, g.session) <= {batch} && g.awaitingBatch then
              && OnlyChanged(w, v, id, g.(awaitingBatch := false, pending := None, stepStarted := now,
                                          step := if g.step == g.maxSteps then g.step else g.step + 1))
              && Stands(v, g.session, true, g.yolo)
            else id in v.driver.goals && v.driver.goals[id] == g
    ensures var g := w.driver.goals[id];
            var v := Step(w, Approval(g.session), parent);
            OnlyChanged(w, v, id, g.(state := Blocked, pending := None)) && Stands(v, g.session, false, g.yolo)
  {
    var g := w.driver.goals[id];
    FindActingIs(w.driver.goals, g.session, id);
    NotArmedNotListed(w.driver, id);
    EmittedOne(w.outstanding, Prompt(g.session));
    EmittedOne(w.outstanding, CancelTurn(g.session));
  }

  lemma {:induction false} DoneStaysDone(w: World, parent: nat -> nat, batch: nat, events: seq<Event>)
    requires Inv(w, parent) && batch in w.driver.doneBatches && forall e <- events :: !e.Reboot?
    ensures forall s :: batch !in Batches(After(w, events, parent).driver, s)
    decreases |events|
  {
    if events != [] {
      assert !events[0].Reboot?;
      StepInv(w, events[0], parent);
      DoneStaysDone(Step(w, events[0], parent), parent, batch, events[1..]);
    }
  }

  /** A batch that reported is out no more, whatever its workers still say, until a restart. */
  lemma ReportedForGood(w: World, parent: nat -> nat, batch: nat, now: nat, events: seq<Event>)
    requires Inv(w, parent) && forall e <- events :: !e.Reboot?
    ensures forall s :: batch !in Batches(After(Step(w, Reported(batch, now), parent), events, parent).driver, s)
  {
    ReportKeeps(w, parent, batch, now);
    DoneStaysDone(Step(w, Reported(batch, now), parent), parent, batch, events);
  }

  /**
   A new goal acts on a session of its own from step 1, prompted, within the budget
   asked for: 12 by default, else the low 32 bits kept between 1 and 100.
   */
  lemma CreatedGoal(w: World, parent: nat -> nat, budget: Option<u64>, yolo: bool, now: nat)
    requires Inv(w, parent)
    ensures var d, v := w.driver, Step(w, CreateReq(budget, yolo, now), parent);
            && d.nextGoal in v.driver.goals
            && var g := v.driver.goals[d.nextGoal];
               && d.nextGoal !in d.goals && OnlyChanged(w, v, d.nextGoal, g)
               && Stands(v, d.nextSession, true, yolo)
               && g == Goal(d.nextSession, Acting, 1, g.maxSteps, now, None, yolo, false)
               && (budget == None ==> g.maxSteps == 12)
               && (budget.Some? ==> var n := budget.value % 0x1_0000_0000;
                     1 <= g.maxSteps <= 100 && (1 <= n <= 100 ==> g.maxSteps == n) && (n > 100 ==> g.maxSteps == 100))
  {
    EmittedOne(w.outstanding, Prompt(w.driver.nextSession));
    assert w.driver.nextSession in w.driver.yoloSessions ==> HasArmed(w.driver.goals, w.driver.nextSession);
  }

  /** A restart parks what was Acting, keeps every other state and every step, and re-arms what stays resumable. */
  lemma RestartParks(w: World, parent: nat -> nat, id: nat, now: nat, nextSession: nat, nextGoal: nat)
    requires Inv(w, parent) && id in w.driver.goals
    ensures var g, v := w.driver.goals[id], Step(w, Reboot(now, nextSession, nextGoal), parent);
            && v.driver.goals.Keys == w.driver.goals.Keys && v.outstanding == {}
            && v.driver.goals[id] == g.(state := if g.state == Acting then Blocked else g.state, stepStarted := now,
                                        pending := None, awaitingBatch := false)
            && (g.session in v.driver.yoloSessions <==> g.yolo && (g.state == Acting || g.state == Blocked))
  {
  }
}
