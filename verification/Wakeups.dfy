/**
 The agent's own alarm clock: one-shot wakeups with a cap on how many wait and
 a cap, checked when scheduling, on how many fire in a UTC day.
 */
module Wakeups {
  import opened Words
  import opened Counting

  const MIN_DELAY_SECS: nat := 60
  const MAX_HORIZON_SECS: nat := 90 * 86_400
  const FIRED_RETENTION_SECS: nat := 48 * 3_600
  const SECS_PER_DAY: nat := 86_400

  datatype Task = Task(id: string, at: Option<u64>, wakeup: bool, lastRun: Option<u64>)

  function UtcDay(t: nat): (r: nat) { t / SECS_PER_DAY }

  predicate Waiting(t: Task) { t.wakeup && t.lastRun.None? }
  const PENDING: Task -> bool := (t: Task) => Waiting(t)
  function FiredOn(day: nat): (r: Task -> bool) {
    (t: Task) => t.wakeup && t.lastRun.Some? && UtcDay(t.lastRun.value) == day
  }

  function PendingWakeups(tasks: seq<Task>): (r: nat) { Count(tasks, PENDING) }
  function FiredToday(tasks: seq<Task>, now: u64): (r: nat) { Count(tasks, FiredOn(UtcDay(now))) }

  predicate Stale(t: Task, now: u64) {
    t.wakeup && t.lastRun.Some? && SaturatingSub(now, t.lastRun.value) > FIRED_RETENTION_SECS
  }
  function Retained(now: u64): (r: Task -> bool) { (t: Task) => !Stale(t, now) }
  function Prune(tasks: seq<Task>, now: u64): (r: seq<Task>) { Filter(tasks, Retained(now)) }

  /** Pruning never drops an entry either cap still counts. */
  lemma PruneKeepsTheLedger(tasks: seq<Task>, now: u64)
    ensures FiredToday(Prune(tasks, now), now) == FiredToday(tasks, now)
    ensures PendingWakeups(Prune(tasks, now)) == PendingWakeups(tasks)
  {
    CountFilter(tasks, Retained(now), FiredOn(UtcDay(now)));
    CountFilter(tasks, Retained(now), PENDING);
  }

  // ---- When to fire ----

  datatype FireError = Unparsable | Both | Neither | TooSoon | TooFar

  /** `resolve_fire_at`; `at` is the parsed argument, an error when it was text that did not parse. */
  function ResolveFireAt(delay: Option<u64>, at: Result<Option<u64>, ()>, now: u64): (r: Result<u64, FireError>) {
    if at.Err? then Err(Unparsable)
    else if delay.Some? && at.value.Some? then Err(Both)
    else if delay.None? && at.value.None? then Err(Neither)
    else
      var fire := if delay.Some? then SaturatingAdd(now, delay.value) else at.value.value;
      if fire < SaturatingAdd(now, MIN_DELAY_SECS) then Err(TooSoon)
      else if fire > SaturatingAdd(now, MAX_HORIZON_SECS) then Err(TooFar)
      else Ok(fire)
  }

  function Least(a: nat, b: nat): (r: nat) { if a < b then a else b }

  /**
   Exactly one of delay and time is given, and it lies between a minute and ninety
   days ahead: that is when the wakeup fires. Times stop at the top of the range.
   */
  lemma FireTimeMeaning(delay: Option<u64>, at: Result<Option<u64>, ()>, now: u64, fire: u64)
    ensures ResolveFireAt(delay, at, now) == Ok(fire) <==>
            && (at == Ok(None) <==> delay.Some?) && at.Ok?
            && fire == Least(if delay.Some? then now + delay.value else at.value.value, U64_MAX)
            && Least(now + 60, U64_MAX) <= fire <= Least(now + 7_776_000, U64_MAX)
  {
  }

  datatype Caps = Caps(maxPending: nat, daily: nat)

  /** Is a request at `now` let through the caps? */
  predicate Admits(tasks: seq<Task>, now: u64, caps: Caps) {
    PendingWakeups(tasks) < caps.maxPending && FiredToday(tasks, now) < caps.daily
  }

  // ---- Firing ----

  /** One entry on one tick; `due` says whether a recurring task's time has come. */
  function Fired(t: Task, now: u64, enabled: bool, due: Task -> bool): (r: Task) {
    if t.at.Some? then
      if t.wakeup && !enabled then t
      else if t.lastRun.None? && now >= t.at.value then t.(lastRun := Some(now))
      else t
    else if due(t) then t.(lastRun := Some(now)) else t
  }

  /** A wakeup that went off: which one, when it was due, when it fired. */
  datatype Firing = Firing(id: string, at: u64, time: u64)

  datatype World = World(tasks: seq<Task>, log: seq<Firing>, now: u64)

  function FireOne(w: World, i: nat, enabled: bool, due: Task -> bool): (r: World)
    requires i < |w.tasks|
  {
    var t := w.tasks[i];
    var f := Fired(t, w.now, enabled, due);
    World(w.tasks[i := f],
          if t.wakeup && t.lastRun.None? && f.lastRun.Some? && t.at.Some?
          then w.log + [Firing(t.id, t.at.value, w.now)] else w.log,
          w.now)
  }

  function FireUpTo(w: World, k: nat, enabled: bool, due: Task -> bool): (v: World)
    requires k <= |w.tasks|
    ensures |v.tasks| == |w.tasks| && v.now == w.now
    ensures forall i :: k <= i < |w.tasks| ==> v.tasks[i] == w.tasks[i]
  {
    if k == 0 then w else FireOne(FireUpTo(w, k - 1, enabled, due), k - 1, enabled, due)
  }

  function Tick(w: World, enabled: bool, due: Task -> bool): (r: World) {
    var v := FireUpTo(w, |w.tasks|, enabled, due);
    v.(tasks := Prune(v.tasks, w.now))
  }

  /** The entry goes off at `now`: a timed one once its time has come, a wakeup only while enabled. */
  predicate Goes(t: Task, now: u64, enabled: bool, due: Task -> bool) {
    if t.at == None then due(t) else t.lastRun == None && now >= t.at.value && (t.wakeup ==> enabled)
  }

  function AfterTick(t: Task, now: u64, enabled: bool, due: Task -> bool): (r: Task) {
    if Goes(t, now, enabled, due) then t.(lastRun := Some(now)) else t
  }

  lemma {:induction false} FiredOneByOne(w: World, k: nat, enabled: bool, due: Task -> bool, i: nat)
    requires i < k <= |w.tasks|
    ensures var v, t := FireUpTo(w, k, enabled, due), w.tasks[i];
            && v.tasks[i] == AfterTick(t, w.now, enabled, due)
            && (t.wakeup && t.at.Some? && Goes(t, w.now, enabled, due) ==> Firing(t.id, t.at.value, w.now) in v.log)
    decreases k
  {
    if i < k - 1 { FiredOneByOne(w, k - 1, enabled, due, i); }
  }

  /**
   No entry is passed over: after a tick it has gone off if it was to, a wakeup is on
   the log, and it is kept unless it is a wakeup that fired more than two days ago.
   */
  lemma TickMeaning(w: World, enabled: bool, due: Task -> bool, i: nat)
    requires i < |w.tasks|
    ensures var v, t := Tick(w, enabled, due), w.tasks[i];
            var f := AfterTick(t, w.now, enabled, due);
            && (f in v.tasks <==> !(f.wakeup && f.lastRun.Some? && w.now > f.lastRun.value + 2 * 86_400))
            && (t.wakeup && t.at.Some? && Goes(t, w.now, enabled, due) ==> Firing(t.id, t.at.value, w.now) in v.log)
  {
    FiredOneByOne(w, |w.tasks|, enabled, due, i);
    var v := FireUpTo(w, |w.tasks|, enabled, due);
    assert v.tasks[i] in v.tasks;
    FilterMeaning(v.tasks, Retained(w.now), v.tasks[i]);
  }

  // ---- The scheduler ----

  function NotThisPending(id: string): (r: Task -> bool) { (t: Task) => !(Waiting(t) && t.id == id) }
  function NotThis(id: string): (r: Task -> bool) { (t: Task) => t.id != id }

  class Scheduler {
    var tasks: seq<Task>
    ghost var log: seq<Firing>

    constructor (tasks: seq<Task>)
      ensures this.tasks == tasks && log == []
    {
      this.tasks, log := tasks, [];
    }

    method CountPending() returns (n: nat)
      ensures n == PendingWakeups(tasks)
    {
      n := 0;
      var i := 0;
      while i < |tasks|
        invariant i <= |tasks| && n == Count(tasks[..i], PENDING)
      {
        assert tasks[..i] + [tasks[i]] == tasks[..i + 1];
        if tasks[i].wakeup && tasks[i].lastRun.None? { n := n + 1; }
        i := i + 1;
      }
      assert tasks[..i] == tasks;
    }

    method CountFired(now: u64) returns (n: nat)
      ensures n == FiredToday(tasks, now)
    {
      n := 0;
      var i := 0;
      while i < |tasks|
        invariant i <= |tasks| && n == Count(tasks[..i], FiredOn(UtcDay(now)))
      {
        assert tasks[..i] + [tasks[i]] == tasks[..i + 1];
        if tasks[i].wakeup && tasks[i].lastRun.Some? && UtcDay(tasks[i].lastRun.value) == UtcDay(now) { n := n + 1; }
        i := i + 1;
      }
      assert tasks[..i] == tasks;
    }

    /** `id` is the generated one. */
    method ScheduleWakeup(id: string, enabled: bool, noteOk: bool, delay: Option<u64>, at: Result<Option<u64>, ()>,
                          now: u64, caps: Caps) returns (ok: bool)
      modifies this
      ensures ok <==> enabled && noteOk && ResolveFireAt(delay, at, now).Ok? && Admits(old(tasks), now, caps)
      ensures log == old(log)
      ensures tasks == if ok then old(tasks) + [Task(id, Some(ResolveFireAt(delay, at, now).value), true, None)]
                       else old(tasks)
    {
      if !enabled || !noteOk {
        return false;
      }
      var fire := ResolveFireAt(delay, at, now);
      if fire.Err? {
        return false;
      }
      var pending := CountPending();
      var today := CountFired(now);
      if pending >= caps.maxPending {
        return false;
      }
      if today >= caps.daily {
        return false;
      }
      tasks := tasks + [Task(id, Some(fire.value), true, None)];
      return true;
    }

    method RunTick(now: u64, enabled: bool, due: Task -> bool)
      modifies this
      ensures World(tasks, log, now) == Tick(old(World(tasks, log, now)), enabled, due)
    {
      ghost var was := World(tasks, log, now);
      var i := 0;
      while i < |tasks|
        invariant i <= |tasks| == |was.tasks|
        invariant World(tasks, log, now) == FireUpTo(was, i, enabled, due)
      {
        var task := tasks[i];
        i := i + 1;
        if task.at.Some? {
          if task.wakeup && !enabled {
            continue;
          }
          if task.lastRun.None? && now >= task.at.value {
            if task.wakeup { log := log + [Firing(task.id, task.at.value, now)]; }
            tasks := tasks[i - 1 := task.(lastRun := Some(now))];
          }
          continue;
        }
        if due(task) {
          tasks := tasks[i - 1 := task.(lastRun := Some(now))];
        }
      }
      tasks := Filter(tasks, Retained(now));
    }

    method CancelWakeup(id: string) returns (ok: bool)
      modifies this
      ensures tasks == Filter(old(tasks), NotThisPending(id)) && log == old(log)
      ensures forall t :: t in tasks <==> t in old(tasks) && !(t.wakeup && t.lastRun == None && t.id == id)
      ensures ok <==> |tasks| != |old(tasks)|
    {
      var before := |tasks|;
      forall t { FilterMeaning(tasks, NotThisPending(id), t); }
      tasks := Filter(tasks, NotThisPending(id));
      return |tasks| != before;
    }

    method CancelSchedule(id: string) returns (ok: bool)
      modifies this
      ensures tasks == Filter(old(tasks), NotThis(id)) && log == old(log)
      ensures forall t :: t in tasks <==> t in old(tasks) && t.id != id
      ensures ok <==> |tasks| != |old(tasks)|
    {
      var before := |tasks|;
      forall t { FilterMeaning(tasks, NotThis(id), t); }
      tasks := Filter(tasks, NotThis(id));
      return |tasks| != before;
    }
  }

  // ---- Whole runs ----

  datatype Event =
    | Clock(now: u64)
    | TickEvent(enabled: bool, due: Task -> bool)
    | Schedule(id: string, fire: u64)
    | ScheduleCron(id: string)
    | CancelPending(id: string)
    | CancelAny(id: string)

  function Step(w: World, e: Event, caps: Caps): (r: World) {
    match e
    case Clock(now) => w.(now := now)
    case TickEvent(enabled, due) => Tick(w, enabled, due)
    case Schedule(id, fire) =>
      if Admits(w.tasks, w.now, caps) then w.(tasks := w.tasks + [Task(id, Some(fire), true, None)]) else w
    case ScheduleCron(id) => w.(tasks := w.tasks + [Task(id, None, false, None)])
    case CancelPending(id) => w.(tasks := Filter(w.tasks, NotThisPending(id)))
    case CancelAny(id) => w.(tasks := Filter(w.tasks, NotThis(id)))
  }

  predicate KnownId(w: World, id: string) {
    (exists i :: 0 <= i < |w.tasks| && w.tasks[i].id == id) || (exists i :: 0 <= i < |w.log| && w.log[i].id == id)
  }

  /** The clock does not run back, ids are fresh, and `cancel_schedule` is not aimed at a wakeup that fired today. */
  predicate Allowed(w: World, e: Event) {
    match e
    case Clock(now) => now >= w.now
    case Schedule(id, _) => !KnownId(w, id)
    case ScheduleCron(id) => !KnownId(w, id)
    case CancelAny(id) => forall i :: 0 <= i < |w.tasks| && FiredOn(UtcDay(w.now))(w.tasks[i]) ==> w.tasks[i].id != id
    case _ => true
  }

  function LoggedOn(day: nat): (r: Firing -> bool) { (f: Firing) => UtcDay(f.time) == day }
  function FiringsOn(w: World, day: nat): (r: nat) { Count(w.log, LoggedOn(day)) }

  predicate GoodTask(t: Task, now: u64) {
    t.wakeup ==> t.at.Some? && (t.lastRun.Some? ==> t.lastRun.value <= now)
  }

  ghost predicate GoodTasks(w: World) {
    forall j :: 0 <= j < |w.tasks| ==>
      && GoodTask(w.tasks[j], w.now)
      && forall i :: 0 <= i < j ==> w.tasks[i].id != w.tasks[j].id
  }

  ghost predicate GoodLog(w: World) {
    forall j :: 0 <= j < |w.log| ==>
      && w.log[j].at <= w.log[j].time <= w.now
      && (forall i :: 0 <= i < j ==> w.log[i].id != w.log[j].id)
      && (forall i :: 0 <= i < |w.tasks| && Waiting(w.tasks[i]) ==> w.tasks[i].id != w.log[j].id)
  }

  /** On every day, and counting those still waiting on today. */
  predicate DayWithinCaps(w: World, caps: Caps, day: nat) {
    && PendingWakeups(w.tasks) <= caps.maxPending
    && FiringsOn(w, day) <= caps.daily - 1 + caps.maxPending
    && (day == UtcDay(w.now) ==>
          && FiringsOn(w, day) <= FiredToday(w.tasks, w.now)
          && FiringsOn(w, day) + PendingWakeups(w.tasks) <= caps.daily - 1 + caps.maxPending)
  }

  ghost predicate Inv(w: World, caps: Caps) {
    && GoodTasks(w)
    && GoodLog(w)
    && caps.daily >= 1
    && forall day :: DayWithinCaps(w, caps, day)
  }

  /** Whether the entry at `i` goes off on this tick. */
  predicate GoesOff(w: World, i: nat, enabled: bool)
    requires i < |w.tasks|
  {
    var t := w.tasks[i];
    enabled && Waiting(t) && t.at.Some? && w.now >= t.at.value
  }

  /** What firing one entry does to the counts: one more on the day, one fewer waiting. */
  lemma FireOneCounts(w: World, i: nat, enabled: bool, due: Task -> bool, day: nat)
    requires GoodTasks(w) && i < |w.tasks|
    ensures var v, k := FireOne(w, i, enabled, due), if GoesOff(w, i, enabled) then 1 else 0;
            && PendingWakeups(v.tasks) == PendingWakeups(w.tasks) - k
            && FiredToday(v.tasks, w.now) == FiredToday(w.tasks, w.now) + k
            && FiringsOn(v, day) == FiringsOn(w, day) + if day == UtcDay(w.now) then k else 0
  {
    var v := FireOne(w, i, enabled, due);
    CountUpdate(w.tasks, i, v.tasks[i], PENDING);
    CountUpdate(w.tasks, i, v.tasks[i], FiredOn(UtcDay(w.now)));
  }

  lemma FireOneInv(w: World, v: World, i: nat, enabled: bool, due: Task -> bool, caps: Caps)
    requires i < |w.tasks| && v == FireOne(w, i, enabled, due)
    requires Inv(w, caps)
    ensures Inv(v, caps)
  {
    assert DayWithinCaps(w, caps, UtcDay(w.now));
    FireOneCounts(w, i, enabled, due, UtcDay(w.now));
    forall day ensures DayWithinCaps(v, caps, day) {
      assert DayWithinCaps(w, caps, day);
      FireOneCounts(w, i, enabled, due, day);
    }
  }

  lemma {:induction false} FireUpToInv(w: World, k: nat, enabled: bool, due: Task -> bool, caps: Caps)
    requires Inv(w, caps) && k <= |w.tasks|
    ensures Inv(FireUpTo(w, k, enabled, due), caps)
    decreases k
  {
    if k > 0 {
      FireUpToInv(w, k - 1, enabled, due, caps);
      FireOneInv(FireUpTo(w, k - 1, enabled, due), FireUpTo(w, k, enabled, due), k - 1, enabled, due, caps);
    }
  }

  lemma {:induction false} FilterKeepsTasksGood(w: World, keep: Task -> bool)
    requires GoodTasks(w)
    ensures GoodTasks(w.(tasks := Filter(w.tasks, keep)))
    decreases |w.tasks|
  {
    if w.tasks != [] {
      var n := |w.tasks| - 1;
      var most, last := w.tasks[..n], w.tasks[n];
      FilterKeepsTasksGood(w.(tasks := most), keep);
      var kept := Filter(most, keep);
      forall i | 0 <= i < |kept| ensures kept[i].id != last.id {
        assert kept[i] in kept;
        FilterMeaning(most, keep, kept[i]);
        var j :| 0 <= j < n && most[j] == kept[i];
        assert w.tasks[j].id != w.tasks[n].id;
      }
    }
  }

  lemma FilterInv(w: World, keep: Task -> bool, caps: Caps)
    requires Inv(w, caps)
    requires forall t :: t in w.tasks && FiredOn(UtcDay(w.now))(t) ==> keep(t)
    ensures Inv(w.(tasks := Filter(w.tasks, keep)), caps)
  {
    var v := w.(tasks := Filter(w.tasks, keep));
    FilterKeepsTasksGood(w, keep);
    CountFilter(w.tasks, keep, FiredOn(UtcDay(w.now)));
    FilterCountsLess(w.tasks, keep, PENDING);
    forall i, j | 0 <= i < |v.tasks| && 0 <= j < |v.log| && Waiting(v.tasks[i])
      ensures v.tasks[i].id != v.log[j].id
    {
      assert v.tasks[i] in v.tasks;
      FilterMeaning(w.tasks, keep, v.tasks[i]);
      var k :| 0 <= k < |w.tasks| && w.tasks[k] == v.tasks[i];
      assert w.tasks[k].id != w.log[j].id;
    }
    forall day ensures DayWithinCaps(v, caps, day) { assert DayWithinCaps(w, caps, day); }
  }

  lemma AppendInv(w: World, t: Task, caps: Caps)
    requires Inv(w, caps) && !KnownId(w, t.id) && t.lastRun.None?
    requires t.wakeup ==> t.at.Some? && Admits(w.tasks, w.now, caps)
    ensures Inv(w.(tasks := w.tasks + [t]), caps)
  {
    var v := w.(tasks := w.tasks + [t]);
    forall day ensures DayWithinCaps(v, caps, day) { assert DayWithinCaps(w, caps, day); }
  }

  /** A new day starts with nothing fired on it. */
  lemma NewDayIsEmpty(w: World, now: u64)
    requires GoodLog(w) && now >= w.now && UtcDay(now) != UtcDay(w.now)
    ensures FiringsOn(w, UtcDay(now)) == 0
  {
    CountNone(w.log, LoggedOn(UtcDay(now)));
  }

  lemma StepInv(w: World, e: Event, caps: Caps)
    requires Inv(w, caps) && Allowed(w, e)
    ensures Inv(Step(w, e, caps), caps)
  {
    match e
    case Clock(now) =>
      if UtcDay(now) != UtcDay(w.now) { NewDayIsEmpty(w, now); }
      forall day ensures DayWithinCaps(w.(now := now), caps, day) {
        assert DayWithinCaps(w, caps, day);
        assert FiringsOn(w.(now := now), day) == FiringsOn(w, day);
      }
    case TickEvent(enabled, due) =>
      FireUpToInv(w, |w.tasks|, enabled, due, caps);
      FilterInv(FireUpTo(w, |w.tasks|, enabled, due), Retained(w.now), caps);
    case Schedule(id, fire) =>
      if Admits(w.tasks, w.now, caps) { AppendInv(w, Task(id, Some(fire), true, None), caps); }
    case ScheduleCron(id) => AppendInv(w, Task(id, None, false, None), caps);
    case CancelPending(id) => FilterInv(w, NotThisPending(id), caps);
    case CancelAny(id) =>
      forall t | t in w.tasks && FiredOn(UtcDay(w.now))(t) ensures NotThis(id)(t) {
        var i :| 0 <= i < |w.tasks| && w.tasks[i] == t;
      }
      FilterInv(w, NotThis(id), caps);
  }

  function After(w: World, events: seq<Event>, caps: Caps): (r: World)
    decreases |events|
  {
    if events == [] then w else After(Step(w, events[0], caps), events[1..], caps)
  }

  ghost predicate AllowedRun(w: World, events: seq<Event>, caps: Caps)
    decreases |events|
  {
    events == [] || (Allowed(w, events[0]) && AllowedRun(Step(w, events[0], caps), events[1..], caps))
  }

  lemma {:induction false} RunInv(w: World, events: seq<Event>, caps: Caps)
    requires Inv(w, caps) && AllowedRun(w, events, caps)
    ensures Inv(After(w, events, caps), caps)
    decreases |events|
  {
    if events != [] {
      StepInv(w, events[0], caps);
      RunInv(Step(w, events[0], caps), events[1..], caps);
    }
  }

  /** What the schedule file may hold when the daemon starts. */
  ghost predicate GoodStart(w: World, caps: Caps) {
    w.log == [] && GoodTasks(w) && caps.daily >= 1 && PendingWakeups(w.tasks) <= caps.maxPending
  }

  /**
   The caps hold over every run: at most `daily - 1 + maxPending` wakeups fire
   in any UTC day, never more than `maxPending` wait, and each fires at most
   once and never before its time.
   */
  lemma WakeupsAreBounded(w: World, events: seq<Event>, caps: Caps, day: nat)
    requires GoodStart(w, caps) && AllowedRun(w, events, caps)
    ensures var v := After(w, events, caps);
            && FiringsOn(v, day) <= caps.daily - 1 + caps.maxPending
            && PendingWakeups(v.tasks) <= caps.maxPending
            && (forall i :: 0 <= i < |v.log| ==> v.log[i].at <= v.log[i].time)
            && (forall i, j :: 0 <= i < j < |v.log| ==> v.log[i].id != v.log[j].id)
  {
    RunInv(w, events, caps);
    assert DayWithinCaps(After(w, events, caps), caps, day);
  }

  /** With the shipped caps, 16 waiting and 24 a day, that is 39. */
  lemma ThirtyNineByDefault(w: World, events: seq<Event>, day: nat)
    requires GoodStart(w, Caps(16, 24)) && AllowedRun(w, events, Caps(16, 24))
    ensures FiringsOn(After(w, events, Caps(16, 24)), day) <= 39
  {
    WakeupsAreBounded(w, events, Caps(16, 24), day);
  }

  /**
   Why `cancel_schedule` is kept off wakeups: it lowers the day's ledger exactly
   when it hits an entry fired today, and with the ledger at the cap a request
   the cap should refuse is then let through.
   */
  lemma CancelCanEraseTheLedger(tasks: seq<Task>, now: u64, id: string, caps: Caps)
    ensures FiredToday(Filter(tasks, NotThis(id)), now) == FiredToday(tasks, now) <==>
            forall i :: 0 <= i < |tasks| && FiredOn(UtcDay(now))(tasks[i]) ==> tasks[i].id != id
    ensures FiredToday(tasks, now) == caps.daily && PendingWakeups(tasks) < caps.maxPending
            && (exists i :: 0 <= i < |tasks| && FiredOn(UtcDay(now))(tasks[i]) && tasks[i].id == id) ==>
              !Admits(tasks, now, caps) && Admits(Filter(tasks, NotThis(id)), now, caps)
  {
    var fired := FiredOn(UtcDay(now));
    FilterCountsLess(tasks, NotThis(id), PENDING);
    if i :| 0 <= i < |tasks| && fired(tasks[i]) && tasks[i].id == id {
      FilterLoses(tasks, NotThis(id), fired, i);
    } else {
      forall t | t in tasks && fired(t) ensures NotThis(id)(t) {
        var i :| 0 <= i < |tasks| && tasks[i] == t;
      }
      CountFilter(tasks, NotThis(id), fired);
    }
  }
}
