/** A run the wakeup caps do not bound: fired wakeups are cancelled out of the day's ledger. */
module CancelledWakeups {
  import opened Words
  import opened Counting
  import opened Wakeups

  const IDLE_WORLD := World([], [], 0)
  const NEVER: Task -> bool := (t: Task) => false

  function WakeupId(n: nat): (id: string)
    ensures |id| == n
  {
    seq(n, _ => 'w')
  }

  /** Wake in a minute, let it fire, cancel the fired entry. */
  function OneMinute(n: nat): (events: seq<Event>)
    requires 60 * n <= U64_MAX
  {
    [Schedule(WakeupId(n), 60 * n), Clock(60 * n), TickEvent(true, NEVER), CancelAny(WakeupId(n))]
  }

  function Minutes(n: nat): (events: seq<Event>)
    requires 60 * n <= U64_MAX
  {
    if n == 0 then [] else Minutes(n - 1) + OneMinute(n)
  }

  lemma {:induction false} AfterSplits(w: World, a: seq<Event>, b: seq<Event>, caps: Caps)
    ensures After(w, a + b, caps) == After(After(w, a, caps), b, caps)
    decreases |a|
  {
    if a == [] {
      assert a + b == b;
    } else {
      assert (a + b)[1..] == a[1..] + b;
      AfterSplits(Step(w, a[0], caps), a[1..], b, caps);
    }
  }

  lemma AfterFour(w: World, a: Event, b: Event, c: Event, d: Event, caps: Caps)
    ensures After(w, [a, b, c, d], caps) == Step(Step(Step(Step(w, a, caps), b, caps), c, caps), d, caps)
  {
    var w1 := Step(w, a, caps);
    var w2 := Step(w1, b, caps);
    var w3 := Step(w2, c, caps);
    assert [a, b, c, d][1..] == [b, c, d] && [b, c, d][1..] == [c, d] && [c, d][1..] == [d];
    assert After(w, [a, b, c, d], caps) == After(w1, [b, c, d], caps);
    assert After(w1, [b, c, d], caps) == After(w2, [c, d], caps);
    assert After(w2, [c, d], caps) == After(w3, [d], caps);
    assert After(w3, [d], caps) == After(Step(w3, d, caps), [], caps);
  }

  /** One such minute leaves nothing but one more firing. */
  lemma OneMinuteFires(w: World, n: nat, caps: Caps)
    requires caps.daily >= 1 && caps.maxPending >= 1 && w.tasks == [] && n >= 1 && 60 * n <= U64_MAX
    ensures After(w, OneMinute(n), caps) == World([], w.log + [Firing(WakeupId(n), 60 * n, 60 * n)], 60 * n)
  {
    var t := Task(WakeupId(n), Some(60 * n), true, None);
    var fired := t.(lastRun := Some(60 * n));
    var log := w.log + [Firing(WakeupId(n), 60 * n, 60 * n)];
    AfterFour(w, Schedule(WakeupId(n), 60 * n), Clock(60 * n), TickEvent(true, NEVER), CancelAny(WakeupId(n)), caps);
    assert w.tasks + [t] == [t];
    var ready := World([t], w.log, 60 * n);
    assert FireUpTo(ready, 0, true, NEVER) == ready;
    assert FireUpTo(ready, 1, true, NEVER) == World([fired], log, 60 * n);
    FilterOne(fired, Retained(60 * n));
    FilterOne(fired, NotThis(WakeupId(n)));
  }

  lemma FilterOne(t: Task, keep: Task -> bool)
    ensures Filter([t], keep) == if keep(t) then [t] else []
  {
    assert [t][..0] == [];
  }

  /**
   When fired wakeups may be cancelled the caps bound nothing but the spacing: one
   wakeup a minute goes off all day, whatever the caps, against 39 promised.
   */
  lemma {:induction false} CancelBreaksTheBound(n: nat, caps: Caps)
    requires caps.daily >= 1 && caps.maxPending >= 1 && n < 1440
    ensures var w := After(IDLE_WORLD, Minutes(n), caps);
            w.tasks == [] && w.now == 60 * n && FiringsOn(w, 0) == n
  {
    if n > 0 {
      CancelBreaksTheBound(n - 1, caps);
      var w := After(IDLE_WORLD, Minutes(n - 1), caps);
      AfterSplits(IDLE_WORLD, Minutes(n - 1), OneMinute(n), caps);
      OneMinuteFires(w, n, caps);
    }
  }
}
