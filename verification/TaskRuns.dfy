/** What a task goes through in a run of the scheduler: sleep, block, end, time slice and choice (k64_sched.c:88-123, 205-330). */
module TaskRuns {
  import opened Scheduler

  /** Task x sits at position i, blocked. */
  predicate BlockedAt(r: Ring, x: nat, i: int) {
    0 <= i < |r.tasks| && r.tasks[i].id == x && r.tasks[i].state == Blocked
  }

  predicate EndedAt(r: Ring, x: nat, i: int) {
    0 <= i < |r.tasks| && r.tasks[i].id == x && r.tasks[i].state == Zombie
  }

  /** The event is no call of the task at position i and nobody's call on it. */
  predicate Leaves(r: Ring, e: Event, i: nat) { Spares(r, e, i) && e != Event.Wake(i) }

  /** From ring k on, whenever x is blocked it is left alone. */
  ghost predicate LeftAsleep(rings: seq<Ring>, events: seq<Event>, x: nat, k: nat) {
    forall m, i: nat :: k < m < |events| && m < |rings| && BlockedAt(rings[m], x, i) ==> Leaves(rings[m], events[m], i)
  }

  function AtLeastOne(n: nat): nat { if n == 0 then 1 else n }

  // ---------------------------------------------------------------------------------------
  // Ticks and the clock
  // ---------------------------------------------------------------------------------------

  lemma {:induction false} TicksJoin(a: seq<Event>, b: seq<Event>)
    ensures Ticks(a + b) == Ticks(a) + Ticks(b)
  {
    if a == [] {
      assert a + b == b;
    } else {
      TicksJoin(a[1..], b);
      assert (a + b)[1..] == a[1..] + b;
    }
  }

  lemma {:induction false} TicksMore(events: seq<Event>, k: nat, m: nat)
    requires k <= m < |events|
    ensures Ticks(events[k..m + 1]) == Ticks(events[k..m]) + if events[m].Tick? then 1 else 0
  {
    assert events[k..m + 1] == events[k..m] + [events[m]];
    TicksJoin(events[k..m], [events[m]]);
    assert [events[m]][1..] == [];
  }

  lemma {:induction false} TicksSplit(events: seq<Event>, k: nat, m: nat)
    requires k <= m <= |events|
    ensures Ticks(events[k..]) == Ticks(events[k..m]) + Ticks(events[m..])
  {
    assert events[k..] == events[k..m] + events[m..];
    TicksJoin(events[k..m], events[m..]);
  }

  lemma {:induction false} RunWellFormed(rings: seq<Ring>, events: seq<Event>, m: nat)
    requires IsRun(rings, events) && WellFormed(rings[0]) && m < |rings|
    ensures WellFormed(rings[m])
    decreases m
  {
    if m > 0 {
      RunWellFormed(rings, events, m - 1);
      StepKeepsWellFormed(rings[m - 1], events[m - 1], rings[m]);
    }
  }

  lemma {:induction false} SuffixIsRun(rings: seq<Ring>, events: seq<Event>, m: nat)
    requires IsRun(rings, events) && m < |rings|
    ensures IsRun(rings[m..], events[m..])
  {
    forall k | 0 <= k < |events[m..]| ensures Step(rings[m..][k], events[m..][k], rings[m..][k + 1]) {
      assert rings[m..][k + 1] == rings[m + k + 1];
    }
  }

  // ---------------------------------------------------------------------------------------
  // One event and a task that does not run
  // ---------------------------------------------------------------------------------------

  /** A task that is neither ready nor running is passed over by a pick. */
  lemma {:induction false} PickPassesOver(b: Ring, r': Ring, i: nat)
    requires WellFormed(b) && Picked(b, r') && i < |b.tasks| && b.tasks[i].id != 0
    requires b.tasks[i].state == Blocked || b.tasks[i].state == Zombie
    ensures r'.current != i && r'.tasks[i] == b.tasks[i]
  {
    assert Preempted(b)[i] == b.tasks[i] && b.tasks[0].id == 0;
  }

  /** A tick leaves such a task as it is, unless it is a sleeper whose time has come. */
  lemma {:induction false} TickPassesOver(r: Ring, r': Ring, i: nat)
    requires WellFormed(r) && Step(r, Tick, r') && i < |r.tasks| && r.tasks[i].id != 0
    requires r.tasks[i].state == Zombie || (r.tasks[i].state == Blocked && (r.tasks[i].sleepUntil == 0 || r.tasks[i].sleepUntil > r.now + 1))
    ensures i < |r'.tasks| && r'.tasks[i] == r.tasks[i] && r'.now == r.now + 1
  {
    AccountKeepsWellFormed(r);
    var a := Accounted(r);
    assert a.tasks[i] == r.tasks[i];
    var c := a.tasks[a.current];
    if c.state != Running || c.id == 0 {
      PickPassesOver(a, r', i);
    } else if Consumed(a).tasks[a.current].remaining == 0 {
      PickPassesOver(Consumed(a), r', i);
    }
  }

  /** The tick at which its time has come makes a sleeper ready, and may pick it at once. */
  lemma {:induction false} TickWakes(r: Ring, r': Ring, x: nat, i: nat)
    requires WellFormed(r) && Step(r, Tick, r') && x != 0 && BlockedAt(r, x, i) && r.tasks[i].sleepUntil == r.now + 1
    ensures r'.now == r.now + 1 && (Runs(r', x) || WaitsAt(r', x, i))
  {
    AccountKeepsWellFormed(r);
    var a := Accounted(r);
    assert WaitsAt(a, x, i);
    var c := a.tasks[a.current];
    if c.state != Running || c.id == 0 {
      PickServes(a, r', x, i);
    } else if Consumed(a).tasks[a.current].remaining == 0 {
      PickServes(Consumed(a), r', x, i);
    }
  }

  /** Other events leave alone a task they do not concern. */
  lemma {:induction false} OthersPassOver(r: Ring, e: Event, r': Ring, i: nat)
    requires WellFormed(r) && Step(r, e, r') && !e.Tick? && i < |r.tasks| && r.tasks[i].id != 0 && Leaves(r, e, i)
    requires e.Yield? ==> r.current != i
    ensures Moved(r, e, i) < |r'.tasks| && r'.tasks[Moved(r, e, i)] == r.tasks[i] && r'.now == r.now
  {
  }

  /** The same for a yield, which touches nothing but the slice of the caller. */
  lemma {:induction false} EventPassesOver(r: Ring, e: Event, r': Ring, x: nat, i: nat)
    requires WellFormed(r) && Step(r, e, r') && !e.Tick? && x != 0 && Leaves(r, e, i) && i < |r.tasks| && r.tasks[i].id == x
    ensures var i' := Moved(r, e, i);
            i' < |r'.tasks| && r'.tasks[i'] == r.tasks[i].(remaining := r'.tasks[i'].remaining) && r'.now == r.now
  {
    if !e.Yield? {
      OthersPassOver(r, e, r', i);
    }
  }

  // ---------------------------------------------------------------------------------------
  // Sleep
  // ---------------------------------------------------------------------------------------

  /** x sleeps at position i until that tick. */
  predicate AsleepAt(r: Ring, x: nat, i: nat, until: nat) { BlockedAt(r, x, i) && r.tasks[i].sleepUntil == until }

  lemma {:induction false} AsleepStep(r: Ring, e: Event, r': Ring, x: nat, i: nat, until: nat) returns (i': nat)
    requires WellFormed(r) && Step(r, e, r') && x != 0 && AsleepAt(r, x, i, until) && Leaves(r, e, i) && r.now < until
    ensures r'.now == r.now + if e.Tick? then 1 else 0
    ensures if r'.now < until then AsleepAt(r', x, i', until) else Runs(r', x) || WaitsAt(r', x, i')
  {
    i' := Moved(r, e, i);
    if !e.Tick? {
      EventPassesOver(r, e, r', x, i);
    } else if r.now + 1 == until {
      TickWakes(r, r', x, i);
    } else {
      TickPassesOver(r, r', i);
    }
  }

  /** Event k puts task x to sleep for n ticks. */
  ghost predicate SleepsFrom(rings: seq<Ring>, events: seq<Event>, x: nat, k: nat, n: nat) {
    && IsRun(rings, events) && WellFormed(rings[0]) && k < |events| && events[k] == Event.Sleep(n)
    && x != 0 && rings[k].tasks[rings[k].current].id == x && LeftAsleep(rings, events, x, k)
  }

  lemma {:induction false} AsleepUntil(rings: seq<Ring>, events: seq<Event>, x: nat, k: nat, n: nat, m: nat) returns (i: nat)
    requires SleepsFrom(rings, events, x, k, n) && k < m < |rings| && Ticks(events[k..m]) < AtLeastOne(n)
    ensures AsleepAt(rings[m], x, i, rings[k].now + AtLeastOne(n)) && rings[m].now == rings[k].now + Ticks(events[k..m])
    decreases m
  {
    var p := m - 1;
    TicksMore(events, k, p);
    RunWellFormed(rings, events, p);
    if p == k {
      i := rings[k].current;
      assert events[k..k] == [];
    } else {
      var j := AsleepUntil(rings, events, x, k, n, p);
      i := AsleepStep(rings[p], events[p], rings[m], x, j, rings[k].now + AtLeastOne(n));
    }
  }

  /** The tick that completes the count. */
  lemma {:induction false} WakesAt(rings: seq<Ring>, events: seq<Event>, x: nat, k: nat, n: nat, m: nat, t: nat) returns (i: nat)
    requires SleepsFrom(rings, events, x, k, n) && k < m < |rings| && t == Ticks(events[k..m]) == AtLeastOne(n) && events[m - 1].Tick?
    ensures Runs(rings[m], x) || WaitsAt(rings[m], x, i)
  {
    var p := m - 1;
    assert p > k;
    TicksMore(events, k, p);
    RunWellFormed(rings, events, p);
    var j := AsleepUntil(rings, events, x, k, n, p);
    i := AsleepStep(rings[p], events[p], rings[m], x, j, rings[k].now + AtLeastOne(n));
  }

  /**
   * A task that sleeps for n ticks and is left alone is blocked in every later ring until max(n, 1) ticks have passed,
   * and at the last of these ticks it is ready, if it is not picked at once.
   */
  lemma {:induction false} SleepsExactly(rings: seq<Ring>, events: seq<Event>, x: nat, k: nat, n: nat, m: nat) returns (i: nat)
    requires SleepsFrom(rings, events, x, k, n) && k < m < |rings|
    ensures Ticks(events[k..m]) < AtLeastOne(n) ==> BlockedAt(rings[m], x, i)
    ensures Ticks(events[k..m]) == AtLeastOne(n) && events[m - 1].Tick? ==> Runs(rings[m], x) || WaitsAt(rings[m], x, i)
  {
    var t := Ticks(events[k..m]);
    if t < AtLeastOne(n) {
      i := AsleepUntil(rings, events, x, k, n, m);
    } else if t == AtLeastOne(n) && events[m - 1].Tick? {
      i := WakesAt(rings, events, x, k, n, m, t);
    } else {
      i := 0;
    }
  }

  /** A run with enough ticks has one that completes the count. */
  lemma {:induction false} TickNumber(events: seq<Event>, k: nat, n: nat) returns (m: nat)
    requires k < |events| && n > 0 && Ticks(events[k..]) >= n
    ensures k < m <= |events| && Ticks(events[k..m]) == n && events[m - 1].Tick?
  {
    m := k;
    assert events[k..k] == [];
    assert events[k..|events|] == events[k..];
    while Ticks(events[k..m]) < n
      invariant k <= m <= |events| && Ticks(events[k..m]) <= n
      invariant Ticks(events[k..m]) == n ==> m > k && events[m - 1].Tick?
      decreases |events| - m
    {
      TicksMore(events, k, m);
      m := m + 1;
    }
  }

  /** No starvation from ring m on. */
  lemma {:induction false} WaiterRuns(rings: seq<Ring>, events: seq<Event>, x: nat, m: nat, i: nat)
    requires IsRun(rings, events) && WellFormed(rings[0]) && m < |rings| && x != 0 && WaitsAt(rings[m], x, i)
    requires SparedThroughout(rings, events, x)
    requires Ticks(events[m..]) >= 5 * 1024 + 1 + 7 * (|rings[|rings| - 1].tasks| - 1)
    ensures exists q :: m < q < |rings| && Runs(rings[q], x)
  {
    var rest, more := rings[m..], events[m..];
    RunWellFormed(rings, events, m);
    SuffixIsRun(rings, events, m);
    assert SparedThroughout(rest, more, x) by {
      forall q, j: nat | 0 <= q < |more| && WaitsAt(rest[q], x, j) ensures Spares(rest[q], more[q], j) {
        assert WaitsAt(rings[m + q], x, j);
      }
    }
    NoStarvation(rest, more, x, i);
    var q :| 0 < q < |rest| && Runs(rest[q], x);
    assert Runs(rings[m + q], x);
  }

  /** Sleep ends: within max(n, 1) ticks and those that a ready task may have to wait, the sleeper runs. */
  lemma {:induction false} SleeperRuns(rings: seq<Ring>, events: seq<Event>, x: nat, k: nat, n: nat)
    requires SleepsFrom(rings, events, x, k, n) && SparedThroughout(rings, events, x)
    requires var others := |rings[|rings| - 1].tasks| - 2;
             Ticks(events[k..]) >= AtLeastOne(n) + 5 * 1024 + 1 + 7 * (others + 1)
    ensures exists m :: k < m < |rings| && Runs(rings[m], x)
  {
    RunGrows(rings, events, k);
    var m := TickNumber(events, k, AtLeastOne(n));
    var i := WakesAt(rings, events, x, k, n, m, AtLeastOne(n));
    if !Runs(rings[m], x) {
      TicksSplit(events, k, m);
      WaiterRuns(rings, events, x, m, i);
    }
  }

  /** A ring in which a task other than the bootstrap task sleeps has two tasks, then and later. */
  lemma {:induction false} RunGrows(rings: seq<Ring>, events: seq<Event>, k: nat)
    requires IsRun(rings, events) && WellFormed(rings[0]) && k < |rings|
    requires rings[k].tasks[rings[k].current].id != 0
    ensures |rings[|rings| - 1].tasks| >= 2
  {
    RunWellFormed(rings, events, k);
    SuffixIsRun(rings, events, k);
    RingGrows(rings[k..], events[k..]);
  }

  // ---------------------------------------------------------------------------------------
  // Block, wake, stop and exit
  // ---------------------------------------------------------------------------------------

  /** A task that blocks without a time is blocked in every later ring, unless somebody else ends that. */
  lemma {:induction false} BlockedUntilWoken(rings: seq<Ring>, events: seq<Event>, x: nat, k: nat, m: nat) returns (i: nat)
    requires IsRun(rings, events) && WellFormed(rings[0]) && k < |events| && events[k] == Event.BlockCurrent
    requires x != 0 && rings[k].tasks[rings[k].current].id == x && LeftAsleep(rings, events, x, k) && k < m < |rings|
    ensures AsleepAt(rings[m], x, i, 0)
    decreases m
  {
    var p := m - 1;
    RunWellFormed(rings, events, p);
    if p == k {
      i := rings[k].current;
    } else {
      var j := BlockedUntilWoken(rings, events, x, k, p);
      i := Moved(rings[p], events[p], j);
      if events[p].Tick? {
        TickPassesOver(rings[p], rings[m], j);
      } else {
        EventPassesOver(rings[p], events[p], rings[m], x, j);
      }
    }
  }

  /** What the calls on a task make of it. */
  lemma {:induction false} CallsOnTasks(r: Ring, r': Ring, x: nat, i: nat)
    requires WellFormed(r) && i < |r.tasks| && r.tasks[i].id == x
    ensures BlockedAt(r, x, i) && Step(r, Event.Wake(i), r') ==> WaitsAt(r', x, i)
    ensures !BlockedAt(r, x, i) && Step(r, Event.Wake(i), r') ==> r' == r
    ensures x != 0 && Step(r, Event.Stop(i), r') ==> EndedAt(r', x, i)
    ensures r.current == i && Step(r, Event.ExitCurrent, r') ==> EndedAt(r', x, i)
    ensures x == 0 && (Step(r, Event.Stop(i), r') || (r.current == i && exists n :: Step(r, Event.Sleep(n), r'))) ==> r' == r
  {
  }

  /** While x has ended, it does not itself call for sleep or for a block. */
  ghost predicate Silent(rings: seq<Ring>, events: seq<Event>, x: nat) {
    forall m, i: nat :: 0 <= m < |events| && m < |rings| && EndedAt(rings[m], x, i) && rings[m].current == i ==>
      !events[m].Sleep? && !events[m].BlockCurrent?
  }

  /** A task that has ended never runs again. */
  lemma {:induction false} EndedForGood(rings: seq<Ring>, events: seq<Event>, x: nat, k: nat, i: nat, m: nat) returns (j: nat)
    requires IsRun(rings, events) && WellFormed(rings[0]) && k <= m < |rings| && x != 0 && EndedAt(rings[k], x, i) && Silent(rings, events, x)
    ensures EndedAt(rings[m], x, j) && !Runs(rings[m], x)
    decreases m
  {
    RunWellFormed(rings, events, m);
    if m == k {
      j := i;
    } else {
      var p := m - 1;
      var q := EndedForGood(rings, events, x, k, i, p);
      RunWellFormed(rings, events, p);
      j := Moved(rings[p], events[p], q);
      if events[p].Tick? {
        TickPassesOver(rings[p], rings[m], q);
      }
    }
  }

  // ---------------------------------------------------------------------------------------
  // Creation, choice and time slices
  // ---------------------------------------------------------------------------------------

  /** A new task is ready right after the current one, its priority within 0 to 5 and its slice two ticks and one more per level. */
  lemma {:induction false} CreatedWaits(r: Ring, r': Ring, priority: int, id: nat)
    requires WellFormed(r) && Step(r, Event.Create(priority, id), r')
    ensures WaitsAt(r', id, r.current + 1) && r'.current == r.current
    ensures var t := r'.tasks[r.current + 1];
            && t.priority == (if priority < 0 then 0 else if priority > 5 then 5 else priority)
            && t.baseTimeslice == t.remaining == 2 + t.priority && t.wait == 0 && t.runtime == 0
    ensures |r'.tasks| == |r.tasks| + 1 && r'.tasks[..r.current + 1] == r.tasks[..r.current + 1] && r'.tasks[r.current + 2..] == r.tasks[r.current + 1..]
  {
  }

  /** Every level of priority is worth 1024 ticks of waiting: the picked task has waited that much more than any ready one above it. */
  lemma {:induction false} PriorityOutweighs(r: Ring, r': Ring, i: nat)
    requires WellFormed(r) && Picked(r, r') && i < |r.tasks| && Eligible(Preempted(r)[i])
    ensures var p := Preempted(r)[r'.current];
            && Eligible(p) && Runs(r', p.id)
            && p.wait >= r.tasks[i].wait + 1024 * (r.tasks[i].priority - p.priority)
            && (i < r'.current ==> p.wait > r.tasks[i].wait + 1024 * (r.tasks[i].priority - p.priority))
  {
    var ts := Preempted(r);
    assert Score(ts[i]) <= Score(ts[r'.current]);
    assert i < r'.current ==> Score(ts[i]) < Score(ts[r'.current]);
  }

  /** With nobody ready, the bootstrap task runs. */
  lemma {:induction false} IdleRunsBootstrap(r: Ring, r': Ring)
    requires WellFormed(r) && Picked(r, r') && forall i :: 0 <= i < |r.tasks| ==> !Eligible(Preempted(r)[i])
    ensures r'.current == 0 && Runs(r', 0)
  {
    assert r.tasks[0].id == 0;
  }

  /** In a run x keeps the processor as far as it is up to it and nobody stops it. */
  ghost predicate KeepsOn(rings: seq<Ring>, events: seq<Event>, x: nat) {
    forall m :: 0 <= m < |events| && m < |rings| && Runs(rings[m], x) ==> Spares(rings[m], events[m], rings[m].current) && !events[m].Yield?
  }

  lemma {:induction false} SliceStep(r: Ring, e: Event, r': Ring, x: nat)
    requires WellFormed(r) && Step(r, e, r') && x != 0 && Runs(r, x) && Spares(r, e, r.current) && !e.Yield?
    requires e.Tick? ==> r.tasks[r.current].remaining > 1
    ensures Runs(r', x) && r'.tasks[r'.current].remaining == r.tasks[r.current].remaining - if e.Tick? then 1 else 0
  {
    if e.Tick? {
      var a := Accounted(r);
      assert a.tasks[r.current].remaining == r.tasks[r.current].remaining && a.tasks[r.current].state == Running;
    }
  }

  /** A running task has the processor for as many ticks as are left of its slice, whatever becomes ready meanwhile ... */
  lemma {:induction false} SliceHonoured(rings: seq<Ring>, events: seq<Event>, x: nat)
    requires IsRun(rings, events) && WellFormed(rings[0]) && x != 0 && Runs(rings[0], x) && KeepsOn(rings, events, x)
    requires Ticks(events) < rings[0].tasks[rings[0].current].remaining
    ensures var r := rings[|rings| - 1];
            Runs(r, x) && r.tasks[r.current].remaining == rings[0].tasks[rings[0].current].remaining - Ticks(events)
    decreases |events|
  {
    if events != [] {
      SliceStep(rings[0], events[0], rings[1], x);
      StepKeepsWellFormed(rings[0], events[0], rings[1]);
      SuffixIsRun(rings, events, 1);
      assert KeepsOn(rings[1..], events[1..], x) by {
        forall m | 0 <= m < |events[1..]| && Runs(rings[1..][m], x)
          ensures Spares(rings[1..][m], events[1..][m], rings[1..][m].current) && !events[1..][m].Yield?
        {
          assert Runs(rings[m + 1], x);
        }
      }
      SliceHonoured(rings[1..], events[1..], x);
    }
  }

  /** ... and its last tick is a decision, in which it takes part as a ready task. */
  lemma {:induction false} SliceEnds(r: Ring, r': Ring, x: nat)
    requires WellFormed(r) && Step(r, Tick, r') && x != 0 && Runs(r, x) && r.tasks[r.current].remaining <= 1
    ensures exists b :: WellFormed(b) && Picked(b, r') && Eligible(Preempted(b)[r.current]) && Preempted(b)[r.current].id == x && b.now == r.now + 1
  {
    AccountKeepsWellFormed(r);
    var b := Consumed(Accounted(r));
    assert Accounted(r).tasks[r.current].state == Running;
    assert Picked(b, r');
  }

  // ---------------------------------------------------------------------------------------
  // Run time
  // ---------------------------------------------------------------------------------------

  /** How many ticks found x running. */
  ghost function TicksOf(rings: seq<Ring>, events: seq<Event>, x: nat): nat
    requires |rings| == |events| + 1
    decreases |events|
  {
    if events == [] then 0 else (if events[0].Tick? && Runs(rings[0], x) then 1 else 0) + TicksOf(rings[1..], events[1..], x)
  }

  lemma {:induction false} RuntimeStep(r: Ring, e: Event, r': Ring, i: nat)
    requires WellFormed(r) && Step(r, e, r') && i < |r.tasks|
    ensures var i' := Moved(r, e, i);
            && i' < |r'.tasks| && r'.tasks[i'].id == r.tasks[i].id
            && r'.tasks[i'].runtime == r.tasks[i].runtime + if e.Tick? && Runs(r, r.tasks[i].id) then 1 else 0
  {
    if e.Tick? {
      TickRuntime(r, r', i);
    }
  }

  lemma {:induction false} TickRuntime(r: Ring, r': Ring, i: nat)
    requires WellFormed(r) && Step(r, Tick, r') && i < |r.tasks|
    ensures i < |r'.tasks| && r'.tasks[i].id == r.tasks[i].id
    ensures r'.tasks[i].runtime == r.tasks[i].runtime + if Runs(r, r.tasks[i].id) then 1 else 0
  {
    var a := Accounted(r);
    assert a.tasks[i].id == r.tasks[i].id;
    assert a.tasks[i].runtime == r.tasks[i].runtime + if Runs(r, r.tasks[i].id) then 1 else 0;
    assert Preempted(a)[i].runtime == a.tasks[i].runtime && Preempted(a)[i].id == a.tasks[i].id;
    assert Preempted(Consumed(a))[i].runtime == a.tasks[i].runtime && Preempted(Consumed(a))[i].id == a.tasks[i].id;
  }

  /** The run time of a task is the number of ticks that found it running. */
  lemma {:induction false} RuntimeCounts(rings: seq<Ring>, events: seq<Event>, i: nat) returns (j: nat)
    requires IsRun(rings, events) && WellFormed(rings[0]) && i < |rings[0].tasks|
    ensures var r, x := rings[|rings| - 1], rings[0].tasks[i].id;
            j < |r.tasks| && r.tasks[j].id == x && r.tasks[j].runtime == rings[0].tasks[i].runtime + TicksOf(rings, events, x)
    decreases |events|
  {
    if events == [] {
      j := i;
    } else {
      RuntimeStep(rings[0], events[0], rings[1], i);
      StepKeepsWellFormed(rings[0], events[0], rings[1]);
      SuffixIsRun(rings, events, 1);
      j := RuntimeCounts(rings[1..], events[1..], Moved(rings[0], events[0], i));
    }
  }
}
