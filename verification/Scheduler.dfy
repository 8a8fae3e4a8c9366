/** The K64 task scheduler: a ring of tasks picked by priority and waiting time (k64_sched.c). */
module Scheduler {

  const DEFAULT_TIMESLICE: nat := 2
  const MAX_PRIORITY: nat := 5
  const MAX_TIMESLICE: nat := DEFAULT_TIMESLICE + MAX_PRIORITY
  const PRIORITY_WEIGHT: nat := 1024

  datatype TaskState = Ready | Running | Blocked | Zombie

  datatype Task = Task(
    id: nat, state: TaskState, sleepUntil: nat, priority: nat,
    baseTimeslice: nat, remaining: nat, runtime: nat, wait: nat)

  function Clamp(priority: int): nat {
    if priority < 0 then 0 else if priority > MAX_PRIORITY then MAX_PRIORITY else priority
  }

  function TimesliceFor(priority: int): (slice: nat)
    ensures DEFAULT_TIMESLICE <= slice <= MAX_TIMESLICE
  {
    DEFAULT_TIMESLICE + Clamp(priority)
  }

  function Score(t: Task): nat { t.priority * PRIORITY_WEIGHT + t.wait }

  /** The ring, starting at the bootstrap task; `current` is the running position. */
  datatype Ring = Ring(tasks: seq<Task>, current: nat, now: nat)

  predicate WellFormed(r: Ring) {
    && r.current < |r.tasks|
    && (forall i :: 0 <= i < |r.tasks| ==> (r.tasks[i].id == 0 <==> i == 0))
    && (forall i :: 0 <= i < |r.tasks| ==> r.tasks[i].priority <= MAX_PRIORITY)
    && (forall i :: 0 <= i < |r.tasks| ==> r.tasks[i].baseTimeslice <= MAX_TIMESLICE && r.tasks[i].remaining <= MAX_TIMESLICE)
    && (forall i, j :: 0 <= i < |r.tasks| && 0 <= j < |r.tasks| && r.tasks[i].id == r.tasks[j].id ==> i == j)
  }

  // ---------------------------------------------------------------------------------------
  // One timer tick, as functions of the ring
  // ---------------------------------------------------------------------------------------

  /** What a tick does to one task before the scheduler looks at it. */
  function Account(t: Task, isCurrent: bool, now: nat): Task {
    var t' := if t.state == Blocked && t.sleepUntil != 0 && t.sleepUntil <= now then t.(state := Ready, sleepUntil := 0) else t;
    if isCurrent && t'.state == Running then t'.(runtime := t'.runtime + 1)
    else if t'.state == Ready then t'.(wait := t'.wait + 1)
    else t'
  }

  predicate Eligible(t: Task) { t.id != 0 && t.state == Ready }

  /** The task to run next is a ready one with the greatest score, the first of those in ring order. */
  ghost predicate IsPick(tasks: seq<Task>, p: int) {
    && 0 <= p < |tasks|
    && if exists i :: 0 <= i < |tasks| && Eligible(tasks[i]) then
         && Eligible(tasks[p])
         && (forall i :: 0 <= i < |tasks| && Eligible(tasks[i]) ==> Score(tasks[i]) <= Score(tasks[p]))
         && (forall i :: 0 <= i < p && Eligible(tasks[i]) ==> Score(tasks[i]) < Score(tasks[p]))
       else p == 0
  }

  /** The running task goes back to the queue. */
  function Preempted(r: Ring): seq<Task>
    requires r.current < |r.tasks|
  {
    var c := r.tasks[r.current];
    r.tasks[r.current := if c.state == Running then c.(state := Ready) else c]
  }

  function Dispatched(t: Task): Task {
    t.(state := Running, remaining := t.baseTimeslice, wait := 0)
  }

  ghost predicate Picked(r: Ring, r': Ring)
    requires r.current < |r.tasks|
  {
    && IsPick(Preempted(r), r'.current) && r'.now == r.now
    && r'.tasks == Preempted(r)[r'.current := Dispatched(Preempted(r)[r'.current])]
  }

  function AccountAll(tasks: seq<Task>, current: nat, now: nat): (tasks': seq<Task>)
    ensures |tasks'| == |tasks| && forall i :: 0 <= i < |tasks| ==> tasks'[i] == Account(tasks[i], i == current, now)
  {
    seq(|tasks|, i requires 0 <= i < |tasks| => Account(tasks[i], i == current, now))
  }

  function Accounted(r: Ring): (r': Ring)
    ensures |r'.tasks| == |r.tasks|
  {
    Ring(AccountAll(r.tasks, r.current, r.now + 1), r.current, r.now + 1)
  }

  /** The current task uses up one tick of its slice. */
  function Consumed(r: Ring): Ring
    requires r.current < |r.tasks|
  {
    var c := r.tasks[r.current];
    r.(tasks := r.tasks[r.current := c.(remaining := if c.remaining > 0 then c.remaining - 1 else 0)])
  }

  /** A timer tick outside user mode. */
  ghost predicate Ticked(r: Ring, r': Ring)
    requires r.current < |r.tasks|
  {
    var a := Accounted(r);
    var c := a.tasks[a.current];
    if c.state != Running || c.id == 0 then Picked(a, r')
    else if Consumed(a).tasks[a.current].remaining == 0 then Picked(Consumed(a), r')
    else r' == Consumed(a)
  }

  // ---------------------------------------------------------------------------------------
  // Everything that can happen to the ring
  // ---------------------------------------------------------------------------------------

  datatype Event =
    | Tick
    | Yield
    | Sleep(ticks: nat)
    | BlockCurrent
    | ExitCurrent
    | Wake(i: nat)
    | Stop(i: nat)
    | Create(priority: int, id: nat)

  function NewTask(id: nat, priority: int): Task {
    Task(id, Ready, 0, Clamp(priority), TimesliceFor(priority), TimesliceFor(priority), 0, 0)
  }

  ghost predicate Step(r: Ring, e: Event, r': Ring)
    requires r.current < |r.tasks|
  {
    var c := r.tasks[r.current];
    match e
    case Tick => Ticked(r, r')
    case Yield => r' == r.(tasks := r.tasks[r.current := c.(remaining := 0)])
    case Sleep(n) =>
      r' == if c.id == 0 then r else
            r.(tasks := r.tasks[r.current := c.(sleepUntil := r.now + (if n == 0 then 1 else n), state := Blocked, remaining := 0)])
    case BlockCurrent =>
      r' == if c.id == 0 then r else r.(tasks := r.tasks[r.current := c.(sleepUntil := 0, state := Blocked, remaining := 0)])
    case ExitCurrent => r' == r.(tasks := r.tasks[r.current := c.(state := Zombie)])
    case Wake(i) =>
      i < |r.tasks| &&
      r' == if r.tasks[i].state != Blocked then r else r.(tasks := r.tasks[i := r.tasks[i].(sleepUntil := 0, state := Ready)])
    case Stop(i) =>
      i < |r.tasks| &&
      r' == if r.tasks[i].id == 0 then r else r.(tasks := r.tasks[i := r.tasks[i].(state := Zombie, remaining := 0)])
    case Create(priority, id) =>
      id != 0 && (forall i :: 0 <= i < |r.tasks| ==> r.tasks[i].id != id) &&
      r' == r.(tasks := r.tasks[..r.current + 1] + [NewTask(id, priority)] + r.tasks[r.current + 1..])
  }

  // ---------------------------------------------------------------------------------------
  // Waiting
  // ---------------------------------------------------------------------------------------

  /** Task x sits at position i, ready to run. */
  predicate WaitsAt(r: Ring, x: nat, i: int) {
    0 <= i < |r.tasks| && r.tasks[i].id == x && r.tasks[i].state == Ready
  }

  predicate Runs(r: Ring, x: nat) {
    r.current < |r.tasks| && r.tasks[r.current].id == x && r.tasks[r.current].state == Running
  }

  /** Where an event leaves the task at position i. */
  function Moved(r: Ring, e: Event, i: nat): nat {
    if e.Create? && i > r.current then i + 1 else i
  }

  const PATIENCE: nat := MAX_PRIORITY * PRIORITY_WEIGHT

  /** Task t could still be picked before a task x that has waited for w ticks. */
  predicate Rival(t: Task, x: nat, w: nat) {
    t.id != 0 && t.id != x && PATIENCE + t.wait >= w
  }

  function Rivals(tasks: seq<Task>, x: nat, w: nat): nat {
    if tasks == [] then 0 else (if Rival(tasks[0], x, w) then 1 else 0) + Rivals(tasks[1..], x, w)
  }

  /** Ticks until the next scheduling decision. */
  function Slack(r: Ring): (n: nat)
    requires r.current < |r.tasks|
    ensures n >= 1
  {
    var c := r.tasks[r.current];
    if c.state == Running && c.id != 0 && c.remaining > 0 then c.remaining else 1
  }

  /** An upper bound on the ticks until the task at position i runs, if there are at most n others. */
  function Distance(r: Ring, i: nat, n: nat): nat
    requires r.current < |r.tasks| && i < |r.tasks|
  {
    var w := r.tasks[i].wait;
    if w <= PATIENCE then PATIENCE + 1 - w + MAX_TIMESLICE * (n + 1)
    else Slack(r) + MAX_TIMESLICE * Rivals(r.tasks, r.tasks[i].id, w)
  }

  lemma {:induction false} RivalsJoin(a: seq<Task>, b: seq<Task>, x: nat, w: nat)
    ensures Rivals(a + b, x, w) == Rivals(a, x, w) + Rivals(b, x, w)
  {
    if a == [] {
      assert a + b == b;
    } else {
      RivalsJoin(a[1..], b, x, w);
      assert (a + b)[1..] == a[1..] + b;
    }
  }

  /** Fewer rivals position by position is fewer rivals. */
  lemma {:induction false} FewerRivals(s: seq<Task>, t: seq<Task>, x: nat, w: nat, w': nat)
    requires |s| == |t| && forall i :: 0 <= i < |s| && Rival(t[i], x, w') ==> Rival(s[i], x, w)
    ensures Rivals(t, x, w') <= Rivals(s, x, w)
    ensures (exists p :: 0 <= p < |s| && Rival(s[p], x, w) && !Rival(t[p], x, w')) ==> Rivals(t, x, w') < Rivals(s, x, w)
  {
    if s != [] {
      FewerRivals(s[1..], t[1..], x, w, w');
      if p :| 0 <= p < |s| && Rival(s[p], x, w) && !Rival(t[p], x, w') {
        if p > 0 {
          assert Rival(s[1..][p - 1], x, w) && !Rival(t[1..][p - 1], x, w');
        }
      }
    }
  }

  lemma {:induction false} RivalsBound(tasks: seq<Task>, x: nat, w: nat, i: nat)
    requires i < |tasks| && tasks[i].id == x
    ensures Rivals(tasks, x, w) < |tasks|
  {
    if i > 0 {
      RivalsBound(tasks[1..], x, w, i - 1);
    } else {
      RivalsAtMost(tasks[1..], x, w);
    }
  }

  lemma {:induction false} RivalsAtMost(tasks: seq<Task>, x: nat, w: nat)
    ensures Rivals(tasks, x, w) <= |tasks|
  {
    if tasks != [] {
      RivalsAtMost(tasks[1..], x, w);
    }
  }

  /** In a ring the bootstrap task and x itself are no rivals. */
  lemma {:induction false} RingRivals(r: Ring, x: nat, w: nat, i: nat)
    requires WellFormed(r) && x != 0 && i < |r.tasks| && r.tasks[i].id == x
    ensures i > 0 && Rivals(r.tasks, x, w) <= |r.tasks| - 2
  {
    RivalsBound(r.tasks[1..], x, w, i - 1);
  }

  // ---------------------------------------------------------------------------------------
  // Every event keeps the ring well formed and brings a waiting task closer
  // ---------------------------------------------------------------------------------------

  lemma UpdateKeepsWellFormed(r: Ring, i: nat, t: Task)
    requires WellFormed(r) && i < |r.tasks| && t.id == r.tasks[i].id && t.priority == r.tasks[i].priority
    requires t.baseTimeslice == r.tasks[i].baseTimeslice && t.remaining <= MAX_TIMESLICE
    ensures WellFormed(r.(tasks := r.tasks[i := t]))
  {
  }

  lemma {:induction false} AccountKeepsWellFormed(r: Ring)
    requires WellFormed(r)
    ensures WellFormed(Accounted(r)) && (Accounted(r).tasks[r.current].remaining <= MAX_TIMESLICE ==> WellFormed(Consumed(Accounted(r))))
  {
    var a := Accounted(r);
    assert forall i :: 0 <= i < |r.tasks| ==>
      a.tasks[i].id == r.tasks[i].id && a.tasks[i].priority == r.tasks[i].priority &&
      a.tasks[i].baseTimeslice == r.tasks[i].baseTimeslice && a.tasks[i].remaining == r.tasks[i].remaining;
    var c := a.tasks[a.current];
    UpdateKeepsWellFormed(a, a.current, c.(remaining := if c.remaining > 0 then c.remaining - 1 else 0));
  }

  lemma {:induction false} PickKeepsWellFormed(r: Ring, r': Ring)
    requires WellFormed(r) && Picked(r, r')
    ensures WellFormed(r') && |r'.tasks| == |r.tasks|
  {
    var mid := r.(tasks := Preempted(r));
    UpdateKeepsWellFormed(r, r.current, mid.tasks[r.current]);
    UpdateKeepsWellFormed(mid, r'.current, Dispatched(mid.tasks[r'.current]));
  }

  lemma {:induction false} CreateKeepsWellFormed(r: Ring, r': Ring, priority: int, id: nat)
    requires WellFormed(r) && Step(r, Create(priority, id), r')
    ensures WellFormed(r') && |r'.tasks| == |r.tasks| + 1
  {
    forall i | 0 <= i < |r'.tasks|
      ensures r'.tasks[i] == if i == r.current + 1 then NewTask(id, priority) else r.tasks[Former(r, i)]
    {
    }
    forall i, j | 0 <= i < |r'.tasks| && 0 <= j < |r'.tasks| && r'.tasks[i].id == r'.tasks[j].id ensures i == j {
      assert i != r.current + 1 && j != r.current + 1 ==> Former(r, i) == Former(r, j);
    }
  }

  lemma {:induction false} CreateIsStep(r: Ring, r': Ring, priority: int, id: nat)
    requires WellFormed(r) && id > 0 && IdsBelow(r, id)
    requires r' == r.(tasks := r.tasks[..r.current + 1] + [NewTask(id, priority)] + r.tasks[r.current + 1..])
    ensures Step(r, Create(priority, id), r') && WellFormed(r') && IdsBelow(r', id + 1)
  {
    CreateKeepsWellFormed(r, r', priority, id);
    forall i | 0 <= i < |r'.tasks| ensures r'.tasks[i].id < id + 1 {
      if i != r.current + 1 {
        assert r'.tasks[i] == r.tasks[Former(r, i)];
      }
    }
  }

  /** Where the task at position i was before a task was linked in after the current one. */
  function Former(r: Ring, i: int): int { if i <= r.current then i else i - 1 }

  ghost predicate IdsBelow(r: Ring, n: nat) { forall i :: 0 <= i < |r.tasks| ==> r.tasks[i].id < n }

  lemma {:induction false} TickKeepsIds(r: Ring, r': Ring, n: nat)
    requires WellFormed(r) && Ticked(r, r') && IdsBelow(r, n)
    ensures IdsBelow(r', n)
  {
    assert forall i :: 0 <= i < |r.tasks| ==> Accounted(r).tasks[i].id == r.tasks[i].id;
  }

  lemma {:induction false} StepKeepsWellFormed(r: Ring, e: Event, r': Ring)
    requires WellFormed(r) && Step(r, e, r')
    ensures WellFormed(r') && |r'.tasks| >= |r.tasks|
  {
    match e
    case Tick =>
      AccountKeepsWellFormed(r);
      var a := Accounted(r);
      if a.tasks[a.current].state != Running || a.tasks[a.current].id == 0 {
        PickKeepsWellFormed(a, r');
      } else if r' != Consumed(a) {
        PickKeepsWellFormed(Consumed(a), r');
      }
    case Create(priority, id) => CreateKeepsWellFormed(r, r', priority, id);
    case Wake(i) => UpdateKeepsWellFormed(r, i, r'.tasks[i]);
    case Stop(i) => UpdateKeepsWellFormed(r, i, r'.tasks[i]);
    case Yield => UpdateKeepsWellFormed(r, r.current, r'.tasks[r.current]);
    case Sleep(n) => UpdateKeepsWellFormed(r, r.current, r'.tasks[r.current]);
    case BlockCurrent => UpdateKeepsWellFormed(r, r.current, r'.tasks[r.current]);
    case ExitCurrent => UpdateKeepsWellFormed(r, r.current, r'.tasks[r.current]);
  }

  lemma {:induction false} PickServes(a: Ring, r': Ring, x: nat, i: nat)
    requires WellFormed(a) && Picked(a, r') && x != 0 && WaitsAt(a, x, i)
    ensures Runs(r', x) || WaitsAt(r', x, i)
    ensures !Runs(r', x) ==> r'.current != i && r'.tasks[i].wait == a.tasks[i].wait
    ensures !Runs(r', x) && a.tasks[i].wait > PATIENCE ==> Rivals(r'.tasks, x, a.tasks[i].wait) < Rivals(a.tasks, x, a.tasks[i].wait)
    ensures Slack(r') <= MAX_TIMESLICE
  {
    var ts, p, w := Preempted(a), r'.current, a.tasks[i].wait;
    assert Eligible(ts[i]);
    if p != i && w > PATIENCE {
      assert Score(ts[i]) <= Score(ts[p]);
      assert Rival(a.tasks[p], x, w) && !Rival(r'.tasks[p], x, w);
      FewerRivals(a.tasks, r'.tasks, x, w, w);
    }
  }

  /** Accounting moves a waiting task ahead of everything it competes with. */
  lemma {:induction false} AccountServes(r: Ring, b: Ring, x: nat, i: nat)
    requires WellFormed(r) && x != 0 && WaitsAt(r, x, i)
    requires b == Accounted(r) || (b == Consumed(Accounted(r)) && Accounted(r).tasks[r.current].state == Running)
    ensures WaitsAt(b, x, i) && b.tasks[i].wait == r.tasks[i].wait + 1
    ensures Rivals(b.tasks, x, r.tasks[i].wait + 1) <= Rivals(r.tasks, x, r.tasks[i].wait)
    ensures WellFormed(b) && |b.tasks| == |r.tasks|
  {
    AccountKeepsWellFormed(r);
    AccountAges(r, b);
    FewerRivals(r.tasks, b.tasks, x, r.tasks[i].wait, r.tasks[i].wait + 1);
  }

  lemma {:induction false} AccountAges(r: Ring, b: Ring)
    requires r.current < |r.tasks|
    requires b == Accounted(r) || (b == Consumed(Accounted(r)) && Accounted(r).tasks[r.current].state == Running)
    ensures |b.tasks| == |r.tasks|
    ensures forall j :: 0 <= j < |r.tasks| ==> b.tasks[j].id == r.tasks[j].id && b.tasks[j].wait <= r.tasks[j].wait + 1
    ensures forall j :: 0 <= j < |r.tasks| && r.tasks[j].state == Ready ==> b.tasks[j].state == Ready && b.tasks[j].wait == r.tasks[j].wait + 1
  {
    forall j | 0 <= j < |r.tasks| ensures b.tasks[j].id == r.tasks[j].id && b.tasks[j].wait <= r.tasks[j].wait + 1 {
      assert Accounted(r).tasks[j] == Account(r.tasks[j], j == r.current, r.now + 1);
    }
  }

  /** A tick runs the waiting task or brings its turn closer. */
  lemma {:induction false} TickApproaches(r: Ring, r': Ring, x: nat, i: nat, n: nat)
    requires WellFormed(r) && Ticked(r, r') && x != 0 && WaitsAt(r, x, i) && |r.tasks| <= n + 2
    ensures Runs(r', x) || WaitsAt(r', x, i)
    ensures !Runs(r', x) ==> Distance(r', i, n) < Distance(r, i, n)
  {
    StepKeepsWellFormed(r, Tick, r');
    var a := Accounted(r);
    var c := a.tasks[a.current];
    if c.state != Running || c.id == 0 {
      TickPicks(r, a, r', x, i, n);
    } else if Consumed(a).tasks[a.current].remaining == 0 {
      TickPicks(r, Consumed(a), r', x, i, n);
    } else {
      TickRunsOn(r, r', x, i, n);
    }
  }

  /** The running task goes on: its slice, and with it the wait for the next decision, gets shorter. */
  lemma {:induction false} TickRunsOn(r: Ring, r': Ring, x: nat, i: nat, n: nat)
    requires WellFormed(r) && x != 0 && WaitsAt(r, x, i) && |r.tasks| <= n + 2 && r' == Consumed(Accounted(r))
    requires Accounted(r).tasks[r.current].state == Running && Accounted(r).tasks[r.current].id != 0 && r'.tasks[r.current].remaining != 0
    ensures WaitsAt(r', x, i) && Distance(r', i, n) < Distance(r, i, n)
  {
    AccountServes(r, r', x, i);
    RingRivals(r', x, r'.tasks[i].wait, i);
    SlackShrinks(r);
  }

  lemma {:induction false} SlackShrinks(r: Ring)
    requires r.current < |r.tasks| && r.tasks[r.current].remaining <= MAX_TIMESLICE
    requires Accounted(r).tasks[r.current].state == Running && Accounted(r).tasks[r.current].id != 0
    requires Consumed(Accounted(r)).tasks[r.current].remaining != 0
    ensures Slack(Consumed(Accounted(r))) < Slack(r) && Slack(Consumed(Accounted(r))) <= MAX_TIMESLICE
  {
    assert r.tasks[r.current].state == Running && r.tasks[r.current].id != 0;
  }

  lemma {:induction false} TickPicks(r: Ring, b: Ring, r': Ring, x: nat, i: nat, n: nat)
    requires WellFormed(r) && x != 0 && WaitsAt(r, x, i) && |r.tasks| <= n + 2
    requires b == Accounted(r) || (b == Consumed(Accounted(r)) && Accounted(r).tasks[r.current].state == Running)
    requires Picked(b, r') && WellFormed(r')
    ensures Runs(r', x) || WaitsAt(r', x, i)
    ensures !Runs(r', x) ==> Distance(r', i, n) < Distance(r, i, n)
  {
    AccountServes(r, b, x, i);
    PickServes(b, r', x, i);
    if !Runs(r', x) {
      RingRivals(r', x, r'.tasks[i].wait, i);
      Nearer(r, r', i, n);
    }
  }

  /** One more tick of waiting, and fewer rivals once it has waited long enough: the turn is nearer. */
  lemma {:induction false} Nearer(r: Ring, r': Ring, i: nat, n: nat)
    requires r.current < |r.tasks| && r'.current < |r'.tasks| && i < |r.tasks| && i < |r'.tasks|
    requires r'.tasks[i].id == r.tasks[i].id && r'.tasks[i].wait == r.tasks[i].wait + 1 && Slack(r') <= MAX_TIMESLICE
    requires Rivals(r'.tasks, r'.tasks[i].id, r'.tasks[i].wait) <= n
    requires r.tasks[i].wait >= PATIENCE ==>
               r.tasks[i].wait == PATIENCE || Rivals(r'.tasks, r'.tasks[i].id, r'.tasks[i].wait) < Rivals(r.tasks, r.tasks[i].id, r.tasks[i].wait)
    ensures Distance(r', i, n) < Distance(r, i, n)
  {
  }

  /** The event neither stops the task at position i nor puts it to sleep. */
  predicate Spares(r: Ring, e: Event, i: nat) {
    match e
    case Stop(j) => j != i
    case Sleep(_) => r.current != i
    case BlockCurrent => r.current != i
    case ExitCurrent => r.current != i
    case _ => true
  }

  lemma {:induction false} CreateKeepsRivals(r: Ring, r': Ring, priority: int, id: nat, x: nat, w: nat)
    requires r.current < |r.tasks| && Step(r, Create(priority, id), r') && w > PATIENCE
    ensures Rivals(r'.tasks, x, w) == Rivals(r.tasks, x, w)
  {
    var a, t, b := r.tasks[..r.current + 1], NewTask(id, priority), r.tasks[r.current + 1..];
    assert r.tasks == a + b;
    RivalsJoin(a, b, x, w);
    RivalsJoin(a + [t], b, x, w);
    RivalsJoin(a, [t], x, w);
    assert !Rival(t, x, w) && [t][1..] == [];
  }

  lemma {:induction false} UpdateKeepsDistance(r: Ring, j: nat, t: Task, x: nat, i: nat, n: nat)
    requires WellFormed(r) && WaitsAt(r, x, i) && j < |r.tasks| && t.id == r.tasks[j].id && t.wait == r.tasks[j].wait
    requires j == r.current ==> t.remaining <= r.tasks[j].remaining && (t.state == Running ==> r.tasks[j].state == Running)
    ensures var r' := r.(tasks := r.tasks[j := t]); Distance(r', i, n) <= Distance(r, i, n)
  {
    FewerRivals(r.tasks, r.tasks[j := t], x, r.tasks[i].wait, r.tasks[i].wait);
  }

  lemma {:induction false} CreateKeepsDistance(r: Ring, r': Ring, priority: int, id: nat, x: nat, i: nat, n: nat)
    requires WellFormed(r) && Step(r, Create(priority, id), r') && x != 0 && WaitsAt(r, x, i)
    ensures var i' := Moved(r, Create(priority, id), i);
            WaitsAt(r', x, i') && r'.current < |r'.tasks| && Distance(r', i', n) <= Distance(r, i, n)
  {
    if r.tasks[i].wait > PATIENCE {
      CreateKeepsRivals(r, r', priority, id, x, r.tasks[i].wait);
    }
  }

  /** Between ticks a waiting task that is left alone loses no ground. */
  lemma {:induction false} OthersKeepDistance(r: Ring, e: Event, r': Ring, x: nat, i: nat, n: nat)
    requires WellFormed(r) && Step(r, e, r') && !e.Tick? && x != 0 && WaitsAt(r, x, i) && Spares(r, e, i)
    ensures WaitsAt(r', x, Moved(r, e, i)) && r'.current < |r'.tasks|
    ensures Distance(r', Moved(r, e, i), n) <= Distance(r, i, n)
  {
    match e
    case Create(priority, id) => CreateKeepsDistance(r, r', priority, id, x, i, n);
    case Wake(j) => UpdateKeepsDistance(r, j, r'.tasks[j], x, i, n);
    case Stop(j) => UpdateKeepsDistance(r, j, r'.tasks[j], x, i, n);
    case Yield => UpdateKeepsDistance(r, r.current, r'.tasks[r.current], x, i, n);
    case Sleep(_) => UpdateKeepsDistance(r, r.current, r'.tasks[r.current], x, i, n);
    case BlockCurrent => UpdateKeepsDistance(r, r.current, r'.tasks[r.current], x, i, n);
    case ExitCurrent => UpdateKeepsDistance(r, r.current, r'.tasks[r.current], x, i, n);
  }

  // ---------------------------------------------------------------------------------------
  // No starvation
  // ---------------------------------------------------------------------------------------

  ghost predicate IsRun(rings: seq<Ring>, events: seq<Event>) {
    && |rings| == |events| + 1
    && (forall k :: 0 <= k < |rings| ==> rings[k].current < |rings[k].tasks|)
    && (forall k :: 0 <= k < |events| ==> Step(rings[k], events[k], rings[k + 1]))
  }

  function Ticks(events: seq<Event>): nat {
    if events == [] then 0 else (if events[0].Tick? then 1 else 0) + Ticks(events[1..])
  }

  /** Throughout the run, whenever x waits it is left alone. */
  ghost predicate SparedThroughout(rings: seq<Ring>, events: seq<Event>, x: nat) {
    forall k, i: nat :: 0 <= k < |events| && k < |rings| && WaitsAt(rings[k], x, i) ==> Spares(rings[k], events[k], i)
  }

  lemma {:induction false} RingGrows(rings: seq<Ring>, events: seq<Event>)
    requires IsRun(rings, events) && WellFormed(rings[0])
    ensures |rings[0].tasks| <= |rings[|rings| - 1].tasks|
    decreases |events|
  {
    if events != [] {
      StepKeepsWellFormed(rings[0], events[0], rings[1]);
      RingGrows(rings[1..], events[1..]);
    }
  }

  /** A waiting task runs before as many ticks have passed as its distance. */
  lemma {:induction false} RunsWithinDistance(rings: seq<Ring>, events: seq<Event>, x: nat, i: nat, n: nat)
    requires IsRun(rings, events) && WellFormed(rings[0]) && x != 0 && WaitsAt(rings[0], x, i)
    requires SparedThroughout(rings, events, x) && |rings[|rings| - 1].tasks| <= n + 2
    requires Ticks(events) >= Distance(rings[0], i, n)
    ensures exists k :: 0 < k < |rings| && Runs(rings[k], x)
    decreases |events|
  {
    var r, e, r' := rings[0], events[0], rings[1];
    StepKeepsWellFormed(r, e, r');
    RingGrows(rings, events);
    if e.Tick? {
      TickApproaches(r, r', x, i, n);
    } else {
      OthersKeepDistance(r, e, r', x, i, n);
    }
    if !Runs(r', x) {
      assert SparedThroughout(rings[1..], events[1..], x) by {
        forall k, j: nat | 0 <= k < |events[1..]| && WaitsAt(rings[1..][k], x, j) ensures Spares(rings[1..][k], events[1..][k], j) {
          assert WaitsAt(rings[k + 1], x, j);
        }
      }
      RunsWithinDistance(rings[1..], events[1..], x, Moved(r, e, i), n);
      var k :| 0 < k < |rings[1..]| && Runs(rings[1..][k], x);
      assert Runs(rings[k + 1], x);
    }
  }

  /**
   * No starvation: in every run, a ready task other than the bootstrap task that is left alone
   * runs within 5 * 1024 + 1 + 7 * (n + 1) ticks, n being the number of other such tasks.
   */
  lemma {:induction false} NoStarvation(rings: seq<Ring>, events: seq<Event>, x: nat, i: nat)
    requires IsRun(rings, events) && WellFormed(rings[0]) && x != 0 && WaitsAt(rings[0], x, i)
    requires SparedThroughout(rings, events, x)
    requires var n := |rings[|rings| - 1].tasks| - 2;
             Ticks(events) >= MAX_PRIORITY * 1024 + 1 + 7 * (n + 1)
    ensures exists k :: 0 < k < |rings| && Runs(rings[k], x)
  {
    RingGrows(rings, events);
    var n := |rings[|rings| - 1].tasks| - 2;
    RingRivals(rings[0], x, rings[0].tasks[i].wait, i);
    RunsWithinDistance(rings, events, x, i, n);
  }

  // ---------------------------------------------------------------------------------------
  // The scheduler object
  // ---------------------------------------------------------------------------------------

  class TaskScheduler {
    var tasks: array<Task>  // the ring in `next` order from task_list
    var current: nat
    var ticks: nat
    var nextId: nat

    ghost function Abs(): Ring
      reads this, tasks
    {
      Ring(tasks[..], current, ticks)
    }

    ghost predicate Valid()
      reads this, tasks
    {
      WellFormed(Abs()) && nextId > 0 && IdsBelow(Abs(), nextId)
    }

    constructor ()
      ensures Valid() && fresh(tasks) && tasks.Length == 1 && current == 0
    {
      tasks := new Task[1](_ => Task(0, Running, 0, 0, DEFAULT_TIMESLICE, DEFAULT_TIMESLICE, 0, 0));
      current, ticks, nextId := 0, 0, 1;
    }

    method OnTickAccounting()
      modifies tasks
      ensures tasks[..] == AccountAll(old(tasks[..]), current, ticks)
    {
      ghost var ts := tasks[..];
      for i := 0 to tasks.Length
        invariant forall k :: 0 <= k < i ==> tasks[k] == Account(ts[k], k == current, ticks)
        invariant forall k :: i <= k < tasks.Length ==> tasks[k] == ts[k]
      {
        var t := tasks[i];
        if t.state == Blocked && t.sleepUntil != 0 && t.sleepUntil <= ticks {
          t := t.(state := Ready, sleepUntil := 0);
        }
        if i == current && t.state == Running {
          t := t.(runtime := t.runtime + 1);
        } else if t.state == Ready {
          t := t.(wait := t.wait + 1);
        }
        tasks[i] := t;
      }
    }

    /** Chooses the task to run and makes it current. */
    method PickNext()
      requires WellFormed(Abs())
      modifies this`current, tasks
      ensures WellFormed(Abs()) && Picked(old(Abs()), Abs())
    {
      ghost var before := Abs();
      if tasks[current].state == Running {
        tasks[current] := tasks[current].(state := Ready);
      }
      ghost var ts := tasks[..];
      assert ts == Preempted(before);
      var selected, score := -1, 0;
      for i := 0 to tasks.Length
        invariant tasks[..] == ts && -1 <= selected < i
        invariant selected < 0 ==> forall k :: 0 <= k < i ==> !Eligible(ts[k])
        invariant selected >= 0 ==> Eligible(ts[selected]) && score == Score(ts[selected])
        invariant selected >= 0 ==> forall k :: 0 <= k < i && Eligible(ts[k]) ==> Score(ts[k]) <= score
        invariant selected >= 0 ==> forall k :: 0 <= k < selected && Eligible(ts[k]) ==> Score(ts[k]) < score
      {
        if tasks[i].id != 0 && tasks[i].state == Ready {
          var s := tasks[i].priority * PRIORITY_WEIGHT + tasks[i].wait;
          if selected < 0 || s > score {
            selected, score := i, s;
          }
        }
      }
      if selected < 0 {
        selected := 0;
      }
      current := selected;
      tasks[current] := tasks[current].(state := Running, remaining := tasks[current].baseTimeslice, wait := 0);
      assert Abs().tasks == ts[current := Dispatched(ts[current])];
      PickKeepsWellFormed(before, Abs());
    }

    /** A timer interrupt taken outside user mode. */
    method HandleTimer()
      requires Valid()
      modifies this, tasks
      ensures tasks == old(tasks) && nextId == old(nextId)
      ensures Valid() && Step(old(Abs()), Tick, Abs())
    {
      ghost var r := Abs();
      AccountKeepsWellFormed(r);
      ticks := ticks + 1;
      OnTickAccounting();
      assert Abs() == Accounted(r);
      if tasks[current].state != Running {
        PickNext();
      } else if tasks[current].id == 0 {
        PickNext();
      } else {
        if tasks[current].remaining > 0 {
          tasks[current] := tasks[current].(remaining := tasks[current].remaining - 1);
        }
        assert Abs() == Consumed(Accounted(r));
        if tasks[current].remaining == 0 {
          PickNext();
        }
      }
      TickKeepsIds(r, Abs(), nextId);
    }

    method Yield()
      requires Valid()
      modifies tasks
      ensures Valid() && Step(old(Abs()), Event.Yield, Abs())
    {
      ghost var r := Abs();
      tasks[current] := tasks[current].(remaining := 0);
      assert Abs().tasks == r.tasks[current := tasks[current]];
      StepKeepsWellFormed(r, Event.Yield, Abs());
    }

    method Sleep(n: nat)
      requires Valid()
      modifies tasks
      ensures Valid() && Step(old(Abs()), Event.Sleep(n), Abs())
    {
      if tasks[current].id == 0 {
        return;
      }
      ghost var r := Abs();
      tasks[current] := tasks[current].(sleepUntil := ticks + (if n == 0 then 1 else n), state := Blocked, remaining := 0);
      assert Abs().tasks == r.tasks[current := tasks[current]];
      StepKeepsWellFormed(r, Event.Sleep(n), Abs());
    }

    method BlockCurrent()
      requires Valid()
      modifies tasks
      ensures Valid() && Step(old(Abs()), Event.BlockCurrent, Abs())
    {
      if tasks[current].id == 0 {
        return;
      }
      ghost var r := Abs();
      tasks[current] := tasks[current].(sleepUntil := 0, state := Blocked, remaining := 0);
      assert Abs().tasks == r.tasks[current := tasks[current]];
      StepKeepsWellFormed(r, Event.BlockCurrent, Abs());
    }

    method Wake(i: nat)
      requires Valid() && i < tasks.Length
      modifies tasks
      ensures Valid() && Step(old(Abs()), Event.Wake(i), Abs())
    {
      if tasks[i].state != Blocked {
        return;
      }
      ghost var r := Abs();
      tasks[i] := tasks[i].(sleepUntil := 0, state := Ready);
      assert Abs().tasks == r.tasks[i := tasks[i]];
      StepKeepsWellFormed(r, Event.Wake(i), Abs());
    }

    /** The current task ends; it keeps what is left of its slice, and even the bootstrap task is not spared. */
    method ExitCurrent()
      requires Valid()
      modifies tasks
      ensures Valid() && Step(old(Abs()), Event.ExitCurrent, Abs())
    {
      ghost var r := Abs();
      tasks[current] := tasks[current].(state := Zombie);
      assert Abs().tasks == r.tasks[current := tasks[current]];
      StepKeepsWellFormed(r, Event.ExitCurrent, Abs());
    }

    method Stop(i: nat)
      requires Valid() && i < tasks.Length
      modifies tasks
      ensures Valid() && Step(old(Abs()), Event.Stop(i), Abs())
    {
      if tasks[i].id == 0 {
        return;
      }
      ghost var r := Abs();
      tasks[i] := tasks[i].(state := Zombie, remaining := 0);
      assert Abs().tasks == r.tasks[i := tasks[i]];
      StepKeepsWellFormed(r, Event.Stop(i), Abs());
    }

    /**
     * Links a new task into the ring after the current one.  `frame` and `stack` say whether memory for the task and
     * for its stack was found; a task without a stack uses up its id and goes away again.
     */
    method Create(priority: int, frame: bool, stack: bool) returns (ok: bool)
      requires Valid()
      modifies this
      ensures Valid() && ok == (frame && stack) && nextId == old(nextId) + if frame then 1 else 0
      ensures if ok then fresh(tasks) && Step(old(Abs()), Event.Create(priority, old(nextId)), Abs()) else tasks == old(tasks) && Abs() == old(Abs())
    {
      if !frame {
        return false;
      }
      var id := nextId;
      nextId := nextId + 1;
      if !stack {
        return false;
      }
      Link(NewTask(id, priority));
      CreateIsStep(old(Abs()), Abs(), priority, id);
      ok := true;
    }

    method Link(t: Task)
      requires current < tasks.Length
      modifies this`tasks
      ensures fresh(tasks) && Abs() == old(Abs()).(tasks := old(tasks[..current + 1]) + [t] + old(tasks[current + 1..]))
    {
      var ring := tasks[..current + 1] + [t] + tasks[current + 1..];
      var linked := new Task[|ring|](i requires 0 <= i < |ring| => ring[i]);
      assert linked[..] == ring;
      tasks := linked;
    }
  }
}
