/** Exit codes from the end of a process to its parent, told by the events of a run (k64_usermode.c:430-477, 665-706, 966-1036). */
module Exits {
  import opened Blocks
  import opened Scanning
  import opened Processes

  // ---------------------------------------------------------------------------------------
  // What an event says about a process, without looking at what the event does
  // ---------------------------------------------------------------------------------------

  /** The running process asks for a child and is given this pid, or a program is started from outside. */
  ghost predicate SpawnsBy(s: State, e: Event, pid: nat, parent: nat) {
    || (e.Spawn? && s.stack != [] && Top(s).pid == parent && Step(s, e).1 == pid)
    || (e.Nested? && Step(s, e).1 == 0 && pid == s.nextPid && parent == 0)
  }

  /** The running process calls wait for pid. */
  ghost predicate WaitsBy(s: State, e: Event, pid: nat, to: nat) {
    e.Wait? && e.target == pid && s.stack != [] && Top(s).pid == to
  }

  /** The queued child that an event runs: of a yield the first of the caller, of a poll the first of all, of a wait the one named. */
  ghost predicate Chosen(s: State, e: Event, pid: nat) {
    match e
    case Yield(_) => s.stack != [] && FirstChild(s, pid, Top(s).pid)
    case Poll(_) => s.stack == [] && FirstQueued(s, pid)
    case Wait(target, nohang, _) =>
      && target == pid && !nohang && s.stack != [] && pid in s.past.created && s.past.created[pid] == Top(s).pid && InQueue(s, pid)
    case _ => false
  }

  ghost predicate FirstChild(s: State, pid: nat, parent: nat) {
    exists k :: 0 <= k < |s.spawn| && s.spawn[k] == Some(Queued(pid, parent)) && NoneBefore(s, k, parent)
  }

  ghost predicate NoneBefore(s: State, k: nat, parent: nat)
    requires k <= |s.spawn|
  {
    forall j :: 0 <= j < k && s.spawn[j].Some? ==> s.spawn[j].value.parent != parent
  }

  ghost predicate FirstQueued(s: State, pid: nat) {
    exists k :: 0 <= k < |s.spawn| && s.spawn[k].Some? && s.spawn[k].value.pid == pid && forall j :: 0 <= j < k ==> s.spawn[j].None?
  }

  function LoadOf(e: Event): Load
    requires e.Yield? || e.Poll? || e.Wait?
  {
    match e
    case Yield(load) => load
    case Poll(load) => load
    case Wait(_, _, load) => load
  }

  /** A process ends with a code: it exits while it runs, or it was to run and did not load. */
  ghost predicate EndsBy(s: State, e: Event, pid: nat, status: Status, code: int) {
    || (e == Event.Exit(status, code) && s.stack != [] && Top(s).pid == pid)
    || (Chosen(s, e, pid) && LoadOf(e) == Fails(code) && status == Faulted)
  }

  // ---------------------------------------------------------------------------------------
  // One step
  // ---------------------------------------------------------------------------------------

  /** The queue entry of a child that could run. */
  ghost predicate EntryOf(s: State, pid: nat, k: nat) {
    && k < |s.spawn| && s.spawn[k].Some? && s.spawn[k].value.pid == pid && !OnStack(s, pid)
    && QueuedGood(s, s.spawn[k].value) && pid !in s.past.exits
  }

  lemma {:induction false} YieldEntry(s: State, load: Load, pid: nat) returns (k: nat)
    requires Inv(s) && s.stack != [] && FirstChild(s, pid, Top(s).pid)
    ensures EntryOf(s, pid, k) && YieldStep(s, load).0 == EnterStep(s, pid, s.spawn[k].value.parent, false, load).0
  {
    k :| 0 <= k < |s.spawn| && s.spawn[k] == Some(Queued(pid, Top(s).pid)) && NoneBefore(s, k, Top(s).pid);
    var j := First(s.spawn, IsChildOf(Top(s).pid), 0);
    assert IsChildOf(Top(s).pid)(s.spawn[k]);
    assert QueuedGood(s, s.spawn[k].value) && RecordGood(s, pid);
    ChildrenOfTopWait(s, pid);
  }

  lemma {:induction false} PollEntry(s: State, load: Load, pid: nat) returns (k: nat)
    requires Inv(s) && s.stack == [] && FirstQueued(s, pid)
    ensures EntryOf(s, pid, k) && PollStep(s, load).0 == EnterStep(s, pid, s.spawn[k].value.parent, false, load).0
  {
    k :| 0 <= k < |s.spawn| && s.spawn[k].Some? && s.spawn[k].value.pid == pid && forall j :: 0 <= j < k ==> s.spawn[j].None?;
    var j := First(s.spawn, IsAny(), 0);
    assert IsAny()(s.spawn[k]);
    assert QueuedGood(s, s.spawn[k].value) && RecordGood(s, pid);
  }

  lemma {:induction false} WaitEntry(s: State, load: Load, pid: nat) returns (k: nat)
    requires Inv(s) && Chosen(s, Event.Wait(pid, false, load), pid)
    ensures EntryOf(s, pid, k) && s.spawn[k].value.parent == Top(s).pid
    ensures WaitStep(s, pid, false, load).0 == EnterStep(s, pid, s.spawn[k].value.parent, true, load).0
  {
    k :| 0 <= k < |s.spawn| && s.spawn[k].Some? && s.spawn[k].value.pid == pid;
    assert QueuedGood(s, s.spawn[k].value) && RecordGood(s, pid) && CreatedGood(s, pid);
    ChildrenOfTopWait(s, pid);
  }

  lemma {:induction false} ChosenEntry(s: State, e: Event, pid: nat) returns (k: nat)
    requires Inv(s) && Enabled(s, e) && Chosen(s, e, pid)
    ensures EntryOf(s, pid, k) && (e.Wait? ==> s.stack != [] && s.spawn[k].value.parent == Top(s).pid)
    ensures Step(s, e).0 == EnterStep(s, pid, s.spawn[k].value.parent, e.Wait?, LoadOf(e)).0
  {
    match e
    case Yield(load) => k := YieldEntry(s, load, pid);
    case Poll(load) => k := PollEntry(s, load, pid);
    case Wait(_, _, load) => k := WaitEntry(s, load, pid);
  }

  /** The chosen child runs on top of the stack ... */
  lemma {:induction false} ChosenRuns(s: State, e: Event, pid: nat)
    requires Inv(s) && Enabled(s, e) && Chosen(s, e, pid) && LoadOf(e) == Runs
    ensures Step(s, e).0.stack == s.stack + [Frame(pid, true, e.Wait?, false)] && Step(s, e).0.past.delivered == s.past.delivered
  {
    var k := ChosenEntry(s, e, pid);
    FoundEntry(s, k);
  }

  /** The new state holds this end: noted, out of the queue, and handed over on the spot exactly to one who waits. */
  ghost predicate EndNoted(s: State, s': State, pid: nat, status: Status, code: int, to: Option<nat>) {
    && pid !in s.past.exits && s'.past.exits == s.past.exits[pid := code] && !InQueue(s', pid) && !OnStack(s', pid)
    && pid in s.past.created && s'.past.created == s.past.created
    && (forall p :: p in s'.table && p != pid ==> p in s.table && s'.table[p] == s.table[p])
    && (forall p :: p in s.table && p != pid ==> p in s'.table)
    && match to
       case Some(w) =>
         w == s.past.created[pid] && pid !in s'.table && s'.past.delivered == s.past.delivered + [Delivery(pid, w, code)]
       case None =>
         && s'.past.delivered == s.past.delivered
         && (pid in s'.table ==> s'.table[pid] == Record(s.past.created[pid], status, code))
         && (s.past.created[pid] != 0 ==> pid in s'.table)
  }

  /** ... or ends on the spot, and a wait for it is over with the code of the failed load. */
  lemma {:induction false} FailedLoadIsNoted(s: State, e: Event, pid: nat, code: int)
    requires Inv(s) && Enabled(s, e) && Chosen(s, e, pid) && LoadOf(e) == Fails(code)
    ensures EndNoted(s, Step(s, e).0, pid, Faulted, code, if e.Wait? then Some(Top(s).pid) else None)
  {
    var k := ChosenEntry(s, e, pid);
    FoundEntry(s, k);
    assert RecordGood(s, pid);
    var s1 := Finished(s, pid, Faulted, code).(spawn := Unqueued(s.spawn, pid));
    EndsMembers(s, s1, pid, Faulted, code);
    var s' := Step(s, e).0;
    assert OnStack(s', pid) == OnStack(s1, pid) && InQueue(s', pid) == InQueue(s1, pid);
  }

  /** The process that a blocking wait of the running process below it entered. */
  predicate Awaited(s: State) { s.stack != [] && Top(s).awaited }

  /** An exit is noted with its code, and goes to the parent at once if the parent waits. */
  lemma {:induction false} ExitIsNoted(s: State, status: Status, code: int)
    requires Inv(s) && s.stack != [] && status != Running
    ensures Enabled(s, Event.Exit(status, code)) && (Awaited(s) ==> |s.stack| >= 2)
    ensures EndNoted(s, Step(s, Event.Exit(status, code)).0, Top(s).pid, status, code,
                     if Awaited(s) then Some(s.stack[|s.stack| - 2].pid) else None)
    ensures Step(s, Event.Exit(status, code)).0.stack == s.stack[..|s.stack| - 1]
    ensures Top(s).pid in Step(s, Event.Exit(status, code)).0.table <==> !Awaited(s) && !Top(s).reap
  {
    var n, f := |s.stack| - 1, Top(s);
    assert FrameGood(s, n) && OnStack(s, f.pid) && RecordGood(s, f.pid);
    var s1 := Finished(s, f.pid, status, code).(stack := s.stack[..n], spawn := Unqueued(s.spawn, f.pid));
    if !f.queued {
      NotQueuedUnchanged(s, f.pid);
    } else {
      assert InQueue(s, f.pid);
      var k :| 0 <= k < |s.spawn| && s.spawn[k].Some? && s.spawn[k].value.pid == f.pid;
      assert QueuedGood(s, s.spawn[k].value);
    }
    EndsMembers(s, s1, f.pid, status, code);
    var s' := Step(s, Event.Exit(status, code)).0;
    assert OnStack(s', f.pid) == OnStack(s1, f.pid) && InQueue(s', f.pid) == InQueue(s1, f.pid);
  }

  /** An event that ends nobody: codes and ended records stay, but for the one a wait takes. */
  ghost predicate Quiet(s: State, e: Event, s': State) {
    && s'.past.exits == s.past.exits
    && (forall p :: p in s'.table && s'.table[p].status != Running ==> p in s.table && s'.table[p] == s.table[p])
    && (s'.past.delivered == s.past.delivered || TakenByWait(s, e, s'))
    && (s'.past.delivered == s.past.delivered ==> forall p :: p in s.table ==> p in s'.table)
  }

  /** A wait for a process that has ended takes its code and its record. */
  ghost predicate TakenByWait(s: State, e: Event, s': State) {
    && s.stack != [] && e.Wait? && WaitsBy(s, e, e.target, Top(s).pid)
    && e.target in s.past.exits && e.target in s.past.created && s.past.created[e.target] == Top(s).pid
    && s'.past.delivered == s.past.delivered + [Delivery(e.target, Top(s).pid, s.past.exits[e.target])]
    && e.target !in s'.table && forall p :: p in s.table && p != e.target ==> p in s'.table
  }

  ghost predicate EndsSomeone(s: State, e: Event) { exists pid, status, code :: EndsBy(s, e, pid, status, code) }

  /** Running a queued child that was chosen ends it or ends nobody. */
  lemma {:induction false} EnterEndsOrQuiet(s: State, e: Event, pid: nat)
    requires Inv(s) && Enabled(s, e) && Chosen(s, e, pid)
    ensures EndsSomeone(s, e) || Quiet(s, e, Step(s, e).0)
  {
    var k := ChosenEntry(s, e, pid);
    FoundEntry(s, k);
    if LoadOf(e).Fails? {
      assert EndsBy(s, e, pid, Faulted, LoadOf(e).code);
    }
  }

  lemma {:induction false} YieldChooses(s: State, load: Load) returns (pid: Option<nat>)
    requires Inv(s) && s.stack != []
    ensures match pid case Some(p) => Chosen(s, Event.Yield(load), p) case None => YieldStep(s, load).0 == s
  {
    var k := First(s.spawn, IsChildOf(Top(s).pid), 0);
    if k == |s.spawn| {
      return None;
    }
    assert IsChildOf(Top(s).pid)(s.spawn[k]);
    forall j | 0 <= j < k && s.spawn[j].Some? ensures s.spawn[j].value.parent != Top(s).pid {
      assert !IsChildOf(Top(s).pid)(s.spawn[j]);
    }
    assert s.spawn[k] == Some(Queued(s.spawn[k].value.pid, Top(s).pid)) && NoneBefore(s, k, Top(s).pid);
    return Some(s.spawn[k].value.pid);
  }

  lemma {:induction false} PollChooses(s: State, load: Load) returns (pid: Option<nat>)
    requires Inv(s)
    ensures match pid case Some(p) => Chosen(s, Event.Poll(load), p) case None => PollStep(s, load).0 == s
  {
    var k := First(s.spawn, IsAny(), 0);
    if k == |s.spawn| || s.stack != [] {
      return None;
    }
    assert IsAny()(s.spawn[k]);
    forall j | 0 <= j < k ensures s.spawn[j].None? {
      assert !IsAny()(s.spawn[j]);
    }
    return Some(s.spawn[k].value.pid);
  }

  /** What wait answers, and to whom it is refused: nobody is its own child. */
  lemma {:induction false} WaitAnswers(s: State, e: Event)
    requires Inv(s) && Enabled(s, e) && e.Wait?
    ensures e.target == 0 ==> Step(s, e) == (s, -7)
    ensures e.target != 0 && e.target !in s.table ==> Step(s, e) == (s, -2)
    ensures e.target != 0 && e.target in s.table && s.table[e.target].parent != Top(s).pid ==> Step(s, e) == (s, -7)
    ensures e.target != 0 && e.target in s.table && s.table[e.target].parent == Top(s).pid ==>
              if s.table[e.target].status != Running then Step(s, e).1 == 0 && TakenByWait(s, e, Step(s, e).0)
              else if e.nohang then Step(s, e) == (s, -6)
              else Step(s, e).1 == 0 && Chosen(s, e, e.target)
  {
    var caller := Top(s).pid;
    assert FrameGood(s, |s.stack| - 1) && RecordGood(s, caller) && CreatedGood(s, caller);
    assert RecordGood(s, e.target) && CreatedGood(s, e.target);
    if e.target in s.table && s.table[e.target].parent == caller && s.table[e.target].status == Running {
      ChildrenOfTopWait(s, e.target);
      var k := RunningChildQueued(s, e.target);
      FoundEntry(s, k);
    }
  }

  lemma {:induction false} EndsOrQuiet(s: State, e: Event)
    requires Inv(s) && Enabled(s, e)
    ensures EndsSomeone(s, e) || Quiet(s, e, Step(s, e).0)
  {
    match e
    case Spawn => FreshPid(s);
    case Yield(load) =>
      var pid := YieldChooses(s, load);
      if pid.Some? {
        EnterEndsOrQuiet(s, e, pid.value);
      }
    case Poll(load) =>
      var pid := PollChooses(s, load);
      if pid.Some? {
        EnterEndsOrQuiet(s, e, pid.value);
      }
    case Wait(target, nohang, _) =>
      WaitAnswers(s, e);
      if target != 0 && target in s.table && s.table[target].parent == Top(s).pid && s.table[target].status == Running && !nohang {
        EnterEndsOrQuiet(s, e, target);
      }
    case Nested(_, _) => FreshPid(s);
    case Exit(status, code) => assert EndsBy(s, e, Top(s).pid, status, code);
  }

  /** Whoever an event ends, its end is noted. */
  lemma {:induction false} EndIsNoted(s: State, e: Event, pid: nat, status: Status, code: int) returns (to: Option<nat>)
    requires Inv(s) && Enabled(s, e) && EndsBy(s, e, pid, status, code)
    ensures EndNoted(s, Step(s, e).0, pid, status, code, to)
    ensures to.Some? ==> WaitsBy(s, e, pid, to.value) || (e.Exit? && Awaited(s) && |s.stack| >= 2 && to.value == s.stack[|s.stack| - 2].pid)
  {
    if e.Exit? {
      ExitIsNoted(s, status, code);
      to := if Awaited(s) then Some(s.stack[|s.stack| - 2].pid) else None;
    } else {
      FailedLoadIsNoted(s, e, pid, code);
      to := if e.Wait? then Some(Top(s).pid) else None;
    }
  }

  /** Everything an event does to codes, records and deliveries: it ends one process, or nobody. */
  ghost predicate Accounts(s: State, e: Event, s': State) {
    Quiet(s, e, s') || exists pid, status, code, to :: EndsAs(s, e, s', pid, status, code, to)
  }

  ghost predicate EndsAs(s: State, e: Event, s': State, pid: nat, status: Status, code: int, to: Option<nat>) {
    && EndsBy(s, e, pid, status, code) && EndNoted(s, s', pid, status, code, to)
    && (to.Some? ==> WaitsBy(s, e, pid, to.value) || (Awaited(s) && |s.stack| >= 2 && pid == Top(s).pid && to.value == s.stack[|s.stack| - 2].pid))
  }

  lemma {:induction false} StepAccounts(s: State, e: Event)
    requires Inv(s) && Enabled(s, e)
    ensures Accounts(s, e, Step(s, e).0)
  {
    EndsOrQuiet(s, e);
    if EndsSomeone(s, e) {
      var pid, status, code :| EndsBy(s, e, pid, status, code);
      var to := EndIsNoted(s, e, pid, status, code);
      assert EndsAs(s, e, Step(s, e).0, pid, status, code, to);
    }
  }

  /** A process comes into being exactly by being asked for. */
  lemma {:induction false} CreatedBy(s: State, e: Event, pid: nat, parent: nat)
    requires Inv(s) && Enabled(s, e)
    ensures SpawnsBy(s, e, pid, parent) <==>
              pid !in s.past.created && pid in Step(s, e).0.past.created && Step(s, e).0.past.created[pid] == parent
  {
    FreshPid(s);
    PidsNeverReused(s, e);
  }

  /** Spawn is refused exactly if eight children are queued or sixty-four records are held, and else answers with the pid of a new child. */
  lemma {:induction false} SpawnAnswers(s: State, e: Event)
    requires Inv(s) && Enabled(s, e) && e.Spawn?
    ensures Step(s, e).1 == -10 <==> (forall k :: 0 <= k < |s.spawn| ==> s.spawn[k].Some?) || |s.table| >= 64
    ensures Step(s, e).1 != -10 ==>
              && Step(s, e).1 == s.nextPid && s.nextPid !in s.past.created && InQueue(Step(s, e).0, s.nextPid)
              && Step(s, e).0.past.created == s.past.created[s.nextPid := Top(s).pid]
    ensures |s.spawn| == 8
  {
    FreshPid(s);
    var k := First(s.spawn, IsFree(), 0);
    if k < |s.spawn| {
      assert IsFree()(s.spawn[k]) && s.spawn[k].None?;
      assert Step(s, e).1 != FULL ==> Step(s, e).0.spawn[k].value.pid == s.nextPid;
    } else {
      assert forall j :: 0 <= j < |s.spawn| ==> !IsFree()(s.spawn[j]);
    }
  }

  // ---------------------------------------------------------------------------------------
  // Every run
  // ---------------------------------------------------------------------------------------

  lemma {:induction false} FinalMore(s: State, run: seq<Event>, e: Event)
    ensures Legal(s, run + [e]) <==> Legal(s, run) && Enabled(Final(s, run), e)
    ensures Legal(s, run + [e]) ==> Final(s, run + [e]) == Step(Final(s, run), e).0
    decreases |run|
  {
    var more := run + [e];
    if run != [] {
      assert more[1..] == run[1..] + [e];
      if Enabled(s, run[0]) {
        FinalMore(Step(s, run[0]).0, run[1..], e);
      }
    } else {
      assert more[1..] == [];
    }
  }

  ghost predicate SpawnedAt(run: seq<Event>, k: nat, pid: nat, parent: nat) {
    k < |run| && Legal(Initial(), run[..k]) && SpawnsBy(Final(Initial(), run[..k]), run[k], pid, parent)
  }

  ghost predicate WaitedAt(run: seq<Event>, k: nat, pid: nat, to: nat) {
    k < |run| && Legal(Initial(), run[..k]) && WaitsBy(Final(Initial(), run[..k]), run[k], pid, to)
  }

  ghost predicate EndedAt(run: seq<Event>, k: nat, pid: nat, status: Status, code: int) {
    k < |run| && Legal(Initial(), run[..k]) && EndsBy(Final(Initial(), run[..k]), run[k], pid, status, code)
  }

  ghost predicate Spawned(run: seq<Event>, pid: nat, parent: nat) { exists k :: SpawnedAt(run, k, pid, parent) }

  ghost predicate Waited(run: seq<Event>, pid: nat, to: nat) { exists k :: WaitedAt(run, k, pid, to) }

  ghost predicate Ended(run: seq<Event>, pid: nat, status: Status, code: int) { exists k :: EndedAt(run, k, pid, status, code) }

  ghost predicate EndedWith(run: seq<Event>, pid: nat, code: int) { exists status :: Ended(run, pid, status, code) }

  lemma {:induction false} StillSaid(run: seq<Event>, e: Event, k: nat)
    requires k < |run|
    ensures (run + [e])[..k] == run[..k] && (run + [e])[k] == run[k]
  {
  }

  lemma {:induction false} SaidLast(run: seq<Event>, e: Event)
    ensures (run + [e])[..|run|] == run && (run + [e])[|run|] == e
  {
  }

  ghost predicate Handed(s: State, pid: nat) { exists x :: 0 <= x < |s.past.delivered| && s.past.delivered[x].pid == pid }

  /** Nothing that ended under a parent is lost: its record is kept or its code was handed over. */
  ghost predicate Kept(s: State, pid: nat) {
    pid in s.past.exits && pid in s.past.created && s.past.created[pid] != 0 ==> pid in s.table || Handed(s, pid)
  }

  ghost predicate CreationsSaid(run: seq<Event>, s: State) {
    && (forall pid :: pid in s.past.created ==> Spawned(run, pid, s.past.created[pid]))
    && (forall k, pid, parent :: SpawnedAt(run, k, pid, parent) ==> pid in s.past.created && s.past.created[pid] == parent)
  }

  ghost predicate ExitsSaid(run: seq<Event>, s: State) {
    && (forall pid :: pid in s.past.exits ==> EndedWith(run, pid, s.past.exits[pid]))
    && (forall pid :: pid in s.table && s.table[pid].status != Running ==> Ended(run, pid, s.table[pid].status, s.table[pid].code))
  }

  ghost predicate EndKnown(s: State, pid: nat, status: Status, code: int) {
    pid in s.past.exits && s.past.exits[pid] == code && (pid in s.table ==> s.table[pid].status == status && s.table[pid].code == code)
  }

  ghost predicate EndsKnown(run: seq<Event>, s: State) {
    forall k, pid, status, code :: EndedAt(run, k, pid, status, code) ==> EndKnown(s, pid, status, code)
  }

  ghost predicate WaitsSaid(run: seq<Event>, s: State) {
    && (forall x :: 0 <= x < |s.past.delivered| ==> Waited(run, s.past.delivered[x].pid, s.past.delivered[x].to))
    && (forall i :: 0 <= i < |s.stack| && s.stack[i].awaited ==> i > 0 && Waited(run, s.stack[i].pid, s.stack[i - 1].pid))
  }

  lemma {:induction false} CreationsMore(run: seq<Event>, s: State, e: Event)
    requires Legal(Initial(), run) && s == Final(Initial(), run) && Inv(s) && Enabled(s, e) && CreationsSaid(run, s)
    ensures CreationsSaid(run + [e], Step(s, e).0)
  {
    var s' := Step(s, e).0;
    forall pid | pid in s'.past.created ensures Spawned(run + [e], pid, s'.past.created[pid]) {
      PidsNeverReused(s, e);
      if pid in s.past.created {
        var k: nat :| SpawnedAt(run, k, pid, s.past.created[pid]);
        StillSaid(run, e, k);
        assert SpawnedAt(run + [e], k, pid, s.past.created[pid]);
      } else {
        CreatedBy(s, e, pid, s'.past.created[pid]);
        SaidLast(run, e);
        assert SpawnedAt(run + [e], |run|, pid, s'.past.created[pid]);
      }
    }
    forall k: nat, pid: nat, parent: nat | SpawnedAt(run + [e], k, pid, parent)
      ensures pid in s'.past.created && s'.past.created[pid] == parent
    {
      PidsNeverReused(s, e);
      if k < |run| {
        StillSaid(run, e, k);
        assert SpawnedAt(run, k, pid, parent);
      } else {
        SaidLast(run, e);
        CreatedBy(s, e, pid, parent);
      }
    }
  }

  lemma {:induction false} EndedMore(run: seq<Event>, e: Event, pid: nat, status: Status, code: int)
    requires Ended(run, pid, status, code)
    ensures Ended(run + [e], pid, status, code)
  {
    var k: nat :| EndedAt(run, k, pid, status, code);
    StillSaid(run, e, k);
    assert EndedAt(run + [e], k, pid, status, code);
  }

  lemma {:induction false} EndedNow(run: seq<Event>, s: State, e: Event, pid: nat, status: Status, code: int)
    requires Legal(Initial(), run) && s == Final(Initial(), run) && EndsBy(s, e, pid, status, code)
    ensures Ended(run + [e], pid, status, code)
  {
    SaidLast(run, e);
    assert EndedAt(run + [e], |run|, pid, status, code);
  }

  lemma {:induction false} ExitsMore(run: seq<Event>, s: State, e: Event, s': State)
    requires Legal(Initial(), run) && s == Final(Initial(), run) && ExitsSaid(run, s) && Accounts(s, e, s')
    ensures ExitsSaid(run + [e], s')
  {
    if !Quiet(s, e, s') {
      var pid, status, code, to :| EndsAs(s, e, s', pid, status, code, to);
      EndedNow(run, s, e, pid, status, code);
    }
    forall p | p in s'.past.exits ensures EndedWith(run + [e], p, s'.past.exits[p]) {
      if p in s.past.exits && s'.past.exits[p] == s.past.exits[p] {
        var status :| Ended(run, p, status, s.past.exits[p]);
        EndedMore(run, e, p, status, s.past.exits[p]);
      }
    }
    forall p | p in s'.table && s'.table[p].status != Running ensures Ended(run + [e], p, s'.table[p].status, s'.table[p].code) {
      if p in s.table && s'.table[p] == s.table[p] {
        EndedMore(run, e, p, s.table[p].status, s.table[p].code);
      }
    }
  }

  lemma {:induction false} EndKnownMore(s: State, e: Event, pid: nat, status: Status, code: int)
    requires Inv(s) && Enabled(s, e) && EndKnown(s, pid, status, code)
    ensures EndKnown(Step(s, e).0, pid, status, code)
  {
    var s' := Step(s, e).0;
    CodesNeverChange(s, e, pid);
    StepKeepsInv(s, e);
    StepAccounts(s, e);
    StillKnown(s, e, s', pid, status, code);
  }

  lemma {:induction false} StillKnown(s: State, e: Event, s': State, pid: nat, status: Status, code: int)
    requires Accounts(s, e, s') && EndKnown(s, pid, status, code) && RecordGood(s', pid)
    requires pid in s'.past.exits && s'.past.exits[pid] == code
    ensures EndKnown(s', pid, status, code)
  {
  }

  lemma {:induction false} EndsKnownMore(run: seq<Event>, s: State, e: Event)
    requires Legal(Initial(), run) && s == Final(Initial(), run) && Inv(s) && Enabled(s, e) && EndsKnown(run, s)
    ensures EndsKnown(run + [e], Step(s, e).0)
  {
    var s' := Step(s, e).0;
    forall k: nat, pid: nat, status, code | EndedAt(run + [e], k, pid, status, code) ensures EndKnown(s', pid, status, code) {
      if k < |run| {
        StillSaid(run, e, k);
        assert EndedAt(run, k, pid, status, code);
        EndKnownMore(s, e, pid, status, code);
      } else {
        SaidLast(run, e);
        var to := EndIsNoted(s, e, pid, status, code);
      }
    }
  }

  lemma {:induction false} KeptMore(s: State, e: Event, s': State)
    requires Accounts(s, e, s') && (forall pid :: Kept(s, pid)) && (forall pid :: pid in s.past.exits ==> pid in s.past.created)
    requires forall pid :: pid in s.past.created ==> pid in s'.past.created && s'.past.created[pid] == s.past.created[pid]
    ensures forall pid :: Kept(s', pid)
  {
    var n := |s.past.delivered|;
    if Quiet(s, e, s') {
      forall p ensures Kept(s', p) {
        assert Kept(s, p);
        HandedStill(s, s', p);
        assert s'.past.delivered != s.past.delivered ==> s'.past.delivered[n].pid == e.target;
      }
    } else {
      var pid, status, code, to :| EndsAs(s, e, s', pid, status, code, to);
      forall p ensures Kept(s', p) {
        assert Kept(s, p);
        HandedStill(s, s', p);
        assert to.Some? ==> s'.past.delivered[n].pid == pid;
      }
    }
  }

  lemma {:induction false} HandedStill(s: State, s': State, pid: nat)
    requires s.past.delivered <= s'.past.delivered
    ensures Handed(s, pid) ==> Handed(s', pid)
  {
    if Handed(s, pid) {
      var x :| 0 <= x < |s.past.delivered| && s.past.delivered[x].pid == pid;
      assert s'.past.delivered[x].pid == pid;
    }
  }

  /** Who comes on top of the stack by a wait was waited for. */
  ghost predicate Moves(s: State, e: Event, u: seq<Frame>) {
    var n := |s.stack|;
    || u <= s.stack
    || (|u| == n + 1 && u[..n] == s.stack && (u[n].awaited ==> n > 0 && WaitsBy(s, e, u[n].pid, Top(s).pid)))
  }

  lemma {:induction false} StackMoves(s: State, e: Event)
    requires Inv(s) && Enabled(s, e)
    ensures Moves(s, e, Step(s, e).0.stack)
  {
    match e
    case Wait(_, _, _) => WaitAnswers(s, e);
    case _ =>
  }

  lemma {:induction false} WaitedMore(run: seq<Event>, e: Event, pid: nat, to: nat)
    requires Waited(run, pid, to)
    ensures Waited(run + [e], pid, to)
  {
    var k: nat :| WaitedAt(run, k, pid, to);
    StillSaid(run, e, k);
    assert WaitedAt(run + [e], k, pid, to);
  }

  lemma {:induction false} WaitedNow(run: seq<Event>, s: State, e: Event, pid: nat, to: nat)
    requires Legal(Initial(), run) && s == Final(Initial(), run) && WaitsBy(s, e, pid, to)
    ensures Waited(run + [e], pid, to)
  {
    SaidLast(run, e);
    assert WaitedAt(run + [e], |run|, pid, to);
  }

  lemma {:induction false} DeliveriesWaited(run: seq<Event>, s: State, e: Event, s': State, x: nat)
    requires Legal(Initial(), run) && s == Final(Initial(), run) && WaitsSaid(run, s) && Accounts(s, e, s')
    requires x < |s'.past.delivered|
    ensures Waited(run + [e], s'.past.delivered[x].pid, s'.past.delivered[x].to)
  {
    var d := s'.past.delivered[x];
    if x < |s.past.delivered| {
      assert d == s.past.delivered[x];
      WaitedMore(run, e, d.pid, d.to);
    } else if Quiet(s, e, s') {
      WaitedNow(run, s, e, d.pid, d.to);
    } else {
      var pid, status, code, to :| EndsAs(s, e, s', pid, status, code, to);
      if WaitsBy(s, e, d.pid, d.to) {
        WaitedNow(run, s, e, d.pid, d.to);
      } else {
        assert s.stack[|s.stack| - 1].awaited;
        WaitedMore(run, e, d.pid, d.to);
      }
    }
  }

  lemma {:induction false} FramesWaited(run: seq<Event>, s: State, e: Event, u: seq<Frame>, i: nat)
    requires Legal(Initial(), run) && s == Final(Initial(), run) && WaitsSaid(run, s) && Moves(s, e, u) && i < |u| && u[i].awaited
    ensures i > 0 && Waited(run + [e], u[i].pid, u[i - 1].pid)
  {
    var n := |s.stack|;
    if i < n {
      assert u[i] == s.stack[i] && (i > 0 ==> u[i - 1] == s.stack[i - 1]);
      WaitedMore(run, e, u[i].pid, u[i - 1].pid);
    } else {
      assert u[..n] == s.stack && u[n - 1] == s.stack[n - 1];
      WaitedNow(run, s, e, u[n].pid, u[n - 1].pid);
    }
  }

  lemma {:induction false} WaitsMore(run: seq<Event>, s: State, e: Event, s': State)
    requires Legal(Initial(), run) && s == Final(Initial(), run) && WaitsSaid(run, s) && Accounts(s, e, s') && Moves(s, e, s'.stack)
    ensures WaitsSaid(run + [e], s')
  {
    var more := run + [e];
    forall x | 0 <= x < |s'.past.delivered| ensures Waited(more, s'.past.delivered[x].pid, s'.past.delivered[x].to) {
      DeliveriesWaited(run, s, e, s', x);
    }
    forall i | 0 <= i < |s'.stack| && s'.stack[i].awaited ensures i > 0 && Waited(more, s'.stack[i].pid, s'.stack[i - 1].pid) {
      FramesWaited(run, s, e, s'.stack, i);
    }
  }

  ghost predicate AllSaid(run: seq<Event>, s: State) {
    CreationsSaid(run, s) && ExitsSaid(run, s) && EndsKnown(run, s) && WaitsSaid(run, s) && forall pid :: Kept(s, pid)
  }

  lemma {:induction false} StepSaid(run: seq<Event>, s: State, e: Event)
    requires Legal(Initial(), run) && s == Final(Initial(), run) && Inv(s) && Enabled(s, e) && AllSaid(run, s)
    ensures Inv(Step(s, e).0) && AllSaid(run + [e], Step(s, e).0)
  {
    StepKeepsInv(s, e);
    StepAccounts(s, e);
    PidsNeverReused(s, e);
    StackMoves(s, e);
    CreationsMore(run, s, e);
    ExitsMore(run, s, e, Step(s, e).0);
    EndsKnownMore(run, s, e);
    KeptMore(s, e, Step(s, e).0);
    WaitsMore(run, s, e, Step(s, e).0);
  }

  lemma {:induction false} RunSaid(run: seq<Event>)
    requires Legal(Initial(), run)
    ensures Inv(Final(Initial(), run)) && AllSaid(run, Final(Initial(), run))
    decreases |run|
  {
    InitialInv();
    if run != [] {
      var n := |run| - 1;
      var front, e := run[..n], run[n];
      assert run == front + [e];
      FinalMore(Initial(), front, e);
      RunSaid(front);
      StepSaid(front, Final(Initial(), front), e);
    }
  }

  /** Every code handed over: its receiver had asked for the process and had waited for it, and the process ended with that code. */
  lemma {:induction false} DeliveriesAreTrue(run: seq<Event>, x: nat)
    requires Legal(Initial(), run) && x < |Final(Initial(), run).past.delivered|
    ensures var d := Final(Initial(), run).past.delivered[x];
            Spawned(run, d.pid, d.to) && Waited(run, d.pid, d.to) && EndedWith(run, d.pid, d.code)
  {
    RunSaid(run);
    assert DeliveryGood(Final(Initial(), run), Final(Initial(), run).past.delivered[x]);
  }

  /** No code is lost: a child that ended stays on record with its status and code until its parent is handed that code. */
  lemma {:induction false} NoCodeIsLost(run: seq<Event>, pid: nat, parent: nat, status: Status, code: int)
    requires Legal(Initial(), run) && Spawned(run, pid, parent) && parent != 0 && Ended(run, pid, status, code)
    ensures var s := Final(Initial(), run);
            || (pid in s.table && s.table[pid] == Record(parent, status, code))
            || Delivery(pid, parent, code) in s.past.delivered
  {
    RunSaid(run);
    var s := Final(Initial(), run);
    var k: nat :| EndedAt(run, k, pid, status, code);
    var i: nat :| SpawnedAt(run, i, pid, parent);
    assert EndKnown(s, pid, status, code) && Kept(s, pid) && RecordGood(s, pid);
    if pid !in s.table {
      var x :| 0 <= x < |s.past.delivered| && s.past.delivered[x].pid == pid;
      assert DeliveryGood(s, s.past.delivered[x]);
    }
  }
}
