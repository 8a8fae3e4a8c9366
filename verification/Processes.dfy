/** Cooperative spawn, run and wait of user processes (k64_usermode.c:335-477, 665-706, 927-1060). */
module Processes {
  import opened Blocks
  import opened Scanning

  const PROCESS_MAX: nat := 64
  const SPAWN_MAX: nat := 8

  const OK: int := 0
  const INVAL: int := -1
  const NOENT: int := -2
  const AGAIN: int := -6
  const NOTCHILD: int := -7
  const FULL: int := -10

  datatype Status = Running | Zombie | Faulted

  datatype Record = Record(parent: nat, status: Status, code: int)

  /** A child that spawn() queued and that has not come to its end. */
  datatype Queued = Queued(pid: nat, parent: nat)

  /**
   * A process that is being run: from the queue or not, on behalf of a blocking wait of the one below it or not,
   * and whether its record goes away when it ends.
   */
  datatype Frame = Frame(pid: nat, queued: bool, awaited: bool, reap: bool)

  datatype Delivery = Delivery(pid: nat, to: nat, code: int)

  /** The record of a run: who was created by whom, who was entered, how each ended, which codes were handed out. */
  datatype History = History(created: map<nat, nat>, entered: seq<nat>, exits: map<nat, int>, delivered: seq<Delivery>)

  datatype State = State(table: map<nat, Record>, spawn: seq<Option<Queued>>, nextPid: nat, stack: seq<Frame>, past: History)

  /** How loading a program goes: it runs, or it ends with a code before it is entered. */
  datatype Load = Runs | Fails(code: int)

  datatype Event =
    | Spawn
    | Yield(load: Load)
    | Poll(load: Load)
    | Wait(target: nat, nohang: bool, load: Load)
    | Nested(load: Load, reap: bool)
    | Exit(status: Status, code: int)

  function Top(s: State): Frame
    requires s.stack != []
  {
    s.stack[|s.stack| - 1]
  }

  type Test = Option<Queued> -> bool

  function IsFree(): Test { (q: Option<Queued>) => q.None? }
  function IsAny(): Test { (q: Option<Queued>) => q.Some? }
  function IsPid(pid: nat): Test { (q: Option<Queued>) => q.Some? && q.value.pid == pid }
  function IsChildOf(parent: nat): Test { (q: Option<Queued>) => q.Some? && q.value.parent == parent }

  function Unqueued(spawn: seq<Option<Queued>>, pid: nat): seq<Option<Queued>> {
    var k := First(spawn, IsPid(pid), 0);
    if k == |spawn| then spawn else spawn[k := None]
  }

  function SpawnStep(s: State): (State, int)
    requires s.stack != []
  {
    var k := First(s.spawn, IsFree(), 0);
    if k == |s.spawn| then (s, FULL) else
    var pid, parent := s.nextPid, Top(s).pid;
    if pid !in s.table && |s.table| >= PROCESS_MAX then (s.(nextPid := pid + 1), FULL)
    else (s.(table := s.table[pid := Record(parent, Running, INVAL)], spawn := s.spawn[k := Some(Queued(pid, parent))],
             nextPid := pid + 1, past := s.past.(created := s.past.created[pid := parent])),
          pid)
  }

  /** Marks the end of a process. */
  function Finished(s: State, pid: nat, status: Status, code: int): State
    requires pid in s.table
  {
    s.(table := s.table[pid := s.table[pid].(status := status, code := code)],
       past := s.past.(exits := s.past.exits[pid := code]))
  }

  /** Hands the code of an ended process to the one that waits and drops its record. */
  function Delivered(s: State, pid: nat, to: nat): State
    requires pid in s.table
  {
    s.(table := s.table - {pid}, past := s.past.(delivered := s.past.delivered + [Delivery(pid, to, s.table[pid].code)]))
  }

  /** Runs the queued child pid of this parent, or fails to load it. */
  function EnterStep(s: State, pid: nat, parent: nat, awaited: bool, load: Load): (State, int) {
    var k := First(s.spawn, IsPid(pid), 0);
    if k == |s.spawn| || s.spawn[k].value.parent != parent then (s, AGAIN)
    else if load.Runs? then
      if pid !in s.table && |s.table| >= PROCESS_MAX then (s, AGAIN)
      else (s.(table := s.table[pid := Record(parent, Running, INVAL)], stack := s.stack + [Frame(pid, true, awaited, false)],
               past := s.past.(entered := s.past.entered + [pid])),
            OK)
    else if pid !in s.table then (s.(spawn := Unqueued(s.spawn, pid)), NOENT)
    else
      var s1 := if s.table[pid].status == Running then Finished(s, pid, Faulted, load.code) else s;
      var s2 := s1.(spawn := Unqueued(s.spawn, pid));
      (if awaited then Delivered(s2, pid, parent) else s2, OK)
  }

  function YieldStep(s: State, load: Load): (State, int)
    requires s.stack != []
  {
    var k := First(s.spawn, IsChildOf(Top(s).pid), 0);
    if k == |s.spawn| then (s, OK) else (EnterStep(s, s.spawn[k].value.pid, s.spawn[k].value.parent, false, load).0, OK)
  }

  function PollStep(s: State, load: Load): (State, int) {
    var k := First(s.spawn, IsAny(), 0);
    if s.stack != [] || k == |s.spawn| then (s, OK)
    else (EnterStep(s, s.spawn[k].value.pid, s.spawn[k].value.parent, false, load).0, OK)
  }

  function WaitStep(s: State, target: nat, nohang: bool, load: Load): (State, int)
    requires s.stack != []
  {
    var pid, caller := if target == 0 then Top(s).pid else target, Top(s).pid;
    if pid !in s.table then (s, NOENT)
    else if s.table[pid].parent != caller then (s, NOTCHILD)
    else if s.table[pid].status == Running then
      if nohang then (s, AGAIN) else EnterStep(s, pid, caller, true, load)
    else (Delivered(s, pid, caller), OK)
  }

  function NestedStep(s: State, load: Load, reap: bool): (State, int) {
    if load.Fails? then (s, NOENT)
    else if |s.table| >= PROCESS_MAX then (s, FULL)
    else
      var pid := s.nextPid;
      (s.(table := s.table[pid := Record(0, Running, INVAL)], nextPid := pid + 1, stack := s.stack + [Frame(pid, false, false, reap)],
          past := s.past.(created := s.past.created[pid := 0], entered := s.past.entered + [pid])),
       OK)
  }

  /** The running process ends and its runner goes on. */
  function ExitStep(s: State, status: Status, code: int): (State, int)
    requires s.stack != [] && Top(s).pid in s.table
  {
    var f := Top(s);
    var s1 := Finished(s, f.pid, status, code).(stack := s.stack[..|s.stack| - 1]);
    if f.queued then
      var s2 := s1.(spawn := Unqueued(s.spawn, f.pid));
      (if f.awaited && s2.stack != [] then Delivered(s2, f.pid, Top(s2).pid) else s2, OK)
    else if f.reap then (s1.(table := s1.table - {f.pid}), OK)
    else (s1, OK)
  }

  predicate Enabled(s: State, e: Event) {
    match e
    case Spawn => s.stack != []
    case Yield(_) => s.stack != []
    case Poll(_) => true
    case Wait(_, _, _) => s.stack != []
    case Nested(_, _) => true
    case Exit(status, _) => s.stack != [] && Top(s).pid in s.table && status != Running
  }

  function Step(s: State, e: Event): (State, int)
    requires Enabled(s, e)
  {
    match e
    case Spawn => SpawnStep(s)
    case Yield(load) => YieldStep(s, load)
    case Poll(load) => PollStep(s, load)
    case Wait(target, nohang, load) => WaitStep(s, target, nohang, load)
    case Nested(load, reap) => NestedStep(s, load, reap)
    case Exit(status, code) => ExitStep(s, status, code)
  }

  function Initial(): State { State(map[], seq(SPAWN_MAX, _ => None), 5000, [], History(map[], [], map[], [])) }

  // ---------------------------------------------------------------------------------------
  // What every step keeps
  // ---------------------------------------------------------------------------------------

  ghost predicate NoDuplicates(s: seq<nat>) { forall i, j :: 0 <= i < j < |s| ==> s[i] != s[j] }

  ghost predicate OnStack(s: State, pid: nat) { exists i :: 0 <= i < |s.stack| && s.stack[i].pid == pid }

  ghost predicate InQueue(s: State, pid: nat) { exists k :: 0 <= k < |s.spawn| && s.spawn[k].Some? && s.spawn[k].value.pid == pid }

  /** A record belongs to a created process; it runs, is queued, or has ended with its code. */
  ghost predicate RecordGood(s: State, pid: nat) {
    pid in s.table ==>
      && pid in s.past.created && s.past.created[pid] == s.table[pid].parent
      && (s.table[pid].parent == 0 || s.table[pid].parent in s.past.entered)
      && (s.table[pid].status == Running ==> pid !in s.past.exits && (OnStack(s, pid) || InQueue(s, pid)))
      && (s.table[pid].status != Running ==> pid in s.past.exits && s.past.exits[pid] == s.table[pid].code)
  }

  ghost predicate CreatedGood(s: State, pid: nat) {
    pid in s.past.created ==> 0 < pid < s.nextPid && s.past.created[pid] < pid
  }

  /** A queued child has a running record, was spawned by a process that ran, and if it was entered it is on the stack. */
  ghost predicate QueuedGood(s: State, q: Queued) {
    && q.pid in s.table && s.table[q.pid] == Record(q.parent, Running, s.table[q.pid].code)
    && q.parent != 0 && q.parent in s.past.entered
    && (q.pid in s.past.entered ==> OnStack(s, q.pid))
  }

  ghost predicate QueueGood(s: State) {
    && |s.spawn| == SPAWN_MAX
    && (forall k :: 0 <= k < |s.spawn| && s.spawn[k].Some? ==> QueuedGood(s, s.spawn[k].value))
    && (forall i, j :: 0 <= i < j < |s.spawn| && s.spawn[i].Some? && s.spawn[j].Some? ==> s.spawn[i].value.pid != s.spawn[j].value.pid)
  }

  /** A process on the stack runs and was entered; the child of a waiting process sits right on top of it. */
  ghost predicate FrameGood(s: State, i: nat)
    requires i < |s.stack|
  {
    var f := s.stack[i];
    && f.pid in s.table && s.table[f.pid].status == Running && f.pid in s.past.entered
    && (f.queued <==> InQueue(s, f.pid)) && (!f.queued ==> s.table[f.pid].parent == 0) && (f.reap ==> !f.queued)
    && (f.awaited ==> f.queued && i > 0 && s.table[f.pid].parent == s.stack[i - 1].pid)
  }

  /** Nobody runs above a child it spawned. */
  ghost predicate ParentsBelow(s: State) {
    forall i, j :: 0 <= i <= j < |s.stack| && s.stack[i].pid in s.table ==> s.table[s.stack[i].pid].parent != s.stack[j].pid
  }

  ghost predicate StackGood(s: State) {
    && (forall i :: 0 <= i < |s.stack| ==> FrameGood(s, i))
    && (forall i, j :: 0 <= i < j < |s.stack| ==> s.stack[i].pid != s.stack[j].pid)
    && ParentsBelow(s)
  }

  ghost predicate DeliveryGood(s: State, d: Delivery) {
    && d.pid in s.past.created && s.past.created[d.pid] == d.to && d.pid in s.past.exits && s.past.exits[d.pid] == d.code
    && d.pid !in s.table
  }

  ghost predicate DeliveriesGood(s: State) {
    && (forall i :: 0 <= i < |s.past.delivered| ==> DeliveryGood(s, s.past.delivered[i]))
    && (forall i, j :: 0 <= i < j < |s.past.delivered| ==> s.past.delivered[i].pid != s.past.delivered[j].pid)
  }

  ghost predicate Inv(s: State) {
    && s.nextPid > 0
    && (forall pid :: RecordGood(s, pid)) && (forall pid :: CreatedGood(s, pid))
    && QueueGood(s) && StackGood(s) && DeliveriesGood(s)
    && NoDuplicates(s.past.entered) && (forall i :: 0 <= i < |s.past.entered| ==> s.past.entered[i] in s.past.created)
    && (forall pid :: pid in s.past.exits ==> pid in s.past.created)
  }

  lemma InitialInv()
    ensures Inv(Initial())
  {
  }

  // ---------------------------------------------------------------------------------------
  // The small moves steps are made of
  // ---------------------------------------------------------------------------------------

  /** A created pid is in no other place under another guise: facts about a fresh pid. */
  lemma {:induction false} FreshPid(s: State)
    requires Inv(s)
    ensures s.nextPid !in s.past.created && s.nextPid !in s.table && s.nextPid !in s.past.entered && s.nextPid !in s.past.exits
    ensures !OnStack(s, s.nextPid) && !InQueue(s, s.nextPid)
    ensures forall i :: 0 <= i < |s.past.delivered| ==> s.past.delivered[i].pid != s.nextPid
  {
    assert CreatedGood(s, s.nextPid) && RecordGood(s, s.nextPid);
    forall i | 0 <= i < |s.stack| ensures s.stack[i].pid != s.nextPid {
      assert FrameGood(s, i);
    }
    forall i | 0 <= i < |s.past.delivered| ensures s.past.delivered[i].pid != s.nextPid {
      assert DeliveryGood(s, s.past.delivered[i]);
    }
  }

  /** The state with a new queued child. */
  function WithQueued(s: State, k: nat, parent: nat): State
    requires k < |s.spawn|
  {
    var pid := s.nextPid;
    s.(table := s.table[pid := Record(parent, Running, INVAL)], spawn := s.spawn[k := Some(Queued(pid, parent))],
       nextPid := pid + 1, past := s.past.(created := s.past.created[pid := parent]))
  }

  lemma {:induction false} QueueKeepsRecords(s: State, k: nat, parent: nat, s': State)
    requires Inv(s) && k < |s.spawn| && s.spawn[k].None? && parent != 0 && parent in s.past.entered && parent < s.nextPid
    requires s' == WithQueued(s, k, parent)
    ensures forall pid :: RecordGood(s', pid) && CreatedGood(s', pid)
    ensures forall pid :: OnStack(s', pid) == OnStack(s, pid)
    ensures forall pid :: InQueue(s', pid) <==> InQueue(s, pid) || pid == s.nextPid
  {
    FreshPid(s);
    forall pid: nat ensures InQueue(s', pid) <==> InQueue(s, pid) || pid == s.nextPid {
      if InQueue(s, pid) {
        var j :| 0 <= j < |s.spawn| && s.spawn[j].Some? && s.spawn[j].value.pid == pid;
        assert s'.spawn[j] == s.spawn[j];
      }
      if pid == s.nextPid {
        assert s'.spawn[k].value.pid == pid;
      }
    }
    forall pid ensures RecordGood(s', pid) && CreatedGood(s', pid) {
      assert RecordGood(s, pid) && CreatedGood(s, pid);
      assert OnStack(s', pid) == OnStack(s, pid);
    }
  }

  lemma {:induction false} QueueKeepsInv(s: State, k: nat, parent: nat)
    requires Inv(s) && k < |s.spawn| && s.spawn[k].None? && parent != 0 && parent in s.past.entered && parent < s.nextPid
    ensures Inv(WithQueued(s, k, parent))
  {
    var s' := WithQueued(s, k, parent);
    FreshPid(s);
    QueueKeepsRecords(s, k, parent, s');
    forall j | 0 <= j < |s'.spawn| && s'.spawn[j].Some? ensures QueuedGood(s', s'.spawn[j].value) {
      if j != k {
        assert QueuedGood(s, s.spawn[j].value);
      }
    }
    forall i | 0 <= i < |s'.stack| ensures FrameGood(s', i) {
      assert FrameGood(s, i);
      assert OnStack(s, s.stack[i].pid);
    }
    assert ParentsBelow(s');
    forall i | 0 <= i < |s'.past.delivered| ensures DeliveryGood(s', s'.past.delivered[i]) {
      assert DeliveryGood(s, s.past.delivered[i]);
    }
  }

  /** Only the counter moves. */
  lemma {:induction false} BumpKeepsInv(s: State)
    requires Inv(s)
    ensures Inv(s.(nextPid := s.nextPid + 1))
  {
    var s' := s.(nextPid := s.nextPid + 1);
    forall pid ensures RecordGood(s', pid) && CreatedGood(s', pid) {
      assert RecordGood(s, pid) && CreatedGood(s, pid);
      assert OnStack(s', pid) == OnStack(s, pid) && InQueue(s', pid) == InQueue(s, pid);
    }
    forall j | 0 <= j < |s'.spawn| && s'.spawn[j].Some? ensures QueuedGood(s', s'.spawn[j].value) {
      assert QueuedGood(s, s.spawn[j].value);
      assert OnStack(s', s.spawn[j].value.pid) == OnStack(s, s.spawn[j].value.pid);
    }
    forall i | 0 <= i < |s'.stack| ensures FrameGood(s', i) {
      assert FrameGood(s, i);
      assert InQueue(s', s.stack[i].pid) == InQueue(s, s.stack[i].pid);
    }
    forall i | 0 <= i < |s'.past.delivered| ensures DeliveryGood(s', s'.past.delivered[i]) {
      assert DeliveryGood(s, s.past.delivered[i]);
    }
  }

  lemma {:induction false} PushedOnStack(s: State, s': State, f: Frame)
    requires s'.stack == s.stack + [f]
    ensures forall pid :: OnStack(s', pid) <==> OnStack(s, pid) || pid == f.pid
  {
    forall pid: nat ensures OnStack(s', pid) <==> OnStack(s, pid) || pid == f.pid {
      if OnStack(s, pid) {
        var i :| 0 <= i < |s.stack| && s.stack[i].pid == pid;
        assert s'.stack[i].pid == pid;
      }
      if pid == f.pid {
        assert s'.stack[|s.stack|].pid == pid;
      }
    }
  }

  /** The state with a queued child entered. */
  function WithEntered(s: State, q: Queued, awaited: bool): State {
    s.(table := s.table[q.pid := Record(q.parent, Running, INVAL)], stack := s.stack + [Frame(q.pid, true, awaited, false)],
       past := s.past.(entered := s.past.entered + [q.pid]))
  }

  lemma {:induction false} EnterKeepsInv(s: State, k: nat, awaited: bool)
    requires Inv(s) && k < |s.spawn| && s.spawn[k].Some? && !OnStack(s, s.spawn[k].value.pid)
    requires awaited ==> s.stack != [] && Top(s).pid == s.spawn[k].value.parent
    ensures Inv(WithEntered(s, s.spawn[k].value, awaited))
    ensures s.spawn[k].value.pid !in s.past.entered
  {
    var q := s.spawn[k].value;
    var s', n := WithEntered(s, q, awaited), |s.stack|;
    assert QueuedGood(s, q) && RecordGood(s, q.pid) && CreatedGood(s, q.pid);
    PushedOnStack(s, s', Frame(q.pid, true, awaited, false));
    forall pid ensures RecordGood(s', pid) && CreatedGood(s', pid) {
      assert RecordGood(s, pid) && CreatedGood(s, pid);
      assert InQueue(s', pid) == InQueue(s, pid);
    }
    forall j | 0 <= j < |s'.spawn| && s'.spawn[j].Some? ensures QueuedGood(s', s'.spawn[j].value) {
      assert QueuedGood(s, s.spawn[j].value);
    }
    forall i | 0 <= i < |s'.stack| ensures FrameGood(s', i) {
      assert i < n ==> FrameGood(s, i);
      assert InQueue(s', s'.stack[i].pid) == InQueue(s, s'.stack[i].pid);
      assert i == n ==> InQueue(s, s'.stack[i].pid);
    }
    forall i | 0 <= i < n ensures s.stack[i].pid != q.pid && s.stack[i].pid in s.table && s.table[s.stack[i].pid].parent != q.pid {
      assert FrameGood(s, i) && RecordGood(s, s.stack[i].pid);
    }
    assert ParentsBelow(s');
    forall i | 0 <= i < |s'.past.delivered| ensures DeliveryGood(s', s'.past.delivered[i]) {
      assert DeliveryGood(s, s.past.delivered[i]);
    }
  }

  function WithNested(s: State, reap: bool): State {
    var pid := s.nextPid;
    s.(table := s.table[pid := Record(0, Running, INVAL)], nextPid := pid + 1, stack := s.stack + [Frame(pid, false, false, reap)],
       past := s.past.(created := s.past.created[pid := 0], entered := s.past.entered + [pid]))
  }

  lemma {:induction false} NestedKeepsInv(s: State, reap: bool)
    requires Inv(s)
    ensures Inv(WithNested(s, reap))
  {
    var s', n := WithNested(s, reap), |s.stack|;
    FreshPid(s);
    PushedOnStack(s, s', Frame(s.nextPid, false, false, reap));
    forall pid ensures RecordGood(s', pid) && CreatedGood(s', pid) {
      assert RecordGood(s, pid) && CreatedGood(s, pid);
      assert InQueue(s', pid) == InQueue(s, pid);
    }
    forall j | 0 <= j < |s'.spawn| && s'.spawn[j].Some? ensures QueuedGood(s', s'.spawn[j].value) {
      assert QueuedGood(s, s.spawn[j].value) && InQueue(s, s.spawn[j].value.pid);
    }
    forall i | 0 <= i < |s'.stack| ensures FrameGood(s', i) {
      assert i < n ==> FrameGood(s, i) && OnStack(s, s.stack[i].pid);
      assert InQueue(s', s'.stack[i].pid) == InQueue(s, s'.stack[i].pid);
    }
    forall i | 0 <= i < n ensures s.stack[i].pid != s.nextPid && s.stack[i].pid in s.table && s.table[s.stack[i].pid].parent != s.nextPid {
      assert FrameGood(s, i) && RecordGood(s, s.stack[i].pid) && OnStack(s, s.stack[i].pid);
    }
    assert ParentsBelow(s');
    forall i | 0 <= i < |s'.past.delivered| ensures DeliveryGood(s', s'.past.delivered[i]) {
      assert DeliveryGood(s, s.past.delivered[i]);
    }
  }

  /** Taking a pid out of the queue. */
  lemma {:induction false} UnqueuedQueue(s: State, pid: nat)
    requires QueueGood(s)
    ensures var u := Unqueued(s.spawn, pid);
            && |u| == |s.spawn|
            && (forall k :: 0 <= k < |u| ==> u[k] == if s.spawn[k].Some? && s.spawn[k].value.pid == pid then None else s.spawn[k])
  {
    var k := First(s.spawn, IsPid(pid), 0);
    forall j | 0 <= j < |s.spawn| && j != k ensures !(s.spawn[j].Some? && s.spawn[j].value.pid == pid) {
      if j < k {
        assert !IsPid(pid)(s.spawn[j]);
      } else {
        assert IsPid(pid)(s.spawn[k]);
      }
    }
  }

  /** A running process ends: off the stack if it was on top of it, off the queue if it was in it. */
  ghost predicate Ends(s: State, s': State, pid: nat, status: Status, code: int) {
    && pid in s.table && s.table[pid].status == Running && status != Running
    && s'.table == s.table[pid := s.table[pid].(status := status, code := code)]
    && s'.past == s.past.(exits := s.past.exits[pid := code]) && s'.nextPid == s.nextPid
    && s'.spawn == Unqueued(s.spawn, pid)
    && (if OnStack(s, pid) then s.stack != [] && Top(s).pid == pid && s'.stack == s.stack[..|s.stack| - 1] else s'.stack == s.stack)
  }

  lemma {:induction false} EndsMembers(s: State, s': State, pid: nat, status: Status, code: int)
    requires Inv(s) && Ends(s, s', pid, status, code)
    ensures forall p :: OnStack(s', p) <==> OnStack(s, p) && p != pid
    ensures forall p :: InQueue(s', p) <==> InQueue(s, p) && p != pid
  {
    UnqueuedQueue(s, pid);
    forall p: nat ensures InQueue(s', p) <==> InQueue(s, p) && p != pid {
      if InQueue(s, p) && p != pid {
        var k :| 0 <= k < |s.spawn| && s.spawn[k].Some? && s.spawn[k].value.pid == p;
        assert s'.spawn[k] == s.spawn[k];
      }
    }
    forall p: nat ensures OnStack(s', p) <==> OnStack(s, p) && p != pid {
      if OnStack(s, p) && p != pid {
        var i :| 0 <= i < |s.stack| && s.stack[i].pid == p;
        assert i < |s'.stack| && s'.stack[i].pid == p;
      }
    }
  }

  lemma {:induction false} EndKeepsInv(s: State, s': State, pid: nat, status: Status, code: int)
    requires Inv(s) && Ends(s, s', pid, status, code)
    ensures Inv(s')
  {
    UnqueuedQueue(s, pid);
    EndsMembers(s, s', pid, status, code);
    assert RecordGood(s, pid);
    forall p ensures RecordGood(s', p) && CreatedGood(s', p) {
      assert RecordGood(s, p) && CreatedGood(s, p);
    }
    forall j | 0 <= j < |s'.spawn| && s'.spawn[j].Some? ensures QueuedGood(s', s'.spawn[j].value) {
      assert QueuedGood(s, s.spawn[j].value);
    }
    forall i | 0 <= i < |s'.stack| ensures FrameGood(s', i) {
      assert FrameGood(s, i) && s'.stack[i] == s.stack[i] && OnStack(s', s'.stack[i].pid);
    }
    assert ParentsBelow(s');
    forall i | 0 <= i < |s'.past.delivered| ensures DeliveryGood(s', s'.past.delivered[i]) {
      assert DeliveryGood(s, s.past.delivered[i]);
    }
  }

  /** An ended record goes away, its code handed to its parent or to nobody. */
  ghost predicate Drops(s: State, s': State, pid: nat, to: Option<nat>) {
    && pid in s.table && s.table[pid].status != Running && (to.Some? ==> to.value == s.table[pid].parent)
    && s' == (if to.Some? then Delivered(s, pid, to.value) else s.(table := s.table - {pid}))
  }

  lemma {:induction false} DropKeepsInv(s: State, s': State, pid: nat, to: Option<nat>)
    requires Inv(s) && Drops(s, s', pid, to)
    ensures Inv(s')
  {
    assert RecordGood(s, pid);
    forall p ensures RecordGood(s', p) && CreatedGood(s', p) {
      assert RecordGood(s, p) && CreatedGood(s, p);
      assert OnStack(s', p) == OnStack(s, p) && InQueue(s', p) == InQueue(s, p);
    }
    forall j | 0 <= j < |s'.spawn| && s'.spawn[j].Some? ensures QueuedGood(s', s'.spawn[j].value) {
      assert QueuedGood(s, s.spawn[j].value);
      assert OnStack(s', s.spawn[j].value.pid) == OnStack(s, s.spawn[j].value.pid);
    }
    forall i | 0 <= i < |s'.stack| ensures FrameGood(s', i) {
      assert FrameGood(s, i);
      assert InQueue(s', s.stack[i].pid) == InQueue(s, s.stack[i].pid);
    }
    assert ParentsBelow(s');
    forall i | 0 <= i < |s.past.delivered| ensures DeliveryGood(s', s.past.delivered[i]) && s.past.delivered[i].pid != pid {
      assert DeliveryGood(s, s.past.delivered[i]);
    }
  }

  // ---------------------------------------------------------------------------------------
  // Steps and runs
  // ---------------------------------------------------------------------------------------

  /** The queue entry of a pid is where the scan finds it. */
  lemma {:induction false} FoundEntry(s: State, k: nat)
    requires Inv(s) && k < |s.spawn| && s.spawn[k].Some?
    ensures First(s.spawn, IsPid(s.spawn[k].value.pid), 0) == k
  {
    var j := First(s.spawn, IsPid(s.spawn[k].value.pid), 0);
    assert IsPid(s.spawn[k].value.pid)(s.spawn[k]);
  }

  /** Entering a child that is in the queue and not on the stack, by its parent or with nobody running. */
  lemma {:induction false} EnterStepKeepsInv(s: State, k: nat, awaited: bool, load: Load)
    requires Inv(s) && k < |s.spawn| && s.spawn[k].Some? && !OnStack(s, s.spawn[k].value.pid)
    requires awaited ==> s.stack != [] && Top(s).pid == s.spawn[k].value.parent
    ensures Inv(EnterStep(s, s.spawn[k].value.pid, s.spawn[k].value.parent, awaited, load).0)
  {
    var q := s.spawn[k].value;
    assert QueuedGood(s, q);
    FoundEntry(s, k);
    var s' := EnterStep(s, q.pid, q.parent, awaited, load).0;
    if load.Runs? {
      EnterKeepsInv(s, k, awaited);
      assert s' == WithEntered(s, q, awaited);
    } else {
      var s1 := Finished(s, q.pid, Faulted, load.code).(spawn := Unqueued(s.spawn, q.pid));
      EndKeepsInv(s, s1, q.pid, Faulted, load.code);
      if awaited {
        DropKeepsInv(s1, s', q.pid, Some(q.parent));
      }
    }
  }

  /** While a process runs, none of its children does. */
  lemma {:induction false} ChildrenOfTopWait(s: State, pid: nat)
    requires Inv(s) && s.stack != [] && pid in s.table && s.table[pid].parent == Top(s).pid
    ensures !OnStack(s, pid)
  {
    forall i | 0 <= i < |s.stack| ensures s.stack[i].pid != pid {
      assert s.stack[i].pid in s.table ==> s.table[s.stack[i].pid].parent != s.stack[|s.stack| - 1].pid;
    }
  }

  /** A running child that is not being run is in the queue, under its parent. */
  lemma {:induction false} RunningChildQueued(s: State, pid: nat) returns (k: nat)
    requires Inv(s) && pid in s.table && s.table[pid].status == Running && !OnStack(s, pid)
    ensures k < |s.spawn| && s.spawn[k] == Some(Queued(pid, s.table[pid].parent))
  {
    assert RecordGood(s, pid);
    k :| 0 <= k < |s.spawn| && s.spawn[k].Some? && s.spawn[k].value.pid == pid;
    assert QueuedGood(s, s.spawn[k].value);
  }

  lemma {:induction false} SpawnKeepsInv(s: State)
    requires Inv(s) && s.stack != []
    ensures Inv(SpawnStep(s).0)
  {
    var i := |s.stack| - 1;
    assert FrameGood(s, i) && RecordGood(s, Top(s).pid) && CreatedGood(s, Top(s).pid);
    FreshPid(s);
    var k := First(s.spawn, IsFree(), 0);
    if k < |s.spawn| {
      assert IsFree()(s.spawn[k]);
      BumpKeepsInv(s);
      QueueKeepsInv(s, k, Top(s).pid);
    }
  }

  lemma {:induction false} YieldKeepsInv(s: State, load: Load)
    requires Inv(s) && s.stack != []
    ensures Inv(YieldStep(s, load).0)
  {
    var k := First(s.spawn, IsChildOf(Top(s).pid), 0);
    if k < |s.spawn| {
      assert IsChildOf(Top(s).pid)(s.spawn[k]) && QueuedGood(s, s.spawn[k].value);
      ChildrenOfTopWait(s, s.spawn[k].value.pid);
      EnterStepKeepsInv(s, k, false, load);
    }
  }

  lemma {:induction false} PollKeepsInv(s: State, load: Load)
    requires Inv(s)
    ensures Inv(PollStep(s, load).0)
  {
    var k := First(s.spawn, IsAny(), 0);
    if k < |s.spawn| && s.stack == [] {
      assert IsAny()(s.spawn[k]);
      EnterStepKeepsInv(s, k, false, load);
    }
  }

  lemma {:induction false} WaitKeepsInv(s: State, target: nat, nohang: bool, load: Load)
    requires Inv(s) && s.stack != []
    ensures Inv(WaitStep(s, target, nohang, load).0)
  {
    var pid, caller := if target == 0 then Top(s).pid else target, Top(s).pid;
    if pid in s.table && s.table[pid].parent == caller {
      ChildrenOfTopWait(s, pid);
      if s.table[pid].status == Running && !nohang {
        var k := RunningChildQueued(s, pid);
        EnterStepKeepsInv(s, k, true, load);
      } else if s.table[pid].status != Running {
        DropKeepsInv(s, Delivered(s, pid, caller), pid, Some(caller));
      }
    }
  }

  lemma {:induction false} NotQueuedUnchanged(s: State, pid: nat)
    requires Inv(s) && !InQueue(s, pid)
    ensures Unqueued(s.spawn, pid) == s.spawn
  {
    forall k | 0 <= k < |s.spawn| ensures !IsPid(pid)(s.spawn[k]) {
    }
  }

  lemma {:induction false} ExitKeepsInv(s: State, status: Status, code: int)
    requires Inv(s) && s.stack != [] && Top(s).pid in s.table && status != Running
    ensures Inv(ExitStep(s, status, code).0)
  {
    var n, f := |s.stack| - 1, Top(s);
    assert FrameGood(s, n) && OnStack(s, f.pid);
    var s1 := Finished(s, f.pid, status, code).(stack := s.stack[..n], spawn := Unqueued(s.spawn, f.pid));
    if !f.queued {
      NotQueuedUnchanged(s, f.pid);
    }
    EndKeepsInv(s, s1, f.pid, status, code);
    var s' := ExitStep(s, status, code).0;
    if f.awaited {
      assert Top(s1) == s.stack[n - 1];
      DropKeepsInv(s1, s', f.pid, Some(Top(s1).pid));
    } else if !f.queued && f.reap {
      DropKeepsInv(s1, s', f.pid, None);
    }
  }

  lemma {:induction false} StepKeepsInv(s: State, e: Event)
    requires Inv(s) && Enabled(s, e)
    ensures Inv(Step(s, e).0)
  {
    match e
    case Spawn => SpawnKeepsInv(s);
    case Yield(load) => YieldKeepsInv(s, load);
    case Poll(load) => PollKeepsInv(s, load);
    case Wait(target, nohang, load) => WaitKeepsInv(s, target, nohang, load);
    case Nested(load, reap) =>
      FreshPid(s);
      NestedKeepsInv(s, reap);
    case Exit(status, code) => ExitKeepsInv(s, status, code);
  }

  ghost predicate Legal(s: State, run: seq<Event>)
    decreases |run|
  {
    run != [] ==> Enabled(s, run[0]) && Legal(Step(s, run[0]).0, run[1..])
  }

  ghost function Final(s: State, run: seq<Event>): State
    requires Legal(s, run)
    decreases |run|
  {
    if run == [] then s else Final(Step(s, run[0]).0, run[1..])
  }

  lemma {:induction false} RunKeepsInv(s: State, run: seq<Event>)
    requires Inv(s) && Legal(s, run)
    ensures Inv(Final(s, run))
    decreases |run|
  {
    if run != [] {
      StepKeepsInv(s, run[0]);
      RunKeepsInv(Step(s, run[0]).0, run[1..]);
    }
  }

  /**
   * Every run: no process is entered twice, every queued child has a running record, and each code was handed out at
   * most once, to the parent of the process that ended with it.
   */
  lemma {:induction false} EveryRun(run: seq<Event>)
    requires Legal(Initial(), run)
    ensures var s := Final(Initial(), run);
            && NoDuplicates(s.past.entered)
            && (forall k :: 0 <= k < |s.spawn| && s.spawn[k].Some? ==>
                  s.spawn[k].value.pid in s.table && s.table[s.spawn[k].value.pid].status == Running)
            && (forall i :: 0 <= i < |s.past.delivered| ==> DeliveryGood(s, s.past.delivered[i]))
            && (forall i, j :: 0 <= i < j < |s.past.delivered| ==> s.past.delivered[i].pid != s.past.delivered[j].pid)
  {
    InitialInv();
    RunKeepsInv(Initial(), run);
    var s := Final(Initial(), run);
    forall k | 0 <= k < |s.spawn| && s.spawn[k].Some? ensures QueuedGood(s, s.spawn[k].value) {
    }
  }

  /** A step that gives out a pid gives out one that no process ever had, and the record of who created whom only grows. */
  lemma {:induction false} PidsNeverReused(s: State, e: Event)
    requires Inv(s) && Enabled(s, e)
    ensures var c, c' := s.past.created, Step(s, e).0.past.created;
            && (forall pid :: pid in c ==> pid in c' && c'[pid] == c[pid])
            && (forall pid :: pid in c' && pid !in c ==> pid == s.nextPid < Step(s, e).0.nextPid)
    ensures e.Spawn? && Step(s, e).1 > 0 ==> Step(s, e).1 == s.nextPid && s.nextPid !in s.past.created
  {
    FreshPid(s);
  }

  /** A process that ended stays ended with that code. */
  lemma {:induction false} CodesNeverChange(s: State, e: Event, pid: nat)
    requires Inv(s) && Enabled(s, e) && pid in s.past.exits
    ensures pid in Step(s, e).0.past.exits && Step(s, e).0.past.exits[pid] == s.past.exits[pid]
  {
    assert RecordGood(s, pid);
    if e.Exit? {
      assert FrameGood(s, |s.stack| - 1) && RecordGood(s, Top(s).pid);
    }
    forall k | 0 <= k < |s.spawn| && s.spawn[k].Some? ensures s.spawn[k].value.pid != pid {
      assert QueuedGood(s, s.spawn[k].value) && RecordGood(s, s.spawn[k].value.pid);
    }
  }

  // ---------------------------------------------------------------------------------------
  // The tables
  // ---------------------------------------------------------------------------------------

  class UserProcesses {
    var table: map<nat, Record>
    var spawn: seq<Option<Queued>>
    var nextPid: nat
    var stack: seq<Frame>   // the processes whose run is in progress, each nested in the one below
    ghost var past: History

    ghost function Now(): State
      reads this
    {
      State(table, spawn, nextPid, stack, past)
    }

    constructor ()
      ensures Now() == Initial() && Inv(Now())
    {
      table, spawn, nextPid, stack, past := map[], seq(SPAWN_MAX, _ => None), 5000, [], History(map[], [], map[], []);
      new;
      InitialInv();
    }

    method ClearEntry(pid: nat)
      modifies this`spawn
      ensures spawn == Unqueued(old(spawn), pid)
    {
      var k := Scan(spawn, IsPid(pid));
      if k < |spawn| {
        spawn := spawn[k := None];
      }
    }

    method Finish(pid: nat, status: Status, code: int)
      requires pid in table
      modifies this`table, this`past
      ensures Now() == Finished(old(Now()), pid, status, code)
    {
      table := table[pid := table[pid].(status := status, code := code)];
      past := past.(exits := past.exits[pid := code]);
    }

    /** The exit code goes to the waiter and the record goes away. */
    method Reap(pid: nat, to: nat) returns (code: int)
      requires pid in table
      modifies this`table, this`past
      ensures Now() == Delivered(old(Now()), pid, to) && code == old(table)[pid].code
    {
      code := table[pid].code;
      past := past.(delivered := past.delivered + [Delivery(pid, to, code)]);
      table := table - {pid};
    }

    /** Queues a child of the running process (k64_usermode.c:927-943). */
    method Spawn() returns (result: int)
      requires Inv(Now()) && stack != []
      modifies this
      ensures Inv(Now()) && (Now(), result) == Step(old(Now()), Event.Spawn)
    {
      SpawnKeepsInv(Now());
      var k := Scan(spawn, IsFree());
      if k == |spawn| {
        return FULL;
      }
      var pid, parent := nextPid, stack[|stack| - 1].pid;
      nextPid := nextPid + 1;
      if pid !in table && |table| >= PROCESS_MAX {
        return FULL;
      }
      spawn := spawn[k := Some(Queued(pid, parent))];
      table := table[pid := Record(parent, Running, INVAL)];
      past := past.(created := past.created[pid := parent]);
      result := pid;
    }

    /** Runs a queued child up to its entry, or ends it when it does not load (k64_usermode.c:966-1004). */
    method RunReservedChild(pid: nat, parent: nat, awaited: bool, load: Load) returns (result: int)
      modifies this
      ensures (Now(), result) == EnterStep(old(Now()), pid, parent, awaited, load)
    {
      var k := Scan(spawn, IsPid(pid));
      if k == |spawn| || spawn[k].value.parent != parent {
        return AGAIN;
      }
      if load.Runs? {
        if pid !in table && |table| >= PROCESS_MAX {
          return AGAIN;
        }
        table := table[pid := Record(parent, Running, INVAL)];
        stack := stack + [Frame(pid, true, awaited, false)];
        past := past.(entered := past.entered + [pid]);
        return OK;
      }
      if pid !in table {
        ClearEntry(pid);
        return NOENT;
      }
      if table[pid].status == Running {
        Finish(pid, Faulted, load.code);
      }
      ClearEntry(pid);
      if awaited {
        var _ := Reap(pid, parent);
      }
      return OK;
    }

    /** sched.yield and sched.sleep run one queued child of the caller first (k64_usermode.c:1006-1029, 1185-1198). */
    method Yield(load: Load)
      requires Inv(Now()) && stack != []
      modifies this
      ensures Inv(Now()) && Now() == Step(old(Now()), Event.Yield(load)).0
    {
      YieldKeepsInv(Now(), load);
      var k := Scan(spawn, IsChildOf(stack[|stack| - 1].pid));
      if k < |spawn| {
        var _ := RunReservedChild(spawn[k].value.pid, spawn[k].value.parent, false, load);
      }
    }

    /** The background poll runs one queued child when no process is running (k64_usermode.c:1031-1036). */
    method Poll(load: Load)
      requires Inv(Now())
      modifies this
      ensures Inv(Now()) && Now() == Step(old(Now()), Event.Poll(load)).0
    {
      PollKeepsInv(Now(), load);
      if stack != [] {
        return;
      }
      var k := Scan(spawn, IsAny());
      if k < |spawn| {
        var _ := RunReservedChild(spawn[k].value.pid, spawn[k].value.parent, false, load);
      }
    }

    /** proc.wait (k64_usermode.c:665-706); a blocking wait that runs the child gets its code when the child exits. */
    method Wait(target: nat, nohang: bool, load: Load) returns (result: int)
      requires Inv(Now()) && stack != []
      modifies this
      ensures Inv(Now()) && (Now(), result) == Step(old(Now()), Event.Wait(target, nohang, load))
    {
      WaitKeepsInv(Now(), target, nohang, load);
      var caller := stack[|stack| - 1].pid;
      var pid := if target == 0 then caller else target;
      if pid !in table {
        return NOENT;
      }
      if table[pid].parent != caller {
        return NOTCHILD;
      }
      if table[pid].status == Running {
        if nohang {
          return AGAIN;
        }
        result := RunReservedChild(pid, caller, true, load);
        return;
      }
      var _ := Reap(pid, caller);
      return OK;
    }

    /** A program run from the shell or as a service, in a process of its own (k64_usermode.c:1038-1060, 3158-3199). */
    method Nested(load: Load, reap: bool) returns (result: int)
      requires Inv(Now())
      modifies this
      ensures Inv(Now()) && (Now(), result) == Step(old(Now()), Event.Nested(load, reap))
    {
      StepKeepsInv(Now(), Event.Nested(load, reap));
      if load.Fails? {
        return NOENT;
      }
      if |table| >= PROCESS_MAX {
        return FULL;
      }
      var pid := nextPid;
      nextPid := nextPid + 1;
      table := table[pid := Record(0, Running, INVAL)];
      stack := stack + [Frame(pid, false, false, reap)];
      past := past.(created := past.created[pid := 0], entered := past.entered + [pid]);
      return OK;
    }

    /** The running process exits or faults, and its runner goes on where it left off. */
    method Exit(status: Status, code: int) returns (result: int)
      requires Inv(Now()) && stack != [] && status != Running
      modifies this
      ensures Inv(Now()) && old(Enabled(Now(), Event.Exit(status, code)))
      ensures (Now(), result) == Step(old(Now()), Event.Exit(status, code))
    {
      assert FrameGood(Now(), |stack| - 1);
      ExitKeepsInv(Now(), status, code);
      Leave(status, code);
      return OK;
    }

    method Leave(status: Status, code: int)
      requires stack != [] && Top(Now()).pid in table
      modifies this
      ensures Now() == ExitStep(old(Now()), status, code).0
    {
      var n := |stack| - 1;
      var f := stack[n];
      Finish(f.pid, status, code);
      stack := stack[..n];
      if f.queued {
        ClearEntry(f.pid);
        if f.awaited && stack != [] {
          var _ := Reap(f.pid, stack[n - 1].pid);
        }
      } else if f.reap {
        table := table - {f.pid};
      }
    }
  }
}
