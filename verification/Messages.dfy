/** Service calls answered by user processes through message slots (k64_system.c:290-398, 1744-1828). */
module Messages {
  import opened Blocks
  import opened Scanning

  const SLOTS: nat := 8
  const DATA_MAX: nat := 65400
  const HEADER_SIZE: nat := 112
  const ID_LIMIT: nat := 0x1_0000_0000_0000_0000

  const OK: int := 0
  const INVAL: int := -1
  const NOENT: int := -2
  const ACCESS: int := -3
  const AGAIN: int := -6
  const OVERFLOW: int := -9
  const BUSY: int := -13

  datatype Phase = Empty | Pending | Active | Done

  /** What a caller sends. */
  datatype Request = Request(caller: nat, uid: nat, flags: nat, service: string, name: string, data: seq<Byte>)

  datatype Slot = Slot(phase: Phase, id: nat, request: Request, server: nat, capacity: nat, status: int, response: seq<Byte>)

  const NO_REQUEST: Request := Request(0, 0, 0, "", "", [])
  const CLEAR: Slot := Slot(Empty, 0, NO_REQUEST, 0, 0, BUSY, [])

  /** A reply that was accepted. */
  datatype Reply = Reply(pid: nat, id: nat, status: int, data: seq<Byte>)

  /**
   * A dispatch that waits for the nested run of its service: its slot and output size, and for the record the id it
   * was given, what it asked, every process that received it and every reply to it that was accepted, in order.
   */
  datatype Dispatch = Dispatch(slot: nat, outLen: nat, id: nat, request: Request, receivers: seq<nat>, replies: seq<Reply>)

  /** A dispatch that has returned: whether its service ran, and what its caller got. */
  datatype Ended = Ended(dispatch: Dispatch, ran: bool, outcome: Outcome)

  /** The slots, the counter and the suspended callers; `past` records the dispatches that have returned. */
  datatype State = State(slots: seq<Slot>, nextId: nat, stack: seq<Dispatch>, past: seq<Ended>)

  /** What the four kinds of step are called with. */
  datatype Event =
    | Call(request: Request, outLen: nat, hasEntry: bool)
    | Receive(pid: nat, service: string, outLen: nat, named: bool, running: bool, host: bool)
    | Answer(pid: nat, id: nat, status: int, len: nat, payload: seq<Byte>)
    | Return(ran: bool)

  /** What a service process gets with a request. */
  datatype Message = Message(id: nat, request: Request, capacity: nat)

  /** What a step gives back: a status, the bytes of a finished call, the message of a reception. */
  datatype Outcome = Outcome(status: int, data: seq<Byte>, message: Option<Message>)

  function Only(status: int): Outcome { Outcome(status, [], None) }

  // ---------------------------------------------------------------------------------------
  // Scanning the slots
  // ---------------------------------------------------------------------------------------

  type Test = Slot -> bool

  function IsEmpty(): Test { (s: Slot) => s.phase == Empty }
  function IsPendingFor(service: string): Test { (s: Slot) => s.phase == Pending && s.request.service == service }
  function IsLive(id: nat): Test { (s: Slot) => s.phase != Empty && s.id == id }

  // ---------------------------------------------------------------------------------------
  // Steps
  // ---------------------------------------------------------------------------------------

  function NextId(id: nat): nat { if id + 1 == ID_LIMIT then 1 else id + 1 }

  function Capacity(outLen: nat): nat { if outLen < DATA_MAX then outLen else DATA_MAX }

  /** The waiting dispatches, with more receivers and replies noted for the one on this slot. */
  function Noted(stack: seq<Dispatch>, slot: nat, receivers: seq<nat>, replies: seq<Reply>): (r: seq<Dispatch>)
    ensures |r| == |stack|
    ensures forall i :: 0 <= i < |stack| ==> r[i] == if stack[i].slot == slot then NotedOne(stack[i], receivers, replies) else stack[i]
  {
    if stack == [] then []
    else [if stack[0].slot == slot then NotedOne(stack[0], receivers, replies) else stack[0]] + Noted(stack[1..], slot, receivers, replies)
  }

  function NotedOne(d: Dispatch, receivers: seq<nat>, replies: seq<Reply>): Dispatch {
    d.(receivers := d.receivers + receivers, replies := d.replies + replies)
  }

  function CallStep(s: State, e: Event): (State, Outcome)
    requires e.Call?
  {
    if |e.request.data| > DATA_MAX then (s, Only(INVAL))
    else if !e.hasEntry then (s, Only(NOENT))
    else
      var k := First(s.slots, IsEmpty(), 0);
      if k == |s.slots| then (s, Only(BUSY))
      else
        var slot := Slot(Pending, s.nextId, e.request, 0, Capacity(e.outLen), BUSY, []);
        (s.(slots := s.slots[k := slot], nextId := NextId(s.nextId), stack := s.stack + [Dispatch(k, e.outLen, s.nextId, e.request, [], [])]),
         Only(OK))
  }

  function ReceiveStep(s: State, e: Event): (State, Outcome)
    requires e.Receive?
  {
    if !e.named || e.outLen < HEADER_SIZE then (s, Only(INVAL))
    else if !e.running then (s, Only(NOENT))
    else if !e.host then (s, Only(ACCESS))
    else
      var k := First(s.slots, IsPendingFor(e.service), 0);
      if k == |s.slots| then (s, Only(AGAIN))
      else
        (s.(slots := s.slots[k := s.slots[k].(phase := Active, server := e.pid)], stack := Noted(s.stack, k, [e.pid], [])),
         Outcome(OK, [], Some(Message(s.slots[k].id, s.slots[k].request, s.slots[k].capacity))))
  }

  /** The slot after an accepted reply. */
  function Filled(slot: Slot, r: Reply): Slot {
    if |r.data| > slot.capacity then slot.(phase := Done, status := OVERFLOW, response := [])
    else slot.(phase := Done, status := r.status, response := r.data)
  }

  function AnswerStep(s: State, e: Event): (State, Outcome)
    requires e.Answer?
  {
    if e.len > DATA_MAX || e.len > |e.payload| then (s, Only(OVERFLOW))
    else
      var k := if e.id == 0 then |s.slots| else First(s.slots, IsLive(e.id), 0);
      if k == |s.slots| || s.slots[k].phase != Active then (s, Only(NOENT))
      else if s.slots[k].server != e.pid then (s, Only(ACCESS))
      else
        var reply := Reply(e.pid, e.id, e.status, e.payload[..e.len]);
        (s.(slots := s.slots[k := Filled(s.slots[k], reply)],
            stack := Noted(s.stack, k, [], [reply])),
         Only(OK))
  }

  /** What the caller of a dispatch on this slot gets after the nested run. */
  function Returned(slot: Slot, outLen: nat, ran: bool): Outcome {
    if !ran || slot.phase != Done then Only(BUSY)
    else if slot.status >= 0 && |slot.response| > outLen then Only(OVERFLOW)
    else Outcome(slot.status, if slot.status >= 0 then slot.response else [], None)
  }

  /** The innermost dispatch continues after its nested run. */
  function ReturnStep(s: State, e: Event): (State, Outcome)
    requires e.Return? && s.stack != [] && s.stack[|s.stack| - 1].slot < |s.slots|
  {
    var d := s.stack[|s.stack| - 1];
    var outcome := Returned(s.slots[d.slot], d.outLen, e.ran);
    (s.(slots := s.slots[d.slot := CLEAR], stack := s.stack[..|s.stack| - 1], past := s.past + [Ended(d, e.ran, outcome)]), outcome)
  }

  predicate Enabled(s: State, e: Event) {
    e.Return? ==> s.stack != [] && s.stack[|s.stack| - 1].slot < |s.slots|
  }

  function Step(s: State, e: Event): (State, Outcome)
    requires Enabled(s, e)
  {
    match e
    case Call(_, _, _) => CallStep(s, e)
    case Receive(_, _, _, _, _, _) => ReceiveStep(s, e)
    case Answer(_, _, _, _, _) => AnswerStep(s, e)
    case Return(_) => ReturnStep(s, e)
  }

  function Initial(): State { State(seq(SLOTS, _ => CLEAR), 1, [], []) }

  // ---------------------------------------------------------------------------------------
  // Slots and dispatches match one to one
  // ---------------------------------------------------------------------------------------

  /** A dispatch and its slot tell the same story. */
  predicate Agrees(slot: Slot, d: Dispatch) {
    && slot.phase != Empty && slot.id == d.id && slot.request == d.request && slot.capacity == Capacity(d.outLen)
    && |slot.response| <= slot.capacity
    && (slot.phase == Pending ==> d.receivers == [] && d.replies == [])
    && (slot.phase == Active ==> d.receivers == [slot.server] && d.replies == [])
    && (slot.phase == Done ==>
      && Answered(d)
      && var r := d.replies[0];
         if |r.data| <= d.outLen && |r.data| <= DATA_MAX then slot.status == r.status && slot.response == r.data
         else slot.status == OVERFLOW && slot.response == [])
  }

  /** One process received the request and it alone replied, once, to its id. */
  predicate Answered(d: Dispatch) {
    |d.replies| == 1 && d.receivers == [d.replies[0].pid] && d.replies[0].id == d.id
  }

  /**
   * What a caller is owed: the status of the reply it was given, with the bytes of the reply unless it is an error; an
   * overflow when the bytes exceed the caller's buffer; that the service is busy when there was no reply.
   */
  predicate Owed(d: Dispatch, ran: bool, o: Outcome) {
    && o.message == None
    && (!ran || d.replies == [] ==> o.status == BUSY && o.data == [])
    && (ran && d.replies != [] ==>
      var r := d.replies[0];
      if |r.data| <= d.outLen && |r.data| <= DATA_MAX then o.status == r.status && o.data == (if r.status >= 0 then r.data else [])
      else o.status == OVERFLOW && o.data == [])
  }

  /** A returned dispatch was received and answered at most once, and its caller got what it was owed. */
  predicate WellEnded(e: Ended) {
    && |e.dispatch.receivers| <= 1 && (e.dispatch.replies != [] ==> Answered(e.dispatch))
    && Owed(e.dispatch, e.ran, e.outcome)
  }

  ghost predicate Inv(s: State) {
    && |s.slots| == SLOTS && 0 < s.nextId < ID_LIMIT
    && (forall i :: 0 <= i < |s.stack| ==> Matched(s, s.stack[i]))
    && (forall i, j :: 0 <= i < j < |s.stack| ==> s.stack[i].slot != s.stack[j].slot)
    && (forall k :: HeldIfUsed(s, k))
    && (forall i :: 0 <= i < |s.past| ==> WellEnded(s.past[i]))
  }

  ghost predicate Matched(s: State, d: Dispatch) { d.slot < |s.slots| && Agrees(s.slots[d.slot], d) }

  ghost predicate HeldIfUsed(s: State, k: nat) { k < |s.slots| && s.slots[k].phase != Empty ==> k in Held(s.stack) }

  function Held(stack: seq<Dispatch>): set<nat> { set i | 0 <= i < |stack| :: stack[i].slot }

  lemma InitialInv()
    ensures Inv(Initial())
  {
  }

  lemma {:induction false} HeldMore(stack: seq<Dispatch>, d: Dispatch)
    ensures Held(stack + [d]) == Held(stack) + {d.slot}
  {
    var more := stack + [d];
    forall k ensures k in Held(more) <==> k in Held(stack) + {d.slot} {
      if k in Held(stack) {
        var i :| 0 <= i < |stack| && stack[i].slot == k;
        assert more[i].slot == k;
      }
      if k == d.slot {
        assert more[|stack|].slot == k;
      }
    }
  }

  lemma {:induction false} CallKeepsInv(s: State, e: Event)
    requires Inv(s) && e.Call?
    ensures Inv(CallStep(s, e).0)
  {
    var s' := CallStep(s, e).0;
    if s' != s {
      var n, k := |s.stack|, First(s.slots, IsEmpty(), 0);
      HeldMore(s.stack, s'.stack[n]);
      forall i | 0 <= i < |s'.stack| ensures Matched(s', s'.stack[i]) && (i < n ==> s'.stack[i].slot != k) {
        assert i < n ==> Matched(s, s.stack[i]);
      }
      forall k' ensures HeldIfUsed(s', k') {
        assert HeldIfUsed(s, k');
      }
    }
  }

  lemma {:induction false} NotedHeld(stack: seq<Dispatch>, slot: nat, receivers: seq<nat>, replies: seq<Reply>)
    ensures Held(Noted(stack, slot, receivers, replies)) == Held(stack)
  {
    var u := Noted(stack, slot, receivers, replies);
    assert forall i :: 0 <= i < |stack| ==> u[i].slot == stack[i].slot;
  }

  /** One slot in use moves on, and its dispatch with it. */
  lemma {:induction false} MoveKeepsInv(s: State, k: nat, slot: Slot, receivers: seq<nat>, replies: seq<Reply>)
    requires Inv(s) && k < SLOTS && s.slots[k].phase != Empty
    requires forall i :: 0 <= i < |s.stack| && s.stack[i].slot == k ==>
               Agrees(slot, NotedOne(s.stack[i], receivers, replies))
    ensures Inv(s.(slots := s.slots[k := slot], stack := Noted(s.stack, k, receivers, replies)))
  {
    var s' := s.(slots := s.slots[k := slot], stack := Noted(s.stack, k, receivers, replies));
    NotedHeld(s.stack, k, receivers, replies);
    forall i | 0 <= i < |s'.stack| ensures Matched(s', s'.stack[i]) {
      assert Matched(s, s.stack[i]);
    }
    forall k' ensures HeldIfUsed(s', k') {
      assert HeldIfUsed(s, k');
    }
  }

  lemma {:induction false} ReceiveKeepsInv(s: State, e: Event)
    requires Inv(s) && e.Receive?
    ensures Inv(ReceiveStep(s, e).0)
  {
    var k := First(s.slots, IsPendingFor(e.service), 0);
    if ReceiveStep(s, e).0 != s {
      var slot := s.slots[k].(phase := Active, server := e.pid);
      forall i | 0 <= i < |s.stack| && s.stack[i].slot == k ensures Agrees(slot, NotedOne(s.stack[i], [e.pid], [])) {
        assert Matched(s, s.stack[i]);
      }
      MoveKeepsInv(s, k, slot, [e.pid], []);
    }
  }

  lemma {:induction false} AnswerKeepsInv(s: State, e: Event)
    requires Inv(s) && e.Answer?
    ensures Inv(AnswerStep(s, e).0)
  {
    var k := First(s.slots, IsLive(e.id), 0);
    if AnswerStep(s, e).0 != s {
      var reply := Reply(e.pid, e.id, e.status, e.payload[..e.len]);
      var slot := Filled(s.slots[k], reply);
      forall i | 0 <= i < |s.stack| && s.stack[i].slot == k ensures Agrees(slot, NotedOne(s.stack[i], [], [reply])) {
        assert Matched(s, s.stack[i]);
      }
      MoveKeepsInv(s, k, slot, [], [reply]);
    }
  }

  lemma {:induction false} ReturnKeepsInv(s: State, e: Event)
    requires Inv(s) && e.Return? && Enabled(s, e)
    ensures Inv(ReturnStep(s, e).0)
  {
    var n := |s.stack| - 1;
    assert Held(s.stack) == Held(s.stack[..n]) + {s.stack[n].slot};
    var s' := ReturnStep(s, e).0;
    assert Matched(s, s.stack[n]);
    assert WellEnded(s'.past[|s.past|]);
    forall i | 0 <= i < |s'.stack| ensures Matched(s', s'.stack[i]) {
      assert Matched(s, s.stack[i]);
    }
    forall k ensures HeldIfUsed(s', k) {
      assert HeldIfUsed(s, k);
    }
  }

  lemma {:induction false} StepKeepsInv(s: State, e: Event)
    requires Inv(s) && Enabled(s, e)
    ensures Inv(Step(s, e).0)
  {
    match e
    case Call(_, _, _) => CallKeepsInv(s, e);
    case Receive(_, _, _, _, _, _) => ReceiveKeepsInv(s, e);
    case Answer(_, _, _, _, _) => AnswerKeepsInv(s, e);
    case Return(_) => ReturnKeepsInv(s, e);
  }

  /** The end of a call: its log holds at most one receiver and one reply, and the caller gets that reply or busy. */
  lemma {:induction false} DoneReturnsTheReply(s: State, e: Event)
    requires Inv(s) && e.Return? && Enabled(s, e)
    ensures var d := s.stack[|s.stack| - 1];
            && Owed(d, e.ran, ReturnStep(s, e).1)
            && (s.slots[d.slot].phase == Done <==> d.replies != [])
            && (d.replies != [] ==> Answered(d)) && |d.receivers| <= 1
  {
    assert Matched(s, s.stack[|s.stack| - 1]);
  }

  /** Exactly one waiting dispatch has this entry more in its log. */
  ghost predicate OneNoted(before: seq<Dispatch>, after: seq<Dispatch>, receivers: seq<nat>, replies: seq<Reply>) {
    exists i :: 0 <= i < |before| && after == before[i := NotedOne(before[i], receivers, replies)]
  }

  lemma {:induction false} NotedAt(stack: seq<Dispatch>, i: nat, receivers: seq<nat>, replies: seq<Reply>)
    requires i < |stack| && forall j :: 0 <= j < |stack| && j != i ==> stack[j].slot != stack[i].slot
    ensures Noted(stack, stack[i].slot, receivers, replies) == stack[i := NotedOne(stack[i], receivers, replies)]
  {
  }

  lemma {:induction false} NotedIsOne(s: State, k: nat, receivers: seq<nat>, replies: seq<Reply>)
    requires Inv(s) && k < SLOTS && s.slots[k].phase != Empty
    ensures OneNoted(s.stack, Noted(s.stack, k, receivers, replies), receivers, replies)
  {
    assert HeldIfUsed(s, k);
    var i :| 0 <= i < |s.stack| && s.stack[i].slot == k;
    NotedAt(s.stack, i, receivers, replies);
  }

  /** The logs miss nothing: every accepted reception is noted for exactly one waiting dispatch ... */
  lemma {:induction false} ReceptionIsNoted(s: State, e: Event)
    requires Inv(s) && e.Receive? && ReceiveStep(s, e).1.status == OK
    ensures OneNoted(s.stack, ReceiveStep(s, e).0.stack, [e.pid], []) && ReceiveStep(s, e).0.past == s.past
  {
    NotedIsOne(s, First(s.slots, IsPendingFor(e.service), 0), [e.pid], []);
  }

  /** ... and so is every accepted reply. */
  lemma {:induction false} ReplyIsNoted(s: State, e: Event)
    requires Inv(s) && e.Answer? && AnswerStep(s, e).1.status == OK
    ensures e.len <= |e.payload| && AnswerStep(s, e).0.past == s.past
    ensures OneNoted(s.stack, AnswerStep(s, e).0.stack, [], [Reply(e.pid, e.id, e.status, e.payload[..e.len])])
  {
    NotedIsOne(s, First(s.slots, IsLive(e.id), 0), [], [Reply(e.pid, e.id, e.status, e.payload[..e.len])]);
  }

  /** The response never exceeds the caller's buffer, so the check before the copy never fires. */
  lemma {:induction false} NoOverflowOnReturn(s: State, i: nat)
    requires Inv(s) && i < |s.stack|
    ensures Matched(s, s.stack[i]) && |s.slots[s.stack[i].slot].response| <= s.stack[i].outLen
  {
    assert Matched(s, s.stack[i]);
  }

  lemma {:induction false} HeldSize(stack: seq<Dispatch>)
    requires forall i, j :: 0 <= i < j < |stack| ==> stack[i].slot != stack[j].slot
    ensures |Held(stack)| == |stack|
  {
    if stack != [] {
      var n := |stack| - 1;
      HeldSize(stack[..n]);
      assert Held(stack) == Held(stack[..n]) + {stack[n].slot};
    }
  }

  lemma {:induction false} BelowSize(s: set<nat>, n: nat)
    requires forall k :: k in s ==> k < n
    ensures |s| <= n && (|s| == n <==> forall k :: 0 <= k < n ==> k in s)
    decreases n
  {
    if n > 0 {
      var rest := s - {n - 1};
      BelowSize(rest, n - 1);
      assert |s| == |rest| + if n - 1 in s then 1 else 0 by {
        if n - 1 !in s {
          assert rest == s;
        }
      }
      if |s| == n {
        forall k | 0 <= k < n ensures k in s {
          assert k < n - 1 ==> k in rest;
        }
      }
      if forall k :: 0 <= k < n ==> k in s {
        assert forall k :: 0 <= k < n - 1 ==> k in rest;
      }
    } else {
      assert s == {};
    }
  }

  /** A well-formed call is refused as busy exactly when eight dispatches are in progress. */
  lemma {:induction false} BusyIffEight(s: State, e: Event)
    requires Inv(s) && e.Call? && |e.request.data| <= DATA_MAX && e.hasEntry
    ensures CallStep(s, e).1.status == BUSY <==> |s.stack| == SLOTS
    ensures |s.stack| <= SLOTS
  {
    HeldSize(s.stack);
    var k := First(s.slots, IsEmpty(), 0);
    forall i | 0 <= i < |s.stack| ensures s.stack[i].slot < SLOTS && s.slots[s.stack[i].slot].phase != Empty {
      assert Matched(s, s.stack[i]);
    }
    forall j | 0 <= j < SLOTS && s.slots[j].phase != Empty ensures j in Held(s.stack) {
      assert HeldIfUsed(s, j);
    }
    BelowSize(Held(s.stack), SLOTS);
    if k < SLOTS {
      assert IsEmpty()(s.slots[k]);
      assert k !in Held(s.stack);
    } else {
      forall j | 0 <= j < SLOTS ensures j in Held(s.stack) {
        assert !IsEmpty()(s.slots[j]);
      }
    }
  }

  // ---------------------------------------------------------------------------------------
  // Request ids
  // ---------------------------------------------------------------------------------------

  ghost predicate DistinctIds(s: State) {
    forall i, j :: 0 <= i < j < |s.slots| && s.slots[i].phase != Empty && s.slots[j].phase != Empty ==> s.slots[i].id != s.slots[j].id
  }

  /** No slot comes into use and none changes its id. */
  ghost predicate IdsShrink(a: seq<Slot>, b: seq<Slot>) {
    |b| == |a| && forall i :: 0 <= i < |b| && b[i].phase != Empty ==> a[i].phase != Empty && a[i].id == b[i].id
  }

  lemma {:induction false} OthersShrinkIds(s: State, e: Event)
    requires Inv(s) && Enabled(s, e) && !(e.Call? && CallStep(s, e).0 != s)
    ensures IdsShrink(s.slots, Step(s, e).0.slots) && Step(s, e).0.nextId == s.nextId
  {
    match e
    case Call(_, _, _) =>
    case Receive(_, _, _, _, _, _) => ReceiveShrinksIds(s, e);
    case Answer(_, _, _, _, _) => AnswerShrinksIds(s, e);
    case Return(_) => assert IdsShrink(s.slots, ReturnStep(s, e).0.slots);
  }

  lemma {:induction false} ReceiveShrinksIds(s: State, e: Event)
    requires e.Receive?
    ensures IdsShrink(s.slots, ReceiveStep(s, e).0.slots) && ReceiveStep(s, e).0.nextId == s.nextId
  {
  }

  lemma {:induction false} AnswerShrinksIds(s: State, e: Event)
    requires e.Answer?
    ensures IdsShrink(s.slots, AnswerStep(s, e).0.slots) && AnswerStep(s, e).0.nextId == s.nextId
  {
  }

  /** Ids stay distinct across a step except, exactly, when a call is given the id of a live slot. */
  lemma {:induction false} DistinctIdsKept(s: State, e: Event)
    requires Inv(s) && Enabled(s, e) && DistinctIds(s)
    ensures DistinctIds(Step(s, e).0) <==>
              !(e.Call? && CallStep(s, e).0 != s && First(s.slots, IsLive(s.nextId), 0) < |s.slots|)
  {
    if e.Call? && CallStep(s, e).0 != s {
      NewIdDistinct(s.slots, First(s.slots, IsEmpty(), 0), CallStep(s, e).0.slots, s.nextId);
    } else {
      OthersShrinkIds(s, e);
    }
  }

  lemma {:induction false} NewIdDistinct(a: seq<Slot>, k: nat, b: seq<Slot>, id: nat)
    requires k < |a| == |b| && a[k].phase == Empty && b == a[k := b[k]] && b[k].phase != Empty && b[k].id == id
    requires DistinctIds(State(a, 0, [], []))
    ensures DistinctIds(State(b, 0, [], [])) <==> First(a, IsLive(id), 0) == |a|
  {
    var j := First(a, IsLive(id), 0);
    if j < |a| {
      assert b[j].id == b[k].id && j != k;
    } else {
      assert forall i :: 0 <= i < |a| && a[i].phase != Empty ==> a[i].id != id by {
        assert forall i :: 0 <= i < |a| ==> !IsLive(id)(a[i]);
      }
    }
  }

  function Accepted(s: State, e: Event): nat
    requires Enabled(s, e)
  {
    if e.Call? && Step(s, e).1.status == OK then 1 else 0
  }

  /** A run, and how many calls were accepted in it. */
  ghost predicate Legal(s: State, run: seq<Event>)
    decreases |run|
  {
    run != [] ==> Enabled(s, run[0]) && Legal(Step(s, run[0]).0, run[1..])
  }

  ghost function Final(s: State, run: seq<Event>): State
    requires Legal(s, run)
    decreases |run|
  {
    if run == [] then s else Final(Step(s, run[0]).0, run[1..])
  }

  ghost function Calls(s: State, run: seq<Event>): nat
    requires Legal(s, run)
    decreases |run|
  {
    if run == [] then 0 else Accepted(s, run[0]) + Calls(Step(s, run[0]).0, run[1..])
  }

  /** Live ids lie below the next one. */
  ghost predicate IdsBelow(s: State) {
    forall i :: 0 <= i < |s.slots| && s.slots[i].phase != Empty ==> s.slots[i].id < s.nextId
  }

  lemma {:induction false} IdsBelowKept(s: State, e: Event)
    requires Inv(s) && Enabled(s, e) && DistinctIds(s) && IdsBelow(s) && s.nextId + Accepted(s, e) < ID_LIMIT
    ensures DistinctIds(Step(s, e).0) && IdsBelow(Step(s, e).0) && Step(s, e).0.nextId == s.nextId + Accepted(s, e)
  {
    DistinctIdsKept(s, e);
    if e.Call? && CallStep(s, e).0 != s {
      assert First(s.slots, IsLive(s.nextId), 0) == |s.slots|;
    } else {
      OthersShrinkIds(s, e);
    }
  }

  lemma {:induction false} RunFrom(s: State, run: seq<Event>)
    requires Inv(s) && Legal(s, run)
    ensures Inv(Final(s, run))
    ensures DistinctIds(s) && IdsBelow(s) && s.nextId + Calls(s, run) < ID_LIMIT ==> DistinctIds(Final(s, run))
    decreases |run|
  {
    if run != [] {
      var s' := Step(s, run[0]).0;
      StepKeepsInv(s, run[0]);
      if DistinctIds(s) && IdsBelow(s) && s.nextId + Calls(s, run) < ID_LIMIT {
        IdsBelowKept(s, run[0]);
      }
      RunFrom(s', run[1..]);
    }
  }

  /**
   * Every reachable state of nested calls: the slots in use are those of the waiting dispatches, one each, and until
   * the 64-bit counter has gone round once their ids are distinct. Every dispatch, waiting or returned, was received at
   * most once and answered at most once, by its receiver; a returned one gave its caller that answer.
   */
  lemma {:induction false} EveryRun(run: seq<Event>)
    requires Legal(Initial(), run)
    ensures Inv(Final(Initial(), run))
    ensures Calls(Initial(), run) < ID_LIMIT - 1 ==> DistinctIds(Final(Initial(), run))
    ensures Final(Initial(), run).stack == [] ==>
              forall k :: 0 <= k < SLOTS ==> Final(Initial(), run).slots[k].phase == Empty
    ensures var s := Final(Initial(), run);
            && (forall i :: 0 <= i < |s.past| ==> WellEnded(s.past[i]))
            && (forall i :: 0 <= i < |s.stack| ==> |s.stack[i].receivers| <= 1 && (s.stack[i].replies != [] ==> Answered(s.stack[i])))
  {
    InitialInv();
    RunFrom(Initial(), run);
    var s := Final(Initial(), run);
    forall i | 0 <= i < |s.stack| ensures |s.stack[i].receivers| <= 1 && (s.stack[i].replies != [] ==> Answered(s.stack[i])) {
      assert Matched(s, s.stack[i]);
    }
    forall k | 0 <= k < SLOTS && s.stack == [] ensures s.slots[k].phase == Empty {
      assert HeldIfUsed(s, k);
    }
  }

  // ---------------------------------------------------------------------------------------
  // The story of a call, told by the events of the run alone
  // ---------------------------------------------------------------------------------------

  lemma {:induction false} FinalMore(s: State, run: seq<Event>, e: Event)
    ensures Legal(s, run + [e]) <==> Legal(s, run) && Enabled(Final(s, run), e)
    ensures Legal(s, run + [e]) ==> Final(s, run + [e]) == Step(Final(s, run), e).0
    decreases |run|
  {
    var more := run + [e];
    if run != [] {
      assert more[1..] == run[1..] + [e];
      if Enabled(s, run[0]) {
        FinalMore(Step(s, run[0]).0, run[1..], e);
      }
    } else {
      assert more[1..] == [];
    }
  }

  /** Event i made this dispatch. */
  ghost predicate CalledAt(run: seq<Event>, i: nat, d: Dispatch) {
    i < |run| && run[i] == Event.Call(d.request, d.outLen, true)
  }

  /** Event j is its reception: the process that received it was handed its id, its request and its capacity. */
  ghost predicate ReceivedAt(run: seq<Event>, j: nat, d: Dispatch) {
    && j < |run| && run[j].Receive? && run[j].service == d.request.service && d.receivers == [run[j].pid]
    && Legal(Initial(), run[..j])
    && Step(Final(Initial(), run[..j]), run[j]).1
       == Outcome(OK, [], Some(Message(d.id, d.request, if d.outLen < DATA_MAX then d.outLen else DATA_MAX)))
  }

  /** Event k is the reply to it, from the process that received it. */
  ghost predicate RepliedAt(run: seq<Event>, k: nat, d: Dispatch) {
    && k < |run| && run[k].Answer? && run[k].id == d.id && d.receivers == [run[k].pid] && run[k].len <= |run[k].payload|
    && d.replies == [Reply(run[k].pid, d.id, run[k].status, run[k].payload[..run[k].len])]
  }

  ghost predicate Story(run: seq<Event>, d: Dispatch, i: nat, j: nat, k: nat) {
    && CalledAt(run, i, d)
    && (d.receivers != [] ==> i < j && ReceivedAt(run, j, d))
    && (d.replies != [] ==> d.receivers != [] && j < k && RepliedAt(run, k, d))
  }

  ghost predicate Told(run: seq<Event>, d: Dispatch) { exists i, j, k :: Story(run, d, i, j, k) }

  /** Event m was its return. */
  ghost predicate EndedAt(run: seq<Event>, m: nat, e: Ended) {
    m < |run| && run[m] == Event.Return(e.ran) && Told(run[..m], e.dispatch)
  }

  ghost predicate EndTold(run: seq<Event>, e: Ended) { exists m :: EndedAt(run, m, e) }

  ghost predicate AllTold(run: seq<Event>, s: State) {
    && (forall i :: 0 <= i < |s.stack| ==> Told(run, s.stack[i]))
    && (forall i :: 0 <= i < |s.past| ==> EndTold(run, s.past[i]))
  }

  lemma {:induction false} ToldMore(run: seq<Event>, e: Event, d: Dispatch)
    requires Told(run, d)
    ensures Told(run + [e], d)
  {
    var i: nat, j: nat, k: nat :| Story(run, d, i, j, k);
    var more := run + [e];
    assert j < |run| ==> more[..j] == run[..j];
    assert Story(more, d, i, j, k);
  }

  lemma {:induction false} EndToldMore(run: seq<Event>, e: Event, d: Ended)
    requires EndTold(run, d)
    ensures EndTold(run + [e], d)
  {
    var m: nat :| EndedAt(run, m, d);
    var more := run + [e];
    assert more[..m] == run[..m];
    assert EndedAt(more, m, d);
  }

  lemma {:induction false} CallTold(run: seq<Event>, e: Event, d: Dispatch)
    requires e == Event.Call(d.request, d.outLen, true) && d.receivers == [] && d.replies == []
    ensures Told(run + [e], d)
  {
    assert Story(run + [e], d, |run|, 0, 0);
  }

  lemma {:induction false} ReceptionTold(run: seq<Event>, e: Event, d: Dispatch)
    requires Legal(Initial(), run) && Told(run, d) && d.receivers == [] && d.replies == []
    requires e.Receive? && e.service == d.request.service
    requires Step(Final(Initial(), run), e).1
             == Outcome(OK, [], Some(Message(d.id, d.request, if d.outLen < DATA_MAX then d.outLen else DATA_MAX)))
    ensures Told(run + [e], NotedOne(d, [e.pid], []))
  {
    var i: nat, j: nat, k: nat :| Story(run, d, i, j, k);
    var more := run + [e];
    assert more[..|run|] == run;
    assert Story(more, NotedOne(d, [e.pid], []), i, |run|, 0);
  }

  lemma {:induction false} ReplyTold(run: seq<Event>, e: Event, d: Dispatch)
    requires Told(run, d) && e.Answer? && d.receivers == [e.pid] && d.replies == [] && e.id == d.id && e.len <= |e.payload|
    ensures Told(run + [e], NotedOne(d, [], [Reply(e.pid, e.id, e.status, e.payload[..e.len])]))
  {
    var i: nat, j: nat, k: nat :| Story(run, d, i, j, k);
    var more := run + [e];
    assert more[..j] == run[..j];
    assert Story(more, NotedOne(d, [], [Reply(e.pid, e.id, e.status, e.payload[..e.len])]), i, j, |run|);
  }

  /** A waiting dispatch after one more event: as before, received or answered. */
  lemma {:induction false} StackMoves(s: State, e: Event, i: nat)
    requires Inv(s) && Enabled(s, e) && i < |s.stack| && i < |Step(s, e).0.stack|
    ensures var d, d' := s.stack[i], Step(s, e).0.stack[i];
            || d' == d
            || (e.Receive? && d' == NotedOne(d, [e.pid], []) && d.receivers == [] && d.replies == [] && e.service == d.request.service
                && Step(s, e).1 == Outcome(OK, [], Some(Message(d.id, d.request, if d.outLen < DATA_MAX then d.outLen else DATA_MAX))))
            || (e.Answer? && e.len <= |e.payload| && d' == NotedOne(d, [], [Reply(e.pid, e.id, e.status, e.payload[..e.len])])
                && d.receivers == [e.pid] && d.replies == [] && e.id == d.id)
  {
    assert Matched(s, s.stack[i]);
  }

  /** The waiting dispatches after one more event. */
  lemma {:induction false} StackTold(run: seq<Event>, s: State, e: Event)
    requires Legal(Initial(), run) && s == Final(Initial(), run) && Inv(s) && AllTold(run, s) && Enabled(s, e)
    ensures forall i :: 0 <= i < |Step(s, e).0.stack| ==> Told(run + [e], Step(s, e).0.stack[i])
  {
    var s' := Step(s, e).0;
    forall i | 0 <= i < |s'.stack| ensures Told(run + [e], s'.stack[i]) {
      if i < |s.stack| {
        StackMoves(s, e, i);
        if s'.stack[i] == s.stack[i] {
          ToldMore(run, e, s.stack[i]);
        } else if e.Receive? {
          ReceptionTold(run, e, s.stack[i]);
        } else {
          ReplyTold(run, e, s.stack[i]);
        }
      } else {
        CallTold(run, e, s'.stack[i]);
      }
    }
  }

  lemma {:induction false} PastTold(run: seq<Event>, s: State, e: Event)
    requires AllTold(run, s) && Enabled(s, e)
    ensures forall i :: 0 <= i < |Step(s, e).0.past| ==> EndTold(run + [e], Step(s, e).0.past[i])
  {
    var s' := Step(s, e).0;
    forall i | 0 <= i < |s'.past| ensures EndTold(run + [e], s'.past[i]) {
      if i < |s.past| {
        EndToldMore(run, e, s.past[i]);
      } else {
        var more := run + [e];
        assert more[..|run|] == run;
        assert EndedAt(more, |run|, s'.past[i]);
      }
    }
  }

  lemma {:induction false} RunTold(run: seq<Event>)
    requires Legal(Initial(), run)
    ensures Inv(Final(Initial(), run)) && AllTold(run, Final(Initial(), run))
    decreases |run|
  {
    InitialInv();
    if run != [] {
      var n := |run| - 1;
      var front, e := run[..n], run[n];
      assert run == front + [e];
      FinalMore(Initial(), front, e);
      RunTold(front);
      var s := Final(Initial(), front);
      StepKeepsInv(s, e);
      StackTold(front, s, e);
      PastTold(front, s, e);
    }
  }

  /** What a call came to, in the words of the events: i called, j received, k replied, and m returned to the caller. */
  ghost predicate Answers(run: seq<Event>, d: Dispatch, o: Outcome, i: nat, j: nat, k: nat, m: nat) {
    && i < j < k < m < |run| && CalledAt(run, i, d) && ReceivedAt(run, j, d) && run[m] == Event.Return(true)
    && run[k].Answer? && run[k].pid == run[j].pid && run[k].id == d.id && run[k].len <= |run[k].payload|
    && var a := run[k];
       if a.len <= d.outLen && a.len <= 65400 then o == Outcome(a.status, if a.status >= 0 then a.payload[..a.len] else [], None)
       else o == Outcome(-9, [], None)
  }

  /**
   * The end of every call of every run: the caller got -13 and no bytes and its service did not run or did not reply;
   * or a process received exactly what the caller had sent, replied to it, and the caller got that reply.
   */
  lemma {:induction false} EveryCallEnds(run: seq<Event>, x: nat)
    requires Legal(Initial(), run) && x < |Final(Initial(), run).past|
    ensures var e := Final(Initial(), run).past[x];
            || (e.outcome == Outcome(-13, [], None) && (!e.ran || e.dispatch.replies == []))
            || (e.ran && exists i, j, k, m :: Answers(run, e.dispatch, e.outcome, i, j, k, m))
  {
    RunTold(run);
    var e := Final(Initial(), run).past[x];
    assert WellEnded(e);
    if e.ran && e.dispatch.replies != [] {
      var d := e.dispatch;
      var m: nat :| EndedAt(run, m, e);
      var i: nat, j: nat, k: nat :| Story(run[..m], d, i, j, k);
      assert run[..m][..j] == run[..j];
      assert Answers(run, d, e.outcome, i, j, k, m);
    }
  }

  // ---------------------------------------------------------------------------------------
  // When each step is accepted, in terms of the waiting dispatches
  // ---------------------------------------------------------------------------------------

  lemma {:induction false} CallAccepted(s: State, e: Event)
    requires Inv(s) && e.Call?
    ensures CallStep(s, e).1.status == OK <==> |e.request.data| <= 65400 && e.hasEntry && |s.stack| < 8
  {
    if |e.request.data| <= DATA_MAX && e.hasEntry {
      BusyIffEight(s, e);
    }
  }

  /** A service gets a request exactly if it may ask and a waiting call for it has not been received. */
  lemma {:induction false} ReceiveAccepted(s: State, e: Event)
    requires Inv(s) && e.Receive?
    ensures ReceiveStep(s, e).1.status == OK <==>
              && e.named && e.outLen >= 112 && e.running && e.host
              && exists i :: 0 <= i < |s.stack| && s.stack[i].request.service == e.service && s.stack[i].receivers == []
  {
    var k := First(s.slots, IsPendingFor(e.service), 0);
    if k < |s.slots| {
      assert IsPendingFor(e.service)(s.slots[k]) && HeldIfUsed(s, k);
      var i :| 0 <= i < |s.stack| && s.stack[i].slot == k;
      assert Matched(s, s.stack[i]);
    } else {
      forall i | 0 <= i < |s.stack| && s.stack[i].request.service == e.service ensures s.stack[i].receivers != [] {
        assert Matched(s, s.stack[i]) && !IsPendingFor(e.service)(s.slots[s.stack[i].slot]);
      }
    }
  }

  /** While ids are distinct, a reply is taken exactly if it fits a message and its sender holds the call it names, unanswered. */
  lemma {:induction false} AnswerAccepted(s: State, e: Event)
    requires Inv(s) && DistinctIds(s) && e.Answer?
    ensures AnswerStep(s, e).1.status == OK <==>
              && e.len <= 65400 && e.len <= |e.payload| && e.id != 0
              && exists i :: 0 <= i < |s.stack| && s.stack[i].id == e.id && s.stack[i].receivers == [e.pid] && s.stack[i].replies == []
  {
    var k := First(s.slots, IsLive(e.id), 0);
    if k < |s.slots| {
      assert IsLive(e.id)(s.slots[k]) && HeldIfUsed(s, k);
      var i :| 0 <= i < |s.stack| && s.stack[i].slot == k;
      assert Matched(s, s.stack[i]);
      forall j | 0 <= j < |s.stack| && s.stack[j].id == e.id ensures j == i {
        assert Matched(s, s.stack[j]);
      }
    } else {
      forall i | 0 <= i < |s.stack| ensures s.stack[i].id != e.id {
        assert Matched(s, s.stack[i]) && !IsLive(e.id)(s.slots[s.stack[i].slot]);
      }
    }
  }

  // ---------------------------------------------------------------------------------------
  // The message table
  // ---------------------------------------------------------------------------------------

  class MessageTable {
    var slots: seq<Slot>
    var nextId: nat
    var stack: seq<Dispatch>   // the callers suspended in a nested run
    ghost var past: seq<Ended>

    ghost function Now(): State
      reads this
    {
      State(slots, nextId, stack, past)
    }

    constructor ()
      ensures Now() == Initial()
    {
      slots, nextId, stack, past := seq(SLOTS, _ => CLEAR), 1, [], [];
    }

    method Alloc() returns (k: nat)
      requires nextId < ID_LIMIT
      modifies this`slots, this`nextId
      ensures k == First(old(slots), IsEmpty(), 0)
      ensures k == |old(slots)| ==> slots == old(slots) && nextId == old(nextId)
      ensures k < |old(slots)| ==> slots == old(slots)[k := CLEAR.(phase := Pending, id := old(nextId))] && nextId == NextId(old(nextId))
    {
      k := Scan(slots, IsEmpty());
      if k < |slots| {
        slots := slots[k := CLEAR.(phase := Pending, id := nextId)];
        nextId := (nextId + 1) % ID_LIMIT;
        if nextId == 0 {
          nextId := 1;
        }
      }
    }

    /** The dispatch up to the nested run of the service (k64_system.c:345-379). */
    method Call(request: Request, outLen: nat, hasEntry: bool) returns (status: int)
      requires Inv(Now())
      modifies this
      ensures Inv(Now())
      ensures (Now(), Only(status)) == Step(old(Now()), Event.Call(request, outLen, hasEntry))
    {
      CallKeepsInv(Now(), Event.Call(request, outLen, hasEntry));
      if |request.data| > DATA_MAX {
        return INVAL;
      }
      if !hasEntry {
        return NOENT;
      }
      var id := nextId;
      var k := Alloc();
      if k == |slots| {
        return BUSY;
      }
      slots := slots[k := slots[k].(request := request, capacity := if outLen < DATA_MAX then outLen else DATA_MAX)];
      assert slots == old(slots)[k := Slot(Pending, id, request, 0, Capacity(outLen), BUSY, [])];
      stack := stack + [Dispatch(k, outLen, id, request, [], [])];
      return OK;
    }

    /** A service process takes the first pending request for its service (k64_system.c:1744-1792). */
    method Receive(pid: nat, service: string, outLen: nat, named: bool, running: bool, host: bool) returns (outcome: Outcome)
      requires Inv(Now())
      modifies this
      ensures Inv(Now())
      ensures (Now(), outcome) == Step(old(Now()), Event.Receive(pid, service, outLen, named, running, host))
    {
      ReceiveKeepsInv(Now(), Event.Receive(pid, service, outLen, named, running, host));
      if !named || outLen < HEADER_SIZE {
        return Only(INVAL);
      }
      if !running {
        return Only(NOENT);
      }
      if !host {
        return Only(ACCESS);
      }
      var k := Scan(slots, IsPendingFor(service));
      if k == |slots| {
        return Only(AGAIN);
      }
      outcome := Outcome(OK, [], Some(Message(slots[k].id, slots[k].request, slots[k].capacity)));
      slots := slots[k := slots[k].(phase := Active, server := pid)];
      stack := Noted(stack, k, [pid], []);
    }

    /** A service process replies to a request it received (k64_system.c:1794-1828). */
    method Answer(pid: nat, id: nat, status: int, len: nat, payload: seq<Byte>) returns (result: int)
      requires Inv(Now())
      modifies this
      ensures Inv(Now())
      ensures (Now(), Only(result)) == Step(old(Now()), Event.Answer(pid, id, status, len, payload))
    {
      AnswerKeepsInv(Now(), Event.Answer(pid, id, status, len, payload));
      if len > DATA_MAX || len > |payload| {
        return OVERFLOW;
      }
      var k := |slots|;
      if id != 0 {
        k := Scan(slots, IsLive(id));
      }
      if k == |slots| || slots[k].phase != Active {
        return NOENT;
      }
      if slots[k].server != pid {
        return ACCESS;
      }
      var slot := slots[k];
      if len > slot.capacity {
        slot := slot.(status := OVERFLOW, response := []);
      } else {
        slot := slot.(status := status, response := payload[..len]);
      }
      slots := slots[k := slot.(phase := Done)];
      stack := Noted(stack, k, [], [Reply(pid, id, status, payload[..len])]);
      return OK;
    }

    /** The innermost dispatch after its nested run (k64_system.c:381-398). */
    method Return(ran: bool) returns (outcome: Outcome)
      requires Inv(Now()) && stack != []
      modifies this
      ensures Inv(Now()) && old(Enabled(Now(), Event.Return(ran)))
      ensures (Now(), outcome) == Step(old(Now()), Event.Return(ran))
    {
      var d := stack[|stack| - 1];
      assert Matched(Now(), d);
      ReturnKeepsInv(Now(), Event.Return(ran));
      NoOverflowOnReturn(Now(), |stack| - 1);
      var slot := slots[d.slot];
      if !ran || slot.phase != Done {
        outcome := Only(BUSY);
      } else if slot.status >= 0 && |slot.response| > d.outLen {
        assert false;
        outcome := Only(OVERFLOW);
      } else {
        outcome := Outcome(slot.status, if slot.status >= 0 then slot.response else [], None);
      }
      slots := slots[d.slot := CLEAR];
      stack := stack[..|stack| - 1];
      past := past + [Ended(d, ran, outcome)];
    }
  }
}
