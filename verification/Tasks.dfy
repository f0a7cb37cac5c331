/** The kernel's cooperative task queue (fox32os/kernel/task.asm): what one switch does,
    and what holds over whole runs. */
module Tasks {
  import opened Words

  const CAPACITY: nat := 32

  datatype Task = Task(id: u32, instructionPointer: u32, stackPointer: u32)

  /** The scheduler's memory, and where the machine continues. */
  datatype Kernel = Kernel(
    bitmap: bv32,
    current: Task,
    queue: seq<Task>,
    instructionPointer: u32,
    stackPointer: u32)

  // ----- the bitmap of used IDs

  function Mask(id: nat): bv32
    requires id < 32
  {
    (1 as bv32) << (id as bv5)
  }

  /** The bit instructions of one word: bts, bse and bcl with a mask. */
  predicate TestMask(b: bv32, mask: bv32) {
    b & mask != 0
  }

  function SetMask(b: bv32, mask: bv32): bv32 {
    b | mask
  }

  function ClearMask(b: bv32, mask: bv32): bv32 {
    b & !mask
  }

  predicate Apart(x: bv32, y: bv32) {
    x & y == 0
  }

  lemma SameBits(b: bv32, x: bv32)
    ensures (b | x) & x == x
    ensures (b & !x) & x == 0
  {
  }

  lemma OtherBits(b: bv32, x: bv32, y: bv32)
    requires x & y == 0
    ensures (b | x) & y == b & y
    ensures (b & !x) & y == b & y
  {
  }

  lemma SetSame(b: bv32, x: bv32)
    requires x != 0
    ensures TestMask(SetMask(b, x), x) && !TestMask(ClearMask(b, x), x)
  {
    SameBits(b, x);
  }

  lemma SetOther(b: bv32, x: bv32, y: bv32)
    requires Apart(x, y)
    ensures TestMask(SetMask(b, x), y) <==> TestMask(b, y)
    ensures TestMask(ClearMask(b, x), y) <==> TestMask(b, y)
  {
    OtherBits(b, x, y);
  }

  lemma BitNumberRoundTrip(i: nat)
    requires i < 32
    ensures (i as bv5) as nat == i
  {
  }

  lemma ShiftsApart(x: bv5, y: bv5)
    ensures (1 as bv32) << x != 0
    ensures x != y ==> ((1 as bv32) << x) & ((1 as bv32) << y) == 0
  {
  }

  lemma MasksApart(i: nat, j: nat)
    requires i < 32 && j < 32
    ensures Mask(i) != 0
    ensures i != j ==> Apart(Mask(i), Mask(j))
  {
    BitNumberRoundTrip(i);
    BitNumberRoundTrip(j);
    ShiftsApart(i as bv5, j as bv5);
  }

  /** The ID is in use. */
  predicate Marked(bitmap: bv32, id: nat)
    requires id < 32
  {
    TestMask(bitmap, Mask(id))
  }

  function Mark(bitmap: bv32, id: nat): (r: bv32)
    requires id < 32
  {
    SetMask(bitmap, Mask(id))
  }

  function Unmark(bitmap: bv32, id: nat): (r: bv32)
    requires id < 32
  {
    ClearMask(bitmap, Mask(id))
  }

  /** Marking and unmarking change one bit. */
  lemma OneBit(bitmap: bv32, id: nat)
    requires id < 32
    ensures forall i :: 0 <= i < 32 ==> (Marked(Mark(bitmap, id), i) <==> i == id || Marked(bitmap, i))
    ensures forall i :: 0 <= i < 32 ==> (Marked(Unmark(bitmap, id), i) <==> i != id && Marked(bitmap, i))
  {
    hide Mask, TestMask, SetMask, ClearMask, Apart;
    forall i | 0 <= i < 32
      ensures Marked(Mark(bitmap, id), i) <==> i == id || Marked(bitmap, i)
      ensures Marked(Unmark(bitmap, id), i) <==> i != id && Marked(bitmap, i)
    {
      MasksApart(id, i);
      if i == id {
        SetSame(bitmap, Mask(id));
      } else {
        SetOther(bitmap, Mask(id), Mask(i));
      }
    }
  }

  // ----- the operations

  function Enqueue(k: Kernel, t: Task): Kernel {
    k.(queue := k.queue + [t])
  }

  /** Take the oldest task off the queue and continue it. */
  function Switch(k: Kernel): Kernel
    requires k.queue != []
  {
    var t := k.queue[0];
    k.(current := t, queue := k.queue[1..], instructionPointer := t.instructionPointer, stackPointer := t.stackPointer)
  }

  /** yield_task, called with this return address on top of the stack at rsp. */
  function Yield(k: Kernel, returnAddress: u32, rsp: u32): Kernel {
    Switch(Enqueue(k, Task(k.current.id, returnAddress, Add32(rsp, 4))))
  }

  /** new_task: the new task is queued, and then the caller yields. */
  function New(k: Kernel, task: Task, returnAddress: u32, rsp: u32): Kernel
    requires task.id < 32
  {
    Yield(Enqueue(k.(bitmap := Mark(k.bitmap, task.id)), task), returnAddress, rsp)
  }

  /** end_current_task_no_mark; None is the kernel's panic on an empty queue. */
  function EndNoMark(k: Kernel): Option<Kernel> {
    if k.queue == [] then None else Some(Switch(k))
  }

  /** end_current_task: the same, after giving up the ID. */
  function End(k: Kernel): Option<Kernel>
    requires k.current.id < 32
  {
    EndNoMark(k.(bitmap := Unmark(k.bitmap, k.current.id)))
  }

  /** What a running task can do to the scheduler, with the return address its call
      left on the stack and the stack pointer at that moment. */
  datatype Op =
    | NewOp(task: Task, returnAddress: u32, rsp: u32)
    | YieldOp(returnAddress: u32, rsp: u32)
    | EndOp

  /** IDs of new tasks are below 32 and unused, as get_unused_task_id gives them. */
  predicate Allowed(k: Kernel, op: Op) {
    op.NewOp? ==> op.task.id < 32 && !Marked(k.bitmap, op.task.id)
  }

  function Apply(k: Kernel, op: Op): Option<Kernel>
    requires k.current.id < 32 && Allowed(k, op)
  {
    match op
    case NewOp(task, returnAddress, rsp) => Some(New(k, task, returnAddress, rsp))
    case YieldOp(returnAddress, rsp) => Some(Yield(k, returnAddress, rsp))
    case EndOp => End(k)
  }

  // ----- which task a new_task continues

  /** The source says that a new task is jumped to immediately.  It is exactly when no
      other task was queued; otherwise the oldest queued task continues. */
  lemma NewTaskRunsAtOnce(k: Kernel, task: Task, returnAddress: u32, rsp: u32)
    requires Consistent(k) && Allowed(k, NewOp(task, returnAddress, rsp))
    ensures
      var after := New(k, task, returnAddress, rsp);
      && (after.current.id == task.id <==> k.queue == [])
      && after.current == (if k.queue == [] then task else k.queue[0])
  {
    hide Marked, Mark;
    if k.queue != [] {
      assert All(k)[1] == k.queue[0];
      assert Has(All(k), k.queue[0].id);
    }
  }

  /** A consistent scheduler with tasks 0 and 1, and task 0 adding task 2: task 1
      continues. */
  lemma NewTaskWaits()
    ensures
      var k := Kernel(3, Task(0, 0x1000, 0x2000), [Task(1, 0x3000, 0x4000)], 0x1000, 0x2000);
      var task := Task(2, 0x5000, 0x6000);
      && Consistent(k) && Allowed(k, NewOp(task, 0x1234, 0x1FFC))
      && New(k, task, 0x1234, 0x1FFC).current.id == 1
  {
    var k := Kernel(3, Task(0, 0x1000, 0x2000), [Task(1, 0x3000, 0x4000)], 0x1000, 0x2000);
    BitsOfThree();
    hide Marked, Mark;
    TwoTasks(k, k.current, k.queue[0]);
  }

  lemma BitsOfThree()
    ensures forall id :: 0 <= id < 32 ==> (Marked(3, id) <==> id == 0 || id == 1)
  {
    NothingMarked();
    assert Mark(Mark(0, 0), 1) == 3;
    hide Marked, Mark;
    OneBit(0, 0);
    OneBit(Mark(0, 0), 1);
  }

  // ----- conservation

  /** All tasks: the current one, then the queue. */
  function All(k: Kernel): seq<Task> {
    [k.current] + k.queue
  }

  predicate DistinctIds(tasks: seq<Task>) {
    forall i, j :: 0 <= i < j < |tasks| ==> tasks[i].id != tasks[j].id
  }

  predicate Has(tasks: seq<Task>, id: u32) {
    exists i :: 0 <= i < |tasks| && tasks[i].id == id
  }

  /** The bitmap marks exactly the IDs that are current or queued, each held by one
      task. */
  ghost predicate Consistent(k: Kernel) {
    && DistinctIds(All(k))
    && (forall i :: 0 <= i < |All(k)| ==> All(k)[i].id < 32)
    && (forall id: u32 :: id < 32 ==> (Marked(k.bitmap, id) <==> Has(All(k), id)))
  }

  lemma {:induction false} DistinctFew(tasks: seq<Task>, n: nat)
    requires DistinctIds(tasks) && forall i :: 0 <= i < |tasks| ==> tasks[i].id < n
    ensures |tasks| <= n
    decreases n
  {
    if tasks != [] {
      assert tasks[0].id < n;
      if i :| 0 <= i < |tasks| && tasks[i].id == n - 1 {
        DistinctFew(tasks[..i] + tasks[i + 1..], n - 1);
      } else {
        DistinctFew(tasks, n - 1);
      }
    }
  }

  /** How many queue slots an operation fills before it takes one out. */
  function Window(k: Kernel, op: Op): nat {
    match op
    case NewOp(_, _, _) => |k.queue| + 2
    case YieldOp(_, _) => |k.queue| + 1
    case EndOp => |k.queue|
  }

  lemma AddedConsistent(k: Kernel, task: Task)
    requires Consistent(k) && task.id < 32 && !Marked(k.bitmap, task.id)
    ensures Consistent(Enqueue(k.(bitmap := Mark(k.bitmap, task.id)), task))
    ensures |k.queue| + 2 <= CAPACITY
  {
    hide Marked, Mark, Unmark;
    OneBit(k.bitmap, task.id);
    var after := Enqueue(k.(bitmap := Mark(k.bitmap, task.id)), task);
    assert All(after) == All(k) + [task];
    assert forall i :: 0 <= i < |All(k)| ==> All(k)[i].id != task.id;
    forall id: u32 | id < 32
      ensures Marked(after.bitmap, id) <==> Has(All(after), id)
    {
      if Has(All(k), id) {
        var i :| 0 <= i < |All(k)| && All(k)[i].id == id;
        assert All(after)[i].id == id;
      }
      assert All(after)[|All(k)|] == task;
    }
    DistinctFew(All(after), 32);
  }

  /** A switch rotates the tasks; every task keeps its ID. */
  lemma YieldConsistent(k: Kernel, returnAddress: u32, rsp: u32)
    requires Consistent(k)
    ensures Consistent(Yield(k, returnAddress, rsp)) && |k.queue| + 1 <= CAPACITY
  {
    hide Marked, Mark, Unmark;
    var again := Task(k.current.id, returnAddress, Add32(rsp, 4));
    var after := Yield(k, returnAddress, rsp);
    assert All(after) == k.queue + [again];
    forall id: u32 | id < 32
      ensures Has(All(after), id) <==> Has(All(k), id)
    {
      Rotated(k.current, again, k.queue, id);
    }
    forall i, j | 0 <= i < j < |All(after)|
      ensures All(after)[i].id != All(after)[j].id
    {
      assert k.queue[i] == All(k)[i + 1];
      if j < |k.queue| {
        assert k.queue[j] == All(k)[j + 1];
      } else {
        assert All(k)[0] == k.current;
      }
    }
    forall i | 0 <= i < |All(after)|
      ensures All(after)[i].id < 32
    {
      if i < |k.queue| {
        assert k.queue[i] == All(k)[i + 1];
      } else {
        assert All(k)[0] == k.current;
      }
    }
    DistinctFew(All(k), 32);
  }

  lemma Rotated(first: Task, again: Task, rest: seq<Task>, id: u32)
    requires again.id == first.id
    ensures Has(rest + [again], id) <==> Has([first] + rest, id)
  {
    if Has(rest + [again], id) {
      var i :| 0 <= i < |rest + [again]| && (rest + [again])[i].id == id;
      assert ([first] + rest)[if i < |rest| then i + 1 else 0].id == id;
    }
    if Has([first] + rest, id) {
      var i :| 0 <= i < |[first] + rest| && ([first] + rest)[i].id == id;
      assert (rest + [again])[if i > 0 then i - 1 else |rest|].id == id;
    }
  }

  lemma EndConsistent(k: Kernel)
    requires Consistent(k) && k.queue != [] && k.current.id < 32
    ensures Consistent(End(k).value)
  {
    hide Marked, Mark, Unmark, Has;
    OneBit(k.bitmap, k.current.id);
    assert All(k)[0] == k.current;
    var after := End(k).value;
    assert All(after) == k.queue;
    assert forall i :: 0 <= i < |k.queue| ==> k.queue[i] == All(k)[i + 1];
    forall id: u32 | id < 32
      ensures Marked(after.bitmap, id) <==> Has(k.queue, id)
    {
      assert Marked(after.bitmap, id) <==> id != k.current.id && Has(All(k), id);
      RestHas(k, id);
    }
  }

  lemma RestHas(k: Kernel, id: u32)
    requires DistinctIds(All(k))
    ensures Has(k.queue, id) <==> id != k.current.id && Has(All(k), id)
  {
    assert All(k)[0] == k.current;
    assert forall i :: 0 <= i < |k.queue| ==> k.queue[i] == All(k)[i + 1];
    if id != k.current.id && Has(All(k), id) {
      var i :| 0 <= i < |All(k)| && All(k)[i].id == id;
      assert k.queue[i - 1].id == id;
    }
    if Has(k.queue, id) {
      var i :| 0 <= i < |k.queue| && k.queue[i].id == id;
      assert All(k)[i + 1].id == id;
    }
  }

  /** Every operation keeps the bitmap exact and never fills more than the 32 slots,
      even before it takes a task out. */
  lemma OperationConserves(k: Kernel, op: Op)
    requires Consistent(k)
    ensures k.current.id < 32
    ensures Allowed(k, op) ==> Window(k, op) <= CAPACITY
    ensures Allowed(k, op) && Apply(k, op).Some? ==> Consistent(Apply(k, op).value)
    ensures Allowed(k, op) ==> (Apply(k, op).None? <==> op.EndOp? && k.queue == [])
  {
    hide Marked, Mark, Unmark, DistinctIds, Has;
    assert All(k)[0] == k.current;
    if Allowed(k, op) {
      hide Consistent;
      match op
      case NewOp(task, returnAddress, rsp) =>
        AddedConsistent(k, task);
        YieldConsistent(Enqueue(k.(bitmap := Mark(k.bitmap, task.id)), task), returnAddress, rsp);
      case YieldOp(returnAddress, rsp) => YieldConsistent(k, returnAddress, rsp);
      case EndOp =>
        FewQueued(k);
        if k.queue != [] {
          EndConsistent(k);
        }
    }
  }

  lemma FewQueued(k: Kernel)
    requires Consistent(k)
    ensures |k.queue| <= CAPACITY
  {
    DistinctFew(All(k), 32);
  }

  // ----- boot

  /** The scheduler as the kernel is loaded. */
  predicate Fresh(k: Kernel) {
    k.bitmap == 0 && k.current == Task(0, 0, 0) && k.queue == []
  }

  lemma NothingMarked()
    ensures forall id :: 0 <= id < 32 ==> !Marked(0, id)
  {
    forall id | 0 <= id < 32
      ensures !Marked(0, id)
    {
      NoBits(Mask(id));
    }
  }

  lemma NoBits(mask: bv32)
    ensures !TestMask(0, mask)
  {
    assert 0 & mask == 0;
  }

  /** Boot.  The kernel starts its first task under ID 0, which leaves the kernel itself
      queued under the same ID.  When that task first yields or adds a task, the kernel
      runs again and leaves without unmarking; from there on the bitmap is exact, with
      the first task alive under ID 0.  If the first task ends instead, the kernel runs
      again and panics on the empty queue. */
  lemma BootIsConsistent(k: Kernel, entry: u32, stack: u32, returnAddress: u32, rsp: u32, op: Op)
    requires Fresh(k)
    ensures
      var started := New(k, Task(0, entry, stack), returnAddress, rsp);
      && started.current == Task(0, entry, stack)
      && started.instructionPointer == entry && started.stackPointer == stack
      && (Allowed(started, op) ==>
           && Apply(started, op).Some?
           && var back := Apply(started, op).value;
           && back.instructionPointer == returnAddress
           && (EndNoMark(back).None? <==> op.EndOp?)
           && (!op.EndOp? ==>
                var running := EndNoMark(back).value;
                Consistent(running) && Has(All(running), 0)))
  {
    hide Marked, Mark, Unmark;
    NothingMarked();
    OneBit(0, 0);
    var started := New(k, Task(0, entry, stack), returnAddress, rsp);
    var boot := Task(0, returnAddress, Add32(rsp, 4));
    assert started.queue == [boot];
    if Allowed(started, op) && !op.EndOp? {
      var back := Apply(started, op).value;
      var again := Task(0, op.returnAddress, Add32(op.rsp, 4));
      if op.NewOp? {
        OneBit(started.bitmap, op.task.id);
        assert back.queue == [op.task, again];
        assert All(Switch(back)) == [op.task, again];
        TwoTasks(Switch(back), op.task, again);
      } else {
        assert back.queue == [again];
        assert All(Switch(back)) == [again];
        OneTask(Switch(back), again);
      }
    }
  }

  lemma OneTask(k: Kernel, t: Task)
    requires All(k) == [t] && t.id < 32
    requires forall id: u32 :: id < 32 ==> (Marked(k.bitmap, id) <==> id == t.id)
    ensures Consistent(k) && Has(All(k), t.id)
  {
    hide Marked;
    assert All(k)[0] == t;
  }

  lemma TwoTasks(k: Kernel, s: Task, t: Task)
    requires All(k) == [s, t] && s.id < 32 && t.id < 32 && s.id != t.id
    requires forall id: u32 :: id < 32 ==> (Marked(k.bitmap, id) <==> id == s.id || id == t.id)
    ensures Consistent(k) && Has(All(k), t.id)
  {
    hide Marked;
    assert All(k)[0] == s && All(k)[1] == t;
  }

  // ----- runs

  /** The state after some operations; None after a panic or a disallowed one. */
  ghost function Run(k: Kernel, ops: seq<Op>): (r: Option<Kernel>)
    requires Consistent(k)
    ensures r.Some? ==> Consistent(r.value)
    decreases |ops|
  {
    if ops == [] then Some(k)
    else
      OperationConserves(k, ops[0]);
      if !Allowed(k, ops[0]) then None
      else
        var next :- Apply(k, ops[0]);
        Run(next, ops[1..])
  }

  /** Which tasks run after each of the operations, in order. */
  ghost function Turns(k: Kernel, ops: seq<Op>): (r: seq<u32>)
    requires Consistent(k) && Run(k, ops).Some?
    ensures |r| == |ops|
    decreases |ops|
  {
    if ops == [] then []
    else
      OperationConserves(k, ops[0]);
      var next := Apply(k, ops[0]).value;
      [next.current.id] + Turns(next, ops[1..])
  }

  function IdsOf(tasks: seq<Task>): seq<u32> {
    seq(|tasks|, i requires 0 <= i < |tasks| => tasks[i].id)
  }

  /** What one operation does to the queue: its head runs, and whatever is added goes
      behind the rest. */
  lemma OneTurn(k: Kernel, op: Op)
    requires Consistent(k) && k.queue != [] && k.current.id < 32 && Allowed(k, op)
    ensures Apply(k, op).Some?
    ensures
      var next := Apply(k, op).value;
      && next.current == k.queue[0]
      && next.instructionPointer == k.queue[0].instructionPointer
      && next.stackPointer == k.queue[0].stackPointer
      && |next.queue| >= |k.queue| - 1
      && next.queue[..|k.queue| - 1] == k.queue[1..]
  {
    hide Consistent, Marked, Mark, Unmark;
  }

  /** A queued task waits for exactly the tasks before it, each of which runs once, and
      then continues where its entry says. */
  lemma {:induction false} WaitsItsTurn(k: Kernel, n: nat, ops: seq<Op>)
    requires Consistent(k) && n < |k.queue| && |ops| == n + 1 && Run(k, ops).Some?
    ensures Turns(k, ops) == IdsOf(k.queue[..n + 1])
    ensures
      var after := Run(k, ops).value;
      && after.current == k.queue[n]
      && after.instructionPointer == k.queue[n].instructionPointer
      && after.stackPointer == k.queue[n].stackPointer
    decreases n
  {
    hide Consistent, Allowed, Apply;
    OperationConserves(k, ops[0]);
    OneTurn(k, ops[0]);
    var next := Apply(k, ops[0]).value;
    if n == 0 {
      assert ops[1..] == [];
    } else {
      assert next.queue[n - 1] == next.queue[..|k.queue| - 1][n - 1] == k.queue[n];
      WaitsItsTurn(next, n - 1, ops[1..]);
      assert next.queue[..n] == next.queue[..|k.queue| - 1][..n] == k.queue[1..n + 1];
      assert IdsOf(k.queue[..n + 1]) == [k.queue[0].id] + IdsOf(k.queue[1..n + 1]);
    }
  }

  /** The tasks that run between two turns of the current one: those queued, and the
      one it may be adding. */
  function Others(k: Kernel, op: Op): seq<u32> {
    IdsOf(k.queue) + if op.NewOp? then [op.task.id] else []
  }

  /** Round robin: after a task yields (or adds a task), the others that were alive run
      exactly once each, in queue order, and then it continues with the return address
      and stack pointer it had just after its call. */
  lemma RoundRobin(k: Kernel, ops: seq<Op>)
    requires Consistent(k) && ops != [] && !ops[0].EndOp?
    requires |ops| == |Others(k, ops[0])| + 1 && Run(k, ops).Some?
    ensures Turns(k, ops) == Others(k, ops[0]) + [k.current.id]
    ensures k.current.id !in Others(k, ops[0])
    ensures forall i, j :: 0 <= i < j < |Others(k, ops[0])| ==> Others(k, ops[0])[i] != Others(k, ops[0])[j]
    ensures
      var after := Run(k, ops).value;
      && after.current.id == k.current.id
      && after.instructionPointer == ops[0].returnAddress
      && after.stackPointer == Add32(ops[0].rsp, 4)
  {
    hide Marked, Run, Turns, Mark;
    OperationConserves(k, ops[0]);
    assert Allowed(k, ops[0]) by {
      FirstAllowed(k, ops);
    }
    var added := if ops[0].NewOp? then Enqueue(k.(bitmap := Mark(k.bitmap, ops[0].task.id)), ops[0].task) else k;
    assert Consistent(added) by {
      if ops[0].NewOp? {
        AddedConsistent(k, ops[0].task);
      }
    }
    assert Others(k, ops[0]) == IdsOf(added.queue);
    DistinctQueue(added);
    YieldRound(added, ops[0].returnAddress, ops[0].rsp, k, ops);
  }

  lemma FirstAllowed(k: Kernel, ops: seq<Op>)
    requires Consistent(k) && ops != [] && Run(k, ops).Some?
    ensures Allowed(k, ops[0])
  {
  }

  lemma DistinctQueue(k: Kernel)
    requires Consistent(k)
    ensures k.current.id !in IdsOf(k.queue)
    ensures forall i, j :: 0 <= i < j < |IdsOf(k.queue)| ==> IdsOf(k.queue)[i] != IdsOf(k.queue)[j]
  {
    assert forall i :: 0 <= i < |k.queue| ==> IdsOf(k.queue)[i] == All(k)[i + 1].id;
    assert All(k)[0] == k.current;
  }

  /** The round itself: `added` is the state just before the yield. */
  lemma YieldRound(added: Kernel, returnAddress: u32, rsp: u32, k: Kernel, ops: seq<Op>)
    requires Consistent(added) && Consistent(k) && Run(k, ops).Some? && added.current == k.current
    requires |ops| == |added.queue| + 1 && k.current.id < 32 && Allowed(k, ops[0])
    requires Apply(k, ops[0]) == Some(Yield(added, returnAddress, rsp))
    ensures Turns(k, ops) == IdsOf(added.queue) + [k.current.id]
    ensures
      var after := Run(k, ops).value;
      && after.current.id == k.current.id
      && after.instructionPointer == returnAddress
      && after.stackPointer == Add32(rsp, 4)
  {
    hide Consistent, Apply, Allowed;
    OperationConserves(k, ops[0]);
    var again := Task(k.current.id, returnAddress, Add32(rsp, 4));
    var line := added.queue + [again];
    var next := Yield(added, returnAddress, rsp);
    assert next.current == line[0] && next.queue == line[1..];
    if added.queue == [] {
      assert ops[1..] == [];
      assert line == [again];
    } else {
      var n := |added.queue| - 1;
      WaitsItsTurn(next, n, ops[1..]);
      assert next.queue[..n + 1] == line[1..];
      assert line[1..][n] == again;
      assert IdsOf(line) == IdsOf(added.queue) + [again.id];
      assert IdsOf(line) == [line[0].id] + IdsOf(line[1..]);
    }
  }
}
