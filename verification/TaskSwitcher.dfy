/** The task routines as they change the scheduler's memory: the queue's slots are
    shifted in place, and the machine continues another task. */
module TaskSwitcher {
  import opened Words
  import opened Tasks

  const TASK_SIZE: u32 := 12

  class Scheduler {
    var taskIdBitmap: bv32
    var currentTask: Task
    var taskQueuePtr: u32
    const taskQueueBottom: u32
    const slots: array<Task>
    var instructionPointer: u32
    var rsp: u32

    /** The kernel as it is loaded: no task, an empty queue. */
    constructor (bottom: u32)
      requires bottom + TASK_SIZE * CAPACITY < 0x1_0000_0000
      ensures Valid() && fresh(slots)
      ensures taskIdBitmap == 0 && currentTask == Task(0, 0, 0) && Queue() == []
    {
      taskIdBitmap := 0;
      currentTask := Task(0, 0, 0);
      taskQueueBottom := bottom;
      taskQueuePtr := bottom;
      slots := new Task[CAPACITY](_ => Task(0, 0, 0));
      instructionPointer, rsp := 0, 0;
    }

    function SlotAddress(k: nat): int
    {
      taskQueueBottom + TASK_SIZE * k
    }

    ghost function Count(): int
      reads this
    {
      (taskQueuePtr - taskQueueBottom) / TASK_SIZE
    }

    /** The queue pointer stands on a slot boundary inside the queue's memory. */
    ghost predicate Valid()
      reads this
    {
      && slots.Length == CAPACITY
      && SlotAddress(CAPACITY) < 0x1_0000_0000
      && 0 <= Count() <= CAPACITY
      && taskQueuePtr == SlotAddress(Count())
    }

    ghost function Queue(): (q: seq<Task>)
      requires Valid()
      reads this, slots
      ensures |q| == Count()
    {
      slots[..Count()]
    }

    ghost function State(): Kernel
      requires Valid()
      reads this, slots
    {
      Kernel(taskIdBitmap, currentTask, Queue(), instructionPointer, rsp)
    }

    /** task_store at an address in the queue. */
    method TaskStore(r0: u32, task: Task, ghost k: nat) returns (next: u32)
      requires Valid() && k < CAPACITY && r0 == SlotAddress(k)
      modifies slots
      ensures next == SlotAddress(k + 1)
      ensures slots[..] == old(slots[..])[k := task]
    {
      slots[(r0 - taskQueueBottom) / TASK_SIZE] := task;
      next := Add32(r0, TASK_SIZE);
    }

    /** task_load at an address in the queue. */
    method TaskLoad(r0: u32, ghost k: nat) returns (task: Task)
      requires Valid() && k < CAPACITY && r0 == SlotAddress(k)
      ensures task == slots[k]
    {
      task := slots[(r0 - taskQueueBottom) / TASK_SIZE];
    }

    /** Adds a task behind the queue. */
    method Append(task: Task)
      requires Valid() && |Queue()| < CAPACITY
      modifies this`taskQueuePtr, slots
      ensures Valid() && State() == Enqueue(old(State()), task)
    {
      ghost var n := Count();
      taskQueuePtr := TaskStore(taskQueuePtr, task, n);
      assert Count() == n + 1;
      assert slots[..n + 1] == slots[..][..n + 1] == old(slots[..n]) + [task];
    }

    /** yield_task_0: continue the oldest task and shift the others down. */
    method SwitchToNext()
      requires Valid() && Queue() != []
      modifies this`currentTask, this`taskQueuePtr, this`instructionPointer, this`rsp, slots
      ensures Valid() && State() == Switch(old(State()))
    {
      ghost var q := Queue();
      ghost var n := |q|;
      var task := TaskLoad(taskQueueBottom, 0);
      currentTask := task;
      var r1 := taskQueueBottom;
      ghost var j := 0;
      while true
        invariant Valid() && Count() == n && 0 <= j < n
        invariant r1 == SlotAddress(j) && currentTask == q[0]
        invariant slots[..j] == q[1..j + 1] && slots[j + 1..n] == q[j + 1..]
        invariant taskQueuePtr == old(taskQueuePtr)
        decreases n - j
      {
        r1 := Add32(r1, TASK_SIZE);
        if taskQueuePtr == r1 {
          break;
        }
        assert j + 1 < n;
        assert slots[j + 1] == slots[j + 1..n][0] == q[j + 1];
        task := TaskLoad(r1, j + 1);
        ghost var before := slots[..];
        var r0 := TaskStore(Sub32(r1, TASK_SIZE), task, j);
        MovedDown(before, slots[..], q, j);
        assert slots[..j + 1] == slots[..][..j + 1] && slots[j + 2..n] == slots[..][j + 2..n];
        j := j + 1;
      }
      assert j == n - 1;
      task := currentTask;
      taskQueuePtr := Sub32(taskQueuePtr, TASK_SIZE);
      assert Count() == n - 1;
      rsp := task.stackPointer;
      instructionPointer := task.instructionPointer;
    }

    /** yield_task: the current task goes back into the queue, to continue behind its
        call; the return address is the word its call left at rsp. */
    method YieldTask(returnAddress: u32)
      requires Valid() && |Queue()| < CAPACITY
      modifies this`currentTask, this`taskQueuePtr, this`instructionPointer, this`rsp, slots
      ensures Valid() && State() == Yield(old(State()), returnAddress, old(rsp))
    {
      rsp := Add32(rsp, 4);
      Append(Task(currentTask.id, returnAddress, rsp));
      SwitchToNext();
    }

    /** new_task: fills two slots before one is taken out.  They are there whenever the
        scheduler is consistent and the ID unused; at boot they are there because the
        queue is empty. */
    method NewTask(id: u32, entry: u32, stackPointer: u32, returnAddress: u32)
      requires Valid() && id < 32
      requires (Consistent(State()) && !Marked(taskIdBitmap, id)) || |Queue()| + 2 <= CAPACITY
      modifies this, slots
      ensures Valid() && State() == New(old(State()), Task(id, entry, stackPointer), returnAddress, old(rsp))
      ensures old(Consistent(State()) && !Marked(taskIdBitmap, id)) ==> Consistent(State())
    {
      hide Consistent, Mark, Marked;
      ghost var task := Task(id, entry, stackPointer);
      if Consistent(State()) && !Marked(taskIdBitmap, id) {
        OperationConserves(State(), NewOp(task, returnAddress, rsp));
      }
      taskIdBitmap := Mark(taskIdBitmap, id);
      Append(Task(id, entry, stackPointer));
      YieldTask(returnAddress);
    }

    /** end_current_task_no_mark: false where the kernel panics on an empty queue. */
    method EndCurrentTaskNoMark() returns (ok: bool)
      requires Valid()
      modifies this`currentTask, this`taskQueuePtr, this`instructionPointer, this`rsp, slots
      ensures ok <==> EndNoMark(old(State())).Some?
      ensures ok ==> Valid() && Some(State()) == EndNoMark(old(State()))
    {
      rsp := Add32(rsp, 4);
      if taskQueuePtr == taskQueueBottom {
        return false;
      }
      SwitchToNext();
      ok := true;
    }

    /** end_current_task: the same, after giving up the task's ID. */
    method EndCurrentTask() returns (ok: bool)
      requires Valid() && currentTask.id < 32
      modifies this, slots
      ensures ok <==> End(old(State())).Some?
      ensures ok ==> Valid() && Some(State()) == End(old(State()))
      ensures ok && old(Consistent(State())) ==> Consistent(State())
    {
      hide Consistent, Mark, Marked, Unmark;
      if Consistent(State()) {
        OperationConserves(State(), EndOp);
      }
      taskIdBitmap := Unmark(taskIdBitmap, currentTask.id);
      ok := EndCurrentTaskNoMark();
    }

    /** get_unused_task_id: the lowest unused ID from 1 up, or 0 if there is none. */
    method GetUnusedTaskId() returns (r0: u32)
      ensures r0 < 32
      ensures r0 != 0 ==> !Marked(taskIdBitmap, r0)
      ensures forall id :: 1 <= id < (if r0 == 0 then 32 else r0) ==> Marked(taskIdBitmap, id)
    {
      hide Marked;
      r0 := 1;
      while true
        invariant 1 <= r0 < 32
        invariant forall id :: 1 <= id < r0 ==> Marked(taskIdBitmap, id)
        decreases 32 - r0
      {
        if !Marked(taskIdBitmap, r0) {
          return;
        }
        r0 := Add32(r0, 1);
        if r0 >= 32 {
          break;
        }
      }
      r0 := 0;
    }
  }

  /** Copying one slot down moves the gap up by one. */
  lemma MovedDown(before: seq<Task>, after: seq<Task>, q: seq<Task>, j: nat)
    requires j + 1 < |q| <= |before| && before[..j] == q[1..j + 1] && before[j + 1..|q|] == q[j + 1..]
    requires after == before[j := q[j + 1]]
    ensures after[..j + 1] == q[1..j + 2] && after[j + 2..|q|] == q[j + 2..]
  {
    assert after[j + 2..|q|] == before[j + 1..|q|][1..];
  }
}
