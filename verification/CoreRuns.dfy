/** Properties of whole runs of the C interpreter: failing steps leave memory
    alone, ROM never changes, and resuming composes. */
module CoreRuns {
  import opened Words
  import opened Memory
  import opened Core

  // ----- failing steps

  /** A step that reports an error has changed neither RAM nor ROM nor the
      instruction pointer, and leaves the machine halted. */
  lemma FailingStepIsClean(vm: Vm, bus: Bus)
    requires Step(vm, bus).Report? && Step(vm, bus).error.Some?
    ensures
      var after := Step(vm, bus).vm;
      after.ram == vm.ram && after.rom == vm.rom && after.pointerInstr == vm.pointerInstr && after.halted
  {
    hide Dispatch, Read;
  }

  /** A push that fails has moved the stack pointer, and changed nothing else; one from
      an empty stack at address 0 does fail. */
  lemma FailingPushMovesStack(vm: Vm, size: Size, value: u32)
    ensures
      var o := Push(vm, size, value);
      && (o.Panic? ==>
           && o.vm == vm.(pointerStack := Sub32(vm.pointerStack, Bytes(size)))
           && o.vm.pointerStack != vm.pointerStack)
      && (vm.pointerStack == 0 ==> o.Panic?)
  {
    hide Store;
  }

  // ----- runs

  /** What a host may do with the machine. */
  datatype Action = DoStep | DoResume(count: u32) | DoRaise(vector: u16)

  function Act(vm: Vm, action: Action, bus: Bus): Report {
    match action
    case DoStep => Step(vm, bus)
    case DoResume(count) => Resume(vm, count, bus)
    case DoRaise(vector) => Raise(vm, vector)
  }

  /** Perform actions in order, whatever errors they report. */
  function ActAll(vm: Vm, actions: seq<Action>, bus: Bus): Report
    decreases |actions|
  {
    if actions == [] then Report(vm, None)
    else
      match Act(vm, actions[0], bus)
      case Report(vm', _) => ActAll(vm', actions[1..], bus)
      case Lost => Lost
  }

  lemma {:induction false} ResumeKeepsRom(vm: Vm, count: nat, bus: Bus)
    ensures Resume(vm, count, bus).Report? ==> Resume(vm, count, bus).vm.rom == vm.rom
    decreases count
  {
    hide Execute;
    if !vm.halted && count != 0 && Execute(vm, bus).Done? {
      ResumeKeepsRom(Execute(vm, bus).vm, count - 1, bus);
    }
  }

  lemma RaiseKeepsRom(vm: Vm, vector: u16)
    ensures Raise(vm, vector).Report? ==> Raise(vm, vector).vm.rom == vm.rom
  {
    hide Read, Push;
  }

  /** No run, failing or not, ever changes ROM. */
  lemma {:induction false} RomIsConstant(vm: Vm, actions: seq<Action>, bus: Bus)
    ensures ActAll(vm, actions, bus).Report? ==> ActAll(vm, actions, bus).vm.rom == vm.rom
    decreases |actions|
  {
    hide Execute, Resume, Raise;
    if actions != [] {
      var action := actions[0];
      match action {
        case DoStep =>
        case DoResume(count) => ResumeKeepsRom(vm, count, bus);
        case DoRaise(vector) => RaiseKeepsRom(vm, vector);
      }
      if Act(vm, action, bus).Report? {
        RomIsConstant(Act(vm, action, bus).vm, actions[1..], bus);
      }
    }
  }

  // ----- resuming

  /** How many instructions a call of Resume starts. */
  function Executed(vm: Vm, count: nat, bus: Bus): nat
    decreases count
  {
    if vm.halted || count == 0 then 0
    else
      match Execute(vm, bus)
      case Done(vm', _) => 1 + Executed(vm', count - 1, bus)
      case _ => 1
  }

  /** Resuming twice is resuming once with the sum of the counts: same machine
      state, same first error, same number of instructions; and no call exceeds
      its count. */
  lemma {:induction false} ResumeComposes(vm: Vm, a: nat, b: nat, bus: Bus)
    ensures
      var first, both := Resume(vm, a, bus), Resume(vm, a + b, bus);
      && Executed(vm, a, bus) <= a
      && (first.Lost? ==> both.Lost?)
      && (first.Report? ==>
           var second := Resume(first.vm, b, bus);
           && Executed(vm, a + b, bus) == Executed(vm, a, bus) + Executed(first.vm, b, bus)
           && (second.Lost? ==> both.Lost?)
           && (second.Report? ==>
                && both.Report?
                && both.vm == second.vm
                && both.error == if first.error.Some? then first.error else second.error))
    decreases a
  {
    hide Execute;
    if !vm.halted && a != 0 {
      if Execute(vm, bus).Done? {
        ResumeComposes(Execute(vm, bus).vm, a - 1, b, bus);
      }
    }
  }

  /** A run that reports no error either used up its count or is halted. */
  lemma {:induction false} ResumeStops(vm: Vm, count: nat, bus: Bus)
    requires Resume(vm, count, bus).Report?
    ensures Resume(vm, count, bus).vm.halted || Executed(vm, count, bus) == count
    decreases count
  {
    hide Execute;
    if !vm.halted && count != 0 && Execute(vm, bus).Done? {
      ResumeStops(Execute(vm, bus).vm, count - 1, bus);
    }
  }
}
