/** Recovering from a failed instruction of the C interpreter: a handler is entered, its
    RETI leads back to the instruction that failed, and it then finds the state it had
    before exactly when the failing step kept it. */
module Recovery {
  import opened Words
  import opened Memory
  import opened Core
  import opened CoreRuns
  import opened Interrupts
  import opened Restart

  /** The word of the vector table that holds an error's handler: the debugger's, the memory
      fault's, the illegal instruction's, the division's, the bus error's. */
  function HandlerSlot(error: Error): nat
    requires !error.NoInterrupts? && !error.CantRecover?
  {
    match error
    case Debugger => 0
    case Fault => 4
    case BadOpcode => 8
    case BadCondition => 8
    case BadRegister => 8
    case BadImmediate => 8
    case DivZero => 12
    case IoRead => 16
    case IoWrite => 16
  }

  /** Recovering enters the handler of the error, and of no other. */
  lemma RecoverEnters(vm: Vm, error: Error)
    requires Recover(vm, error).Report? && Recover(vm, error).error.None?
    ensures !error.NoInterrupts? && !error.CantRecover?
    ensures Recover(vm, error).vm.pointerInstr == Load(Word, vm.ram, HandlerSlot(error))
    ensures !Recover(vm, error).vm.flagInterrupt
  {
    hide Raise, Load, WithFrame;
    CoreRaised(vm, ExceptionOf(error).value);
  }

  /** Every error a step can report has a handler's vector, so recovering fails only as
      raising does: when interrupts are off or the frame does not fit. */
  lemma EveryFailureHasHandler(vm: Vm, bus: Bus)
    requires Step(vm, bus).Report? && Step(vm, bus).error.Some?
    ensures
      var failed := Step(vm, bus);
      && ExceptionOf(failed.error.value).Some?
      && Recover(failed.vm, failed.error.value).Report?
      && (Recover(failed.vm, failed.error.value).error.None?
          <==> failed.vm.flagInterrupt && RoomForFrame(failed.vm.pointerStack))
      && (Recover(failed.vm, failed.error.value).error.None? ==>
           Recover(failed.vm, failed.error.value).vm.pointerInstr
           == Load(Word, vm.ram, HandlerSlot(failed.error.value)))
  {
    hide Execute, Raise, Recover, Load;
    var failed := Step(vm, bus);
    FailingStepIsClean(vm, bus);
    RecoverIsRaise(failed.vm, failed.error.value);
    CoreRaiseSucceeds(failed.vm, ExceptionOf(failed.error.value).value);
    if Recover(failed.vm, failed.error.value).error.None? {
      RecoverEnters(failed.vm, failed.error.value);
    }
  }

  lemma RecoverIsRaise(vm: Vm, error: Error)
    requires FromInstruction(error)
    ensures ExceptionOf(error).Some? && Recover(vm, error) == Raise(vm, ExceptionOf(error).value)
  {
    hide Raise;
  }

  /** A step has failed, its handler was entered, and the machine stands at that
      handler's RETI with the saved frame and the stack pointer as the handler got
      them. */
  predicate HandlerReturns(vm: Vm, handled: Vm, bus: Bus) {
    var failed := Step(vm, bus);
    && failed.Report? && failed.error.Some?
    && failed.vm.flagInterrupt && RoomForFrame(failed.vm.pointerStack)
    && var entered := Recover(failed.vm, failed.error.value);
    && entered.Report?
    && var sp := failed.vm.pointerStack;
    && handled.pointerStack == sp - 5
    && handled.ram[sp - 5..sp] == entered.vm.ram[sp - 5..sp]
    && CoreAtReti(handled)
  }

  /** The handler's RETI continues at the instruction that failed, with the flags and
      the stack pointer the failing step left; everything else is as the handler left
      it.  Entering the handler has changed RAM only in the saved frame. */
  lemma FailedInstructionRestarts(vm: Vm, handled: Vm, bus: Bus)
    requires HandlerReturns(vm, handled, bus)
    ensures
      var failed := Step(vm, bus).vm;
      var sp := failed.pointerStack;
      var entered := Recover(failed, Step(vm, bus).error.value);
      && entered.error.None?
      && entered.vm.pointerInstr == Load(Word, vm.ram, HandlerSlot(Step(vm, bus).error.value))
      && entered.vm.ram[..sp - 5] == vm.ram[..sp - 5] && entered.vm.ram[sp..] == vm.ram[sp..]
      && entered.vm.rom == vm.rom && entered.vm.registers == failed.registers && entered.vm.io == failed.io
      && Execute(handled, bus).Done?
      && Execute(handled, bus).vm == handled.(
           pointerInstr := vm.pointerInstr, pointerInstrMut := vm.pointerInstr, pointerStack := sp,
           flagZero := failed.flagZero, flagCarry := failed.flagCarry, flagInterrupt := failed.flagInterrupt)
  {
    hide Execute, Raise, Step, CoreAtReti, WithFrame, Load;
    var failed := Step(vm, bus);
    EveryFailureHasHandler(vm, bus);
    FailingStepIsClean(vm, bus);
    var vector := ExceptionOf(failed.error.value).value;
    CoreRaised(failed.vm, vector);
    CoreInterruptRoundTrip(failed.vm, vector, handled, bus);
  }

  /** If the handler also gives back registers, memory and bus history as it got them,
      the failed instruction runs again from the state it failed in, apart from the
      halted mark and the frame left in RAM, if and only if it keeps the state when it
      fails. */
  lemma RestartsUnchanged(vm: Vm, handled: Vm, bus: Bus)
    requires HandlerReturns(vm, handled, bus)
    requires
      var entered := Recover(Step(vm, bus).vm, Step(vm, bus).error.value).vm;
      && handled.registers == entered.registers && handled.io == entered.io
      && handled.ram == entered.ram && handled.rom == entered.rom
    ensures Execute(handled, bus).Done?
    ensures
      var restarted := Execute(handled, bus).vm;
      restarted == vm.(
        halted := restarted.halted, pointerInstrMut := restarted.pointerInstrMut, ram := restarted.ram)
      <==> KeepsState(vm, bus)
  {
    hide Execute, Step, Recover, CoreAtReti, KeepsState;
    FailedInstructionRestarts(vm, handled, bus);
    FailingStepIsClean(vm, bus);
    FailedStepKeepsState(vm, bus);
  }
}
