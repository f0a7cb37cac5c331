/** The two interpreters as interchangeable runtimes: started alike, the two machines
    stay alike. */
module Runtimes {
  import opened Words
  import opened Memory
  import C = Core
  import R = Cpu
  import opened Lockstep
  import opened Completion
  import opened CoreMachine
  import opened CpuMachine

  /** The two machines share no memory and are in the same state. */
  ghost predicate Alike(machine: Machine, processor: Processor)
    reads machine, machine.registers, machine.memoryRam, machine.memoryRom
    reads processor, processor.register, processor.ram, processor.rom
  {
    && machine.Valid() && processor.Valid()
    && machine.registers != processor.register
    && {machine.memoryRam, machine.memoryRom} !! {processor.ram, processor.rom}
    && processor.State() == OfVm(machine.State())
  }

  /** Runs both side by side for n instructions or until they halt; false if either
      fails, which is when the Rust one fails or a step is not one the C one follows.  If
      neither does, they end alike. */
  method RunBoth(machine: Machine, processor: Processor, n: nat, bus: Bus) returns (ok: bool)
    requires Alike(machine, processor) && CoveredRun(processor.State(), n, bus)
    modifies machine, machine.registers, machine.memoryRam
    modifies processor, processor.register, processor.ram, processor.rom
    ensures ok <==>
      CoreRun(old(machine.State()), n, bus).Some? && CpuRun(old(processor.State()), n, bus).Some?
    ensures ok <==>
      CpuRun(old(processor.State()), n, bus).Some? && FollowedRun(old(processor.State()), n, bus)
    ensures ok ==> Alike(machine, processor) && Some(machine.State()) == CoreRun(old(machine.State()), n, bus)
  {
    hide C.Execute, R.ExecuteMemoryInstruction, Covered, Next, CoreFollows;
    ghost var vm, cpu := machine.State(), processor.State();
    if CpuRun(cpu, n, bus).Some? {
      RunsFollow(vm, n, bus);
    }
    var remaining := n;
    while remaining > 0 && !machine.halted
      invariant 0 <= remaining <= n
      invariant Alike(machine, processor) && CoveredRun(processor.State(), remaining, bus)
      invariant CoreRun(machine.State(), remaining, bus) == CoreRun(vm, n, bus)
      invariant CpuRun(processor.State(), remaining, bus) == CpuRun(cpu, n, bus)
      decreases remaining
    {
      ghost var before := machine.State();
      var status := machine.Execute(bus);
      var moved := processor.ExecuteMemoryInstruction(bus);
      if status != Ok || !moved {
        return false;
      }
      StepAgrees(before, bus);
      remaining := remaining - 1;
    }
    ok := true;
  }
}
