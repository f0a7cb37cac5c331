/** The ROM's event queue (fox32rom/event.asm) under interrupts: a machine of small
    steps in which the vsync handler may run between any two instructions of the main
    program while the interrupt flag is set.

    A step is one instruction that touches the queue, its pointer, the flags or the
    saved registers; copying one event of eight words is one step, which happens only
    where interrupts are off.  Jumps, calls and returns inside the routines are folded
    into the step before them. */
module EventQueue {
  import opened Words

  const EVENT_SIZE: u32 := 32
  const EVENT_TEMP: u32 := 0x01FF_FBDA
  const EVENT_QUEUE_BOTTOM: u32 := 0x01FF_FBFE
  const CAPACITY: nat := 32
  const EVENT_TYPE_EMPTY: u32 := 0xFFFF_FFFF

  /** An event: its type and parameters, as passed in r0 to r7. */
  datatype Event = Event(r0: u32, r1: u32, r2: u32, r3: u32, r4: u32, r5: u32, r6: u32, r7: u32)

  const EMPTY := Event(EVENT_TYPE_EMPTY, 0, 0, 0, 0, 0, 0, 0)

  type Slots = s: seq<Event> | |s| == CAPACITY witness seq(CAPACITY, _ => EMPTY)

  /** Where the main program stands. */
  datatype Pc =
    | Outside
    | WaitInitCmp | WaitInitMov | WaitIse | WaitHalt | WaitCmp | WaitBranch
    | NextInitCmp | NextInitMov | NextCmp | NextBranch | Empty
    | Icl | PushR8 | PushR9 | LoadBottom | StoreTemp | SetR9
    | AddR9 | CmpR9 | BranchR9 | LoadSlot | StoreSlot
    | LoadTemp | SubPointer | PopR9 | PopR8 | Ise | Ret

  /** Where the interrupt handler stands: between events, or inside event_new. */
  datatype HandlerPc =
    | Between
    | NewInitCmp | NewInitMov | NewPushR8 | NewReadPointer | NewStore | NewWritePointer | NewPopR8

  /** The handler's position and what entering it saved. */
  datatype Handler = Handler(pc: HandlerPc, savedRegs: Event, savedZero: bool)

  /** The machine, with history: the events produced, the queued events delivered, and what
      the registers held at every return of event_next or event_wait. */
  datatype State = State(
    pointer: u32,
    temp: Event,
    slots: Slots,
    pc: Pc,
    regs: Event,
    r8: u32,
    r9: u32,
    stack: seq<u32>,
    zero: bool,
    interrupts: bool,
    halted: bool,
    handler: Option<Handler>,
    produced: seq<Event>,
    delivered: seq<Event>,
    returned: seq<Event>)

  // ----- the queue's memory and the stack

  function SlotAddress(k: nat): int {
    EVENT_QUEUE_BOTTOM + EVENT_SIZE * k
  }

  /** The slot at an address, if there is one. */
  function SlotAt(address: u32): (k: Option<nat>)
    ensures k.Some? ==> k.value < CAPACITY && address == SlotAddress(k.value)
  {
    if address < EVENT_QUEUE_BOTTOM || (address - EVENT_QUEUE_BOTTOM) % EVENT_SIZE != 0 then None
    else
      var k: nat := (address - EVENT_QUEUE_BOTTOM) / EVENT_SIZE;
      if k < CAPACITY then Some(k) else None
  }

  function Push(s: State, v: u32): State {
    s.(stack := s.stack + [v])
  }

  function Pop(s: State): Option<(State, u32)> {
    if s.stack == [] then None
    else Some((s.(stack := s.stack[..|s.stack| - 1]), s.stack[|s.stack| - 1]))
  }

  // ----- the main program

  /** Steps of event_wait. */
  function WaitStep(s: State): State {
    match s.pc
    case WaitInitCmp => s.(zero := s.pointer == 0, pc := WaitInitMov)
    case WaitInitMov => s.(pointer := if s.zero then EVENT_QUEUE_BOTTOM else s.pointer, pc := WaitIse)
    case WaitIse => s.(interrupts := true, pc := WaitHalt)
    case WaitHalt => s.(halted := true, pc := WaitCmp)
    case WaitCmp => s.(zero := s.pointer == EVENT_QUEUE_BOTTOM, pc := WaitBranch)
    case _ => s.(pc := if s.zero then WaitIse else Icl)
  }

  /** Steps of event_next before interrupts are masked. */
  function EntryStep(s: State): State {
    match s.pc
    case NextInitCmp => s.(zero := s.pointer == 0, pc := NextInitMov)
    case NextInitMov => s.(pointer := if s.zero then EVENT_QUEUE_BOTTOM else s.pointer, pc := NextCmp)
    case NextCmp => s.(zero := s.pointer == EVENT_QUEUE_BOTTOM, pc := NextBranch)
    case NextBranch => s.(pc := if s.zero then Empty else Icl)
    case _ => s.(regs := EMPTY, pc := Outside)
  }

  /** Steps of event_next_0; None if one would leave the queue's memory or pop an
      empty stack. */
  function DequeueStep(s: State): Option<State> {
    match s.pc
    case Icl => Some(s.(interrupts := false, pc := PushR8))
    case PushR8 => Some(Push(s, s.r8).(pc := PushR9))
    case PushR9 => Some(Push(s, s.r9).(pc := LoadBottom))
    case LoadBottom => Some(s.(regs := s.slots[0], r8 := EVENT_QUEUE_BOTTOM + EVENT_SIZE, pc := StoreTemp))
    case StoreTemp => Some(s.(temp := s.regs, r8 := EVENT_TEMP + EVENT_SIZE, pc := SetR9))
    case SetR9 => Some(s.(r9 := EVENT_QUEUE_BOTTOM, pc := AddR9))
    case AddR9 => Some(s.(r9 := Add32(s.r9, EVENT_SIZE), pc := CmpR9))
    case CmpR9 => Some(s.(zero := s.pointer == s.r9, pc := BranchR9))
    case BranchR9 => Some(s.(pc := if s.zero then LoadTemp else LoadSlot))
    case LoadSlot =>
      var k :- SlotAt(s.r9);
      Some(s.(regs := s.slots[k], r8 := Add32(s.r9, EVENT_SIZE), pc := StoreSlot))
    case StoreSlot =>
      var k :- SlotAt(Sub32(s.r9, EVENT_SIZE));
      Some(s.(slots := s.slots[k := s.regs], r8 := s.r9, pc := AddR9))
    case LoadTemp => Some(s.(regs := s.temp, r8 := EVENT_TEMP + EVENT_SIZE, pc := SubPointer))
    case SubPointer =>
      var p := Sub32(s.pointer, EVENT_SIZE);
      Some(s.(pointer := p, zero := p == 0, pc := PopR9))
    case PopR9 =>
      var (s, v) :- Pop(s);
      Some(s.(r9 := v, pc := PopR8))
    case PopR8 =>
      var (s, v) :- Pop(s);
      Some(s.(r8 := v, pc := Ise))
    case Ise => Some(s.(interrupts := true, pc := Ret))
    case _ => Some(s.(delivered := s.delivered + [s.regs], pc := Outside))
  }

  predicate Waiting(pc: Pc) {
    pc.WaitInitCmp? || pc.WaitInitMov? || pc.WaitIse? || pc.WaitHalt? || pc.WaitCmp? || pc.WaitBranch?
  }

  predicate Entering(pc: Pc) {
    pc.NextInitCmp? || pc.NextInitMov? || pc.NextCmp? || pc.NextBranch? || pc.Empty?
  }

  /** From the instruction after icl to the ise. */
  predicate Masked(pc: Pc) {
    !pc.Outside? && !Waiting(pc) && !Entering(pc) && !pc.Icl? && !pc.Ret?
  }

  /** What the registers hold when a routine returns goes into the history. */
  function Recorded(t: State): State {
    if t.pc.Outside? then t.(returned := t.returned + [t.regs]) else t
  }

  function MainStep(s: State): Option<State> {
    var t :-
      if Waiting(s.pc) then Some(WaitStep(s))
      else if Entering(s.pc) then Some(EntryStep(s))
      else DequeueStep(s);
    Some(Recorded(t))
  }

  // ----- the interrupt handler

  function At(s: State, h: Handler, pc: HandlerPc): State {
    s.(handler := Some(h.(pc := pc)))
  }

  /** Steps of event_new, run by the handler. */
  function HandlerStep(s: State, h: Handler): Option<State> {
    match h.pc
    case NewInitCmp => Some(At(s.(zero := s.pointer == 0), h, NewInitMov))
    case NewInitMov => Some(At(s.(pointer := if s.zero then EVENT_QUEUE_BOTTOM else s.pointer), h, NewPushR8))
    case NewPushR8 => Some(At(Push(s, s.r8), h, NewReadPointer))
    case NewReadPointer => Some(At(s.(r8 := s.pointer), h, NewStore))
    case NewStore =>
      var k :- SlotAt(s.r8);
      Some(At(s.(slots := s.slots[k := s.regs], r8 := Add32(s.r8, EVENT_SIZE)), h, NewWritePointer))
    case NewWritePointer => Some(At(s.(pointer := s.r8), h, NewPopR8))
    case _ =>
      var (s, v) :- Pop(s);
      Some(At(s.(r8 := v), h, Between))
  }

  // ----- the whole machine

  /** What can happen next.  Program stands for any code of the main program outside
      the queue's routines. */
  datatype Action =
    | Main
    | CallNext
    | CallWait
    | Program(regs: Event, r8: u32, r9: u32, stack: seq<u32>, zero: bool, interrupts: bool)
    | Interrupt
    | NewEvent(event: Event)
    | Handle
    | Reti

  predicate Running(s: State) {
    s.handler.None? && !s.halted
  }

  /** The action can happen: the main program runs outside the handler, an interrupt
      needs the flag, and the handler adds an event only while there is room. */
  predicate Enabled(s: State, a: Action) {
    match a
    case Main => Running(s) && !s.pc.Outside?
    case CallNext | CallWait | Program(_, _, _, _, _, _) => Running(s) && s.pc.Outside?
    case Interrupt => s.handler.None? && s.interrupts
    case NewEvent(_) =>
      s.handler.Some? && s.handler.value.pc.Between? && (s.pointer == 0 || SlotAt(s.pointer).Some?)
    case Handle => s.handler.Some? && !s.handler.value.pc.Between?
    case Reti => s.handler.Some? && s.handler.value.pc.Between?
  }

  function Apply(s: State, a: Action): Option<State>
    requires Enabled(s, a)
  {
    match a
    case Main => MainStep(s)
    case CallNext => Some(s.(pc := NextInitCmp))
    case CallWait => Some(s.(pc := WaitInitCmp))
    case Program(regs, r8, r9, stack, zero, interrupts) =>
      Some(s.(regs := regs, r8 := r8, r9 := r9, stack := stack, zero := zero, interrupts := interrupts))
    case Interrupt =>
      Some(s.(handler := Some(Handler(Between, s.regs, s.zero)), interrupts := false, halted := false))
    case NewEvent(event) =>
      Some(At(s.(regs := event, produced := s.produced + [event]), s.handler.value, NewInitCmp))
    case Handle => HandlerStep(s, s.handler.value)
    case Reti =>
      var h := s.handler.value;
      Some(s.(regs := h.savedRegs, zero := h.savedZero, interrupts := true, handler := None))
  }

  /** The state after a list of actions; None if one was not possible. */
  function Run(s: State, actions: seq<Action>): Option<State> {
    if actions == [] then Some(s)
    else
      var before :- Run(s, actions[..|actions| - 1]);
      var a := actions[|actions| - 1];
      if Enabled(before, a) then Apply(before, a) else None
  }

  /** The queue is empty, or its pointer has never been set; the main program is
      elsewhere. */
  predicate Initial(s: State) {
    && (s.pointer == EVENT_QUEUE_BOTTOM || s.pointer == 0) && s.pc.Outside? && s.handler.None? && !s.halted
    && s.produced == [] && s.delivered == [] && s.returned == []
  }

  // ----- what is in the queue

  /** The number of events below the queue's end address. */
  function Count(s: State): nat {
    if s.pointer < EVENT_QUEUE_BOTTOM then 0 else (s.pointer - EVENT_QUEUE_BOTTOM) / EVENT_SIZE
  }

  /** The slot number r9 stands for. */
  function Index(s: State): nat {
    if s.r9 < EVENT_QUEUE_BOTTOM then 0 else (s.r9 - EVENT_QUEUE_BOTTOM) / EVENT_SIZE
  }

  predicate Shaped(s: State) {
    s.pointer == SlotAddress(Count(s)) && Count(s) <= CAPACITY
  }

  /** The same, or the pointer has not been set yet. */
  predicate Placed(s: State) {
    Shaped(s) || s.pointer == 0
  }

  /** The zero flag of the main program, which the handler saves. */
  function MainZero(s: State): bool {
    if s.handler.Some? then s.handler.value.savedZero else s.zero
  }

  /** The main program has found the pointer unset and is about to set it. */
  predicate FirstUse(pc: Pc, zero: bool) {
    (pc.WaitInitMov? || pc.NextInitMov?) && zero
  }

  /** Where the pointer may be unset. */
  predicate BeforeUse(pc: Pc, zero: bool) {
    pc.Outside? || pc.WaitInitCmp? || pc.NextInitCmp? || FirstUse(pc, zero)
  }

  /** Every queued event, oldest first: those in the slots, and while the main program
      is taking one out, the one that is on its way. */
  function Contents(s: State): seq<Event>
    requires Count(s) <= CAPACITY
  {
    var n, j := Count(s), Index(s);
    match s.pc
    case AddR9 => if j < n then [s.temp] + s.slots[..j] + s.slots[j + 1..n] else []
    case CmpR9 | BranchR9 | LoadSlot | StoreSlot =>
      if 1 <= j <= n then [s.temp] + s.slots[..j - 1] + s.slots[j..n] else []
    case LoadTemp => if n > 0 then [s.temp] + s.slots[..n - 1] else []
    case SubPointer => if n > 0 then [s.regs] + s.slots[..n - 1] else []
    case PopR9 | PopR8 | Ise => [s.regs] + s.slots[..n]
    case Ret => [if s.handler.Some? then s.handler.value.savedRegs else s.regs] + s.slots[..n]
    case _ => s.slots[..n]
  }

  /** The event the handler is adding, if it is not in the queue yet. */
  function Arriving(s: State): seq<Event> {
    if s.handler.None? || s.handler.value.pc.Between? || s.handler.value.pc.NewPopR8? then [] else [s.regs]
  }

  /** What each point of the main program relies on. */
  predicate MainInvariant(s: State, zero: bool) {
    var n, j := Count(s), Index(s);
    && n <= CAPACITY
    && (s.pointer == 0 ==> BeforeUse(s.pc, zero))
    && (FirstUse(s.pc, zero) ==> n == 0)
    && (s.halted ==> s.pc.WaitCmp?)
    && (Masked(s.pc) ==> !s.interrupts && s.handler.None?)
    && match s.pc
       case WaitBranch | NextBranch => zero || n > 0
       case Icl | PushR8 => n > 0
       case PushR9 => n > 0 && |s.stack| >= 1
       case LoadBottom => n > 0 && |s.stack| >= 2
       case StoreTemp => n > 0 && |s.stack| >= 2 && s.regs == s.slots[0]
       case SetR9 => n > 0 && |s.stack| >= 2 && s.temp == s.slots[0]
       case AddR9 => s.r9 == SlotAddress(j) && j < n && |s.stack| >= 2
       case CmpR9 => s.r9 == SlotAddress(j) && 1 <= j <= n && |s.stack| >= 2
       case BranchR9 => s.r9 == SlotAddress(j) && 1 <= j <= n && |s.stack| >= 2 && (s.zero <==> j == n)
       case LoadSlot => s.r9 == SlotAddress(j) && 1 <= j < n && |s.stack| >= 2
       case StoreSlot => s.r9 == SlotAddress(j) && 1 <= j < n && |s.stack| >= 2 && s.regs == s.slots[j]
       case LoadTemp => s.r9 == SlotAddress(n) && n > 0 && |s.stack| >= 2
       case SubPointer => n > 0 && |s.stack| >= 2
       case PopR9 => |s.stack| >= 2
       case PopR8 => |s.stack| >= 1
       case _ => true
  }

  predicate HandlerInvariant(s: State) {
    s.handler.Some? ==>
      && !s.interrupts && !s.halted
      && match s.handler.value.pc
         case NewInitCmp => Count(s) < CAPACITY
         case NewInitMov => Count(s) < CAPACITY && (s.zero <==> s.pointer == 0)
         case NewPushR8 => Count(s) < CAPACITY && s.pointer != 0
         case NewReadPointer => Count(s) < CAPACITY && s.pointer != 0 && s.stack != []
         case NewStore => Count(s) < CAPACITY && s.pointer != 0 && s.stack != [] && s.r8 == s.pointer
         case NewWritePointer =>
           && Count(s) < CAPACITY && s.pointer != 0 && s.stack != []
           && s.r8 == s.pointer + EVENT_SIZE && s.slots[Count(s)] == s.regs
         case NewPopR8 => s.stack != []
         case Between => true
  }

  /** Conservation and order: what was produced is what was delivered, then what is
      queued, then what is arriving. */
  predicate Invariant(s: State) {
    && Placed(s)
    && MainInvariant(s, MainZero(s))
    && HandlerInvariant(s)
    && (s.handler.Some? && FirstUse(s.pc, MainZero(s)) ==> s.handler.value.pc.Between?)
    && s.produced == s.delivered + Contents(s) + Arriving(s)
  }

  // ----- every step keeps it

  lemma AddressOfSlot(s: State)
    requires Placed(s)
    ensures s.pointer == 0 ==> Count(s) == 0
    ensures s.pointer != 0 ==>
      && s.pointer == SlotAddress(Count(s)) && Count(s) <= CAPACITY
      && (Count(s) < CAPACITY <==> SlotAt(s.pointer).Some?)
      && (Count(s) < CAPACITY ==> SlotAt(s.pointer) == Some(Count(s)))
      && s.pointer + EVENT_SIZE < 0x1_0000_0000
      && (s.pointer == EVENT_QUEUE_BOTTOM <==> Count(s) == 0)
  {
  }

  lemma WaitKeeps(s: State)
    requires Invariant(s) && s.handler.None? && !s.halted && Waiting(s.pc)
    ensures Invariant(WaitStep(s))
  {
    AddressOfSlot(s);
  }

  lemma EntryKeeps(s: State)
    requires Invariant(s) && s.handler.None? && !s.halted && Entering(s.pc)
    ensures Invariant(EntryStep(s))
  {
    AddressOfSlot(s);
  }

  /** Up to the shifting loop. */
  lemma TakeKeeps(s: State)
    requires Invariant(s) && s.handler.None? && !s.halted
    requires s.pc.Icl? || s.pc.PushR8? || s.pc.PushR9? || s.pc.LoadBottom? || s.pc.StoreTemp? || s.pc.SetR9?
    ensures DequeueStep(s).Some? && Invariant(DequeueStep(s).value)
  {
    var t := DequeueStep(s).value;
    if s.pc.SetR9? {
      assert Index(t) == 0;
      assert s.slots[..Count(s)] == [s.temp] + s.slots[..0] + s.slots[1..Count(s)];
    }
  }

  /** The shifting loop. */
  lemma AddKeeps(s: State)
    requires Invariant(s) && s.handler.None? && !s.halted && s.pc.AddR9?
    ensures DequeueStep(s).Some? && Invariant(DequeueStep(s).value)
  {
    var t := DequeueStep(s).value;
    assert t.r9 == SlotAddress(Index(s) + 1) && Index(t) == Index(s) + 1;
  }

  /** Equal addresses are equal slots. */
  lemma AddressOfIndex(s: State)
    requires Shaped(s) && s.r9 == SlotAddress(Index(s))
    ensures s.pointer == s.r9 <==> Index(s) == Count(s)
  {
  }

  lemma CmpKeeps(s: State)
    requires Invariant(s) && s.handler.None? && !s.halted && (s.pc.CmpR9? || s.pc.BranchR9?)
    ensures DequeueStep(s).Some? && Invariant(DequeueStep(s).value)
  {
    hide Count, Index;
    AddressOfIndex(s);
    SamePlaces(s, DequeueStep(s).value);
    var n := Count(s);
    if s.pc.BranchR9? && s.zero {
      assert [s.temp] + s.slots[..n - 1] + s.slots[n..n] == [s.temp] + s.slots[..n - 1];
    }
  }

  lemma LoadKeeps(s: State)
    requires Invariant(s) && s.handler.None? && !s.halted && s.pc.LoadSlot?
    ensures DequeueStep(s).Some? && Invariant(DequeueStep(s).value)
  {
    hide Count, Index, SlotAt, SlotAddress;
    SlotOf(s.r9, Index(s));
    SamePlaces(s, DequeueStep(s).value);
  }

  /** The counts depend on the two pointers only. */
  lemma SamePlaces(s: State, t: State)
    requires t.pointer == s.pointer && t.r9 == s.r9
    ensures Count(t) == Count(s) && Index(t) == Index(s)
  {
  }

  lemma SlotOf(address: u32, k: nat)
    requires address == SlotAddress(k) && k < CAPACITY
    ensures SlotAt(address) == Some(k)
  {
  }

  lemma StoreKeeps(s: State)
    requires Invariant(s) && s.handler.None? && !s.halted && s.pc.StoreSlot?
    ensures DequeueStep(s).Some? && Invariant(DequeueStep(s).value)
  {
    hide DequeueStep, SlotAt, Contents;
    var j := Index(s);
    CopyStep(s, j - 1);
    var t := s.(slots := s.slots[j - 1 := s.regs], r8 := s.r9, pc := AddR9);
    StoreContents(s, t);
  }

  lemma StoreContents(s: State, t: State)
    requires Shaped(s) && s.pc.StoreSlot? && 1 <= Index(s) < Count(s) && s.regs == s.slots[Index(s)]
    requires t == s.(slots := s.slots[Index(s) - 1 := s.regs], r8 := s.r9, pc := AddR9)
    ensures Contents(t) == Contents(s)
  {
    ShiftOne(s.slots, s.temp, Index(s), Count(s));
  }

  lemma CopyStep(s: State, j: nat)
    requires s.pc.StoreSlot? && j + 1 < CAPACITY && s.r9 == SlotAddress(j + 1)
    ensures MainStep(s) == DequeueStep(s) == Some(s.(slots := s.slots[j := s.regs], r8 := s.r9, pc := AddR9))
  {
    assert Sub32(s.r9, EVENT_SIZE) == SlotAddress(j);
    assert SlotAt(SlotAddress(j)) == Some(j);
  }

  /** Copying slot j down moves the gap up by one. */
  lemma ShiftOne(slots: Slots, temp: Event, j: nat, n: nat)
    requires 1 <= j < n <= CAPACITY
    ensures
      var after := slots[j - 1 := slots[j]];
      [temp] + after[..j] + after[j + 1..n] == [temp] + slots[..j - 1] + slots[j..n]
  {
    var after := slots[j - 1 := slots[j]];
    assert after[..j] == slots[..j - 1] + [slots[j]];
    assert slots[j..n] == [slots[j]] + slots[j + 1..n];
    assert after[j + 1..n] == slots[j + 1..n];
  }

  /** From the end of the loop to the return. */
  lemma GiveKeeps(s: State)
    requires Invariant(s) && s.handler.None? && !s.halted
    requires s.pc.LoadTemp? || s.pc.SubPointer?
    ensures DequeueStep(s).Some? && Invariant(DequeueStep(s).value)
  {
    var t := DequeueStep(s).value;
    if s.pc.SubPointer? {
      assert t.pointer == SlotAddress(Count(s) - 1) && Count(t) == Count(s) - 1;
    }
  }

  lemma PopR9Keeps(s: State)
    requires Invariant(s) && s.handler.None? && !s.halted && s.pc.PopR9?
    ensures DequeueStep(s).Some? && Invariant(DequeueStep(s).value)
  {
  }

  lemma PopR8Keeps(s: State)
    requires Invariant(s) && s.handler.None? && !s.halted && s.pc.PopR8?
    ensures DequeueStep(s).Some? && Invariant(DequeueStep(s).value)
  {
  }

  lemma IseKeeps(s: State)
    requires Invariant(s) && s.handler.None? && !s.halted && s.pc.Ise?
    ensures DequeueStep(s).Some? && Invariant(DequeueStep(s).value)
  {
  }

  lemma RetKeeps(s: State)
    requires Invariant(s) && s.handler.None? && !s.halted && s.pc.Ret?
    ensures DequeueStep(s).Some? && Invariant(DequeueStep(s).value)
  {
    assert s.delivered + ([s.regs] + s.slots[..Count(s)]) == s.delivered + [s.regs] + s.slots[..Count(s)];
  }

  /** The history of returns is only looked at from outside. */
  lemma RecordingKeeps()
    ensures forall t: State :: Invariant(t) ==> Invariant(Recorded(t))
  {
    forall t: State | Invariant(t)
      ensures Invariant(Recorded(t))
    {
      RecordingKeepsOne(t);
    }
  }

  lemma RecordingKeepsOne(t: State)
    requires Invariant(t)
    ensures Invariant(Recorded(t))
  {
  }

  lemma MainKeeps(s: State)
    requires Invariant(s) && Running(s) && !s.pc.Outside?
    ensures MainStep(s).Some? && Invariant(MainStep(s).value)
  {
    hide Invariant, WaitStep, EntryStep, DequeueStep, Recorded;
    RecordingKeeps();
    if Waiting(s.pc) {
      WaitKeeps(s);
    } else if Entering(s.pc) {
      EntryKeeps(s);
    } else if s.pc.AddR9? {
      AddKeeps(s);
    } else if s.pc.CmpR9? || s.pc.BranchR9? {
      CmpKeeps(s);
    } else if s.pc.LoadSlot? {
      LoadKeeps(s);
    } else if s.pc.StoreSlot? {
      StoreKeeps(s);
    } else if s.pc.Ret? {
      RetKeeps(s);
    } else if s.pc.PopR9? {
      PopR9Keeps(s);
    } else if s.pc.PopR8? {
      PopR8Keeps(s);
    } else if s.pc.Ise? {
      IseKeeps(s);
    } else if s.pc.LoadTemp? || s.pc.SubPointer? {
      GiveKeeps(s);
    } else {
      TakeKeeps(s);
    }
  }

  /** Outside the masked part the queue is exactly the slots below the pointer, after
      the event a return is about to deliver. */
  function Delivering(s: State): seq<Event> {
    if !s.pc.Ret? then [] else [if s.handler.Some? then s.handler.value.savedRegs else s.regs]
  }

  lemma UnmaskedContents(s: State)
    requires Count(s) <= CAPACITY && !Masked(s.pc)
    ensures Contents(s) == Delivering(s) + s.slots[..Count(s)]
  {
  }

  /** The main program's point relies on nothing the handler changes. */
  lemma MainUndisturbed(s: State, t: State, zero: bool)
    requires MainInvariant(s, zero) && !Masked(s.pc) && !t.halted
    requires t.pc == s.pc && Count(s) <= Count(t) <= CAPACITY && (t.pointer == 0 ==> s.pointer == 0)
    requires FirstUse(s.pc, zero) ==> Count(t) == Count(s)
    ensures MainInvariant(t, zero)
  {
  }

  lemma HandlerKeeps(s: State)
    requires Invariant(s) && s.handler.Some? && !s.handler.value.pc.Between?
    ensures HandlerStep(s, s.handler.value).Some? && Invariant(HandlerStep(s, s.handler.value).value)
  {
    hide MainInvariant, Contents, HandlerInvariant, HandlerStep, Arriving;
    var n, h := Count(s), s.handler.value;
    assert n <= CAPACITY && !Masked(s.pc) by {
      NotMasked(s);
    }
    UnmaskedContents(s);
    HandlerShape(s, h);
    var t := HandlerStep(s, h).value;
    UnmaskedContents(t);
    MainUndisturbed(s, t, h.savedZero);
    Regroup(s.delivered, Delivering(s), s.slots[..n], Arriving(s));
    Regroup(s.delivered, Delivering(s), t.slots[..Count(t)], Arriving(t));
  }

  lemma Regroup(a: seq<Event>, b: seq<Event>, c: seq<Event>, d: seq<Event>)
    ensures a + (b + c) + d == a + b + (c + d)
  {
  }

  lemma NotMasked(s: State)
    requires Invariant(s) && s.handler.Some?
    ensures !Masked(s.pc)
  {
  }

  lemma HandlerShape(s: State, h: Handler)
    requires Placed(s) && HandlerInvariant(s) && s.handler == Some(h) && !h.pc.Between?
    ensures HandlerStep(s, h).Some?
    ensures
      var t := HandlerStep(s, h).value;
      && Placed(t) && HandlerInvariant(t) && (t.pointer == 0 ==> s.pointer == 0)
      && t.handler.Some? && t.handler.value.savedZero == h.savedZero && t.handler.value.savedRegs == h.savedRegs
      && t.pc == s.pc && t.produced == s.produced && t.delivered == s.delivered && !t.halted
      && Count(s) <= Count(t)
      && t.slots[..Count(t)] + Arriving(t) == s.slots[..Count(s)] + Arriving(s)
  {
    hide Placed, HandlerInvariant, HandlerStep, Arriving, Count;
    if h.pc.NewWritePointer? {
      PointerShape(s, h);
    } else if h.pc.NewInitMov? {
      InitShape(s, h);
    } else if h.pc.NewStore? {
      StoreShape(s, h);
    } else {
      StackShape(s, h);
    }
  }

  /** The event is in the queue once the pointer has moved past it. */
  lemma PointerShape(s: State, h: Handler)
    requires Placed(s) && HandlerInvariant(s) && s.handler == Some(h) && h.pc.NewWritePointer?
    ensures HandlerStep(s, h).Some?
    ensures
      var t := HandlerStep(s, h).value;
      && Placed(t) && HandlerInvariant(t) && (t.pointer == 0 ==> s.pointer == 0)
      && t.handler.Some? && t.handler.value.savedZero == h.savedZero && t.handler.value.savedRegs == h.savedRegs
      && t.pc == s.pc && t.produced == s.produced && t.delivered == s.delivered && !t.halted
      && Count(s) <= Count(t)
      && t.slots[..Count(t)] + Arriving(t) == s.slots[..Count(s)] + Arriving(s)
  {
    var n := Count(s);
    var t := HandlerStep(s, h).value;
    assert t.pointer == SlotAddress(n + 1) && Count(t) == n + 1;
    assert s.slots[..n + 1] == s.slots[..n] + [s.regs];
  }

  /** Setting the pointer for the first time keeps the queue empty. */
  lemma InitShape(s: State, h: Handler)
    requires Placed(s) && HandlerInvariant(s) && s.handler == Some(h) && h.pc.NewInitMov?
    ensures HandlerStep(s, h).Some?
    ensures
      var t := HandlerStep(s, h).value;
      && Placed(t) && HandlerInvariant(t) && (t.pointer == 0 ==> s.pointer == 0)
      && t.handler.Some? && t.handler.value.savedZero == h.savedZero && t.handler.value.savedRegs == h.savedRegs
      && t.pc == s.pc && t.produced == s.produced && t.delivered == s.delivered && !t.halted
      && Count(s) <= Count(t)
      && t.slots[..Count(t)] + Arriving(t) == s.slots[..Count(s)] + Arriving(s)
  {
  }

  /** Every other step leaves the pointer where it is. */
  lemma StoreShape(s: State, h: Handler)
    requires Placed(s) && HandlerInvariant(s) && s.handler == Some(h) && h.pc.NewStore?
    ensures HandlerStep(s, h).Some?
    ensures
      var t := HandlerStep(s, h).value;
      && Placed(t) && HandlerInvariant(t) && (t.pointer == 0 ==> s.pointer == 0)
      && t.handler.Some? && t.handler.value.savedZero == h.savedZero && t.handler.value.savedRegs == h.savedRegs
      && t.pc == s.pc && t.produced == s.produced && t.delivered == s.delivered && !t.halted
      && Count(s) <= Count(t)
      && t.slots[..Count(t)] + Arriving(t) == s.slots[..Count(s)] + Arriving(s)
  {
    hide Count, SlotAt, SlotAddress, Placed;
    AddressOfSlot(s);
    SamePointer(s, HandlerStep(s, h).value);
  }

  lemma StackShape(s: State, h: Handler)
    requires Placed(s) && HandlerInvariant(s) && s.handler == Some(h)
    requires h.pc.NewInitCmp? || h.pc.NewPushR8? || h.pc.NewReadPointer? || h.pc.NewPopR8?
    ensures HandlerStep(s, h).Some?
    ensures
      var t := HandlerStep(s, h).value;
      && Placed(t) && HandlerInvariant(t) && (t.pointer == 0 ==> s.pointer == 0)
      && t.handler.Some? && t.handler.value.savedZero == h.savedZero && t.handler.value.savedRegs == h.savedRegs
      && t.pc == s.pc && t.produced == s.produced && t.delivered == s.delivered && !t.halted
      && Count(s) <= Count(t)
      && t.slots[..Count(t)] + Arriving(t) == s.slots[..Count(s)] + Arriving(s)
  {
    hide Count, SlotAt, SlotAddress, Placed;
    SamePointer(s, HandlerStep(s, h).value);
  }

  lemma SamePointer(s: State, t: State)
    requires t.pointer == s.pointer
    ensures Count(t) == Count(s) && Placed(t) == Placed(s)
  {
  }

  // ----- every action and every run

  lemma InterruptKeeps(s: State)
    requires Invariant(s) && Enabled(s, Interrupt)
    ensures Invariant(Apply(s, Interrupt).value)
  {
    hide MainInvariant, Contents;
    assert !Masked(s.pc) by {
      EnabledNotMasked(s);
    }
    var t := Apply(s, Interrupt).value;
    UnmaskedContents(s);
    UnmaskedContents(t);
    MainUndisturbed(s, t, s.zero);
  }

  lemma EnabledNotMasked(s: State)
    requires Invariant(s) && s.interrupts
    ensures !Masked(s.pc) && s.handler.None?
  {
  }

  lemma RetiKeeps(s: State)
    requires Invariant(s) && Enabled(s, Reti)
    ensures Invariant(Apply(s, Reti).value)
  {
    hide MainInvariant, Contents;
    NotMasked(s);
    var t := Apply(s, Reti).value;
    UnmaskedContents(s);
    UnmaskedContents(t);
    MainUndisturbed(s, t, t.zero);
  }

  lemma NewEventKeeps(s: State, event: Event)
    requires Invariant(s) && Enabled(s, NewEvent(event)) && !FirstUse(s.pc, MainZero(s))
    ensures Invariant(Apply(s, NewEvent(event)).value)
  {
    hide MainInvariant, Contents;
    NotMasked(s);
    AddressOfSlot(s);
    var t := Apply(s, NewEvent(event)).value;
    UnmaskedContents(s);
    UnmaskedContents(t);
    MainUndisturbed(s, t, t.handler.value.savedZero);
    assert s.delivered + Contents(s) + [] + [event] == s.delivered + Contents(s) + [event];
  }

  /** What the main program does outside the queue's routines. */
  lemma OutsideKeeps(s: State, a: Action)
    requires Invariant(s) && Enabled(s, a) && (a.CallNext? || a.CallWait? || a.Program?)
    ensures Invariant(Apply(s, a).value)
  {
  }

  /** An event must not come while the main program, having found the pointer unset, is
      about to set it. */
  predicate Careful(s: State, a: Action) {
    a.NewEvent? ==> !FirstUse(s.pc, MainZero(s))
  }

  predicate CarefulRun(s: State, actions: seq<Action>) {
    actions == [] ||
    var before := Run(s, actions[..|actions| - 1]);
    && CarefulRun(s, actions[..|actions| - 1])
    && (before.Some? ==> Careful(before.value, actions[|actions| - 1]))
  }

  /** No enabled action leaves the queue's memory or the stack, and each keeps the
      invariant, unless it adds an event at first use. */
  lemma ActionKeeps(s: State, a: Action)
    requires Invariant(s) && Enabled(s, a) && Careful(s, a)
    ensures Apply(s, a).Some? && Invariant(Apply(s, a).value)
  {
    hide Invariant, MainStep, HandlerStep;
    if a.Main? {
      MainKeeps(s);
    } else if a.Handle? {
      HandlerKeeps(s);
    } else if a.Interrupt? {
      InterruptKeeps(s);
    } else if a.Reti? {
      RetiKeeps(s);
    } else if a.NewEvent? {
      NewEventKeeps(s, a.event);
    } else {
      OutsideKeeps(s, a);
    }
  }

  /** The program is told that there is no event. */
  predicate NoEvent(e: Event) {
    && e.r0 == 0xFFFF_FFFF
    && e.r1 == 0 && e.r2 == 0 && e.r3 == 0 && e.r4 == 0 && e.r5 == 0 && e.r6 == 0 && e.r7 == 0
  }

  /** Every return handed over the next event of the delivered ones, or none. */
  ghost predicate Handed(returned: seq<Event>, delivered: seq<Event>)
    decreases |returned|
  {
    if returned == [] then delivered == []
    else
      var init, last := returned[..|returned| - 1], returned[|returned| - 1];
      || (delivered != [] && last == delivered[|delivered| - 1] && Handed(init, delivered[..|delivered| - 1]))
      || (NoEvent(last) && Handed(init, delivered))
  }

  lemma HandedMore(returned: seq<Event>, delivered: seq<Event>, e: Event)
    requires Handed(returned, delivered)
    ensures Handed(returned + [e], delivered + [e])
    ensures NoEvent(e) ==> Handed(returned + [e], delivered)
  {
    assert (returned + [e])[..|returned + [e]| - 1] == returned;
    assert (delivered + [e])[..|delivered + [e]| - 1] == delivered;
  }

  /** Only the steps Empty and Ret return. */
  lemma OthersStay(s: State)
    requires !s.pc.Outside? && !s.pc.Empty? && !s.pc.Ret? && MainStep(s).Some?
    ensures MainStep(s).value.returned == s.returned && MainStep(s).value.delivered == s.delivered
  {
    hide WaitStep, EntryStep, DequeueStep;
    if Waiting(s.pc) {
      WaitStays(s);
    } else if Entering(s.pc) {
      EntryStays(s);
    } else {
      DequeueStays(s);
    }
  }

  predicate SameHistory(s: State, t: State) {
    t.returned == s.returned && t.delivered == s.delivered && !t.pc.Outside?
  }

  lemma WaitStays(s: State)
    requires Waiting(s.pc)
    ensures SameHistory(s, WaitStep(s))
  {
  }

  lemma EntryStays(s: State)
    requires Entering(s.pc) && !s.pc.Empty?
    ensures SameHistory(s, EntryStep(s))
  {
  }

  lemma DequeueStays(s: State)
    requires Masked(s.pc) || s.pc.Icl?
    ensures DequeueStep(s).Some? ==> SameHistory(s, DequeueStep(s).value)
  {
    hide DequeueStep;
    if Taking(s.pc) {
      TakingStays(s);
    } else {
      GivingStays(s);
    }
  }

  /** Taking an event out, up to the shifting loop's comparison. */
  predicate Taking(pc: Pc) {
    pc.Icl? || pc.PushR8? || pc.PushR9? || pc.LoadBottom? || pc.StoreTemp? || pc.SetR9? || pc.AddR9? || pc.CmpR9?
  }

  lemma TakingStays(s: State)
    requires Taking(s.pc)
    ensures DequeueStep(s).Some? && SameHistory(s, DequeueStep(s).value)
  {
    hide Add32;
  }

  lemma GivingStays(s: State)
    requires Masked(s.pc) && !Taking(s.pc)
    ensures DequeueStep(s).Some? ==> SameHistory(s, DequeueStep(s).value)
  {
    hide SlotAt, Add32, Sub32;
  }

  /** A return hands over the event it delivers, or says that there is none. */
  lemma ReturnHands(s: State)
    requires Handed(s.returned, s.delivered) && !s.pc.Outside? && MainStep(s).Some?
    ensures Handed(MainStep(s).value.returned, MainStep(s).value.delivered)
  {
    hide Handed, NoEvent, MainStep;
    if s.pc.Empty? {
      EmptyIsNoEvent();
      ReturningSteps(s);
      HandedMore(s.returned, s.delivered, EMPTY);
    } else if s.pc.Ret? {
      ReturningSteps(s);
      HandedMore(s.returned, s.delivered, s.regs);
    } else {
      OthersStay(s);
    }
  }

  lemma ReturningSteps(s: State)
    ensures s.pc.Empty? ==>
      MainStep(s) == Some(s.(regs := EMPTY, pc := Outside, returned := s.returned + [EMPTY]))
    ensures s.pc.Ret? ==>
      MainStep(s)
      == Some(s.(delivered := s.delivered + [s.regs], pc := Outside, returned := s.returned + [s.regs]))
  {
  }

  lemma EmptyIsNoEvent()
    ensures NoEvent(EMPTY)
  {
  }

  lemma ActionHands(s: State, a: Action)
    requires Handed(s.returned, s.delivered) && Enabled(s, a) && Apply(s, a).Some?
    ensures Handed(Apply(s, a).value.returned, Apply(s, a).value.delivered)
  {
    hide Handed, MainStep;
    if a.Main? {
      ReturnHands(s);
    }
  }

  lemma {:induction false} RunKeeps(s: State, actions: seq<Action>)
    requires Initial(s) && Run(s, actions).Some? && CarefulRun(s, actions)
    ensures Invariant(Run(s, actions).value)
    ensures Handed(Run(s, actions).value.returned, Run(s, actions).value.delivered)
    decreases |actions|
  {
    hide Invariant, Initial, Apply, Enabled, Handed, Careful;
    if actions == [] {
      InitialInvariant(s);
    } else {
      var init := actions[..|actions| - 1];
      RunKeeps(s, init);
      ActionKeeps(Run(s, init).value, actions[|actions| - 1]);
      ActionHands(Run(s, init).value, actions[|actions| - 1]);
    }
  }

  lemma InitialInvariant(s: State)
    requires Initial(s)
    ensures Invariant(s) && Handed(s.returned, s.delivered)
  {
  }

  /** Once the pointer is set it stays set, and nobody is about to set it. */
  predicate InUse(s: State) {
    s.pointer != 0 && !FirstUse(s.pc, MainZero(s))
  }

  lemma StaysInUse(s: State, a: Action)
    requires Invariant(s) && InUse(s) && Enabled(s, a) && Apply(s, a).Some?
    ensures InUse(Apply(s, a).value)
  {
    hide MainStep, HandlerStep, Contents, Arriving;
    AddressOfSlot(s);
    if a.Main? {
      MainStaysInUse(s);
    } else if a.Handle? {
      HandlerStaysInUse(s, s.handler.value);
    }
  }

  lemma MainStaysInUse(s: State)
    requires Invariant(s) && InUse(s) && s.handler.None? && !s.halted && !s.pc.Outside? && MainStep(s).Some?
    ensures InUse(MainStep(s).value) && MainStep(s).value.handler.None?
  {
    hide Invariant, WaitStep, EntryStep, DequeueStep;
    if Waiting(s.pc) {
      WaitStaysInUse(s);
    } else if Entering(s.pc) {
      EntryStaysInUse(s);
    } else {
      if s.pc.SubPointer? {
        QueuedAtSub(s);
      }
      DequeueStaysInUse(s);
    }
  }

  lemma WaitStaysInUse(s: State)
    requires InUse(s) && s.handler.None? && Waiting(s.pc)
    ensures InUse(WaitStep(s)) && WaitStep(s).handler.None?
  {
  }

  lemma EntryStaysInUse(s: State)
    requires InUse(s) && s.handler.None? && Entering(s.pc)
    ensures InUse(EntryStep(s)) && EntryStep(s).handler.None?
  {
  }

  lemma DequeueStaysInUse(s: State)
    requires InUse(s) && s.handler.None? && DequeueStep(s).Some? && !Waiting(s.pc) && !Entering(s.pc)
    requires s.pc.SubPointer? ==> Sub32(s.pointer, EVENT_SIZE) != 0
    ensures InUse(DequeueStep(s).value) && DequeueStep(s).value.handler.None?
  {
    hide DequeueStep, InUse;
    if Taking(s.pc) {
      TakingStaysInUse(s);
    } else {
      GivingStaysInUse(s);
    }
  }

  lemma TakingStaysInUse(s: State)
    requires InUse(s) && s.handler.None? && Taking(s.pc)
    ensures DequeueStep(s).Some? && InUse(DequeueStep(s).value) && DequeueStep(s).value.handler.None?
  {
    hide Add32;
  }

  lemma GivingStaysInUse(s: State)
    requires InUse(s) && s.handler.None? && DequeueStep(s).Some?
    requires !Taking(s.pc) && !Waiting(s.pc) && !Entering(s.pc)
    requires s.pc.SubPointer? ==> Sub32(s.pointer, EVENT_SIZE) != 0
    ensures InUse(DequeueStep(s).value) && DequeueStep(s).value.handler.None?
  {
    hide SlotAt, Add32, Sub32;
  }

  lemma QueuedAtSub(s: State)
    requires Invariant(s) && s.pc.SubPointer?
    ensures Sub32(s.pointer, EVENT_SIZE) != 0
  {
    hide Contents, Arriving;
  }

  lemma HandlerStaysInUse(s: State, h: Handler)
    requires Invariant(s) && InUse(s) && s.handler == Some(h) && !h.pc.Between? && HandlerStep(s, h).Some?
    ensures InUse(HandlerStep(s, h).value)
  {
    hide Contents, Arriving, SlotAt;
  }

  /** From a queue already in use, every run is careful. */
  lemma {:induction false} InUseIsCareful(s: State, actions: seq<Action>)
    requires Initial(s) && s.pointer != 0 && Run(s, actions).Some?
    ensures CarefulRun(s, actions) && InUse(Run(s, actions).value)
    decreases |actions|
  {
    hide Invariant, Apply, Enabled, Handed;
    if actions != [] {
      var init := actions[..|actions| - 1];
      InUseIsCareful(s, init);
      RunKeeps(s, init);
      StaysInUse(Run(s, init).value, actions[|actions| - 1]);
    }
  }

  /** The queue is first in, first out under every careful interleaving: whenever
      interrupts are on, the events produced are those delivered, then the one a return is
      about to deliver, then the queue's contents, in order.  And at all times what the
      returns handed over are the delivered events in order, with "no event" in between. */
  lemma FifoUnderInterleavings(start: State, actions: seq<Action>)
    requires Initial(start) && Run(start, actions).Some? && CarefulRun(start, actions)
    ensures
      var s := Run(start, actions).value;
      s.interrupts ==>
        && (s.pointer == SlotAddress(Count(s)) || s.pointer == 0) && Count(s) <= CAPACITY
        && s.produced == s.delivered + Delivering(s) + s.slots[..Count(s)]
    ensures
      var s := Run(start, actions).value;
      s.delivered <= s.produced && Handed(s.returned, s.delivered)
  {
    hide Run, Initial, Handed, CarefulRun;
    RunKeeps(start, actions);
    var s := Run(start, actions).value;
    if s.interrupts {
      UnmaskedContents(s);
    }
  }

  /** Once the queue is in use, that is every interleaving. */
  lemma FifoOnceInUse(start: State, actions: seq<Action>)
    requires Initial(start) && start.pointer != 0 && Run(start, actions).Some?
    ensures
      var s := Run(start, actions).value;
      s.interrupts ==>
        && s.pointer == SlotAddress(Count(s)) && Count(s) <= CAPACITY
        && s.produced == s.delivered + Delivering(s) + s.slots[..Count(s)]
    ensures
      var s := Run(start, actions).value;
      s.delivered <= s.produced && Handed(s.returned, s.delivered)
  {
    hide Run, Initial, Handed, CarefulRun;
    InUseIsCareful(start, actions);
    FifoUnderInterleavings(start, actions);
  }

  /** The check that the queue is not empty and the icl after it are separate
      instructions, but no interleaving empties the queue in between; and no run can
      get stuck on memory outside the queue. */
  lemma IclFindsQueueNonEmpty(start: State, actions: seq<Action>)
    requires Initial(start) && Run(start, actions).Some?
    requires start.pointer != 0 || CarefulRun(start, actions)
    ensures
      var s := Run(start, actions).value;
      && (s.pc.Icl? ==> s.pointer != EVENT_QUEUE_BOTTOM && Count(s) > 0)
      && forall a :: Enabled(s, a) && Careful(s, a) ==> Apply(s, a).Some?
  {
    hide Run, Initial, Apply, Enabled, CarefulRun, Careful;
    if start.pointer != 0 {
      InUseIsCareful(start, actions);
    }
    RunKeeps(start, actions);
    var s := Run(start, actions).value;
    AddressOfSlot(s);
    forall a | Enabled(s, a) && Careful(s, a)
      ensures Apply(s, a).Some?
    {
      ActionKeeps(s, a);
    }
  }

  // ----- one whole enqueue

  /** The handler running alone for a number of steps. */
  function HandlerSteps(s: State, n: nat): Option<State> {
    if n == 0 then Some(s)
    else
      var before :- HandlerSteps(s, n - 1);
      if before.handler.Some? then HandlerStep(before, before.handler.value) else None
  }

  lemma NextHandlerStep(s: State, n: nat, t: State, u: State)
    requires HandlerSteps(s, n) == Some(t) && t.handler.Some? && HandlerStep(t, t.handler.value) == Some(u)
    ensures HandlerSteps(s, n + 1) == Some(u)
  {
    hide HandlerStep;
  }

  /** The machine k steps into event_new. */
  function AddStage(s: State, h: Handler, k: nat): State
    requires Count(s) < CAPACITY
  {
    var n := Count(s);
    var bottom := if s.pointer == 0 then EVENT_QUEUE_BOTTOM else s.pointer;
    var s := if k >= 1 then s.(zero := s.pointer == 0) else s;
    var s := if k >= 2 then s.(pointer := bottom) else s;
    var s := if 3 <= k < 7 then s.(stack := s.stack + [s.r8]) else s;
    var s := if k >= 5 then s.(slots := s.slots[n := s.regs]) else s;
    var s := if k >= 6 then s.(pointer := SlotAddress(n + 1)) else s;
    match k
    case 0 => At(s, h, NewInitCmp)
    case 1 => At(s, h, NewInitMov)
    case 2 => At(s, h, NewPushR8)
    case 3 => At(s, h, NewReadPointer)
    case 4 => At(s.(r8 := bottom), h, NewStore)
    case 5 => At(s.(r8 := SlotAddress(n + 1)), h, NewWritePointer)
    case 6 => At(s.(r8 := SlotAddress(n + 1)), h, NewPopR8)
    case _ => At(s, h, Between)
  }

  lemma InitStages(s: State, h: Handler, k: nat)
    requires Count(s) < CAPACITY && k < 3
    ensures
      var t := AddStage(s, h, k);
      && t.handler.Some? && !t.handler.value.pc.Between?
      && HandlerStep(t, t.handler.value) == Some(AddStage(s, h, k + 1))
  {
    hide Count, SlotAddress;
  }

  lemma StoreStages(s: State, h: Handler, k: nat)
    requires Placed(s) && Count(s) < CAPACITY && 3 <= k < 5
    ensures
      var t := AddStage(s, h, k);
      && t.handler.Some? && !t.handler.value.pc.Between?
      && HandlerStep(t, t.handler.value) == Some(AddStage(s, h, k + 1))
  {
    hide SlotAt, Placed, Count, SlotAddress;
    AddressOfSlot(s);
    BottomIsSlot();
    AddressGrows(s);
  }

  lemma BottomIsSlot()
    ensures SlotAt(EVENT_QUEUE_BOTTOM) == Some(0)
  {
  }

  lemma AddressGrows(s: State)
    requires Placed(s) && Count(s) < CAPACITY
    ensures
      Add32(if s.pointer == 0 then EVENT_QUEUE_BOTTOM else s.pointer, EVENT_SIZE)
      == SlotAddress(Count(s) + 1) < 0x1_0000_0000
  {
  }

  lemma EndStages(s: State, h: Handler, k: nat)
    requires Count(s) < CAPACITY && 5 <= k < 7
    ensures
      var t := AddStage(s, h, k);
      && t.handler.Some? && !t.handler.value.pc.Between?
      && HandlerStep(t, t.handler.value) == Some(AddStage(s, h, k + 1))
  {
    hide Count, SlotAddress;
    assert (s.stack + [s.r8])[..|s.stack|] == s.stack;
  }

  lemma AddStageStep(s: State, h: Handler, k: nat)
    requires Placed(s) && Count(s) < CAPACITY && k < 7
    ensures
      var t := AddStage(s, h, k);
      && t.handler.Some? && !t.handler.value.pc.Between?
      && HandlerStep(t, t.handler.value) == Some(AddStage(s, h, k + 1))
  {
    hide AddStage, HandlerStep, Placed, Count;
    if k < 3 {
      InitStages(s, h, k);
    } else if k < 5 {
      StoreStages(s, h, k);
    } else {
      EndStages(s, h, k);
    }
  }

  lemma {:induction false} AddStages(s: State, h: Handler, k: nat)
    requires Placed(s) && Count(s) < CAPACITY && s.handler == Some(h) && h.pc.NewInitCmp? && k <= 7
    ensures HandlerSteps(s, k) == Some(AddStage(s, h, k))
  {
    if k > 0 {
      hide AddStage, HandlerStep, Placed;
      AddStages(s, h, k - 1);
      AddStageStep(s, h, k - 1);
    }
  }

  /** With n events queued, event_new takes seven steps, and then the registers' event
      stands in slot n, the pointer is one slot higher, and r8 and the stack are as they
      were; a pointer that was never set counts as an empty queue. */
  lemma EventNewAdds(s: State, h: Handler)
    requires Placed(s) && Count(s) < CAPACITY && s.handler == Some(h) && h.pc.NewInitCmp?
    ensures
      HandlerSteps(s, 7) == Some(At(
        s.(slots := s.slots[Count(s) := s.regs], pointer := SlotAddress(Count(s) + 1), zero := s.pointer == 0),
        h, Between))
  {
    hide HandlerSteps, HandlerStep, Placed;
    AddStages(s, h, 7);
  }

  // ----- the first use

  /** Setting the pointer keeps every event exactly if none has come since it was found
      unset. */
  lemma FirstUseKeepsOnlyEmpty(s: State)
    requires Running(s) && FirstUse(s.pc, s.zero) && Placed(s)
    requires s.produced == s.delivered + s.slots[..Count(s)]
    ensures MainStep(s).Some?
    ensures
      var t := MainStep(s).value;
      && Count(t) == 0 && t.produced == s.produced && t.delivered == s.delivered
      && (t.produced == t.delivered + t.slots[..Count(t)] <==> Count(s) == 0)
  {
    AddressOfSlot(s);
    assert |s.produced| == |s.delivered| + Count(s);
  }

  lemma RunOn(s: State, actions: seq<Action>, t: State, a: Action)
    requires Run(s, actions) == Some(t) && Enabled(t, a) && Apply(t, a).Some?
    ensures Run(s, actions + [a]) == Some(Apply(t, a).value)
  {
    hide Enabled, Apply;
    var more := actions + [a];
    assert more[..|more| - 1] == actions;
  }

  /** The handler's seven steps as actions of a run. */
  lemma {:induction false} RunHandler(s: State, actions: seq<Action>, t: State, h: Handler, k: nat)
    requires Run(s, actions) == Some(t)
    requires Placed(t) && Count(t) < CAPACITY && t.handler == Some(h) && h.pc.NewInitCmp? && k <= 7
    ensures Run(s, actions + seq(k, _ => Handle)) == Some(AddStage(t, h, k))
  {
    hide HandlerStep, Run, Placed;
    if k == 0 {
      assert actions + seq(0, _ => Handle) == actions;
    } else {
      RunHandler(s, actions, t, h, k - 1);
      AddStageStep(t, h, k - 1);
      RunOn(s, actions + seq(k - 1, _ => Handle), AddStage(t, h, k - 1), Handle);
      assert actions + seq(k - 1, _ => Handle) + [Handle] == actions + seq(k, _ => Handle);
    }
  }

  /** event_next called for the first time, and an event coming between its two
      initialising instructions. */
  function LosingRun(e: Event): seq<Action> {
    [CallNext, Main, Interrupt, NewEvent(e)] + seq(7, _ => Handle) + [Reti, Main]
  }

  /** The run as far as the handler's first step. */
  lemma LosingStart(start: State, e: Event) returns (coming: State)
    requires Initial(start) && start.pointer == 0 && start.interrupts
    ensures Run(start, [CallNext, Main, Interrupt, NewEvent(e)]) == Some(coming)
    ensures
      coming == start.(
        pc := NextInitMov, zero := true, interrupts := false, regs := e, produced := [e],
        handler := Some(Handler(NewInitCmp, start.regs, true)))
  {
    hide Run, Enabled, Apply;
    RunNothing(start);
    assert [] + [CallNext] == [CallNext];
    LosingCalls(start);
    RunOn(start, [], start, CallNext);
    var called := start.(pc := NextInitCmp);
    RunOn(start, [CallNext], called, Main);
    assert [CallNext] + [Main] == [CallNext, Main];
    var found := start.(zero := true, pc := NextInitMov);
    LosingComes(found, e);
    RunOn(start, [CallNext, Main], found, Interrupt);
    assert [CallNext, Main] + [Interrupt] == [CallNext, Main, Interrupt];
    var entered := found.(handler := Some(Handler(Between, start.regs, true)), interrupts := false);
    RunOn(start, [CallNext, Main, Interrupt], entered, NewEvent(e));
    assert [CallNext, Main, Interrupt] + [NewEvent(e)] == [CallNext, Main, Interrupt, NewEvent(e)];
    coming := Apply(entered, NewEvent(e)).value;
  }

  /** The call, and the comparison that finds the pointer unset. */
  lemma LosingCalls(s: State)
    requires Running(s) && s.pc.Outside? && s.pointer == 0
    ensures Enabled(s, CallNext) && Apply(s, CallNext) == Some(s.(pc := NextInitCmp))
    ensures
      var called := s.(pc := NextInitCmp);
      Enabled(called, Main) && Apply(called, Main) == Some(s.(zero := true, pc := NextInitMov))
  {
  }

  /** The interrupt, and the handler's call of event_new. */
  lemma LosingComes(s: State, e: Event)
    requires Running(s) && s.interrupts && s.pointer == 0 && s.produced == []
    ensures Enabled(s, Interrupt)
    ensures
      var entered := s.(handler := Some(Handler(Between, s.regs, s.zero)), interrupts := false);
      && Apply(s, Interrupt) == Some(entered)
      && Enabled(entered, NewEvent(e))
      && Apply(entered, NewEvent(e))
         == Some(entered.(regs := e, produced := [e], handler := Some(Handler(NewInitCmp, s.regs, s.zero))))
  {
    assert [] + [e] == [e];
  }

  /** The handler returns, and the main program sets the pointer. */
  lemma LosingEnd(s: State)
    requires s.pc.NextInitMov? && !s.halted && s.handler.Some? && s.handler.value.pc.Between?
    requires s.handler.value.savedZero
    ensures Enabled(s, Reti)
    ensures
      var back := Apply(s, Reti).value;
      && Apply(s, Reti)
         == Some(s.(regs := s.handler.value.savedRegs, zero := true, interrupts := true, handler := None))
      && Enabled(back, Main)
      && Apply(back, Main) == Some(back.(pointer := EVENT_QUEUE_BOTTOM, pc := NextCmp))
  {
  }

  /** That event is lost: it was produced, and is neither delivered nor queued. */
  lemma FirstUseLosesEvent(start: State, e: Event)
    requires Initial(start) && start.pointer == 0 && start.interrupts
    ensures Run(start, LosingRun(e)).Some?
    ensures
      var s := Run(start, LosingRun(e)).value;
      && s.produced == [e] && s.delivered == [] && s.returned == []
      && s.pointer == EVENT_QUEUE_BOTTOM && Count(s) == 0
      && s.handler.None? && s.interrupts && s.pc.NextCmp?
  {
    hide Run, Enabled, Apply;
    var first := [CallNext, Main, Interrupt, NewEvent(e)];
    var coming := LosingStart(start, e);
    var h := coming.handler.value;
    RunHandler(start, first, coming, h, 7);
    var added := AddStage(coming, h, 7);
    LosingEnd(added);
    RunOn(start, first + seq(7, _ => Handle), added, Reti);
    var back := Apply(added, Reti).value;
    RunOn(start, first + seq(7, _ => Handle) + [Reti], back, Main);
    assert first + seq(7, _ => Handle) + [Reti] + [Main] == LosingRun(e);
  }

  lemma RunNothing(s: State)
    ensures Run(s, []) == Some(s)
  {
  }

  // ----- the call

  /** Calling event_next or event_wait sets the pointer if it was unset, and goes on to the
      comparison or to sleep. */
  lemma CallsInitialise(s: State)
    requires Running(s) && s.pc.Outside?
    ensures
      var t := s.(zero := s.pointer == 0, pointer := if s.pointer == 0 then EVENT_QUEUE_BOTTOM else s.pointer);
      && Steps(Apply(s, CallNext).value, 2) == Some(t.(pc := NextCmp))
      && Steps(Apply(s, CallWait).value, 2) == Some(t.(pc := WaitIse))
  {
    hide Steps;
    var next, wait := s.(pc := NextInitCmp), s.(pc := WaitInitCmp);
    var next1 := next.(zero := s.pointer == 0, pc := NextInitMov);
    var wait1 := wait.(zero := s.pointer == 0, pc := WaitInitMov);
    var bottom := if s.pointer == 0 then EVENT_QUEUE_BOTTOM else s.pointer;
    TwoSteps(next, next1, next1.(pointer := bottom, pc := NextCmp));
    TwoSteps(wait, wait1, wait1.(pointer := bottom, pc := WaitIse));
  }

  // ----- waiting, and finding nothing

  /** event_wait sleeps with interrupts on; woken up, it sleeps again if the queue is
      empty, and takes an event otherwise. */
  lemma WaitSleeps(s: State)
    ensures s.pc.WaitIse? ==> Steps(s, 2) == Some(s.(interrupts := true, halted := true, pc := WaitCmp))
    ensures s.pc.WaitCmp? ==>
      var empty := s.pointer == EVENT_QUEUE_BOTTOM;
      Steps(s, 2) == Some(s.(zero := empty, pc := if empty then WaitIse else Icl))
  {
    hide Steps;
    if s.pc.WaitIse? {
      var s1 := s.(interrupts := true, pc := WaitHalt);
      TwoSteps(s, s1, s1.(halted := true, pc := WaitCmp));
    } else if s.pc.WaitCmp? {
      var s1 := s.(zero := s.pointer == EVENT_QUEUE_BOTTOM, pc := WaitBranch);
      TwoSteps(s, s1, s1.(pc := if s1.zero then WaitIse else Icl));
    }
  }

  /** event_next on an empty queue returns "no event" and leaves the queue alone. */
  lemma EmptyQueueReturnsNoEvent(s: State)
    requires s.pc.NextCmp? && s.pointer == EVENT_QUEUE_BOTTOM
    ensures Steps(s, 3).Some?
    ensures
      var t := Steps(s, 3).value;
      && t.pc.Outside? && NoEvent(t.regs)
      && t.pointer == s.pointer && t.slots == s.slots && t.delivered == s.delivered
      && t.stack == s.stack && t.r8 == s.r8 && t.r9 == s.r9 && t.interrupts == s.interrupts
      && t.returned == s.returned + [t.regs]
  {
    hide Steps;
    var s1 := s.(zero := true, pc := NextBranch);
    TwoSteps(s, s1, s1.(pc := Empty));
    OneStep(s1.(pc := Empty), MainStep(s1.(pc := Empty)).value);
    StepsAdd(s, 2, 1);
  }

  /** On a queue that is not empty it goes on to take an event. */
  lemma NonEmptyQueueIsTaken(s: State)
    requires s.pc.NextCmp? && s.pointer != EVENT_QUEUE_BOTTOM
    ensures Steps(s, 2) == Some(s.(zero := false, pc := Icl))
  {
    hide Steps;
    var s1 := s.(zero := false, pc := NextBranch);
    TwoSteps(s, s1, s1.(pc := Icl));
  }

  // ----- one whole dequeue

  /** The main program running alone for a number of steps. */
  function Steps(s: State, n: nat): Option<State> {
    if n == 0 then Some(s)
    else
      var before :- Steps(s, n - 1);
      MainStep(before)
  }

  lemma {:induction false} StepsAdd(s: State, a: nat, b: nat)
    requires Steps(s, a).Some?
    ensures Steps(s, a + b) == Steps(Steps(s, a).value, b)
    decreases b
  {
    hide MainStep;
    if b > 0 {
      StepsAdd(s, a, b - 1);
    }
  }

  lemma FourSteps(s: State, s1: State, s2: State, s3: State, s4: State)
    requires MainStep(s) == Some(s1) && MainStep(s1) == Some(s2) && MainStep(s2) == Some(s3) && MainStep(s3) == Some(s4)
    ensures Steps(s, 4) == Some(s4)
  {
    hide MainStep;
    assert Steps(s, 1) == Some(s1);
    assert Steps(s, 2) == Some(s2);
    assert Steps(s, 3) == Some(s3);
  }

  /** At the head of the shifting loop with the first j events moved down. */
  function Shifted(s: State, j: nat): State
    requires j < CAPACITY
  {
    s.(
      interrupts := false, pc := AddR9,
      stack := s.stack + [s.r8, s.r9],
      regs := s.slots[j], temp := s.slots[0],
      r8 := if j == 0 then EVENT_TEMP + EVENT_SIZE else SlotAddress(j),
      r9 := SlotAddress(j),
      zero := if j == 0 then s.zero else false,
      slots := s.slots[1..j + 1] + s.slots[j..])
  }

  lemma ReachLoop(s: State)
    requires s.pc.Icl?
    ensures Steps(s, 6) == Some(Shifted(s, 0))
  {
    hide Steps, MainStep, Push, Shifted;
    var s1 := s.(interrupts := false, pc := PushR8);
    var s2 := Push(s1, s.r8).(pc := PushR9);
    var s3 := Push(s2, s.r9).(pc := LoadBottom);
    var s4 := s3.(regs := s.slots[0], r8 := EVENT_QUEUE_BOTTOM + EVENT_SIZE, pc := StoreTemp);
    SavedSteps(s);
    FourSteps(s, s1, s2, s3, s4);
    var s5 := s4.(temp := s.slots[0], r8 := EVENT_TEMP + EVENT_SIZE, pc := SetR9);
    TakenSteps(s);
    TwoSteps(s4, s5, Shifted(s, 0));
    StepsAdd(s, 4, 2);
  }

  /** Masking, saving r8 and r9, and reading the bottom slot. */
  lemma SavedSteps(s: State)
    requires s.pc.Icl?
    ensures
      var s1 := s.(interrupts := false, pc := PushR8);
      var s2 := Push(s1, s.r8).(pc := PushR9);
      var s3 := Push(s2, s.r9).(pc := LoadBottom);
      && MainStep(s) == Some(s1) && MainStep(s1) == Some(s2) && MainStep(s2) == Some(s3)
      && MainStep(s3)
         == Some(s3.(regs := s.slots[0], r8 := EVENT_QUEUE_BOTTOM + EVENT_SIZE, pc := StoreTemp))
  {
  }

  /** Setting the bottom slot aside and starting the loop. */
  lemma TakenSteps(s: State)
    requires s.pc.Icl?
    ensures
      var s3 := Push(Push(s.(interrupts := false, pc := PushR8), s.r8).(pc := PushR9), s.r9).(pc := LoadBottom);
      var s4 := s3.(regs := s.slots[0], r8 := EVENT_QUEUE_BOTTOM + EVENT_SIZE, pc := StoreTemp);
      var s5 := s4.(temp := s.slots[0], r8 := EVENT_TEMP + EVENT_SIZE, pc := SetR9);
      MainStep(s4) == Some(s5) && MainStep(s5) == Some(Shifted(s, 0))
  {
    assert s.slots[1..1] + s.slots[0..] == s.slots;
    assert s.stack + [s.r8] + [s.r9] == s.stack + [s.r8, s.r9];
  }

  lemma TwoSteps(s: State, s1: State, s2: State)
    requires MainStep(s) == Some(s1) && MainStep(s1) == Some(s2)
    ensures Steps(s, 2) == Some(s2)
  {
    hide MainStep;
    assert Steps(s, 1) == Some(s1);
  }

  /** One round of the loop: the comparison, and the copy. */
  lemma ShiftRound(s: State, j: nat)
    requires s.pc.Icl? && Shaped(s) && j + 1 < Count(s)
    ensures Steps(Shifted(s, j), 5) == Some(Shifted(s, j + 1))
  {
    hide Steps, MainStep, SlotAt;
    var t := Shifted(s, j);
    var t1 := t.(r9 := SlotAddress(j + 1), pc := CmpR9);
    AddStep(t, j);
    var t2 := t1.(zero := false, pc := BranchR9);
    CompareStep(t1);
    var t3 := t2.(pc := LoadSlot);
    BranchStep(t2);
    ShiftedSlots(s.slots, j);
    var t4 := t3.(regs := s.slots[j + 1], r8 := Add32(SlotAddress(j + 1), EVENT_SIZE), pc := StoreSlot);
    LoadStep(t3, j + 1);
    FourSteps(t, t1, t2, t3, t4);
    CopyStep(t4, j);
    StepsAdd(t, 4, 1);
    OneStep(t4, Shifted(s, j + 1));
  }

  lemma ShiftedSlots(slots: Slots, j: nat)
    requires j + 1 < CAPACITY
    ensures
      var t := slots[1..j + 1] + slots[j..];
      t[j + 1] == slots[j + 1] && t[j := slots[j + 1]] == slots[1..j + 2] + slots[j + 1..]
  {
  }

  lemma AddStep(s: State, j: nat)
    requires s.pc.AddR9? && s.r9 == SlotAddress(j) && j < CAPACITY
    ensures MainStep(s) == Some(s.(r9 := SlotAddress(j + 1), pc := CmpR9))
  {
  }

  lemma CompareStep(s: State)
    requires s.pc.CmpR9?
    ensures MainStep(s) == Some(s.(zero := s.pointer == s.r9, pc := BranchR9))
  {
  }

  lemma BranchStep(s: State)
    requires s.pc.BranchR9?
    ensures MainStep(s) == Some(s.(pc := if s.zero then LoadTemp else LoadSlot))
  {
  }

  lemma OneStep(s: State, s1: State)
    requires MainStep(s) == Some(s1)
    ensures Steps(s, 1) == Some(s1)
  {
    assert Steps(s, 0) == Some(s);
  }

  lemma LoadStep(s: State, j: nat)
    requires s.pc.LoadSlot? && j < CAPACITY && s.r9 == SlotAddress(j)
    ensures MainStep(s) == Some(s.(regs := s.slots[j], r8 := Add32(s.r9, EVENT_SIZE), pc := StoreSlot))
  {
    assert SlotAt(s.r9) == Some(j);
  }

  lemma {:induction false} ShiftRounds(s: State, j: nat)
    requires s.pc.Icl? && Shaped(s) && j < Count(s)
    ensures Steps(Shifted(s, 0), 5 * j) == Some(Shifted(s, j))
    decreases j
  {
    hide MainStep, Shifted, Shaped;
    if j > 0 {
      hide Count, SlotAddress;
      ShiftRounds(s, j - 1);
      ShiftRound(s, j - 1);
      StepsAdd(Shifted(s, 0), 5 * (j - 1), 5);
    }
  }

  /** The state when event_next returns: the oldest event in the registers, the others
      moved down one slot, and everything of the caller's as it was. */
  function Dequeued(s: State): State
    requires 0 < Count(s) <= CAPACITY
  {
    var n := Count(s);
    s.(
      interrupts := true, pc := Ret, regs := s.slots[0], temp := s.slots[0],
      pointer := Sub32(s.pointer, EVENT_SIZE),
      zero := Sub32(s.pointer, EVENT_SIZE) == 0,
      slots := s.slots[1..n] + s.slots[n - 1..])
  }

  lemma LeaveLoop(s: State)
    requires s.pc.Icl? && Shaped(s) && Count(s) > 0
    ensures Steps(Shifted(s, Count(s) - 1), 8) == Some(Dequeued(s))
  {
    hide Steps, MainStep;
    var n := Count(s);
    var t := Shifted(s, n - 1);
    var t1 := t.(r9 := SlotAddress(n), pc := CmpR9);
    AddStep(t, n - 1);
    var t2 := t1.(zero := true, pc := BranchR9);
    CompareStep(t1);
    var t3 := t2.(pc := LoadTemp);
    BranchStep(t2);
    var t4 := t3.(regs := s.slots[0], r8 := EVENT_TEMP + EVENT_SIZE, pc := SubPointer);
    LoadTempStep(t3);
    FourSteps(t, t1, t2, t3, t4);
    RestoreAll(t4, s.stack, s.r8, s.r9);
    StepsAdd(t, 4, 4);
  }

  lemma LoadTempStep(s: State)
    requires s.pc.LoadTemp?
    ensures MainStep(s) == Some(s.(regs := s.temp, r8 := EVENT_TEMP + EVENT_SIZE, pc := SubPointer))
  {
  }

  lemma PopSteps(s: State, stack: seq<u32>, v: u32)
    requires s.stack == stack + [v]
    ensures s.pc.PopR9? ==> MainStep(s) == Some(s.(stack := stack, r9 := v, pc := PopR8))
    ensures s.pc.PopR8? ==> MainStep(s) == Some(s.(stack := stack, r8 := v, pc := Ise))
  {
    assert s.stack[..|s.stack| - 1] == stack;
  }

  lemma EndSteps(s: State)
    ensures s.pc.SubPointer? ==>
      var p := Sub32(s.pointer, EVENT_SIZE);
      MainStep(s) == Some(s.(pointer := p, zero := p == 0, pc := PopR9))
    ensures s.pc.Ise? ==> MainStep(s) == Some(s.(interrupts := true, pc := Ret))
  {
  }

  lemma RestoreAll(s: State, stack: seq<u32>, r8: u32, r9: u32)
    requires s.pc.SubPointer? && s.stack == stack + [r8, r9]
    ensures Steps(s, 4) == Some(s.(
      pointer := Sub32(s.pointer, EVENT_SIZE), zero := Sub32(s.pointer, EVENT_SIZE) == 0,
      stack := stack, r8 := r8, r9 := r9, interrupts := true, pc := Ret))
  {
    hide Steps, MainStep;
    var p := Sub32(s.pointer, EVENT_SIZE);
    var s1 := s.(pointer := p, zero := p == 0, pc := PopR9);
    EndSteps(s);
    var s2 := s1.(stack := stack + [r8], r9 := r9, pc := PopR8);
    assert s.stack == (stack + [r8]) + [r9];
    PopSteps(s1, stack + [r8], r9);
    var s3 := s2.(stack := stack, r8 := r8, pc := Ise);
    PopSteps(s2, stack, r8);
    EndSteps(s3);
    FourSteps(s, s1, s2, s3, s3.(interrupts := true, pc := Ret));
  }

  /** From the icl, event_next takes exactly 5n + 9 steps with n events queued, and
      then the oldest event is in the registers, the rest are one slot lower, and the
      caller's r8, r9 and stack are restored. */
  lemma DequeueTakesOldest(s: State)
    requires s.pc.Icl? && Shaped(s) && Count(s) > 0
    ensures Steps(s, 5 * Count(s) + 9) == Some(Dequeued(s))
    ensures Count(Dequeued(s)) == Count(s) - 1
    ensures Dequeued(s).slots[..Count(s) - 1] == s.slots[1..Count(s)]
  {
    hide Steps, Shifted, MainStep;
    var n := Count(s);
    ReachLoop(s);
    ShiftRounds(s, n - 1);
    LeaveLoop(s);
    StepsAdd(s, 6, 5 * (n - 1));
    StepsAdd(s, 6 + 5 * (n - 1), 8);
  }
}
