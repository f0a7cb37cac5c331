/** The event queue's routines as they change memory: adding an event, and taking the
    oldest out by shifting the others down, byte by byte in RAM. */
module EventMemory {
  import opened Words
  import opened WordArrays
  import opened Memory
  import opened EventQueue

  const EVENT_QUEUE_POINTER: u32 := 0x01FF_FBFA

  function EventBytes(e: Event): (r: seq<u8>)
    ensures |r| == EVENT_SIZE
  {
    Le(Word, e.r0) + Le(Word, e.r1) + Le(Word, e.r2) + Le(Word, e.r3)
    + Le(Word, e.r4) + Le(Word, e.r5) + Le(Word, e.r6) + Le(Word, e.r7)
  }

  /** The event stored at an address. */
  function EventAt(mem: seq<u8>, at: nat): Event
    requires at + EVENT_SIZE <= |mem|
  {
    Event(
      Load(Word, mem, at), Load(Word, mem, at + 4), Load(Word, mem, at + 8), Load(Word, mem, at + 12),
      Load(Word, mem, at + 16), Load(Word, mem, at + 20), Load(Word, mem, at + 24), Load(Word, mem, at + 28))
  }

  /** Nothing outside an address range has changed. */
  predicate SameOutside(mem: seq<u8>, other: seq<u8>, from: nat, to: nat) {
    |mem| == |other| && forall q :: 0 <= q < |mem| && !(from <= q < to) ==> mem[q] == other[q]
  }

  lemma EventElsewhere(mem: seq<u8>, other: seq<u8>, from: nat, to: nat, at: nat)
    requires SameOutside(mem, other, from, to) && at + EVENT_SIZE <= |mem|
    requires at + EVENT_SIZE <= from || to <= at
    ensures EventAt(other, at) == EventAt(mem, at)
  {
  }

  lemma WordElsewhere(mem: seq<u8>, other: seq<u8>, from: nat, to: nat, at: nat)
    requires SameOutside(mem, other, from, to) && at + 4 <= |mem|
    requires at + 4 <= from || to <= at
    ensures Load(Word, other, at) == Load(Word, mem, at)
  {
  }

  /** Writing one more word behind a run of bytes. */
  lemma WriteBehind(mem: seq<u8>, after: seq<u8>, at: nat, run: seq<u8>, v: u32)
    requires at + |run| + 4 <= |mem| && mem[at..at + |run|] == run
    requires after == Store(Word, mem, at + |run|, v)
    ensures after[at..at + |run| + 4] == run + Le(Word, v)
    ensures SameOutside(mem, after, at + |run|, at + |run| + 4)
  {
    hide Store, Le;
    StoreIsSplice(Word, mem, at + |run|, v);
  }

  lemma SameThrough(a: seq<u8>, b: seq<u8>, c: seq<u8>, at: nat, m: nat, n: nat)
    requires SameOutside(a, b, at, at + m) && SameOutside(b, c, at + m, at + n) && m <= n
    ensures SameOutside(a, c, at, at + n)
  {
  }

  /** Bytes that are an event's read back as that event. */
  lemma EventOfBytes(mem: seq<u8>, at: nat, e: Event)
    requires at + EVENT_SIZE <= |mem| && mem[at..at + EVENT_SIZE] == EventBytes(e)
    ensures EventAt(mem, at) == e
  {
    hide Load, Le;
    var b := EventBytes(e);
    WordOf(mem, at, b, 0, e.r0);
    WordOf(mem, at, b, 4, e.r1);
    WordOf(mem, at, b, 8, e.r2);
    WordOf(mem, at, b, 12, e.r3);
    WordOf(mem, at, b, 16, e.r4);
    WordOf(mem, at, b, 20, e.r5);
    WordOf(mem, at, b, 24, e.r6);
    WordOf(mem, at, b, 28, e.r7);
  }

  lemma WordOf(mem: seq<u8>, at: nat, b: seq<u8>, k: nat, v: u32)
    requires at + |b| <= |mem| && mem[at..at + |b|] == b && k + 4 <= |b| && b[k..k + 4] == Le(Word, v)
    ensures Load(Word, mem, at + k) == v
  {
    hide Load, Le;
    SliceOfSlice(mem, at, at + |b|, k, k + 4);
    LoadLe(Word, mem, at + k, v);
  }

  /** event__load: the event at r8, and r8 past it. */
  method LoadEvent(ram: array<u8>, r8: u32) returns (regs: Event, next: u32)
    requires r8 + EVENT_SIZE <= ram.Length <= RAM_SIZE
    ensures regs == EventAt(ram[..], r8) && next == r8 + EVENT_SIZE
  {
    hide Load;
    next := r8;
    var r0 := ReadWord(ram, next);
    next := next + 4;
    var r1 := ReadWord(ram, next);
    next := next + 4;
    var r2 := ReadWord(ram, next);
    next := next + 4;
    var r3 := ReadWord(ram, next);
    next := next + 4;
    var r4 := ReadWord(ram, next);
    next := next + 4;
    var r5 := ReadWord(ram, next);
    next := next + 4;
    var r6 := ReadWord(ram, next);
    next := next + 4;
    var r7 := ReadWord(ram, next);
    next := next + 4;
    regs := Event(r0, r1, r2, r3, r4, r5, r6, r7);
  }

  /** One word of event__store. */
  method StoreNext(ram: array<u8>, r8: u32, v: u32, ghost at: nat, ghost run: seq<u8>, ghost start: seq<u8>)
    returns (next: u32)
    requires r8 == at + |run| && r8 + 4 <= ram.Length <= RAM_SIZE
    requires ram[at..r8] == run && SameOutside(start, ram[..], at, r8)
    modifies ram
    ensures next == r8 + 4 && ram[at..next] == run + Le(Word, v) && SameOutside(start, ram[..], at, next)
  {
    hide Store, Le, SameOutside;
    ghost var before := ram[..];
    assert before[at..r8] == ram[at..r8];
    WriteWord(ram, r8, v);
    WriteBehind(before, ram[..], at, run, v);
    SameThrough(start, before, ram[..], at, |run|, |run| + 4);
    next := r8 + 4;
    assert ram[at..next] == ram[..][at..next];
  }

  /** event__store: the event to r8, and r8 past it. */
  method StoreEvent(ram: array<u8>, r8: u32, regs: Event) returns (next: u32)
    requires r8 + EVENT_SIZE <= ram.Length <= RAM_SIZE
    modifies ram
    ensures next == r8 + EVENT_SIZE && EventAt(ram[..], r8) == regs
    ensures SameOutside(old(ram[..]), ram[..], r8, r8 + EVENT_SIZE)
  {
    hide Load, Le, SameOutside;
    ghost var start := ram[..];
    assert SameOutside(start, ram[..], r8, r8) by {
      SameAtFirst(start, r8);
    }
    ghost var run := [];
    next := StoreNext(ram, r8, regs.r0, r8, run, start);
    run := run + Le(Word, regs.r0);
    next := StoreNext(ram, next, regs.r1, r8, run, start);
    run := run + Le(Word, regs.r1);
    next := StoreNext(ram, next, regs.r2, r8, run, start);
    run := run + Le(Word, regs.r2);
    next := StoreNext(ram, next, regs.r3, r8, run, start);
    run := run + Le(Word, regs.r3);
    next := StoreNext(ram, next, regs.r4, r8, run, start);
    run := run + Le(Word, regs.r4);
    next := StoreNext(ram, next, regs.r5, r8, run, start);
    run := run + Le(Word, regs.r5);
    next := StoreNext(ram, next, regs.r6, r8, run, start);
    run := run + Le(Word, regs.r6);
    next := StoreNext(ram, next, regs.r7, r8, run, start);
    assert ram[r8..next] == EventBytes(regs) by {
      assert [] + Le(Word, regs.r0) == Le(Word, regs.r0);
    }
    assert ram[..][r8..next] == ram[r8..next];
    EventOfBytes(ram[..], r8, regs);
  }

  lemma SameAtFirst(mem: seq<u8>, at: nat)
    ensures SameOutside(mem, mem, at, at)
  {
  }

  // ----- the queue in memory

  function PointerOf(mem: seq<u8>): u32
    requires |mem| == RAM_SIZE
  {
    Load(Word, mem, EVENT_QUEUE_POINTER)
  }

  /** The queue holds these events, oldest first; a pointer that was never set means
      an empty queue. */
  predicate Holds(mem: seq<u8>, events: seq<Event>) {
    && |mem| == RAM_SIZE && |events| <= CAPACITY
    && (PointerOf(mem) == SlotAddress(|events|) || (PointerOf(mem) == 0 && events == []))
    && forall k :: 0 <= k < |events| ==> EventAt(mem, SlotAddress(k)) == events[k]
  }

  /** event__init: sets the pointer the first time. */
  method EventInit(ram: array<u8>, ghost events: seq<Event>)
    requires Holds(ram[..], events)
    modifies ram
    ensures Holds(ram[..], events) && PointerOf(ram[..]) == SlotAddress(|events|)
    ensures SameOutside(old(ram[..]), ram[..], EVENT_QUEUE_POINTER, EVENT_QUEUE_BOTTOM)
  {
    hide Load, EventAt;
    ghost var start := ram[..];
    var pointer := ReadWord(ram, EVENT_QUEUE_POINTER);
    if pointer == 0 {
      WriteWord(ram, EVENT_QUEUE_POINTER, EVENT_QUEUE_BOTTOM);
      PointerWritten(start, ram[..], EVENT_QUEUE_BOTTOM);
    }
  }

  /** event_new: the event goes to the end of the queue; memory outside the queue and
      its pointer does not change. */
  method EventNew(ram: array<u8>, regs: Event, ghost events: seq<Event>)
    requires Holds(ram[..], events) && |events| < CAPACITY
    modifies ram
    ensures Holds(ram[..], events + [regs])
    ensures SameOutside(old(ram[..]), ram[..], EVENT_QUEUE_POINTER, SlotAddress(CAPACITY))
  {
    hide Load, EventAt;
    ghost var start := ram[..];
    EventInit(ram, events);
    ghost var ready := ram[..];
    var r8 := ReadWord(ram, EVENT_QUEUE_POINTER);
    r8 := StoreEvent(ram, r8, regs);
    ghost var stored := ram[..];
    WriteWord(ram, EVENT_QUEUE_POINTER, r8);
    PointerWritten(stored, ram[..], r8);
    Appended(ready, stored, ram[..], events, regs);
    SameTwice(start, ready, stored, ram[..], |events|);
  }

  lemma PointerWritten(mem: seq<u8>, after: seq<u8>, v: u32)
    requires |mem| == RAM_SIZE && after == Store(Word, mem, EVENT_QUEUE_POINTER, v)
    ensures |after| == RAM_SIZE && PointerOf(after) == v
    ensures SameOutside(mem, after, EVENT_QUEUE_POINTER, EVENT_QUEUE_BOTTOM)
  {
    hide Load;
    LoadStore(Word, mem, EVENT_QUEUE_POINTER, v);
  }

  lemma SameTwice(start: seq<u8>, ready: seq<u8>, stored: seq<u8>, after: seq<u8>, n: nat)
    requires n < CAPACITY
    requires SameOutside(start, ready, EVENT_QUEUE_POINTER, EVENT_QUEUE_BOTTOM)
    requires SameOutside(ready, stored, SlotAddress(n), SlotAddress(n + 1))
    requires SameOutside(stored, after, EVENT_QUEUE_POINTER, EVENT_QUEUE_BOTTOM)
    ensures SameOutside(start, after, EVENT_QUEUE_POINTER, SlotAddress(CAPACITY))
  {
  }

  lemma Appended(start: seq<u8>, stored: seq<u8>, after: seq<u8>, events: seq<Event>, e: Event)
    requires Holds(start, events) && PointerOf(start) == SlotAddress(|events|) && |events| < CAPACITY
    requires |stored| == |after| == RAM_SIZE
    requires SameOutside(start, stored, SlotAddress(|events|), SlotAddress(|events| + 1))
    requires EventAt(stored, SlotAddress(|events|)) == e
    requires SameOutside(stored, after, EVENT_QUEUE_POINTER, EVENT_QUEUE_BOTTOM)
    requires PointerOf(after) == SlotAddress(|events| + 1)
    ensures Holds(after, events + [e])
  {
    hide Load, EventAt, SameOutside;
    var n := |events|;
    forall k | 0 <= k <= n
      ensures EventAt(after, SlotAddress(k)) == (events + [e])[k]
    {
      EventElsewhere(stored, after, EVENT_QUEUE_POINTER, EVENT_QUEUE_BOTTOM, SlotAddress(k));
      if k < n {
        EventElsewhere(start, stored, SlotAddress(n), SlotAddress(n + 1), SlotAddress(k));
      }
    }
  }

  // ----- taking the oldest event

  /** The queue while it is being shifted: the oldest event is set aside, the next j
      have moved down one slot, and slot j is free. */
  predicate Shifting(mem: seq<u8>, events: seq<Event>, j: nat) {
    && |mem| == RAM_SIZE && j < |events| <= CAPACITY
    && PointerOf(mem) == SlotAddress(|events|)
    && EventAt(mem, EVENT_TEMP) == events[0]
    && (forall k :: 0 <= k < j ==> EventAt(mem, SlotAddress(k)) == events[k + 1])
    && (forall k :: j < k < |events| ==> EventAt(mem, SlotAddress(k)) == events[k])
  }

  lemma SetAside(mem: seq<u8>, after: seq<u8>, events: seq<Event>)
    requires Holds(mem, events) && events != [] && |after| == RAM_SIZE
    requires SameOutside(mem, after, EVENT_TEMP, EVENT_QUEUE_POINTER)
    requires EventAt(after, EVENT_TEMP) == events[0]
    ensures Shifting(after, events, 0)
  {
    hide Load, EventAt, SameOutside;
    WordElsewhere(mem, after, EVENT_TEMP, EVENT_QUEUE_POINTER, EVENT_QUEUE_POINTER);
    forall k | 0 < k < |events|
      ensures EventAt(after, SlotAddress(k)) == events[k]
    {
      EventElsewhere(mem, after, EVENT_TEMP, EVENT_QUEUE_POINTER, SlotAddress(k));
    }
  }

  lemma ShiftedDown(mem: seq<u8>, after: seq<u8>, events: seq<Event>, j: nat)
    requires Shifting(mem, events, j) && j + 1 < |events| && |after| == RAM_SIZE
    requires SameOutside(mem, after, SlotAddress(j), SlotAddress(j + 1))
    requires EventAt(after, SlotAddress(j)) == events[j + 1]
    ensures Shifting(after, events, j + 1)
  {
    hide Load, EventAt, SameOutside;
    WordElsewhere(mem, after, SlotAddress(j), SlotAddress(j + 1), EVENT_QUEUE_POINTER);
    EventElsewhere(mem, after, SlotAddress(j), SlotAddress(j + 1), EVENT_TEMP);
    forall k | 0 <= k < |events| && k != j
      ensures EventAt(after, SlotAddress(k)) == EventAt(mem, SlotAddress(k))
    {
      EventElsewhere(mem, after, SlotAddress(j), SlotAddress(j + 1), SlotAddress(k));
    }
  }

  lemma PointerLowered(mem: seq<u8>, after: seq<u8>, events: seq<Event>)
    requires events != [] && Shifting(mem, events, |events| - 1)
    requires after == Store(Word, mem, EVENT_QUEUE_POINTER, SlotAddress(|events| - 1))
    ensures Holds(after, events[1..])
    ensures SameOutside(mem, after, EVENT_QUEUE_POINTER, EVENT_QUEUE_BOTTOM)
  {
    hide Load, EventAt, Store, SameOutside;
    PointerWritten(mem, after, SlotAddress(|events| - 1));
    forall k | 0 <= k < |events| - 1
      ensures EventAt(after, SlotAddress(k)) == events[1..][k]
    {
      EventElsewhere(mem, after, EVENT_QUEUE_POINTER, EVENT_QUEUE_BOTTOM, SlotAddress(k));
    }
  }

  predicate SameOutsideQueue(mem: seq<u8>, other: seq<u8>) {
    SameOutside(mem, other, EVENT_TEMP, SlotAddress(CAPACITY))
  }

  lemma SameWithin(a: seq<u8>, b: seq<u8>, c: seq<u8>, from: nat, to: nat)
    requires SameOutsideQueue(a, b) && SameOutside(b, c, from, to)
    requires EVENT_TEMP <= from && to <= SlotAddress(CAPACITY)
    ensures SameOutsideQueue(a, c)
  {
  }

  /** event_next: an empty queue gives the empty event; otherwise the oldest event is
      taken out and the others keep their order.  Nothing but the queue's memory
      changes. */
  method EventNext(ram: array<u8>, ghost events: seq<Event>) returns (regs: Event)
    requires Holds(ram[..], events)
    modifies ram
    ensures regs == if events == [] then EMPTY else events[0]
    ensures Holds(ram[..], if events == [] then [] else events[1..])
    ensures SameOutsideQueue(old(ram[..]), ram[..])
  {
    hide Load, EventAt, Store, SameOutside, Holds;
    EventInit(ram, events);
    assert SameOutsideQueue(old(ram[..]), ram[..]) by {
      SameAtFirst(old(ram[..]), EVENT_TEMP);
      InsideQueue(old(ram[..]), ram[..]);
    }
    EmptyPointer(ram[..], events);
    var pointer := ReadWord(ram, EVENT_QUEUE_POINTER);
    if pointer == EVENT_QUEUE_BOTTOM {
      return EMPTY;
    }
    ghost var ready := ram[..];
    regs := TakeOldest(ram, events);
    SameQueueTwice(old(ram[..]), ready, ram[..]);
  }

  lemma SameQueueTwice(a: seq<u8>, b: seq<u8>, c: seq<u8>)
    requires SameOutsideQueue(a, b) && SameOutsideQueue(b, c)
    ensures SameOutsideQueue(a, c)
  {
  }

  lemma InsideQueue(mem: seq<u8>, after: seq<u8>)
    requires SameOutside(mem, after, EVENT_QUEUE_POINTER, EVENT_QUEUE_BOTTOM)
    ensures SameOutsideQueue(mem, after)
  {
  }

  lemma EmptyPointer(mem: seq<u8>, events: seq<Event>)
    requires Holds(mem, events) && PointerOf(mem) == SlotAddress(|events|)
    ensures PointerOf(mem) == EVENT_QUEUE_BOTTOM <==> events == []
    ensures |mem| == RAM_SIZE && |events| <= CAPACITY
    ensures events != [] ==> EventAt(mem, EVENT_QUEUE_BOTTOM) == events[0]
  {
    hide Load, EventAt;
    if events != [] {
      assert EventAt(mem, SlotAddress(0)) == events[0];
    }
  }

  /** event_next_0, the part that runs with interrupts off. */
  method TakeOldest(ram: array<u8>, ghost events: seq<Event>) returns (regs: Event)
    requires Holds(ram[..], events) && events != []
    modifies ram
    ensures regs == events[0] && Holds(ram[..], events[1..])
    ensures SameOutsideQueue(old(ram[..]), ram[..])
  {
    hide Load, EventAt, Store, SameOutside, Shifting, Holds, SameOutsideQueue;
    ghost var start := ram[..];
    NonEmptyPointer(start, events);
    var r8;
    regs, r8 := LoadEvent(ram, EVENT_QUEUE_BOTTOM);
    r8 := StoreEvent(ram, EVENT_TEMP, regs);
    SetAside(start, ram[..], events);
    NoChange(start);
    SameWithin(start, start, ram[..], EVENT_TEMP, EVENT_QUEUE_POINTER);
    var r9 := EVENT_QUEUE_BOTTOM;
    ghost var j := 0;
    while true
      invariant Shifting(ram[..], events, j)
      invariant r9 == SlotAddress(j) && j < |events| <= CAPACITY
      invariant SameOutsideQueue(start, ram[..])
      decreases |events| - j
    {
      r9 := r9 + EVENT_SIZE;
      ShiftingReads(ram[..], events, j);
      var pointer := ReadWord(ram, EVENT_QUEUE_POINTER);
      if pointer == r9 {
        break;
      }
      ghost var before := ram[..];
      regs, r8 := LoadEvent(ram, r9);
      r8 := StoreEvent(ram, r9 - EVENT_SIZE, regs);
      ShiftedDown(before, ram[..], events, j);
      SameWithin(start, before, ram[..], SlotAddress(j), SlotAddress(j + 1));
      j := j + 1;
    }
    ghost var last := ram[..];
    regs, r8 := LoadEvent(ram, EVENT_TEMP);
    var pointer := ReadWord(ram, EVENT_QUEUE_POINTER);
    WriteWord(ram, EVENT_QUEUE_POINTER, Sub32(pointer, EVENT_SIZE));
    PointerLowered(last, ram[..], events);
    SameWithin(start, last, ram[..], EVENT_QUEUE_POINTER, EVENT_QUEUE_BOTTOM);
  }

  lemma NonEmptyPointer(mem: seq<u8>, events: seq<Event>)
    requires Holds(mem, events) && events != []
    ensures |mem| == RAM_SIZE && |events| <= CAPACITY
    ensures EventAt(mem, EVENT_QUEUE_BOTTOM) == events[0]
  {
    hide Load, EventAt;
    assert EventAt(mem, SlotAddress(0)) == events[0];
  }

  lemma NoChange(mem: seq<u8>)
    ensures SameOutsideQueue(mem, mem)
  {
  }

  lemma ShiftingReads(mem: seq<u8>, events: seq<Event>, j: nat)
    requires Shifting(mem, events, j)
    ensures |mem| == RAM_SIZE && PointerOf(mem) == SlotAddress(|events|)
    ensures EventAt(mem, EVENT_TEMP) == events[0]
    ensures j + 1 < |events| ==> EventAt(mem, SlotAddress(j + 1)) == events[j + 1]
  {
    hide Load, EventAt;
  }
}
