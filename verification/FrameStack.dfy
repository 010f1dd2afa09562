/** Kernel/mem.c: the stack of free frames in the region from 10 MB to 12 MB. */
module FrameStack {
  import opened Wrappers
  import opened PhysicalMemory
  import Boot

  /** 2 MB of eight-byte slots. */
  const SLOTS: nat := 262144

  class Pmm {
    var ram: Ram
    const slots: array<nat>
    var current: nat  // `pmm_stack_current`, counted from `pmm_stack_start`

    ghost predicate Valid()
      reads this
    {
      slots.Length == SLOTS && current <= SLOTS
    }

    ghost function State(): Mem
      requires Valid()
      reads this, slots
    {
      Mem(ram, slots[..current])
    }

    constructor (memory: Ram)
      ensures Valid() && fresh(slots) && ram == memory && current == 0
    {
      ram := memory;
      slots := new nat[SLOTS];
      current := 0;
    }

    /** `pmm_initialize` */
    method Initialize()
      requires Valid()
      modifies this, slots
      ensures Valid() && State() == Mem(old(ram), Boot.InitialStack(Boot.FREE_FRAMES))
    {
      var endOfMemory := 0x2000_0000;
      var startOfFreeMemory := 0xC0_0000;
      current := 0;
      var frames := (endOfMemory - startOfFreeMemory) / 0x1000;
      for i := 0 to frames
        invariant Valid() && current == i && ram == old(ram)
        invariant forall j :: 0 <= j < i ==> slots[j] == 0xC0_0000 + j * 0x1000
      {
        slots[current] := startOfFreeMemory + i * 0x1000;
        current := current + 1;
      }
    }

    /** `memset_long(frame, 0, 512)` */
    method ClearFrame(frame: nat)
      requires Valid()
      modifies this`ram
      ensures ram == ZeroFrame(old(ram), frame)
    {
      for i := 0 to ENTRIES
        invariant frame >= FRAMES ==> ram == old(ram)
        invariant forall f :: 0 <= f < FRAMES && f != frame ==> ram[f] == old(ram)[f]
        invariant frame < FRAMES ==> forall j :: 0 <= j < 512 ==>
            ram[frame][j] == if j < i then ZERO_WORD else old(ram)[frame][j]
      {
        ram := Write(ram, frame, i, ZERO_WORD);
      }
      assert frame < FRAMES ==> ram[frame] == ZeroWords();
    }

    /** `pmm_page_alloc`; `None` when the machine has stopped in `mem_panic`. */
    method Alloc() returns (r: Option<nat>)
      requires Valid() && current >= 1
      modifies this
      ensures Valid() && current >= 1
      ensures match PageAlloc(old(State()))
              case OutOfMemory => r == None && State() == old(State())
              case Got(m, a) => r == Some(a) && State() == m
    {
      if current - 1 == 0 {
        return None;
      }
      current := current - 1;
      var page := slots[current];
      ClearFrame(FrameOf(page));
      assert old(State()).stack[..current] == slots[..current];
      return Some(page);
    }

    /** `pmm_page_free`; an unaligned address is written but not kept. */
    method Free(address: nat)
      requires Valid() && current < SLOTS
      modifies this`current, slots
      ensures Valid() && State() == PageFree(old(State()), address) && current >= old(current)
    {
      if !Aligned(address) {
        slots[current] := address - address % 0x1000;
        return;
      }
      slots[current] := address;
      current := current + 1;
    }
  }
}
