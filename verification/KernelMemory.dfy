/** The memory managers in use: every operation a process causes keeps the machine in a state that a run of
    the specification reaches. */
module KernelMemory {
  import opened Wrappers
  import opened PhysicalMemory
  import opened PageTables
  import opened FrameStack
  import opened FrameOwnership
  import opened Teardown
  import opened Conservation
  import opened NewProcess
  import opened Boot
  import opened KernelRuns
  import Words
  import opened RunSafety
  import opened Paging
  import ProcessTrees

  class MemoryManager {
    const mmu: Mmu
    ghost var live: set<nat>
    ghost var own: seq<Owner>

    ghost predicate Valid()
      reads this, mmu, mmu.pmm, mmu.pmm.slots
    {
      mmu.Valid() && |mmu.shared| == 6 && RunInv(Now(), own)
    }

    ghost function Now(): World
      requires mmu.Valid()
      reads this, mmu, mmu.pmm, mmu.pmm.slots
    {
      World(mmu.State(), Kernel(mmu.shared, mmu.originalCR3), live)
    }

    /** `pmm_initialize` and `vmm_initialize`. */
    constructor (memory: Ram)
      ensures Valid() && fresh(mmu) && fresh(mmu.pmm) && fresh(mmu.pmm.slots)
      ensures Run(memory, []) == Goes(Now())
    {
      var pmm := new Pmm(memory);
      pmm.Initialize();
      var m := new Mmu(pmm);
      BootEstablishesOwnership(memory);
      var ok := m.Initialize();
      mmu := m;
      live := {};
      own := BootOwners(FREE_FRAMES - 6);
    }

    /** The memory part of `task_create`: `new_process_cr3`, then the stack and the context. */
    method NewTask(func: Words.U64, argc: Words.U64, argv: Words.U64, wrapper: Words.U64)
      returns (cr3: Option<nat>, rsp: nat)
      requires Valid()
      modifies this, mmu, mmu.pmm
      ensures match Step(old(Now()), Create(InitialContext(func, argc, argv, wrapper)))
              case Halted => cr3 == None
              case Goes(w) => Valid() && Now() == w && cr3.Some? && live == old(live) + {cr3.value}
      ensures cr3.Some? ==> rsp + 184 == 0x1E0_0000
    {
      rsp := 0;
      var context := InitialContext(func, argc, argv, wrapper);
      ghost var own' := CreateKeepsInv(Now(), own, context);
      var c :- mmu.MakePml4();
      rsp :- mmu.AllocNewProcessStack(c, context);
      live := live + {c};
      own := own';
      cr3 := Some(c);
    }

    /** `page_fault_handler` for a running process; false when the machine has stopped. */
    method HandlePageFault(cr3: nat, cr2: nat) returns (ok: bool)
      requires Valid() && cr3 in live && cr2 < 0x1_0000_0000_0000_0000
      modifies this, mmu, mmu.pmm
      ensures match Step(old(Now()), Fault(cr3, cr2))
              case Halted => !ok
              case Goes(w) => ok && Valid() && Now() == w
      ensures ok && 0x160_0000 <= cr2 < 0x200_0000 ==> Walk(mmu.pmm.ram, cr3, Translate(cr2)).To?
    {
      FaultResolves(Now(), own, cr3, cr2);
      ghost var own' := FaultKeepsInv(Now(), own, cr3, cr2);
      var page := mmu.PageFault(cr3, cr2);
      own := own';
      return page.Some?;
    }

    /** `free_l4_table` from `task_remove`: the stack of free frames has room for all of them. */
    method Discard(cr3: nat) returns (freed: nat)
      requires Valid() && cr3 in live
      modifies this, mmu.pmm, mmu.pmm.slots
      ensures Valid() && Goes(Now()) == Step(old(Now()), Exit(cr3))
      ensures freed == |TreeVisits(old(mmu.pmm.ram), cr3)| - 1
    {
      ghost var w := Now();
      ghost var own' := OwnersAfter(own, cr3, |w.mem.stack|, TreeVisits(w.mem.ram, cr3));
      ExitKeepsInv(w, own, cr3);
      StackIsSafe(FreeTree(w.mem, cr3).stack, own');
      freed := mmu.FreeL4Table(cr3);
      live := live - {cr3};
      own := own';
    }

    /** A process stores a word through its tables. */
    method StoreWord(cr3: nat, addr: nat, word: nat)
      requires Valid() && cr3 in live
      requires StoreAllowed(addr) && word < 0x1_0000_0000_0000_0000
      modifies mmu.pmm`ram
      ensures Valid() && Goes(Now()) == Step(old(Now()), Store(cr3, addr, word))
    {
      StoreKeepsInv(Now(), own, cr3, addr, word);
      match Walk(mmu.pmm.ram, cr3, Translate(addr))
      case Unmapped =>
      case To(a) =>
        mmu.pmm.ram := Write(mmu.pmm.ram, FrameOf(a), a % 0x1000 / 8, FieldsOf(word));
    }
  }
}
