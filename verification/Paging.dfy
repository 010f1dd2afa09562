/** Kernel/paging.c: the operations that write page tables, step by step, each proved to do to memory what
    its specification function says. A `None` result means the machine stopped in `mem_panic`. */
module Paging {
  import opened Wrappers
  import opened PhysicalMemory
  import opened PageTables
  import opened FrameStack
  import opened FrameOwnership
  import opened Teardown
  import opened ProcessTrees
  import opened ProcessStack
  import opened NewProcess
  import opened Boot
  import KernelRuns
  import RunSafety

  class Mmu {
    const pmm: Pmm
    var shared: seq<nat>        // k_0_2_MB to k_10_12_MB
    var originalCR3: nat
    var aux: VirtualAddress     // the one address record every caller shares

    ghost predicate Valid()
      reads this, pmm
    {
      pmm.Valid() && pmm.current >= 1
    }

    ghost function State(): Mem
      requires Valid()
      reads this, pmm, pmm.slots
    {
      pmm.State()
    }

    constructor (frames: Pmm)
      requires frames.Valid() && frames.current >= 1
      ensures Valid() && pmm == frames && shared == []
    {
      pmm := frames;
      shared := [];
      originalCR3 := 0;
      aux := VirtualAddress(0, 0, 0, 0, 0);
    }

    /** The loop over the 512 entries of a table that maps the 2 MB of this index to themselves. */
    method MapIdentity(t: nat, index: nat, rw: bool, us: bool)
      requires Valid()
      modifies pmm`ram
      ensures Valid() && State() == old(State()).(ram := WriteIdentity(old(pmm.ram), t, index, rw, us))
    {
      for i := 0 to ENTRIES
        invariant t >= FRAMES ==> pmm.ram == old(pmm.ram)
        invariant forall f :: 0 <= f < FRAMES && f != t ==> pmm.ram[f] == old(pmm.ram)[f]
        invariant t < FRAMES ==> forall j :: 0 <= j < 512 ==>
                    pmm.ram[t][j] == if j < i then IdentityEntry(old(pmm.ram)[t][j], index, j, rw, us)
                    else old(pmm.ram)[t][j]
      {
        var address := (index * 0x20_0000 + i * 0x1000) / 0x1000 % 0x100_0000_0000;
        pmm.ram := Write(pmm.ram, t, i, Read(pmm.ram, t, i).(p := true, rw := rw, us := us, address := address));
      }
      assert t < FRAMES ==> pmm.ram[t] == WriteIdentity(old(pmm.ram), t, index, rw, us)[t];
    }

    /** `identity_l1_map` */
    method MakeIdentityL1Map(index: nat, rw: bool, us: bool) returns (r: Option<nat>)
      requires Valid()
      modifies pmm
      ensures Valid()
      ensures match IdentityL1Map(old(State()), index, rw, us)
              case OutOfMemory => r == None
              case Got(m, f) => r == Some(f) && State() == m
    {
      var page :- pmm.Alloc();
      MapIdentity(FrameOf(page), index, rw, us);
      return Some(FrameOf(page));
    }

    /** `create_initial_l1_tables`; false when the machine has stopped. */
    method CreateInitialL1Tables() returns (ok: bool)
      requires Valid()
      modifies this`shared, pmm
      ensures Valid()
      ensures match SharedTables(old(State()), 6)
              case NoMemory => !ok
              case Made(m, frames) => ok && State() == m && shared == frames
    {
      shared := [];
      for i := 0 to 6
        invariant Valid() && SharedTables(old(State()), i) == Made(State(), shared)
      {
        ghost var before := SharedTables(old(State()), i);
        var t := MakeIdentityL1Map(i, true, 2 <= i <= 4);
        assert SharedTables(old(State()), i + 1) == match IdentityL1Map(before.mem, i, true, 2 <= i <= 4)
                                                    case OutOfMemory => NoMemory
                                                    case Got(m2, f) => Made(m2, before.frames + [f]);
        if t == None {
          FailureLasts(old(State()), i + 1);
          return false;
        }
        shared := shared + [t.value];
      }
      return true;
    }

    static lemma FailureLasts(m: Mem, n: nat)
      requires n <= 6 && SharedTables(m, n).NoMemory?
      ensures SharedTables(m, 6).NoMemory?
      decreases 6 - n
    {
      if n < 6 { FailureLasts(m, n + 1); }
    }

    /** `all_memory_identity` */
    method MakeAllMemoryIdentity() returns (r: Option<nat>)
      requires Valid()
      modifies pmm
      ensures Valid()
      ensures match AllMemoryIdentity(old(State()))
              case OutOfMemory => r == None
              case Got(m, root) => r == Some(root) && State() == m
    {
      var pml4 :- pmm.Alloc();
      var pml3 :- pmm.Alloc();
      var pml2 :- pmm.Alloc();
      pmm.ram := Write(pmm.ram, FrameOf(pml4), 0, TableEntry(FrameOf(pml3)));
      pmm.ram := Write(pmm.ram, FrameOf(pml3), 0, TableEntry(FrameOf(pml2)));
      var ok := MapAllMemory(FrameOf(pml2));
      return if ok then Some(FrameOf(pml4)) else None;
    }

    /** The loop of `all_memory_identity`; false when the machine has stopped. */
    method MapAllMemory(l2: nat) returns (ok: bool)
      requires Valid()
      modifies pmm
      ensures Valid()
      ensures match IdentityTables(old(State()), l2, 257)
              case OutOfMemory => !ok
              case Got(m, _) => ok && State() == m
    {
      for i := 0 to 257
        invariant Valid() && IdentityTables(old(State()), l2, i) == Got(State(), l2)
      {
        var page := pmm.Alloc();
        if page == None {
          IdentityFailureLasts(old(State()), l2, i + 1);
          return false;
        }
        var entry := Read(pmm.ram, l2, i);
        pmm.ram := Write(pmm.ram, l2, i,
                         entry.(p := true, us := false, rw := false, address := FrameOf(page.value) % 0x100_0000_0000));
        MapIdentity(FrameOf(page.value), i, false, false);
      }
      return true;
    }

    static lemma IdentityFailureLasts(m: Mem, l2: nat, n: nat)
      requires n <= 257 && IdentityTables(m, l2, n).OutOfMemory?
      ensures IdentityTables(m, l2, 257).OutOfMemory?
      decreases 257 - n
    {
      if n < 257 { IdentityFailureLasts(m, l2, n + 1); }
    }

    /** `vmm_initialize`; false when the machine has stopped. */
    method Initialize() returns (ok: bool)
      requires Valid() && State().stack == InitialStack(FREE_FRAMES)
      modifies this, pmm
      ensures match BootKernel(old(pmm.ram))
              case BootFailed => !ok
              case Running(m, k) => ok && Valid() && State() == m && Kernel(shared, originalCR3) == k
    {
      assert State() == Mem(pmm.ram, InitialStack(FREE_FRAMES));
      ok := CreateInitialL1Tables();
      if !ok { return; }
      var root := MakeAllMemoryIdentity();
      if root == None { return false; }
      originalCR3 := root.value;
      return true;
    }

    /** `generic_l2_table` */
    method GenericL2Table(t: nat)
      requires Valid() && |shared| == 6
      modifies pmm`ram
      ensures Valid()
      ensures State() == old(State()).(ram := GenericL2(old(pmm.ram), t, Kernel(shared, originalCR3)))
    {
      for i := 0 to 6
        invariant t >= FRAMES ==> pmm.ram == old(pmm.ram)
        invariant forall f :: 0 <= f < FRAMES && f != t ==> pmm.ram[f] == old(pmm.ram)[f]
        invariant t < FRAMES ==> forall j :: 0 <= j < 512 ==>
                    pmm.ram[t][j] == if j < i then old(pmm.ram)[t][j].(p := true, rw := true, us := false)
                    else old(pmm.ram)[t][j]
      {
        pmm.ram := Write(pmm.ram, t, i, Read(pmm.ram, t, i).(p := true, rw := true, us := false));
      }
      for i := 0 to 6
        invariant t >= FRAMES ==> pmm.ram == old(pmm.ram)
        invariant forall f :: 0 <= f < FRAMES && f != t ==> pmm.ram[f] == old(pmm.ram)[f]
        invariant t < FRAMES ==> forall j :: 0 <= j < 512 ==>
                    pmm.ram[t][j] ==
                    if j < i then GenericL2(old(pmm.ram), t, Kernel(shared, originalCR3))[t][j]
                    else if j < 6 then old(pmm.ram)[t][j].(p := true, rw := true, us := false)
                    else old(pmm.ram)[t][j]
      {
        var address := shared[i] % 0x100_0000_0000;
        pmm.ram := Write(pmm.ram, t, i, Read(pmm.ram, t, i).(us := i == 2, address := address));
      }
      assert t < FRAMES ==> pmm.ram[t] == GenericL2(old(pmm.ram), t, Kernel(shared, originalCR3))[t];
    }

    /** `create_pml4` */
    method MakePml4() returns (r: Option<nat>)
      requires Valid() && |shared| == 6
      modifies pmm
      ensures Valid()
      ensures match CreatePml4(old(State()), Kernel(shared, originalCR3))
              case OutOfMemory => r == None
              case Got(m, c) => r == Some(c) && State() == m
    {
      var pml4 :- pmm.Alloc();
      var pml3 :- pmm.Alloc();
      var pml2 :- pmm.Alloc();
      pmm.ram := Write(pmm.ram, FrameOf(pml4), 0, TableEntry(FrameOf(pml3)));
      pmm.ram := Write(pmm.ram, FrameOf(pml3), 0, TableEntry(FrameOf(pml2)));
      GenericL2Table(FrameOf(pml2));
      return Some(FrameOf(pml4));
    }

    /** The body shared by `get_l3_table`, `get_l2_table`, `get_l1_table` and `add_to_l1_table`. */
    method GetEntry(t: nat, i: nat, us: bool, rw: bool) returns (r: Option<nat>)
      requires Valid()
      modifies pmm
      ensures Valid()
      ensures match EnsureEntry(old(State()), t, i, us, rw)
              case OutOfMemory => r == None
              case Got(m, f) => r == Some(f) && State() == m
    {
      if !Read(pmm.ram, t, i).p {
        SetPresent(t, i, us, rw);
        var page :- pmm.Alloc();
        pmm.ram := Write(pmm.ram, t, i, Read(pmm.ram, t, i).(address := FrameOf(page) % 0x100_0000_0000));
      }
      return Some(Read(pmm.ram, t, i).address);
    }

    /** The three assignments that precede the allocation. */
    method SetPresent(t: nat, i: nat, us: bool, rw: bool)
      requires Valid()
      modifies pmm`ram
      ensures Valid()
      ensures State() ==
          old(State()).(ram := Write(old(pmm.ram), t, i, Read(old(pmm.ram), t, i).(p := true, rw := rw, us := us)))
    {
      FieldByField(pmm.ram, t, i, us, rw);
      pmm.ram := Write(pmm.ram, t, i, Read(pmm.ram, t, i).(p := true));
      pmm.ram := Write(pmm.ram, t, i, Read(pmm.ram, t, i).(rw := rw));
      pmm.ram := Write(pmm.ram, t, i, Read(pmm.ram, t, i).(us := us));
    }

    static lemma FieldByField(ram: Ram, t: nat, i: nat, us: bool, rw: bool)
      ensures var a := Write(ram, t, i, Read(ram, t, i).(p := true));
              var b := Write(a, t, i, Read(a, t, i).(rw := rw));
              Write(b, t, i, Read(b, t, i).(us := us)) ==
                  Write(ram, t, i, Read(ram, t, i).(p := true, rw := rw, us := us))
    {
      if t < FRAMES && i < ENTRIES {
        var x := ram[t][i].(p := true);
        var y := x.(rw := rw);
        assert ram[t][i := x][i := y][i := y.(us := us)] == ram[t][i := y.(us := us)];
      }
    }

    /** `add_page` */
    method AddPage(cr3: nat, va: VirtualAddress, us: bool, rw: bool) returns (r: Option<nat>)
      requires Valid()
      modifies pmm
      ensures Valid()
      ensures match PageTables.AddPage(old(State()), cr3, va, us, rw)
              case OutOfMemory => r == None
              case Got(m, page) => r == Some(page) && State() == m
    {
      var q3, q2, q1 := Sub(Top, va.l4), Sub(Sub(Top, va.l4), va.l3), Sub(Sub(Sub(Top, va.l4), va.l3), va.l2);
      assert Fill(State(), cr3, Top, us, rw) == Got(State(), cr3);
      assert Fill(State(), cr3, q3, us, rw).OutOfMemory? ==> Fill(State(), cr3, q2, us, rw).OutOfMemory?;
      assert Fill(State(), cr3, q2, us, rw).OutOfMemory? ==> Fill(State(), cr3, q1, us, rw).OutOfMemory?;
      assert Fill(State(), cr3, q1, us, rw).OutOfMemory? ==> Fill(State(), cr3, PathOf(va), us, rw).OutOfMemory?;
      assert Fill(old(State()), cr3, q3, us, rw) == EnsureEntry(old(State()), cr3, va.l4, us, rw);
      var l3 :- GetEntry(cr3, va.l4, us, rw);
      assert Fill(old(State()), cr3, q2, us, rw) == EnsureEntry(State(), l3, va.l3, us, rw);
      var l2 :- GetEntry(l3, va.l3, us, rw);
      assert Fill(old(State()), cr3, q1, us, rw) == EnsureEntry(State(), l2, va.l2, us, rw);
      var l1 :- GetEntry(l2, va.l2, us, rw);
      assert Fill(old(State()), cr3, PathOf(va), us, rw) == EnsureEntry(State(), l1, va.l1, us, rw);
      var page :- GetEntry(l1, va.l1, us, rw);
      return Some(PageAddress(page));
    }

    /** `alloc_new_process_stack`: the stack pointer to start the process with. */
    method AllocNewProcessStack(cr3: nat, context: Context) returns (r: Option<nat>)
      requires Valid()
      modifies this`aux, pmm
      ensures Valid()
      ensures match AllocProcessStack(old(State()), cr3, context)
              case OutOfMemory => r == None
              case Got(m, rsp) => r == Some(rsp) && State() == m
    {
      var page :- MapStack(cr3, StackRound(cr3));
      SaveContext(FrameOf(page), context);
      return Some(0x1E0_0000 - 184);
    }

    /** The double loop over level 2 entries 11 to 14 and their 512 entries; returns the first page of the
        stack, which is the last one added. */
    method MapStack(cr3: nat, ghost step: (Mem, nat) -> Alloc) returns (r: Option<nat>)
      requires Valid() && AddsStackPages(step, cr3)
      modifies this`aux, pmm
      ensures Valid() && Results(step, old(State()), STACK_PAGES, r, State())
    {
      var firstStackPage := 0;
      for i := 11 to 15
        invariant Valid() && Rounds(step, old(State()), (i - 11) * 512) == Got(State(), firstStackPage)
      {
        for j := 0 to 512
          invariant Valid() && Rounds(step, old(State()), (i - 11) * 512 + j) == Got(State(), firstStackPage)
        {
          ghost var n := (i - 11) * 512 + j;
          var page := AddStackPage(cr3, i, j, step, n);
          if page == None {
            FailureLastsTo(step, old(State()), n + 1, STACK_PAGES);
            return None;
          }
          firstStackPage := page.value;
        }
      }
      return Some(firstStackPage);
    }

    /** What `n` rounds from `start` promise: a result and memory to match, or a stopped machine. */
    static ghost predicate Results(step: (Mem, nat) -> Alloc, start: Mem, n: nat, r: Option<nat>, now: Mem) {
      match Rounds(step, start, n)
      case OutOfMemory => r == None
      case Got(m, page) => r == Some(page) && now == m
    }

    /** One round: the shared address record is set, and its page added. */
    method AddStackPage(cr3: nat, i: nat, j: nat, ghost step: (Mem, nat) -> Alloc, ghost n: nat)
      returns (r: Option<nat>)
      requires Valid() && AddsStackPages(step, cr3) && 11 <= i < 15 && j < 512 && n == (i - 11) * 512 + j
      modifies this`aux, pmm
      ensures Valid()
      ensures match step(old(State()), n)
              case OutOfMemory => r == None
              case Got(m, page) => r == Some(page) && State() == m
    {
      aux := aux.(l4 := 0, l3 := 0, l2 := i, l1 := j);
      SamePathSamePage(State(), cr3, aux, n);
      assert step(State(), n) == PageTables.AddPage(State(), cr3, StackPage(n), true, true);
      r := AddPage(cr3, aux, true, true);
    }

    static lemma SamePathSamePage(m: Mem, c: nat, va: VirtualAddress, n: nat)
      requires va.l4 == 0 && va.l3 == 0 && va.l2 == 11 + n / 512 && va.l1 == n % 512
      ensures PageTables.AddPage(m, c, va, true, true) == PageTables.AddPage(m, c, StackPage(n), true, true)
    {
      assert PathOf(va) == PathOf(StackPage(n));
    }

    static lemma FailureLastsTo(step: (Mem, nat) -> Alloc, m: Mem, n: nat, last: nat)
      requires n <= last && Rounds(step, m, n).OutOfMemory?
      ensures Rounds(step, m, last).OutOfMemory?
      decreases last - n
    {
      if n < last { FailureLastsTo(step, m, n + 1, last); }
    }

    /** The register image, field by field, in the last 184 bytes of the page. */
    method SaveContext(f: nat, context: Context)
      requires Valid()
      modifies pmm`ram
      ensures Valid() && State() == old(State()).(ram := WriteContext(old(pmm.ram), f, context))
    {
      for w := 0 to CONTEXT_WORDS
        invariant f >= FRAMES ==> pmm.ram == old(pmm.ram)
        invariant forall g :: 0 <= g < FRAMES && g != f ==> pmm.ram[g] == old(pmm.ram)[g]
        invariant f < FRAMES ==> forall j :: 0 <= j < 512 ==>
                    pmm.ram[f][j] == if 489 <= j < 489 + w then FieldsOf(context[j - 489]) else old(pmm.ram)[f][j]
      {
        pmm.ram := Write(pmm.ram, f, CONTEXT_FIRST_WORD + w, FieldsOf(context[w]));
      }
      assert f < FRAMES ==> pmm.ram[f] == WriteContext(old(pmm.ram), f, context)[f];
    }

    /** `free_l1_table` */
    method FreeL1Table(t: nat, ghost p: Path) returns (freed: nat)
      requires Valid() && pmm.current + |Visits(pmm.ram, t, p, 1, 511)| <= SLOTS
      modifies pmm`current, pmm.slots
      ensures Valid() && freed == |Visits(pmm.ram, t, p, 1, 511)|
      ensures State() == old(State()).(stack := old(State()).stack + Addresses(Visits(pmm.ram, t, p, 1, 511)))
    {
      freed := 0;
      for i := 0 to 511
        invariant Valid() && freed == |Visits(pmm.ram, t, p, 1, i)|
        invariant State().stack == old(State()).stack + Addresses(Visits(pmm.ram, t, p, 1, i))
      {
        VisitsGrow(pmm.ram, t, p, 1, i + 1, 511);
        AddressesConcat(Visits(pmm.ram, t, p, 1, i), EntryVisits(pmm.ram, Read(pmm.ram, t, i), Sub(p, i), 1));
        var current := Read(pmm.ram, t, i);
        if current.p {
          if PageAddress(current.address) > FIRST_ADDRESS {
            pmm.Free(PageAddress(current.address));
            freed := freed + 1;
          }
        }
      }
    }

    /** One round of `free_l2_table`. */
    method FreeL2Entry(e: Entry, ghost q: Path) returns (freed: nat)
      requires Valid() && pmm.current + |EntryVisits(pmm.ram, e, q, 2)| <= SLOTS
      modifies pmm`current, pmm.slots
      ensures Valid() && freed == |EntryVisits(pmm.ram, e, q, 2)|
      ensures State() == old(State()).(stack := old(State()).stack + Addresses(EntryVisits(pmm.ram, e, q, 2)))
    {
      freed := 0;
      if e.p {
        AddressesConcat(Visits(pmm.ram, e.address, q, 1, 511), [Visit(q, e.address)]);
        freed := FreeL1Table(e.address, q);
        assert pmm.current == |State().stack|;
        pmm.Free(PageAddress(e.address));
        freed := freed + 1;
      }
    }

    /** `free_l2_table`: from entry 6, so as not to free the first 12 MB. */
    method FreeL2Table(t: nat, ghost p: Path) returns (freed: nat)
      requires Valid() && pmm.current + |Visits(pmm.ram, t, p, 2, 512)| <= SLOTS
      modifies pmm`current, pmm.slots
      ensures Valid() && freed == |Visits(pmm.ram, t, p, 2, 512)|
      ensures State() == old(State()).(stack := old(State()).stack + Addresses(Visits(pmm.ram, t, p, 2, 512)))
    {
      freed := 0;
      for i := 6 to 512
        invariant Valid() && freed == |Visits(pmm.ram, t, p, 2, i)|
        invariant State().stack == old(State()).stack + Addresses(Visits(pmm.ram, t, p, 2, i))
      {
        VisitsGrow(pmm.ram, t, p, 2, i + 1, 512);
        AddressesConcat(Visits(pmm.ram, t, p, 2, i), EntryVisits(pmm.ram, Read(pmm.ram, t, i), Sub(p, i), 2));
        var below := FreeL2Entry(Read(pmm.ram, t, i), Sub(p, i));
        freed := freed + below;
      }
    }

    /** One round of `free_l3_table`. */
    method FreeL3Entry(e: Entry, ghost q: Path) returns (freed: nat)
      requires Valid() && pmm.current + |EntryVisits(pmm.ram, e, q, 3)| <= SLOTS
      modifies pmm`current, pmm.slots
      ensures Valid() && freed == |EntryVisits(pmm.ram, e, q, 3)|
      ensures State() == old(State()).(stack := old(State()).stack + Addresses(EntryVisits(pmm.ram, e, q, 3)))
    {
      freed := 0;
      if e.p {
        AddressesConcat(Visits(pmm.ram, e.address, q, 2, 512), [Visit(q, e.address)]);
        freed := FreeL2Table(e.address, q);
        assert pmm.current == |State().stack|;
        pmm.Free(PageAddress(e.address));
        freed := freed + 1;
      }
    }

    /** `free_l3_table` */
    method FreeL3Table(t: nat, ghost p: Path) returns (freed: nat)
      requires Valid() && pmm.current + |Visits(pmm.ram, t, p, 3, 512)| <= SLOTS
      modifies pmm`current, pmm.slots
      ensures Valid() && freed == |Visits(pmm.ram, t, p, 3, 512)|
      ensures State() == old(State()).(stack := old(State()).stack + Addresses(Visits(pmm.ram, t, p, 3, 512)))
    {
      freed := 0;
      for i := 0 to 512
        invariant Valid() && freed == |Visits(pmm.ram, t, p, 3, i)|
        invariant State().stack == old(State()).stack + Addresses(Visits(pmm.ram, t, p, 3, i))
      {
        VisitsGrow(pmm.ram, t, p, 3, i + 1, 512);
        AddressesConcat(Visits(pmm.ram, t, p, 3, i), EntryVisits(pmm.ram, Read(pmm.ram, t, i), Sub(p, i), 3));
        var below := FreeL3Entry(Read(pmm.ram, t, i), Sub(p, i));
        freed := freed + below;
      }
    }

    /** One round of `free_l4_table`. */
    method FreeL4Entry(e: Entry, ghost q: Path) returns (freed: nat)
      requires Valid() && pmm.current + |EntryVisits(pmm.ram, e, q, 4)| <= SLOTS
      modifies pmm`current, pmm.slots
      ensures Valid() && freed == |EntryVisits(pmm.ram, e, q, 4)|
      ensures State() == old(State()).(stack := old(State()).stack + Addresses(EntryVisits(pmm.ram, e, q, 4)))
    {
      freed := 0;
      if e.p {
        AddressesConcat(Visits(pmm.ram, e.address, q, 3, 512), [Visit(q, e.address)]);
        freed := FreeL3Table(e.address, q);
        assert pmm.current == |State().stack|;
        pmm.Free(PageAddress(e.address));
        freed := freed + 1;
      }
    }

    /** `free_l4_table`: the level 4 table goes last, and is not counted. */
    method FreeL4Table(c: nat) returns (freed: nat)
      requires Valid() && pmm.current + |TreeVisits(pmm.ram, c)| <= SLOTS
      modifies pmm`current, pmm.slots
      ensures Valid() && State() == FreeTree(old(State()), c)
      ensures freed == |TreeVisits(pmm.ram, c)| - 1
    {
      freed := 0;
      for i := 0 to 512
        invariant Valid() && freed == |Visits(pmm.ram, c, Top, 4, i)|
        invariant State().stack == old(State()).stack + Addresses(Visits(pmm.ram, c, Top, 4, i))
      {
        VisitsGrow(pmm.ram, c, Top, 4, i + 1, 512);
        AddressesConcat(Visits(pmm.ram, c, Top, 4, i), EntryVisits(pmm.ram, Read(pmm.ram, c, i), Sub(Top, i), 4));
        var below := FreeL4Entry(Read(pmm.ram, c, i), Sub(Top, i));
        freed := freed + below;
      }
      AddressesConcat(Visits(pmm.ram, c, Top, 4, 512), [Visit(Top, c)]);
      pmm.Free(PageAddress(c));
    }

    static lemma AddressesConcat(a: seq<Visit>, b: seq<Visit>)
      ensures Addresses(a + b) == Addresses(a) + Addresses(b)
    {
    }

    static lemma VisitsGrow(ram: Ram, t: nat, p: Path, level: nat, n: nat, last: nat)
      requires n <= last
      ensures |Visits(ram, t, p, level, n)| <= |Visits(ram, t, p, level, last)|
      decreases last - n
    {
      if n < last { VisitsGrow(ram, t, p, level, n + 1, last); }
    }

    /** `page_fault_handler`: the region policy, and the page for a fault it accepts. */
    method PageFault(cr3: nat, cr2: nat) returns (r: Option<nat>)
      requires Valid() && cr2 < 0x1_0000_0000_0000_0000
      modifies this`aux, pmm
      ensures Valid() && aux == Translate(cr2)
      ensures match KernelRuns.HandleFault(old(State()), cr3, cr2)
              case OutOfMemory => r == None
              case Got(m, page) => r == Some(page) && State() == m
    {
      aux := Translate(cr2);
      r := Some(0);
      if cr2 < 22 * MEGA_BYTE {
        // the process is killed
      } else if cr2 >= 22 * MEGA_BYTE && cr2 < 30 * MEGA_BYTE {
        r := AddPage(cr3, aux, true, true);
      } else if cr2 >= 30 * MEGA_BYTE && cr2 < 32 * MEGA_BYTE {
        r := AddPage(cr3, aux, true, true);
      } else if cr2 >= 32 * MEGA_BYTE {
        // the process is killed
      }
    }
  }
}
