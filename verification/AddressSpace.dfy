/** What the trees mean, address by address. */
module AddressSpace {
  import opened PhysicalMemory
  import opened PageTables
  import opened FrameOwnership
  import opened PageMapping
  import opened ProcessTrees
  import opened ProcessStack
  import opened NewProcess
  import Words

  lemma TranslateFields(addr: nat)
    requires addr < 0x1_0000_0000_0000
    ensures var va := Translate(addr);
            && va.offset == addr % 0x1000 && va.l1 == addr / 0x1000 % 512
            && (addr < 0x4000_0000 <==> va.l4 == 0 && va.l3 == 0)
            && (addr < 0x4000_0000 ==> va.l2 == addr / 0x20_0000)
            && (addr < 0x4000_0000 ==> addr == (va.l2 * 512 + va.l1) * 0x1000 + va.offset)
  {
    RecomposeFields(addr);
  }

  /** The kernel's identity tree maps every address below 257 * 2 MB to itself. */
  lemma KernelTreeIsIdentity(m: Mem, k: Kernel, live: set<nat>, own: seq<Owner>, addr: nat)
    requires Inv(m, k, live, own) && addr < 257 * 0x20_0000
    ensures Walk(m.ram, k.root, Translate(addr)) == To(addr)
  {
    TranslateFields(addr);
    var va := Translate(addr);
    assert PathOf(va) == PagePath(0, 0, va.l2, va.l1) && IdentityAt(m.ram, k.root, va.l2, va.l1);
  }

  lemma PathShape(va: VirtualAddress)
    ensures StackNode(PathOf(va), STACK_PAGES) <==> va.l4 == 0 && va.l3 == 0 && 11 <= va.l2 < 15 && va.l1 < 512
  {
    assert PathOf(va).up.up == FIRST_L2 <==> va.l4 == 0 && va.l3 == 0;
    assert Depth(FIRST_L2) == 2 && Depth(PathOf(va)) == Depth(PathOf(va).up) + 1;
  }

  lemma NewTreePage(k: Kernel, l4: nat, l3: nat, l2: nat, va: VirtualAddress)
    requires |k.shared| == 6 && FieldsFit(va)
    ensures NewTreeNode(k, l4, l3, l2, PathOf(va)) ==
            if va.l4 == 0 && va.l3 == 0 && va.l2 < 6 then At(va.l2 * 512 + va.l1) else Absent
  {
    var q := PathOf(va);
    assert Depth(q) == 4 && Depth(q.up) == 3 && Depth(FIRST_L2) == 2;
    assert q.up.up == FIRST_L2 <==> va.l4 == 0 && va.l3 == 0;
  }

  /** A new process sees the identity on [0, 12 MB), a frame of its own that was free on every page of
      [22 MB, 30 MB), and nothing anywhere else. */
  lemma NewProcessAddressSpace(m: Mem, k: Kernel, live: set<nat>, own: seq<Owner>, context: Context, addr: nat)
    requires Inv(m, k, live, own) && CreateProcess(m, k, context).Got? && addr < 0x1_0000_0000_0000
    ensures var r := CreateProcess(m, k, context);
            var x := Walk(r.mem.ram, r.at, Translate(addr));
            if addr < 0xC0_0000 then x == To(addr)
            else if 0x160_0000 <= addr < 0x1E0_0000 then
              x.To? && x.address % 0x1000 == addr % 0x1000 && Poppable(m.stack, FrameOf(x.address))
            else x.Unmapped?
  {
    var own', l3, l2 := CreateProcessKeepsOwnership(m, k, live, own, context);
    var r := CreateProcess(m, k, context);
    if 0x160_0000 <= addr < 0x1E0_0000 {
      OnTheStack(m, k, live, own, r.at, l3, l2, r.mem, own', addr);
    } else {
      OutsideTheStack(m, k, live, r.at, l3, l2, r.mem, addr);
    }
  }

  lemma OnTheStack(m: Mem, k: Kernel, live: set<nat>, own: seq<Owner>, c: nat, l3: nat, l2: nat, m': Mem,
                   own': seq<Owner>, addr: nat)
    requires Inv(m, k, live, own) && Inv(m', k, live + {c}, own')
    requires Created(m, k, live, c, l3, l2, m') && FreshStack(own, m'.ram, c)
    requires 0x160_0000 <= addr < 0x1E0_0000
    ensures var x := Walk(m'.ram, c, Translate(addr));
            x.To? && x.address % 0x1000 == addr % 0x1000 && Poppable(m.stack, FrameOf(x.address))
  {
    var va := Translate(addr);
    StackAddressIsOwned(m', k, live + {c}, own', c, addr);
    TranslateFields(addr);
    PathShape(va);
    FreshFrameWasOnStack(m, k, live, own, m'.ram, c, PathOf(va));
  }

  /** A frame that an allocation could still hand out: the bottom slot is never popped. */
  predicate Poppable(stack: seq<nat>, frame: nat) {
    exists s :: 1 <= s < |stack| && stack[s] == PageAddress(frame)
  }

  lemma OutsideTheStack(m: Mem, k: Kernel, live: set<nat>, c: nat, l3: nat, l2: nat, m': Mem, addr: nat)
    requires |k.shared| == 6 && Created(m, k, live, c, l3, l2, m')
    requires addr < 0x1_0000_0000_0000 && !(0x160_0000 <= addr < 0x1E0_0000)
    ensures Walk(m'.ram, c, Translate(addr)) == if addr < 0xC0_0000 then To(addr) else Unmapped
  {
    var va := Translate(addr);
    TranslateFields(addr);
    PathShape(va);
    PathsFit(va);
    NewTreePage(k, c, l3, l2, va);
  }

  lemma FreshFrameWasOnStack(m: Mem, k: Kernel, live: set<nat>, own: seq<Owner>, ram': Ram, c: nat, q: Path)
    requires Inv(m, k, live, own) && FreshStack(own, ram', c)
    requires Depth(q) <= 4 && StackNode(q, STACK_PAGES) && Node(ram', c, q).At?
    requires FIRST_FRAME < Node(ram', c, q).frame
    ensures Poppable(m.stack, Node(ram', c, q).frame)
  {
    var f := Node(ram', c, q).frame;
    assert Accounted(m, k, live, own, f);
    assert m.stack[own[f].slot] == PageAddress(f) && own[f].slot != 0;
  }

  /** Different stack pages are different frames. */
  lemma StackPagesAreDistinct(m: Mem, k: Kernel, live: set<nat>, own: seq<Owner>, context: Context, a: nat, b: nat)
    requires Inv(m, k, live, own) && CreateProcess(m, k, context).Got?
    requires 0x160_0000 <= a < 0x1E0_0000 && 0x160_0000 <= b < 0x1E0_0000 && a / 0x1000 != b / 0x1000
    ensures var r := CreateProcess(m, k, context);
            var x, y := Walk(r.mem.ram, r.at, Translate(a)), Walk(r.mem.ram, r.at, Translate(b));
            x.To? && y.To? && x.address / 0x1000 != y.address / 0x1000
  {
    var own', l3, l2 := CreateProcessKeepsOwnership(m, k, live, own, context);
    var r := CreateProcess(m, k, context);
    StackAddressIsOwned(r.mem, k, live + {r.at}, own', r.at, a);
    StackAddressIsOwned(r.mem, k, live + {r.at}, own', r.at, b);
    TranslateFields(a);
    TranslateFields(b);
    assert PathOf(Translate(a)) != PathOf(Translate(b));
  }

  lemma StackAddressIsOwned(m: Mem, k: Kernel, live: set<nat>, own: seq<Owner>, c: nat, addr: nat)
    requires Inv(m, k, live, own) && c in live && 0x160_0000 <= addr < 0x1E0_0000
    requires forall q :: Depth(q) <= 4 && StackNode(q, STACK_PAGES) ==> Node(m.ram, c, q).At?
    ensures var x := Walk(m.ram, c, Translate(addr));
            && x.To? && FIRST_FRAME < FrameOf(x.address) < FRAMES
            && own[FrameOf(x.address)] == Owned(c, PathOf(Translate(addr)))
            && x.address == PageAddress(FrameOf(x.address)) + addr % 0x1000
            && Node(m.ram, c, PathOf(Translate(addr))) == At(FrameOf(x.address))
  {
    var q := PathOf(Translate(addr));
    TranslateFields(addr);
    PathShape(Translate(addr));
    StackNotKernelHalf(q);
    assert TreeOk(m.ram, k, own, c);
    assert NodeFits(m.ram, k, own, c, q);
  }

  /** Word `i` above the stack pointer, read through the tree. */
  ghost predicate StackWord(ram: Ram, c: nat, sp: nat, i: nat, value: nat)
    requires sp + 8 * i < 0x1_0000_0000_0000
  {
    var x := Walk(ram, c, Translate(sp + 8 * i));
    x.To? && Word(Read(ram, FrameOf(x.address), x.address % 0x1000 / 8)) == value
  }

  /** The returned stack pointer leads, through the new tree, to the context words as they were written. */
  lemma ContextIsAtStackPointer(m: Mem, k: Kernel, live: set<nat>, own: seq<Owner>, context: Context, i: nat)
    requires Inv(m, k, live, own) && CreateProcess(m, k, context).Got? && i < 23
    ensures var r, sp := CreateProcess(m, k, context), StackPointer(m, k, context);
            sp + 8 * i < 0x1E0_0000 && StackWord(r.mem.ram, r.at, sp, i, context[i])
  {
    var own', l3, l2 := CreateProcessKeepsOwnership(m, k, live, own, context);
    var r := CreateProcess(m, k, context);
    ContextReadBack(r.mem.ram, r.at, context, i);
  }

  /** The registers of a context in the order of `context_t`: those a task is started by have their values, and the
      others each their own number. */
  predicate StartsIn(context: Context, rip: nat, rsp: nat, rdi: nat, rsi: nat, rdx: nat) {
    && context[17] == rip && context[20] == rsp && context[11] == rdi && context[10] == rsi && context[13] == rdx
    && context[18] == 8 && context[19] == 0x202 && context[21] == 0 && context[22] == 0
    && forall i :: 0 <= i < 17 && i != 10 && i != 11 && i != 13 ==> context[i] == i + 1
  }

  /** A new task resumes in the wrapper, in kernel mode with interrupts on, on an empty stack at 30 MB, with the entry
      point, the argument count and the argument vector as its first three arguments: so say the words from its stack
      pointer up, read through its own tree. */
  lemma NewTaskStartsInWrapper(m: Mem, k: Kernel, live: set<nat>, own: seq<Owner>,
                               func: Words.U64, argc: Words.U64, argv: Words.U64, wrapper: Words.U64)
    returns (found: Context)
    requires Inv(m, k, live, own) && CreateProcess(m, k, InitialContext(func, argc, argv, wrapper)).Got?
    ensures StartsIn(found, wrapper, 0x1E0_0000, func, argc, argv)
    ensures var context := InitialContext(func, argc, argv, wrapper);
            var r, sp := CreateProcess(m, k, context), StackPointer(m, k, context);
            && sp + 184 == 0x1E0_0000
            && forall i :: 0 <= i < 23 ==> StackWord(r.mem.ram, r.at, sp, i, found[i])
  {
    found := InitialContext(func, argc, argv, wrapper);
    InitialRegisters(func, argc, argv, wrapper);
    ContextWords(m, k, live, own, found);
  }

  lemma InitialRegisters(func: Words.U64, argc: Words.U64, argv: Words.U64, wrapper: Words.U64)
    ensures StartsIn(InitialContext(func, argc, argv, wrapper), wrapper, 0x1E0_0000, func, argc, argv)
  {
  }

  lemma ContextWords(m: Mem, k: Kernel, live: set<nat>, own: seq<Owner>, context: Context)
    requires Inv(m, k, live, own) && CreateProcess(m, k, context).Got?
    ensures var r, sp := CreateProcess(m, k, context), StackPointer(m, k, context);
            sp + 184 == 0x1E0_0000 && forall i :: 0 <= i < 23 ==> StackWord(r.mem.ram, r.at, sp, i, context[i])
  {
    var r, sp := CreateProcess(m, k, context), StackPointer(m, k, context);
    forall i | 0 <= i < 23 ensures StackWord(r.mem.ram, r.at, sp, i, context[i]) {
      ContextIsAtStackPointer(m, k, live, own, context, i);
    }
  }

  lemma ContextReadBack(ram: Ram, c: nat, context: Context, i: nat)
    requires ContextWritten(ram, c, context) && i < 23
    ensures var x := Walk(ram, c, Translate(0x1E0_0000 - 184 + 8 * i));
            x.To? && Word(Read(ram, FrameOf(x.address), x.address % 0x1000 / 8)) == context[i]
  {
    var f := Node(ram, c, PagePath(0, 0, 14, 511)).frame;
    ContextAddress(i);
    ContextWordAt(f, i);
    var w := Read(ram, f, 489 + i);
    assert Word(w) == context[i] by { FieldsOfWord(context[i]); }
  }

  lemma ContextAddress(i: nat)
    requires i < 23
    ensures Translate(0x1E0_0000 - 184 + 8 * i) == VirtualAddress(0xF48 + 8 * i, 511, 14, 0, 0)
  {
    TranslateFields(0x1E0_0000 - 184 + 8 * i);
  }

  lemma ContextWordAt(f: nat, i: nat)
    requires i < 23
    ensures var a := PageAddress(f) + (0xF48 + 8 * i); FrameOf(a) == f && a % 0x1000 / 8 == 489 + i
  {
  }

  /** Every process sees the kernel half as it is: the identity on [0, 12 MB). */
  lemma KernelHalfIsIdentity(m: Mem, k: Kernel, live: set<nat>, own: seq<Owner>, c: nat, addr: nat)
    requires Inv(m, k, live, own) && c in live && addr < 0xC0_0000
    ensures Walk(m.ram, c, Translate(addr)) == To(addr)
    ensures Node(m.ram, c, PathOf(Translate(addr))) == At(addr / 0x1000)
  {
    var va := Translate(addr);
    TranslateFields(addr);
    assert TreeOk(m.ram, k, own, c);
    assert SharedAt(m.ram, k, c, va.l2);
    assert SharedTableOk(m.ram, k.shared[va.l2], va.l2, own);
    assert PathOf(va).up == Sub(FIRST_L2, va.l2);
  }

  /** A fault inside [22 MB, 32 MB) leaves the faulting address mapped, at its own offset in a page. */
  lemma FaultIsResolved(m: Mem, k: Kernel, live: set<nat>, own: seq<Owner>, c: nat, cr2: nat)
    requires Inv(m, k, live, own) && c in live && 0x160_0000 <= cr2 < 0x200_0000
    ensures match AddPage(m, c, Translate(cr2), true, true)
            case OutOfMemory => |m.stack| <= 2
            case Got(m', page) => Walk(m'.ram, c, Translate(cr2)) == To(page + cr2 % 0x1000)
  {
    TranslateFields(cr2);
    var va := Translate(cr2);
    var own' := AddPageUpdatesTheMap(m, k, live, own, c, va, true, true);
    AtMostTwoMissing(m, k, live, own, c, va);
  }

  lemma AtMostTwoMissing(m: Mem, k: Kernel, live: set<nat>, own: seq<Owner>, c: nat, va: VirtualAddress)
    requires Inv(m, k, live, own) && c in live && va.l4 == 0 && va.l3 == 0
    ensures Missing(m.ram, c, PathOf(va)) <= 2
  {
    assert TreeOk(m.ram, k, own, c);
    assert SharedAt(m.ram, k, c, 0);
    AbsentNowhereAbove(m.ram, c, FIRST_L2);
    assert PathOf(va).up.up == FIRST_L2;
  }
}
