/** A process as `task_create` builds it: `create_pml4`, the stack pages, and the initial context. */
module NewProcess {
  import opened PhysicalMemory
  import opened PageTables
  import opened FrameOwnership
  import opened PageMapping
  import opened ProcessTrees
  import opened ProcessStack

  const STACK_TOP: nat := 0x1E0_0000
  /** `context_t` is 23 packed 64-bit fields, the last 184 bytes below the top of the stack. */
  const CONTEXT_WORDS: nat := 23
  const CONTEXT_FIRST_WORD: nat := 489

  type Context = c: seq<nat> | |c| == 23 && forall i :: 0 <= i < 23 ==> c[i] < 0x1_0000_0000_0000_0000
    witness seq(23, _ => 0)

  /** The register image, in the field order of `context_t`. */
  function InitialContext(func: nat, argc: nat, argv: nat, wrapper: nat): Context
    requires func < 0x1_0000_0000_0000_0000 && argc < 0x1_0000_0000_0000_0000
    requires argv < 0x1_0000_0000_0000_0000 && wrapper < 0x1_0000_0000_0000_0000
  {
    [1, 2, 3, 4, 5, 6, 7, 8, 9, 10, argc, func, 13, argv, 15, 16, 17, wrapper, 8, 0x202, STACK_TOP, 0, 0]
  }

  function WriteContext(ram: Ram, f: nat, context: Context): Ram {
    if f >= FRAMES then ram
    else ram[f := seq<Entry>(512, i requires 0 <= i < 512 => if i < 489 then ram[f][i] else FieldsOf(context[i - 489]))]
  }

  /** `alloc_new_process_stack`; `at` is the stack pointer it returns. */
  function AllocProcessStack(m: Mem, c: nat, context: Context): Alloc {
    match StackPages(m, c, STACK_PAGES)
    case OutOfMemory => OutOfMemory
    case Got(m1, page) => Got(m1.(ram := WriteContext(m1.ram, FrameOf(page), context)), 0x1E0_0000 - 184)
  }

  /** Both steps; `at` is the frame of the level 4 table. */
  function CreateProcess(m: Mem, k: Kernel, context: Context): Alloc
    requires |k.shared| == 6
  {
    match CreatePml4(m, k)
    case OutOfMemory => OutOfMemory
    case Got(m1, c) =>
      match AllocProcessStack(m1, c, context)
      case OutOfMemory => OutOfMemory
      case Got(m2, _) => Got(m2, c)
  }

  /** The stack pointer a new process is to be resumed with. */
  function StackPointer(m: Mem, k: Kernel, context: Context): nat
    requires |k.shared| == 6 && CreateProcess(m, k, context).Got?
  {
    AllocProcessStack(CreatePml4(m, k).mem, CreatePml4(m, k).at, context).at
  }

  /** A frame of userland in [4 MB, 6 MB), or a page of a process. */
  predicate IsUserFrame(own: seq<Owner>, f: nat) {
    f < |own| && ((0x400 <= f < 0x600 && own[f].Low?) || (own[f].Owned? && Depth(own[f].path) == 4))
  }

  /** Overwriting a page of a process, or shared userland, changes no tree and no owner. */
  lemma PageWriteKeepsOwnership(m: Mem, k: Kernel, live: set<nat>, own: seq<Owner>, f: nat, ram': Ram)
    requires Inv(m, k, live, own) && IsUserFrame(own, f)
    requires forall g :: 0 <= g < FRAMES && g != f ==> ram'[g] == m.ram[g]
    ensures Inv(m.(ram := ram'), k, live, own)
    ensures forall r, x :: (r in live || r == k.root) && Depth(x) <= 4 ==> Node(ram', r, x) == Node(m.ram, r, x)
  {
    var m' := m.(ram := ram');
    forall r, x | (r in live || r == k.root) && Depth(x) <= 4 ensures Node(ram', r, x) == Node(m.ram, r, x) {
      TreesHaveKnownTables(m, k, live, own, r);
      OtherFramesDoNotMatter(m.ram, ram', own, r, x);
    }
    PageWriteShared(m.ram, k, own, f, ram');
    PageWriteKernelTree(m.ram, k, own, ram');
    forall r | r in live ensures TreeOk(ram', k, own, r) {
      assert TreeOk(m.ram, k, own, r);
      PageWriteTree(m.ram, k, own, r, ram');
    }
    forall g | 0 <= g < FRAMES ensures Accounted(m', k, live, own, g) {
      assert Accounted(m, k, live, own, g);
    }
  }

  lemma PageWriteShared(ram: Ram, k: Kernel, own: seq<Owner>, f: nat, ram': Ram)
    requires |own| == FRAMES && SharedOk(ram, k, own) && f < FRAMES && !own[f].Shared?
    requires forall g :: 0 <= g < FRAMES && g != f ==> ram'[g] == ram[g]
    ensures SharedOk(ram', k, own)
  {
    forall j | 0 <= j < 6 ensures SharedTableOk(ram', k.shared[j], j, own) {
      assert SharedTableOk(ram, k.shared[j], j, own);
      assert ram'[k.shared[j]] == ram[k.shared[j]];
      forall x | 0 <= x < 512 ensures Read(ram', k.shared[j], x) == Read(ram, k.shared[j], x) {}
    }
  }

  lemma PageWriteKernelTree(ram: Ram, k: Kernel, own: seq<Owner>, ram': Ram)
    requires |own| == FRAMES && KernelTreeOk(ram, own, k.root)
    requires forall x :: Depth(x) <= 4 ==> Node(ram', k.root, x) == Node(ram, k.root, x)
    ensures KernelTreeOk(ram', own, k.root)
  {
    forall q ensures KernelNodeFits(ram', own, k.root, q) {
      assert KernelNodeFits(ram, own, k.root, q);
    }
    forall i, j | 0 <= i < 257 && 0 <= j < 512 ensures IdentityAt(ram', k.root, i, j) {
      assert IdentityAt(ram, k.root, i, j);
    }
  }

  lemma PageWriteTree(ram: Ram, k: Kernel, own: seq<Owner>, r: nat, ram': Ram)
    requires |own| == FRAMES && TreeOk(ram, k, own, r)
    requires forall x :: Depth(x) <= 4 ==> Node(ram', r, x) == Node(ram, r, x)
    ensures TreeOk(ram', k, own, r)
  {
    forall q ensures NodeFits(ram', k, own, r, q) {
      assert NodeFits(ram, k, own, r, q);
    }
    forall i | 0 <= i < 6 ensures SharedAt(ram', k, r, i) {
      assert Depth(FIRST_L2) == 2 && SharedAt(ram, k, r, i);
    }
  }

  /** What creating a process does: a new live root whose nodes are the kernel half and the stack nodes, on
      2055 frames popped from the stack; every other tree is as it was. */
  ghost predicate Created(m: Mem, k: Kernel, live: set<nat>, c: nat, l3: nat, l2: nat, m': Mem)
    requires |k.shared| == 6
  {
    && |m.stack| >= 2056 && m'.stack == m.stack[..|m.stack| - 2055]
    && c !in live && c != k.root
    && (forall q :: Depth(q) <= 4 && StackNode(q, STACK_PAGES) ==> Node(m'.ram, c, q).At?)
    && (forall q :: Depth(q) <= 4 && !StackNode(q, STACK_PAGES) ==> Node(m'.ram, c, q) == NewTreeNode(k, c, l3, l2, q))
    && (forall r, q :: (r in live || r == k.root) && Depth(q) <= 4 ==> Node(m'.ram, r, q) == Node(m.ram, r, q))
  }

  /** Stack frames of a new process were free before it was created. */
  ghost predicate FreshStack(own: seq<Owner>, ram': Ram, c: nat) {
    forall q :: Depth(q) <= 4 && StackNode(q, STACK_PAGES) && Node(ram', c, q).At? ==>
      Node(ram', c, q).frame < |own| && own[Node(ram', c, q).frame].Free?
  }

  lemma NewTreeHasNoStack(ram: Ram, k: Kernel, c: nat, l3: nat, l2: nat)
    requires |k.shared| == 6
    requires forall q :: Depth(q) <= 4 ==> Node(ram, c, q) == NewTreeNode(k, c, l3, l2, q)
    ensures Node(ram, c, FIRST_L2) == At(l2) && StackAbsent(ram, c)
  {
    assert Depth(FIRST_L2) == 2;
    forall i | 11 <= i ensures Node(ram, c, Sub(FIRST_L2, i)).Absent? {
      assert Depth(Sub(FIRST_L2, i)) == 3 && Sub(FIRST_L2, i) != FIRST_L2;
    }
  }

  lemma StackFramesWereFree(m: Mem, k: Kernel, live: set<nat>, own: seq<Owner>, c: nat, m': Mem, own': seq<Owner>)
    requires Inv(m, k, live, own) && Inv(m', k, live, own') && c in live
    requires StackAbsent(m.ram, c)
    requires forall g :: 0 <= g < FRAMES && !own[g].Free? ==> own'[g] == own[g]
    ensures FreshStack(own, m'.ram, c)
  {
    forall q | Depth(q) <= 4 && StackNode(q, STACK_PAGES) && Node(m'.ram, c, q).At?
      ensures Node(m'.ram, c, q).frame < |own| && own[Node(m'.ram, c, q).frame].Free?
    {
      var f := Node(m'.ram, c, q).frame;
      assert TreeOk(m'.ram, k, own', c);
      assert NodeFits(m'.ram, k, own', c, q);
      StackNotKernelHalf(q);
      assert Accounted(m, k, live, own, f);
      if q.up == FIRST_L2 {
        assert Node(m.ram, c, Sub(FIRST_L2, q.idx)).Absent?;
      } else {
        assert Node(m.ram, c, Sub(FIRST_L2, q.up.idx)).Absent?;
      }
    }
  }

  lemma StackNotKernelHalf(q: Path)
    requires StackNode(q, STACK_PAGES) && Depth(q) <= 4
    ensures !KernelHalf(q)
  {
    assert Depth(FIRST_L2) == 2;
    if KernelHalf(q) { KernelHalfDepth(q); }
  }

  /** `alloc_new_process_stack` on a tree without stack: the stack nodes, the context, nothing else. */
  lemma AllocStackKeepsOwnership(m: Mem, k: Kernel, live: set<nat>, own: seq<Owner>, c: nat, context: Context)
    returns (own': seq<Owner>)
    requires Inv(m, k, live, own) && c in live
    requires Node(m.ram, c, FIRST_L2).At? && StackAbsent(m.ram, c)
    ensures AllocProcessStack(m, c, context).Got? <==> |m.stack| >= 2053
    ensures match AllocProcessStack(m, c, context)
            case OutOfMemory => true
            case Got(m', rsp) =>
              && Inv(m', k, live, own') && Stacked(m, k, live, own, c, STACK_PAGES, m')
              && FreshStack(own, m'.ram, c) && ContextWritten(m'.ram, c, context)
  {
    assert FramesFor(STACK_PAGES) == 2052;
    own' := StackPagesMap(m, k, live, own, c, STACK_PAGES);
    var r := StackPages(m, c, STACK_PAGES);
    if r.Got? {
      StackFramesWereFree(m, k, live, own, c, r.mem, own');
      ContextGoesOnLastPage(r.mem, k, live, own', c, r.at, context);
      StackedAfterWrite(m, k, live, own, c, r.mem, WriteContext(r.mem.ram, FrameOf(r.at), context));
    }
  }

  lemma StackedAfterWrite(m: Mem, k: Kernel, live: set<nat>, own: seq<Owner>, c: nat, m1: Mem, ram': Ram)
    requires c in live && Stacked(m, k, live, own, c, STACK_PAGES, m1) && FreshStack(own, m1.ram, c)
    requires forall r, x :: (r in live || r == k.root) && Depth(x) <= 4 ==> Node(ram', r, x) == Node(m1.ram, r, x)
    ensures Stacked(m, k, live, own, c, STACK_PAGES, m1.(ram := ram')) && FreshStack(own, ram', c)
  {
  }

  /** Creating a process keeps ownership; it fails exactly when fewer than 2055 frames can be popped. */
  lemma CreateProcessKeepsOwnership(m: Mem, k: Kernel, live: set<nat>, own: seq<Owner>, context: Context)
    returns (own': seq<Owner>, l3: nat, l2: nat)
    requires Inv(m, k, live, own)
    ensures CreateProcess(m, k, context).Got? <==> |m.stack| >= 2056
    ensures match CreateProcess(m, k, context)
            case OutOfMemory => true
            case Got(m', c) =>
              && Inv(m', k, live + {c}, own') && Created(m, k, live, c, l3, l2, m') && FreshStack(own, m'.ram, c)
              && ContextWritten(m'.ram, c, context)
  {
    var own1;
    own1, l3, l2 := CreatePml4KeepsOwnership(m, k, live, own);
    own' := own1;
    var r := CreatePml4(m, k);
    if r.Got? {
      NewTreeHasNoStack(r.mem.ram, k, r.at, l3, l2);
      own' := AllocStackKeepsOwnership(r.mem, k, live + {r.at}, own1, r.at, context);
      var s := AllocProcessStack(r.mem, r.at, context);
      if s.Got? {
        StackedProcess(m, k, live, own, r.mem, own1, r.at, l3, l2, s.mem);
        FreshBeforeBuilding(m, k, own, r.mem, r.at, l3, l2, own1, s.mem.ram);
      }
    }
  }

  lemma FreshBeforeBuilding(m: Mem, k: Kernel, own: seq<Owner>, m1: Mem, l4: nat, l3: nat, l2: nat, own1: seq<Owner>,
                            ram': Ram)
    requires Built(m, k, own, m1, l4, l3, l2) && own1 == OwnersBuilt(own, l4, l3, l2)
    requires FreshStack(own1, ram', l4)
    ensures FreshStack(own, ram', l4)
  {
  }

  lemma StackedProcess(m: Mem, k: Kernel, live: set<nat>, own: seq<Owner>, m1: Mem, own1: seq<Owner>, c: nat, l3: nat,
                       l2: nat, m2: Mem)
    requires |own| == FRAMES && |k.shared| == 6 && Built(m, k, own, m1, c, l3, l2) && c !in live && c != k.root
    requires forall q :: Depth(q) <= 4 ==> Node(m1.ram, c, q) == NewTreeNode(k, c, l3, l2, q)
    requires forall r, q :: (r in live || r == k.root) && Depth(q) <= 4 ==> Node(m1.ram, r, q) == Node(m.ram, r, q)
    requires Stacked(m1, k, live + {c}, own1, c, STACK_PAGES, m2)
    ensures Created(m, k, live, c, l3, l2, m2)
  {
    assert FramesFor(STACK_PAGES) == 2052;
  }

  /** The last stack page holds the context in its last 23 words. */
  ghost predicate ContextWritten(ram: Ram, c: nat, context: Context) {
    var q := PagePath(0, 0, 14, 511);
    Node(ram, c, q).At? && forall i :: 0 <= i < 23 ==> Read(ram, Node(ram, c, q).frame, 489 + i) == FieldsOf(context[i])
  }

  lemma ContextGoesOnLastPage(m: Mem, k: Kernel, live: set<nat>, own: seq<Owner>, c: nat, page: nat, context: Context)
    requires Inv(m, k, live, own) && c in live
    requires Walk(m.ram, c, StackPage(STACK_PAGES - 1)) == To(page)
    ensures var ram' := WriteContext(m.ram, FrameOf(page), context);
            && Inv(m.(ram := ram'), k, live, own) && ContextWritten(ram', c, context)
            && IsUserFrame(own, FrameOf(page))
            && forall r, x :: (r in live || r == k.root) && Depth(x) <= 4 ==> Node(ram', r, x) == Node(m.ram, r, x)
  {
    var q := PagePath(0, 0, 14, 511);
    var f := Node(m.ram, c, q).frame;
    assert TreeOk(m.ram, k, own, c);
    assert NodeFits(m.ram, k, own, c, q);
    StackPathsAre(STACK_PAGES - 1);
    StackNotKernelHalf(q);
    PageWriteKeepsOwnership(m, k, live, own, f, WriteContext(m.ram, f, context));
  }
}
