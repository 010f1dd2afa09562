/** Every run of the memory managers: processes come, fault, store into their pages and go. */
module KernelRuns {
  import opened Wrappers
  import opened PhysicalMemory
  import opened PageTables
  import opened FrameOwnership
  import opened PageMapping
  import opened Teardown
  import opened Conservation
  import opened ProcessTrees
  import opened ProcessStack
  import opened NewProcess
  import opened AddressSpace
  import opened Boot

  datatype World = World(mem: Mem, kernel: Kernel, live: set<nat>)

  /** `Create` is the memory part of `task_create`, `Fault` is `page_fault_handler`, `Store` is a process
      writing a word through its own tables, `Exit` is `free_l4_table` from `task_remove`. */
  datatype Event =
    | Create(context: Context)
    | Fault(root: nat, cr2: nat)
    | Store(root: nat, addr: nat, word: nat)
    | Exit(root: nat)

  datatype Outcome = Halted | Goes(world: World)

  predicate Valid(e: Event) {
    && (e.Fault? ==> e.cr2 < 0x1_0000_0000_0000_0000)
    && (e.Store? ==> StoreAllowed(e.addr) && e.word < 0x1_0000_0000_0000_0000)
  }

  /** Where no state of the kernel lies: userland in [4 MB, 6 MB), which all processes share, and from 12 MB on.
      Below 4 MB is the kernel image with the variables of both memory managers, from 6 MB the kernel heap with the
      `cr3` of every task, and from 10 MB the frame stack. */
  predicate StoreAllowed(addr: nat) {
    0x40_0000 <= addr < 0x60_0000 || 0xC0_0000 <= addr < 0x1_0000_0000_0000
  }

  /** The fault handler's region policy: only [22 MB, 32 MB) is filled in. */
  function HandleFault(m: Mem, root: nat, cr2: nat): Alloc
    requires cr2 < 0x1_0000_0000_0000_0000
  {
    if cr2 < 0x160_0000 then Got(m, 0)
    else if cr2 < 0x1E0_0000 then AddPage(m, root, Translate(cr2), true, true)
    else if cr2 < 0x200_0000 then AddPage(m, root, Translate(cr2), true, true)
    else Got(m, 0)
  }

  /** A store through the process's own tables; an unmapped address faults first. */
  function StoreWord(m: Mem, root: nat, addr: nat, word: nat): Mem
    requires addr < 0x1_0000_0000_0000 && word < 0x1_0000_0000_0000_0000
  {
    match Walk(m.ram, root, Translate(addr))
    case Unmapped => m
    case To(a) => m.(ram := Write(m.ram, FrameOf(a), a % 0x1000 / 8, FieldsOf(word)))
  }

  function Step(w: World, e: Event): Outcome
    requires Valid(e) && |w.kernel.shared| == 6
  {
    match e
    case Create(context) =>
      (match CreateProcess(w.mem, w.kernel, context)
       case OutOfMemory => Halted
       case Got(m', c) => Goes(World(m', w.kernel, w.live + {c})))
    case Fault(c, cr2) =>
      if c !in w.live then Goes(w)
      else
        (match HandleFault(w.mem, c, cr2)
         case OutOfMemory => Halted
         case Got(m', _) => Goes(w.(mem := m')))
    case Store(c, addr, word) =>
      if c !in w.live then Goes(w) else Goes(w.(mem := StoreWord(w.mem, c, addr, word)))
    case Exit(c) =>
      if c !in w.live then Goes(w) else Goes(World(FreeTree(w.mem, c), w.kernel, w.live - {c}))
  }

  /** The paths the policy lets a process have: the first gigabyte's [0, 12 MB) and [22 MB, 32 MB). */
  predicate PolicyPath(q: Path) {
    q.Sub? ==>
      && PolicyPath(q.up)
      && (Depth(q) <= 2 ==> q.idx == 0)
      && (Depth(q) == 3 ==> q.idx < 6 || 11 <= q.idx < 16)
  }

  ghost predicate Shaped(ram: Ram, c: nat) {
    forall q :: Depth(q) <= 4 && Node(ram, c, q).At? ==> PolicyPath(q)
  }

  ghost predicate RunInv(w: World, own: seq<Owner>) {
    && Inv(w.mem, w.kernel, w.live, own)
    && forall c :: c in w.live ==> Shaped(w.mem.ram, c)
  }

  lemma PolicyPathsOf(va: VirtualAddress)
    requires va.l4 == 0 && va.l3 == 0 && (va.l2 < 6 || 11 <= va.l2 < 16)
    ensures PolicyPath(PathOf(va)) && Depth(PathOf(va)) == 4
  {
    assert Depth(Sub(Top, va.l4)) == 1 && Depth(Sub(Sub(Top, va.l4), va.l3)) == 2;
    assert PolicyPath(Sub(Top, va.l4)) && PolicyPath(Sub(Sub(Top, va.l4), va.l3));
    assert PolicyPath(Sub(Sub(Sub(Top, va.l4), va.l3), va.l2));
  }

  lemma PolicyFields(va: VirtualAddress)
    requires PolicyPath(PathOf(va))
    ensures va.l4 == 0 && va.l3 == 0 && (va.l2 < 6 || 11 <= va.l2 < 16)
  {
    var l3Path, l2Path := Sub(Top, va.l4), Sub(Sub(Top, va.l4), va.l3);
    assert Depth(l3Path) == 1 && Depth(l2Path) == 2 && Depth(Sub(l2Path, va.l2)) == 3;
    assert PolicyPath(Sub(l2Path, va.l2)) && PolicyPath(l2Path) && PolicyPath(l3Path);
  }

  lemma {:induction false} PolicyAbove(q: Path, page: Path)
    requires OnPath(q, page) && PolicyPath(page)
    ensures PolicyPath(q)
  {
    if q != page { PolicyAbove(q, page.up); }
  }

  lemma NewProcessShaped(m: Mem, k: Kernel, live: set<nat>, c: nat, l3: nat, l2: nat, m': Mem)
    requires |k.shared| == 6 && Created(m, k, live, c, l3, l2, m')
    ensures Shaped(m'.ram, c)
  {
    forall q | Depth(q) <= 4 && Node(m'.ram, c, q).At? ensures PolicyPath(q) {
      NewNodesFollowPolicy(k, c, l3, l2, q);
    }
  }

  lemma NewNodesFollowPolicy(k: Kernel, c: nat, l3: nat, l2: nat, q: Path)
    requires |k.shared| == 6 && Depth(q) <= 4
    requires StackNode(q, STACK_PAGES) || NewTreeNode(k, c, l3, l2, q).At?
    ensures PolicyPath(q)
  {
    assert Depth(FIRST_L2) == 2 && Depth(Sub(Top, 0)) == 1;
    assert PolicyPath(Sub(Top, 0)) && PolicyPath(FIRST_L2);
    if q.Sub? && q.up.Sub? && q.up.up == FIRST_L2 {
      assert Depth(q.up) == 3 && (q.up.idx < 6 || 11 <= q.up.idx < 16 ==> PolicyPath(q.up));
    }
  }

  lemma CreateKeepsInv(w: World, own: seq<Owner>, context: Context) returns (own': seq<Owner>)
    requires RunInv(w, own)
    ensures var r := Step(w, Create(context)); r.Goes? ==> RunInv(r.world, own')
  {
    var l3, l2;
    own', l3, l2 := CreateProcessKeepsOwnership(w.mem, w.kernel, w.live, own, context);
    var r := CreateProcess(w.mem, w.kernel, context);
    if r.Got? {
      NewProcessShaped(w.mem, w.kernel, w.live, r.at, l3, l2, r.mem);
      forall c | c in w.live + {r.at} ensures Shaped(r.mem.ram, c) {
        if c in w.live { assert Shaped(w.mem.ram, c); }
      }
    }
  }

  lemma FaultKeepsInv(w: World, own: seq<Owner>, c: nat, cr2: nat) returns (own': seq<Owner>)
    requires RunInv(w, own) && c in w.live && cr2 < 0x1_0000_0000_0000_0000
    ensures var r := HandleFault(w.mem, c, cr2); r.Got? ==> RunInv(w.(mem := r.mem), own')
  {
    own' := own;
    if 0x160_0000 <= cr2 < 0x200_0000 {
      var va := Translate(cr2);
      TranslateFields(cr2);
      PolicyPathsOf(va);
      PathsFit(va);
      own' := FillExtends(w.mem, w.kernel, w.live, own, c, PathOf(va), true, true);
      var r := Fill(w.mem, c, PathOf(va), true, true);
      if r.Got? {
        forall x | x in w.live ensures Shaped(r.mem.ram, x) {
          assert Shaped(w.mem.ram, x);
          FillKeepsShape(w.mem.ram, r.mem.ram, c, PathOf(va), x);
        }
      }
    }
  }

  /** The translation of every page of every tree but the one of `cr2` in tree `c`. */
  ghost predicate OthersTranslate(w: World, v: World, c: nat, cr2: nat)
    requires cr2 < 0x1_0000_0000_0000_0000
  {
    forall r, va ::
      (r in w.live || r == w.kernel.root) && FieldsFit(va) && !(r == c && SamePage(Translate(cr2), va)) ==>
      Walk(v.mem.ram, r, va) == Walk(w.mem.ram, r, va)
  }

  /** The address is mapped, at its own offset in a frame of its own: where it was if it was mapped, and in a cleared
      frame off the stack if not; no other page translates otherwise. */
  ghost predicate IsResolved(w: World, v: World, c: nat, cr2: nat)
    requires cr2 < 0x1_0000_0000_0000_0000
  {
    var was, x := Walk(w.mem.ram, c, Translate(cr2)), Walk(v.mem.ram, c, Translate(cr2));
    && x.To? && x.address % 0x1000 == cr2 % 0x1000 && FIRST_FRAME < FrameOf(x.address) < FRAMES
    && (was.To? ==> v == w)
    && (was.Unmapped? ==>
          PageAddress(FrameOf(x.address)) in w.mem.stack && v.mem.ram[FrameOf(x.address)] == ZeroWords())
    && OthersTranslate(w, v, c, cr2)
  }

  lemma AddPageResolves(w: World, own: seq<Owner>, c: nat, cr2: nat)
    requires Inv(w.mem, w.kernel, w.live, own) && c in w.live && 0x160_0000 <= cr2 < 0x200_0000
    ensures var r := AddPage(w.mem, c, Translate(cr2), true, true);
            if r.Got? then IsResolved(w, w.(mem := r.mem), c, cr2) else |w.mem.stack| <= 2
  {
    var va := Translate(cr2);
    TranslateFields(cr2);
    PathsFit(va);
    FaultIsResolved(w.mem, w.kernel, w.live, own, c, cr2);
    var own' := AddPageUpdatesTheMap(w.mem, w.kernel, w.live, own, c, va, true, true);
    var r := AddPage(w.mem, c, va, true, true);
    if r.Got? {
      HighPageOwned(r.mem.ram, w.kernel, own', c, va, Node(r.mem.ram, c, PathOf(va)).frame);
      NewPageIsClear(w.mem, w.kernel, w.live, own, c, PathOf(va), true, true);
    }
  }

  /** What `page_fault_handler` comes to: a fault in [22 MB, 32 MB) is resolved, or the machine stops because at most
      two frames are on the stack; any other fault leaves memory as it is. */
  lemma FaultResolves(w: World, own: seq<Owner>, c: nat, cr2: nat)
    requires Inv(w.mem, w.kernel, w.live, own) && c in w.live && cr2 < 0x1_0000_0000_0000_0000
    ensures match Step(w, Fault(c, cr2))
            case Halted => 0x160_0000 <= cr2 < 0x200_0000 && |w.mem.stack| <= 2
            case Goes(v) => if 0x160_0000 <= cr2 < 0x200_0000 then IsResolved(w, v, c, cr2) else v == w
  {
    if 0x160_0000 <= cr2 < 0x200_0000 { AddPageResolves(w, own, c, cr2); }
  }

  lemma FillKeepsShape(before: Ram, after: Ram, c: nat, page: Path, x: nat)
    requires ExtendsTo(before, after, c, page, x) && PolicyPath(page) && Shaped(before, x)
    ensures Shaped(after, x)
  {
    forall q | Depth(q) <= 4 && Node(after, x, q).At? ensures PolicyPath(q) {
      if OnPath(q, page) { PolicyAbove(q, page); }
    }
  }

  /** A store goes to a page of the process or to shared userland. */
  lemma StoredFrame(w: World, own: seq<Owner>, c: nat, addr: nat)
    requires RunInv(w, own) && c in w.live && StoreAllowed(addr)
    ensures var x := Node(w.mem.ram, c, PathOf(Translate(addr))); x.At? ==> IsUserFrame(own, x.frame)
  {
    var va := Translate(addr);
    TranslateFields(addr);
    if Node(w.mem.ram, c, PathOf(va)).At? {
      assert Shaped(w.mem.ram, c);
      PolicyFields(va);
      if va.l2 < 6 {
        KernelHalfIsIdentity(w.mem, w.kernel, w.live, own, c, addr);
      } else {
        assert TreeOk(w.mem.ram, w.kernel, own, c);
        HighPageOwned(w.mem.ram, w.kernel, own, c, va, Node(w.mem.ram, c, PathOf(va)).frame);
      }
    }
  }

  lemma StoreKeepsInv(w: World, own: seq<Owner>, c: nat, addr: nat, word: nat)
    requires RunInv(w, own) && c in w.live
    requires StoreAllowed(addr) && word < 0x1_0000_0000_0000_0000
    ensures RunInv(w.(mem := StoreWord(w.mem, c, addr, word)), own)
  {
    var q := PathOf(Translate(addr));
    if Node(w.mem.ram, c, q).At? {
      StoredFrame(w, own, c, addr);
      var ram' := StoreWord(w.mem, c, addr, word).ram;
      PageWriteKeepsOwnership(w.mem, w.kernel, w.live, own, Node(w.mem.ram, c, q).frame, ram');
      forall x | x in w.live ensures Shaped(ram', x) { assert Shaped(w.mem.ram, x); }
    }
  }

  /** The word at a virtual address. */
  function Load(ram: Ram, root: nat, addr: nat): Option<nat>
    requires addr < 0x1_0000_0000_0000
  {
    match Walk(ram, root, Translate(addr))
    case Unmapped => None
    case To(a) => Some(Word(Read(ram, FrameOf(a), a % 0x1000 / 8)))
  }

  predicate SameWord(a: Translation, b: Translation) {
    a.To? && b.To? && a.address / 8 == b.address / 8
  }

  /** A store changes the word its address leads to, and no translation. */
  lemma StoreWritesOneWord(w: World, own: seq<Owner>, c: nat, addr: nat, word: nat, r: nat, va: VirtualAddress)
    requires RunInv(w, own) && c in w.live && r in w.live && Valid(Store(c, addr, word)) && FieldsFit(va)
    ensures var ram, at := w.mem.ram, Walk(w.mem.ram, c, Translate(addr));
            var ram' := StoreWord(w.mem, c, addr, word).ram;
            && Walk(ram', r, va) == Walk(ram, r, va) && (at.To? ==> FrameOf(at.address) < FRAMES)
            && ram' == if at.To? then Write(ram, FrameOf(at.address), at.address % 0x1000 / 8, FieldsOf(word)) else ram
  {
    var x := Node(w.mem.ram, c, PathOf(Translate(addr)));
    PathsFit(va);
    if x.At? {
      StoredFrame(w, own, c, addr);
      PageWriteKeepsOwnership(w.mem, w.kernel, w.live, own, x.frame, StoreWord(w.mem, c, addr, word).ram);
    }
  }

  lemma WordReadsBack(ram: Ram, f: nat, i: nat, word: nat, g: nat, j: nat)
    requires f < FRAMES && i < 512 && j < 512 && word < 0x1_0000_0000_0000_0000
    ensures Word(Read(Write(ram, f, i, FieldsOf(word)), g, j)) ==
            if f == g && i == j then word else Word(Read(ram, g, j))
  {
    FieldsOfWord(word);
  }

  lemma SameWordIff(a: nat, b: nat)
    ensures a / 8 == b / 8 <==> FrameOf(a) == FrameOf(b) && a % 0x1000 / 8 == b % 0x1000 / 8
    ensures a % 0x1000 / 8 < 512
  {
    assert a / 8 == 512 * FrameOf(a) + a % 0x1000 / 8 && b / 8 == 512 * FrameOf(b) + b % 0x1000 / 8;
  }

  /** A store is read back at every address of every process that leads to the same word, and nowhere else. */
  lemma StoreReadsBack(w: World, own: seq<Owner>, c: nat, addr: nat, word: nat, r: nat, other: nat)
    requires RunInv(w, own) && c in w.live && r in w.live && Valid(Store(c, addr, word)) && other < 0x1_0000_0000_0000
    ensures var v := Step(w, Store(c, addr, word));
            && v.Goes?
            && Walk(v.world.mem.ram, r, Translate(other)) == Walk(w.mem.ram, r, Translate(other))
            && Load(v.world.mem.ram, r, other) ==
               if SameWord(Walk(w.mem.ram, c, Translate(addr)), Walk(w.mem.ram, r, Translate(other))) then Some(word)
               else Load(w.mem.ram, r, other)
  {
    StoreWritesOneWord(w, own, c, addr, word, r, Translate(other));
    var at, from := Walk(w.mem.ram, c, Translate(addr)), Walk(w.mem.ram, r, Translate(other));
    if at.To? && from.To? {
      var a, b := at.address, from.address;
      SameWordIff(a, b);
      SameWordIff(b, a);
      WordReadsBack(w.mem.ram, FrameOf(a), a % 0x1000 / 8, word, FrameOf(b), b % 0x1000 / 8);
    }
  }

  lemma HighPageOwned(ram: Ram, k: Kernel, own: seq<Owner>, c: nat, va: VirtualAddress, f: nat)
    requires |own| == FRAMES && TreeOk(ram, k, own, c) && Node(ram, c, PathOf(va)) == At(f)
    requires va.l2 >= 6
    ensures FIRST_FRAME < f < FRAMES && own[f] == Owned(c, PathOf(va))
  {
    assert NodeFits(ram, k, own, c, PathOf(va));
    if KernelHalf(PathOf(va)) {
      KernelHalfDepth(PathOf(va));
      KernelHalfDepth(PathOf(va).up);
    }
  }

  lemma ExitKeepsInv(w: World, own: seq<Owner>, c: nat)
    requires RunInv(w, own) && c in w.live
    ensures RunInv(World(FreeTree(w.mem, c), w.kernel, w.live - {c}),
                   OwnersAfter(own, c, |w.mem.stack|, TreeVisits(w.mem.ram, c)))
  {
    TeardownKeepsOwnership(w.mem, w.kernel, w.live, own, c);
  }

  /** Every event keeps every frame in its place. */
  lemma StepKeepsInv(w: World, own: seq<Owner>, e: Event) returns (own': seq<Owner>)
    requires RunInv(w, own) && Valid(e)
    ensures Step(w, e).Goes? ==> RunInv(Step(w, e).world, own')
  {
    own' := own;
    match e
    case Create(context) => own' := CreateKeepsInv(w, own, context);
    case Fault(c, cr2) => if c in w.live { own' := FaultKeepsInv(w, own, c, cr2); }
    case Store(c, addr, word) => if c in w.live { StoreKeepsInv(w, own, c, addr, word); }
    case Exit(c) =>
      if c in w.live {
        ExitKeepsInv(w, own, c);
        own' := OwnersAfter(own, c, |w.mem.stack|, TreeVisits(w.mem.ram, c));
      }
  }

  /** A run from power-on; the machine may halt for want of memory on the way. */
  function Run(ram: Ram, events: seq<Event>): (o: Outcome)
    requires forall i :: 0 <= i < |events| ==> Valid(events[i])
    ensures o.Goes? ==> |o.world.kernel.shared| == 6
  {
    if events == [] then
      BootEstablishesOwnership(ram);
      var b := BootKernel(ram);
      Goes(World(b.mem, b.kernel, {}))
    else
      match Run(ram, events[..|events| - 1])
      case Halted => Halted
      case Goes(w) => Step(w, events[|events| - 1])
  }

  lemma {:induction false} RunKeepsInv(ram: Ram, events: seq<Event>) returns (own: seq<Owner>)
    requires forall i :: 0 <= i < |events| ==> Valid(events[i])
    ensures Run(ram, events).Goes? ==> RunInv(Run(ram, events).world, own)
  {
    own := BootOwners(FREE_FRAMES - 6);
    if events == [] {
      BootEstablishesOwnership(ram);
    } else {
      own := RunKeepsInv(ram, events[..|events| - 1]);
      var r := Run(ram, events[..|events| - 1]);
      if r.Goes? { own := StepKeepsInv(r.world, own, events[|events| - 1]); }
    }
  }
}
