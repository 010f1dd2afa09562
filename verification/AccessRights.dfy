/** The `rw` and `us` bits of every entry on the way to every page of every process, over every run: all memory is
    writable, and none of it can be reached in user mode. */
module AccessRights {
  import opened PhysicalMemory
  import opened PageTables
  import opened FrameOwnership
  import opened PageMapping
  import opened ProcessTrees
  import opened ProcessStack
  import opened NewProcess
  import opened AddressSpace
  import opened Boot
  import opened KernelRuns
  import opened TableBits

  /** The `us` bit of the entry for a path: not set in the level 4 and 3 entries, set in the level 2 entry of
      [4 MB, 6 MB) and in the level 1 entries of [4 MB, 10 MB), and set for everything `add_page` adds. */
  predicate UserBit(q: Path) {
    Depth(q) >= 3
    && (if Depth(q) == 3 then q.idx == 2 || q.idx >= 6
        else !KernelHalf(q) || (q.up.Sub? && 2 <= q.up.idx <= 4))
  }

  /** The entry for path `q` in the table above it. */
  function EntryAt(ram: Ram, c: nat, q: Path): Entry
    requires q.Sub?
  {
    if Node(ram, c, q.up).At? then Read(ram, Node(ram, c, q.up).frame, q.idx) else ZERO_WORD
  }

  ghost predicate HasRights(ram: Ram, c: nat, q: Path) {
    q.Sub? && Depth(q) <= 4 && Node(ram, c, q).At? ==> EntryAt(ram, c, q).rw && EntryAt(ram, c, q).us == UserBit(q)
  }

  ghost predicate TreeRights(ram: Ram, c: nat) {
    forall q :: HasRights(ram, c, q)
  }

  predicate SharedRight(ram: Ram, k: Kernel, i: nat, j: nat) {
    i < |k.shared| ==> Read(ram, k.shared[i], j).rw && Read(ram, k.shared[i], j).us == (2 <= i <= 4)
  }

  ghost predicate SharedRights(ram: Ram, k: Kernel) {
    forall i, j :: 0 <= i < 6 && 0 <= j < 512 ==> SharedRight(ram, k, i, j)
  }

  ghost predicate Rights(ram: Ram, k: Kernel, live: set<nat>) {
    SharedRights(ram, k) && forall c :: c in live ==> TreeRights(ram, c)
  }

  // ---- memory that changes outside the tables

  /** Frames that are no tables may change, and new trees may come. */
  lemma RightsStay(m: Mem, k: Kernel, live: set<nat>, own: seq<Owner>, ram': Ram)
    requires Inv(m, k, live, own) && Rights(m.ram, k, live)
    requires forall f :: 0 <= f < FRAMES && IsTable(own[f]) ==> ram'[f] == m.ram[f]
    requires forall r, x :: r in live && Depth(x) <= 4 ==> Node(ram', r, x) == Node(m.ram, r, x)
    ensures Rights(ram', k, live)
  {
    forall i, j | 0 <= i < 6 && 0 <= j < 512 ensures SharedRight(ram', k, i, j) {
      assert SharedRight(m.ram, k, i, j) && SharedTableOk(m.ram, k.shared[i], i, own);
    }
    forall c, q | c in live ensures HasRights(ram', c, q) {
      assert TreeRights(m.ram, c);
      if q.Sub? && Depth(q) <= 4 && Node(ram', c, q).At? {
        assert HasRights(m.ram, c, q);
        TableStays(m, k, live, own, ram', c, q);
      }
    }
  }

  lemma TableStays(m: Mem, k: Kernel, live: set<nat>, own: seq<Owner>, ram': Ram, c: nat, q: Path)
    requires Inv(m, k, live, own) && c in live && q.Sub? && Depth(q) <= 4 && Node(m.ram, c, q.up).At?
    requires forall f :: 0 <= f < FRAMES && IsTable(own[f]) ==> ram'[f] == m.ram[f]
    requires Node(ram', c, q.up) == Node(m.ram, c, q.up)
    ensures EntryAt(ram', c, q) == EntryAt(m.ram, c, q)
  {
    TreesHaveKnownTables(m, k, live, own, c);
    assert TableAt(own, c, q.up, Node(m.ram, c, q.up).frame);
  }

  // ---- add_page

  /** The table of the linked entry is the tree's own. */
  lemma LinkedTable(m: Mem, k: Kernel, live: set<nat>, own: seq<Owner>, c: nat, p: Path, i: nat)
    requires Inv(m, k, live, own) && c in live && Depth(p) <= 3 && Node(m.ram, c, p).At? && i < 512
    requires Node(m.ram, c, Sub(p, i)).Absent?
    ensures var t := Node(m.ram, c, p).frame; t < FRAMES && own[t] == Owned(c, p)
  {
    assert TreeOk(m.ram, k, own, c) && NodeFits(m.ram, k, own, c, p);
    if KernelHalf(p) {
      SharedEntriesPresent(m, k, live, own, c, p, i);
      assert false;
    }
  }

  /** It gets the bits asked for, and every other entry keeps its own. */
  lemma LinkedEntry(m: Mem, k: Kernel, live: set<nat>, own: seq<Owner>, c: nat, p: Path, i: nat, us: bool,
                    m': Mem, f: nat, own': seq<Owner>, r: nat, q: Path)
    requires Inv(m, k, live, own) && c in live && r in live && Depth(p) <= 3 && Node(m.ram, c, p).At? && i < 512
    requires Node(m.ram, c, Sub(p, i)).Absent? && Linked(m, k, live, own, c, p, i, us, true, m', f, own')
    requires q.Sub? && Depth(q) <= 4 && Node(m'.ram, r, q).At? && q.idx < 512
    ensures if r == c && q == Sub(p, i) then EntryAt(m'.ram, r, q).rw && EntryAt(m'.ram, r, q).us == us
            else Node(m.ram, r, q).At? && EntryAt(m'.ram, r, q) == EntryAt(m.ram, r, q)
  {
    var t := Node(m.ram, c, p).frame;
    LinkedTable(m, k, live, own, c, p, i);
    assert p != Sub(p, i) && Depth(q.up) <= 3;
    if !(r == c && q == Sub(p, i)) {
      assert Node(m.ram, r, q) == Node(m'.ram, r, q) && Node(m.ram, r, q.up).At?;
      TreesHaveKnownTables(m, k, live, own, r);
      var u := Node(m.ram, r, q.up).frame;
      assert TableAt(own, r, q.up, u);
      assert u != f && !(u == t && q.idx == i);
      assert Node(m'.ram, r, q.up) == At(u);
    }
  }

  lemma LinkedRights(m: Mem, k: Kernel, live: set<nat>, own: seq<Owner>, c: nat, p: Path, i: nat, us: bool,
                     m': Mem, f: nat, own': seq<Owner>)
    requires Inv(m, k, live, own) && c in live && Depth(p) <= 3 && Node(m.ram, c, p).At? && i < 512
    requires Node(m.ram, c, Sub(p, i)).Absent? && Linked(m, k, live, own, c, p, i, us, true, m', f, own')
    requires Rights(m.ram, k, live) && us == UserBit(Sub(p, i))
    ensures Rights(m'.ram, k, live)
  {
    LinkedTable(m, k, live, own, c, p, i);
    forall a, j | 0 <= a < 6 && 0 <= j < 512 ensures SharedRight(m'.ram, k, a, j) {
      assert SharedRight(m.ram, k, a, j) && SharedTableOk(m.ram, k.shared[a], a, own);
    }
    forall r, q | r in live ensures HasRights(m'.ram, r, q) {
      if q.Sub? && Depth(q) <= 4 && Node(m'.ram, r, q).At? {
        assert TreeRights(m.ram, r) && HasRights(m.ram, r, q);
        LinkedEntry(m, k, live, own, c, p, i, us, m', f, own', r, q);
      }
    }
  }

  lemma {:induction false} FillRights(m: Mem, k: Kernel, live: set<nat>, own: seq<Owner>, c: nat, q: Path)
    requires Inv(m, k, live, own) && c in live && Depth(q) <= 4 && IndicesFit(q) && Rights(m.ram, k, live)
    requires forall x :: OnPath(x, q) && Node(m.ram, c, x).Absent? ==> UserBit(x)
    ensures var r := Fill(m, c, q, true, true); r.Got? ==> Rights(r.mem.ram, k, live)
  {
    var above := if q.Sub? then Fill(m, c, q.up, true, true) else OutOfMemory;
    if above.Got? {
      FillRights(m, k, live, own, c, q.up);
      var own1 := FillExtends(m, k, live, own, c, q.up, true, true);
      SameAtTheEnd(m, above.mem, c, q);
      var own' := EnsureEntryKeepsOwnership(above.mem, k, live, own1, c, q.up, q.idx, true, true);
      var r := Fill(m, c, q, true, true);
      if r.Got? && Node(m.ram, c, q).Absent? {
        LinkedRights(above.mem, k, live, own1, c, q.up, q.idx, true, r.mem, r.at, own');
      }
    }
  }

  /** What a fault or a stack page adds to the tree lies below its first level 2 table. */
  lemma AddedBits(m: Mem, k: Kernel, live: set<nat>, own: seq<Owner>, c: nat, va: VirtualAddress)
    requires Inv(m, k, live, own) && c in live && va.l4 == 0 && va.l3 == 0 && 6 <= va.l2
    ensures forall x :: OnPath(x, PathOf(va)) && Node(m.ram, c, x).Absent? ==> UserBit(x)
  {
    var p := PathOf(va);
    assert TreeOk(m.ram, k, own, c) && SharedAt(m.ram, k, c, 0);
    AbsentNowhereAbove(m.ram, c, FIRST_L2);
    assert Depth(p) == 4 && Depth(p.up) == 3 && Depth(FIRST_L2) == 2 && p.up.up == FIRST_L2;
    forall x | OnPath(x, p) && Node(m.ram, c, x).Absent? ensures UserBit(x) {
      if x != p && x != p.up {
        assert OnPath(x, p.up) && OnPath(x, p.up.up);
        AboveIsThere(m.ram, c, x, FIRST_L2);
        assert false;
      }
      if KernelHalf(p) {
        KernelHalfDepth(p);
        KernelHalfDepth(p.up);
        assert false;
      }
    }
  }

  lemma {:induction false} AboveIsThere(ram: Ram, c: nat, x: Path, q: Path)
    requires OnPath(x, q) && Node(ram, c, q).At?
    ensures Node(ram, c, x).At?
  {
    if x != q { AboveIsThere(ram, c, x, q.up); }
  }

  // ---- a new process

  lemma {:induction false} StackRights(m: Mem, k: Kernel, live: set<nat>, own: seq<Owner>, c: nat, n: nat)
    requires Inv(m, k, live, own) && c in live && n <= STACK_PAGES && Rights(m.ram, k, live)
    requires Node(m.ram, c, FIRST_L2).At? && StackAbsent(m.ram, c)
    ensures var r := StackPages(m, c, n); r.Got? ==> Rights(r.mem.ram, k, live)
    decreases n
  {
    if n > 0 {
      StackRights(m, k, live, own, c, n - 1);
      var own1 := StackPagesMap(m, k, live, own, c, n - 1);
      var before := StackPages(m, c, n - 1);
      if before.Got? {
        var va := StackPage(n - 1);
        PathsFit(va);
        AddedBits(before.mem, k, live, own1, c, va);
        FillRights(before.mem, k, live, own1, c, PathOf(va));
      }
    }
  }

  /** The three tables of a new tree, over the shared ones. */
  lemma NewTreeRights(ram: Ram, k: Kernel, own: seq<Owner>, l4: nat, l3: nat, l2: nat)
    requires |own| == FRAMES && SharedOk(ram, k, own) && SharedRights(ram, k)
    requires l3 < FRAMES && l2 < FRAMES && LinkedEntries(ram, k, l4, l3, l2)
    ensures TreeRights(ram, l4)
  {
    assert Depth(FIRST_L2) == 2 && Depth(Sub(Top, 0)) == 1;
    forall q ensures HasRights(ram, l4, q) {
      if q.Sub? && Depth(q) <= 4 && Node(ram, l4, q).At? {
        NewTreeNodes(ram, k, own, l4, l3, l2, q);
        NewTreeNodes(ram, k, own, l4, l3, l2, q.up);
        NewEntryRights(ram, k, own, l4, l3, l2, q);
      }
    }
  }

  lemma NewEntryRights(ram: Ram, k: Kernel, own: seq<Owner>, l4: nat, l3: nat, l2: nat, q: Path)
    requires |own| == FRAMES && SharedOk(ram, k, own) && SharedRights(ram, k)
    requires LinkedEntries(ram, k, l4, l3, l2) && q.Sub? && Depth(q) <= 4
    requires Node(ram, l4, q) == NewTreeNode(k, l4, l3, l2, q) && Node(ram, l4, q).At?
    requires Node(ram, l4, q.up) == NewTreeNode(k, l4, l3, l2, q.up)
    ensures HasRights(ram, l4, q)
  {
    assert Depth(FIRST_L2) == 2 && Depth(Sub(Top, 0)) == 1 && FIRST_L2.up == Sub(Top, 0);
    if q.up.Sub? && q.up.up == FIRST_L2 {
      assert KernelHalf(q.up) && KernelHalf(q);
      assert SharedRight(ram, k, q.up.idx, q.idx);
    }
  }

  lemma Pml4Rights(m: Mem, k: Kernel, live: set<nat>, own: seq<Owner>)
    requires Inv(m, k, live, own) && Rights(m.ram, k, live)
    ensures match CreatePml4(m, k)
            case OutOfMemory => true
            case Got(m', c) => Rights(m'.ram, k, live + {c})
  {
    var own', l3, l2 := CreatePml4KeepsOwnership(m, k, live, own);
    match CreatePml4(m, k)
    case OutOfMemory =>
    case Got(m', c) =>
      BuiltRights(m, k, live, own, m', c, l3, l2, own');
  }

  lemma BuiltRights(m: Mem, k: Kernel, live: set<nat>, own: seq<Owner>, m': Mem, c: nat, l3: nat, l2: nat,
                    own': seq<Owner>)
    requires Inv(m, k, live, own) && Rights(m.ram, k, live) && Built(m, k, own, m', c, l3, l2)
    requires Inv(m', k, live + {c}, own')
    requires forall r, q :: r in live && Depth(q) <= 4 ==> Node(m'.ram, r, q) == Node(m.ram, r, q)
    ensures Rights(m'.ram, k, live + {c})
  {
    RightsStay(m, k, live, own, m'.ram);
    NewTreeRights(m'.ram, k, own', c, l3, l2);
  }

  lemma ProcessRights(m: Mem, k: Kernel, live: set<nat>, own: seq<Owner>, context: Context)
    requires Inv(m, k, live, own) && Rights(m.ram, k, live)
    ensures match CreateProcess(m, k, context)
            case OutOfMemory => true
            case Got(m', c) => Rights(m'.ram, k, live + {c})
  {
    var own1, l3, l2 := CreatePml4KeepsOwnership(m, k, live, own);
    Pml4Rights(m, k, live, own);
    var r := CreatePml4(m, k);
    if r.Got? {
      NewTreeHasNoStack(r.mem.ram, k, r.at, l3, l2);
      FinishedRights(r.mem, k, live + {r.at}, own1, r.at, context);
    }
  }

  lemma FinishedRights(m: Mem, k: Kernel, live: set<nat>, own: seq<Owner>, c: nat, context: Context)
    requires Inv(m, k, live, own) && c in live && Rights(m.ram, k, live)
    requires Node(m.ram, c, FIRST_L2).At? && StackAbsent(m.ram, c)
    ensures match AllocProcessStack(m, c, context)
            case OutOfMemory => true
            case Got(m', _) => Rights(m'.ram, k, live)
  {
    StackRights(m, k, live, own, c, STACK_PAGES);
    var own' := StackPagesMap(m, k, live, own, c, STACK_PAGES);
    var s := StackPages(m, c, STACK_PAGES);
    if s.Got? {
      ContextGoesOnLastPage(s.mem, k, live, own', c, s.at, context);
      RightsStay(s.mem, k, live, own', WriteContext(s.mem.ram, FrameOf(s.at), context));
    }
  }

  // ---- over every run

  lemma FaultRights(w: World, own: seq<Owner>, c: nat, cr2: nat)
    requires RunInv(w, own) && Rights(w.mem.ram, w.kernel, w.live) && c in w.live && cr2 < 0x1_0000_0000_0000_0000
    ensures var r := HandleFault(w.mem, c, cr2); r.Got? ==> Rights(r.mem.ram, w.kernel, w.live)
  {
    if 0x160_0000 <= cr2 < 0x200_0000 {
      var va := Translate(cr2);
      TranslateFields(cr2);
      PathsFit(va);
      AddedBits(w.mem, w.kernel, w.live, own, c, va);
      FillRights(w.mem, w.kernel, w.live, own, c, PathOf(va));
    }
  }

  lemma StoreRights(w: World, own: seq<Owner>, c: nat, addr: nat, word: nat)
    requires RunInv(w, own) && Rights(w.mem.ram, w.kernel, w.live) && c in w.live && Valid(Store(c, addr, word))
    ensures Rights(StoreWord(w.mem, c, addr, word).ram, w.kernel, w.live)
  {
    var q := PathOf(Translate(addr));
    if Node(w.mem.ram, c, q).At? {
      var ram' := StoreWord(w.mem, c, addr, word).ram;
      StoredFrame(w, own, c, addr);
      PageWriteKeepsOwnership(w.mem, w.kernel, w.live, own, Node(w.mem.ram, c, q).frame, ram');
      RightsStay(w.mem, w.kernel, w.live, own, ram');
    }
  }

  lemma StepKeepsRights(w: World, own: seq<Owner>, e: Event)
    requires RunInv(w, own) && Rights(w.mem.ram, w.kernel, w.live) && Valid(e)
    ensures match Step(w, e)
            case Halted => true
            case Goes(v) => Rights(v.mem.ram, v.kernel, v.live)
  {
    match e
    case Create(context) => ProcessRights(w.mem, w.kernel, w.live, own, context);
    case Fault(c, cr2) => if c in w.live { FaultRights(w, own, c, cr2); }
    case Store(c, addr, word) => if c in w.live { StoreRights(w, own, c, addr, word); }
    case Exit(c) =>
  }

  lemma {:induction false} RunKeepsRights(ram: Ram, events: seq<Event>) returns (own: seq<Owner>)
    requires forall i :: 0 <= i < |events| ==> Valid(events[i])
    ensures match Run(ram, events)
            case Halted => true
            case Goes(w) => RunInv(w, own) && Rights(w.mem.ram, w.kernel, w.live)
  {
    own := RunKeepsInv(ram, events);
    if events == [] {
      BootRights(ram);
    } else {
      var own1 := RunKeepsRights(ram, events[..|events| - 1]);
      var r := Run(ram, events[..|events| - 1]);
      if r.Goes? { StepKeepsRights(r.world, own1, events[|events| - 1]); }
    }
  }

  lemma BootRights(ram: Ram)
    ensures BootKernel(ram).Running?
    ensures Rights(BootKernel(ram).mem.ram, BootKernel(ram).kernel, {})
  {
    BootKernelLands(ram);
    var b := BootKernel(ram);
    forall i, j | 0 <= i < 6 && 0 <= j < 512 ensures SharedRight(b.mem.ram, b.kernel, i, j) {
      assert b.mem.ram[b.kernel.shared[i]] == IdentityWords(i, true, 2 <= i <= 4);
    }
  }

  /** An address can be written, or reached in user mode, when every entry on the way to it says so. */
  datatype Access = Access(writable: bool, user: bool)

  function AccessTo(ram: Ram, c: nat, va: VirtualAddress): Access {
    var q := PathOf(va);
    var l1, l2 := EntryAt(ram, c, q), EntryAt(ram, c, q.up);
    var l3, l4 := EntryAt(ram, c, q.up.up), EntryAt(ram, c, q.up.up.up);
    Access(l1.rw && l2.rw && l3.rw && l4.rw, l1.us && l2.us && l3.us && l4.us)
  }

  /** In every reachable state the entries of every process have the bits of `UserBit` and are writable. */
  lemma EntriesHaveTheirBits(ram: Ram, events: seq<Event>, c: nat, q: Path)
    requires forall i :: 0 <= i < |events| ==> Valid(events[i])
    requires Run(ram, events).Goes? && c in Run(ram, events).world.live && q.Sub? && Depth(q) <= 4
    ensures var m := Run(ram, events).world.mem;
            Node(m.ram, c, q).At? ==> EntryAt(m.ram, c, q).rw && EntryAt(m.ram, c, q).us == UserBit(q)
  {
    var own := RunKeepsRights(ram, events);
    var m := Run(ram, events).world.mem;
    assert TreeRights(m.ram, c) && HasRights(m.ram, c, q);
  }

  /** Whatever a process can reach it can write, and it can reach nothing in user mode: the level 4 and level 3 entries
      are the supervisor's, although userland, stack and heap are marked for user use further down. */
  lemma MappedIsWritableAndNeverUser(ram: Ram, events: seq<Event>, c: nat, va: VirtualAddress)
    requires forall i :: 0 <= i < |events| ==> Valid(events[i])
    requires Run(ram, events).Goes? && c in Run(ram, events).world.live
    ensures var m := Run(ram, events).world.mem;
            Walk(m.ram, c, va).To? ==> AccessTo(m.ram, c, va) == Access(true, false)
  {
    var m, q := Run(ram, events).world.mem, PathOf(va);
    if Node(m.ram, c, q).At? {
      assert Depth(q) == 4 && Depth(q.up) == 3 && Depth(q.up.up) == 2 && Depth(q.up.up.up) == 1;
      EntriesHaveTheirBits(ram, events, c, q);
      EntriesHaveTheirBits(ram, events, c, q.up);
      EntriesHaveTheirBits(ram, events, c, q.up.up);
      EntriesHaveTheirBits(ram, events, c, q.up.up.up);
    }
  }
}
