/** The bits of a table entry that the managers never set: `low` holds the page-size bit and `high` the no-execute
    bit. While they are 0 in all tables, translation goes through four levels down to pages of 4 KB. */
module TableBits {
  import opened PhysicalMemory
  import opened PageTables
  import opened FrameOwnership
  import opened PageMapping
  import opened Teardown
  import opened Conservation
  import opened ProcessTrees
  import opened ProcessStack
  import opened NewProcess
  import opened AddressSpace
  import opened Boot
  import opened KernelRuns

  predicate PlainWord(e: Entry) {
    e.low == 0 && e.high == 0
  }

  predicate PlainFrame(ram: Ram, f: nat) {
    forall i :: 0 <= i < 512 ==> PlainWord(Read(ram, f, i))
  }

  ghost predicate KeepsPlain(ram: Ram, ram': Ram) {
    forall f: nat :: PlainFrame(ram, f) ==> PlainFrame(ram', f)
  }

  predicate PoppedPlain(m: Mem, ram': Ram, s: nat) {
    s < |m.stack| ==> PlainFrame(ram', FrameOf(m.stack[s]))
  }

  /** What was plain stays plain, and so is every frame that has left the stack. */
  ghost predicate PopsPlain(m: Mem, m': Mem) {
    && |m'.stack| <= |m.stack| && m'.stack == m.stack[..|m'.stack|]
    && KeepsPlain(m.ram, m'.ram)
    && forall s :: |m'.stack| <= s < |m.stack| ==> PoppedPlain(m, m'.ram, s)
  }

  // ---- what the managers do to memory

  lemma PopsTwice(m: Mem, m1: Mem, m': Mem)
    requires PopsPlain(m, m1) && PopsPlain(m1, m')
    ensures PopsPlain(m, m')
  {
    forall s | |m'.stack| <= s < |m.stack| ensures PoppedPlain(m, m'.ram, s) {
      if s < |m1.stack| {
        assert PoppedPlain(m1, m'.ram, s);
      } else {
        assert PoppedPlain(m, m1.ram, s);
      }
    }
  }

  lemma PopsNothing(m: Mem, ram': Ram)
    requires KeepsPlain(m.ram, ram')
    ensures PopsPlain(m, m.(ram := ram'))
  {
  }

  /** A word of a plain frame is overwritten by a plain word. */
  lemma WriteKeepsPlain(ram: Ram, t: nat, i: nat, e: Entry)
    requires PlainWord(Read(ram, t, i)) ==> PlainWord(e)
    ensures KeepsPlain(ram, Write(ram, t, i, e))
  {
    var ram' := Write(ram, t, i, e);
    forall f: nat | PlainFrame(ram, f) ensures PlainFrame(ram', f) {
      forall j | 0 <= j < 512 ensures PlainWord(Read(ram', f, j)) {
        assert PlainWord(Read(ram, f, j));
      }
    }
  }

  lemma AllocPops(m: Mem)
    ensures PageAlloc(m).Got? ==> PopsPlain(m, PageAlloc(m).mem)
  {
    if PageAlloc(m).Got? {
      var m', last := PageAlloc(m).mem, |m.stack| - 1;
      forall f: nat | PlainFrame(m.ram, f) ensures PlainFrame(m'.ram, f) {
        forall j | 0 <= j < 512 ensures PlainWord(Read(m'.ram, f, j)) {
          assert PlainWord(Read(m.ram, f, j));
        }
      }
      assert PoppedPlain(m, m'.ram, last);
    }
  }

  lemma EnsurePops(m: Mem, t: nat, i: nat, us: bool, rw: bool)
    ensures var r := EnsureEntry(m, t, i, us, rw); r.Got? ==> PopsPlain(m, r.mem)
  {
    if !Read(m.ram, t, i).p {
      var marked := m.(ram := Write(m.ram, t, i, Read(m.ram, t, i).(p := true, rw := rw, us := us)));
      WriteKeepsPlain(m.ram, t, i, Read(m.ram, t, i).(p := true, rw := rw, us := us));
      PopsNothing(m, marked.ram);
      AllocPops(marked);
      if PageAlloc(marked).Got? {
        var m1, top := PageAlloc(marked).mem, PageAlloc(marked).at;
        var e := Read(m1.ram, t, i).(address := FrameOf(top) % 0x100_0000_0000);
        WriteKeepsPlain(m1.ram, t, i, e);
        PopsNothing(m1, Write(m1.ram, t, i, e));
        PopsTwice(m, marked, m1);
        PopsTwice(m, m1, m1.(ram := Write(m1.ram, t, i, e)));
      }
    } else {
      PopsNothing(m, m.ram);
    }
  }

  lemma {:induction false} FillPops(m: Mem, c: nat, q: Path, us: bool, rw: bool)
    ensures var r := Fill(m, c, q, us, rw); r.Got? ==> PopsPlain(m, r.mem)
  {
    if q.Top? {
      PopsNothing(m, m.ram);
    } else {
      FillPops(m, c, q.up, us, rw);
      var above := Fill(m, c, q.up, us, rw);
      if above.Got? {
        EnsurePops(above.mem, above.at, q.idx, us, rw);
        var r := Fill(m, c, q, us, rw);
        if r.Got? { PopsTwice(m, above.mem, r.mem); }
      }
    }
  }

  lemma {:induction false} StackPops(m: Mem, c: nat, n: nat)
    ensures var r := StackPages(m, c, n); r.Got? ==> PopsPlain(m, r.mem)
    decreases n
  {
    if n == 0 {
      PopsNothing(m, m.ram);
    } else {
      StackPops(m, c, n - 1);
      var before, r := StackPages(m, c, n - 1), StackPages(m, c, n);
      if before.Got? {
        FillPops(before.mem, c, PathOf(StackPage(n - 1)), true, true);
        if r.Got? { PopsTwice(m, before.mem, r.mem); }
      }
    }
  }

  lemma LinkKeepsPlain(ram: Ram, k: Kernel, l4: nat, l3: nat, l2: nat)
    requires |k.shared| == 6
    ensures KeepsPlain(ram, LinkTables(ram, k, l4, l3, l2))
  {
    var one := Write(ram, l4, 0, TableEntry(l3));
    var two := Write(one, l3, 0, TableEntry(l2));
    WriteKeepsPlain(ram, l4, 0, TableEntry(l3));
    WriteKeepsPlain(one, l3, 0, TableEntry(l2));
    var ram' := GenericL2(two, l2, k);
    forall f: nat | PlainFrame(two, f) ensures PlainFrame(ram', f) {
      forall j | 0 <= j < 512 ensures PlainWord(Read(ram', f, j)) {
        assert PlainWord(Read(two, f, j));
      }
    }
  }

  lemma Pml4Pops(m: Mem, k: Kernel)
    requires |k.shared| == 6
    ensures CreatePml4(m, k).Got? ==> PopsPlain(m, CreatePml4(m, k).mem)
  {
    if CreatePml4(m, k).Got? {
      var m4 := PageAlloc(m).mem;
      var m3 := PageAlloc(m4).mem;
      var m2 := PageAlloc(m3).mem;
      AllocPops(m);
      AllocPops(m4);
      AllocPops(m3);
      PopsTwice(m, m4, m3);
      PopsTwice(m, m3, m2);
      var r := CreatePml4(m, k).mem;
      LinkKeepsPlain(m2.ram, k, FrameOf(PageAlloc(m).at), FrameOf(PageAlloc(m4).at), FrameOf(PageAlloc(m3).at));
      PopsNothing(m2, r.ram);
      PopsTwice(m, m2, r);
    }
  }

  // ---- the tables of all trees

  predicate IsTable(o: Owner) {
    o.Shared? || (o.Owned? && Depth(o.path) <= 3)
  }

  predicate TablePlain(ram: Ram, own: seq<Owner>, f: nat) {
    f < |own| && IsTable(own[f]) ==> PlainFrame(ram, f)
  }

  ghost predicate TablesPlain(ram: Ram, own: seq<Owner>) {
    forall f :: 0 <= f < |own| ==> TablePlain(ram, own, f)
  }

  /** Tables taken from the stack are plain, the others were. */
  lemma PoppedTablesPlain(m: Mem, k: Kernel, live: set<nat>, own: seq<Owner>, m': Mem, live': set<nat>,
                          own': seq<Owner>)
    requires Inv(m, k, live, own) && Inv(m', k, live', own') && TablesPlain(m.ram, own) && PopsPlain(m, m')
    requires forall g :: 0 <= g < FRAMES && !own[g].Free? ==> own'[g] == own[g]
    ensures TablesPlain(m'.ram, own')
  {
    forall f | 0 <= f < |own'| ensures TablePlain(m'.ram, own', f) {
      assert TablePlain(m.ram, own, f) && Accounted(m, k, live, own, f);
      if own[f].Free? && IsTable(own'[f]) {
        var s := own[f].slot;
        assert s < |m'.stack| ==> HoldsFree(m'.stack[s], s, own');
        assert PoppedPlain(m, m'.ram, s);
      }
    }
  }

  lemma WriteOutsideTables(ram: Ram, own: seq<Owner>, f: nat, ram': Ram)
    requires TablesPlain(ram, own) && |own| == FRAMES && IsUserFrame(own, f)
    requires forall g :: 0 <= g < FRAMES && g != f ==> ram'[g] == ram[g]
    ensures TablesPlain(ram', own)
  {
    forall g | 0 <= g < |own| ensures TablePlain(ram', own, g) {
      assert TablePlain(ram, own, g);
      if IsTable(own[g]) {
        forall i | 0 <= i < 512 ensures PlainWord(Read(ram', g, i)) { assert PlainWord(Read(ram, g, i)); }
      }
    }
  }

  // ---- over every run

  lemma Pml4KeepsTablesPlain(m: Mem, k: Kernel, live: set<nat>, own: seq<Owner>) returns (own': seq<Owner>)
    requires Inv(m, k, live, own) && TablesPlain(m.ram, own)
    ensures match CreatePml4(m, k)
            case OutOfMemory => true
            case Got(m', c) =>
              && Inv(m', k, live + {c}, own') && TablesPlain(m'.ram, own')
              && Node(m'.ram, c, FIRST_L2).At? && StackAbsent(m'.ram, c)
  {
    var l3, l2;
    own', l3, l2 := CreatePml4KeepsOwnership(m, k, live, own);
    match CreatePml4(m, k)
    case OutOfMemory =>
    case Got(m', c) =>
      Pml4Pops(m, k);
      PoppedTablesPlain(m, k, live, own, m', live + {c}, own');
      NewTreeHasNoStack(m'.ram, k, c, l3, l2);
  }

  lemma StackKeepsTablesPlain(m: Mem, k: Kernel, live: set<nat>, own: seq<Owner>, c: nat, context: Context)
    returns (own': seq<Owner>)
    requires Inv(m, k, live, own) && c in live && TablesPlain(m.ram, own)
    requires Node(m.ram, c, FIRST_L2).At? && StackAbsent(m.ram, c)
    ensures match AllocProcessStack(m, c, context)
            case OutOfMemory => true
            case Got(m', _) => Inv(m', k, live, own') && TablesPlain(m'.ram, own')
  {
    own' := StackPagesMap(m, k, live, own, c, STACK_PAGES);
    var s := StackPages(m, c, STACK_PAGES);
    if s.Got? {
      StackPops(m, c, STACK_PAGES);
      PoppedTablesPlain(m, k, live, own, s.mem, live, own');
      ContextGoesOnLastPage(s.mem, k, live, own', c, s.at, context);
      WriteOutsideTables(s.mem.ram, own', FrameOf(s.at), WriteContext(s.mem.ram, FrameOf(s.at), context));
    }
  }

  lemma ProcessKeepsTablesPlain(m: Mem, k: Kernel, live: set<nat>, own: seq<Owner>, context: Context)
    returns (own': seq<Owner>)
    requires Inv(m, k, live, own) && TablesPlain(m.ram, own)
    ensures match CreateProcess(m, k, context)
            case OutOfMemory => true
            case Got(m', c) => Inv(m', k, live + {c}, own') && TablesPlain(m'.ram, own')
  {
    own' := Pml4KeepsTablesPlain(m, k, live, own);
    var r := CreatePml4(m, k);
    if r.Got? {
      own' := StackKeepsTablesPlain(r.mem, k, live + {r.at}, own', r.at, context);
    }
  }

  lemma CreateKeepsTablesPlain(w: World, own: seq<Owner>, context: Context) returns (own': seq<Owner>)
    requires RunInv(w, own) && TablesPlain(w.mem.ram, own)
    ensures var r := Step(w, Create(context));
            r.Goes? ==> RunInv(r.world, own') && TablesPlain(r.world.mem.ram, own')
  {
    var own0 := CreateKeepsInv(w, own, context);
    own' := ProcessKeepsTablesPlain(w.mem, w.kernel, w.live, own, context);
  }

  lemma FaultKeepsTablesPlain(w: World, own: seq<Owner>, c: nat, cr2: nat) returns (own': seq<Owner>)
    requires RunInv(w, own) && TablesPlain(w.mem.ram, own) && c in w.live && cr2 < 0x1_0000_0000_0000_0000
    ensures var r := HandleFault(w.mem, c, cr2);
            r.Got? ==> RunInv(w.(mem := r.mem), own') && TablesPlain(r.mem.ram, own')
  {
    own' := own;
    if 0x160_0000 <= cr2 < 0x200_0000 && HandleFault(w.mem, c, cr2).Got? {
      var q := PathOf(Translate(cr2));
      var own0 := FaultKeepsInv(w, own, c, cr2);
      PathsFit(Translate(cr2));
      own' := FillExtends(w.mem, w.kernel, w.live, own, c, q, true, true);
      FillPops(w.mem, c, q, true, true);
      PoppedTablesPlain(w.mem, w.kernel, w.live, own, Fill(w.mem, c, q, true, true).mem, w.live, own');
    }
  }

  lemma StoreKeepsTablesPlain(w: World, own: seq<Owner>, c: nat, addr: nat, word: nat)
    requires RunInv(w, own) && TablesPlain(w.mem.ram, own) && c in w.live
    requires StoreAllowed(addr) && word < 0x1_0000_0000_0000_0000
    ensures TablesPlain(StoreWord(w.mem, c, addr, word).ram, own)
  {
    var q := PathOf(Translate(addr));
    if Node(w.mem.ram, c, q).At? {
      StoredFrame(w, own, c, addr);
      WriteOutsideTables(w.mem.ram, own, Node(w.mem.ram, c, q).frame, StoreWord(w.mem, c, addr, word).ram);
    }
  }

  lemma ExitKeepsTablesPlain(w: World, own: seq<Owner>, c: nat, slots: nat, visits: seq<Visit>)
    requires TablesPlain(w.mem.ram, own)
    ensures TablesPlain(FreeTree(w.mem, c).ram, OwnersAfter(own, c, slots, visits))
  {
    var own' := OwnersAfter(own, c, slots, visits);
    forall f | 0 <= f < |own'| ensures TablePlain(w.mem.ram, own', f) { assert TablePlain(w.mem.ram, own, f); }
  }

  lemma StepKeepsTablesPlain(w: World, own: seq<Owner>, e: Event) returns (own': seq<Owner>)
    requires RunInv(w, own) && TablesPlain(w.mem.ram, own) && Valid(e)
    ensures Step(w, e).Goes? ==> RunInv(Step(w, e).world, own') && TablesPlain(Step(w, e).world.mem.ram, own')
  {
    own' := own;
    match e
    case Create(context) => own' := CreateKeepsTablesPlain(w, own, context);
    case Fault(c, cr2) => if c in w.live { own' := FaultKeepsTablesPlain(w, own, c, cr2); }
    case Store(c, addr, word) =>
      if c in w.live {
        StoreKeepsInv(w, own, c, addr, word);
        StoreKeepsTablesPlain(w, own, c, addr, word);
      }
    case Exit(c) =>
      if c in w.live {
        ExitKeepsInv(w, own, c);
        own' := OwnersAfter(own, c, |w.mem.stack|, TreeVisits(w.mem.ram, c));
        ExitKeepsTablesPlain(w, own, c, |w.mem.stack|, TreeVisits(w.mem.ram, c));
      }
  }

  lemma IdentityKeepsPlain(ram: Ram, t: nat, index: nat, rw: bool, us: bool)
    ensures KeepsPlain(ram, WriteIdentity(ram, t, index, rw, us))
  {
    var ram' := WriteIdentity(ram, t, index, rw, us);
    forall f: nat | PlainFrame(ram, f) ensures PlainFrame(ram', f) {
      forall j | 0 <= j < 512 ensures PlainWord(Read(ram', f, j)) { assert PlainWord(Read(ram, f, j)); }
    }
  }

  lemma {:induction false} SharedTablesPop(m: Mem, n: nat)
    ensures SharedTables(m, n).Made? ==> PopsPlain(m, SharedTables(m, n).mem)
    decreases n
  {
    if n == 0 {
      PopsNothing(m, m.ram);
    } else {
      SharedTablesPop(m, n - 1);
      if SharedTables(m, n).Made? {
        var m1, m' := SharedTables(m, n - 1).mem, SharedTables(m, n).mem;
        AllocPops(m1);
        var m2 := PageAlloc(m1).mem;
        IdentityKeepsPlain(m2.ram, FrameOf(PageAlloc(m1).at), n - 1, true, 2 <= n - 1 <= 4);
        PopsNothing(m2, m'.ram);
        PopsTwice(m1, m2, m');
        PopsTwice(m, m1, m');
      }
    }
  }

  lemma IdentityTablePops(m: Mem, l2: nat, n: nat)
    requires n > 0 && IdentityTables(m, l2, n).Got?
    ensures IdentityTables(m, l2, n - 1).Got?
    ensures PopsPlain(IdentityTables(m, l2, n - 1).mem, IdentityTables(m, l2, n).mem)
  {
    var m1, m' := IdentityTables(m, l2, n - 1).mem, IdentityTables(m, l2, n).mem;
    AllocPops(m1);
    var m2 := PageAlloc(m1).mem;
    TableLinkKeepsPlain(m2.ram, l2, n - 1, FrameOf(PageAlloc(m1).at));
    PopsNothing(m2, m'.ram);
    PopsTwice(m1, m2, m');
  }

  lemma {:induction false} IdentityTablesPop(m: Mem, l2: nat, n: nat)
    ensures IdentityTables(m, l2, n).Got? ==> PopsPlain(m, IdentityTables(m, l2, n).mem)
    decreases n
  {
    if n == 0 {
      PopsNothing(m, m.ram);
    } else {
      IdentityTablesPop(m, l2, n - 1);
      if IdentityTables(m, l2, n).Got? {
        IdentityTablePops(m, l2, n);
        PopsTwice(m, IdentityTables(m, l2, n - 1).mem, IdentityTables(m, l2, n).mem);
      }
    }
  }

  /** What one round of the loop in `all_memory_identity` writes. */
  lemma TableLinkKeepsPlain(ram: Ram, l2: nat, n: nat, f: nat)
    ensures var e := Read(ram, l2, n).(p := true, us := false, rw := false, address := f % 0x100_0000_0000);
            KeepsPlain(ram, WriteIdentity(Write(ram, l2, n, e), f, n, false, false))
  {
    var e := Read(ram, l2, n).(p := true, us := false, rw := false, address := f % 0x100_0000_0000);
    WriteKeepsPlain(ram, l2, n, e);
    IdentityKeepsPlain(Write(ram, l2, n, e), f, n, false, false);
  }

  lemma KernelTreePops(m: Mem)
    ensures AllMemoryIdentity(m).Got? ==> PopsPlain(m, AllMemoryIdentity(m).mem)
  {
    if AllMemoryIdentity(m).Got? {
      var m4 := PageAlloc(m).mem;
      var m3 := PageAlloc(m4).mem;
      var m2 := PageAlloc(m3).mem;
      AllocPops(m);
      AllocPops(m4);
      AllocPops(m3);
      PopsTwice(m, m4, m3);
      PopsTwice(m, m3, m2);
      var l4, l3, l2 := FrameOf(PageAlloc(m).at), FrameOf(PageAlloc(m4).at), FrameOf(PageAlloc(m3).at);
      var one := Write(m2.ram, l4, 0, TableEntry(l3));
      WriteKeepsPlain(m2.ram, l4, 0, TableEntry(l3));
      WriteKeepsPlain(one, l3, 0, TableEntry(l2));
      var linked := m2.(ram := Write(one, l3, 0, TableEntry(l2)));
      PopsNothing(m2, linked.ram);
      IdentityTablesPop(linked, l2, 257);
      PopsTwice(m, m2, linked);
      PopsTwice(m, linked, AllMemoryIdentity(m).mem);
    }
  }

  lemma BootTablesPlain(ram: Ram)
    ensures BootKernel(ram).Running?
    ensures TablesPlain(BootKernel(ram).mem.ram, BootOwners(FREE_FRAMES - 6))
  {
    BootKernelLands(ram);
    var m, own := Mem(ram, InitialStack(FREE_FRAMES)), BootOwners(FREE_FRAMES - 6);
    var made, m' := SharedTables(m, 6).mem, BootKernel(ram).mem;
    SharedTablesPop(m, 6);
    KernelTreePops(made);
    PopsTwice(m, made, m');
    forall f | 0 <= f < FRAMES ensures TablePlain(m'.ram, own, f) {
      if IsTable(own[f]) { assert PoppedPlain(m, m'.ram, f - 3072); }
    }
  }

  lemma {:induction false} RunKeepsTablesPlain(ram: Ram, events: seq<Event>) returns (own: seq<Owner>)
    requires forall i :: 0 <= i < |events| ==> Valid(events[i])
    ensures Run(ram, events).Goes? ==>
              RunInv(Run(ram, events).world, own) && TablesPlain(Run(ram, events).world.mem.ram, own)
  {
    own := BootOwners(FREE_FRAMES - 6);
    if events == [] {
      BootEstablishesOwnership(ram);
      BootTablesPlain(ram);
    } else {
      own := RunKeepsTablesPlain(ram, events[..|events| - 1]);
      var r := Run(ram, events[..|events| - 1]);
      if r.Goes? { own := StepKeepsTablesPlain(r.world, own, events[|events| - 1]); }
    }
  }

  /** In every reachable state no entry of any table of any tree has the page-size or the no-execute bit, or any other
      bit but `p`, `rw`, `us` and `address`. */
  lemma TablesHaveNoOtherBits(ram: Ram, events: seq<Event>, c: nat, q: Path, i: nat)
    requires forall i :: 0 <= i < |events| ==> Valid(events[i])
    requires Run(ram, events).Goes? && i < 512 && Depth(q) <= 3
    requires c in Run(ram, events).world.live || c == Run(ram, events).world.kernel.root
    ensures var m := Run(ram, events).world.mem;
            Node(m.ram, c, q).At? ==> PlainWord(Read(m.ram, Node(m.ram, c, q).frame, i))
  {
    var own := RunKeepsTablesPlain(ram, events);
    var w := Run(ram, events).world;
    if Node(w.mem.ram, c, q).At? {
      TreesHaveKnownTables(w.mem, w.kernel, w.live, own, c);
      assert TableAt(own, c, q, Node(w.mem.ram, c, q).frame);
      assert TablePlain(w.mem.ram, own, Node(w.mem.ram, c, q).frame);
    }
  }
}
