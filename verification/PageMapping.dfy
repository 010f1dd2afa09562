/** `add_page` as an update of the finite map that a tree of tables denotes. */
module PageMapping {
  import opened PhysicalMemory
  import opened PageTables
  import opened FrameOwnership

  /** `q` lies on the way down to `page` (or is `page`). */
  predicate OnPath(q: Path, page: Path) {
    q == page || (page.Sub? && OnPath(q, page.up))
  }

  /** In tree `c` every node on the way to `page` is now there; those that were there, and all other
      nodes of all trees, are as they were. */
  ghost predicate ExtendsTo(before: Ram, after: Ram, c: nat, page: Path, r: nat) {
    forall q :: Depth(q) <= 4 ==>
      if r == c && OnPath(q, page) && Node(before, c, q).Absent? then Node(after, c, q).At?
      else Node(after, r, q) == Node(before, r, q)
  }

  /** How many nodes on the way to `q` are not there yet. */
  function Missing(ram: Ram, root: nat, q: Path): nat {
    if q.Top? then 0
    else Missing(ram, root, q.up) + if Node(ram, root, q).Absent? then 1 else 0
  }

  predicate IndicesFit(q: Path) {
    q.Sub? ==> q.idx < 512 && IndicesFit(q.up)
  }

  lemma SharedEntriesPresent(m: Mem, k: Kernel, live: set<nat>, own: seq<Owner>, c: nat, p: Path, i: nat)
    requires Inv(m, k, live, own) && c in live
    requires Depth(p) <= 3 && KernelHalf(p) && Node(m.ram, c, p).At? && i < 512
    ensures Read(m.ram, Node(m.ram, c, p).frame, i).p
    ensures Read(m.ram, Node(m.ram, c, p).frame, i).address == p.idx * 512 + i
  {
    KernelHalfDepth(p);
    assert TreeOk(m.ram, k, own, c);
    assert NodeFits(m.ram, k, own, c, p);
    assert SharedTableOk(m.ram, k.shared[p.idx], p.idx, own);
  }

  lemma TopOfStackIsFree(m: Mem, k: Kernel, live: set<nat>, own: seq<Owner>)
    requires Inv(m, k, live, own) && |m.stack| >= 2
    ensures var top := m.stack[|m.stack| - 1];
            Aligned(top) && FIRST_FRAME < FrameOf(top) < FRAMES
            && own[FrameOf(top)] == Free(|m.stack| - 1)
  {
    assert HoldsFree(m.stack[|m.stack| - 1], |m.stack| - 1, own);
    assert HoldsFree(m.stack[0], 0, own);
  }

  /** Setting `p`, `rw` and `us` before the new frame is cleared is the same as writing the entry once. */
  lemma MarkingFirstIsHarmless(ram: Ram, t: nat, i: nat, f: nat, marked: Entry, e: Entry)
    requires t < FRAMES && i < 512 && f < FRAMES && t != f
    ensures Read(ZeroFrame(Write(ram, t, i, marked), f), t, i) == marked
    ensures Write(ZeroFrame(Write(ram, t, i, marked), f), t, i, e) == Grafted(ram, t, i, f, e)
  {
    assert ram[t][i := marked][i := e] == ram[t][i := e];
  }

  /** The top frame of the stack has become exactly one new node, with the flags asked for. */
  ghost predicate Linked(m: Mem, k: Kernel, live: set<nat>, own: seq<Owner>, c: nat, p: Path, i: nat, us: bool,
                         rw: bool, m': Mem, f: nat, own': seq<Owner>)
    requires |own| == FRAMES && Node(m.ram, c, p).At?
  {
    var t := Node(m.ram, c, p).frame;
    && |m.stack| >= 2 && m'.stack == m.stack[..|m.stack| - 1] && PageAddress(f) == m.stack[|m.stack| - 1]
    && t < FRAMES && f < FRAMES && own[f].Free? && own' == own[f := Owned(c, Sub(p, i))]
    && m'.ram == Grafted(m.ram, t, i, f, Read(m.ram, t, i).(p := true, rw := rw, us := us, address := f))
    && OneNodeMore(m.ram, m'.ram, k, live, c, Sub(p, i), f)
  }

  ghost predicate OneNodeMore(before: Ram, after: Ram, k: Kernel, live: set<nat>, c: nat, q: Path, f: nat) {
    forall r, x :: (r in live || r == k.root) && Depth(x) <= 4 ==>
      Node(after, r, x) == if r == c && x == q then At(f) else Node(before, r, x)
  }

  /** One step of `add_page`: nothing happens when the entry is there; otherwise one frame is linked in. */
  lemma EnsureEntryKeepsOwnership(m: Mem, k: Kernel, live: set<nat>, own: seq<Owner>, c: nat, p: Path, i: nat,
                                  us: bool, rw: bool)
    returns (own': seq<Owner>)
    requires Inv(m, k, live, own) && c in live
    requires Depth(p) <= 3 && Node(m.ram, c, p).At? && i < 512
    ensures match EnsureEntry(m, Node(m.ram, c, p).frame, i, us, rw)
            case OutOfMemory => Node(m.ram, c, Sub(p, i)).Absent? && |m.stack| == 1
            case Got(m', f) =>
              && Inv(m', k, live, own')
              && (Node(m.ram, c, Sub(p, i)).At? ==> m' == m && own' == own && Node(m.ram, c, Sub(p, i)) == At(f))
              && (Node(m.ram, c, Sub(p, i)).Absent? ==> Linked(m, k, live, own, c, p, i, us, rw, m', f, own'))
  {
    var t := Node(m.ram, c, p).frame;
    own' := own;
    if Node(m.ram, c, Sub(p, i)).Absent? && |m.stack| >= 2 {
      assert TreeOk(m.ram, k, own, c) && NodeFits(m.ram, k, own, c, p);
      if KernelHalf(p) { SharedEntriesPresent(m, k, live, own, c, p, i); }
      assert p == FIRST_L2 && i < 6 ==> SharedAt(m.ram, k, c, i);
      own' := LinkFrame(m, k, live, own, c, p, i, us, rw);
    }
  }

  lemma LinkFrame(m: Mem, k: Kernel, live: set<nat>, own: seq<Owner>, c: nat, p: Path, i: nat, us: bool, rw: bool)
    returns (own': seq<Owner>)
    requires Inv(m, k, live, own) && c in live && |m.stack| >= 2
    requires Depth(p) <= 3 && Node(m.ram, c, p).At? && i < 512 && Node(m.ram, c, Sub(p, i)).Absent?
    requires !KernelHalf(Sub(p, i))
    requires Node(m.ram, c, p).frame < FRAMES && own[Node(m.ram, c, p).frame] == Owned(c, p)
    ensures var r := EnsureEntry(m, Node(m.ram, c, p).frame, i, us, rw);
            r.Got? && Inv(r.mem, k, live, own') && Linked(m, k, live, own, c, p, i, us, rw, r.mem, r.at, own')
  {
    var t := Node(m.ram, c, p).frame;
    var f := FrameOf(m.stack[|m.stack| - 1]);
    var e := Read(m.ram, t, i).(p := true, rw := rw, us := us, address := f);
    TopOfStackIsFree(m, k, live, own);
    own' := own[f := Owned(c, Sub(p, i))];
    MarkingFirstIsHarmless(m.ram, t, i, f, Read(m.ram, t, i).(p := true, rw := rw, us := us), e);
    var m' := Mem(Grafted(m.ram, t, i, f, e), m.stack[..|m.stack| - 1]);
    assert EnsureEntry(m, t, i, us, rw) == Got(m', f);
    forall r, q | (r in live || r == k.root) && Depth(q) <= 4
      ensures Node(m'.ram, r, q) == if r == c && q == Sub(p, i) then At(f) else Node(m.ram, r, q)
    {
      TreesHaveKnownTables(m, k, live, own, r);
      GraftAddsOneNode(m.ram, own, r, c, p, t, i, f, e, q);
    }
    GraftKeepsInv(m, m', k, live, own, c, p, t, i, f, e);
  }

  /** The facts about one grafted entry that ownership is preserved from. */
  ghost predicate GraftStep(m: Mem, m': Mem, k: Kernel, live: set<nat>, own: seq<Owner>, c: nat, p: Path,
                            t: nat, i: nat, f: nat, e: Entry) {
    && Inv(m, k, live, own) && c in live && |m.stack| >= 2
    && Depth(p) <= 3 && i < 512 && !KernelHalf(Sub(p, i))
    && Node(m.ram, c, Sub(p, i)).Absent?
    && t < FRAMES && own[t] == Owned(c, p)
    && FIRST_FRAME < f < FRAMES && own[f] == Free(|m.stack| - 1)
    && m'.ram == Grafted(m.ram, t, i, f, e) && m'.stack == m.stack[..|m.stack| - 1]
    && OneNodeMore(m.ram, m'.ram, k, live, c, Sub(p, i), f)
  }

  lemma GraftedStack(m: Mem, m': Mem, k: Kernel, live: set<nat>, own: seq<Owner>, c: nat, p: Path,
                     t: nat, i: nat, f: nat, e: Entry)
    requires GraftStep(m, m', k, live, own, c, p, t, i, f, e)
    ensures StackOk(m'.stack, own[f := Owned(c, Sub(p, i))])
  {
    var own' := own[f := Owned(c, Sub(p, i))];
    assert HoldsFree(m.stack[0], 0, own);
    forall s | 0 <= s < |m'.stack| ensures HoldsFree(m'.stack[s], s, own') {
      assert HoldsFree(m.stack[s], s, own);
    }
  }

  lemma GraftedShared(m: Mem, m': Mem, k: Kernel, live: set<nat>, own: seq<Owner>, c: nat, p: Path,
                      t: nat, i: nat, f: nat, e: Entry)
    requires GraftStep(m, m', k, live, own, c, p, t, i, f, e)
    ensures SharedOk(m'.ram, k, own[f := Owned(c, Sub(p, i))])
  {
    forall j | 0 <= j < 6 ensures SharedTableOk(m'.ram, k.shared[j], j, own[f := Owned(c, Sub(p, i))]) {
      assert SharedTableOk(m.ram, k.shared[j], j, own);
      forall x | 0 <= x < 512 ensures Read(m'.ram, k.shared[j], x) == Read(m.ram, k.shared[j], x) {
        assert m'.ram[k.shared[j]] == m.ram[k.shared[j]];
      }
    }
  }

  lemma GraftedTree(m: Mem, m': Mem, k: Kernel, live: set<nat>, own: seq<Owner>, c: nat, p: Path,
                    t: nat, i: nat, f: nat, e: Entry, r: nat)
    requires GraftStep(m, m', k, live, own, c, p, t, i, f, e)
    requires r in live
    ensures TreeOk(m'.ram, k, own[f := Owned(c, Sub(p, i))], r)
  {
    var own' := own[f := Owned(c, Sub(p, i))];
    assert TreeOk(m.ram, k, own, r);
    forall q ensures NodeFits(m'.ram, k, own', r, q) {
      assert NodeFits(m.ram, k, own, r, q);
    }
    forall j | 0 <= j < 6 ensures SharedAt(m'.ram, k, r, j) {
      assert SharedAt(m.ram, k, r, j);
      assert Depth(FIRST_L2) == 2;
      assert KernelHalf(Sub(FIRST_L2, j));
    }
  }

  lemma GraftedKernelTree(m: Mem, m': Mem, k: Kernel, live: set<nat>, own: seq<Owner>, c: nat, p: Path,
                          t: nat, i: nat, f: nat, e: Entry)
    requires GraftStep(m, m', k, live, own, c, p, t, i, f, e)
    ensures KernelTreeOk(m'.ram, own[f := Owned(c, Sub(p, i))], k.root)
  {
    var own' := own[f := Owned(c, Sub(p, i))];
    forall q ensures KernelNodeFits(m'.ram, own', k.root, q) {
      assert KernelNodeFits(m.ram, own, k.root, q);
    }
    forall i2, i1 | 0 <= i2 < 257 && 0 <= i1 < 512 ensures IdentityAt(m'.ram, k.root, i2, i1) {
      assert IdentityAt(m.ram, k.root, i2, i1);
    }
  }

  lemma GraftedAccounts(m: Mem, m': Mem, k: Kernel, live: set<nat>, own: seq<Owner>, c: nat, p: Path,
                        t: nat, i: nat, f: nat, e: Entry, g: nat)
    requires GraftStep(m, m', k, live, own, c, p, t, i, f, e)
    requires g < FRAMES
    ensures Accounted(m', k, live, own[f := Owned(c, Sub(p, i))], g)
  {
    assert Accounted(m, k, live, own, g);
    assert Accounted(m, k, live, own, f);
  }

  lemma GraftKeepsInv(m: Mem, m': Mem, k: Kernel, live: set<nat>, own: seq<Owner>, c: nat, p: Path,
                      t: nat, i: nat, f: nat, e: Entry)
    requires GraftStep(m, m', k, live, own, c, p, t, i, f, e)
    ensures Inv(m', k, live, own[f := Owned(c, Sub(p, i))])
  {
    GraftedStack(m, m', k, live, own, c, p, t, i, f, e);
    GraftedShared(m, m', k, live, own, c, p, t, i, f, e);
    GraftedKernelTree(m, m', k, live, own, c, p, t, i, f, e);
    forall r | r in live ensures TreeOk(m'.ram, k, own[f := Owned(c, Sub(p, i))], r) {
      GraftedTree(m, m', k, live, own, c, p, t, i, f, e, r);
    }
    var own' := own[f := Owned(c, Sub(p, i))];
    forall g | 0 <= g < FRAMES ensures Accounted(m', k, live, own', g) {
      GraftedAccounts(m, m', k, live, own, c, p, t, i, f, e, g);
    }
  }

  lemma OnPathDepth(q: Path, page: Path)
    requires OnPath(q, page)
    ensures Depth(q) <= Depth(page)
  {
  }

  /** The outcome of filling in the path to `q`: one frame popped for each missing level, ownership kept,
      and nothing changed but the missing nodes. */
  ghost predicate Filled(m: Mem, k: Kernel, live: set<nat>, own: seq<Owner>, c: nat, q: Path,
                         m': Mem, f: nat, own': seq<Owner>)
    requires |own| == FRAMES && |own'| == FRAMES
  {
    && |m.stack| > Missing(m.ram, c, q)
    && m'.stack == m.stack[..|m.stack| - Missing(m.ram, c, q)]
    && Node(m'.ram, c, q) == At(f)
    && (Missing(m.ram, c, q) == 0 ==> m' == m && own' == own)
    && (Node(m.ram, c, q).Absent? ==> PageAddress(f) == m.stack[|m'.stack|])
    && (forall r :: r in live || r == k.root ==> ExtendsTo(m.ram, m'.ram, c, q, r))
    && (forall g :: 0 <= g < FRAMES && !own[g].Free? ==> own'[g] == own[g])
  }

  /** The last step of a fill: the entry for `q` in the table its path has reached. */
  lemma FillNext(m: Mem, k: Kernel, live: set<nat>, own: seq<Owner>, c: nat, q: Path, us: bool, rw: bool,
                 m1: Mem, t: nat, own1: seq<Owner>)
    returns (own': seq<Owner>)
    requires |own| == FRAMES && c in live && Inv(m1, k, live, own1)
    requires q.Sub? && Depth(q) <= 4 && q.idx < 512
    requires Filled(m, k, live, own, c, q.up, m1, t, own1)
    ensures match EnsureEntry(m1, t, q.idx, us, rw)
            case OutOfMemory => |m.stack| <= Missing(m.ram, c, q)
            case Got(m', f) => Inv(m', k, live, own') && Filled(m, k, live, own, c, q, m', f, own')
  {
    SameAtTheEnd(m, m1, c, q);
    own' := EnsureEntryKeepsOwnership(m1, k, live, own1, c, q.up, q.idx, us, rw);
    match EnsureEntry(m1, t, q.idx, us, rw)
    case OutOfMemory =>
    case Got(m', f) =>
      if Node(m.ram, c, q).At? {
        AbsentNowhereAbove(m.ram, c, q);
        assert Filled(m, k, live, own, c, q, m', f, own');
      } else {
        FillStep(m, k, live, own, c, q, us, rw, m1, t, own1, m', f, own');
      }
  }

  /** Filling a path succeeds exactly when the stack has a poppable frame per missing level. */
  lemma {:induction false} FillExtends(m: Mem, k: Kernel, live: set<nat>, own: seq<Owner>, c: nat, q: Path,
                                       us: bool, rw: bool)
    returns (own': seq<Owner>)
    requires Inv(m, k, live, own) && c in live
    requires Depth(q) <= 4 && IndicesFit(q)
    ensures match Fill(m, c, q, us, rw)
            case OutOfMemory => |m.stack| <= Missing(m.ram, c, q)
            case Got(m', f) => Inv(m', k, live, own') && Filled(m, k, live, own, c, q, m', f, own')
  {
    own' := own;
    if q.Sub? {
      var own1 := FillExtends(m, k, live, own, c, q.up, us, rw);
      var above := Fill(m, c, q.up, us, rw);
      if above.Got? {
        own' := FillNext(m, k, live, own, c, q, us, rw, above.mem, above.at, own1);
      }
    }
  }

  lemma SameAtTheEnd(m: Mem, m1: Mem, c: nat, q: Path)
    requires q.Sub? && Depth(q) <= 4 && ExtendsTo(m.ram, m1.ram, c, q.up, c)
    ensures Node(m1.ram, c, q) == Node(m.ram, c, q)
  {
    if OnPath(q, q.up) { OnPathDepth(q, q.up); }
  }

  lemma FillStep(m: Mem, k: Kernel, live: set<nat>, own: seq<Owner>, c: nat, q: Path, us: bool, rw: bool,
                 m1: Mem, t: nat, own1: seq<Owner>, m': Mem, f: nat, own': seq<Owner>)
    requires |own| == FRAMES && |own1| == FRAMES && |own'| == FRAMES && c in live
    requires q.Sub? && Depth(q) <= 4 && Node(m.ram, c, q).Absent?
    requires Filled(m, k, live, own, c, q.up, m1, t, own1)
    requires Linked(m1, k, live, own1, c, q.up, q.idx, us, rw, m', f, own')
    ensures Filled(m, k, live, own, c, q, m', f, own')
  {
    forall r | r in live || r == k.root ensures ExtendsTo(m.ram, m'.ram, c, q, r) {
      assert ExtendsTo(m.ram, m1.ram, c, q.up, r);
    }
  }

  lemma {:induction false} AbsentNowhereAbove(ram: Ram, r: nat, q: Path)
    requires Node(ram, r, q).At?
    ensures Missing(ram, r, q) == 0
  {
    if q.Sub? { AbsentNowhereAbove(ram, r, q.up); }
  }

  predicate SamePage(a: VirtualAddress, b: VirtualAddress) {
    a.l4 == b.l4 && a.l3 == b.l3 && a.l2 == b.l2 && a.l1 == b.l1
  }

  lemma PathsFit(va: VirtualAddress)
    requires FieldsFit(va)
    ensures Depth(PathOf(va)) == 4 && IndicesFit(PathOf(va))
  {
    assert IndicesFit(Sub(Sub(Top, va.l4), va.l3)) by { assert IndicesFit(Sub(Top, va.l4)); }
    assert IndicesFit(Sub(Sub(Sub(Top, va.l4), va.l3), va.l2));
  }

  lemma OnlyPageOnPath(a: VirtualAddress, b: VirtualAddress)
    requires OnPath(PathOf(a), PathOf(b))
    ensures SamePage(a, b)
  {
    assert Depth(PathOf(b)) == Depth(PathOf(b).up) + 1;
    if PathOf(a) != PathOf(b) { OnPathDepth(PathOf(a), PathOf(b).up); }
  }

  /** A page that was not there is a cleared frame from the top of the stack. */
  lemma NewPageIsClear(m: Mem, k: Kernel, live: set<nat>, own: seq<Owner>, c: nat, q: Path, us: bool, rw: bool)
    requires Inv(m, k, live, own) && c in live && Depth(q) == 4 && IndicesFit(q)
    ensures var r := Fill(m, c, q, us, rw);
            r.Got? && Node(m.ram, c, q).Absent? ==>
              r.at < FRAMES && r.mem.ram[r.at] == ZeroWords() && PageAddress(r.at) in m.stack
  {
    var above := Fill(m, c, q.up, us, rw);
    if Fill(m, c, q, us, rw).Got? && Node(m.ram, c, q).Absent? {
      var own1 := FillExtends(m, k, live, own, c, q.up, us, rw);
      SameAtTheEnd(m, above.mem, c, q);
      var own' := EnsureEntryKeepsOwnership(above.mem, k, live, own1, c, q.up, q.idx, us, rw);
      assert TreeOk(above.mem.ram, k, own1, c) && NodeFits(above.mem.ram, k, own1, c, q.up);
      TopOfStackIsFree(above.mem, k, live, own1);
    }
  }

  /** `add_page` updates the map from virtual to physical pages at one point. It stops the machine exactly
      when the stack cannot supply the missing levels; it takes a frame only for what is missing; every
      other page of every tree translates as before; asking again changes nothing. */
  lemma AddPageUpdatesTheMap(m: Mem, k: Kernel, live: set<nat>, own: seq<Owner>, c: nat, va: VirtualAddress,
                             us: bool, rw: bool)
    returns (own': seq<Owner>)
    requires Inv(m, k, live, own) && c in live && FieldsFit(va)
    ensures AddPage(m, c, va, us, rw).Got? <==> |m.stack| > Missing(m.ram, c, PathOf(va))
    ensures match AddPage(m, c, va, us, rw)
            case OutOfMemory => true
            case Got(m', page) =>
              && Inv(m', k, live, own')
              && m'.stack == m.stack[..|m.stack| - Missing(m.ram, c, PathOf(va))]
              && (forall r, x :: (r in live || r == k.root) && FieldsFit(x) ==>
                    Walk(m'.ram, r, x) == if r == c && SamePage(va, x) then To(page + x.offset) else Walk(m.ram, r, x))
              && (Walk(m.ram, c, va).To? ==> m' == m)
              && (Walk(m.ram, c, va).Unmapped? ==> page == m.stack[|m'.stack|])
              && (forall us', rw' :: AddPage(m', c, va, us', rw') == Got(m', page))
  {
    var p := PathOf(va);
    PathsFit(va);
    own' := FillExtends(m, k, live, own, c, p, us, rw);
    var r := Fill(m, c, p, us, rw);
    if r.Got? {
      WalksAfterFill(m, k, live, own, c, va, r.mem, r.at, own');
      if Node(m.ram, c, p).At? { AbsentNowhereAbove(m.ram, c, p); }
      forall us', rw' ensures AddPage(r.mem, c, va, us', rw') == Got(r.mem, PageAddress(r.at)) {
        FillPresent(r.mem, c, p, us', rw');
      }
    }
  }

  lemma WalksAfterFill(m: Mem, k: Kernel, live: set<nat>, own: seq<Owner>, c: nat, va: VirtualAddress,
                       m': Mem, f: nat, own': seq<Owner>)
    requires |own| == FRAMES && |own'| == FRAMES && c in live
    requires Filled(m, k, live, own, c, PathOf(va), m', f, own')
    ensures forall r, x :: (r in live || r == k.root) && FieldsFit(x) ==>
              Walk(m'.ram, r, x) ==
              if r == c && SamePage(va, x) then To(PageAddress(f) + x.offset) else Walk(m.ram, r, x)
  {
    forall r, x | (r in live || r == k.root) && FieldsFit(x)
      ensures Walk(m'.ram, r, x) ==
              if r == c && SamePage(va, x) then To(PageAddress(f) + x.offset) else Walk(m.ram, r, x)
    {
      PathsFit(x);
      assert ExtendsTo(m.ram, m'.ram, c, PathOf(va), r);
      if OnPath(PathOf(x), PathOf(va)) { OnlyPageOnPath(x, va); }
    }
  }

  /** Filling a path that is complete allocates nothing and finds the same frame. */
  lemma {:induction false} FillPresent(m: Mem, c: nat, q: Path, us: bool, rw: bool)
    requires Node(m.ram, c, q).At?
    ensures Fill(m, c, q, us, rw) == Got(m, Node(m.ram, c, q).frame)
  {
    if q.Sub? { FillPresent(m, c, q.up, us, rw); }
  }
}
