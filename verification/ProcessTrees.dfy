/** `create_pml4`: the tree a new process starts with. */
module ProcessTrees {
  import opened PhysicalMemory
  import opened PageTables
  import opened FrameOwnership
  import opened PageMapping

  function TableEntry(frame: nat): Entry {
    ZERO_WORD.(p := true, rw := true, us := false, address := frame % 0x100_0000_0000)
  }

  /** `generic_l2_table`: the first six entries point at the shared kernel tables, entry 2 for user use. */
  function GenericL2(ram: Ram, t: nat, k: Kernel): Ram
    requires |k.shared| == 6
  {
    if t >= FRAMES then ram
    else ram[t := seq<Entry>(512, j requires 0 <= j < 512 =>
      if j < 6 then ram[t][j].(p := true, rw := true, us := j == 2, address := k.shared[j] % 0x100_0000_0000)
      else ram[t][j])]
  }

  /** `create_pml4`: the frame of the new level 4 table. */
  function CreatePml4(m: Mem, k: Kernel): Alloc
    requires |k.shared| == 6
  {
    match PageAlloc(m)
    case OutOfMemory => OutOfMemory
    case Got(m4, l4) =>
      match PageAlloc(m4)
      case OutOfMemory => OutOfMemory
      case Got(m3, l3) =>
        match PageAlloc(m3)
        case OutOfMemory => OutOfMemory
        case Got(m2, l2) => Got(m2.(ram := LinkTables(m2.ram, k, FrameOf(l4), FrameOf(l3), FrameOf(l2))), FrameOf(l4))
  }

  function LinkTables(ram: Ram, k: Kernel, l4: nat, l3: nat, l2: nat): Ram
    requires |k.shared| == 6
  {
    GenericL2(Write(Write(ram, l4, 0, TableEntry(l3)), l3, 0, TableEntry(l2)), l2, k)
  }

  /** The nodes of a tree just built: the kernel half and the three tables above it. */
  function NewTreeNode(k: Kernel, l4: nat, l3: nat, l2: nat, q: Path): Reached
    requires |k.shared| == 6
  {
    if q == Top then At(l4)
    else if q == Sub(Top, 0) then At(l3)
    else if q == FIRST_L2 then At(l2)
    else if q.up == FIRST_L2 && q.idx < 6 then At(k.shared[q.idx])
    else if q.up.Sub? && q.up.up == FIRST_L2 && q.up.idx < 6 && q.idx < 512 then At(q.up.idx * 512 + q.idx)
    else Absent
  }

  /** Three cleared frames linked by `create_pml4`, as a table of entries. */
  ghost predicate LinkedEntries(ram: Ram, k: Kernel, l4: nat, l3: nat, l2: nat)
    requires |k.shared| == 6
  {
    && (forall j :: 0 <= j < 512 ==> Read(ram, l4, j) == if j == 0 then TableEntry(l3) else ZERO_WORD)
    && (forall j :: 0 <= j < 512 ==> Read(ram, l3, j) == if j == 0 then TableEntry(l2) else ZERO_WORD)
    && (forall j :: 0 <= j < 512 ==> Read(ram, l2, j).p == (j < 6))
    && (forall j :: 0 <= j < 6 ==>
          Read(ram, l2, j).address == k.shared[j] && Read(ram, l2, j).rw && Read(ram, l2, j).us == (j == 2))
  }

  lemma {:induction false} NewTreeNodes(ram: Ram, k: Kernel, own: seq<Owner>, l4: nat, l3: nat, l2: nat, q: Path)
    requires |own| == FRAMES && SharedOk(ram, k, own)
    requires l3 < FRAMES && l2 < FRAMES && LinkedEntries(ram, k, l4, l3, l2)
    requires Depth(q) <= 4
    ensures Node(ram, l4, q) == NewTreeNode(k, l4, l3, l2, q)
  {
    assert Depth(FIRST_L2) == 2;
    if q.Sub? {
      NewTreeNodes(ram, k, own, l4, l3, l2, q.up);
      if q.up.Sub? && q.up.up == FIRST_L2 && q.up.idx < 6 {
        assert SharedTableOk(ram, k.shared[q.up.idx], q.up.idx, own);
      }
    }
  }

  /** What building a tree from three free frames does to memory. */
  ghost predicate Built(m: Mem, k: Kernel, own: seq<Owner>, m': Mem, l4: nat, l3: nat, l2: nat) {
    && |own| == FRAMES && |m.stack| >= 4 && |k.shared| == 6
    && m'.stack == m.stack[..|m.stack| - 3]
    && FreeAbove(own, l4, |m.stack| - 1) && FreeAbove(own, l3, |m.stack| - 2) && FreeAbove(own, l2, |m.stack| - 3)
    && LinkedEntries(m'.ram, k, l4, l3, l2)
    && forall f :: 0 <= f < FRAMES && f != l4 && f != l3 && f != l2 ==> m'.ram[f] == m.ram[f]
  }

  lemma ThreeFramesOnTop(stack: seq<nat>, own: seq<Owner>)
    requires |own| == FRAMES && StackOk(stack, own) && |stack| >= 4
    ensures FreeAbove(own, FrameOf(stack[|stack| - 1]), |stack| - 1)
    ensures FreeAbove(own, FrameOf(stack[|stack| - 2]), |stack| - 2)
    ensures FreeAbove(own, FrameOf(stack[|stack| - 3]), |stack| - 3)
  {
    assert HoldsFree(stack[0], 0, own) && HoldsFree(stack[|stack| - 1], |stack| - 1, own);
    assert HoldsFree(stack[|stack| - 2], |stack| - 2, own) && HoldsFree(stack[|stack| - 3], |stack| - 3, own);
  }

  ghost predicate FreeAbove(own: seq<Owner>, f: nat, slot: nat)
    requires |own| == FRAMES
  {
    FIRST_FRAME < f < FRAMES && own[f] == Free(slot)
  }

  lemma CreatePml4Builds(m: Mem, k: Kernel, own: seq<Owner>)
    returns (l3: nat, l2: nat)
    requires |own| == FRAMES && StackOk(m.stack, own) && SharedOk(m.ram, k, own)
    ensures CreatePml4(m, k).Got? <==> |m.stack| >= 4
    ensures CreatePml4(m, k).Got? ==> Built(m, k, own, CreatePml4(m, k).mem, CreatePml4(m, k).at, l3, l2)
  {
    l3, l2 := 0, 0;
    if |m.stack| >= 4 {
      var n := |m.stack|;
      ThreeFramesOnTop(m.stack, own);
      var l4 := FrameOf(m.stack[n - 1]);
      l3, l2 := FrameOf(m.stack[n - 2]), FrameOf(m.stack[n - 3]);
      CreatePml4Pops(m, k);
      ThreeFramesBuild(m, k, own, l4, l3, l2);
    }
  }

  lemma ThreeFramesBuild(m: Mem, k: Kernel, own: seq<Owner>, l4: nat, l3: nat, l2: nat)
    requires |own| == FRAMES && SharedOk(m.ram, k, own) && |m.stack| >= 4
    requires FreeAbove(own, l4, |m.stack| - 1) && FreeAbove(own, l3, |m.stack| - 2)
    requires FreeAbove(own, l2, |m.stack| - 3)
    ensures var linked := LinkTables(ZeroFrame(ZeroFrame(ZeroFrame(m.ram, l4), l3), l2), k, l4, l3, l2);
            Built(m, k, own, Mem(linked, m.stack[..|m.stack| - 3]), l4, l3, l2)
  {
    SharedFramesFit(m.ram, k, own);
    LinkTablesEntries(ZeroFrame(ZeroFrame(ZeroFrame(m.ram, l4), l3), l2), k, l4, l3, l2);
  }

  lemma CreatePml4Pops(m: Mem, k: Kernel)
    requires |m.stack| >= 4 && |k.shared| == 6
    ensures var n := |m.stack|;
            var l4, l3, l2 := FrameOf(m.stack[n - 1]), FrameOf(m.stack[n - 2]), FrameOf(m.stack[n - 3]);
            CreatePml4(m, k) ==
            Got(Mem(LinkTables(ZeroFrame(ZeroFrame(ZeroFrame(m.ram, l4), l3), l2), k, l4, l3, l2), m.stack[..n - 3]),
                l4)
  {
    var n := |m.stack|;
    assert m.stack[..n - 1][..n - 2] == m.stack[..n - 2];
    assert m.stack[..n - 2][..n - 3] == m.stack[..n - 3];
  }

  lemma SharedFramesFit(ram: Ram, k: Kernel, own: seq<Owner>)
    requires |own| == FRAMES && SharedOk(ram, k, own)
    ensures forall i :: 0 <= i < 6 ==> k.shared[i] < FRAMES
  {
    forall i | 0 <= i < 6 ensures k.shared[i] < FRAMES { assert SharedTableOk(ram, k.shared[i], i, own); }
  }

  lemma LinkTablesEntries(ram: Ram, k: Kernel, l4: nat, l3: nat, l2: nat)
    requires l4 < FRAMES && l3 < FRAMES && l2 < FRAMES && l4 != l3 && l4 != l2 && l3 != l2
    requires |k.shared| == 6 && forall i :: 0 <= i < 6 ==> k.shared[i] < FRAMES
    requires ram[l4] == ZeroWords() && ram[l3] == ZeroWords() && ram[l2] == ZeroWords()
    ensures LinkedEntries(LinkTables(ram, k, l4, l3, l2), k, l4, l3, l2)
    ensures forall f :: 0 <= f < FRAMES && f != l4 && f != l3 && f != l2 ==> LinkTables(ram, k, l4, l3, l2)[f] == ram[f]
  {
  }

  function OwnersBuilt(own: seq<Owner>, l4: nat, l3: nat, l2: nat): seq<Owner>
    requires l4 < |own| && l3 < |own| && l2 < |own|
  {
    own[l4 := Owned(l4, Top)][l3 := Owned(l4, Sub(Top, 0))][l2 := Owned(l4, FIRST_L2)]
  }

  lemma BuiltStack(m: Mem, k: Kernel, own: seq<Owner>, m': Mem, l4: nat, l3: nat, l2: nat)
    requires Built(m, k, own, m', l4, l3, l2) && StackOk(m.stack, own)
    ensures StackOk(m'.stack, OwnersBuilt(own, l4, l3, l2))
  {
    assert HoldsFree(m.stack[0], 0, own);
    forall s | 0 <= s < |m'.stack| ensures HoldsFree(m'.stack[s], s, OwnersBuilt(own, l4, l3, l2)) {
      assert HoldsFree(m.stack[s], s, own);
    }
  }

  lemma BuiltShared(m: Mem, k: Kernel, own: seq<Owner>, m': Mem, l4: nat, l3: nat, l2: nat)
    requires Built(m, k, own, m', l4, l3, l2) && SharedOk(m.ram, k, own)
    ensures SharedOk(m'.ram, k, OwnersBuilt(own, l4, l3, l2))
  {
    forall j | 0 <= j < 6 ensures SharedTableOk(m'.ram, k.shared[j], j, OwnersBuilt(own, l4, l3, l2)) {
      assert SharedTableOk(m.ram, k.shared[j], j, own);
      forall x | 0 <= x < 512 ensures Read(m'.ram, k.shared[j], x) == Read(m.ram, k.shared[j], x) {
        assert m'.ram[k.shared[j]] == m.ram[k.shared[j]];
      }
    }
  }

  lemma NewTreeKernelHalf(k: Kernel, l4: nat, l3: nat, l2: nat, q: Path)
    requires |k.shared| == 6 && Depth(q) <= 4 && NewTreeNode(k, l4, l3, l2, q).At?
    ensures KernelHalf(q) <==> Depth(q) >= 3
    ensures Depth(q) == 3 ==> q.up == FIRST_L2 && q.idx < 6
  {
    assert Depth(FIRST_L2) == 2;
    if KernelHalf(q) { KernelHalfDepth(q); }
    if q.Sub? && q.up.Sub? && q.up.up == FIRST_L2 {
      assert q.up.idx < 6 ==> KernelHalf(q.up);
    }
  }

  lemma BuiltTree(m: Mem, k: Kernel, own: seq<Owner>, m': Mem, l4: nat, l3: nat, l2: nat)
    requires Built(m, k, own, m', l4, l3, l2) && SharedOk(m.ram, k, own)
    ensures TreeOk(m'.ram, k, OwnersBuilt(own, l4, l3, l2), l4)
    ensures forall q :: Depth(q) <= 4 ==> Node(m'.ram, l4, q) == NewTreeNode(k, l4, l3, l2, q)
  {
    var own' := OwnersBuilt(own, l4, l3, l2);
    BuiltShared(m, k, own, m', l4, l3, l2);
    forall q
      ensures Depth(q) <= 4 ==> Node(m'.ram, l4, q) == NewTreeNode(k, l4, l3, l2, q)
      ensures NodeFits(m'.ram, k, own', l4, q)
    {
      if Depth(q) <= 4 {
        NewTreeNodes(m'.ram, k, own', l4, l3, l2, q);
        if NewTreeNode(k, l4, l3, l2, q).At? { NewTreeKernelHalf(k, l4, l3, l2, q); }
      }
    }
    forall i | 0 <= i < 6 ensures SharedAt(m'.ram, k, l4, i) {
      assert Depth(Sub(FIRST_L2, i)) == 3;
    }
  }

  /** Trees that were there before keep every node: the three frames were free. */
  lemma BuiltElsewhere(m: Mem, k: Kernel, live: set<nat>, own: seq<Owner>, m': Mem, l4: nat, l3: nat, l2: nat, r: nat,
                       q: Path)
    requires Built(m, k, own, m', l4, l3, l2) && Inv(m, k, live, own) && (r in live || r == k.root)
    requires Depth(q) <= 4
    ensures Node(m'.ram, r, q) == Node(m.ram, r, q)
  {
    TreesHaveKnownTables(m, k, live, own, r);
    OtherFramesDoNotMatter(m.ram, m'.ram, own, r, q);
  }

  lemma BuiltOtherTree(m: Mem, k: Kernel, live: set<nat>, own: seq<Owner>, m': Mem, l4: nat, l3: nat, l2: nat, r: nat)
    requires Built(m, k, own, m', l4, l3, l2) && Inv(m, k, live, own) && r in live
    ensures TreeOk(m'.ram, k, OwnersBuilt(own, l4, l3, l2), r)
  {
    var own' := OwnersBuilt(own, l4, l3, l2);
    assert TreeOk(m.ram, k, own, r);
    forall q ensures NodeFits(m'.ram, k, own', r, q) {
      if Depth(q) <= 4 { BuiltElsewhere(m, k, live, own, m', l4, l3, l2, r, q); }
      assert NodeFits(m.ram, k, own, r, q);
    }
    forall i | 0 <= i < 6 ensures SharedAt(m'.ram, k, r, i) {
      assert Depth(Sub(FIRST_L2, i)) == 3 && SharedAt(m.ram, k, r, i);
      BuiltElsewhere(m, k, live, own, m', l4, l3, l2, r, Sub(FIRST_L2, i));
    }
  }

  lemma BuiltKernelTree(m: Mem, k: Kernel, live: set<nat>, own: seq<Owner>, m': Mem, l4: nat, l3: nat, l2: nat)
    requires Built(m, k, own, m', l4, l3, l2) && Inv(m, k, live, own)
    ensures KernelTreeOk(m'.ram, OwnersBuilt(own, l4, l3, l2), k.root)
  {
    forall q ensures KernelNodeFits(m'.ram, OwnersBuilt(own, l4, l3, l2), k.root, q) {
      if Depth(q) <= 4 { BuiltElsewhere(m, k, live, own, m', l4, l3, l2, k.root, q); }
      assert KernelNodeFits(m.ram, own, k.root, q);
    }
    forall i, j | 0 <= i < 257 && 0 <= j < 512 ensures IdentityAt(m'.ram, k.root, i, j) {
      BuiltElsewhere(m, k, live, own, m', l4, l3, l2, k.root, PagePath(0, 0, i, j));
      assert IdentityAt(m.ram, k.root, i, j);
    }
  }

  lemma BuiltAccounts(m: Mem, k: Kernel, live: set<nat>, own: seq<Owner>, m': Mem, l4: nat, l3: nat, l2: nat, g: nat)
    requires Built(m, k, own, m', l4, l3, l2) && Inv(m, k, live, own) && g < FRAMES
    ensures Accounted(m', k, live + {l4}, OwnersBuilt(own, l4, l3, l2), g)
  {
    assert Accounted(m, k, live, own, g);
    BuiltTree(m, k, own, m', l4, l3, l2);
    assert Depth(FIRST_L2) == 2;
    assert Accounted(m, k, live, own, l4) && Accounted(m, k, live, own, l3) && Accounted(m, k, live, own, l2);
    if own[g].Owned? {
      BuiltElsewhere(m, k, live, own, m', l4, l3, l2, own[g].root, own[g].path);
    }
  }

  /** A new process tree: ownership is kept, the root is new, and its nodes are exactly the kernel half. */
  lemma CreatePml4KeepsOwnership(m: Mem, k: Kernel, live: set<nat>, own: seq<Owner>)
    returns (own': seq<Owner>, l3: nat, l2: nat)
    requires Inv(m, k, live, own)
    ensures CreatePml4(m, k).Got? <==> |m.stack| >= 4
    ensures match CreatePml4(m, k)
            case OutOfMemory => true
            case Got(m', c) =>
              && Built(m, k, own, m', c, l3, l2) && own' == OwnersBuilt(own, c, l3, l2)
              && c !in live && c != k.root
              && Inv(m', k, live + {c}, own')
              && (forall q :: Depth(q) <= 4 ==> Node(m'.ram, c, q) == NewTreeNode(k, c, l3, l2, q))
              && (forall r, q :: (r in live || r == k.root) && Depth(q) <= 4 ==>
                    Node(m'.ram, r, q) == Node(m.ram, r, q))
  {
    own' := own;
    l3, l2 := CreatePml4Builds(m, k, own);
    match CreatePml4(m, k)
    case OutOfMemory =>
    case Got(m', c) =>
      own' := OwnersBuilt(own, c, l3, l2);
      BuiltStack(m, k, own, m', c, l3, l2);
      BuiltShared(m, k, own, m', c, l3, l2);
      BuiltTree(m, k, own, m', c, l3, l2);
      BuiltKernelTree(m, k, live, own, m', c, l3, l2);
      NewRootIsNew(m, k, live, own, c);
      forall r | r in live ensures TreeOk(m'.ram, k, own', r) {
        BuiltOtherTree(m, k, live, own, m', c, l3, l2, r);
      }
      forall g | 0 <= g < FRAMES ensures Accounted(m', k, live + {c}, own', g) {
        BuiltAccounts(m, k, live, own, m', c, l3, l2, g);
      }
      forall r, q | (r in live || r == k.root) && Depth(q) <= 4 ensures Node(m'.ram, r, q) == Node(m.ram, r, q) {
        BuiltElsewhere(m, k, live, own, m', c, l3, l2, r, q);
      }
  }

  lemma LiveRootsAreOwned(m: Mem, k: Kernel, live: set<nat>, own: seq<Owner>, r: nat)
    requires Inv(m, k, live, own) && (r in live || r == k.root)
    ensures r < FRAMES && own[r] == Owned(r, Top)
  {
    assert Node(m.ram, r, Top) == At(r);
    if r in live {
      assert TreeOk(m.ram, k, own, r);
      assert NodeFits(m.ram, k, own, r, Top);
    } else {
      assert KernelNodeFits(m.ram, own, r, Top);
    }
  }

  lemma NewRootIsNew(m: Mem, k: Kernel, live: set<nat>, own: seq<Owner>, c: nat)
    requires Inv(m, k, live, own) && c < FRAMES && own[c].Free?
    ensures c !in live && c != k.root
  {
    if c in live || c == k.root {
      LiveRootsAreOwned(m, k, live, own, c);
      assert false;
    }
  }
}
