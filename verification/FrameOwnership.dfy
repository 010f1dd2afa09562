/** Who owns each physical frame. The owner of a frame names the one place that may hold it, so that
    disjointness of the free stack and of all trees follows from ownership being a function. */
module FrameOwnership {
  import opened PhysicalMemory
  import opened PageTables

  datatype Owner =
    | Low                             // below 12 MB: never handed out
    | Free(slot: nat)                 // at this slot of the frame stack
    | Shared(index: nat)              // one of the six kernel level 1 tables
    | Owned(root: nat, path: Path)    // table or page of the tree with this level 4 table
    | Lost                            // owned by no tree and not on the stack

  /** The six shared level 1 tables and the kernel's own identity tree (`originalCR3`). */
  datatype Kernel = Kernel(shared: seq<nat>, root: nat)

  /** The level 2 table that maps the first gigabyte. */
  const FIRST_L2: Path := Sub(Sub(Top, 0), 0)

  /** Paths through one of the six shared tables, which map [0, 12 MB). */
  predicate KernelHalf(q: Path) {
    q.Sub? && (KernelHalf(q.up) || (q.up == FIRST_L2 && q.idx < 6))
  }

  ghost predicate StackOk(stack: seq<nat>, own: seq<Owner>)
    requires |own| == FRAMES
  {
    && |stack| >= 1 && stack[0] == FIRST_ADDRESS
    && forall s :: 0 <= s < |stack| ==> HoldsFree(stack[s], s, own)
  }

  ghost predicate HoldsFree(address: nat, slot: nat, own: seq<Owner>)
    requires |own| == FRAMES
  {
    && Aligned(address) && FIRST_FRAME <= FrameOf(address) < FRAMES
    && own[FrameOf(address)] == Free(slot)
  }

  ghost predicate SharedOk(ram: Ram, k: Kernel, own: seq<Owner>)
    requires |own| == FRAMES
  {
    && |k.shared| == 6
    && forall i :: 0 <= i < 6 ==> SharedTableOk(ram, k.shared[i], i, own)
  }

  ghost predicate SharedTableOk(ram: Ram, t: nat, i: nat, own: seq<Owner>)
    requires |own| == FRAMES
  {
    && t < FRAMES && own[t] == Shared(i)
    && forall j :: 0 <= j < 512 ==> Read(ram, t, j).p && Read(ram, t, j).address == i * 512 + j
  }

  ghost predicate NodeOk(k: Kernel, own: seq<Owner>, c: nat, q: Path, f: nat)
    requires |own| == FRAMES
  {
    if KernelHalf(q) then Depth(q) == 3 ==> q.idx < |k.shared| && f == k.shared[q.idx]
    else FIRST_FRAME < f < FRAMES && own[f] == Owned(c, q)
  }

  ghost predicate NodeFits(ram: Ram, k: Kernel, own: seq<Owner>, c: nat, q: Path)
    requires |own| == FRAMES
  {
    Depth(q) <= 4 && Node(ram, c, q).At? ==> NodeOk(k, own, c, q, Node(ram, c, q).frame)
  }

  ghost predicate SharedAt(ram: Ram, k: Kernel, c: nat, i: nat) {
    i < |k.shared| && Node(ram, c, Sub(FIRST_L2, i)) == At(k.shared[i])
  }

  /** A process tree: every reachable frame is owned at its path, and the kernel half is shared. */
  ghost predicate TreeOk(ram: Ram, k: Kernel, own: seq<Owner>, c: nat)
    requires |own| == FRAMES
  {
    && |k.shared| == 6
    && (forall q :: NodeFits(ram, k, own, c, q))
    && (forall i :: 0 <= i < 6 ==> SharedAt(ram, k, c, i))
  }

  /** The identity tree owns its tables; its pages are aliases of memory others own. */
  ghost predicate KernelTreeOk(ram: Ram, own: seq<Owner>, root: nat)
    requires |own| == FRAMES
  {
    && (forall q :: KernelNodeFits(ram, own, root, q))
    && (forall i, j :: 0 <= i < 257 && 0 <= j < 512 ==> IdentityAt(ram, root, i, j))
  }

  ghost predicate KernelNodeFits(ram: Ram, own: seq<Owner>, root: nat, q: Path)
    requires |own| == FRAMES
  {
    Depth(q) <= 3 && Node(ram, root, q).At? ==>
      FIRST_FRAME < Node(ram, root, q).frame < FRAMES && own[Node(ram, root, q).frame] == Owned(root, q)
  }

  ghost predicate IdentityAt(ram: Ram, root: nat, i: nat, j: nat) {
    Node(ram, root, PagePath(0, 0, i, j)) == At(i * 512 + j)
  }

  /** Nothing is lost: each frame is where its owner says. */
  ghost predicate Accounted(m: Mem, k: Kernel, live: set<nat>, own: seq<Owner>, f: nat)
    requires |own| == FRAMES && f < FRAMES
  {
    match own[f]
    case Low => f < FIRST_FRAME
    case Free(s) => s < |m.stack| && m.stack[s] == PageAddress(f)
    case Shared(i) => i < |k.shared| && k.shared[i] == f
    case Owned(c, q) => (c in live || c == k.root) && Depth(q) <= 4 && Node(m.ram, c, q) == At(f)
    case Lost => true
  }

  ghost predicate Inv(m: Mem, k: Kernel, live: set<nat>, own: seq<Owner>) {
    && |own| == FRAMES
    && (forall f :: 0 <= f < FIRST_FRAME ==> own[f] == Low)
    && StackOk(m.stack, own)
    && SharedOk(m.ram, k, own)
    && k.root !in live
    && KernelTreeOk(m.ram, own, k.root)
    && (forall c :: c in live ==> TreeOk(m.ram, k, own, c))
    && (forall f :: 0 <= f < FRAMES ==> Accounted(m, k, live, own, f))
  }

  /** What the table-reading part of a tree needs of ownership: its tables are known to be tables. */
  ghost predicate TablesKnown(ram: Ram, own: seq<Owner>, r: nat) {
    && |own| == FRAMES
    && forall q :: Depth(q) <= 3 && Node(ram, r, q).At? ==> TableAt(own, r, q, Node(ram, r, q).frame)
  }

  ghost predicate TableAt(own: seq<Owner>, r: nat, q: Path, f: nat)
    requires |own| == FRAMES
  {
    f < FRAMES && (own[f] == Owned(r, q) || own[f].Shared?)
  }

  lemma KernelHalfDepth(q: Path)
    requires KernelHalf(q)
    ensures Depth(q) >= 3
    ensures Depth(q) == 3 ==> q.up == FIRST_L2 && q.idx < 6
    ensures Depth(q) == 4 ==> KernelHalf(q.up)
  {
    if q.up != FIRST_L2 || q.idx >= 6 {
      KernelHalfDepth(q.up);
    }
    assert Depth(FIRST_L2) == 2;
  }

  lemma TreesHaveKnownTables(m: Mem, k: Kernel, live: set<nat>, own: seq<Owner>, r: nat)
    requires Inv(m, k, live, own)
    requires r in live || r == k.root
    ensures TablesKnown(m.ram, own, r)
  {
    forall q | Depth(q) <= 3 && Node(m.ram, r, q).At?
      ensures TableAt(own, r, q, Node(m.ram, r, q).frame)
    {
      if r in live {
        assert TreeOk(m.ram, k, own, r);
        assert NodeFits(m.ram, k, own, r, q);
        if KernelHalf(q) {
          KernelHalfDepth(q);
          assert SharedTableOk(m.ram, k.shared[q.idx], q.idx, own);
        }
      } else {
        assert KernelNodeFits(m.ram, own, r, q);
      }
    }
  }

  /** Memory after entry `i` of table `t` is made to point at the cleared frame `f`. */
  function Grafted(ram: Ram, t: nat, i: nat, f: nat, e: Entry): Ram {
    Write(ZeroFrame(ram, f), t, i, e)
  }

  /** Pointing an absent entry at a cleared free frame adds exactly one node, in exactly one tree. */
  lemma {:induction false} GraftAddsOneNode(ram: Ram, own: seq<Owner>, r: nat, c: nat, p: Path, t: nat, i: nat,
                                            f: nat, e: Entry, q: Path)
    requires TablesKnown(ram, own, r)
    requires t < FRAMES && i < 512 && f < FRAMES
    requires own[t] == Owned(c, p) && Node(ram, c, p) == At(t) && !Read(ram, t, i).p
    requires own[f].Free? && e.p && e.address == f
    requires Depth(q) <= 4
    ensures Node(Grafted(ram, t, i, f, e), r, q) ==
            if r == c && q == Sub(p, i) then At(f) else Node(ram, r, q)
  {
    if q.Sub? {
      GraftAddsOneNode(ram, own, r, c, p, t, i, f, e, q.up);
      if Node(ram, r, q.up).At? {
        assert TableAt(own, r, q.up, Node(ram, r, q.up).frame);
      }
    }
  }

  /** Trees do not depend on frames that are not their tables. */
  lemma {:induction false} OtherFramesDoNotMatter(ram: Ram, ram': Ram, own: seq<Owner>, r: nat, q: Path)
    requires TablesKnown(ram, own, r)
    requires forall f ::
               0 <= f < FRAMES && (own[f].Shared? || (own[f].Owned? && own[f].root == r && Depth(own[f].path) <= 3))
               ==> ram'[f] == ram[f]
    requires Depth(q) <= 4
    ensures Node(ram', r, q) == Node(ram, r, q)
  {
    if q.Sub? {
      OtherFramesDoNotMatter(ram, ram', own, r, q.up);
      if Node(ram, r, q.up).At? {
        assert TableAt(own, r, q.up, Node(ram, r, q.up).frame);
      }
    }
  }
}
