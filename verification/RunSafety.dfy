/** What ownership means, said without owners, for every state a run can reach. */
module RunSafety {
  import opened PhysicalMemory
  import opened PageTables
  import opened FrameOwnership
  import opened Teardown
  import opened Conservation
  import opened ProcessTrees
  import opened NewProcess
  import opened Boot
  import opened Counting
  import opened KernelRuns

  /** The free frames: aligned, in [12 MB, 512 MB), no frame twice, the 12 MB frame at the bottom for ever,
      and never more of them than the 2 MB region of the stack can hold. */
  ghost predicate StackSafe(stack: seq<nat>) {
    && |stack| >= 1 && stack[0] == 0xC0_0000 && |stack| <= 262144
    && (forall s :: 0 <= s < |stack| ==> Aligned(stack[s]) && 0xC0_0000 <= stack[s] < 0x2000_0000)
    && (forall s, u :: 0 <= s < u < |stack| ==> stack[s] != stack[u])
  }

  /** Two nodes outside the kernel half never meet: not in one tree, not in two, not on the free stack,
      and not with a shared kernel table. */
  ghost predicate NodesApart(w: World) {
    && (forall c, q :: c in w.live && Depth(q) <= 4 && !KernelHalf(q) && Node(w.mem.ram, c, q).At? ==>
          NodeApart(w, Node(w.mem.ram, c, q).frame))
    && (forall c, q, d, r ::
          (c in w.live && d in w.live && Depth(q) <= 4 && Depth(r) <= 4 && !KernelHalf(q) && !KernelHalf(r)
           && Node(w.mem.ram, c, q).At? && Node(w.mem.ram, d, r) == Node(w.mem.ram, c, q)) ==> c == d && q == r)
  }

  ghost predicate NodeApart(w: World, f: nat) {
    FIRST_FRAME < f < FRAMES && PageAddress(f) !in w.mem.stack && f !in w.kernel.shared
  }

  /** The kernel half of every live tree: the six shared tables, and below them the identity on [0, 12 MB). */
  ghost predicate KernelHalfShared(w: World) {
    forall c, q :: c in w.live && Depth(q) <= 4 && KernelHalf(q) && Node(w.mem.ram, c, q).At? ==>
      KernelHalfNode(w, q, Node(w.mem.ram, c, q).frame)
  }

  ghost predicate KernelHalfNode(w: World, q: Path, f: nat) {
    (Depth(q) == 3 ==>
       && q.Sub? && q.idx < |w.kernel.shared| && f == w.kernel.shared[q.idx]
       && PageAddress(f) !in w.mem.stack)
    && (Depth(q) == 4 ==> q.Sub? && q.up.Sub? && f == q.up.idx * 512 + q.idx && f < FIRST_FRAME)
  }

  lemma StackIsSafe(stack: seq<nat>, own: seq<Owner>)
    requires |own| == FRAMES && StackOk(stack, own)
    ensures StackSafe(stack)
  {
    forall s | 0 <= s < |stack| ensures HoldsFree(stack[s], s, own) {}
    var frames := seq(|stack|, s requires 0 <= s < |stack| => FrameOf(stack[s]));
    forall s, u | 0 <= s < u < |frames| ensures frames[s] != frames[u] {
      assert HoldsFree(stack[s], s, own) && HoldsFree(stack[u], u, own);
    }
    DistinctNumbersFit(frames, FRAMES);
  }

  lemma OwnedIsNotFree(stack: seq<nat>, own: seq<Owner>, f: nat)
    requires |own| == FRAMES && StackOk(stack, own) && f < FRAMES && !own[f].Free?
    ensures PageAddress(f) !in stack
  {
    forall s | 0 <= s < |stack| ensures stack[s] != PageAddress(f) {
      assert HoldsFree(stack[s], s, own);
    }
  }

  lemma OwnedIsNotShared(ram: Ram, k: Kernel, own: seq<Owner>, f: nat)
    requires |own| == FRAMES && SharedOk(ram, k, own) && f < FRAMES && !own[f].Shared?
    ensures f !in k.shared
  {
    forall i | 0 <= i < |k.shared| ensures k.shared[i] != f {
      assert SharedTableOk(ram, k.shared[i], i, own);
    }
  }

  lemma LiveNodesApart(w: World, own: seq<Owner>)
    requires Inv(w.mem, w.kernel, w.live, own)
    ensures NodesApart(w)
  {
    forall c, q | c in w.live && Depth(q) <= 4 && !KernelHalf(q) && Node(w.mem.ram, c, q).At?
      ensures NodeApart(w, Node(w.mem.ram, c, q).frame)
      ensures own[Node(w.mem.ram, c, q).frame] == Owned(c, q)
    {
      assert TreeOk(w.mem.ram, w.kernel, own, c);
      assert NodeFits(w.mem.ram, w.kernel, own, c, q);
      OwnedIsNotFree(w.mem.stack, own, Node(w.mem.ram, c, q).frame);
      OwnedIsNotShared(w.mem.ram, w.kernel, own, Node(w.mem.ram, c, q).frame);
    }
  }

  lemma KernelHalvesShared(w: World, own: seq<Owner>)
    requires Inv(w.mem, w.kernel, w.live, own)
    ensures KernelHalfShared(w)
  {
    forall c, q | c in w.live && Depth(q) <= 4 && KernelHalf(q) && Node(w.mem.ram, c, q).At?
      ensures KernelHalfNode(w, q, Node(w.mem.ram, c, q).frame)
    {
      assert TreeOk(w.mem.ram, w.kernel, own, c);
      KernelHalfNodeIs(w, own, c, q);
    }
  }

  lemma KernelHalfNodeIs(w: World, own: seq<Owner>, c: nat, q: Path)
    requires |own| == FRAMES && StackOk(w.mem.stack, own) && SharedOk(w.mem.ram, w.kernel, own)
    requires TreeOk(w.mem.ram, w.kernel, own, c)
    requires Depth(q) <= 4 && KernelHalf(q) && Node(w.mem.ram, c, q).At?
    ensures KernelHalfNode(w, q, Node(w.mem.ram, c, q).frame)
  {
    var f := Node(w.mem.ram, c, q).frame;
    KernelHalfDepth(q);
    assert NodeFits(w.mem.ram, w.kernel, own, c, q);
    if Depth(q) == 3 {
      assert SharedTableOk(w.mem.ram, f, q.idx, own);
      OwnedIsNotFree(w.mem.stack, own, f);
    } else {
      KernelHalfDepth(q.up);
      assert NodeFits(w.mem.ram, w.kernel, own, c, q.up);
      assert SharedTableOk(w.mem.ram, w.kernel.shared[q.up.idx], q.up.idx, own);
    }
  }

  /** In every state a run of creations, faults, stores and exits can reach: the free stack is sound, no
      frame serves two purposes, trees share only the kernel half, and the fault policy is respected. */
  lemma OwnershipOverEveryRun(ram: Ram, events: seq<Event>)
    requires forall i :: 0 <= i < |events| ==> Valid(events[i])
    ensures Run(ram, events).Goes? ==>
              var w := Run(ram, events).world;
              && StackSafe(w.mem.stack) && NodesApart(w) && KernelHalfShared(w)
              && forall c :: c in w.live ==> Shaped(w.mem.ram, c)
  {
    var own := RunKeepsInv(ram, events);
    var r := Run(ram, events);
    if r.Goes? {
      StackIsSafe(r.world.mem.stack, own);
      LiveNodesApart(r.world, own);
      KernelHalvesShared(r.world, own);
    }
  }

  /** A page that a process can reach outside the kernel half never holds one of its page tables, nor
      anybody else's: no store there can redirect a translation. */
  lemma PagesAreNotTables(ram: Ram, events: seq<Event>, c: nat, q: Path, d: nat, t: Path)
    requires forall i :: 0 <= i < |events| ==> Valid(events[i])
    requires Run(ram, events).Goes?
    requires c in Run(ram, events).world.live && d in Run(ram, events).world.live
    requires Depth(q) == 4 && Depth(t) <= 3
    requires Node(Run(ram, events).world.mem.ram, c, q).At?
    ensures Node(Run(ram, events).world.mem.ram, d, t) != Node(Run(ram, events).world.mem.ram, c, q)
  {
    var own := RunKeepsInv(ram, events);
    var w := Run(ram, events).world;
    LiveNodesApart(w, own);
    KernelHalvesShared(w, own);
    if Node(w.mem.ram, d, t).At? && KernelHalf(t) {
      KernelHalfDepth(t);
      assert TreeOk(w.mem.ram, w.kernel, own, d);
      assert SharedTableOk(w.mem.ram, w.kernel.shared[t.idx], t.idx, own);
      assert w.kernel.shared[t.idx] in w.kernel.shared;
      SharedTablesAreHigh(w.mem, w.kernel, w.live, own, t.idx);
    }
  }

  lemma SharedTablesAreHigh(m: Mem, k: Kernel, live: set<nat>, own: seq<Owner>, i: nat)
    requires Inv(m, k, live, own) && i < 6
    ensures k.shared[i] >= FIRST_FRAME
  {
    assert SharedTableOk(m.ram, k.shared[i], i, own);
  }

  /** `pushed` holds every frame the tree has outside the kernel half, except the pages at level 1 index 511. */
  ghost predicate AllButLastEntries(ram: Ram, c: nat, pushed: seq<nat>) {
    forall a :: a in pushed <==>
      exists q :: Depth(q) <= 4 && !KernelHalf(q) && !(Depth(q) == 4 && q.idx == 511)
                  && Node(ram, c, q).At? && a == PageAddress(Node(ram, c, q).frame)
  }

  ghost predicate PushedOnce(k: Kernel, pushed: seq<nat>) {
    && (forall i, j :: 0 <= i < j < |pushed| ==> pushed[i] != pushed[j])
    && (forall s :: 0 <= s < |k.shared| ==> PageAddress(k.shared[s]) !in pushed)
    && (forall a :: a in pushed ==> a > 0xC0_0000)
  }

  /** What `free_l4_table` gives back, in any reachable state: of the frames the tree holds outside the kernel
      half, all but the pages at level 1 index 511, each exactly once; never a shared table, and never a frame
      at or below 12 MB. */
  lemma ExitReturnsAllButLastEntries(ram: Ram, events: seq<Event>, c: nat)
    requires forall i :: 0 <= i < |events| ==> Valid(events[i])
    requires Run(ram, events).Goes? && c in Run(ram, events).world.live
    ensures var w := Run(ram, events).world;
            var pushed := Addresses(TreeVisits(w.mem.ram, c));
            && FreeTree(w.mem, c).stack == w.mem.stack + pushed
            && AllButLastEntries(w.mem.ram, c, pushed) && PushedOnce(w.kernel, pushed)
  {
    var own := RunKeepsInv(ram, events);
    var w := Run(ram, events).world;
    assert TreeOk(w.mem.ram, w.kernel, own, c) && Shaped(w.mem.ram, c);
    PushedAreThePolicyNodes(w.mem.ram, w.kernel, own, c);
    TreePushedOnce(w.mem.ram, w.kernel, own, c);
  }

  lemma TreePushedOnce(ram: Ram, k: Kernel, own: seq<Owner>, c: nat)
    requires |own| == FRAMES && TreeOk(ram, k, own, c) && SharedOk(ram, k, own)
    ensures PushedOnce(k, Addresses(TreeVisits(ram, c)))
  {
    TeardownIsExact(ram, k, own, c);
    PushedIsOwnedOnce(ram, own, c, TreeVisits(ram, c));
    forall s | 0 <= s < |k.shared| ensures PageAddress(k.shared[s]) !in Addresses(TreeVisits(ram, c)) {
      assert SharedTableOk(ram, k.shared[s], s, own);
      assert FrameOf(PageAddress(k.shared[s])) == k.shared[s];
    }
  }

  /** Under the fault policy the teardown skips exactly the kernel half and the last entries. */
  lemma {:induction false} ReturnedUnderPolicy(q: Path)
    requires PolicyPath(q) && Depth(q) <= 4
    requires Depth(q) == 4 ==> q.idx < 512
    ensures Returned(q) <==> !KernelHalf(q) && !(Depth(q) == 4 && q.idx == 511)
  {
    if KernelHalf(q) { KernelHalfDepth(q); }
    if q.Sub? {
      ReturnedUnderPolicy(q.up);
      if Depth(q) == 3 { ThirdLevelPolicy(q); }
      if Depth(q) == 4 { ThirdLevelPolicy(q.up); }
    }
  }

  lemma ThirdLevelPolicy(q: Path)
    requires PolicyPath(q) && Depth(q) == 3
    ensures q.up == FIRST_L2
    ensures KernelHalf(q) <==> q.idx < 6
  {
    var l2, l3 := q.up, q.up.up;
    assert Depth(l2) == 2 && PolicyPath(l2);
    assert Depth(l3) == 1 && PolicyPath(l3);
    assert l3.up == Top;
    if KernelHalf(q) { KernelHalfDepth(q); }
  }

  lemma PushedAreThePolicyNodes(ram: Ram, k: Kernel, own: seq<Owner>, c: nat)
    requires |own| == FRAMES && TreeOk(ram, k, own, c) && Shaped(ram, c)
    ensures AllButLastEntries(ram, c, Addresses(TreeVisits(ram, c)))
  {
    var visits := TreeVisits(ram, c);
    TeardownIsExact(ram, k, own, c);
    forall a | a in Addresses(visits)
      ensures exists q :: Depth(q) <= 4 && !KernelHalf(q) && !(Depth(q) == 4 && q.idx == 511)
                          && Node(ram, c, q).At? && a == PageAddress(Node(ram, c, q).frame)
    {
      var s :| 0 <= s < |visits| && Addresses(visits)[s] == a;
      var q := visits[s].path;
      assert visits[s] in visits;
      assert Node(ram, c, q) == At(visits[s].frame) && PolicyPath(q);
      ReturnedUnderPolicy(q);
    }
    forall q | Depth(q) <= 4 && !KernelHalf(q) && !(Depth(q) == 4 && q.idx == 511) && Node(ram, c, q).At?
      ensures PageAddress(Node(ram, c, q).frame) in Addresses(visits)
    {
      ReturnedUnderPolicy(q);
      var v := Visit(q, Node(ram, c, q).frame);
      var s :| 0 <= s < |visits| && visits[s] == v;
      assert Addresses(visits)[s] == PageAddress(v.frame);
    }
  }

  lemma PushedIsOwnedOnce(ram: Ram, own: seq<Owner>, c: nat, visits: seq<Visit>)
    requires |own| == FRAMES
    requires forall v: Visit :: v in visits ==> OwnVisit(ram, own, c, v)
    requires forall i, j :: 0 <= i < j < |visits| ==> visits[i].path != visits[j].path
    ensures forall i, j :: 0 <= i < j < |visits| ==> Addresses(visits)[i] != Addresses(visits)[j]
    ensures forall a :: a in Addresses(visits) ==> a > 0xC0_0000 && FrameOf(a) < FRAMES && own[FrameOf(a)].Owned?
  {
    forall i | 0 <= i < |visits| ensures OwnVisit(ram, own, c, visits[i]) {
      assert visits[i] in visits;
    }
  }
}
