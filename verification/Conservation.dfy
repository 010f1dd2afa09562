/** What a teardown gives back: exactly the frames of the tree that it visits, each once. */
module Conservation {
  import opened PhysicalMemory
  import opened PageTables
  import opened FrameOwnership
  import opened Teardown

  lemma {:induction false} KernelHalfNotReturned(q: Path)
    requires KernelHalf(q) && Depth(q) <= 4
    ensures !Returned(q)
  {
    KernelHalfDepth(q);
    if Depth(q) == 4 { KernelHalfNotReturned(q.up); }
  }

  lemma {:induction false} BelowTop(q: Path)
    requires q.Sub?
    ensures Branch(Top, q) >= 0
  {
    if q.up.Sub? { BelowTop(q.up); }
  }

  /** A visit the teardown should make: a returned node, which its frame's owner confirms. */
  ghost predicate OwnVisit(ram: Ram, own: seq<Owner>, c: nat, v: Visit)
    requires |own| == FRAMES
  {
    && Depth(v.path) <= 4 && Returned(v.path) && Node(ram, c, v.path) == At(v.frame)
    && FIRST_FRAME < v.frame < FRAMES && own[v.frame] == Owned(c, v.path)
  }

  lemma ReturnedNodesAreOwned(ram: Ram, k: Kernel, own: seq<Owner>, c: nat, v: Visit)
    requires |own| == FRAMES && TreeOk(ram, k, own, c)
    requires Depth(v.path) <= 4 && Returned(v.path) && Node(ram, c, v.path) == At(v.frame)
    ensures OwnVisit(ram, own, c, v)
  {
    if KernelHalf(v.path) { KernelHalfNotReturned(v.path); }
    assert NodeFits(ram, k, own, c, v.path);
  }

  /** The teardown visits every returned node of the tree, nothing else, and nothing twice. */
  lemma TeardownIsExact(ram: Ram, k: Kernel, own: seq<Owner>, c: nat)
    requires |own| == FRAMES && TreeOk(ram, k, own, c)
    ensures forall v: Visit :: v in TreeVisits(ram, c) <==>
              Depth(v.path) <= 4 && Returned(v.path) && Node(ram, c, v.path) == At(v.frame)
    ensures forall v: Visit :: v in TreeVisits(ram, c) ==> OwnVisit(ram, own, c, v)
    ensures forall i, j :: 0 <= i < j < |TreeVisits(ram, c)| ==>
        TreeVisits(ram, c)[i].path != TreeVisits(ram, c)[j].path
  {
    var inner := Visits(ram, c, Top, 4, 512);
    VisitsAreSound(ram, c, c, Top, 4, 512);
    assert Branch(Top, Top) == -1;
    forall v: Visit | Depth(v.path) <= 4 && Returned(v.path) && Node(ram, c, v.path) == At(v.frame)
      ensures v in TreeVisits(ram, c) && OwnVisit(ram, own, c, v)
    {
      ReturnedNodesAreOwned(ram, k, own, c, v);
      if v.path.Sub? {
        BelowTop(v.path);
        BranchIsAncestor(ram, c, Top, v.path);
        VisitsAreComplete(ram, c, c, Top, 4, 512, v);
      }
    }
    forall i | 0 <= i < |inner| ensures inner[i].path != Top {
      assert inner[i] in inner;
    }
  }

  function VisitOf(visits: seq<Visit>, frame: nat): (i: nat)
    requires exists v: Visit :: v in visits && v.frame == frame
    ensures i < |visits| && visits[i].frame == frame
  {
    if visits[0].frame == frame then 0 else 1 + VisitOf(visits[1..], frame)
  }

  /** Owners after the teardown of `c`: what was pushed is free at its new slot, the rest is lost. */
  function OwnersAfter(own: seq<Owner>, c: nat, slots: nat, visits: seq<Visit>): (own': seq<Owner>)
    ensures |own'| == |own|
  {
    seq(|own|, f requires 0 <= f < |own| => OwnerAfter(own[f], f, c, slots, visits))
  }

  function OwnerAfter(o: Owner, f: nat, c: nat, slots: nat, visits: seq<Visit>): Owner {
    if o.Owned? && o.root == c then
      if exists v: Visit :: v in visits && v.frame == f then Free(slots + VisitOf(visits, f)) else Lost
    else o
  }

  lemma TornDownStack(m: Mem, k: Kernel, own: seq<Owner>, c: nat)
    requires |own| == FRAMES && TreeOk(m.ram, k, own, c) && StackOk(m.stack, own)
    ensures StackOk(FreeTree(m, c).stack, OwnersAfter(own, c, |m.stack|, TreeVisits(m.ram, c)))
  {
    var visits := TreeVisits(m.ram, c);
    var own' := OwnersAfter(own, c, |m.stack|, visits);
    TeardownIsExact(m.ram, k, own, c);
    forall s | 0 <= s < |m.stack| ensures HoldsFree(m.stack[s], s, own') {
      assert HoldsFree(m.stack[s], s, own);
    }
    forall s | 0 <= s < |visits| ensures HoldsFree(Addresses(visits)[s], |m.stack| + s, own') {
      PushedFrameIsFree(m.ram, own, c, |m.stack|, visits, s);
    }
    assert m.stack[0] == FreeTree(m, c).stack[0];
  }

  lemma PushedFrameIsFree(ram: Ram, own: seq<Owner>, c: nat, slots: nat, visits: seq<Visit>, s: nat)
    requires |own| == FRAMES && s < |visits|
    requires forall v: Visit :: v in visits ==> OwnVisit(ram, own, c, v)
    requires forall i, j :: 0 <= i < j < |visits| ==> visits[i].path != visits[j].path
    ensures HoldsFree(PageAddress(visits[s].frame), slots + s, OwnersAfter(own, c, slots, visits))
  {
    var f := visits[s].frame;
    assert visits[s] in visits;
    var i := VisitOf(visits, f);
    assert visits[i] in visits;
    assert visits[i].path == own[f].path == visits[s].path;
    assert i == s;
  }

  lemma TornDownTree(m: Mem, k: Kernel, own: seq<Owner>, c: nat, r: nat)
    requires |own| == FRAMES && TreeOk(m.ram, k, own, r) && r != c
    ensures TreeOk(m.ram, k, OwnersAfter(own, c, |m.stack|, TreeVisits(m.ram, c)), r)
  {
    var own' := OwnersAfter(own, c, |m.stack|, TreeVisits(m.ram, c));
    forall q ensures NodeFits(m.ram, k, own', r, q) {
      assert NodeFits(m.ram, k, own, r, q);
    }
  }

  lemma TornDownAccounts(m: Mem, k: Kernel, live: set<nat>, own: seq<Owner>, c: nat, g: nat)
    requires |own| == FRAMES && g < FRAMES && Accounted(m, k, live, own, g) && c in live && k.root !in live
    ensures Accounted(FreeTree(m, c), k, live - {c}, OwnersAfter(own, c, |m.stack|, TreeVisits(m.ram, c)), g)
  {
    var visits := TreeVisits(m.ram, c);
    if own[g].Owned? && own[g].root == c && exists v: Visit :: v in visits && v.frame == g {
      assert FreeTree(m, c).stack[|m.stack| + VisitOf(visits, g)] == PageAddress(g);
    }
  }

  lemma TornDownShared(ram: Ram, k: Kernel, own: seq<Owner>, c: nat, slots: nat, visits: seq<Visit>)
    requires |own| == FRAMES && SharedOk(ram, k, own)
    ensures SharedOk(ram, k, OwnersAfter(own, c, slots, visits))
  {
    forall j | 0 <= j < 6 ensures SharedTableOk(ram, k.shared[j], j, OwnersAfter(own, c, slots, visits)) {
      assert SharedTableOk(ram, k.shared[j], j, own);
    }
  }

  /** Tearing a tree down keeps ownership of everything else, and nothing else becomes free or lost. */
  lemma TeardownKeepsOwnership(m: Mem, k: Kernel, live: set<nat>, own: seq<Owner>, c: nat)
    requires Inv(m, k, live, own) && c in live
    ensures Inv(FreeTree(m, c), k, live - {c}, OwnersAfter(own, c, |m.stack|, TreeVisits(m.ram, c)))
  {
    var m' := FreeTree(m, c);
    var own' := OwnersAfter(own, c, |m.stack|, TreeVisits(m.ram, c));
    TornDownStack(m, k, own, c);
    TornDownShared(m.ram, k, own, c, |m.stack|, TreeVisits(m.ram, c));
    forall r | r in live - {c} ensures TreeOk(m'.ram, k, own', r) {
      TornDownTree(m, k, own, c, r);
    }
    forall g | 0 <= g < FRAMES ensures Accounted(m', k, live - {c}, own', g) {
      assert Accounted(m, k, live, own, g);
      TornDownAccounts(m, k, live, own, c, g);
    }
    forall q ensures KernelNodeFits(m.ram, own', k.root, q) {
      assert KernelNodeFits(m.ram, own, k.root, q);
    }
  }
}
