/** `free_l4_table`: which frames go back on the stack, in which order, and which never do. */
module Teardown {
  import opened PhysicalMemory
  import opened PageTables
  import opened FrameOwnership

  /** Where the loop over a table of this level starts and stops: level 2 skips the first 12 MB of each
      gigabyte, level 1 skips the last entry. */
  function FirstFreed(level: nat): nat { if level == 2 then 6 else 0 }

  function LastFreed(level: nat): nat { if level == 1 then 511 else 512 }

  /** A frame pushed by the teardown, and the path that reached it. */
  datatype Visit = Visit(path: Path, frame: nat)

  /** What the loop over the table `t` at `p` has pushed when its counter stands at `n`. */
  function Visits(ram: Ram, t: nat, p: Path, level: nat, n: nat): seq<Visit>
    decreases level, n, t
  {
    if n <= FirstFreed(level) || level == 0 then []
    else Visits(ram, t, p, level, n - 1) + EntryVisits(ram, Read(ram, t, n - 1), Sub(p, n - 1), level)
  }

  /** What one table entry contributes: a page by itself, a table after everything below it. */
  function EntryVisits(ram: Ram, e: Entry, q: Path, level: nat): seq<Visit>
    requires level > 0
    decreases level, 0, e.address
  {
    if !e.p || (level == 1 && PageAddress(e.address) <= FIRST_ADDRESS) then []
    else
      (if level == 1 then [] else Visits(ram, e.address, q, level - 1, LastFreed(level - 1))) + [Visit(q, e.address)]
  }

  /** The whole teardown; the level 4 table itself is pushed last. */
  function TreeVisits(ram: Ram, c: nat): seq<Visit> {
    Visits(ram, c, Top, 4, 512) + [Visit(Top, c)]
  }

  function Addresses(visits: seq<Visit>): (a: seq<nat>)
    ensures |a| == |visits|
  {
    seq(|visits|, s requires 0 <= s < |visits| => PageAddress(visits[s].frame))
  }

  function FreeTree(m: Mem, c: nat): Mem {
    m.(stack := m.stack + Addresses(TreeVisits(m.ram, c)))
  }

  /** The nodes the teardown visits and pushes. */
  predicate Returned(q: Path) {
    q.Sub? ==> Returned(q.up) && (Depth(q) == 3 ==> q.idx >= 6) && (Depth(q) == 4 ==> q.idx < 511)
  }

  /** Below which child of `p` the path `q` lies. */
  function Branch(p: Path, q: Path): int {
    if q.Top? then -1 else if q.up == p then q.idx else Branch(p, q.up)
  }

  lemma BranchIsBelow(p: Path, q: Path)
    requires Branch(p, q) >= 0
    ensures Depth(q) > Depth(p)
  {
  }

  lemma {:induction false} BranchOfBranch(p: Path, i: nat, q: Path)
    requires Branch(Sub(p, i), q) >= 0
    ensures Branch(p, q) == i && Depth(q) > Depth(p) + 1
  {
    BranchIsBelow(Sub(p, i), q);
    if q.up == Sub(p, i) {
      assert Branch(p, Sub(p, i)) == i;
    } else {
      BranchOfBranch(p, i, q.up);
    }
  }

  /** A present node below `p` that the teardown is meant to visit. */
  ghost predicate Visitable(ram: Ram, c: nat, p: Path, v: Visit) {
    && Depth(v.path) <= 4 && Returned(v.path) && 0 <= Branch(p, v.path) < 512
    && Node(ram, c, v.path) == At(v.frame)
  }

  /** Distinct visitable nodes, all of them below children `from <= i < to` of `p`. */
  ghost predicate Sound(ram: Ram, c: nat, p: Path, from: nat, to: nat, visits: seq<Visit>) {
    && (forall v :: v in visits ==> Visitable(ram, c, p, v) && from <= Branch(p, v.path) < to)
    && (forall i, j :: 0 <= i < j < |visits| ==> visits[i].path != visits[j].path)
  }

  lemma SoundConcat(ram: Ram, c: nat, p: Path, n: nat, a: seq<Visit>, b: seq<Visit>)
    requires Sound(ram, c, p, 0, n, a) && Sound(ram, c, p, n, n + 1, b)
    ensures Sound(ram, c, p, 0, n + 1, a + b)
  {
    forall i, j | 0 <= i < j < |a + b| ensures (a + b)[i].path != (a + b)[j].path {
      if i < |a| <= j {
        assert a[i] in a && b[j - |a|] in b;
      }
    }
  }

  /** A table's subtree, pushed before the table itself. */
  lemma SoundSubtree(ram: Ram, c: nat, p: Path, i: nat, frame: nat, below: seq<Visit>)
    requires Node(ram, c, Sub(p, i)) == At(frame) && Returned(Sub(p, i)) && Depth(p) <= 3
    requires Sound(ram, c, Sub(p, i), 0, 512, below)
    ensures Sound(ram, c, p, i, i + 1, below + [Visit(Sub(p, i), frame)])
  {
    var q := Sub(p, i);
    assert Branch(p, q) == i;
    forall v | v in below ensures v.path != q && Branch(p, v.path) == i {
      BranchOfBranch(p, i, v.path);
    }
  }

  /** The loop over the table at `p` pushes distinct present nodes below it, all of them `Returned`. */
  lemma {:induction false} VisitsAreSound(ram: Ram, c: nat, t: nat, p: Path, level: nat, n: nat)
    requires Node(ram, c, p) == At(t) && Depth(p) + level == 4 && Returned(p) && n <= LastFreed(level)
    ensures Sound(ram, c, p, 0, n, Visits(ram, t, p, level, n))
    decreases level, n, 1
  {
    if n > FirstFreed(level) && level > 0 {
      VisitsAreSound(ram, c, t, p, level, n - 1);
      EntryVisitsAreSound(ram, c, t, p, level, n - 1);
      SoundConcat(ram, c, p, n - 1, Visits(ram, t, p, level, n - 1),
                  EntryVisits(ram, Read(ram, t, n - 1), Sub(p, n - 1), level));
    }
  }

  lemma {:induction false} EntryVisitsAreSound(ram: Ram, c: nat, t: nat, p: Path, level: nat, i: nat)
    requires Node(ram, c, p) == At(t) && Depth(p) + level == 4 && Returned(p) && level > 0
    requires FirstFreed(level) <= i < LastFreed(level)
    ensures Sound(ram, c, p, i, i + 1, EntryVisits(ram, Read(ram, t, i), Sub(p, i), level))
    decreases level, i + 1, 0
  {
    var e, q := Read(ram, t, i), Sub(p, i);
    assert Branch(p, q) == i;
    if e.p && level > 1 {
      VisitsAreSound(ram, c, e.address, q, level - 1, LastFreed(level - 1));
      SoundSubtree(ram, c, p, i, e.address, Visits(ram, e.address, q, level - 1, LastFreed(level - 1)));
    }
  }

  /** Every present node that is `Returned` and lies under a finished entry has been pushed. */
  lemma {:induction false} VisitsAreComplete(ram: Ram, c: nat, t: nat, p: Path, level: nat, n: nat, v: Visit)
    requires Node(ram, c, p) == At(t) && Depth(p) + level == 4 && n <= 512
    requires Visitable(ram, c, p, v) && Branch(p, v.path) < n
    requires Depth(v.path) == 4 ==> PageAddress(v.frame) > FIRST_ADDRESS
    ensures v in Visits(ram, t, p, level, n)
    decreases level, n, 1
  {
    BranchIsBelow(p, v.path);
    BranchIsAncestor(ram, c, p, v.path);
    assert n > FirstFreed(level) && level > 0;
    if Branch(p, v.path) < n - 1 {
      VisitsAreComplete(ram, c, t, p, level, n - 1, v);
    } else {
      EntryVisitsAreComplete(ram, c, t, p, level, n - 1, v);
    }
  }

  lemma {:induction false} EntryVisitsAreComplete(ram: Ram, c: nat, t: nat, p: Path, level: nat, i: nat, v: Visit)
    requires Node(ram, c, p) == At(t) && Depth(p) + level == 4 && level > 0
    requires Visitable(ram, c, p, v) && Branch(p, v.path) == i
    requires Depth(v.path) == 4 ==> PageAddress(v.frame) > FIRST_ADDRESS
    ensures v in EntryVisits(ram, Read(ram, t, i), Sub(p, i), level)
    decreases level, i + 1, 0
  {
    var a, e := Sub(p, i), Read(ram, t, i);
    BranchIsAncestor(ram, c, p, v.path);
    if v.path != a {
      BranchIsBelow(a, v.path);
      BranchIsAncestor(ram, c, a, v.path);
      assert Depth(Sub(a, Branch(a, v.path))) == Depth(a) + 1;
      VisitsAreComplete(ram, c, e.address, a, level - 1, LastFreed(level - 1), v);
    }
  }

  /** The ancestor of `q` just below `p` is present and returned when `q` is. */
  lemma {:induction false} BranchIsAncestor(ram: Ram, c: nat, p: Path, q: Path)
    requires Branch(p, q) >= 0 && Node(ram, c, q).At? && Returned(q)
    ensures Node(ram, c, Sub(p, Branch(p, q))).At? && Returned(Sub(p, Branch(p, q))) && Branch(p, q) < 512
    ensures q != Sub(p, Branch(p, q)) ==> Branch(Sub(p, Branch(p, q)), q) >= 0
  {
    if q.up != p {
      BranchIsAncestor(ram, c, p, q.up);
    }
  }
}
