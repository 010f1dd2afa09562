/** `alloc_new_process_stack`: 2048 pages on [22 MB, 30 MB) and the initial context on the last of them. */
module ProcessStack {
  import opened PhysicalMemory
  import opened PageTables
  import opened FrameOwnership
  import opened PageMapping
  import opened ProcessTrees

  const STACK_PAGES: nat := 2048

  /** The `n`-th page of the double loop over level 2 entries 11 to 14 and their 512 entries. */
  function StackPage(n: nat): VirtualAddress {
    VirtualAddress(0, n % 512, 11 + n / 512, 0, 0)
  }

  /** `n` rounds of a loop that allocates; `at` is what the last round got. */
  function Rounds(step: (Mem, nat) -> Alloc, m: Mem, n: nat): Alloc
    decreases n, m
  {
    if n == 0 then Got(m, 0)
    else
      match Rounds(step, m, n - 1)
      case OutOfMemory => OutOfMemory
      case Got(m1, _) => step(m1, n - 1)
  }

  function StackRound(c: nat): (Mem, nat) -> Alloc {
    (m: Mem, i: nat) => AddPage(m, c, StackPage(i), true, true)
  }

  /** The first `n` pages of the stack; `at` is the page added last. */
  function StackPages(m: Mem, c: nat, n: nat): Alloc {
    Rounds(StackRound(c), m, n)
  }

  /** `step` does what a round of the loop for tree `c` does. */
  ghost predicate AddsStackPages(step: (Mem, nat) -> Alloc, c: nat) {
    forall m: Mem, i: nat {:trigger AddPage(m, c, StackPage(i), true, true)} ::
      step(m, i) == AddPage(m, c, StackPage(i), true, true)
  }

  /** A table or page that the first `n` rounds put in the tree. */
  predicate StackNode(q: Path, n: nat) {
    q.Sub? &&
    (  (q.up == FIRST_L2 && 11 <= q.idx && (q.idx - 11) * 512 < n)
    || (q.up.Sub? && q.up.up == FIRST_L2 && 11 <= q.up.idx && q.idx < 512 && (q.up.idx - 11) * 512 + q.idx < n))
  }

  /** Frames taken by `n` rounds: a page each, and a level 1 table for every 512 of them. */
  function FramesFor(n: nat): nat {
    n + (n + 511) / 512
  }

  ghost predicate StackAbsent(ram: Ram, c: nat) {
    forall i :: 11 <= i ==> Node(ram, c, Sub(FIRST_L2, i)).Absent?
  }

  /** The tree after `n` rounds: what was there, and the stack nodes on frames that were free. */
  ghost predicate Stacked(m: Mem, k: Kernel, live: set<nat>, own: seq<Owner>, c: nat, n: nat, m': Mem) {
    && |own| == FRAMES
    && |m.stack| > FramesFor(n) && m'.stack == m.stack[..|m.stack| - FramesFor(n)]
    && (forall q :: Depth(q) <= 4 && StackNode(q, n) ==> Node(m'.ram, c, q).At?)
    && (forall q :: Depth(q) <= 4 && !StackNode(q, n) ==> Node(m'.ram, c, q) == Node(m.ram, c, q))
    && (forall r, q :: (r in live || r == k.root) && r != c && Depth(q) <= 4 ==>
          Node(m'.ram, r, q) == Node(m.ram, r, q))
  }

  lemma StackPathsAre(n: nat)
    ensures var p := PathOf(StackPage(n));
            && p == Sub(Sub(FIRST_L2, 11 + n / 512), n % 512) && IndicesFit(p) == (11 + n / 512 < 512)
            && StackNode(p, n + 1) && !StackNode(p, n) && StackNode(p.up, n + 1)
            && (StackNode(p.up, n) <==> n % 512 != 0)
  {
    var p := PathOf(StackPage(n));
    assert p.up.up == FIRST_L2 && p.up.idx == 11 + n / 512 && p.idx == n % 512;
    assert Depth(FIRST_L2) == 2;
    assert IndicesFit(FIRST_L2.up) && IndicesFit(FIRST_L2) && IndicesFit(p) == IndicesFit(p.up);
    assert p.up != FIRST_L2;
  }

  /** The nodes a round may add are the new page and, once in 512, its table. */
  lemma StackNodesGrow(q: Path, n: nat)
    ensures StackNode(q, n + 1) <==>
            StackNode(q, n) || q == PathOf(StackPage(n)) || q == PathOf(StackPage(n)).up
  {
    StackPathsAre(n);
  }

  lemma OnStackPath(q: Path, n: nat)
    ensures OnPath(q, PathOf(StackPage(n))) <==>
            q == PathOf(StackPage(n)) || q == PathOf(StackPage(n)).up || q == FIRST_L2 || q == Sub(Top, 0) || q == Top
  {
    var p := PathOf(StackPage(n));
    assert p.up.up == FIRST_L2 && FIRST_L2.up == Sub(Top, 0);
    assert OnPath(q, Sub(Top, 0)) <==> q == Sub(Top, 0) || q == Top;
    assert OnPath(q, FIRST_L2) <==> q == FIRST_L2 || OnPath(q, Sub(Top, 0));
    assert OnPath(q, p.up) <==> q == p.up || OnPath(q, FIRST_L2);
  }

  lemma MissingOnStackPath(m: Mem, c: nat, n: nat)
    requires Node(m.ram, c, FIRST_L2).At?
    requires Node(m.ram, c, PathOf(StackPage(n))).Absent?
    requires Node(m.ram, c, PathOf(StackPage(n)).up).At? <==> n % 512 != 0
    ensures Missing(m.ram, c, PathOf(StackPage(n))) == FramesFor(n + 1) - FramesFor(n)
  {
    var p := PathOf(StackPage(n));
    assert p.up.up == FIRST_L2;
    AbsentNowhereAbove(m.ram, c, FIRST_L2);
    assert Missing(m.ram, c, p.up) == if n % 512 != 0 then 0 else 1;
  }

  lemma StackStep(m: Mem, k: Kernel, live: set<nat>, own: seq<Owner>, c: nat, n: nat, m1: Mem, own1: seq<Owner>,
                  m': Mem, f: nat, own': seq<Owner>)
    requires n < STACK_PAGES && c in live
    requires Node(m.ram, c, FIRST_L2).At? && StackAbsent(m.ram, c)
    requires Stacked(m, k, live, own, c, n, m1)
    requires |own1| == FRAMES && |own'| == FRAMES
    requires Filled(m1, k, live, own1, c, PathOf(StackPage(n)), m', f, own')
    requires Missing(m1.ram, c, PathOf(StackPage(n))) == FramesFor(n + 1) - FramesFor(n)
    ensures Stacked(m, k, live, own, c, n + 1, m')
  {
    var p := PathOf(StackPage(n));
    StackPathsAre(n);
    assert Depth(FIRST_L2) == 2 && Depth(Sub(Top, 0)) == 1;
    assert ExtendsTo(m1.ram, m'.ram, c, p, c);
    forall q | Depth(q) <= 4
      ensures StackNode(q, n + 1) ==> Node(m'.ram, c, q).At?
      ensures !StackNode(q, n + 1) ==> Node(m'.ram, c, q) == Node(m.ram, c, q)
    {
      StackNodesGrow(q, n);
      OnStackPath(q, n);
      AbsentBelowTables(m.ram, c, FIRST_L2);
    }
    forall r, q | (r in live || r == k.root) && r != c && Depth(q) <= 4
      ensures Node(m'.ram, r, q) == Node(m.ram, r, q)
    {
      assert ExtendsTo(m1.ram, m'.ram, c, p, r);
    }
  }

  lemma AbsentBelowTables(ram: Ram, c: nat, q: Path)
    requires Node(ram, c, q).At?
    ensures q.Sub? ==> Node(ram, c, q.up).At?
    ensures Node(ram, c, Top).At?
  {
  }

  /** The outcome of `n` rounds: they fail for want of frames, or keep ownership and add the stack nodes. */
  ghost predicate StackGrown(m: Mem, k: Kernel, live: set<nat>, own: seq<Owner>, c: nat, n: nat,
                             r: Alloc, own': seq<Owner>) {
    match r
    case OutOfMemory => |m.stack| <= FramesFor(n)
    case Got(m', a) =>
      && Inv(m', k, live, own') && Stacked(m, k, live, own, c, n, m')
      && (n > 0 ==> Walk(m'.ram, c, StackPage(n - 1)) == To(a))
      && (forall g :: 0 <= g < FRAMES && !own[g].Free? ==> own'[g] == own[g])
  }

  /** One round: the next page of the stack, with its level 1 table when it is the first of 512. */
  lemma StackRoundMaps(m: Mem, k: Kernel, live: set<nat>, own: seq<Owner>, c: nat, step: (Mem, nat) -> Alloc, n: nat,
                       before: Alloc, own1: seq<Owner>)
    returns (own': seq<Owner>)
    requires AddsStackPages(step, c) && c in live && n < STACK_PAGES
    requires Node(m.ram, c, FIRST_L2).At? && StackAbsent(m.ram, c)
    requires before.Got? && StackGrown(m, k, live, own, c, n, before, own1)
    ensures StackGrown(m, k, live, own, c, n + 1, step(before.mem, n), own')
  {
    var p, m1 := PathOf(StackPage(n)), before.mem;
    StackPathsAre(n);
    RoundStartsAbsent(m, k, live, own, c, n, m1);
    MissingOnStackPath(m1, c, n);
    own' := FillExtends(m1, k, live, own1, c, p, true, true);
    assert step(m1, n) == AddPage(m1, c, StackPage(n), true, true);
    match Fill(m1, c, p, true, true)
    case OutOfMemory =>
    case Got(m', f) => StackStep(m, k, live, own, c, n, m1, own1, m', f, own');
  }

  /** A round after an earlier failure fails as well. */
  lemma NextRoundMaps(m: Mem, k: Kernel, live: set<nat>, own: seq<Owner>, c: nat, step: (Mem, nat) -> Alloc, n: nat,
                      before: Alloc, own1: seq<Owner>, next: nat, r: Alloc)
    returns (own': seq<Owner>)
    requires AddsStackPages(step, c) && c in live && n < STACK_PAGES && next == n + 1
    requires Node(m.ram, c, FIRST_L2).At? && StackAbsent(m.ram, c)
    requires |own| == FRAMES && StackGrown(m, k, live, own, c, n, before, own1)
    requires r == if before.Got? then step(before.mem, n) else OutOfMemory
    ensures StackGrown(m, k, live, own, c, next, r, own')
  {
    own' := own1;
    if before.Got? { own' := StackRoundMaps(m, k, live, own, c, step, n, before, own1); }
  }

  /** The loop succeeds exactly when there is a poppable frame for every page and table, and then adds just
      the stack nodes. */
  lemma {:induction false} RoundsMap(m: Mem, k: Kernel, live: set<nat>, own: seq<Owner>, c: nat,
                                     step: (Mem, nat) -> Alloc, n: nat)
    returns (own': seq<Owner>)
    requires AddsStackPages(step, c)
    requires Inv(m, k, live, own) && c in live && n <= STACK_PAGES
    requires Node(m.ram, c, FIRST_L2).At? && StackAbsent(m.ram, c)
    ensures StackGrown(m, k, live, own, c, n, Rounds(step, m, n), own')
  {
    if n == 0 {
      own' := own;
      StackStarts(m, k, live, own, c, n, Rounds(step, m, n));
    } else {
      own' := RoundsMap(m, k, live, own, c, step, n - 1);
      var before := Rounds(step, m, n - 1);
      own' := NextRoundMaps(m, k, live, own, c, step, n - 1, before, own', n, Rounds(step, m, n));
    }
  }

  lemma StackStarts(m: Mem, k: Kernel, live: set<nat>, own: seq<Owner>, c: nat, n: nat, r: Alloc)
    requires Inv(m, k, live, own) && n == 0 && r.Got? && r.mem == m
    ensures StackGrown(m, k, live, own, c, n, r, own)
  {
    StartsStacked(m, k, live, own, c);
  }

  lemma StackPagesMap(m: Mem, k: Kernel, live: set<nat>, own: seq<Owner>, c: nat, n: nat)
    returns (own': seq<Owner>)
    requires Inv(m, k, live, own) && c in live && n <= STACK_PAGES
    requires Node(m.ram, c, FIRST_L2).At? && StackAbsent(m.ram, c)
    ensures StackGrown(m, k, live, own, c, n, StackPages(m, c, n), own')
  {
    own' := RoundsMap(m, k, live, own, c, StackRound(c), n);
  }

  lemma StartsStacked(m: Mem, k: Kernel, live: set<nat>, own: seq<Owner>, c: nat)
    requires Inv(m, k, live, own)
    ensures Stacked(m, k, live, own, c, 0, m)
  {
    assert forall q :: !StackNode(q, 0);
  }

  lemma RoundStartsAbsent(m: Mem, k: Kernel, live: set<nat>, own: seq<Owner>, c: nat, n: nat, m1: Mem)
    requires Stacked(m, k, live, own, c, n, m1) && StackAbsent(m.ram, c) && Node(m.ram, c, FIRST_L2).At?
    ensures Node(m1.ram, c, FIRST_L2).At?
    ensures Node(m1.ram, c, PathOf(StackPage(n))).Absent?
    ensures Node(m1.ram, c, PathOf(StackPage(n)).up).At? <==> n % 512 != 0
  {
    StackPathsAre(n);
    var p := PathOf(StackPage(n));
    assert Depth(FIRST_L2) == 2 && !StackNode(FIRST_L2, n) by { assert FIRST_L2.up == Sub(Top, 0); }
    assert Depth(p.up) == 3;
    assert Node(m.ram, c, p.up).Absent?;
    assert Node(m.ram, c, p).Absent?;
  }
}
