/** `pmm_initialize` and `vmm_initialize`: the frame stack, the shared tables and the identity tree. */
module Boot {
  import opened PhysicalMemory
  import opened PageTables
  import opened FrameOwnership
  import opened ProcessTrees
  import Words

  /** (512 MB - 12 MB) / 4 KB. */
  const FREE_FRAMES: nat := 128000

  /** The stack as `pmm_initialize` fills it, lowest address at the bottom. */
  function InitialStack(n: nat): (s: seq<nat>)
    ensures |s| == n && forall i :: 0 <= i < n ==> s[i] == 0xC0_0000 + i * 0x1000
  {
    seq(n, i requires 0 <= i < n => 0xC0_0000 + i * 0x1000)
  }

  function IdentityWords(index: nat, rw: bool, us: bool): (f: Frame)
    ensures forall j :: 0 <= j < 512 ==>
              f[j] == Fields(true, rw, us, 0, (index * 0x20_0000 + j * 0x1000) / 0x1000 % 0x100_0000_0000, 0)
  {
    seq<Entry>(512, j requires 0 <= j < 512 =>
      Fields(true, rw, us, 0, (index * 0x20_0000 + j * 0x1000) / 0x1000 % 0x100_0000_0000, 0))
  }

  /** The loop both identity builders run over a table: `p`, `rw`, `us` and `address` of every entry. */
  function WriteIdentity(ram: Ram, t: nat, index: nat, rw: bool, us: bool): Ram {
    if t >= FRAMES then ram
    else ram[t := seq<Entry>(512, j requires 0 <= j < 512 => IdentityEntry(ram[t][j], index, j, rw, us))]
  }

  function IdentityEntry(e: Entry, index: nat, j: nat, rw: bool, us: bool): Entry {
    e.(p := true, rw := rw, us := us, address := (index * 0x20_0000 + j * 0x1000) / 0x1000 % 0x100_0000_0000)
  }

  /** The code forms the address in `int`: nothing overflows up to the table with index 1023, and below that the
      entry gets exactly its own page. The kernel goes up to 256. */
  lemma IdentityIndexFitsIff(e: Entry, index: nat, j: nat, rw: bool, us: bool)
    requires j < 512
    ensures Words.FitsInt(index * 2 * 0x10_0000) && Words.FitsInt(index * 0x20_0000 + j * 0x1000) <==> index < 1024
    ensures index < 1024 ==> IdentityEntry(e, index, j, rw, us).address == index * 512 + j
  {
    assert index * 0x20_0000 + j * 0x1000 == (index * 512 + j) * 0x1000;
  }

  lemma IdentityOverZeros(ram: Ram, t: nat, index: nat, rw: bool, us: bool)
    requires t < FRAMES && ram[t] == ZeroWords()
    ensures WriteIdentity(ram, t, index, rw, us) == ram[t := IdentityWords(index, rw, us)]
  {
    assert WriteIdentity(ram, t, index, rw, us)[t] == IdentityWords(index, rw, us);
  }

  /** `identity_l1_map`: a new table that maps the 2 MB with this index to themselves. */
  function IdentityL1Map(m: Mem, index: nat, rw: bool, us: bool): Alloc {
    match PageAlloc(m)
    case OutOfMemory => OutOfMemory
    case Got(m1, a) => Got(m1.(ram := WriteIdentity(m1.ram, FrameOf(a), index, rw, us)), FrameOf(a))
  }

  datatype Tables = NoMemory | Made(mem: Mem, frames: seq<nat>)

  /** `create_initial_l1_tables`: the first `n` of the six, of which 4 to 10 MB are for user use. */
  function SharedTables(m: Mem, n: nat): Tables
    decreases n, m
  {
    if n == 0 then Made(m, [])
    else
      match SharedTables(m, n - 1)
      case NoMemory => NoMemory
      case Made(m1, frames) =>
        match IdentityL1Map(m1, n - 1, true, 2 <= n - 1 <= 4)
        case OutOfMemory => NoMemory
        case Got(m2, f) => Made(m2, frames + [f])
  }

  /** The first `n` rounds of the loop in `all_memory_identity`. */
  function IdentityTables(m: Mem, l2: nat, n: nat): Alloc
    decreases n, l2
  {
    if n == 0 then Got(m, l2)
    else
      match IdentityTables(m, l2, n - 1)
      case OutOfMemory => OutOfMemory
      case Got(m1, _) =>
        match PageAlloc(m1)
        case OutOfMemory => OutOfMemory
        case Got(m2, a) =>
          var entry :=
              Read(m2.ram, l2, n - 1).(p := true, us := false, rw := false, address := FrameOf(a) % 0x100_0000_0000);
          Got(m2.(ram := WriteIdentity(Write(m2.ram, l2, n - 1, entry), FrameOf(a), n - 1, false, false)), l2)
  }

  function AllMemoryIdentity(m: Mem): Alloc {
    match PageAlloc(m)
    case OutOfMemory => OutOfMemory
    case Got(m4, l4) =>
      match PageAlloc(m4)
      case OutOfMemory => OutOfMemory
      case Got(m3, l3) =>
        match PageAlloc(m3)
        case OutOfMemory => OutOfMemory
        case Got(m2, l2) =>
          var linked :=
              Write(Write(m2.ram, FrameOf(l4), 0, TableEntry(FrameOf(l3))), FrameOf(l3), 0, TableEntry(FrameOf(l2)));
          match IdentityTables(m2.(ram := linked), FrameOf(l2), 257)
          case OutOfMemory => OutOfMemory
          case Got(m1, _) => Got(m1, FrameOf(l4))
  }

  datatype Booted = BootFailed | Running(mem: Mem, kernel: Kernel)

  /** `pmm_initialize` then `vmm_initialize`, whatever memory held before. */
  function BootKernel(ram: Ram): Booted {
    match SharedTables(Mem(ram, InitialStack(FREE_FRAMES)), 6)
    case NoMemory => BootFailed
    case Made(m1, shared) =>
      match AllMemoryIdentity(m1)
      case OutOfMemory => BootFailed
      case Got(m2, root) => Running(m2, Kernel(shared, root))
  }

  // ---- where everything lands: the n-th frame of the stack is frame 3071 + n

  lemma PopInitial(m: Mem, n: nat)
    requires 2 <= n <= FREE_FRAMES && m.stack == InitialStack(n)
    ensures 3071 + n < FRAMES && FrameOf(PageAddress(3071 + n)) == 3071 + n
    ensures PageAlloc(m) == Got(Mem(ZeroFrame(m.ram, 3071 + n), InitialStack(n - 1)), PageAddress(3071 + n))
  {
    assert m.stack[..n - 1] == InitialStack(n - 1);
  }

  lemma {:induction false} SharedTablesLand(m: Mem, n: nat, s: nat)
    requires n <= 6 && 10 <= s <= FREE_FRAMES && m.stack == InitialStack(s)
    ensures var r := SharedTables(m, n);
            && r.Made? && r.mem.stack == InitialStack(s - n) && |r.frames| == n
            && forall i :: 0 <= i < n ==>
                 r.frames[i] == 3071 + s - i && r.mem.ram[3071 + s - i] == IdentityWords(i, true, 2 <= i <= 4)
  {
    if n > 0 {
      SharedTablesLand(m, n - 1, s);
      SharedRoundWrites(m, n - 1, s);
      var before, r := SharedTables(m, n - 1), SharedTables(m, n);
      forall i | 0 <= i < n
        ensures r.frames[i] == 3071 + s - i && r.mem.ram[3071 + s - i] == IdentityWords(i, true, 2 <= i <= 4)
      {
        if i < n - 1 {
          assert before.frames[i] == 3071 + s - i;
          assert r.frames[i] == before.frames[i] && r.mem.ram[3071 + s - i] == before.mem.ram[3071 + s - i];
        }
      }
    }
  }

  lemma SharedRoundWrites(m: Mem, n: nat, s: nat)
    requires n < 6 && 10 <= s <= FREE_FRAMES
    requires SharedTables(m, n).Made? && SharedTables(m, n).mem.stack == InitialStack(s - n)
    ensures var before, f := SharedTables(m, n), 3071 + s - n;
            SharedTables(m, n + 1) ==
            Made(Mem(before.mem.ram[f := IdentityWords(n, true, 2 <= n <= 4)], InitialStack(s - n - 1)),
                 before.frames + [f])
  {
    PopInitial(SharedTables(m, n).mem, s - n);
    IdentityOverZeros(ZeroFrame(SharedTables(m, n).mem.ram, 3071 + s - n), 3071 + s - n, n, true, 2 <= n <= 4);
  }

  /** After the loop: entry `i` of `l2` points at identity table `i`; nothing above `l2` has changed. */
  ghost predicate IdentityLanded(before: Ram, after: Ram, l2: nat, s: nat, n: nat)
    requires n <= s && 3071 + s < l2 < FRAMES
  {
    && (forall i :: 0 <= i < n ==> after[3071 + s - i] == IdentityWords(i, false, false))
    && (forall i :: 0 <= i < 512 ==>
          after[l2][i] == if i < n then ZERO_WORD.(p := true, address := 3071 + s - i) else ZERO_WORD)
    && (forall f :: l2 < f < FRAMES ==> after[f] == before[f])
  }

  lemma {:induction false} IdentityTablesLand(m: Mem, l2: nat, s: nat, n: nat)
    requires n <= 257 < s <= FREE_FRAMES && m.stack == InitialStack(s)
    requires 3071 + s < l2 < FRAMES && m.ram[l2] == ZeroWords()
    ensures var r := IdentityTables(m, l2, n);
            r.Got? && r.mem.stack == InitialStack(s - n) && IdentityLanded(m.ram, r.mem.ram, l2, s, n)
  {
    if n > 0 {
      IdentityTablesLand(m, l2, s, n - 1);
      IdentityRound(m, l2, s, n - 1);
    }
  }

  function AfterRound(ram: Ram, l2: nat, f: nat, n: nat): Ram
    requires f < l2 < FRAMES && n < 512
  {
    ram[l2 := ram[l2][n := ZERO_WORD.(p := true, address := f)]][f := IdentityWords(n, false, false)]
  }

  lemma RoundWrites(m: Mem, l2: nat, s: nat, n: nat)
    requires n < 257 < s <= FREE_FRAMES && 3071 + s < l2 < FRAMES
    requires IdentityTables(m, l2, n).Got? && IdentityTables(m, l2, n).mem.stack == InitialStack(s - n)
    requires IdentityTables(m, l2, n).mem.ram[l2][n] == ZERO_WORD
    ensures var before := IdentityTables(m, l2, n).mem;
            IdentityTables(m, l2, n + 1) ==
                Got(Mem(AfterRound(before.ram, l2, 3071 + s - n, n), InitialStack(s - n - 1)), l2)
  {
    var before, f := IdentityTables(m, l2, n).mem, 3071 + s - n;
    PopInitial(before, s - n);
    assert Read(ZeroFrame(before.ram, f), l2, n) == ZERO_WORD;
    var linked := Write(ZeroFrame(before.ram, f), l2, n, ZERO_WORD.(p := true, address := f));
    IdentityOverZeros(linked, f, n, false, false);
    assert linked[f := IdentityWords(n, false, false)] == AfterRound(before.ram, l2, f, n);
  }

  lemma IdentityRound(m: Mem, l2: nat, s: nat, n: nat)
    requires n < 257 < s <= FREE_FRAMES && 3071 + s < l2 < FRAMES
    requires IdentityTables(m, l2, n).Got? && IdentityTables(m, l2, n).mem.stack == InitialStack(s - n)
    requires IdentityLanded(m.ram, IdentityTables(m, l2, n).mem.ram, l2, s, n)
    ensures var r := IdentityTables(m, l2, n + 1);
            r.Got? && r.mem.stack == InitialStack(s - n - 1) && IdentityLanded(m.ram, r.mem.ram, l2, s, n + 1)
  {
    RoundWrites(m, l2, s, n);
  }

  /** The identity tree, entry by entry. */
  ghost predicate KernelImage(ram: Ram, root: nat, l3: nat, l2: nat, l1: seq<nat>) {
    && root < FRAMES && l3 < FRAMES && l2 < FRAMES && |l1| == 257
    && (forall j :: 0 <= j < 512 ==> ram[root][j] == if j == 0 then TableEntry(l3) else ZERO_WORD)
    && (forall j :: 0 <= j < 512 ==> ram[l3][j] == if j == 0 then TableEntry(l2) else ZERO_WORD)
    && (forall j :: 0 <= j < 512 ==> ram[l2][j].p == (j < 257) && !ram[l2][j].rw && !ram[l2][j].us)
    && (forall j :: 0 <= j < 257 ==> ram[l2][j].address == l1[j])
    && (forall i :: 0 <= i < 257 ==> l1[i] < FRAMES && ram[l1[i]] == IdentityWords(i, false, false))
  }

  function IdentityFrames(s: nat): (l1: seq<nat>)
    requires s >= 257
    ensures |l1| == 257 && forall i :: 0 <= i < 257 ==> l1[i] == 3071 + s - i
  {
    seq(257, i requires 0 <= i < 257 => 3071 + s - i)
  }

  lemma AllMemoryIdentityLands(m: Mem, s: nat)
    requires 261 <= s <= FREE_FRAMES && m.stack == InitialStack(s)
    ensures var r := AllMemoryIdentity(m);
            && r.Got? && r.at == 3071 + s && r.mem.stack == InitialStack(s - 260)
            && KernelImage(r.mem.ram, 3071 + s, 3070 + s, 3069 + s, IdentityFrames(s - 3))
            && forall f :: 3071 + s < f < FRAMES ==> r.mem.ram[f] == m.ram[f]
  {
    PopInitial(m, s);
    var m4 := PageAlloc(m).mem;
    PopInitial(m4, s - 1);
    var m3 := PageAlloc(m4).mem;
    PopInitial(m3, s - 2);
    var m2 := PageAlloc(m3).mem;
    var linked := Write(Write(m2.ram, 3071 + s, 0, TableEntry(3070 + s)), 3070 + s, 0, TableEntry(3069 + s));
    IdentityTablesLand(m2.(ram := linked), 3069 + s, s - 3, 257);
    var r := IdentityTables(m2.(ram := linked), 3069 + s, 257);
    assert AllMemoryIdentity(m) == Got(r.mem, 3071 + s);
    assert r.mem.ram[3071 + s] == linked[3071 + s] && r.mem.ram[3070 + s] == linked[3070 + s];
  }

  lemma BootKernelLands(ram: Ram)
    ensures BootKernel(ram).Running?
    ensures var b := BootKernel(ram); BootImage(b.mem, b.kernel, FREE_FRAMES - 6)
  {
    var m := Mem(ram, InitialStack(FREE_FRAMES));
    SharedTablesLand(m, 6, FREE_FRAMES);
    var made := SharedTables(m, 6);
    AllMemoryIdentityLands(made.mem, FREE_FRAMES - 6);
    var b := BootKernel(ram);
    assert b == Running(AllMemoryIdentity(made.mem).mem, Kernel(made.frames, 3071 + FREE_FRAMES - 6));
    forall i | 0 <= i < 6
      ensures b.kernel.shared[i] == 3071 + FREE_FRAMES - i
      ensures b.mem.ram[3071 + FREE_FRAMES - i] == IdentityWords(i, true, 2 <= i <= 4)
    {
      assert b.mem.ram[3071 + FREE_FRAMES - i] == made.mem.ram[3071 + FREE_FRAMES - i];
    }
  }

  /** Memory and kernel after boot, when `s` frames were left after the shared tables. */
  ghost predicate BootImage(m: Mem, k: Kernel, s: nat) {
    && 261 <= s <= FREE_FRAMES - 6 && m.stack == InitialStack(s - 260)
    && |k.shared| == 6 && k.root == 3071 + s
    && (forall i :: 0 <= i < 6 ==>
          k.shared[i] == 3077 + s - i && m.ram[3077 + s - i] == IdentityWords(i, true, 2 <= i <= 4))
    && KernelImage(m.ram, 3071 + s, 3070 + s, 3069 + s, IdentityFrames(s - 3))
  }

  // ---- who owns it

  function BootOwner(f: nat, s: nat): Owner {
    if f < 3072 then Low
    else if f < 2812 + s then Free(f - 3072)
    else if f < 3069 + s then Owned(3071 + s, Sub(FIRST_L2, 3068 + s - f))
    else if f == 3069 + s then Owned(3071 + s, FIRST_L2)
    else if f == 3070 + s then Owned(3071 + s, Sub(Top, 0))
    else if f == 3071 + s then Owned(3071 + s, Top)
    else if f <= 3077 + s then Shared(3077 + s - f)
    else Lost
  }

  function BootOwners(s: nat): (own: seq<Owner>)
    ensures |own| == FRAMES && forall f :: 0 <= f < FRAMES ==> own[f] == BootOwner(f, s)
  {
    seq(FRAMES, f requires 0 <= f < FRAMES => BootOwner(f, s))
  }

  function KernelTreeNode(root: nat, l3: nat, l2: nat, l1: seq<nat>, q: Path): Reached
    requires |l1| == 257
  {
    if q == Top then At(root)
    else if q == Sub(Top, 0) then At(l3)
    else if q == FIRST_L2 then At(l2)
    else if q.up == FIRST_L2 && q.idx < 257 then At(l1[q.idx])
    else if q.up.Sub? && q.up.up == FIRST_L2 && q.up.idx < 257 && q.idx < 512 then At(q.up.idx * 512 + q.idx)
    else Absent
  }

  lemma {:induction false} KernelTreeNodes(ram: Ram, root: nat, l3: nat, l2: nat, l1: seq<nat>, q: Path)
    requires KernelImage(ram, root, l3, l2, l1) && Depth(q) <= 4
    ensures Node(ram, root, q) == KernelTreeNode(root, l3, l2, l1, q)
  {
    assert Depth(FIRST_L2) == 2;
    if q.Sub? {
      KernelTreeNodes(ram, root, l3, l2, l1, q.up);
      if q.up.Sub? && q.up.up == FIRST_L2 && q.up.idx < 257 {
        assert ram[l1[q.up.idx]] == IdentityWords(q.up.idx, false, false);
      }
    }
  }

  lemma KernelTablesOwned(m: Mem, k: Kernel, s: nat, q: Path)
    requires BootImage(m, k, s) && Depth(q) <= 3 && Node(m.ram, k.root, q).At?
    ensures FIRST_FRAME < Node(m.ram, k.root, q).frame < FRAMES
    ensures BootOwners(s)[Node(m.ram, k.root, q).frame] == Owned(k.root, q)
  {
    assert Depth(FIRST_L2) == 2;
    KernelTreeNodes(m.ram, k.root, 3070 + s, 3069 + s, IdentityFrames(s - 3), q);
  }

  lemma BootKernelTree(m: Mem, k: Kernel, s: nat)
    requires BootImage(m, k, s)
    ensures KernelTreeOk(m.ram, BootOwners(s), k.root)
  {
    forall q ensures KernelNodeFits(m.ram, BootOwners(s), k.root, q) {
      if Depth(q) <= 3 && Node(m.ram, k.root, q).At? { KernelTablesOwned(m, k, s, q); }
    }
    forall i, j | 0 <= i < 257 && 0 <= j < 512 ensures IdentityAt(m.ram, k.root, i, j) {
      KernelTreeNodes(m.ram, k.root, 3070 + s, 3069 + s, IdentityFrames(s - 3), PagePath(0, 0, i, j));
    }
  }

  lemma BootSharedTable(m: Mem, k: Kernel, s: nat, i: nat)
    requires BootImage(m, k, s) && i < 6
    ensures SharedTableOk(m.ram, k.shared[i], i, BootOwners(s))
  {
    forall j | 0 <= j < 512
      ensures Read(m.ram, k.shared[i], j).p && Read(m.ram, k.shared[i], j).address == i * 512 + j
    {
      assert m.ram[k.shared[i]][j] == IdentityWords(i, true, 2 <= i <= 4)[j];
    }
  }

  lemma BootAccounts(m: Mem, k: Kernel, s: nat, f: nat)
    requires BootImage(m, k, s) && f < FRAMES
    ensures Accounted(m, k, {}, BootOwners(s), f)
  {
    assert Depth(FIRST_L2) == 2;
    var o := BootOwner(f, s);
    if o.Owned? { KernelTreeNodes(m.ram, k.root, 3070 + s, 3069 + s, IdentityFrames(s - 3), o.path); }
    if o.Shared? { assert k.shared[o.index] == f; }
  }

  /** Booting leaves every frame owned, whatever memory held before. */
  lemma BootEstablishesOwnership(ram: Ram)
    ensures var b := BootKernel(ram); b.Running? && Inv(b.mem, b.kernel, {}, BootOwners(FREE_FRAMES - 6))
  {
    BootKernelLands(ram);
    var b := BootKernel(ram);
    var s := FREE_FRAMES - 6;
    BootStack(b.mem, b.kernel, s);
    BootKernelTree(b.mem, b.kernel, s);
    forall i | 0 <= i < 6 ensures SharedTableOk(b.mem.ram, b.kernel.shared[i], i, BootOwners(s)) {
      BootSharedTable(b.mem, b.kernel, s, i);
    }
    var own := BootOwners(s);
    forall f | 0 <= f < FRAMES ensures Accounted(b.mem, b.kernel, {}, own, f) {
      BootAccounts(b.mem, b.kernel, s, f);
    }
  }

  lemma BootStack(m: Mem, k: Kernel, s: nat)
    requires BootImage(m, k, s)
    ensures StackOk(m.stack, BootOwners(s))
  {
    forall i | 0 <= i < |m.stack| ensures HoldsFree(m.stack[i], i, BootOwners(s)) {
      assert m.stack[i] == PageAddress(3072 + i);
    }
  }
}
