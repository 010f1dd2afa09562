/** Four-level page tables: what a tree of tables translates, and how adding a missing entry changes it.
    A table pointer is its frame number; all tables start on a frame boundary. */
module PageTables {
  import opened PhysicalMemory

  /** The indices followed from a level 4 table down; a path of depth 4 names a page. */
  datatype Path = Top | Sub(up: Path, idx: nat)

  function Depth(q: Path): nat {
    if q.Top? then 0 else 1 + Depth(q.up)
  }

  datatype Reached = Absent | At(frame: nat)

  /** The frame that path `q` reaches in the tree whose level 4 table is frame `root`. */
  function Node(ram: Ram, root: nat, q: Path): Reached {
    Follow(ram, root, q)
  }

  function Follow(ram: Ram, root: nat, q: Path): Reached {
    match q
    case Top => At(root)
    case Sub(p, i) =>
      match Follow(ram, root, p)
      case Absent => Absent
      case At(t) => var e := Read(ram, t, i); if e.p then At(e.address) else Absent
  }

  /** The bit fields of a canonical address; all but `offset` are nine bits wide. */
  datatype VirtualAddress = VirtualAddress(offset: nat, l1: nat, l2: nat, l3: nat, l4: nat)

  ghost predicate FieldsFit(va: VirtualAddress) {
    va.offset < 0x1000 && va.l1 < 512 && va.l2 < 512 && va.l3 < 512 && va.l4 < 512
  }

  function PagePath(l4: nat, l3: nat, l2: nat, l1: nat): (q: Path)
    ensures Depth(q) == 4
  {
    var l3Path := Sub(Top, l4);
    assert Depth(l3Path) == 1;
    var l1Path := Sub(Sub(l3Path, l3), l2);
    assert Depth(l1Path) == 3;
    Sub(l1Path, l1)
  }

  function PathOf(va: VirtualAddress): Path {
    PagePath(va.l4, va.l3, va.l2, va.l1)
  }

  datatype Translation = Unmapped | To(address: nat)

  /** The physical address a virtual address translates to. */
  function Walk(ram: Ram, root: nat, va: VirtualAddress): Translation {
    match Node(ram, root, PathOf(va))
    case Absent => Unmapped
    case At(f) => To(PageAddress(f) + va.offset)
  }

  /** `translate`, with its masks and shifts written as remainders and quotients. */
  function Translate(dir: nat): (va: VirtualAddress)
    requires dir < 0x1_0000_0000_0000_0000
    ensures FieldsFit(va)
    ensures dir % 0x1_0000_0000_0000 ==
            va.offset + 0x1000 * va.l1 + 0x20_0000 * va.l2 + 0x4000_0000 * va.l3 + 0x80_0000_0000 * va.l4
  {
    RecomposeFields(dir);
    VirtualAddress(dir % 0x1000, dir / 0x1000 % 0x200, dir / 0x20_0000 % 0x200,
                   dir / 0x4000_0000 % 0x200, dir / 0x80_0000_0000 % 0x200)
  }

  lemma RecomposeFields(dir: nat)
    ensures dir % 0x1_0000_0000_0000 ==
            dir % 0x1000 + 0x1000 * (dir / 0x1000 % 0x200) + 0x20_0000 * (dir / 0x20_0000 % 0x200)
            + 0x4000_0000 * (dir / 0x4000_0000 % 0x200) + 0x80_0000_0000 * (dir / 0x80_0000_0000 % 0x200)
  {
    var a, b, c, d := dir / 0x1000, dir / 0x20_0000, dir / 0x4000_0000, dir / 0x80_0000_0000;
    assert b == a / 0x200 && c == b / 0x200 && d == c / 0x200;
    assert dir / 0x1_0000_0000_0000 == d / 0x200;
  }

  /** The one body shared by `get_l3_table`, `get_l2_table`, `get_l1_table` and `add_to_l1_table`:
      the frame entry `i` of table `t` points to, which is allocated when the entry is not present.
      `p`, `rw` and `us` are set before the frame is popped, `address` after. */
  function EnsureEntry(m: Mem, t: nat, i: nat, us: bool, rw: bool): Alloc {
    if Read(m.ram, t, i).p then Got(m, Read(m.ram, t, i).address)
    else
      var marked := Write(m.ram, t, i, Read(m.ram, t, i).(p := true, rw := rw, us := us));
      match PageAlloc(m.(ram := marked))
      case OutOfMemory => OutOfMemory
      case Got(m1, top) =>
        var linked := Write(m1.ram, t, i, Read(m1.ram, t, i).(address := FrameOf(top) % 0x100_0000_0000));
        Got(m1.(ram := linked), Read(linked, t, i).address)
  }

  /** The frame at `q`, every missing level on the way down filled in. */
  function Fill(m: Mem, root: nat, q: Path, us: bool, rw: bool): Alloc {
    match q
    case Top => Got(m, root)
    case Sub(p, i) =>
      match Fill(m, root, p, us, rw)
      case OutOfMemory => OutOfMemory
      case Got(m1, t) => EnsureEntry(m1, t, i, us, rw)
  }

  /** `add_page`: the byte address of the page of `va`. */
  function AddPage(m: Mem, root: nat, va: VirtualAddress, us: bool, rw: bool): Alloc {
    match Fill(m, root, PathOf(va), us, rw)
    case OutOfMemory => OutOfMemory
    case Got(m1, page) => Got(m1, PageAddress(page))
  }
}
