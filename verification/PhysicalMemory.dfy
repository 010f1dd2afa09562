/** Physical memory as the kernel's two memory managers see it: 4 KB frames of 512 words, and the
    stack of free frames that Kernel/mem.c keeps between 10 MB and 12 MB. */
module PhysicalMemory {

  const MEGA_BYTE: nat := 0x10_0000
  /** End of the system memory: 512 MB. */
  const FRAMES: nat := 0x2_0000
  /** First frame handed to the frame stack: 12 MB. */
  const FIRST_FRAME: nat := 0xC00
  const FIRST_ADDRESS: nat := 0xC0_0000
  const ENTRIES: nat := 512

  /** Byte addresses and frame numbers: a page is 4 KB. */
  function PageAddress(frame: nat): nat { frame * 0x1000 }

  function FrameOf(address: nat): nat { address / 0x1000 }

  predicate Aligned(address: nat) { address % 0x1000 == 0 }

  /** A 64-bit word of memory, read through the bit fields of a page-table entry. `low` holds the nine
      bits between `us` and `address`, `high` the twelve bits above `address`. */
  datatype Fields = Fields(p: bool, rw: bool, us: bool, low: nat, address: nat, high: nat)

  type Entry = e: Fields | e.low < 0x200 && e.address < 0x100_0000_0000 && e.high < 0x1000
    witness Fields(false, false, false, 0, 0, 0)

  const ZERO_WORD: Entry := Fields(false, false, false, 0, 0, 0)

  function Bit(b: bool): nat { if b then 1 else 0 }

  /** The 64-bit word an entry occupies. */
  function Word(e: Entry): nat {
    Bit(e.p) + 2 * Bit(e.rw) + 4 * Bit(e.us) + 8 * e.low + 0x1000 * e.address
      + 0x10_0000_0000_0000 * e.high
  }

  /** The fields of a 64-bit word. */
  function FieldsOf(w: nat): Entry
    requires w < 0x1_0000_0000_0000_0000
  {
    Fields(w % 2 == 1, w / 2 % 2 == 1, w / 4 % 2 == 1, w / 8 % 0x200,
           w / 0x1000 % 0x100_0000_0000, w / 0x10_0000_0000_0000)
  }

  lemma FlagBits(b0: bool, b1: bool, b2: bool, rest: nat)
    ensures var n := Bit(b0) + 2 * Bit(b1) + 4 * Bit(b2) + 8 * rest;
            (n % 2 == 1) == b0 && (n / 2 % 2 == 1) == b1 && (n / 4 % 2 == 1) == b2 && n / 8 == rest
  {
    var n := Bit(b0) + 2 * Bit(b1) + 4 * Bit(b2) + 8 * rest;
    assert n / 2 == Bit(b1) + 2 * (Bit(b2) + 2 * rest);
    assert n / 4 == Bit(b2) + 2 * rest;
  }

  lemma AddressBits(low: nat, address: nat, high: nat)
    requires low < 0x200 && address < 0x100_0000_0000
    ensures var n := low + 0x200 * (address + 0x100_0000_0000 * high);
            n % 0x200 == low && n / 0x200 % 0x100_0000_0000 == address && n / 0x200 / 0x100_0000_0000 == high
  {
    assert (low + 0x200 * (address + 0x100_0000_0000 * high)) / 0x200 == address + 0x100_0000_0000 * high;
  }

  lemma WordOfFields(e: Entry)
    ensures Word(e) < 0x1_0000_0000_0000_0000 && FieldsOf(Word(e)) == e
  {
    var n := Word(e);
    var n3 := e.low + 0x200 * (e.address + 0x100_0000_0000 * e.high);
    FlagBits(e.p, e.rw, e.us, n3);
    AddressBits(e.low, e.address, e.high);
    assert n / 8 == n3;
    assert n / 0x1000 == n3 / 0x200;
    assert n / 0x10_0000_0000_0000 == n3 / 0x200 / 0x100_0000_0000;
  }

  lemma FieldsOfWord(w: nat)
    requires w < 0x1_0000_0000_0000_0000
    ensures Word(FieldsOf(w)) == w
  {
    var a, b, c, d, f := w / 2, w / 4, w / 8, w / 0x1000, w / 0x10_0000_0000_0000;
    assert a / 2 == b && b / 2 == c && c / 0x200 == d && d / 0x100_0000_0000 == f;
    assert w == w % 2 + 2 * a && a == a % 2 + 2 * b && b == b % 2 + 2 * c;
    assert c == c % 0x200 + 0x200 * d && d == d % 0x100_0000_0000 + 0x100_0000_0000 * f;
  }

  /** The field widths tile the word: memory can be kept as entries without losing a bit. */
  lemma WordFieldsRoundTrip(e: Entry, w: nat)
    requires w < 0x1_0000_0000_0000_0000
    ensures Word(e) < 0x1_0000_0000_0000_0000 && FieldsOf(Word(e)) == e
    ensures Word(FieldsOf(w)) == w
  {
    WordOfFields(e);
    FieldsOfWord(w);
  }

  function ZeroWords(): (f: seq<Entry>)
    ensures |f| == ENTRIES && forall i :: 0 <= i < ENTRIES ==> f[i] == ZERO_WORD
  {
    seq<Entry>(ENTRIES, _ => ZERO_WORD)
  }

  type Frame = s: seq<Entry> | |s| == ENTRIES witness ZeroWords()

  function ZeroFrames(): (r: seq<Frame>)
    ensures |r| == FRAMES
  {
    seq<Frame>(FRAMES, _ => ZeroWords())
  }

  type Ram = s: seq<Frame> | |s| == FRAMES witness ZeroFrames()

  /** Word `i` of frame `t`. Beyond the 512 MB there is nothing to read. */
  function Read(ram: Ram, t: nat, i: nat): Entry {
    if t < FRAMES && i < ENTRIES then ram[t][i] else ZERO_WORD
  }

  function Write(ram: Ram, t: nat, i: nat, e: Entry): Ram {
    if t < FRAMES && i < ENTRIES then ram[t := ram[t][i := e]] else ram
  }

  function ZeroFrame(ram: Ram, t: nat): Ram {
    if t < FRAMES then ram[t := ZeroWords()] else ram
  }

  /** Memory and the live part of the frame stack, bottom first. The stack holds byte addresses. */
  datatype Mem = Mem(ram: Ram, stack: seq<nat>)

  /** The outcome of an allocation: `mem_panic` stops the machine, so no state follows it. */
  datatype Alloc = OutOfMemory | Got(mem: Mem, at: nat)

  /** `pmm_page_alloc`: the bottom slot is never popped, and the popped frame is cleared. */
  function PageAlloc(m: Mem): Alloc {
    if |m.stack| < 2 then OutOfMemory
    else
      var top := m.stack[|m.stack| - 1];
      Got(Mem(ZeroFrame(m.ram, FrameOf(top)), m.stack[..|m.stack| - 1]), top)
  }

  /** `pmm_page_free` of an aligned address; an unaligned one leaves the stack as it was. */
  function PageFree(m: Mem, address: nat): Mem {
    if !Aligned(address) then m else m.(stack := m.stack + [address])
  }

  predicate Unlisted(stack: seq<nat>, address: nat) {
    forall i :: 0 <= i < |stack| ==> stack[i] != address
  }

  /** Giving back an allocated page by an address `k` bytes into it: the page is free again exactly when `k` is 0.
      Otherwise nothing changes, and as no address is listed twice no later allocation can return the page. */
  lemma FreeUndoesAllocIff(m: Mem, k: nat)
    requires |m.stack| >= 2 && k < 0x1000 && Aligned(m.stack[|m.stack| - 1])
    requires Unlisted(m.stack[..|m.stack| - 1], m.stack[|m.stack| - 1])
    ensures var got := PageAlloc(m);
            && (PageFree(got.mem, got.at + k).stack == m.stack <==> k == 0)
            && (PageFree(got.mem, got.at + k) == got.mem <==> k != 0)
            && (k != 0 <==> Unlisted(PageFree(got.mem, got.at + k).stack, got.at))
  {
    var got, last := PageAlloc(m), |m.stack| - 1;
    assert m.stack == m.stack[..last] + [m.stack[last]];
    assert k == 0 ==> PageFree(got.mem, got.at + k).stack[last] == got.at;
  }

  /** 12 MB + 4 KB is handed out and given back by its eighth byte: it is lost. */
  lemma UnalignedFreeLosesPage(ram: Ram)
    ensures var m := Mem(ram, [FIRST_ADDRESS, 0xC0_1000]);
            && PageAlloc(m).Got? && PageAlloc(m).at == 0xC0_1000
            && PageFree(PageAlloc(m).mem, 0xC0_1008).stack == [FIRST_ADDRESS]
            && PageFree(PageAlloc(m).mem, 0xC0_1000).stack == [FIRST_ADDRESS, 0xC0_1000]
  {
    var m := Mem(ram, [FIRST_ADDRESS, 0xC0_1000]);
    assert m.stack[..1] == [FIRST_ADDRESS];
  }
}
