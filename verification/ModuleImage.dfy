/** The image the module packer writes, and what the kernel's loader makes of it in memory. */
module ModuleImage {
  import opened Words

  type Bytes = seq<Byte>

  // ---- the format

  function Word32(v: nat): (b: Bytes)
    ensures |b| == 4
  {
    ToBytes(v % 0x1_0000_0000, 4)
  }

  /** One module: its size, cut to 32 bits, and its bytes. */
  function Record(m: Bytes): Bytes {
    Word32(|m|) + m
  }

  function Records(mods: seq<Bytes>): (b: Bytes) {
    if mods == [] then [] else Record(mods[0]) + Records(mods[1..])
  }

  /** What follows the kernel: the number of modules and the modules. */
  function Payload(mods: seq<Bytes>): Bytes {
    Word32(|mods|) + Records(mods)
  }

  /** The packed image of a kernel and its modules. */
  function Image(files: seq<Bytes>): Bytes
    requires files != []
  {
    files[0] + Payload(files[1..])
  }

  function Read32(mem: Bytes, at: nat): (v: nat)
    requires at + 4 <= |mem|
    ensures v < 0x1_0000_0000
  {
    PowerOf4();
    FromBytes(mem[at..at + 4])
  }

  lemma {:induction false} Read32OfWord32(mem: Bytes, at: nat, v: nat)
    requires at + 4 <= |mem| && v < 0x1_0000_0000 && mem[at..at + 4] == Word32(v)
    ensures Read32(mem, at) == v
  {
    PowerOf4();
    BytesRoundTrip(v, 4);
  }

  // ---- copying

  predicate Apart(a: nat, n: nat, b: nat, m: nat) {
    a + n <= b || b + m <= a
  }

  predicate PartAt(was: Bytes, b: Bytes, dst: nat, src: nat, done: nat, k: nat)
    requires k < |was| == |b| && src + done <= |was|
  {
    b[k] == if dst <= k < dst + done then was[src + (k - dst)] else was[k]
  }

  /** Memory with the first `done` of the bytes copied. */
  predicate PartCopied(was: Bytes, b: Bytes, dst: nat, src: nat, done: nat) {
    |b| == |was| && src + done <= |was| && forall k :: 0 <= k < |was| ==> PartAt(was, b, dst, src, done, k)
  }

  /** n bytes from `src` on, copied to `dst`. */
  function Copied(mem: Bytes, dst: nat, src: nat, n: nat): (r: Bytes)
    requires dst + n <= |mem| && src + n <= |mem|
    ensures PartCopied(mem, r, dst, src, n)
  {
    var r := mem[..dst] + mem[src..src + n] + mem[dst + n..];
    assert forall k :: 0 <= k < |mem| ==> PartAt(mem, r, dst, src, n, k);
    r
  }

  /** A part of what lies at `base`. */
  lemma {:induction false} PartOf(mem: Bytes, base: nat, b: Bytes, i: nat, j: nat)
    requires base + |b| <= |mem| && mem[base..base + |b|] == b && i <= j <= |b|
    ensures mem[base + i..base + j] == b[i..j]
  {
    forall k | 0 <= k < j - i ensures mem[base + i..base + j][k] == b[i..j][k] {
      assert mem[base + i + k] == mem[base..base + |b|][i + k];
    }
  }

  lemma {:induction false} PartsOfSum(a: Bytes, b: Bytes, c: Bytes)
    ensures var s := a + (b + c);
            s[|a|..|a| + |b|] == b && s[|a| + |b|..|s|] == c
  {
  }

  /** m more bytes, copied from memory as it is by now, are the bytes of memory as it was. */
  lemma {:induction false} MoreCopied(was: Bytes, now: Bytes, next: Bytes, dst: nat, src: nat, done: nat, m: nat)
    requires PartCopied(was, now, dst, src, done) && |next| == |was| && src + done + m <= |was|
    requires Apart(dst, done + m, src, done + m)
    requires PartCopied(now, next, dst + done, src + done, m)
    ensures PartCopied(was, next, dst, src, done + m)
  {
    var all := done + m;
    forall k | 0 <= k < |was| ensures PartAt(was, next, dst, src, all, k) {
      assert PartAt(was, now, dst, src, done, k) && PartAt(now, next, dst + done, src + done, m, k);
      assert dst + done <= k < dst + done + m ==> PartAt(was, now, dst, src, done, src + (k - dst));
    }
  }

  // ---- loading

  /** The modules from number i on can be loaded: their records lie in memory, apart from where they go. */
  predicate CanLoad(mem: Bytes, at: nat, targets: seq<nat>, i: nat, count: nat)
    decreases count - i
  {
    i >= count ||
    (at + 4 <= |mem| && i < |targets| &&
     var size := Read32(mem, at);
     at + 4 + size <= |mem| && targets[i] + size <= |mem| && Apart(targets[i], size, at + 4, size) &&
     CanLoad(Copied(mem, targets[i], at + 4, size), at + 4 + size, targets, i + 1, count))
  }

  /** Memory after the modules from number i on are loaded from the records at `at`. */
  function Loaded(mem: Bytes, at: nat, targets: seq<nat>, i: nat, count: nat): (r: Bytes)
    requires CanLoad(mem, at, targets, i, count)
    ensures |r| == |mem|
    decreases count - i
  {
    if i >= count then mem
    else
      var size := Read32(mem, at);
      Loaded(Copied(mem, targets[i], at + 4, size), at + 4 + size, targets, i + 1, count)
  }

  lemma {:induction false} CanLoadStep(mem: Bytes, at: nat, targets: seq<nat>, i: nat, count: nat)
    requires i < count && CanLoad(mem, at, targets, i, count)
    ensures at + 4 <= |mem| && i < |targets|
    ensures var size := Read32(mem, at);
            && at + 4 + size <= |mem| && targets[i] + size <= |mem| && Apart(targets[i], size, at + 4, size)
            && CanLoad(Copied(mem, targets[i], at + 4, size), at + 4 + size, targets, i + 1, count)
            && Loaded(mem, at, targets, i, count)
               == Loaded(Copied(mem, targets[i], at + 4, size), at + 4 + size, targets, i + 1, count)
  {
  }

  lemma {:induction false} LoadedStep(mem: Bytes, at: nat, targets: seq<nat>, i: nat, count: nat, size: nat)
    requires i < count && at + 4 + size <= |mem| && i < |targets| && size == Read32(mem, at)
    requires targets[i] + size <= |mem| && Apart(targets[i], size, at + 4, size)
    requires CanLoad(Copied(mem, targets[i], at + 4, size), at + 4 + size, targets, i + 1, count)
    ensures CanLoad(mem, at, targets, i, count)
    ensures Loaded(mem, at, targets, i, count)
            == Loaded(Copied(mem, targets[i], at + 4, size), at + 4 + size, targets, i + 1, count)
  {
  }

  // ---- pack, then load

  predicate Small(mods: seq<Bytes>) {
    forall i :: 0 <= i < |mods| ==> |mods[i]| < 0x1_0000_0000
  }

  predicate TargetsApart(mods: seq<Bytes>, targets: seq<nat>, i: nat, j: nat)
    requires i < |mods| && j < |mods| && |mods| <= |targets|
  {
    i != j ==> Apart(targets[i], |mods[i]|, targets[j], |mods[j]|)
  }

  predicate TargetClear(mods: seq<Bytes>, targets: seq<nat>, i: nat, a: nat, n: nat, size: nat)
    requires i < |mods| && |mods| <= |targets|
  {
    targets[i] + |mods[i]| <= size && Apart(targets[i], |mods[i]|, a, n)
  }

  /** The targets lie in memory, apart from each other and from [a, a + n). */
  predicate TargetsOk(mods: seq<Bytes>, targets: seq<nat>, i: nat, a: nat, n: nat, size: nat) {
    && |mods| <= |targets|
    && (forall j :: i <= j < |mods| ==> TargetClear(mods, targets, j, a, n, size))
    && (forall j, k :: i <= j < |mods| && i <= k < |mods| ==> TargetsApart(mods, targets, j, k))
  }

  predicate InTarget(mods: seq<Bytes>, targets: seq<nat>, j: nat, x: nat)
    requires j < |mods| && |mods| <= |targets|
  {
    targets[j] <= x < targets[j] + |mods[j]|
  }

  predicate HoldsModule(mem: Bytes, mods: seq<Bytes>, targets: seq<nat>, j: nat)
    requires j < |mods| && |mods| <= |targets|
  {
    targets[j] + |mods[j]| <= |mem| && mem[targets[j]..targets[j] + |mods[j]|] == mods[j]
  }

  /** No module from i on goes to address x. */
  predicate Untouched(mods: seq<Bytes>, targets: seq<nat>, i: nat, x: nat)
    requires |mods| <= |targets|
  {
    forall j :: i <= j < |mods| ==> !InTarget(mods, targets, j, x)
  }

  /** The bytes the records from number i on take. */
  function Size(mods: seq<Bytes>, i: nat): nat
    decreases |mods| - i
  {
    if i >= |mods| then 0 else 4 + |mods[i]| + Size(mods, i + 1)
  }

  /** The records from number i on lie at `at`. */
  predicate RecordsAt(mem: Bytes, at: nat, mods: seq<Bytes>, i: nat)
    decreases |mods| - i
  {
    i >= |mods| ||
    (at + 4 + |mods[i]| <= |mem| && mem[at..at + 4] == Word32(|mods[i]|) && mem[at + 4..at + 4 + |mods[i]|] == mods[i]
     && RecordsAt(mem, at + 4 + |mods[i]|, mods, i + 1))
  }

  /** Packed records lie where the packed bytes are. */
  lemma {:induction false} PackedRecordsAt(mem: Bytes, at: nat, mods: seq<Bytes>, i: nat)
    requires i <= |mods| && at + |Records(mods[i..])| <= |mem|
    requires mem[at..at + |Records(mods[i..])|] == Records(mods[i..])
    ensures RecordsAt(mem, at, mods, i) && Size(mods, i) == |Records(mods[i..])|
    decreases |mods| - i
  {
    if i < |mods| {
      var m, rest := mods[i], Records(mods[i + 1..]);
      assert mods[i..][0] == m && mods[i..][1..] == mods[i + 1..];
      var b := Word32(|m|) + m + rest;
      assert Records(mods[i..]) == b;
      assert b[0..4] == Word32(|m|) && b[4..4 + |m|] == m && b[4 + |m|..|b|] == rest;
      PartOf(mem, at, b, 0, 4);
      PartOf(mem, at, b, 4, 4 + |m|);
      PartOf(mem, at, b, 4 + |m|, |b|);
      PackedRecordsAt(mem, at + 4 + |m|, mods, i + 1);
    }
  }

  /** Records stay where memory does not change. */
  lemma {:induction false} RecordsStay(mem: Bytes, r: Bytes, at: nat, mods: seq<Bytes>, i: nat)
    requires RecordsAt(mem, at, mods, i) && |r| == |mem|
    requires forall k :: at <= k < at + Size(mods, i) && k < |mem| ==> r[k] == mem[k]
    ensures RecordsAt(r, at, mods, i)
    decreases |mods| - i
  {
    if i < |mods| {
      var e := at + 4 + |mods[i]|;
      assert r[at..at + 4] == mem[at..at + 4] && r[at + 4..e] == mem[at + 4..e];
      RecordsStay(mem, r, e, mods, i + 1);
    }
  }

  /** From the records of the modules from i on, each of those modules arrives byte for byte, and nothing else in
      memory changes. */
  lemma {:induction false} RecordsLoad(mem: Bytes, at: nat, mods: seq<Bytes>, targets: seq<nat>, i: nat)
    requires Small(mods) && i <= |mods| && RecordsAt(mem, at, mods, i)
    requires TargetsOk(mods, targets, i, at, Size(mods, i), |mem|)
    ensures CanLoad(mem, at, targets, i, |mods|)
    ensures var r := Loaded(mem, at, targets, i, |mods|);
            && (forall j :: i <= j < |mods| ==> HoldsModule(r, mods, targets, j))
            && (forall x :: 0 <= x < |mem| && Untouched(mods, targets, i, x) ==> r[x] == mem[x])
    decreases |mods| - i
  {
    if i < |mods| {
      var e := at + 4 + |mods[i]|;
      OneLoads(mem, at, mods, targets, i);
      var next := Copied(mem, targets[i], at + 4, |mods[i]|);
      RestClear(mods, targets, i, at, |mem|);
      RecordsLoad(next, e, mods, targets, i + 1);
      var r := Loaded(next, e, targets, i + 1, |mods|);
      LoadedStep(mem, at, targets, i, |mods|, |mods[i]|);
      assert Loaded(mem, at, targets, i, |mods|) == r;
      FirstStays(next, r, mods, targets, i);
      forall j | i <= j < |mods| ensures HoldsModule(r, mods, targets, j) { }
      forall x | 0 <= x < |mem| && Untouched(mods, targets, i, x) ensures r[x] == mem[x] {
        assert !InTarget(mods, targets, i, x) && Untouched(mods, targets, i + 1, x);
      }
    }
  }

  /** Module i arrives, and the records behind it stay. */
  lemma {:induction false} OneLoads(mem: Bytes, at: nat, mods: seq<Bytes>, targets: seq<nat>, i: nat)
    requires Small(mods) && i < |mods| && RecordsAt(mem, at, mods, i)
    requires TargetsOk(mods, targets, i, at, Size(mods, i), |mem|)
    ensures at + 4 + |mods[i]| <= |mem| && Read32(mem, at) == |mods[i]| && targets[i] + |mods[i]| <= |mem|
    ensures Apart(targets[i], |mods[i]|, at + 4, |mods[i]|)
    ensures var next := Copied(mem, targets[i], at + 4, |mods[i]|);
            HoldsModule(next, mods, targets, i) && RecordsAt(next, at + 4 + |mods[i]|, mods, i + 1)
  {
    Read32OfWord32(mem, at, |mods[i]|);
    assert TargetClear(mods, targets, i, at, Size(mods, i), |mem|);
    var next := Copied(mem, targets[i], at + 4, |mods[i]|);
    RecordsStay(mem, next, at + 4 + |mods[i]|, mods, i + 1);
    assert next[targets[i]..targets[i] + |mods[i]|] == mem[at + 4..at + 4 + |mods[i]|];
  }

  lemma {:induction false} RestClear(mods: seq<Bytes>, targets: seq<nat>, i: nat, at: nat, size: nat)
    requires i < |mods| && TargetsOk(mods, targets, i, at, Size(mods, i), size)
    ensures TargetsOk(mods, targets, i + 1, at + 4 + |mods[i]|, Size(mods, i + 1), size)
  {
    var e, left := at + 4 + |mods[i]|, Size(mods, i + 1);
    forall j | i + 1 <= j < |mods| ensures TargetClear(mods, targets, j, e, left, size) {
      assert TargetClear(mods, targets, j, at, Size(mods, i), size);
    }
  }

  /** The modules loaded later do not touch module i. */
  lemma {:induction false} FirstStays(next: Bytes, r: Bytes, mods: seq<Bytes>, targets: seq<nat>, i: nat)
    requires i < |mods| <= |targets| && |r| == |next| && HoldsModule(next, mods, targets, i)
    requires forall j, k :: i <= j < |mods| && i <= k < |mods| ==> TargetsApart(mods, targets, j, k)
    requires forall x :: 0 <= x < |next| && Untouched(mods, targets, i + 1, x) ==> r[x] == next[x]
    ensures HoldsModule(r, mods, targets, i)
  {
    forall x | targets[i] <= x < targets[i] + |mods[i]| ensures r[x] == next[x] {
      forall j: nat | i + 1 <= j < |mods|
        ensures !InTarget(mods, targets, j, x)
      {
        assert TargetsApart(mods, targets, i, j);
      }
      assert Untouched(mods, targets, i + 1, x);
    }
    assert r[targets[i]..targets[i] + |mods[i]|] == next[targets[i]..targets[i] + |mods[i]|];
  }

  lemma {:induction false} ImageSlices(mem: Bytes, base: nat, kernel: Bytes, mods: seq<Bytes>)
    requires base + |kernel + Payload(mods)| <= |mem|
    requires mem[base..base + |kernel + Payload(mods)|] == kernel + Payload(mods)
    ensures var start := base + |kernel|;
            && start + 4 + |Records(mods)| <= |mem| && mem[start..start + 4] == Word32(|mods|)
            && mem[start + 4..start + 4 + |Records(mods)|] == Records(mods)
  {
    var k, b := |kernel|, kernel + (Word32(|mods|) + Records(mods));
    PartsOfSum(kernel, Word32(|mods|), Records(mods));
    PartOf(mem, base, b, k, k + 4);
    PartOf(mem, base, b, k + 4, |b|);
  }

  /** In an image at `base` the module count and the records follow the kernel. */
  lemma {:induction false} ImageParts(mem: Bytes, base: nat, files: seq<Bytes>)
    requires files != [] && |files| <= 0x8000_0000
    requires base + |Image(files)| <= |mem| && mem[base..base + |Image(files)|] == Image(files)
    ensures var mods, start := files[1..], base + |files[0]|;
            && |Image(files)| == |files[0]| + 4 + Size(mods, 0)
            && start + 4 <= |mem| && Read32(mem, start) == |mods| && RecordsAt(mem, start + 4, mods, 0)
  {
    var mods, start := files[1..], base + |files[0]|;
    ImageSlices(mem, base, files[0], mods);
    Read32OfWord32(mem, start, |mods|);
    assert mods[0..] == mods;
    PackedRecordsAt(mem, start + 4, mods, 0);
  }

  /** An image packed from a kernel and small modules and put at `base` loads each module byte for byte at its
      target, when loading starts behind the kernel and the targets are apart from each other and the records;
      a target may lie on the kernel or the module count. */
  lemma {:induction false} PackThenLoad(mem: Bytes, base: nat, files: seq<Bytes>, targets: seq<nat>)
    requires files != [] && |files| <= 0x8000_0000 && Small(files[1..])
    requires base + |Image(files)| <= |mem| && mem[base..base + |Image(files)|] == Image(files)
    requires TargetsOk(files[1..], targets, 0, base + |files[0]| + 4, Size(files[1..], 0), |mem|)
    ensures var mods, start := files[1..], base + |files[0]|;
            && start + 4 <= |mem| && Read32(mem, start) == |mods|
            && CanLoad(mem, start + 4, targets, 0, |mods|)
            && var r := Loaded(mem, start + 4, targets, 0, |mods|);
               && (forall j :: 0 <= j < |mods| ==> HoldsModule(r, mods, targets, j))
               && (forall x :: 0 <= x < |mem| && Untouched(mods, targets, 0, x) ==> r[x] == mem[x])
  {
    var mods, start := files[1..], base + |files[0]|;
    ImageParts(mem, base, files);
    RecordsLoad(mem, start + 4, mods, targets, 0);
  }
}
