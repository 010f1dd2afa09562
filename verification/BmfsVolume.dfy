/** The commands of the BMFS utility on a disk image, and the volume as a map from names to contents. */
module BmfsVolume {
  import opened Wrappers
  import opened Words
  import opened BmfsEntries
  import opened BmfsPlacement

  /** A disk of at least three blocks whose size in MiB fits the 32-bit `disksize`. */
  predicate DiskOk(disk: seq<Byte>) {
    0x60_0000 <= |disk| < 0x10_0000_0000_0000
  }

  /** `disksize / 2` */
  function Blocks(disk: seq<Byte>): (n: U64)
    requires DiskOk(disk)
    ensures 3 <= n < 0x8000_0000 && BlockAt(n) <= |disk|
  {
    |disk| / 0x10_0000 / 2
  }

  /** Where block b begins; blocks are 2 MiB. */
  function BlockAt(b: nat): nat {
    b * 0x20_0000
  }

  function Dir(disk: seq<Byte>): (dir: seq<Entry>)
    requires DiskOk(disk)
    ensures DirOk(dir)
  {
    Decode(disk[0x1000..0x2000])
  }

  /** `fwrite` of `data` at `pos`. */
  function Patched(disk: seq<Byte>, pos: nat, data: seq<Byte>): (r: seq<Byte>)
    requires pos + |data| <= |disk|
    ensures |r| == |disk|
    ensures forall i :: 0 <= i < |r| ==> r[i] == if pos <= i < pos + |data| then data[i - pos] else disk[i]
  {
    disk[..pos] + data + disk[pos + |data|..]
  }

  function Flushed(disk: seq<Byte>, dir: seq<Entry>): (r: seq<Byte>)
    requires DiskOk(disk) && DirOk(dir)
    ensures |r| == |disk|
  {
    Patched(disk, 0x1000, Encode(dir))
  }

  lemma FlushedDir(disk: seq<Byte>, dir: seq<Entry>)
    requires DiskOk(disk) && DirOk(dir)
    ensures Dir(Flushed(disk, dir)) == dir
    ensures forall a, b :: 0x2000 <= a <= b <= |disk| ==> Flushed(disk, dir)[a..b] == disk[a..b]
  {
    var r := Flushed(disk, dir);
    assert r[0x1000..0x2000] == Encode(dir);
    DirectoryRoundTrip(dir);
    forall a, b | 0x2000 <= a <= b <= |disk| ensures r[a..b] == disk[a..b] { }
  }

  lemma PatchedDir(disk: seq<Byte>, pos: nat, data: seq<Byte>)
    requires DiskOk(disk) && 0x2000 <= pos && pos + |data| <= |disk|
    ensures Dir(Patched(disk, pos, data)) == Dir(disk)
    ensures Patched(disk, pos, data)[pos..pos + |data|] == data
    ensures forall a, b :: 0 <= a <= b <= |disk| && (b <= pos || pos + |data| <= a) ==>
              Patched(disk, pos, data)[a..b] == disk[a..b]
  {
    var r := Patched(disk, pos, data);
    assert r[0x1000..0x2000] == disk[0x1000..0x2000];
    forall a, b | 0 <= a <= b <= |disk| && (b <= pos || pos + |data| <= a) ensures r[a..b] == disk[a..b] { }
  }

  // ---- the copy loops of read and write

  /** How many bytes a loop copies whose `int` counter has come to `i` and that is to copy `size`. */
  function Copies(i: Int32, size: U64): (n: nat)
    requires size < 0x10_0000_0000_0000
    decreases if i >= 0 then 0x8000_0000 - i else 0
  {
    if AsUnsigned(i) < size then 1 + Copies(Incremented(i), size) else 0
  }

  /** The counter of the loop stays within `int`. */
  predicate NeverWraps(i: Int32, size: U64)
    requires size < 0x10_0000_0000_0000
    decreases if i >= 0 then 0x8000_0000 - i else 0
  {
    AsUnsigned(i) < size ==> i < 0x7FFF_FFFF && NeverWraps(i + 1, size)
  }

  /** The bytes copied of a file: where the counter wraps the loop ends. */
  function LoopCount(size: nat): (n: nat)
    ensures n <= size
  {
    if size <= 0x8000_0000 then size else 0x8000_0000
  }

  function Stored(data: seq<Byte>): (s: seq<Byte>)
    ensures |s| == LoopCount(|data|)
  {
    data[..LoopCount(|data|)]
  }

  lemma {:induction false} CopiesFrom(i: Int32, size: U64)
    requires 0 <= i && size < 0x10_0000_0000_0000
    ensures Copies(i, size) == if i < LoopCount(size) then LoopCount(size) - i else 0
    ensures NeverWraps(i, size) <==> size <= 0x7FFF_FFFF
    decreases 0x8000_0000 - i
  {
    if i < size && i < 0x7FFF_FFFF { CopiesFrom(i + 1, size); }
  }

  /** The counter stays within `int` exactly for files below 2^31 bytes; of larger ones 2^31 bytes are copied. */
  lemma CounterStaysIntIff(size: U64)
    requires size < 0x10_0000_0000_0000
    ensures NeverWraps(0, size) <==> size <= 0x7FFF_FFFF
    ensures Copies(0, size) == LoopCount(size)
  {
    CopiesFrom(0, size);
  }

  // ---- findfile

  predicate Holds(dir: seq<Entry>, i: nat, name: seq<Byte>) {
    Live(dir, i) && Name(dir[i]) == name
  }

  function FindFrom(dir: seq<Entry>, name: seq<Byte>, i: nat): (r: Option<nat>)
    requires i <= |dir|
    decreases |dir| - i
  {
    if i == |dir| || IsEnd(dir[i]) then None
    else if !IsDeleted(dir[i]) && Name(dir[i]) == name then Some(i)
    else FindFrom(dir, name, i + 1)
  }

  function FindFile(dir: seq<Entry>, name: seq<Byte>): (r: Option<nat>) {
    FindFrom(dir, name, 0)
  }

  lemma {:induction false} FindFromFinds(dir: seq<Entry>, name: seq<Byte>, i: nat)
    requires i <= Used(dir)
    ensures var r := FindFrom(dir, name, i);
            && (r.Some? ==>
                  && i <= r.value && Holds(dir, r.value, name)
                  && forall j :: i <= j < r.value ==> !Holds(dir, j, name))
            && (r.None? ==> forall j :: i <= j < |dir| ==> !Holds(dir, j, name))
    decreases |dir| - i
  {
    if i < Used(dir) && !Holds(dir, i, name) { FindFromFinds(dir, name, i + 1); }
  }

  /** The one live entry with the name, if there is one. */
  lemma FindFileFinds(dir: seq<Entry>, name: seq<Byte>, nb: nat)
    requires VolumeDirOk(dir, nb)
    ensures FindFile(dir, name).Some? ==> Holds(dir, FindFile(dir, name).value, name)
    ensures forall i :: 0 <= i < |dir| && Holds(dir, i, name) ==> FindFile(dir, name) == Some(i)
  {
    FindFromFinds(dir, name, 0);
    forall i | 0 <= i < |dir| && Holds(dir, i, name) ensures FindFile(dir, name) == Some(i) {
      var j := FindFile(dir, name).value;
      assert NamesDiffer(dir, i, j) && NamesDiffer(dir, j, i);
    }
  }

  // ---- a sound volume

  predicate NamesDiffer(dir: seq<Entry>, i: nat, j: nat) {
    i < j && Live(dir, i) && Live(dir, j) ==> Name(dir[i]) != Name(dir[j])
  }

  predicate FileOk(dir: seq<Entry>, i: nat) {
    Live(dir, i) ==> Terminated(dir[i]) && dir[i].size <= BlockAt(dir[i].reserved)
  }

  /** Distinct names, and extents that lie apart in the data area and hold their files. */
  predicate VolumeDirOk(dir: seq<Entry>, nb: nat) {
    && DirOk(dir)
    && ExtentsOk(dir[..Used(dir)], nb) && EndsPositive(dir[..Used(dir)])
    && (forall i :: 0 <= i < 64 ==> FileOk(dir, i))
    && (forall i, j :: 0 <= i < j < 64 ==> NamesDiffer(dir, i, j))
  }

  predicate VolumeOk(disk: seq<Byte>) {
    DiskOk(disk) && VolumeDirOk(Dir(disk), Blocks(disk))
  }

  // ---- read

  /** What `read` copies of a file. */
  function Content(disk: seq<Byte>, e: Entry): seq<Byte>
    requires BlockAt(e.start) + e.size <= |disk|
  {
    disk[BlockAt(e.start)..BlockAt(e.start) + LoopCount(e.size)]
  }

  lemma ContentInDisk(disk: seq<Byte>, i: nat)
    requires VolumeOk(disk) && Live(Dir(disk), i)
    ensures var e := Dir(disk)[i];
            && BlockAt(1) <= BlockAt(e.start) && e.size <= BlockAt(e.reserved)
            && BlockAt(e.start) + BlockAt(e.reserved) <= |disk|
  {
    var dir := Dir(disk);
    assert FileOk(dir, i) && InAreaAt(dir[..Used(dir)], i, Blocks(disk));
  }

  function Read(disk: seq<Byte>, name: seq<Byte>): Option<seq<Byte>>
    requires VolumeOk(disk)
  {
    var dir := Dir(disk);
    FindFileFinds(dir, name, Blocks(disk));
    match FindFile(dir, name)
    case None => None
    case Some(i) =>
      ContentInDisk(disk, i);
      Some(Content(disk, dir[i]))
  }

  // ---- write

  datatype Outcome = Done | Refused

  function Written(disk: seq<Byte>, name: seq<Byte>, data: seq<Byte>): (r: (seq<Byte>, Outcome))
    requires VolumeOk(disk)
    ensures |r.0| == |disk| && (r.1 == Refused ==> r.0 == disk)
  {
    var dir := Dir(disk);
    FindFileFinds(dir, name, Blocks(disk));
    match FindFile(dir, name)
    case None => (disk, Refused)
    case Some(i) =>
      ContentInDisk(disk, i);
      if BlockAt(dir[i].reserved) < |data| then (disk, Refused)
      else (Flushed(Patched(disk, BlockAt(dir[i].start), Stored(data)), dir[i := dir[i].(size := |data|)]), Done)
  }

  /** File i ends before file j begins on the disk, or the other way round. */
  lemma ExtentsApart(disk: seq<Byte>, i: nat, j: nat)
    requires VolumeOk(disk) && Live(Dir(disk), i) && Live(Dir(disk), j) && i != j
    ensures var a, b := Dir(disk)[i], Dir(disk)[j];
            || BlockAt(a.start) + BlockAt(a.reserved) <= BlockAt(b.start)
            || BlockAt(b.start) + BlockAt(b.reserved) <= BlockAt(a.start)
  {
    var live := Dir(disk)[..Used(Dir(disk))];
    assert ApartAt(live, i, j);
  }

  lemma UsedIs(dir: seq<Entry>, n: nat)
    requires n <= |dir| && (forall j :: 0 <= j < n ==> !IsEnd(dir[j])) && (n < |dir| ==> IsEnd(dir[n]))
    ensures Used(dir) == n
  {
  }

  /** Another size does not change what is live, nor names and extents. */
  lemma ResizedDir(dir: seq<Entry>, i: nat, size: U64, nb: nat)
    requires VolumeDirOk(dir, nb) && Live(dir, i) && size <= BlockAt(dir[i].reserved)
    ensures var r := dir[i := dir[i].(size := size)];
            VolumeDirOk(r, nb) && Used(r) == Used(dir) && forall j, n :: Holds(r, j, n) <==> Holds(dir, j, n)
  {
    var r := dir[i := dir[i].(size := size)];
    UsedIs(r, Used(dir));
    var live, was := r[..Used(r)], dir[..Used(dir)];
    forall j | 0 <= j < |live| ensures InAreaAt(live, j, nb) && End(live[j]) > 0 {
      assert InAreaAt(was, j, nb) && End(was[j]) > 0;
    }
    forall j, k | 0 <= j < |live| && 0 <= k < |live| ensures ApartAt(live, j, k) { assert ApartAt(was, j, k); }
    forall j | 0 <= j < 64 ensures FileOk(r, j) { assert FileOk(dir, j); }
    forall j, k | 0 <= j < k < 64 ensures NamesDiffer(r, j, k) { assert NamesDiffer(dir, j, k); }
  }

  lemma SameFinds(dir: seq<Entry>, r: seq<Entry>, name: seq<Byte>, nb: nat)
    requires VolumeDirOk(dir, nb) && VolumeDirOk(r, nb)
    requires forall j :: 0 <= j < 64 ==> (Holds(r, j, name) <==> Holds(dir, j, name))
    ensures FindFile(r, name) == FindFile(dir, name)
  {
    FindFileFinds(dir, name, nb);
    FindFileFinds(r, name, nb);
  }

  /** What `write` leaves on the disk. */
  lemma WrittenDir(disk: seq<Byte>, i: nat, data: seq<Byte>)
    requires VolumeOk(disk) && Live(Dir(disk), i) && |data| <= BlockAt(Dir(disk)[i].reserved)
    ensures var e := Dir(disk)[i];
            BlockAt(1) <= BlockAt(e.start) && BlockAt(e.start) + |data| <= |disk| && |data| < 0x1_0000_0000_0000_0000
    ensures var e, dir := Dir(disk)[i], Dir(disk)[i := Dir(disk)[i].(size := |data|)];
            var r := Flushed(Patched(disk, BlockAt(e.start), Stored(data)), dir);
            && VolumeOk(r) && Dir(r) == dir && (forall j, n :: Holds(dir, j, n) <==> Holds(Dir(disk), j, n))
            && r[BlockAt(e.start)..BlockAt(e.start) + LoopCount(|data|)] == Stored(data)
            && forall a, b ::
                 (0x2000 <= a <= b <= |disk| && (b <= BlockAt(e.start) || BlockAt(e.start) + LoopCount(|data|) <= a)
                  ==> r[a..b] == disk[a..b])
  {
    ContentInDisk(disk, i);
    var e, dir := Dir(disk)[i], Dir(disk)[i := Dir(disk)[i].(size := |data|)];
    var patched := Patched(disk, BlockAt(e.start), Stored(data));
    PatchedDir(disk, BlockAt(e.start), Stored(data));
    FlushedDir(patched, dir);
    ResizedDir(Dir(disk), i, |data|, Blocks(disk));
  }

  lemma WrittenReads(disk: seq<Byte>, i: nat, data: seq<Byte>, other: seq<Byte>)
    requires VolumeOk(disk) && Live(Dir(disk), i) && |data| <= BlockAt(Dir(disk)[i].reserved)
    ensures var e := Dir(disk)[i];
            && BlockAt(e.start) + |data| <= |disk| && |data| < 0x1_0000_0000_0000_0000
            && var r := Flushed(Patched(disk, BlockAt(e.start), Stored(data)), Dir(disk)[i := e.(size := |data|)]);
               VolumeOk(r) && Read(r, other) == if other == Name(e) then Some(Stored(data)) else Read(disk, other)
  {
    WrittenDir(disk, i, data);
    var e := Dir(disk)[i];
    var r := Flushed(Patched(disk, BlockAt(e.start), Stored(data)), Dir(disk)[i := e.(size := |data|)]);
    SameFinds(Dir(disk), Dir(r), other, Blocks(disk));
    FindFileFinds(Dir(disk), other, Blocks(disk));
    if other == Name(e) {
      assert Holds(Dir(disk), i, other);
    } else if FindFile(Dir(disk), other).Some? {
      OtherContentStays(disk, i, data, FindFile(Dir(disk), other).value);
    }
  }

  lemma OtherContentStays(disk: seq<Byte>, i: nat, data: seq<Byte>, j: nat)
    requires VolumeOk(disk) && Live(Dir(disk), i) && |data| <= BlockAt(Dir(disk)[i].reserved)
    requires Live(Dir(disk), j) && j != i
    ensures var e, f := Dir(disk)[i], Dir(disk)[j];
            && BlockAt(e.start) + |data| <= |disk| && |data| < 0x1_0000_0000_0000_0000
            && BlockAt(f.start) + f.size <= |disk|
            && Content(Flushed(Patched(disk, BlockAt(e.start), Stored(data)), Dir(disk)[i := e.(size := |data|)]), f)
               == Content(disk, f)
  {
    WrittenDir(disk, i, data);
    var e, f := Dir(disk)[i], Dir(disk)[j];
    ContentInDisk(disk, i);
    ContentInDisk(disk, j);
    ExtentsApart(disk, i, j);
    var a, b := BlockAt(f.start), BlockAt(f.start) + LoopCount(f.size);
    assert b <= BlockAt(e.start) || BlockAt(e.start) + LoopCount(|data|) <= a;
  }

  /** `write` succeeds exactly when the file exists and has room reserved; then it reads back as what was stored of
      the data, every other file as before, and nothing but its size has changed in the directory. */
  lemma WriteIsLocal(disk: seq<Byte>, name: seq<Byte>, data: seq<Byte>, other: seq<Byte>)
    requires VolumeOk(disk)
    ensures var (r, outcome) := Written(disk, name, data);
            var dir := Dir(disk);
            && VolumeOk(r)
            && (outcome == Done <==>
                exists i :: 0 <= i < 64 && Holds(dir, i, name) && |data| <= BlockAt(dir[i].reserved))
            && Read(r, other) == (if outcome == Done && other == name then Some(Stored(data)) else Read(disk, other))
            && (outcome == Done ==>
                  exists i :: 0 <= i < 64 && Holds(dir, i, name) && OnlySizeChanges(dir, Dir(r), i, |data|))
  {
    var dir, nb := Dir(disk), Blocks(disk);
    FindFileFinds(dir, name, nb);
    if FindFile(dir, name).Some? {
      var i := FindFile(dir, name).value;
      if |data| <= BlockAt(dir[i].reserved) {
        WrittenDir(disk, i, data);
        WrittenReads(disk, i, data, other);
        assert Holds(dir, i, name) && OnlySizeChanges(dir, dir[i := dir[i].(size := |data|)], i, |data|);
      }
    }
  }

  /** One entry has got another size and nothing else has changed. */
  predicate OnlySizeChanges(dir: seq<Entry>, r: seq<Entry>, i: nat, size: nat) {
    i < |dir| && size < 0x1_0000_0000_0000_0000 && r == dir[i := dir[i].(size := size)]
  }

  /** A file that was written reads back as its data exactly up to 2^31 bytes: a larger one is cut there, while the
      directory gives its full size. */
  lemma WriteReadsBackIff(disk: seq<Byte>, name: seq<Byte>, data: seq<Byte>)
    requires VolumeOk(disk) && Written(disk, name, data).1 == Done
    ensures var r := Written(disk, name, data).0;
            && VolumeOk(r) && (Read(r, name) == Some(data) <==> |data| <= 0x8000_0000)
            && exists i :: 0 <= i < 64 && Holds(Dir(r), i, name) && Dir(r)[i].size == |data|
  {
    WriteIsLocal(disk, name, data, name);
    assert |data| <= 0x8000_0000 ==> Stored(data) == data;
    FindFileFinds(Dir(disk), name, Blocks(disk));
    var i := FindFile(Dir(disk), name).value;
    WrittenDir(disk, i, data);
    assert Holds(Dir(Written(disk, name, data).0), i, name);
  }

  /** A file of 3 GiB comes back as its first 2 GiB. */
  lemma LargeFileIsCut(disk: seq<Byte>, name: seq<Byte>, data: seq<Byte>)
    requires VolumeOk(disk) && Written(disk, name, data).1 == Done && |data| == 0xC000_0000
    ensures var r := Written(disk, name, data).0;
            VolumeOk(r) && Read(r, name) == Some(data[..0x8000_0000]) && Read(r, name) != Some(data)
  {
    WriteIsLocal(disk, name, data, name);
  }

  // ---- which bytes a write touches

  lemma {:induction false} EncodeUpdate(dir: seq<Entry>, i: nat, e: Entry)
    requires EntriesOk(dir) && i < |dir| && EntryOk(e)
    ensures EntriesOk(dir[i := e])
    ensures forall k :: 0 <= k < 64 * |dir| && !(64 * i <= k < 64 * i + 64) ==> Encode(dir[i := e])[k] == Encode(dir)[k]
  {
    var n, r := |dir| - 1, dir[i := e];
    if i < n {
      EncodeUpdate(dir[..n], i, e);
      assert r[..n] == dir[..n][i := e];
    } else {
      assert r[..n] == dir[..n];
    }
  }

  lemma SizeFieldOnly(dir: seq<Entry>, i: nat, size: U64, k: nat)
    requires DirOk(dir) && i < 64 && 64 * i <= k < 64 * i + 64 && !(64 * i + 48 <= k < 64 * i + 56)
    ensures Encode(dir[i := dir[i].(size := size)])[k] == Encode(dir)[k]
  {
    var r := dir[i := dir[i].(size := size)];
    EntryIsAt(dir, i);
    EntryIsAt(r, i);
    assert Encode(r)[k] == Encode(r)[64 * i..64 * i + 64][k - 64 * i] == EncodeEntry(r[i])[k - 64 * i];
    assert Encode(dir)[k] == Encode(dir)[64 * i..64 * i + 64][k - 64 * i] == EncodeEntry(dir[i])[k - 64 * i];
  }

  lemma DirectoryBytes(disk: seq<Byte>, i: nat, size: U64, k: nat)
    requires DiskOk(disk) && i < 64 && k < 0x1000 && !(64 * i + 48 <= k < 64 * i + 56)
    ensures Encode(Dir(disk)[i := Dir(disk)[i].(size := size)])[k] == disk[0x1000 + k]
  {
    var b := disk[0x1000..0x2000];
    DirectoryBytesRoundTrip(b);
    assert Encode(Dir(disk)) == b && b[k] == disk[0x1000 + k];
    if 64 * i <= k < 64 * i + 64 {
      SizeFieldOnly(Dir(disk), i, size, k);
    } else {
      EncodeUpdate(Dir(disk), i, Dir(disk)[i].(size := size));
    }
  }

  /** Outside the data's place and the eight bytes of the size field `write` changes no byte of the disk. */
  lemma WriteTouches(disk: seq<Byte>, i: nat, data: seq<Byte>, k: nat)
    requires VolumeOk(disk) && Live(Dir(disk), i) && |data| <= BlockAt(Dir(disk)[i].reserved) && k < |disk|
    requires !(BlockAt(Dir(disk)[i].start) <= k < BlockAt(Dir(disk)[i].start) + LoopCount(|data|))
    requires !(0x1000 + 64 * i + 48 <= k < 0x1000 + 64 * i + 56)
    ensures var e := Dir(disk)[i];
            && BlockAt(e.start) + |data| <= |disk| && |data| < 0x1_0000_0000_0000_0000
            && Flushed(Patched(disk, BlockAt(e.start), Stored(data)), Dir(disk)[i := e.(size := |data|)])[k] == disk[k]
  {
    WrittenDir(disk, i, data);
    if 0x1000 <= k < 0x2000 {
      DirectoryBytes(disk, i, |data|, k - 0x1000);
    }
  }
}
