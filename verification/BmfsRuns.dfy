/** `create`, `delete` and `format`, and runs of the utility as runs of a map from names to contents. */
module BmfsRuns {
  import opened Wrappers
  import opened Words
  import opened BmfsEntries
  import opened BmfsPlacement
  import opened BmfsVolume

  // ---- create

  /** `first_free_entry`: the first deleted entry, or else the end mark. */
  function FreeFrom(dir: seq<Entry>, i: nat): (r: Option<nat>)
    requires i <= |dir|
    ensures r.Some? ==> i <= r.value < |dir| && (IsDeleted(dir[r.value]) || IsEnd(dir[r.value]))
    ensures r.Some? ==> forall j :: i <= j < r.value ==> !IsDeleted(dir[j]) && !IsEnd(dir[j])
    ensures r.None? ==> forall j :: i <= j < |dir| ==> !IsDeleted(dir[j]) && !IsEnd(dir[j])
    decreases |dir| - i
  {
    if i == |dir| then None
    else if IsDeleted(dir[i]) || IsEnd(dir[i]) then Some(i)
    else FreeFrom(dir, i + 1)
  }

  /** A new record, and the end mark moved on when its entry was the one used. */
  function WithRecord(dir: seq<Entry>, slot: nat, e: Entry): (r: seq<Entry>)
    requires DirOk(dir) && slot < 64 && EntryOk(e)
    ensures DirOk(r)
  {
    var r := dir[slot := e];
    if slot == NumUsed(dir) && slot + 1 < 64
    then r[slot + 1 := r[slot + 1].(fileName := r[slot + 1].fileName[0 := 0])]
    else r
  }

  /** The directory with the new file's record. */
  function WithFile(dir: seq<Entry>, slot: nat, name: seq<Byte>, start: U64, reserved: U64): (r: seq<Entry>)
    requires DirOk(dir) && slot < 64 && |name| < 32
    ensures DirOk(r)
  {
    WithRecord(dir, slot, Renamed(dir[slot].(start := start, reserved := reserved, size := 0), name))
  }

  /** The blocks for a file of at most `maxsize` MiB. */
  function Requested(maxsize: nat): (blocks: nat)
    ensures 2 * blocks == maxsize || 2 * blocks == maxsize + 1
  {
    (if maxsize % 2 != 0 then maxsize + 1 else maxsize) / 2
  }

  predicate CreateArgs(disk: seq<Byte>, name: seq<Byte>, maxsize: nat, order: seq<nat>) {
    DiskOk(disk) && |name| < 32 && 0 !in name && 1 <= maxsize < 0x8000_0000 && SortedBy(Dir(disk), order)
  }

  function Created(disk: seq<Byte>, name: seq<Byte>, maxsize: nat, order: seq<nat>): (r: (seq<Byte>, Outcome))
    requires CreateArgs(disk, name, maxsize, order)
    ensures |r.0| == |disk| && (r.1 == Refused ==> r.0 == disk)
  {
    var dir := Dir(disk);
    var slot := FreeFrom(dir, 0);
    var start := Place(dir, order, Blocks(disk), Requested(maxsize));
    if FindFile(dir, name).Some? || slot.None? || start == 0 then (disk, Refused)
    else (Flushed(disk, WithFile(dir, slot.value, name, start, Requested(maxsize))), Done)
  }

  /** The slot found when there is no end mark is the first entry: then the next entry becomes the end. */
  predicate CutsShort(dir: seq<Entry>) {
    DirOk(dir) && Used(dir) == 64 && IsDeleted(dir[0])
  }

  /** One live entry more, the others as they were. */
  lemma WithRecordHolds(dir: seq<Entry>, slot: nat, e: Entry)
    requires DirOk(dir) && FreeFrom(dir, 0) == Some(slot) && !CutsShort(dir)
    requires EntryOk(e) && !IsEnd(e) && !IsDeleted(e)
    ensures var r := WithRecord(dir, slot, e);
            && Used(r) == (if slot == Used(dir) then slot + 1 else Used(dir))
            && slot < Used(r) && Live(r, slot) && r[slot] == e
            && forall j :: 0 <= j < Used(r) && j != slot ==> j < Used(dir) && r[j] == dir[j]
  {
    UsedIs(WithRecord(dir, slot, e), if slot == Used(dir) then slot + 1 else Used(dir));
  }

  /** What `create` makes of the directory: one live file more, the others as they were. */
  lemma WithFileHolds(dir: seq<Entry>, slot: nat, name: seq<Byte>, start: U64, reserved: U64)
    requires DirOk(dir) && FreeFrom(dir, 0) == Some(slot) && GoodName(name) && !CutsShort(dir)
    ensures var r := WithFile(dir, slot, name, start, reserved);
            && Used(r) == (if slot == Used(dir) then slot + 1 else Used(dir))
            && slot < Used(r) && Live(r, slot) && Name(r[slot]) == name && Terminated(r[slot])
            && r[slot].start == start && r[slot].reserved == reserved && r[slot].size == 0
            && forall j :: 0 <= j < Used(r) && j != slot ==> j < Used(dir) && r[j] == dir[j]
  {
    var e := dir[slot].(start := start, reserved := reserved, size := 0);
    RenamedHasName(e, name);
    WithRecordHolds(dir, slot, Renamed(e, name));
  }

  /** The extended directory is sound exactly when the new extent is free. */
  lemma WithFileOkIff(dir: seq<Entry>, slot: nat, name: seq<Byte>, start: U64, reserved: U64, nb: nat)
    requires VolumeDirOk(dir, nb) && FreeFrom(dir, 0) == Some(slot) && GoodName(name) && !CutsShort(dir)
    requires FindFile(dir, name).None? && 1 <= reserved && nb < 0x8000_0000
    ensures VolumeDirOk(WithFile(dir, slot, name, start, reserved), nb) <==> Fits(dir[..Used(dir)], start, nb, reserved)
  {
    var r := WithFile(dir, slot, name, start, reserved);
    WithFileHolds(dir, slot, name, start, reserved);
    if Fits(dir[..Used(dir)], start, nb, reserved) {
      WithFileOk(dir, r, slot, nb);
    }
    if VolumeDirOk(r, nb) {
      var live := r[..Used(r)];
      assert InAreaAt(live, slot, nb);
      forall i | 0 <= i < Used(dir) ensures ClearOf(dir[..Used(dir)], i, start, reserved) {
        if i != slot { assert ApartAt(live, i, slot); }
      }
    }
  }

  lemma WithFileOk(dir: seq<Entry>, r: seq<Entry>, slot: nat, nb: nat)
    requires VolumeDirOk(dir, nb) && DirOk(r) && slot < Used(r) && nb < 0x8000_0000
    requires Live(r, slot) && Terminated(r[slot]) && FindFile(dir, Name(r[slot])).None?
    requires r[slot].size == 0 && 1 <= r[slot].reserved
    requires forall j :: 0 <= j < Used(r) && j != slot ==> j < Used(dir) && r[j] == dir[j]
    requires slot < Used(dir) ==> IsDeleted(dir[slot])
    requires Fits(dir[..Used(dir)], r[slot].start, nb, r[slot].reserved)
    ensures VolumeDirOk(r, nb)
  {
    var live, was := r[..Used(r)], dir[..Used(dir)];
    FindFileFinds(dir, Name(r[slot]), nb);
    forall i | 0 <= i < |live| ensures InAreaAt(live, i, nb) && End(live[i]) > 0 {
      if i != slot { assert live[i] == r[i] == dir[i] == was[i] && InAreaAt(was, i, nb) && End(was[i]) > 0; }
    }
    forall i, j | 0 <= i < |live| && 0 <= j < |live| ensures ApartAt(live, i, j) {
      if i != slot && j != slot { assert ApartAt(was, i, j); }
      if i == slot && j != slot { assert ClearOf(was, j, r[slot].start, r[slot].reserved); }
      if i != slot && j == slot { assert ClearOf(was, i, r[slot].start, r[slot].reserved); }
    }
    forall i | 0 <= i < 64 ensures FileOk(r, i) { assert FileOk(dir, i); }
    forall i, j | 0 <= i < j < 64 ensures NamesDiffer(r, i, j) {
      assert NamesDiffer(dir, i, j);
      assert !Holds(dir, i, Name(r[slot])) && !Holds(dir, j, Name(r[slot]));
    }
  }

  /** In a sound volume a created file reads back empty and every other file as before; the volume stays sound
      exactly when the place chosen was free. */
  lemma CreateAddsFile(disk: seq<Byte>, name: seq<Byte>, maxsize: nat, order: seq<nat>, other: seq<Byte>)
    requires VolumeOk(disk) && CreateArgs(disk, name, maxsize, order) && GoodName(name) && !CutsShort(Dir(disk))
    requires Created(disk, name, maxsize, order).1 == Done
    ensures var dir, r := Dir(disk), Created(disk, name, maxsize, order).0;
            var start := Place(dir, order, Blocks(disk), Requested(maxsize));
            && (VolumeOk(r) <==> Fits(dir[..Used(dir)], start, Blocks(disk), Requested(maxsize)))
            && (VolumeOk(r) ==> Read(r, other) == if other == name then Some([]) else Read(disk, other))
  {
    var dir, nb := Dir(disk), Blocks(disk);
    var slot := FreeFrom(dir, 0).value;
    var start, requested := Place(dir, order, nb, Requested(maxsize)), Requested(maxsize);
    var extended := WithFile(dir, slot, name, start, requested);
    var r := Flushed(disk, extended);
    FlushedDir(disk, extended);
    WithFileOkIff(dir, slot, name, start, requested, nb);
    if VolumeOk(r) {
      WithFileHolds(dir, slot, name, start, requested);
      CreatedReads(disk, slot, extended, other);
    }
  }

  lemma CreatedReads(disk: seq<Byte>, slot: nat, dir: seq<Entry>, other: seq<Byte>)
    requires VolumeOk(disk) && VolumeDirOk(dir, Blocks(disk)) && slot < Used(dir)
    requires Live(dir, slot) && dir[slot].size == 0 && FindFile(Dir(disk), Name(dir[slot])).None?
    requires slot < Used(Dir(disk)) ==> IsDeleted(Dir(disk)[slot])
    requires Used(Dir(disk)) <= Used(dir)
    requires forall j :: 0 <= j < Used(dir) && j != slot ==> j < Used(Dir(disk)) && dir[j] == Dir(disk)[j]
    ensures VolumeOk(Flushed(disk, dir))
    ensures Read(Flushed(disk, dir), other) == if other == Name(dir[slot]) then Some([]) else Read(disk, other)
  {
    var was, nb, r := Dir(disk), Blocks(disk), Flushed(disk, dir);
    FlushedDir(disk, dir);
    if other == Name(dir[slot]) {
      FindFileFinds(dir, other, nb);
      assert Holds(dir, slot, other);
      ContentInDisk(r, slot);
      assert Content(r, dir[slot]) == [];
    } else {
      forall j | 0 <= j < 64 ensures Holds(dir, j, other) <==> Holds(was, j, other) {
        assert j < Used(was) && j != slot ==> dir[j] == was[j];
      }
      SameFinds(was, dir, other, nb);
      FindFileFinds(was, other, nb);
      if FindFile(was, other).Some? {
        var j := FindFile(was, other).value;
        ContentInDisk(disk, j);
        assert dir[j] == was[j];
        var a, b := BlockAt(was[j].start), BlockAt(was[j].start) + was[j].size;
        assert r[a..b] == disk[a..b];
      }
    }
  }

  /** A directory with no end mark whose first entry is deleted loses every file to the next `create`. */
  lemma CutShortForgets(disk: seq<Byte>, name: seq<Byte>, maxsize: nat, order: seq<nat>, other: seq<Byte>)
    requires CreateArgs(disk, name, maxsize, order) && CutsShort(Dir(disk)) && other != name
    requires Created(disk, name, maxsize, order).1 == Done
    ensures FindFile(Dir(Created(disk, name, maxsize, order).0), other) == None
  {
    var dir := Dir(disk);
    assert !IsEnd(dir[0]) && FreeFrom(dir, 0) == Some(0);
    var start, requested := Place(dir, order, Blocks(disk), Requested(maxsize)), Requested(maxsize);
    var r := WithFile(dir, 0, name, start, requested);
    FlushedDir(disk, r);
    RenamedHasName(dir[0].(start := start, reserved := requested, size := 0), name);
    assert IsEnd(r[1]) && FindFrom(r, other, 1) == None;
  }

  /** All 64 entries used, the first of them deleted, the others files of one block. */
  function DeletedInFront(): (dir: seq<Entry>)
    ensures DirOk(dir) && dir[0] == Sample(1, 64, 1)
    ensures forall i :: 1 <= i < 64 ==> dir[i] == Sample(i + 32, i, 1)
  {
    seq(64, i requires 0 <= i < 64 => if i == 0 then Sample(1, 64, 1) else Sample(i + 32, i, 1))
  }

  lemma DeletedInFrontNames()
    ensures forall i :: 1 <= i < 64 ==> Live(DeletedInFront(), i) && Name(DeletedInFront()[i]) == [i + 32]
  {
    forall i | 1 <= i < 64 ensures Live(DeletedInFront(), i) && Name(DeletedInFront()[i]) == [i + 32] {
      SampleName(i + 32, i, 1);
    }
  }

  lemma DeletedInFrontFinds()
    ensures var dir := DeletedInFront();
            && Used(dir) == 64 && FreeFrom(dir, 0) == Some(0) && SortedBy(dir, [])
            && FindFile(dir, [33]) == Some(1) && FindFile(dir, [126]) == None
  {
    var dir := DeletedInFront();
    assert forall i :: 0 <= i < 64 ==> dir[i].fileName[0] != 0;
    UsedIs(dir, 64);
    FindsFirstSample();
    FindsNoOtherSample();
  }

  lemma FindsFirstSample()
    ensures FindFile(DeletedInFront(), [33]) == Some(1)
  {
    var dir := DeletedInFront();
    DeletedInFrontNames();
    FindFromFinds(dir, [33], 0);
    assert Holds(dir, 1, [33]);
  }

  lemma FindsNoOtherSample()
    ensures FindFile(DeletedInFront(), [126]) == None
  {
    var dir := DeletedInFront();
    DeletedInFrontNames();
    FindFromFinds(dir, [126], 0);
    forall i | 0 <= i < 64 ensures !Holds(dir, i, [126]) {
      assert i > 0 ==> Name(dir[i])[0] == i + 32;
    }
  }

  /** On a disk with that directory a file "~" of 2 MiB is created over file "!", and "!" is forgotten. */
  lemma DeletedInFrontForgets(disk: seq<Byte>)
    requires DiskOk(disk)
    ensures var d := Flushed(disk, DeletedInFront());
            && CreateArgs(d, [126], 2, []) && CutsShort(Dir(d)) && Created(d, [126], 2, []).1 == Done
            && FindFile(Dir(d), [33]) == Some(1) && FindFile(Dir(Created(d, [126], 2, []).0), [33]) == None
  {
    var d := Flushed(disk, DeletedInFront());
    FlushedDir(disk, DeletedInFront());
    DeletedInFrontFinds();
    assert Place(Dir(d), [], Blocks(d), 1) == 1;
    CutShortForgets(d, [126], 2, [], [33]);
  }

  lemma SampleName(first: Byte, start: U64, reserved: U64)
    requires first != 0
    ensures Name(Sample(first, start, reserved)) == [first]
  {
    var b := Sample(first, start, reserved).fileName;
    assert b == [first] + ([0] + seq(30, i => 0));
    UpToFirstNul([first], seq(30, i => 0));
  }

  // ---- names that are no names

  /** A file created with the empty name ends the directory at its own entry: what was behind, and nothing else, is
      forgotten. */
  lemma EmptyNameEndsDirectory(disk: seq<Byte>, maxsize: nat, order: seq<nat>, i: nat, name: seq<Byte>)
    requires VolumeOk(disk) && CreateArgs(disk, [], maxsize, order) && Created(disk, [], maxsize, order).1 == Done
    requires Holds(Dir(disk), i, name)
    ensures var slot, r := FreeFrom(Dir(disk), 0).value, Created(disk, [], maxsize, order).0;
            && Used(Dir(r)) == slot
            && (FindFile(Dir(r), name) == None <==> i > slot)
  {
    var dir := Dir(disk);
    var slot, requested := FreeFrom(dir, 0).value, Requested(maxsize);
    var start := Place(dir, order, Blocks(disk), requested);
    var e := Renamed(dir[slot].(start := start, reserved := requested, size := 0), []);
    FlushedDir(disk, WithRecord(dir, slot, e));
    EndRecordEnds(dir, slot, e, i, name, Blocks(disk));
  }

  lemma EndRecordEnds(dir: seq<Entry>, slot: nat, e: Entry, i: nat, name: seq<Byte>, nb: nat)
    requires VolumeDirOk(dir, nb) && FreeFrom(dir, 0) == Some(slot) && EntryOk(e) && IsEnd(e) && Holds(dir, i, name)
    ensures var r := WithRecord(dir, slot, e); Used(r) == slot && (FindFile(r, name) == None <==> i > slot)
  {
    var r := WithRecord(dir, slot, e);
    UsedIs(r, slot);
    FindFromFinds(r, name, 0);
    if i < slot {
      assert r[i] == dir[i] && Holds(r, i, name);
    }
    forall j | 0 <= j < slot && i > slot ensures !Holds(r, j, name) {
      assert NamesDiffer(dir, j, i) && r[j] == dir[j] && Live(dir, j);
    }
  }

  // ---- names that run over their field

  /** The record once `strcpy`, which comes last, has run over its 32-byte name field. */
  function Overrun(e: Entry, name: seq<Byte>): (r: Entry)
    requires EntryOk(e) && 32 <= |name| < 64
    ensures EntryOk(r)
  {
    DecodeEntry(name + [0] + EncodeEntry(e)[|name| + 1..])
  }

  /** `WithFile` for such a name. */
  function WithLongName(dir: seq<Entry>, slot: nat, name: seq<Byte>, start: U64, reserved: U64): (r: seq<Entry>)
    requires DirOk(dir) && slot < 64 && 32 <= |name| < 64
    ensures DirOk(r)
  {
    WithRecord(dir, slot, Overrun(dir[slot].(start := start, reserved := reserved, size := 0), name))
  }

  lemma OverrunStarts(e: Entry, name: seq<Byte>)
    requires EntryOk(e) && 32 <= |name| < 64
    ensures Overrun(e, name).fileName[0] == name[0]
  {
  }

  /** A directory with one more extent is sound exactly when that extent is free. */
  lemma AddedExtentIff(dir: seq<Entry>, r: seq<Entry>, slot: nat, nb: nat)
    requires VolumeDirOk(dir, nb) && DirOk(r) && slot < Used(r) && Live(r, slot)
    requires forall j :: 0 <= j < Used(r) && j != slot ==> j < Used(dir) && r[j] == dir[j]
    requires slot < Used(dir) ==> IsDeleted(dir[slot]) && Used(r) == Used(dir)
    requires Used(dir) <= Used(r)
    ensures ExtentsOk(r[..Used(r)], nb) <==>
              1 <= r[slot].reserved && Fits(dir[..Used(dir)], r[slot].start, nb, r[slot].reserved)
  {
    var live, was, e := r[..Used(r)], dir[..Used(dir)], r[slot];
    assert live[slot] == e && !IsDeleted(e);
    forall i | 0 <= i < |live| && i != slot ensures i < |was| && live[i] == was[i] { assert r[i] == dir[i]; }
    if ExtentsOk(live, nb) {
      assert InAreaAt(live, slot, nb);
      forall i | 0 <= i < |was| ensures ClearOf(was, i, e.start, e.reserved) {
        if i != slot { assert live[i] == r[i] && ApartAt(live, i, slot); }
      }
    }
    if 1 <= e.reserved && Fits(was, e.start, nb, e.reserved) {
      forall i | 0 <= i < |live| ensures InAreaAt(live, i, nb) {
        if i != slot { assert live[i] == r[i] && InAreaAt(was, i, nb); }
      }
      forall i, j | 0 <= i < |live| && 0 <= j < |live| ensures ApartAt(live, i, j) {
        assert live[i] == r[i] && live[j] == r[j];
        if i != slot && j != slot { assert ApartAt(was, i, j); }
        if i == slot && j != slot { assert ClearOf(was, j, e.start, e.reserved); }
        if i != slot && j == slot { assert ClearOf(was, i, e.start, e.reserved); }
      }
    }
  }

  /** `create` with a name of 32 to 63 characters. */
  function CreatedLong(disk: seq<Byte>, name: seq<Byte>, maxsize: nat, order: seq<nat>): (r: (seq<Byte>, Outcome))
    requires CreateLongArgs(disk, name, maxsize, order)
    ensures |r.0| == |disk| && (r.1 == Refused ==> r.0 == disk)
  {
    var dir := Dir(disk);
    var slot := FreeFrom(dir, 0);
    var start := Place(dir, order, Blocks(disk), Requested(maxsize));
    if FindFile(dir, name).Some? || slot.None? || start == 0 then (disk, Refused)
    else (Flushed(disk, WithLongName(dir, slot.value, name, start, Requested(maxsize))), Done)
  }

  predicate CreateLongArgs(disk: seq<Byte>, name: seq<Byte>, maxsize: nat, order: seq<nat>) {
    && DiskOk(disk) && 32 <= |name| < 64 && 0 !in name && name[0] != 1
    && 1 <= maxsize < 0x8000_0000 && SortedBy(Dir(disk), order)
  }

  /** The start that a name of 32 to 39 characters leaves of `start`. */
  function MovedStart(name: seq<Byte>, start: U64): U64
    requires 32 <= |name| < 40
  {
    Word(name[32..] + [0] + ToBytes(start, 8)[|name| - 31..])
  }

  /** After `create` with a name of 32 to 63 characters the extents are sound exactly when the name is shorter than 40
      and the place it moves the file to is free. */
  lemma OverlongNameSoundIff(disk: seq<Byte>, name: seq<Byte>, maxsize: nat, order: seq<nat>)
    requires VolumeOk(disk) && CreateLongArgs(disk, name, maxsize, order) && !CutsShort(Dir(disk))
    requires CreatedLong(disk, name, maxsize, order).1 == Done
    ensures var dir, r := Dir(disk), Dir(CreatedLong(disk, name, maxsize, order).0);
            var nb, requested := Blocks(disk), Requested(maxsize);
            ExtentsOk(r[..Used(r)], nb) <==>
              |name| < 40 && Fits(dir[..Used(dir)], MovedStart(name, Place(dir, order, nb, requested)), nb, requested)
  {
    var dir, nb, requested := Dir(disk), Blocks(disk), Requested(maxsize);
    var slot, start := FreeFrom(dir, 0).value, Place(dir, order, nb, requested);
    var e := dir[slot].(start := start, reserved := requested, size := 0);
    var r := WithRecord(dir, slot, Overrun(e, name));
    FlushedDir(disk, r);
    OverrunStarts(e, name);
    WithRecordHolds(dir, slot, Overrun(e, name));
    AddedExtentIff(dir, r, slot, nb);
    if |name| < 40 {
      OverlongNameMovesStart(e, name);
    } else {
      OverrunStartIsFar(e, name);
    }
  }

  /** Eight characters of the name are a start far behind the end of any disk. */
  lemma OverrunStartIsFar(e: Entry, name: seq<Byte>)
    requires EntryOk(e) && 40 <= |name| < 64 && 0 !in name
    ensures Overrun(e, name).start >= 0x100_0000_0000_0000
  {
    var o := name + [0] + EncodeEntry(e)[|name| + 1..];
    assert o[32..40] == name[32..40] && name[32..40][7] == name[39];
    LastByteCounts(name[32..40]);
    assert Power256(7) == 0x100_0000_0000_0000 by { assert Power256(4) == 0x1_0000_0000; }
  }

  lemma {:induction false} LastByteCounts(b: seq<Byte>)
    requires b != []
    ensures FromBytes(b) >= b[|b| - 1] * Power256(|b| - 1)
  {
    if |b| > 1 { LastByteCounts(b[1..]); }
  }

  // ---- names that end or delete their own entry

  /** All 64 entries used, the second of them deleted, the others files of one block. */
  function DeletedSecond(): (dir: seq<Entry>)
    ensures |dir| == 64 && dir[1] == Sample(1, 65, 1)
    ensures forall i :: 0 <= i < 64 && i != 1 ==> dir[i] == Sample(i + 32, i + 1, 1)
    ensures DirOk(dir)
  {
    seq(64, i requires 0 <= i < 64 => if i == 1 then Sample(1, 65, 1) else Sample(i + 32, i + 1, 1))
  }

  lemma DeletedSecondNames()
    ensures forall i :: 0 <= i < 64 && i != 1 ==> Live(DeletedSecond(), i) && Name(DeletedSecond()[i]) == [i + 32]
  {
    forall i | 0 <= i < 64 && i != 1 ensures Live(DeletedSecond(), i) && Name(DeletedSecond()[i]) == [i + 32] {
      SampleName(i + 32, i + 1, 1);
    }
  }

  lemma DeletedSecondFinds(name: seq<Byte>)
    requires name == [] || name == [1]
    ensures var dir := DeletedSecond();
            && Used(dir) == 64 && FreeFrom(dir, 0) == Some(1) && SortedBy(dir, [])
            && FindFile(dir, name) == None && FindFile(dir, [34]) == Some(2)
  {
    var dir := DeletedSecond();
    assert forall i :: 0 <= i < 64 ==> dir[i].fileName[0] != 0;
    UsedIs(dir, 64);
    DeletedSecondLacks(name);
    DeletedSecondFindsQuote();
  }

  lemma DeletedSecondLacks(name: seq<Byte>)
    requires name == [] || name == [1]
    ensures FindFile(DeletedSecond(), name) == None
  {
    var dir := DeletedSecond();
    DeletedSecondNames();
    FindFromFinds(dir, name, 0);
    forall i | 0 <= i < 64 ensures !Holds(dir, i, name) {
      assert i != 1 ==> Name(dir[i]) == [i + 32];
    }
  }

  lemma DeletedSecondFindsQuote()
    ensures FindFile(DeletedSecond(), [34]) == Some(2)
  {
    var dir := DeletedSecond();
    DeletedSecondNames();
    FindFromFinds(dir, [34], 0);
    assert Holds(dir, 2, [34]) && !Holds(dir, 1, [34]);
  }

  /** On a disk with that directory a file with the empty name is created, and 62 files are forgotten. */
  lemma EmptyNameForgets(disk: seq<Byte>)
    requires DiskOk(disk)
    ensures var d := Flushed(disk, DeletedSecond());
            && CreateArgs(d, [], 2, []) && Created(d, [], 2, []).1 == Done
            && FindFile(Dir(d), [34]) == Some(2) && FindFile(Dir(Created(d, [], 2, []).0), [34]) == None
  {
    var d := Flushed(disk, DeletedSecond());
    FlushedDir(disk, DeletedSecond());
    DeletedSecondFinds([]);
    assert Place(Dir(d), [], Blocks(d), 1) == 1;
    FlushedDir(d, WithFile(DeletedSecond(), 1, [], 1, 1));
    EndsAtSecond();
  }

  lemma EndsAtSecond()
    ensures FindFile(WithFile(DeletedSecond(), 1, [], 1, 1), [34]) == None
  {
    var r := WithFile(DeletedSecond(), 1, [], 1, 1);
    UsedIs(r, 1);
    DeletedSecondNames();
    FindFromFinds(r, [34], 0);
    assert r[0] == DeletedSecond()[0] && Name(r[0]) == [32];
  }

  /** There a file whose name is the deletion mark is created and cannot be found. */
  lemma DeletionMarkForgets(disk: seq<Byte>)
    requires DiskOk(disk)
    ensures var d := Flushed(disk, DeletedSecond());
            && CreateArgs(d, [1], 2, []) && Created(d, [1], 2, []).1 == Done
            && FindFile(Dir(Created(d, [1], 2, []).0), [1]) == None
  {
    var d := Flushed(disk, DeletedSecond());
    FlushedDir(disk, DeletedSecond());
    DeletedSecondFinds([1]);
    assert Place(Dir(d), [], Blocks(d), 1) == 1;
    DeletionMarkIsGone(d, [1], 2, []);
  }

  /** A file whose name begins with the deletion mark is gone as soon as it is created. */
  lemma DeletionMarkIsGone(disk: seq<Byte>, name: seq<Byte>, maxsize: nat, order: seq<nat>)
    requires CreateArgs(disk, name, maxsize, order) && name != [] && name[0] == 1
    requires Created(disk, name, maxsize, order).1 == Done
    ensures FindFile(Dir(Created(disk, name, maxsize, order).0), name) == None
  {
    var dir := Dir(disk);
    var slot, requested := FreeFrom(dir, 0).value, Requested(maxsize);
    var start := Place(dir, order, Blocks(disk), requested);
    var r := WithFile(dir, slot, name, start, requested);
    FlushedDir(disk, r);
    FindFromFinds(r, name, 0);
    assert IsDeleted(r[slot]);
    forall j | 0 <= j < 64 ensures !Holds(r, j, name) {
      if !IsDeleted(r[j]) && EntryOk(r[j]) { FirstOfName(r[j]); }
    }
  }

  lemma FirstOfName(e: Entry)
    requires EntryOk(e)
    ensures Name(e) != [] ==> Name(e)[0] == e.fileName[0]
  {
  }

  // ---- delete and format

  function Deleted(disk: seq<Byte>, name: seq<Byte>): (r: (seq<Byte>, Outcome))
    requires VolumeOk(disk)
    ensures |r.0| == |disk| && (r.1 == Refused ==> r.0 == disk)
  {
    var dir := Dir(disk);
    FindFileFinds(dir, name, Blocks(disk));
    match FindFile(dir, name)
    case None => (disk, Refused)
    case Some(i) => (Flushed(disk, dir[i := dir[i].(fileName := dir[i].fileName[0 := 1])]), Done)
  }

  /** `delete` succeeds exactly when the file exists, removes it and leaves the volume sound and every other file
      as it was. */
  lemma DeleteRemoves(disk: seq<Byte>, name: seq<Byte>, other: seq<Byte>)
    requires VolumeOk(disk)
    ensures var (r, outcome) := Deleted(disk, name);
            && VolumeOk(r) && (outcome == Done <==> Read(disk, name).Some?)
            && Read(r, other) == if other == name then None else Read(disk, other)
  {
    var was, nb := Dir(disk), Blocks(disk);
    FindFileFinds(was, name, nb);
    if FindFile(was, name).Some? {
      var i := FindFile(was, name).value;
      var dir := was[i := was[i].(fileName := was[i].fileName[0 := 1])];
      DeletedDirOk(was, i, nb);
      FlushedDir(disk, dir);
      FindFileFinds(was, other, nb);
      FindFileFinds(dir, other, nb);
      if other != name {
        forall j | 0 <= j < 64 ensures Holds(dir, j, other) <==> Holds(was, j, other) { }
        SameFinds(was, dir, other, nb);
        if FindFile(was, other).Some? { ContentInDisk(disk, FindFile(was, other).value); }
      } else if FindFile(dir, other).Some? {
        var j := FindFile(dir, other).value;
        assert Holds(was, j, name);
      }
    }
  }

  lemma DeletedDirOk(was: seq<Entry>, i: nat, nb: nat)
    requires VolumeDirOk(was, nb) && Live(was, i)
    ensures var dir := was[i := was[i].(fileName := was[i].fileName[0 := 1])];
            && VolumeDirOk(dir, nb) && Used(dir) == Used(was)
            && forall j :: 0 <= j < 64 ==> (Live(dir, j) <==> j != i && Live(was, j))
  {
    var dir := was[i := was[i].(fileName := was[i].fileName[0 := 1])];
    UsedIs(dir, Used(was));
    var live, before := dir[..Used(dir)], was[..Used(was)];
    forall j | 0 <= j < |live| ensures InAreaAt(live, j, nb) && End(live[j]) > 0 {
      assert InAreaAt(before, j, nb) && End(before[j]) > 0;
    }
    forall j, k | 0 <= j < |live| && 0 <= k < |live| ensures ApartAt(live, j, k) { assert ApartAt(before, j, k); }
    forall j | 0 <= j < 64 ensures FileOk(dir, j) { assert FileOk(was, j); }
    forall j, k | 0 <= j < k < 64 ensures NamesDiffer(dir, j, k) { assert NamesDiffer(was, j, k); }
  }

  function ZeroEntry(): (e: Entry)
    ensures EntryOk(e) && IsEnd(e)
  {
    Entry(seq(32, i => 0), 0, 0, 0, 0)
  }

  /** The disk information block: the tag, then zeros. */
  function Tag(): (b: seq<Byte>)
    ensures |b| == 512
  {
    ['B' as int, 'M' as int, 'F' as int, 'S' as int] + seq(508, i => 0)
  }

  function Formatted(disk: seq<Byte>): (r: seq<Byte>)
    requires DiskOk(disk)
    ensures |r| == |disk|
  {
    Flushed(Patched(disk, 0x400, Tag()), seq(64, i => ZeroEntry()))
  }

  lemma FormatEmpties(disk: seq<Byte>, name: seq<Byte>)
    requires DiskOk(disk)
    ensures VolumeOk(Formatted(disk)) && Used(Dir(Formatted(disk))) == 0 && Read(Formatted(disk), name) == None
  {
    var dir := seq(64, i => ZeroEntry());
    FlushedDir(Patched(disk, 0x400, Tag()), dir);
    UsedIs(dir, 0);
  }

  // ---- runs

  /** One invocation of the utility; `order` is what qsort makes of the directory copy in it. */
  datatype Command =
    | Format
    | Create(name: seq<Byte>, maxsize: nat, order: seq<nat>)
    | Write(name: seq<Byte>, data: seq<Byte>)
    | Delete(name: seq<Byte>)

  /** Names are good ones, and the `int` counter of a copy stays in its range. */
  predicate Enabled(disk: seq<Byte>, c: Command)
    requires VolumeOk(disk)
  {
    match c
    case Create(name, maxsize, order) => CreateArgs(disk, name, maxsize, order) && GoodName(name)
    case Write(name, data) => Written(disk, name, data).1 == Done ==> |data| <= 0x7FFF_FFFF
    case _ => true
  }

  function Next(disk: seq<Byte>, c: Command): (r: (seq<Byte>, Outcome))
    requires VolumeOk(disk) && Enabled(disk, c)
    ensures |r.0| == |disk|
  {
    match c
    case Format => (Formatted(disk), Done)
    case Create(name, maxsize, order) => Created(disk, name, maxsize, order)
    case Write(name, data) => Written(disk, name, data)
    case Delete(name) => Deleted(disk, name)
  }

  type Files = map<seq<Byte>, seq<Byte>>

  /** What a command that succeeds does to the map of files. */
  function NextFiles(m: Files, c: Command): Files {
    match c
    case Format => map[]
    case Create(name, _, _) => m[name := []]
    case Write(name, data) => m[name := data]
    case Delete(name) => m - {name}
  }

  predicate ReadsAs(disk: seq<Byte>, m: Files, name: seq<Byte>)
    requires VolumeOk(disk)
  {
    Read(disk, name) == if name in m then Some(m[name]) else None
  }

  ghost predicate Represents(disk: seq<Byte>, m: Files) {
    VolumeOk(disk) && forall name :: ReadsAs(disk, m, name)
  }

  /** A `create` that neither misplaces its file nor cuts the directory short, told from the directory alone. */
  ghost predicate Safe(disk: seq<Byte>, c: Command)
    requires VolumeOk(disk) && (c.Create? ==> CreateArgs(disk, c.name, c.maxsize, c.order))
  {
    var dir, nb := Dir(disk), Blocks(disk);
    c.Create? && FindFile(dir, c.name).None? && FreeFrom(dir, 0).Some? ==>
      var live, requested := dir[..Used(dir)], Requested(c.maxsize);
      if Used(dir) < 64 then
        !(NothingFits(live, nb, requested) && exists i :: 0 <= i < |live| && LeavesRoom(live, i, nb, requested))
      else
        !IsDeleted(dir[0]) && (requested + 2 <= nb ==> Fits(dir, 1, nb, requested))
  }

  /** A safe `create` takes a free place, and refuses only when there is none. */
  lemma SafeCreatePlacesWell(disk: seq<Byte>, c: Command)
    requires VolumeOk(disk) && c.Create? && CreateArgs(disk, c.name, c.maxsize, c.order) && Safe(disk, c)
    requires FindFile(Dir(disk), c.name).None? && FreeFrom(Dir(disk), 0).Some?
    ensures var dir, nb, requested := Dir(disk), Blocks(disk), Requested(c.maxsize);
            PlacedWell(dir[..Used(dir)], Place(dir, c.order, nb, requested), nb, requested)
  {
    var dir, nb, requested := Dir(disk), Blocks(disk), Requested(c.maxsize);
    if Used(dir) < 64 {
      PlacedWellIff(dir, c.order, nb, requested);
    } else {
      assert dir[..Used(dir)] == dir;
      NoEndMarkPlacedWellIff(dir, c.order, nb, requested);
    }
  }

  /** `create` refuses, leaving the disk as it is, exactly when the name is taken, no entry is free or no gap is
      big enough. */
  lemma CreateRefusesIff(disk: seq<Byte>, c: Command)
    requires VolumeOk(disk) && c.Create? && CreateArgs(disk, c.name, c.maxsize, c.order) && Safe(disk, c)
    ensures var dir, (r, outcome) := Dir(disk), Created(disk, c.name, c.maxsize, c.order);
            && (outcome == Refused <==>
                  Read(disk, c.name).Some? || FreeFrom(dir, 0).None?
                  || NothingFits(dir[..Used(dir)], Blocks(disk), Requested(c.maxsize)))
            && (outcome == Refused ==> r == disk)
  {
    var dir, nb, requested := Dir(disk), Blocks(disk), Requested(c.maxsize);
    if FindFile(dir, c.name).None? && FreeFrom(dir, 0).Some? {
      SafeCreatePlacesWell(disk, c);
      var start := Place(dir, c.order, nb, requested);
      assert LowestFit(dir[..Used(dir)], start, nb, requested) ==> Fits(dir[..Used(dir)], start, nb, requested);
    }
  }

  /** What one file reads as after a safe command. */
  lemma StepReads(disk: seq<Byte>, m: Files, c: Command, name: seq<Byte>)
    requires VolumeOk(disk) && ReadsAs(disk, m, name) && Enabled(disk, c) && Safe(disk, c)
    ensures var (r, outcome) := Next(disk, c);
            VolumeOk(r) && ReadsAs(r, if outcome == Done then NextFiles(m, c) else m, name)
  {
    match c
    case Format => FormatEmpties(disk, name);
    case Create(n, maxsize, order) =>
      if Next(disk, c).1 == Done { SafeCreateReads(disk, c, name); }
    case Write(n, data) =>
      WriteIsLocal(disk, n, data, name);
      assert |data| <= 0x7FFF_FFFF ==> Stored(data) == data;
    case Delete(n) => DeleteRemoves(disk, n, name);
  }

  lemma SafeStepKeepsVolume(disk: seq<Byte>, c: Command)
    requires VolumeOk(disk) && Enabled(disk, c) && Safe(disk, c)
    ensures VolumeOk(Next(disk, c).0)
  {
    StepReads(disk, if Read(disk, []).Some? then map[[] := Read(disk, []).value] else map[], c, []);
  }

  lemma SafeCreateReads(disk: seq<Byte>, c: Command, name: seq<Byte>)
    requires VolumeOk(disk) && Enabled(disk, c) && c.Create? && Safe(disk, c) && Next(disk, c).1 == Done
    ensures var r := Next(disk, c).0;
            VolumeOk(r) && Read(r, name) == if name == c.name then Some([]) else Read(disk, name)
  {
    SafeCreatePlacesWell(disk, c);
    CreateAddsFile(disk, c.name, c.maxsize, c.order, name);
  }

  /** A safe command keeps the volume sound and does to the files what it says. */
  lemma StepRefinesMap(disk: seq<Byte>, m: Files, c: Command)
    requires Represents(disk, m) && Enabled(disk, c) && Safe(disk, c)
    ensures var (r, outcome) := Next(disk, c);
            Represents(r, if outcome == Done then NextFiles(m, c) else m)
  {
    var (r, outcome) := Next(disk, c);
    var files := if outcome == Done then NextFiles(m, c) else m;
    assert ReadsAs(disk, m, []);
    StepReads(disk, m, c, []);
    forall name ensures ReadsAs(r, files, name) {
      assert ReadsAs(disk, m, name);
      StepReads(disk, m, c, name);
    }
  }

  ghost predicate RunSafe(disk: seq<Byte>, cs: seq<Command>)
    requires VolumeOk(disk)
    decreases |cs|
  {
    cs == [] ||
    (Enabled(disk, cs[0]) && Safe(disk, cs[0])
     && (SafeStepKeepsVolume(disk, cs[0]);
         RunSafe(Next(disk, cs[0]).0, cs[1..])))
  }

  /** The disk and the files after a run. */
  ghost function Run(disk: seq<Byte>, m: Files, cs: seq<Command>): (r: (seq<Byte>, Files))
    requires VolumeOk(disk) && RunSafe(disk, cs)
    ensures VolumeOk(r.0)
    decreases |cs|
  {
    if cs == [] then (disk, m)
    else
      SafeStepKeepsVolume(disk, cs[0]);
      var (r, outcome) := Next(disk, cs[0]);
      Run(r, if outcome == Done then NextFiles(m, cs[0]) else m, cs[1..])
  }

  /** Over any safe run the disk holds exactly the files the commands say. */
  lemma {:induction false} RunRefinesMap(disk: seq<Byte>, m: Files, cs: seq<Command>)
    requires Represents(disk, m) && RunSafe(disk, cs)
    ensures var (r, m') := Run(disk, m, cs); Represents(r, m')
    decreases |cs|
  {
    if cs != [] {
      StepRefinesMap(disk, m, cs[0]);
      var (r, outcome) := Next(disk, cs[0]);
      RunRefinesMap(r, if outcome == Done then NextFiles(m, cs[0]) else m, cs[1..]);
    }
  }

  // ---- runs without delete

  /** No entry before the end mark is deleted. */
  predicate Tidy(disk: seq<Byte>)
    requires VolumeOk(disk)
  {
    forall i :: 0 <= i < Used(Dir(disk)) ==> Live(Dir(disk), i)
  }

  lemma TidyIsSafe(disk: seq<Byte>, c: Command)
    requires VolumeOk(disk) && Tidy(disk) && Enabled(disk, c)
    ensures Safe(disk, c)
  {
    var dir := Dir(disk);
    forall i | 0 <= i < Used(dir) ensures !IsDeleted(dir[i]) { assert Live(dir, i); }
  }

  /** Without `delete` the used entries stay in front: `create` appends one. */
  lemma TidyCreateAppends(disk: seq<Byte>, c: Command)
    requires VolumeOk(disk) && Tidy(disk) && Enabled(disk, c) && c.Create? && Next(disk, c).1 == Done
    ensures VolumeOk(Next(disk, c).0) && Tidy(Next(disk, c).0)
    ensures var dir, r := Dir(disk), Dir(Next(disk, c).0);
            && Used(dir) < 64 && Used(r) == Used(dir) + 1 && r[..Used(dir)] == dir[..Used(dir)]
            && Name(r[Used(dir)]) == c.name && r[Used(dir)].reserved == Requested(c.maxsize)
  {
    var dir := Dir(disk);
    forall i | 0 <= i < Used(dir) ensures !IsDeleted(dir[i]) { assert Live(dir, i); }
    TidyIsSafe(disk, c);
    SafeCreateReads(disk, c, c.name);
    var slot, start := FreeFrom(dir, 0).value, Place(dir, c.order, Blocks(disk), Requested(c.maxsize));
    assert slot == Used(dir);
    var extended := WithFile(dir, slot, c.name, start, Requested(c.maxsize));
    FlushedDir(disk, extended);
    WithFileHolds(dir, slot, c.name, start, Requested(c.maxsize));
    forall i | 0 <= i < Used(extended) ensures Live(extended, i) {
      if i != slot { assert extended[i] == dir[i] && Live(dir, i); }
    }
  }

  lemma TidyStays(disk: seq<Byte>, c: Command)
    requires VolumeOk(disk) && Tidy(disk) && Enabled(disk, c) && !c.Delete?
    ensures VolumeOk(Next(disk, c).0) && Tidy(Next(disk, c).0)
  {
    match c
    case Format => FormatEmpties(disk, []);
    case Create(name, maxsize, order) => if Next(disk, c).1 == Done { TidyCreateAppends(disk, c); }
    case Write(name, data) => TidyWrite(disk, name, data);
  }

  lemma TidyWrite(disk: seq<Byte>, name: seq<Byte>, data: seq<Byte>)
    requires VolumeOk(disk) && Tidy(disk)
    ensures VolumeOk(Written(disk, name, data).0) && Tidy(Written(disk, name, data).0)
  {
    WriteIsLocal(disk, name, data, name);
    var r, outcome := Written(disk, name, data).0, Written(disk, name, data).1;
    if outcome == Done {
      var dir := Dir(disk);
      var i :| 0 <= i < 64 && Holds(dir, i, name) && OnlySizeChanges(dir, Dir(r), i, |data|);
      UsedIs(Dir(r), Used(dir));
      forall j | 0 <= j < Used(dir) ensures Live(Dir(r), j) { assert Live(dir, j); }
    }
  }

  /** A run without `delete`. */
  predicate RunEnabled(disk: seq<Byte>, cs: seq<Command>)
    requires VolumeOk(disk) && Tidy(disk)
    decreases |cs|
  {
    cs == [] ||
    (Enabled(disk, cs[0]) && !cs[0].Delete?
     && (TidyStays(disk, cs[0]);
         RunEnabled(Next(disk, cs[0]).0, cs[1..])))
  }

  /** It is safe and keeps the used entries in front. */
  lemma {:induction false} NoDeleteIsSafe(disk: seq<Byte>, m: Files, cs: seq<Command>)
    requires VolumeOk(disk) && Tidy(disk) && RunEnabled(disk, cs)
    ensures RunSafe(disk, cs)
    ensures Tidy(Run(disk, m, cs).0)
    decreases |cs|
  {
    if cs != [] {
      TidyIsSafe(disk, cs[0]);
      TidyStays(disk, cs[0]);
      var (r, outcome) := Next(disk, cs[0]);
      NoDeleteIsSafe(r, if outcome == Done then NextFiles(m, cs[0]) else m, cs[1..]);
    }
  }

  lemma FormattedIsTidy(disk: seq<Byte>)
    requires DiskOk(disk)
    ensures VolumeOk(Formatted(disk)) && Tidy(Formatted(disk)) && Represents(Formatted(disk), map[])
  {
    FormatEmpties(disk, []);
    forall name ensures ReadsAs(Formatted(disk), map[], name) { FormatEmpties(disk, name); }
  }

  /** From a formatted disk on, any run of format, create and write keeps names distinct, files apart in the data
      area and the used entries in front, and the disk holds exactly the files the commands say. */
  lemma NoDeleteRunFromFormat(disk: seq<Byte>, cs: seq<Command>)
    requires DiskOk(disk)
    ensures VolumeOk(Formatted(disk)) && Tidy(Formatted(disk))
    ensures RunEnabled(Formatted(disk), cs) ==>
              && RunSafe(Formatted(disk), cs)
              && var (r, m) := Run(Formatted(disk), map[], cs); VolumeOk(r) && Tidy(r) && Represents(r, m)
  {
    FormattedIsTidy(disk);
    if RunEnabled(Formatted(disk), cs) {
      NoDeleteIsSafe(Formatted(disk), map[], cs);
      RunRefinesMap(Formatted(disk), map[], cs);
    }
  }
}
