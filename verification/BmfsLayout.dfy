/** Where on the disk, in bytes, the utility puts things: the size of a block, of a file's room, of the tables. */
module BmfsLayout {
  import opened Wrappers
  import opened Words
  import opened BmfsEntries
  import opened BmfsPlacement
  import opened BmfsVolume
  import opened BmfsRuns

  /** A disk is counted in whole blocks of 2 MiB. */
  lemma BlocksAreWhole(disk: seq<Byte>)
    requires DiskOk(disk)
    ensures 0x20_0000 * Blocks(disk) <= |disk| < 0x20_0000 * (Blocks(disk) + 1)
  {
  }

  /** The bytes at twice as many MiB as the starting block of file i. */
  predicate LiesAt(disk: seq<Byte>, i: nat, data: seq<Byte>)
    requires DiskOk(disk) && i < 64
  {
    var at := 0x20_0000 * Dir(disk)[i].start;
    at + |data| <= |disk| && disk[at..at + |data|] == data
  }

  /** The file called `name` starts at block `start`, has the given size and begins with the given bytes. */
  predicate IsStored(disk: seq<Byte>, name: seq<Byte>, start: nat, size: nat, data: seq<Byte>)
    requires DiskOk(disk)
  {
    exists i ::
      && 0 <= i < 64 && Holds(Dir(disk), i, name) && Dir(disk)[i].start == start && Dir(disk)[i].size == size
      && LiesAt(disk, i, data)
  }

  lemma StoredAtItsBlock(disk: seq<Byte>, i: nat, data: seq<Byte>)
    requires VolumeOk(disk) && Live(Dir(disk), i) && |data| <= 0x20_0000 * Dir(disk)[i].reserved
    ensures FindFile(Dir(disk), Name(Dir(disk)[i])) == Some(i)
    ensures var (r, outcome) := Written(disk, Name(Dir(disk)[i]), data);
            && outcome == Done
            && IsStored(r, Name(Dir(disk)[i]), Dir(disk)[i].start, |data|, Stored(data))
  {
    var name := Name(Dir(disk)[i]);
    assert Holds(Dir(disk), i, name);
    FindFileFinds(Dir(disk), name, Blocks(disk));
    WrittenDir(disk, i, data);
    var r := Written(disk, name, data).0;
    assert Holds(Dir(r), i, name) && LiesAt(r, i, Stored(data));
  }

  /** `write` takes what fits the reserved blocks of 2 MiB and puts it where the starting block begins. */
  lemma WriteGoesToItsBlock(disk: seq<Byte>, i: nat, name: seq<Byte>, data: seq<Byte>)
    requires VolumeOk(disk) && Holds(Dir(disk), i, name)
    ensures var e, (r, outcome) := Dir(disk)[i], Written(disk, name, data);
            && (outcome == Done <==> |data| <= 0x20_0000 * e.reserved)
            && (outcome == Done ==> IsStored(r, name, e.start, |data|, Stored(data)))
  {
    FindFileFinds(Dir(disk), name, Blocks(disk));
    if |data| <= 0x20_0000 * Dir(disk)[i].reserved { StoredAtItsBlock(disk, i, data); }
  }

  /** After a sound `create` of n MiB a `write` goes through exactly when the data fit n MiB, rounded up to whole
      blocks of two; they are then found where the place chosen for the file begins. */
  lemma CreatedRoom(disk: seq<Byte>, name: seq<Byte>, maxsize: nat, order: seq<nat>, data: seq<Byte>)
    requires VolumeOk(disk) && CreateArgs(disk, name, maxsize, order) && GoodName(name) && !CutsShort(Dir(disk))
    requires Created(disk, name, maxsize, order).1 == Done && VolumeOk(Created(disk, name, maxsize, order).0)
    ensures var start := Place(Dir(disk), order, Blocks(disk), Requested(maxsize));
            var (r, outcome) := Written(Created(disk, name, maxsize, order).0, name, data);
            && (outcome == Done <==> |data| <= 0x20_0000 * ((maxsize + 1) / 2))
            && (outcome == Done ==> IsStored(r, name, start, |data|, Stored(data)))
  {
    var slot := FreeFrom(Dir(disk), 0).value;
    var start, requested := Place(Dir(disk), order, Blocks(disk), Requested(maxsize)), Requested(maxsize);
    var extended := WithFile(Dir(disk), slot, name, start, requested);
    FlushedDir(disk, extended);
    WithFileHolds(Dir(disk), slot, name, start, requested);
    WriteGoesToItsBlock(Created(disk, name, maxsize, order).0, slot, name, data);
  }

  /** The first file of a formatted disk can have everything but the first and the last block, and lies behind
      the first. */
  lemma FirstFile(disk: seq<Byte>, name: seq<Byte>, maxsize: nat, data: seq<Byte>)
    requires DiskOk(disk) && GoodName(name) && 1 <= maxsize < 0x8000_0000
    ensures VolumeOk(Formatted(disk)) && CreateArgs(Formatted(disk), name, maxsize, [])
    ensures var (made, created) := Created(Formatted(disk), name, maxsize, []);
            && (created == Done <==> 0x20_0000 * ((maxsize + 1) / 2 + 2) <= |disk|)
            && (created == Done ==>
                  && VolumeOk(made)
                  && var (r, outcome) := Written(made, name, data);
                     && (outcome == Done <==> |data| <= 0x20_0000 * ((maxsize + 1) / 2))
                     && (outcome == Done ==> r[0x20_0000..0x20_0000 + LoopCount(|data|)] == Stored(data)))
  {
    var d, requested := Formatted(disk), Requested(maxsize);
    FormatEmpties(disk, name);
    var nb := Blocks(d);
    assert IsEnd(Dir(d)[0]) && FreeFrom(Dir(d), 0) == Some(0) && FindFile(Dir(d), name) == None;
    assert Place(Dir(d), [], nb, requested) == if requested + 2 <= nb then 1 else 0;
    if requested + 2 <= nb {
      CreateAddsFile(d, name, maxsize, [], name);
      CreatedRoom(d, name, maxsize, [], data);
    }
  }

  lemma RecordBytes(dir: seq<Entry>, i: nat, mark: Byte, k: nat)
    requires DirOk(dir) && i < 64 && k < 0x1000
    ensures var e := dir[i].(fileName := dir[i].fileName[0 := mark]);
            DirOk(dir[i := e]) && Encode(dir[i := e])[k] == if k == 64 * i then mark else Encode(dir)[k]
  {
    var e := dir[i].(fileName := dir[i].fileName[0 := mark]);
    var r := dir[i := e];
    EncodeUpdate(dir, i, e);
    if 64 * i <= k < 64 * i + 64 {
      EntryIsAt(dir, i);
      EntryIsAt(r, i);
      assert Encode(r)[k] == Encode(r)[64 * i..64 * i + 64][k - 64 * i] == EncodeEntry(e)[k - 64 * i];
      assert Encode(dir)[k] == Encode(dir)[64 * i..64 * i + 64][k - 64 * i] == EncodeEntry(dir[i])[k - 64 * i];
    }
  }

  /** `delete` sets the first byte of the file's record to 1 and leaves every other. */
  lemma DeleteWrites(disk: seq<Byte>, i: nat, name: seq<Byte>, k: nat)
    requires VolumeOk(disk) && Holds(Dir(disk), i, name) && k < |disk|
    ensures Deleted(disk, name).0[k] == if k == 0x1000 + 64 * i then 1 else disk[k]
  {
    FindFileFinds(Dir(disk), name, Blocks(disk));
    if 0x1000 <= k < 0x2000 {
      RecordBytes(Dir(disk), i, 1, k - 0x1000);
      DirectoryBytesRoundTrip(disk[0x1000..0x2000]);
    }
  }

  /** `format` writes the tag and zeros to 0x400 on, zeros over the directory, and leaves every other byte. */
  lemma FormatWrites(disk: seq<Byte>, k: nat)
    requires DiskOk(disk) && k < |disk|
    ensures Formatted(disk)[k] ==
            if 0x400 <= k < 0x404 then "BMFS"[k - 0x400] as int
            else if 0x404 <= k < 0x600 || 0x1000 <= k < 0x2000 then 0
            else disk[k]
  {
    if 0x1000 <= k < 0x2000 {
      var dir, i := seq(64, i => ZeroEntry()), (k - 0x1000) / 64;
      EntryIsAt(dir, i);
      ZeroBytes(8);
      assert EncodeEntry(dir[i])[k - 0x1000 - 64 * i] == 0;
      assert Encode(dir)[64 * i..64 * i + 64][k - 0x1000 - 64 * i] == Encode(dir)[k - 0x1000];
    }
  }

  lemma {:induction false} ZeroBytes(n: nat)
    ensures forall i :: 0 <= i < n ==> ToBytes(0, n)[i] == 0
  {
    if n > 0 { ZeroBytes(n - 1); }
  }
}
