/** The BMFS utility itself: a disk file and the directory read from it, changed in place. */
module Bmfs {
  import opened Wrappers
  import opened Words
  import opened BmfsEntries
  import opened BmfsPlacement
  import opened BmfsVolume
  import opened BmfsRuns

  class Utility {
    const disk: array<Byte>
    const directory: array<Entry>

    ghost predicate Valid()
      reads disk, directory
    {
      directory.Length == 64 && DiskOk(disk[..]) && directory[..] == Dir(disk[..])
    }

    /** `main` up to the command: the directory is read from the disk. */
    constructor (disk: array<Byte>)
      requires DiskOk(disk[..])
      ensures Valid() && this.disk == disk && fresh(directory)
    {
      this.disk := disk;
      var dir := Dir(disk[..]);
      directory := new Entry[64](i requires 0 <= i < 64 => dir[i]);
    }

    /** `fseek` and `fwrite`, or a run of `putc`. */
    method WriteAt(pos: nat, data: seq<Byte>)
      requires pos + |data| <= disk.Length
      modifies disk
      ensures disk[..] == Patched(old(disk[..]), pos, data)
    {
      for i := 0 to |data|
        invariant forall k :: 0 <= k < disk.Length ==>
            disk[k] == if pos <= k < pos + i then data[k - pos] else old(disk[k])
      {
        disk[pos + i] := data[i];
      }
    }

    /** Writes the directory back to the disk. */
    method Flush()
      requires directory.Length == 64 && DirOk(directory[..]) && DiskOk(disk[..])
      modifies disk
      ensures Valid() && disk[..] == Flushed(old(disk[..]), directory[..])
    {
      WriteAt(0x1000, Encode(directory[..]));
      FlushedDir(old(disk[..]), directory[..]);
    }

    method Find(name: seq<Byte>) returns (slot: Option<nat>)
      requires Valid()
      ensures slot == FindFile(directory[..], name)
      ensures slot.Some? ==> slot.value < 64
    {
      var i := 0;
      while i < 64
        invariant 0 <= i <= 64 && FindFile(directory[..], name) == FindFrom(directory[..], name, i)
      {
        if IsEnd(directory[i]) {
          return None;
        } else if !IsDeleted(directory[i]) && Name(directory[i]) == name {
          return Some(i);
        }
        i := i + 1;
      }
      return None;
    }

    /** The first loop of `create`: how many entries are used, and the first that is free. */
    method Count() returns (used: nat, free: Option<nat>)
      requires Valid()
      ensures used == NumUsed(directory[..]) && free == FreeFrom(directory[..], 0)
    {
      used, free := 0, None;
      var i := 0;
      while i < 64
        invariant 0 <= i <= 64 && used == 0
        invariant forall j :: 0 <= j < i ==> !IsEnd(directory[j])
        invariant free.Some? ==> free == FreeFrom(directory[..], 0)
        invariant free.None? ==> FreeFrom(directory[..], i) == FreeFrom(directory[..], 0)
      {
        if IsEnd(directory[i]) {
          used := i;
          if free.None? { free := Some(i); }
          UsedIs(directory[..], i);
          return;
        } else if IsDeleted(directory[i]) {
          if free.None? { free := Some(i); }
        }
        i := i + 1;
      }
      UsedIs(directory[..], 64);
    }

    /** The second loop of `create`, over the sorted copy. */
    method Place(sorted: seq<Entry>, blocks: U64, requested: U64) returns (start: U64)
      ensures start == Scan(sorted, 0, 1, blocks, requested)
    {
      start := 0;
      var prevEnd: U64 := 1;
      var i := 0;
      while i < |sorted| + 1
        invariant 0 <= i <= |sorted| + 1 && start == 0
        invariant i <= |sorted| ==> Scan(sorted, 0, 1, blocks, requested) == Scan(sorted, i, prevEnd, blocks, requested)
        invariant i > |sorted| ==> Scan(sorted, 0, 1, blocks, requested) == 0
      {
        var thisStart := if i == |sorted| || IsDeleted(sorted[i]) then Sub64(blocks, 1) else sorted[i].start;
        if Sub64(thisStart, prevEnd) >= requested {
          start := prevEnd;
          break;
        }
        if i < |sorted| {
          prevEnd := End(sorted[i]);
        }
        i := i + 1;
      }
    }

    /** The end of `create`: the file's record, and the end mark moved on when its place was taken. */
    method Record(slot: nat, used: nat, name: seq<Byte>, start: U64, requested: U64)
      requires directory.Length == 64 && DirOk(directory[..]) && slot < 64 && |name| < 32
          && used == NumUsed(directory[..])
      modifies directory
      ensures directory[..] == WithFile(old(directory[..]), slot, name, start, requested)
    {
      directory[slot] := directory[slot].(start := start, reserved := requested, size := 0);
      directory[slot] := Renamed(directory[slot], name);
      if slot == used && used + 1 < 64 {
        directory[used + 1] := directory[used + 1].(fileName := directory[used + 1].fileName[0 := 0]);
      }
    }

    /** `create`; `order` is what qsort makes of the used entries. */
    method Create(name: seq<Byte>, maxsize: nat, order: seq<nat>) returns (outcome: Outcome)
      requires Valid() && CreateArgs(disk[..], name, maxsize, order)
      modifies disk, directory
      ensures Valid()
      ensures disk[..] == Created(old(disk[..]), name, maxsize, order).0
          && outcome == Created(old(disk[..]), name, maxsize, order).1
    {
      var found := Find(name);
      if found.Some? { return Refused; }
      var requested := Requested(maxsize);
      var used, free := Count();
      if free.None? { return Refused; }
      var start := Place(Arranged(directory[..], order), disk.Length / 0x10_0000 / 2, requested);
      if start == 0 { return Refused; }
      Record(free.value, used, name, start, requested);
      Flush();
      outcome := Done;
    }

    /** `read`, with the local file as its result. */
    method Read(name: seq<Byte>) returns (content: Option<seq<Byte>>)
      requires Valid() && VolumeOk(disk[..])
      ensures content == BmfsVolume.Read(disk[..], name)
    {
      var slot := Find(name);
      FindFileFinds(directory[..], name, Blocks(disk[..]));
      if slot.None? { return None; }
      var e := directory[slot.value];
      ContentInDisk(disk[..], slot.value);
      var bytes: seq<Byte> := [];
      var i: Int32 := 0;
      while AsUnsigned(i) < e.size
        invariant if i >= 0 then |bytes| == i <= e.size else |bytes| == 0x8000_0000 <= e.size
        invariant bytes == disk[BlockAt(e.start)..BlockAt(e.start) + |bytes|]
        decreases if i >= 0 then 0x8000_0000 - i else 0
      {
        bytes := bytes + [disk[BlockAt(e.start) + |bytes|]];
        i := Incremented(i);
      }
      content := Some(bytes);
    }

    /** The copy loop of `write`; what lies behind the wrap of its counter is not copied. */
    method CopyTo(pos: nat, data: seq<Byte>)
      requires |data| < 0x10_0000_0000_0000 && pos + |data| <= disk.Length
      modifies disk
      ensures disk[..] == Patched(old(disk[..]), pos, Stored(data))
    {
      var i: Int32 := 0;
      ghost var n := 0;
      while AsUnsigned(i) < |data|
        invariant if i >= 0 then n == i <= |data| else n == 0x8000_0000 <= |data|
        invariant forall k :: 0 <= k < disk.Length ==>
            disk[k] == if pos <= k < pos + n then data[k - pos] else old(disk[k])
        decreases if i >= 0 then 0x8000_0000 - i else 0
      {
        disk[pos + i] := data[i];
        i := Incremented(i);
        n := n + 1;
      }
    }

    /** `write`, with `data` for the contents of the local file. */
    method Write(name: seq<Byte>, data: seq<Byte>) returns (outcome: Outcome)
      requires Valid() && VolumeOk(disk[..])
      modifies disk, directory
      ensures Valid() && VolumeOk(disk[..])
      ensures disk[..] == Written(old(disk[..]), name, data).0 && outcome == Written(old(disk[..]), name, data).1
    {
      var slot := Find(name);
      WriteIsLocal(disk[..], name, data, name);
      FindFileFinds(directory[..], name, Blocks(disk[..]));
      if slot.None? { return Refused; }
      var e := directory[slot.value];
      ContentInDisk(disk[..], slot.value);
      if BlockAt(e.reserved) < |data| { return Refused; }
      CopyTo(BlockAt(e.start), data);
      directory[slot.value] := e.(size := |data|);
      Flush();
      outcome := Done;
    }

    method Delete(name: seq<Byte>) returns (outcome: Outcome)
      requires Valid() && VolumeOk(disk[..])
      modifies disk, directory
      ensures Valid() && VolumeOk(disk[..])
      ensures disk[..] == Deleted(old(disk[..]), name).0 && outcome == Deleted(old(disk[..]), name).1
    {
      var slot := Find(name);
      DeleteRemoves(disk[..], name, name);
      FindFileFinds(directory[..], name, Blocks(disk[..]));
      if slot.None? { return Refused; }
      var e := directory[slot.value];
      directory[slot.value] := e.(fileName := e.fileName[0 := 1]);
      Flush();
      outcome := Done;
    }

    method Format()
      requires Valid()
      modifies disk, directory
      ensures Valid() && disk[..] == Formatted(old(disk[..]))
    {
      WriteAt(0x400, Tag());
      forall i | 0 <= i < 64 { directory[i] := ZeroEntry(); }
      assert directory[..] == seq(64, i => ZeroEntry());
      Flush();
    }
  }
}
