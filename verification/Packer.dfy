/** The module packer: writes the image file by file, in chunks. */
module Packer {
  import opened Words
  import opened ModuleImage

  /** An open file to read from. */
  class Source {
    const data: Bytes
    var pos: nat
    var eof: bool

    constructor (data: Bytes)
      ensures this.data == data && pos == 0 && !eof
    {
      this.data, pos, eof := data, 0, false;
    }

    /** `fread`: at most n bytes; asking for more than there are sets the end-of-file mark. */
    method Read(n: nat) returns (chunk: Bytes)
      requires pos <= |data|
      modifies this
      ensures old(pos) <= pos == (if old(pos) + n <= |data| then old(pos) + n else |data|)
      ensures chunk == data[old(pos)..pos]
      ensures eof == (old(eof) || old(pos) + n > |data|)
    {
      var end := if pos + n <= |data| then pos + n else |data|;
      eof := eof || pos + n > |data|;
      chunk := data[pos..end];
      pos := end;
    }
  }

  lemma RecordsStep(target: Bytes, files: seq<Bytes>, i: nat)
    requires i < |files|
    ensures target + Records(files[i..]) == target + Word32(|files[i]|) + files[i] + Records(files[i + 1..])
  {
    assert files[i..][0] == files[i] && files[i..][1..] == files[i + 1..];
    var a, b, c := Word32(|files[i]|), files[i], Records(files[i + 1..]);
    assert target + (a + b + c) == target + a + b + c;
  }

  class Writer {
    var target: Bytes

    constructor ()
      ensures target == []
    {
      target := [];
    }

    /** `write_file`: chunks of 128 bytes until the end-of-file mark is set. A file of whole chunks takes an empty
        read more. */
    method WriteFile(source: Source)
      requires source.pos == 0 && !source.eof
      modifies this, source
      ensures target == old(target) + source.data
    {
      while !source.eof
        invariant source.pos <= |source.data| && target == old(target) + source.data[..source.pos]
        invariant source.eof ==> source.pos == |source.data|
        decreases |source.data| - source.pos, if source.eof then 0 else 1
      {
        ghost var was := source.pos;
        var chunk := source.Read(128);
        target := target + chunk;
        assert source.data[..source.pos] == source.data[..was] + chunk;
        assert target == old(target) + (source.data[..was] + chunk);
      }
      assert source.data[..source.pos] == source.data;
    }

    /** `write_size`: the size, cut to 32 bits. */
    method WriteSize(size: nat)
      modifies this
      ensures target == old(target) + Word32(size)
    {
      target := target + Word32(size);
    }

    /** `buildImage` of the contents of the files. */
    method BuildImage(files: seq<Bytes>)
      requires files != [] && target == []
      modifies this
      ensures target == Image(files)
    {
      var source := new Source(files[0]);
      WriteFile(source);
      target := target + Word32(|files| - 1);
      for i := 1 to |files|
        invariant target + Records(files[i..]) == Image(files)
      {
        RecordsStep(target, files, i);
        source := new Source(files[i]);
        WriteSize(|files[i]|);
        WriteFile(source);
      }
      assert files[|files|..] == [] && target + [] == target;
    }
  }
}
