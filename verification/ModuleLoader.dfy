/** The kernel's module loader and the `memcpy` it uses, on memory as one array. */
module ModuleLoader {
  import opened Words
  import opened ModuleImage

  class Memory {
    const bytes: array<Byte>

    constructor (bytes: array<Byte>)
      ensures this.bytes == bytes
    {
      this.bytes := bytes;
    }

    /** A store of a 32-bit word. */
    method StoreWord(at: nat, v: nat)
      requires at + 4 <= bytes.Length && v < 0x1_0000_0000
      modifies bytes
      ensures forall i :: 0 <= i < bytes.Length ==>
          bytes[i] == if at <= i < at + 4 then ToBytes(v, 4)[i - at] else old(bytes[i])
    {
      var b := ToBytes(v, 4);
      bytes[at], bytes[at + 1], bytes[at + 2], bytes[at + 3] := b[0], b[1], b[2], b[3];
    }

    /** The word loop of `memcpy`. */
    method CopyWords(dst: nat, src: nat, n: nat)
      requires dst + 4 * n <= bytes.Length && src + 4 * n <= bytes.Length && Apart(dst, 4 * n, src, 4 * n)
      modifies bytes
      ensures PartCopied(old(bytes[..]), bytes[..], dst, src, 4 * n)
    {
      for i := 0 to n
        invariant PartCopied(old(bytes[..]), bytes[..], dst, src, 4 * i)
      {
        ghost var now := bytes[..];
        CopyWord(dst + 4 * i, src + 4 * i);
        MoreCopied(old(bytes[..]), now, bytes[..], dst, src, 4 * i, 4);
      }
    }

    /** One word, read and stored. */
    method CopyWord(dst: nat, src: nat)
      requires dst + 4 <= bytes.Length && src + 4 <= bytes.Length
      modifies bytes
      ensures PartCopied(old(bytes[..]), bytes[..], dst, src, 4)
    {
      ghost var word := bytes[src..src + 4];
      ValueRoundTrip(word);
      StoreWord(dst, Read32(bytes[..], src));
      ghost var was, now := old(bytes[..]), bytes[..];
      forall k | 0 <= k < |was| ensures PartAt(was, now, dst, src, 4, k) {
        assert dst <= k < dst + 4 ==> now[k] == word[k - dst] == was[src + (k - dst)];
      }
    }

    /** The byte loop. */
    method CopyBytes(dst: nat, src: nat, n: nat)
      requires dst + n <= bytes.Length && src + n <= bytes.Length && Apart(dst, n, src, n)
      modifies bytes
      ensures PartCopied(old(bytes[..]), bytes[..], dst, src, n)
    {
      for i := 0 to n
        invariant PartCopied(old(bytes[..]), bytes[..], dst, src, i)
      {
        ghost var now := bytes[..];
        bytes[dst + i] := bytes[src + i];
        assert PartCopied(now, bytes[..], dst + i, src + i, 1);
        MoreCopied(old(bytes[..]), now, bytes[..], dst, src, i, 1);
      }
    }

    /** `memcpy` between places that do not overlap: by words when both addresses and the length are multiples of
        four, else by bytes. Either way the bytes are copied. */
    method MemCpy(dst: nat, src: nat, n: nat)
      requires dst + n <= bytes.Length && src + n <= bytes.Length && Apart(dst, n, src, n)
      modifies bytes
      ensures bytes[..] == Copied(old(bytes[..]), dst, src, n)
    {
      if dst % 4 == 0 && src % 4 == 0 && n % 4 == 0 {
        CopyWords(dst, src, n / 4);
      } else {
        CopyBytes(dst, src, n);
      }
      ghost var r := Copied(old(bytes[..]), dst, src, n);
      forall k | 0 <= k < bytes.Length ensures bytes[k] == r[k] {
        assert PartAt(old(bytes[..]), bytes[..], dst, src, n, k);
      }
    }

    /** `loadModule`, with the moved pointer as its result. */
    method LoadModule(at: nat, target: nat) returns (next: nat)
      requires at + 4 <= bytes.Length
      requires var size := Read32(bytes[..], at);
               at + 4 + size <= bytes.Length && target + size <= bytes.Length && Apart(target, size, at + 4, size)
      modifies bytes
      ensures var size := Read32(old(bytes[..]), at);
              next == at + 4 + size && bytes[..] == Copied(old(bytes[..]), target, at + 4, size)
    {
      var size := Read32(bytes[..], at);
      next := at + 4;
      MemCpy(target, next, size);
      next := next + size;
    }

    /** One turn of the loop of `loadModules`: what is left to load leads to the same memory. */
    method LoadNext(at: nat, target: nat, ghost mem: Bytes, ghost targets: seq<nat>, ghost i: nat, ghost count: nat)
      returns (next: nat, ghost loaded: Bytes)
      requires bytes[..] == mem && i < count && CanLoad(mem, at, targets, i, count) && target == targets[i]
      modifies bytes
      ensures bytes[..] == loaded && CanLoad(loaded, next, targets, i + 1, count)
      ensures Loaded(loaded, next, targets, i + 1, count) == Loaded(mem, at, targets, i, count)
    {
      CanLoadStep(mem, at, targets, i, count);
      ghost var after := at + 4 + Read32(mem, at);
      loaded := Copied(mem, targets[i], at + 4, Read32(mem, at));
      assert CanLoad(loaded, after, targets, i + 1, count);
      assert Loaded(loaded, after, targets, i + 1, count) == Loaded(mem, at, targets, i, count);
      next := LoadModule(at, target);
      assert next == after;
    }

    /** `loadModules` */
    method LoadModules(start: nat, targets: seq<nat>)
      requires start + 4 <= bytes.Length
      requires CanLoad(bytes[..], start + 4, targets, 0, Read32(bytes[..], start))
      modifies bytes
      ensures bytes[..] == Loaded(old(bytes[..]), start + 4, targets, 0, Read32(old(bytes[..]), start))
    {
      ghost var mem := bytes[..];
      var count: nat := Read32(bytes[..], start);
      var at: nat := start + 4;
      ghost var result := Loaded(mem, at, targets, 0, count);
      for i := 0 to count
        invariant mem == bytes[..] && CanLoad(mem, at, targets, i, count)
            && Loaded(mem, at, targets, i, count) == result
      {
        CanLoadStep(mem, at, targets, i, count);
        at, mem := LoadNext(at, targets[i], mem, targets, i, count);
      }
    }
  }
}
