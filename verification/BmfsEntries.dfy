/** The directory of a BMFS volume: 64 entries of 64 bytes. */
module BmfsEntries {
  import opened Words

  /** `struct BMFSEntry`. The name is the 32-byte field, whatever follows its terminating zero. */
  datatype Entry = Entry(fileName: seq<Byte>, start: U64, reserved: U64, size: U64, unused: U64)

  // ---- entries and directories as bytes

  predicate EntryOk(e: Entry) {
    |e.fileName| == 32
  }

  function EncodeEntry(e: Entry): (b: seq<Byte>)
    requires EntryOk(e)
    ensures |b| == 64
  {
    e.fileName + ToBytes(e.start, 8) + ToBytes(e.reserved, 8) + ToBytes(e.size, 8) + ToBytes(e.unused, 8)
  }

  function DecodeEntry(b: seq<Byte>): (e: Entry)
    requires |b| == 64
    ensures EntryOk(e)
  {
    Entry(b[..32], Word(b[32..40]), Word(b[40..48]), Word(b[48..56]), Word(b[56..64]))
  }

  lemma FieldsOfRecord(name: seq<Byte>, a: seq<Byte>, b: seq<Byte>, c: seq<Byte>, d: seq<Byte>)
    requires |name| == 32 && |a| == |b| == |c| == |d| == 8
    ensures var r := name + a + b + c + d;
            r[..32] == name && r[32..40] == a && r[40..48] == b && r[48..56] == c && r[56..64] == d
  {
  }

  lemma EntryRoundTrip(e: Entry)
    requires EntryOk(e)
    ensures DecodeEntry(EncodeEntry(e)) == e
  {
    PowerOf8();
    BytesRoundTrip(e.start, 8);
    BytesRoundTrip(e.reserved, 8);
    BytesRoundTrip(e.size, 8);
    BytesRoundTrip(e.unused, 8);
    FieldsOfRecord(e.fileName, ToBytes(e.start, 8), ToBytes(e.reserved, 8), ToBytes(e.size, 8), ToBytes(e.unused, 8));
  }

  /** Name, starting block, reserved blocks, size: where each lies in the record. */
  lemma EntryLayout(b: seq<Byte>)
    requires |b| == 64
    ensures var e := DecodeEntry(b);
            && e.fileName == b[..32]
            && (forall i :: 0 <= i < 8 ==> ToBytes(e.start, 8)[i] == b[32 + i])
            && (forall i :: 0 <= i < 8 ==> ToBytes(e.reserved, 8)[i] == b[40 + i])
            && (forall i :: 0 <= i < 8 ==> ToBytes(e.size, 8)[i] == b[48 + i])
  {
    ValueRoundTrip(b[32..40]);
    ValueRoundTrip(b[40..48]);
    ValueRoundTrip(b[48..56]);
  }

  lemma EntryBytesRoundTrip(b: seq<Byte>)
    requires |b| == 64
    ensures EncodeEntry(DecodeEntry(b)) == b
  {
    ValueRoundTrip(b[32..40]);
    ValueRoundTrip(b[40..48]);
    ValueRoundTrip(b[48..56]);
    ValueRoundTrip(b[56..64]);
  }

  predicate EntriesOk(dir: seq<Entry>) {
    forall i :: 0 <= i < |dir| ==> EntryOk(dir[i])
  }

  predicate DirOk(dir: seq<Entry>) {
    |dir| == 64 && EntriesOk(dir)
  }

  function Encode(dir: seq<Entry>): (b: seq<Byte>)
    requires EntriesOk(dir)
    ensures |b| == 64 * |dir|
  {
    if dir == [] then [] else Encode(dir[..|dir| - 1]) + EncodeEntry(dir[|dir| - 1])
  }

  function Decode(b: seq<Byte>): (dir: seq<Entry>)
    requires |b| % 64 == 0
    ensures |dir| * 64 == |b| && EntriesOk(dir)
  {
    if b == [] then [] else Decode(b[..|b| - 64]) + [DecodeEntry(b[|b| - 64..])]
  }

  lemma DecodeLast(b: seq<Byte>, c: seq<Byte>)
    requires |b| % 64 == 0 && |c| == 64
    ensures Decode(b + c) == Decode(b) + [DecodeEntry(c)]
  {
    assert (b + c)[..|b + c| - 64] == b && (b + c)[|b + c| - 64..] == c;
  }

  lemma {:induction false} DirectoryRoundTrip(dir: seq<Entry>)
    requires EntriesOk(dir)
    ensures Decode(Encode(dir)) == dir
  {
    if dir != [] {
      var n := |dir| - 1;
      DirectoryRoundTrip(dir[..n]);
      EntryRoundTrip(dir[n]);
      assert EntryOk(dir[n]);
      DecodeLast(Encode(dir[..n]), EncodeEntry(dir[n]));
      assert dir == dir[..n] + [dir[n]];
    }
  }

  lemma {:induction false} DirectoryBytesRoundTrip(b: seq<Byte>)
    requires |b| % 64 == 0
    ensures Encode(Decode(b)) == b
  {
    if b != [] {
      var dir := Decode(b);
      DirectoryBytesRoundTrip(b[..|b| - 64]);
      EntryBytesRoundTrip(b[|b| - 64..]);
      assert dir[..|dir| - 1] == Decode(b[..|b| - 64]);
    }
  }

  /** Where entry i lies in the encoded directory. */
  lemma {:induction false} EntryIsAt(dir: seq<Entry>, i: nat)
    requires EntriesOk(dir) && i < |dir|
    ensures Encode(dir)[64 * i..64 * i + 64] == EncodeEntry(dir[i])
  {
    var n := |dir| - 1;
    if i < n {
      EntryIsAt(dir[..n], i);
      assert Encode(dir)[64 * i..64 * i + 64] == Encode(dir[..n])[64 * i..64 * i + 64];
    }
  }

  // ---- names

  predicate IsEnd(e: Entry) {
    EntryOk(e) && e.fileName[0] == 0
  }

  predicate IsDeleted(e: Entry) {
    EntryOk(e) && e.fileName[0] == 1
  }

  function UpToNul(b: seq<Byte>): (s: seq<Byte>)
    ensures |s| <= |b| && s == b[..|s|] && 0 !in s
    ensures |s| < |b| ==> b[|s|] == 0
  {
    if b == [] || b[0] == 0 then [] else [b[0]] + UpToNul(b[1..])
  }

  function Name(e: Entry): seq<Byte> {
    UpToNul(e.fileName)
  }

  predicate Terminated(e: Entry) {
    EntryOk(e) && |Name(e)| < 32
  }

  /** A name that fits its field and marks its entry neither as the end nor as deleted. */
  predicate GoodName(name: seq<Byte>) {
    0 < |name| < 32 && 0 !in name && name[0] != 1
  }

  /** `strcpy` into the name field: what lies behind the terminating zero stays. */
  function Renamed(e: Entry, name: seq<Byte>): (r: Entry)
    requires EntryOk(e) && |name| < 32
    ensures EntryOk(r)
  {
    e.(fileName := name + [0] + e.fileName[|name| + 1..])
  }

  lemma RenamedHasName(e: Entry, name: seq<Byte>)
    requires EntryOk(e) && |name| < 32 && 0 !in name
    ensures Name(Renamed(e, name)) == name && Terminated(Renamed(e, name))
  {
    var rest := e.fileName[|name| + 1..];
    UpToFirstNul(name, rest);
    assert name + [0] + rest == name + ([0] + rest);
  }

  lemma {:induction false} UpToFirstNul(name: seq<Byte>, rest: seq<Byte>)
    requires 0 !in name
    ensures UpToNul(name + ([0] + rest)) == name
  {
    if name != [] {
      UpToFirstNul(name[1..], rest);
      assert (name + ([0] + rest))[1..] == name[1..] + ([0] + rest);
    }
  }

  /** `strcpy` of a name of 32 to 39 characters runs over the low bytes of the start: they become the rest of the
      name and its terminating zero. */
  lemma OverlongNameMovesStart(e: Entry, name: seq<Byte>)
    requires EntryOk(e) && 32 <= |name| < 40
    ensures var r := DecodeEntry(name + [0] + EncodeEntry(e)[|name| + 1..]);
            && r.fileName == name[..32] && r.reserved == e.reserved && r.size == e.size
            && r.start == Word(name[32..] + [0] + ToBytes(e.start, 8)[|name| - 31..])
  {
    var b := EncodeEntry(e);
    var o := name + [0] + b[|name| + 1..];
    PowerOf8();
    BytesRoundTrip(e.reserved, 8);
    BytesRoundTrip(e.size, 8);
    assert b[32..40] == ToBytes(e.start, 8) && b[40..48] == ToBytes(e.reserved, 8) && b[48..56] == ToBytes(e.size, 8);
    assert o[..32] == name[..32] && o[40..48] == b[40..48] && o[48..56] == b[48..56];
    assert o[32..40] == name[32..] + [0] + b[32..40][|name| - 31..];
  }

  /** A name of exactly 32 characters puts a file that starts below block 256 on block 0, over the directory. */
  lemma NameOf32MovesToBlock0(e: Entry, name: seq<Byte>)
    requires EntryOk(e) && |name| == 32 && e.start < 256
    ensures DecodeEntry(name + [0] + EncodeEntry(e)[33..]).start == 0
  {
    OverlongNameMovesStart(e, name);
    var b := ToBytes(e.start, 8);
    assert b[1..] == ToBytes(0, 7);
    assert name[32..] + [0] + b[1..] == [0] + ToBytes(0, 7);
    BytesRoundTrip(0, 7);
    assert ([0] + ToBytes(0, 7))[1..] == ToBytes(0, 7);
  }
}
