/** Machine integers: bytes, 64-bit words that wrap, and their little-endian bytes. */
module Words {

  type Byte = x: int | 0 <= x < 256

  type U64 = x: nat | x < 0x1_0000_0000_0000_0000

  /** C's `int`. */
  type Int32 = x: int | -0x8000_0000 <= x < 0x8000_0000

  predicate FitsInt(x: int) {
    -0x8000_0000 <= x < 0x8000_0000
  }

  /** A result kept in 32 bits; the language leaves arithmetic beyond `int` undefined. */
  function Wrapped(x: int): Int32 {
    var low := x % 0x1_0000_0000;
    if low < 0x8000_0000 then low else low - 0x1_0000_0000
  }

  /** Whole turns of 2^32 do not show. */
  lemma WrappedTurns(x: int, turns: int)
    ensures Wrapped(x + turns * 0x1_0000_0000) == Wrapped(x)
    ensures FitsInt(x) ==> Wrapped(x) == x
  {
    var y := x + turns * 0x1_0000_0000;
    assert y % 0x1_0000_0000 == x % 0x1_0000_0000 by {
      assert y == x % 0x1_0000_0000 + (x / 0x1_0000_0000 + turns) * 0x1_0000_0000;
    }
  }

  lemma TurnsOf(x: int) returns (turns: int)
    ensures x == Wrapped(x) + turns * 0x1_0000_0000
  {
    turns := x / 0x1_0000_0000 + if x % 0x1_0000_0000 < 0x8000_0000 then 0 else 1;
  }

  /** `i++` where it wraps; the language leaves the step past 2^31 - 1 undefined. */
  function Incremented(i: Int32): Int32 {
    if i == 0x7FFF_FFFF then -0x8000_0000 else i + 1
  }

  /** An `int` compared with an unsigned 64-bit word. */
  function AsUnsigned(i: Int32): U64 {
    if i >= 0 then i else i + 0x1_0000_0000_0000_0000
  }

  function Add64(a: U64, b: U64): (r: U64)
    ensures r == a + b || r == a + b - 0x1_0000_0000_0000_0000
  {
    if a + b < 0x1_0000_0000_0000_0000 then a + b else a + b - 0x1_0000_0000_0000_0000
  }

  function Sub64(a: U64, b: U64): (r: U64)
    ensures r == a - b || r == a - b + 0x1_0000_0000_0000_0000
  {
    if a >= b then a - b else a - b + 0x1_0000_0000_0000_0000
  }

  // ---- little-endian integers

  function Power256(n: nat): (p: nat)
    ensures p > 0
  {
    if n == 0 then 1 else 256 * Power256(n - 1)
  }

  function ToBytes(v: nat, n: nat): (b: seq<Byte>)
    ensures |b| == n
    decreases n, v
  {
    if n == 0 then [] else [v % 256] + ToBytes(v / 256, n - 1)
  }

  function FromBytes(b: seq<Byte>): (v: nat)
    ensures v < Power256(|b|)
  {
    if b == [] then 0 else b[0] + 256 * FromBytes(b[1..])
  }

  lemma {:induction false} BytesRoundTrip(v: nat, n: nat)
    requires v < Power256(n)
    ensures FromBytes(ToBytes(v, n)) == v
    decreases n
  {
    if n > 0 {
      BytesRoundTrip(v / 256, n - 1);
      assert ToBytes(v, n)[1..] == ToBytes(v / 256, n - 1);
    }
  }

  lemma {:induction false} ValueRoundTrip(b: seq<Byte>)
    ensures ToBytes(FromBytes(b), |b|) == b
  {
    if b != [] {
      ValueRoundTrip(b[1..]);
      assert FromBytes(b) / 256 == FromBytes(b[1..]) && FromBytes(b) % 256 == b[0];
      assert [b[0]] + b[1..] == b;
    }
  }

  lemma PowerOf4()
    ensures Power256(4) == 0x1_0000_0000
  {
  }

  lemma PowerOf8()
    ensures Power256(8) == 0x1_0000_0000_0000_0000
  {
    PowerOf4();
    assert Power256(8) == 256 * (256 * (256 * (256 * Power256(4))));
  }

  function Word(b: seq<Byte>): (v: U64)
    requires |b| == 8
  {
    PowerOf8();
    FromBytes(b)
  }

  /** The lowest byte comes first. */
  lemma WordIsLittleEndian(b: seq<Byte>)
    requires |b| == 8
    ensures var c: seq<int> := b;
            Word(b) ==
            c[0] + 0x100 * c[1] + 0x1_0000 * c[2] + 0x100_0000 * c[3] + 0x1_0000_0000 * c[4]
            + 0x100_0000_0000 * c[5] + 0x1_0000_0000_0000 * c[6] + 0x100_0000_0000_0000 * c[7]
  {
    PowerOf8();
    Unfold(b[..4], b[4..]);
    assert b[..4] + b[4..] == b;
    FourBytes(b[..4]);
    FourBytes(b[4..]);
  }

  lemma FourBytes(b: seq<Byte>)
    requires |b| == 4
    ensures var c: seq<int> := b; FromBytes(b) == c[0] + 0x100 * c[1] + 0x1_0000 * c[2] + 0x100_0000 * c[3]
  {
    assert b[1..][1..] == b[2..] && b[2..][1..] == b[3..] && b[3..][1..] == [];
    assert FromBytes(b[3..]) == b[3] && FromBytes(b[2..]) == b[2] + 256 * FromBytes(b[3..]);
    assert FromBytes(b[1..]) == b[1] + 256 * FromBytes(b[2..]);
  }

  lemma Unfold(a: seq<Byte>, b: seq<Byte>)
    requires |a| == 4
    ensures FromBytes(a + b) == FromBytes(a) + 0x1_0000_0000 * FromBytes(b)
  {
    var c := a + b;
    FourBytes(a);
    assert c[1..][1..] == c[2..] && c[2..][1..] == c[3..] && c[3..][1..] == b;
    assert c[0] == a[0] && c[1] == a[1] && c[2] == a[2] && c[3] == a[3];
    assert FromBytes(c[2..]) == c[2] + 256 * FromBytes(c[3..]);
  }
}
