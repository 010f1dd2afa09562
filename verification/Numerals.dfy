/** Printing and reading numbers: `uintToBase`, `ctoi` and `string_numeric`. */
module Numerals {
  import opened Words

  // ---- digits

  predicate BaseOk(base: nat) {
    2 <= base <= 36
  }

  /** The digits of v, the highest first. */
  function DigitsOf(v: nat, base: nat): (ds: seq<nat>)
    requires BaseOk(base)
    ensures ds != []
  {
    if v < base then [v] else
      Shrinks(v, base);
      DigitsOf(v / base, base) + [v % base]
  }

  function Value(ds: seq<nat>, base: nat): nat {
    if ds == [] then 0 else Value(ds[..|ds| - 1], base) * base + ds[|ds| - 1]
  }

  predicate Digits(ds: seq<nat>, base: nat) {
    forall i :: 0 <= i < |ds| ==> ds[i] < base
  }

  /** A digit string as it is printed: no zero in front, except for zero itself. */
  predicate Canonical(ds: seq<nat>, base: nat) {
    ds != [] && Digits(ds, base) && (|ds| > 1 ==> ds[0] != 0)
  }

  lemma Shrinks(v: nat, base: nat)
    requires base >= 2 && v >= base
    ensures 0 < v / base < v && v / base <= v / 2 && v == v / base * base + v % base
  {
    var q, r := v / base, v % base;
    assert v == base * q + r;
    assert q == 0 ==> base * q == 0;
    assert base * q == 2 * q + (base - 2) * q;
  }

  lemma {:induction false} MultiplesApart(a: nat, b: nat, base: nat)
    ensures a < b ==> a * base + base <= b * base
    decreases b
  {
    if a < b {
      assert b * base == (b - 1) * base + base;
      MultiplesApart(a, b - 1, base);
    }
  }

  /** Quotient and remainder are the only way to write v. */
  lemma DivisionIsUnique(v: nat, base: nat, q: nat, d: nat)
    requires base > 0 && v == q * base + d && d < base
    ensures q == v / base && d == v % base
  {
    var p, r := v / base, v % base;
    assert v == p * base + r;
    MultiplesApart(q, p, base);
    MultiplesApart(p, q, base);
  }

  lemma {:induction false} DigitsAreCanonical(v: nat, base: nat)
    requires BaseOk(base)
    ensures Canonical(DigitsOf(v, base), base) && (v > 0 ==> DigitsOf(v, base)[0] != 0)
  {
    if v >= base {
      Shrinks(v, base);
      DigitsAreCanonical(v / base, base);
    }
  }

  /** The digits stand for the number. */
  lemma {:induction false} ValueOfDigits(v: nat, base: nat)
    requires BaseOk(base)
    ensures Value(DigitsOf(v, base), base) == v
  {
    var ds := DigitsOf(v, base);
    if v < base {
      assert ds[..0] == [];
    } else {
      Shrinks(v, base);
      ValueOfDigits(v / base, base);
      assert ds[..|ds| - 1] == DigitsOf(v / base, base);
    }
  }

  lemma {:induction false} ValueIsPositive(ds: seq<nat>, base: nat)
    requires base > 0 && ds != [] && ds[0] != 0
    ensures Value(ds, base) > 0
  {
    var n := |ds| - 1;
    if n > 0 {
      ValueIsPositive(ds[..n], base);
      assert Value(ds[..n], base) * base >= Value(ds[..n], base);
    }
  }

  /** No other canonical digit string stands for the number. */
  lemma {:induction false} DigitsAreUnique(ds: seq<nat>, base: nat)
    requires BaseOk(base) && Canonical(ds, base)
    ensures ds == DigitsOf(Value(ds, base), base)
    decreases |ds|
  {
    var n := |ds| - 1;
    var front := ds[..n];
    DivisionIsUnique(Value(ds, base), base, Value(front, base), ds[n]);
    if n == 0 {
      assert Value(front, base) == 0;
    } else {
      assert front[0] == ds[0];
      ValueIsPositive(front, base);
      DigitsAreUnique(front, base);
      MultiplesApart(0, Value(front, base), base);
      assert ds == front + [ds[n]];
    }
  }

  function Power2(k: nat): (p: nat)
    ensures p > 0
  {
    if k == 0 then 1 else 2 * Power2(k - 1)
  }

  lemma {:induction false} DigitsAreFew(v: nat, base: nat, k: nat)
    requires BaseOk(base) && v < Power2(k) && k > 0
    ensures |DigitsOf(v, base)| <= k
    decreases k
  {
    if v >= base {
      Shrinks(v, base);
      if k > 1 { DigitsAreFew(v / base, base, k - 1); }
    }
  }

  // ---- characters

  function DigitChar(d: nat): char
    requires d < 36
  {
    if d < 10 then (d + '0' as int) as char else (d + 'A' as int - 10) as char
  }

  /** Letters above nine are capitals. */
  lemma DigitCharacters(d: nat)
    requires d < 36
    ensures DigitChar(d) == "0123456789ABCDEFGHIJKLMNOPQRSTUVWXYZ"[d]
  {
    if d < 10 {
      assert DigitChar(d) == "0123456789"[d];
    } else if d < 23 {
      assert DigitChar(d) == "ABCDEFGHIJKLM"[d - 10];
    } else {
      assert DigitChar(d) == "NOPQRSTUVWXYZ"[d - 23];
    }
  }

  function Printed(ds: seq<nat>): (s: string)
    requires Digits(ds, 36)
    ensures |s| == |ds|
  {
    seq(|ds|, i requires 0 <= i < |ds| => DigitChar(ds[i]))
  }

  /** What `uintToBase` leaves in the buffer. */
  function Numeral(v: nat, base: nat): (s: string)
    requires BaseOk(base)
    ensures s != ""
  {
    DigitsAreCanonical(v, base);
    Printed(DigitsOf(v, base))
  }

  /** The first loop's step: the low digit goes behind those written before. */
  lemma NumeralStep(v: nat, base: nat)
    requires BaseOk(base) && v >= base
    ensures v / base < v && v % base < 36
    ensures Numeral(v, base) == Numeral(v / base, base) + [DigitChar(v % base)]
  {
    Shrinks(v, base);
    DigitsAreCanonical(v, base);
  }

  /** `uintToBase`: writes the numeral and its terminating NUL, and nothing behind that. */
  method UintToBase(value: U64, buffer: array<char>, base: nat) returns (digits: nat)
    requires BaseOk(base) && |Numeral(value, base)| < buffer.Length
    modifies buffer
    ensures digits == |Numeral(value, base)|
    ensures buffer[..digits] == Numeral(value, base) && buffer[digits] == '\0'
    ensures forall i :: digits < i < buffer.Length ==> buffer[i] == old(buffer[i])
  {
    ghost var whole := Numeral(value, base);
    var v: nat := value;
    digits := 0;
    while true
      invariant digits + |Numeral(v, base)| == |whole| && Numeral(v, base) == whole[..|whole| - digits]
      invariant forall i :: 0 <= i < digits ==> buffer[i] == whole[|whole| - 1 - i]
      invariant forall i :: digits <= i < buffer.Length ==> buffer[i] == old(buffer[i])
      decreases v
    {
      if v >= base {
        Shrinks(v, base);
        NumeralStep(v, base);
      } else {
        DivisionIsUnique(v, base, 0, v);
        assert Numeral(v, base) == [DigitChar(v)];
      }
      var remainder: nat := v % base;
      assert whole[|whole| - 1 - digits] == Numeral(v, base)[|Numeral(v, base)| - 1] == DigitChar(remainder);
      buffer[digits] := DigitChar(remainder);
      digits := digits + 1;
      v := v / base;
      if v == 0 { break; }
    }
    buffer[digits] := '\0';
    Reverse(buffer, digits);
  }

  /** The second loop of `uintToBase`: the first n characters in the other direction. */
  method Reverse(buffer: array<char>, n: nat)
    requires n < buffer.Length
    modifies buffer
    ensures forall i :: 0 <= i < n ==> buffer[i] == old(buffer[n - 1 - i])
    ensures forall i :: n <= i < buffer.Length ==> buffer[i] == old(buffer[i])
  {
    var p1, p2 := 0, n - 1;
    while p1 < p2
      invariant 0 <= p1 <= n && p2 == n - 1 - p1
      invariant forall i :: 0 <= i < p1 ==> buffer[i] == old(buffer[n - 1 - i]) && buffer[n - 1 - i] == old(buffer[i])
      invariant forall i :: p1 <= i < n - p1 ==> buffer[i] == old(buffer[i])
      invariant forall i :: n <= i < buffer.Length ==> buffer[i] == old(buffer[i])
    {
      buffer[p1], buffer[p2] := buffer[p2], buffer[p1];
      p1, p2 := p1 + 1, p2 - 1;
    }
  }

  // ---- reading decimals

  predicate IsNumeric(c: char) {
    '0' <= c <= '9'
  }

  lemma NumericCharacters(c: char)
    ensures IsNumeric(c) <==> c in "0123456789"
  {
    assert IsNumeric(c) ==> c == "0123456789"[c as int - '0' as int];
  }

  /** `string_numeric` */
  method StringNumeric(s: string) returns (r: bool)
    ensures r <==> forall i :: 0 <= i < |s| ==> IsNumeric(s[i])
  {
    for i := 0 to |s|
      invariant forall j :: 0 <= j < i ==> IsNumeric(s[j])
    {
      if !IsNumeric(s[i]) { return false; }
    }
    return true;
  }

  /** What `ctoi` computes in unbounded integers. */
  function Decimal(s: string): int {
    if s == "" then 0 else Decimal(s[..|s| - 1]) * 10 + s[|s| - 1] as int - '0' as int
  }

  /** No intermediate result leaves the range of `int`: neither the sum before '0' is taken off nor what is left. */
  predicate NeverOverflows(s: string) {
    s == "" ||
    var before := Decimal(s[..|s| - 1]);
    NeverOverflows(s[..|s| - 1]) && FitsInt(before * 10) && FitsInt(before * 10 + s[|s| - 1] as int)
        && FitsInt(Decimal(s))
  }

  lemma {:induction false} NoOverflowFits(s: string)
    requires NeverOverflows(s)
    ensures FitsInt(Decimal(s))
  {
  }

  /** Wrapping after each operation is wrapping once. */
  lemma CtoiStep(x: int, c: int, zero: int)
    ensures Wrapped(Wrapped(Wrapped(Wrapped(x) * 10) + c) - zero) == Wrapped(x * 10 + c - zero)
  {
    var a: int := Wrapped(x);
    var b: int := Wrapped(a * 10);
    var d: int := Wrapped(b + c);
    var i := TurnsOf(x);
    var j := TurnsOf(a * 10);
    var k := TurnsOf(b + c);
    assert x * 10 + c - zero == d - zero + (i * 10 + j + k) * 0x1_0000_0000;
    WrappedTurns(d - zero, i * 10 + j + k);
  }

  /** `ctoi`, whose sums wrap: the value of the string modulo 2^32, and the value itself while nothing overflows. */
  method Ctoi(s: string) returns (ans: Int32)
    ensures ans == Wrapped(Decimal(s))
    ensures NeverOverflows(s) ==> ans == Decimal(s)
  {
    ans := 0;
    for i := 0 to |s|
      invariant ans == Wrapped(Decimal(s[..i]))
    {
      assert s[..i + 1][..i] == s[..i];
      CtoiStep(Decimal(s[..i]), s[i] as int, '0' as int);
      var sum: int := Wrapped(Wrapped(ans * 10) + s[i] as int);
      ans := Wrapped(sum - '0' as int);
    }
    assert s[..|s|] == s;
    if NeverOverflows(s) {
      NoOverflowFits(s);
      WrappedTurns(Decimal(s), 0);
    }
  }

  lemma {:induction false} DecimalOfPrinted(ds: seq<nat>)
    requires Digits(ds, 10)
    ensures Digits(ds, 36) && Decimal(Printed(ds)) == Value(ds, 10)
    ensures forall i :: 0 <= i < |ds| ==> IsNumeric(Printed(ds)[i])
  {
    if ds != [] {
      var n := |ds| - 1;
      DecimalOfPrinted(ds[..n]);
      assert Printed(ds)[..n] == Printed(ds[..n]);
    }
  }

  /** `ctoi` reads back what `uintToBase` printed in base 10. */
  lemma PrintThenRead(v: nat)
    ensures Decimal(Numeral(v, 10)) == v
    ensures forall i :: 0 <= i < |Numeral(v, 10)| ==> IsNumeric(Numeral(v, 10)[i])
  {
    DigitsAreCanonical(v, 10);
    DecimalOfPrinted(DigitsOf(v, 10));
    ValueOfDigits(v, 10);
  }

  lemma {:induction false} SmallNeverOverflows(ds: seq<nat>)
    requires Digits(ds, 10) && Value(ds, 10) <= 0x7FFF_FFFF - 48
    ensures Digits(ds, 36) && NeverOverflows(Printed(ds))
  {
    if ds != [] {
      var n := |ds| - 1;
      assert Printed(ds)[..n] == Printed(ds[..n]);
      SmallNeverOverflows(ds[..n]);
      DecimalOfPrinted(ds[..n]);
      DecimalOfPrinted(ds);
    }
  }

  /** `ctoi` adds the character before it subtracts '0', so it stays within `int` exactly up to 2^31 - 1 - 48. */
  lemma ReadsWithinIntIff(v: nat)
    ensures NeverOverflows(Numeral(v, 10)) <==> v <= 0x7FFF_FFFF - 48
  {
    DigitsAreCanonical(v, 10);
    ValueOfDigits(v, 10);
    var ds := DigitsOf(v, 10);
    if v <= 0x7FFF_FFFF - 48 {
      SmallNeverOverflows(ds);
    } else {
      PrintThenRead(v);
      var s := Numeral(v, 10);
      assert Decimal(s[..|s| - 1]) * 10 + s[|s| - 1] as int == v + 48;
    }
  }

  /** The first value that fits in `int` and is not read without an overflow. */
  lemma FirstOverflow()
    ensures FitsInt(2147483600) && !NeverOverflows(Numeral(2147483600, 10)) && NeverOverflows(Numeral(2147483599, 10))
  {
    ReadsWithinIntIff(2147483600);
    ReadsWithinIntIff(2147483599);
  }

  /** In any base from 2 to 36 a 64-bit value prints in at most 64 digits, canonically, and as itself. */
  lemma NumeralIsRight(v: U64, base: nat)
    requires BaseOk(base)
    ensures var ds := DigitsOf(v, base);
            && Canonical(ds, base) && Value(ds, base) == v && |ds| <= 64
            && Digits(ds, 36) && Numeral(v, base) == Printed(ds)
            && (forall es :: Canonical(es, base) && Value(es, base) == v ==> es == ds)
            && (forall es :: Canonical(es, base) && PrintsAs(es, Numeral(v, base)) ==> Value(es, base) == v)
  {
    DigitsAreCanonical(v, base);
    ValueOfDigits(v, base);
    Power2Of64();
    DigitsAreFew(v, base, 64);
    forall es | Canonical(es, base) && Value(es, base) == v ensures es == DigitsOf(v, base) {
      DigitsAreUnique(es, base);
    }
    forall es | Canonical(es, base) && PrintsAs(es, Numeral(v, base)) ensures Value(es, base) == v {
      PrintedDetermines(es, DigitsOf(v, base));
    }
  }

  predicate PrintsAs(ds: seq<nat>, s: string) {
    Digits(ds, 36) && Printed(ds) == s
  }

  /** The characters determine the digits. */
  lemma PrintedDetermines(ds: seq<nat>, es: seq<nat>)
    requires Digits(ds, 36) && Digits(es, 36) && Printed(ds) == Printed(es)
    ensures ds == es
  {
    assert |ds| == |Printed(ds)| == |es|;
    forall i | 0 <= i < |ds| ensures ds[i] == es[i] {
      assert Printed(ds)[i] == Printed(es)[i];
      DigitCharsDiffer(ds[i], es[i]);
    }
  }

  /** Different numbers print differently. */
  lemma NumeralsDiffer(v: U64, w: U64, base: nat)
    requires BaseOk(base) && Numeral(v, base) == Numeral(w, base)
    ensures v == w
  {
    NumeralIsRight(v, base);
    NumeralIsRight(w, base);
    PrintedDetermines(DigitsOf(v, base), DigitsOf(w, base));
  }

  lemma Power2Of64()
    ensures Power2(64) == 0x1_0000_0000_0000_0000
  {
    assert Power2(8) == 256;
    Doubles(8, 8);
    Doubles(16, 16);
    Doubles(32, 32);
  }

  lemma {:induction false} Doubles(a: nat, b: nat)
    ensures Power2(a + b) == Power2(a) * Power2(b)
    decreases b
  {
    if b > 0 { Doubles(a, b - 1); }
  }

  /** Different digits print differently. */
  lemma DigitCharsDiffer(a: nat, b: nat)
    requires a < 36 && b < 36 && DigitChar(a) == DigitChar(b)
    ensures a == b
  {
  }
}
