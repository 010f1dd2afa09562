/** The kernel's string functions, on strings without their terminating NUL. */
module CStrings {

  predicate NoNul(s: string) {
    '\0' !in s
  }

  /** The character at position i, the terminating NUL behind the last one. */
  function At(s: string, i: nat): char {
    if i < |s| then s[i] else '\0'
  }

  /** Where the loop of `strncmp` stops: at the end of s1, at a difference, or when n has run out. */
  function StopAt(s1: string, s2: string, i: nat, n: int): (k: nat)
    decreases |s1| - i
  {
    if i < |s1| && s1[i] != '\0' && s1[i] == At(s2, i) && n > 0 then StopAt(s1, s2, i + 1, n - 1) else i
  }

  function StrNCmp(s1: string, s2: string, n: int): int {
    var k := StopAt(s1, s2, 0, n - 1);
    At(s1, k) as int - At(s2, k) as int
  }

  predicate IsPrefix(a: string, b: string) {
    |a| <= |b| && b[..|a|] == a
  }

  lemma {:induction false} StopsAtDifference(s1: string, s2: string, i: nat, n: nat)
    requires NoNul(s1) && NoNul(s2) && i + n < |s2| && i <= |s1| && s1[..i] == s2[..i]
    ensures var k := StopAt(s1, s2, i, n);
            At(s1, k) == At(s2, k) <==> i + n < |s1| && s1[..i + n + 1] == s2[..i + n + 1]
    decreases n
  {
    if i < |s1| && s1[i] == s2[i] && n > 0 {
      assert s1[..i + 1] == s1[..i] + [s1[i]] && s2[..i + 1] == s2[..i] + [s2[i]];
      StopsAtDifference(s1, s2, i + 1, n - 1);
    } else if i < |s1| {
      if s1[i] == s2[i] {
        assert n == 0 && s1[..i + 1] == s1[..i] + [s1[i]] && s2[..i + 1] == s2[..i] + [s2[i]];
      } else if i + n < |s1| {
        assert s1[..i + n + 1][i] != s2[..i + n + 1][i];
      }
    }
  }

  /** With n at least 1 the result is 0 exactly when the first n characters of s2 begin s1. */
  lemma StrNCmpIsPrefix(s1: string, s2: string, n: nat)
    requires NoNul(s1) && NoNul(s2) && 1 <= n <= |s2|
    ensures StrNCmp(s1, s2, n) == 0 <==> IsPrefix(s2[..n], s1)
  {
    StopsAtDifference(s1, s2, 0, n - 1);
  }

  /** `strncmp` */
  method StrNCompare(s1: string, s2: string, n: int) returns (r: int)
    requires NoNul(s1)
    ensures r == StrNCmp(s1, s2, n)
  {
    var i, left := 0, n - 1;
    while i < |s1| && s1[i] == At(s2, i) && left > 0
      invariant i <= |s1| && StopAt(s1, s2, 0, n - 1) == StopAt(s1, s2, i, left)
    {
      i, left := i + 1, left - 1;
    }
    r := At(s1, i) as int - At(s2, i) as int;
  }
}
