/** How the shell cuts a command into arguments. */
module Tokenizer {
  import opened CStrings

  // ---- the tokens of a command

  /** The first place from i on that holds no space, or the end. */
  function SkipSpaces(s: string, i: nat): (j: nat)
    requires i <= |s|
    ensures i <= j <= |s| && (j < |s| ==> s[j] != ' ')
    decreases |s| - i
  {
    if i < |s| && s[i] == ' ' then SkipSpaces(s, i + 1) else i
  }

  /** The end of a token: a quote ends a quoted one, a space any other. */
  function TokenEnd(s: string, i: nat, quoted: bool): (e: nat)
    requires i <= |s|
    ensures i <= e <= |s|
    ensures e < |s| ==> s[e] == (if quoted then '"' else ' ')
    decreases |s| - i
  {
    if i == |s| || s[i] == (if quoted then '"' else ' ') then i else TokenEnd(s, i + 1, quoted)
  }

  datatype Token = Token(text: string, next: nat)

  /** The token at i and where the next one begins. */
  function TokenAt(s: string, i: nat): (t: Token)
    requires i < |s|
    ensures i < t.next <= |s|
  {
    var quoted := s[i] == '"';
    var a := if quoted then i + 1 else i;
    var e := TokenEnd(s, a, quoted);
    var n := if quoted && e < |s| then e + 1 else e;
    Token(s[a..e], SkipSpaces(s, n))
  }

  function TokensFrom(s: string, i: nat): (tokens: seq<string>)
    requires i <= |s|
    decreases |s| - i
  {
    if i == |s| then [] else [TokenAt(s, i).text] + TokensFrom(s, TokenAt(s, i).next)
  }

  function Tokens(s: string): seq<string> {
    TokensFrom(s, SkipSpaces(s, 0))
  }

  // ---- the loops of command_dispatcher

  /** LEFT_STRIP, at a space. */
  method LeftStrip(s: string, i: nat) returns (j: nat)
    requires i < |s|
    ensures j == SkipSpaces(s, i + 1)
  {
    j := i + 1;
    while At(s, j) == ' '
      invariant i < j <= |s| && SkipSpaces(s, i + 1) == SkipSpaces(s, j)
      decreases |s| - j
    {
      j := j + 1;
    }
  }

  /** The inner loop: one argument, and what follows it. */
  method NextToken(s: string, i: nat) returns (text: string, next: nat)
    requires i < |s| && NoNul(s)
    ensures text == TokenAt(s, i).text && next == TokenAt(s, i).next
  {
    var command := i;
    var quotes := s[command] == '"';
    if quotes { command := command + 1; }
    ghost var a := command;
    text := "";
    while ((!quotes && At(s, command) != ' ') || (quotes && At(s, command) != '"')) && At(s, command) != '\0'
      invariant a <= command <= |s| && text == s[a..command]
      invariant TokenEnd(s, a, quotes) == TokenEnd(s, command, quotes)
      decreases |s| - command
    {
      text := text + [s[command]];
      command := command + 1;
    }
    if quotes && At(s, command) == '"' { command := command + 1; }
    next := command;
    if At(s, command) == ' ' { next := LeftStrip(s, command); }
  }

  /** The tokenizer inside `command_dispatcher`. */
  method Tokenize(s: string) returns (args: seq<string>)
    requires NoNul(s)
    ensures args == Tokens(s)
  {
    var command := 0;
    if At(s, command) == ' ' { command := LeftStrip(s, command); }
    args := [];
    ghost var start := command;
    while At(s, command) != '\0'
      invariant command <= |s| && args + TokensFrom(s, command) == TokensFrom(s, start)
      decreases |s| - command
    {
      var text, next := NextToken(s, command);
      args := args + [text];
      command := next;
    }
  }

  // ---- how many there can be

  /** A token that is not the last takes at least two characters. */
  lemma {:induction false} TokensAreFew(s: string, i: nat)
    requires i <= |s| && (i < |s| ==> s[i] != ' ')
    ensures 2 * |TokensFrom(s, i)| <= |s| - i + 1
    decreases |s| - i
  {
    if i < |s| {
      var t := TokenAt(s, i);
      TokensAreFew(s, t.next);
    }
  }

  /** A command of at most 512 characters fits the 256 argument slots. */
  lemma ArgumentsFit(s: string)
    ensures 2 * |Tokens(s)| <= |s| + 1
    ensures |s| <= 512 ==> |Tokens(s)| <= 256
  {
    TokensAreFew(s, SkipSpaces(s, 0));
  }

  /** A token is no longer than the rest of the command. */
  lemma {:induction false} TokensAreShort(s: string, i: nat, k: nat)
    requires i <= |s| && k < |TokensFrom(s, i)|
    ensures |TokensFrom(s, i)[k]| <= |s| - i
    decreases |s| - i
  {
    if k > 0 { TokensAreShort(s, TokenAt(s, i).next, k - 1); }
  }

  lemma {:induction false} EndsAtSpace(s: string, i: nat, e: nat)
    requires i <= e < |s| && s[e] == ' '
    ensures TokenEnd(s, i, false) <= e
    decreases e - i
  {
    if i < e { EndsAtSpace(s, i + 1, e); }
  }

  predicate HasLongToken(s: string, length: nat) {
    exists k :: 0 <= k < |Tokens(s)| && |Tokens(s)[k]| >= length
  }

  /** A buffer of 512 characters has no room for the terminator of an argument exactly when a command of 512 is a
      single argument without a quote in front. */
  lemma ArgumentUnterminatedIff(s: string)
    requires |s| <= 512
    ensures HasLongToken(s, 512) <==> |s| == 512 && s[0] != '"' && ' ' !in s
  {
    var i := SkipSpaces(s, 0);
    if HasLongToken(s, 512) {
      var k :| 0 <= k < |Tokens(s)| && |Tokens(s)[k]| >= 512;
      TokensAreShort(s, i, k);
      if k > 0 { TokensAreShort(s, TokenAt(s, i).next, k - 1); }
      assert i == 0 && k == 0 && TokenAt(s, 0).text == s;
      if ' ' in s {
        var e :| 0 <= e < |s| && s[e] == ' ';
        EndsAtSpace(s, 0, e);
      }
    }
    if |s| == 512 && s[0] != '"' && ' ' !in s {
      assert TokenAt(s, 0).text == s;
      assert Tokens(s)[0] == s;
    }
  }

  /** 512 times the same letter is such a command. */
  lemma LongArgumentIsUnterminated()
    ensures HasLongToken(seq(512, i => 'a'), 512)
  {
    ArgumentUnterminatedIff(seq(512, i => 'a'));
  }

  /** The bound is met: single characters, one space apart. */
  lemma {:induction false} BoundIsMet(n: nat) returns (s: string)
    ensures |s| == 2 * n + 1 && NoNul(s) && |Tokens(s)| == n + 1
  {
    s := Dots(n);
    DotsTokens(n, 0);
  }

  function Dots(n: nat): (s: string)
    ensures |s| == 2 * n + 1
    ensures forall k :: 0 <= k < |s| ==> s[k] == if k % 2 == 0 then '.' else ' '
  {
    seq(2 * n + 1, k => if k % 2 == 0 then '.' else ' ')
  }

  lemma DotsTokenAt(n: nat, i: nat)
    requires i <= n
    ensures TokenAt(Dots(n), 2 * i).next == if i < n then 2 * i + 2 else 2 * i + 1
  {
    var s := Dots(n);
    assert TokenEnd(s, 2 * i, false) == 2 * i + 1;
    if i < n {
      assert s[2 * i + 2] == '.';
      assert SkipSpaces(s, 2 * i + 2) == 2 * i + 2;
    }
  }

  lemma {:induction false} DotsTokens(n: nat, i: nat)
    requires i <= n
    ensures |TokensFrom(Dots(n), 2 * i)| == n + 1 - i
    decreases n - i
  {
    DotsTokenAt(n, i);
    if i < n { DotsTokens(n, i + 1); }
  }

  // ---- what the arguments are

  /** A piece of a command: a bare word or a quoted string, with the spaces behind it, or a string whose quote is
      never closed. */
  datatype Part = Bare(text: string, spaces: nat) | Quoted(text: string, spaces: nat) | Open(text: string)

  predicate PartOk(p: Part) {
    match p
    case Bare(text, _) => text != "" && text[0] != '"' && ' ' !in text
    case Quoted(text, _) => '"' !in text
    case Open(text) => '"' !in text
  }

  /** Another argument can follow: behind a bare word that takes a space, behind a closing quote it does not. */
  predicate Ends(p: Part) {
    p.Quoted? || (p.Bare? && p.spaces > 0)
  }

  predicate PartsOk(parts: seq<Part>) {
    && (forall k :: 0 <= k < |parts| ==> PartOk(parts[k]))
    && (forall k :: 0 <= k < |parts| - 1 ==> Ends(parts[k]))
  }

  function Blanks(n: nat): (s: string)
    ensures |s| == n && forall k :: 0 <= k < n ==> s[k] == ' '
  {
    seq(n, i => ' ')
  }

  /** A part without the spaces behind it. */
  function Core(p: Part): string {
    match p
    case Bare(text, _) => text
    case Quoted(text, _) => ("\"" + text) + "\""
    case Open(text) => "\"" + text
  }

  function Gap(p: Part): nat {
    if p.Open? then 0 else p.spaces
  }

  function Spelled(p: Part): string {
    Core(p) + Blanks(Gap(p))
  }

  function Command(parts: seq<Part>): string {
    if parts == [] then "" else Spelled(parts[0]) + Command(parts[1..])
  }

  function Texts(parts: seq<Part>): (texts: seq<string>)
    ensures |texts| == |parts|
  {
    seq(|parts|, k requires 0 <= k < |parts| => parts[k].text)
  }

  lemma {:induction false} TokenEndIs(s: string, a: nat, e: nat, quoted: bool)
    requires a <= e <= |s| && (if quoted then '"' else ' ') !in s[a..e]
    requires e < |s| ==> s[e] == if quoted then '"' else ' '
    ensures TokenEnd(s, a, quoted) == e
    decreases e - a
  {
    if a < e {
      assert s[a] == s[a..e][0] && s[a + 1..e] == s[a..e][1..];
      TokenEndIs(s, a + 1, e, quoted);
    }
  }

  lemma {:induction false} SkipSpacesIs(s: string, i: nat, j: nat)
    requires i <= j <= |s| && (forall k :: i <= k < j ==> s[k] == ' ') && (j < |s| ==> s[j] != ' ')
    ensures SkipSpaces(s, i) == j
    decreases j - i
  {
    if i < j { SkipSpacesIs(s, i + 1, j); }
  }

  lemma SliceOfSlice(s: string, i: nat, j: nat, a: nat, b: nat)
    requires i <= a <= b <= j <= |s|
    ensures s[i..j][a - i..b - i] == s[a..b]
  {
    forall k | 0 <= k < b - a ensures s[i..j][a - i..b - i][k] == s[a..b][k] { }
  }

  /** Where the text of a part begins and ends in it. */
  lemma CoreText(s: string, i: nat, p: Part, n: nat)
    requires i <= n <= |s| && s[i..n] == Core(p) && PartOk(p)
    ensures i < n && (s[i] == '"' <==> !p.Bare?)
    ensures var a, e := if p.Bare? then i else i + 1, if p.Quoted? then n - 1 else n;
            a <= e <= n && s[a..e] == p.text && (p.Quoted? ==> s[e] == '"')
  {
    var a, e := if p.Bare? then i else i + 1, if p.Quoted? then n - 1 else n;
    assert |s[i..n]| == n - i;
    assert s[i] == s[i..n][0];
    SliceOfSlice(s, i, n, a, e);
    match p
    case Bare(text, _) => assert text[..n - i] == text;
    case Quoted(text, _) =>
      assert (("\"" + text) + "\"")[1..n - i - 1] == text;
      assert s[e] == s[i..n][e - i];
    case Open(text) => assert ("\"" + text)[1..n - i] == text;
  }

  /** Where the token at i stops, with its closing quote. */
  function TokenStop(s: string, i: nat): (n: nat)
    requires i < |s|
    ensures i <= n <= |s|
  {
    var quoted := s[i] == '"';
    var e := TokenEnd(s, if quoted then i + 1 else i, quoted);
    if quoted && e < |s| then e + 1 else e
  }

  lemma CoreIsToken(s: string, i: nat, p: Part, n: nat)
    requires i <= n <= |s| && s[i..n] == Core(p) && PartOk(p)
    requires n < |s| ==> p.Quoted? || (p.Bare? && s[n] == ' ')
    ensures i < n && TokenStop(s, i) == n && TokenAt(s, i).text == p.text
  {
    CoreText(s, i, p, n);
    var a, e := if p.Bare? then i else i + 1, if p.Quoted? then n - 1 else n;
    TokenEndIs(s, a, e, !p.Bare?);
  }

  /** One part between i and `next` is one argument. */
  lemma PartIsToken(s: string, i: nat, p: Part, next: nat)
    requires i <= next <= |s| && s[i..next] == Spelled(p) && PartOk(p)
    requires next < |s| ==> Ends(p) && s[next] != ' '
    ensures i < next && TokenAt(s, i).text == p.text && TokenAt(s, i).next == next
  {
    var n := i + |Core(p)|;
    SliceOfSlice(s, i, next, i, n);
    SliceOfSlice(s, i, next, n, next);
    assert s[i..n] == Core(p) && s[n..next] == Blanks(Gap(p));
    assert forall k :: n <= k < next ==> s[k] == s[n..next][k - n];
    CoreIsToken(s, i, p, n);
    SkipSpacesIs(s, n, next);
  }

  lemma StartsWithoutSpace(parts: seq<Part>)
    requires parts != [] && PartOk(parts[0])
    ensures Command(parts) != "" && Command(parts)[0] != ' '
  {
    var core := Core(parts[0]);
    assert core != "" && core[0] != ' ';
    assert Command(parts)[0] == core[0];
  }

  lemma SplitsThere(s: string, i: nat, x: string, y: string)
    requires i <= |s| && s[i..] == x + y
    ensures i + |x| <= |s| && s[i..i + |x|] == x && s[i + |x|..] == y
    ensures y != "" ==> i + |x| < |s| && s[i + |x|] == y[0]
    ensures y == "" ==> i + |x| == |s|
  {
    assert forall k :: i <= k < |s| ==> s[k] == (x + y)[k - i];
  }

  /** The first argument of a command and what is left. */
  lemma FirstPart(s: string, i: nat, p: Part, rest: string)
    requires i <= |s| && s[i..] == Spelled(p) + rest && PartOk(p)
    requires rest != "" ==> Ends(p) && rest[0] != ' '
    ensures i < |s| && TokenAt(s, i).text == p.text && s[TokenAt(s, i).next..] == rest
  {
    SplitsThere(s, i, Spelled(p), rest);
    PartIsToken(s, i, p, i + |Spelled(p)|);
  }

  lemma RestOk(parts: seq<Part>)
    requires PartsOk(parts) && parts != []
    ensures PartsOk(parts[1..]) && PartOk(parts[0]) && (parts[1..] != [] ==> Ends(parts[0]) && PartOk(parts[1..][0]))
  {
    assert forall k :: 0 <= k < |parts[1..]| ==> parts[1..][k] == parts[k + 1];
  }

  lemma TextsFront(parts: seq<Part>)
    requires parts != []
    ensures Texts(parts) == [parts[0].text] + Texts(parts[1..])
  {
  }

  lemma {:induction false} PartsAreTokens(s: string, i: nat, parts: seq<Part>)
    requires i <= |s| && s[i..] == Command(parts) && PartsOk(parts)
    ensures TokensFrom(s, i) == Texts(parts)
    decreases |parts|
  {
    if parts != [] {
      RestOk(parts);
      if parts[1..] != [] { StartsWithoutSpace(parts[1..]); }
      FirstPart(s, i, parts[0], Command(parts[1..]));
      PartsAreTokens(s, TokenAt(s, i).next, parts[1..]);
      TextsFront(parts);
    }
  }

  /** The arguments of a command are its bare words and quoted strings, character by character and in order,
      whatever spaces lie before, between and behind them. */
  lemma PartsThenTokenize(lead: nat, parts: seq<Part>)
    requires PartsOk(parts)
    ensures Tokens(Blanks(lead) + Command(parts)) == Texts(parts)
  {
    var s := Blanks(lead) + Command(parts);
    assert parts != [] ==> PartOk(parts[0]);
    SkipSpacesIs(s, 0, lead);
    assert s[lead..] == Command(parts);
    PartsAreTokens(s, lead, parts);
  }

  /** The part that begins at i. */
  function PartAt(s: string, i: nat): (p: Part)
    requires i < |s|
  {
    var t, n := TokenAt(s, i), TokenStop(s, i);
    if s[i] != '"' then Bare(t.text, t.next - n)
    else if i + 1 + |t.text| < |s| then Quoted(t.text, t.next - n)
    else Open(t.text)
  }

  lemma {:induction false} StopIsNew(s: string, a: nat, quoted: bool)
    requires a <= |s|
    ensures (if quoted then '"' else ' ') !in s[a..TokenEnd(s, a, quoted)]
    decreases |s| - a
  {
    var e := TokenEnd(s, a, quoted);
    if a < e {
      StopIsNew(s, a + 1, quoted);
      assert s[a..e] == [s[a]] + s[a + 1..e];
    }
  }

  lemma {:induction false} SkipsOnlySpaces(s: string, i: nat)
    requires i <= |s|
    ensures s[i..SkipSpaces(s, i)] == Blanks(SkipSpaces(s, i) - i)
    decreases |s| - i
  {
    var j := SkipSpaces(s, i);
    if i < j {
      SkipsOnlySpaces(s, i + 1);
      assert s[i..j] == [' '] + s[i + 1..j];
    }
  }

  lemma TokenIsCore(s: string, i: nat)
    requires i < |s| && s[i] != ' '
    ensures PartOk(PartAt(s, i)) && s[i..TokenStop(s, i)] == Core(PartAt(s, i))
  {
    StopIsNew(s, if s[i] == '"' then i + 1 else i, s[i] == '"');
  }

  lemma TokenIsPart(s: string, i: nat)
    requires i < |s| && s[i] != ' '
    ensures var p, next := PartAt(s, i), TokenAt(s, i).next;
            PartOk(p) && s[i..next] == Spelled(p) && (next < |s| ==> Ends(p) && s[next] != ' ')
  {
    var p, n, next := PartAt(s, i), TokenStop(s, i), TokenAt(s, i).next;
    TokenIsCore(s, i);
    SkipsOnlySpaces(s, n);
    assert s[i..next] == s[i..n] + s[n..next];
  }

  lemma {:induction false} PartsFrom(s: string, i: nat) returns (parts: seq<Part>)
    requires i <= |s| && (i < |s| ==> s[i] != ' ')
    ensures PartsOk(parts) && s[i..] == Command(parts)
    decreases |s| - i
  {
    parts := [];
    if i < |s| {
      TokenIsPart(s, i);
      var p, next := PartAt(s, i), TokenAt(s, i).next;
      var rest := PartsFrom(s, next);
      parts := [p] + rest;
      if rest != [] { StartsWithoutSpace(rest); }
      PartsOkFront(p, rest);
      assert s[i..] == s[i..next] + s[next..];
    }
  }

  lemma PartsOkFront(p: Part, rest: seq<Part>)
    requires PartOk(p) && PartsOk(rest) && (rest != [] ==> Ends(p))
    ensures PartsOk([p] + rest) && Command([p] + rest) == Spelled(p) + Command(rest)
  {
    assert ([p] + rest)[1..] == rest;
  }

  /** Every command is of that form, so this says of every command what its arguments are. */
  lemma EveryCommandHasParts(s: string) returns (lead: nat, parts: seq<Part>)
    ensures PartsOk(parts) && s == Blanks(lead) + Command(parts) && Tokens(s) == Texts(parts)
  {
    lead := SkipSpaces(s, 0);
    SkipsOnlySpaces(s, 0);
    parts := PartsFrom(s, lead);
    assert s == s[..lead] + s[lead..];
    PartsThenTokenize(lead, parts);
  }

  // ---- quoting

  /** Arguments in quotes, one space between them. */
  function QuoteParts(args: seq<string>): (parts: seq<Part>)
    ensures |parts| == |args|
  {
    seq(|args|, k requires 0 <= k < |args| => Quoted(args[k], if k + 1 < |args| then 1 else 0))
  }

  function QuoteAll(args: seq<string>): string {
    Command(QuoteParts(args))
  }

  /** Quoting and joining is undone by the tokenizer. */
  lemma QuoteThenTokenize(args: seq<string>)
    requires forall i :: 0 <= i < |args| ==> '"' !in args[i]
    ensures Tokens(QuoteAll(args)) == args
  {
    var parts := QuoteParts(args);
    PartsThenTokenize(0, parts);
    assert Blanks(0) + Command(parts) == Command(parts);
    assert Texts(parts) == args;
  }
}
