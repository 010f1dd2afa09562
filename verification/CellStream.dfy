/** What a console shows: the last 25 rows of an unbounded stream of cells, 80 to a row. */
module CellStream {
  import opened Words

  /** Character and colour as the VGA text buffer holds them. */
  type Cell = x: nat | x < 0x1_0000

  /** `build_char`: a character above 127 is negative, and its sign fills the colour byte. */
  function BuildChar(c: Byte, color: Byte): (cell: Cell) {
    if c < 128 then c + 256 * color else 0xFF00 + c
  }

  /** The low byte of a cell says which character is shown, the high byte in which colours. */
  predicate Displays(cell: Cell, c: Byte, color: Byte) {
    cell % 256 == c && cell / 256 == if c < 128 then color else 255
  }

  lemma CharIsDisplayed(c: Byte, color: Byte)
    ensures Displays(BuildChar(c, color), c, color)
  {
  }

  function Space(color: Byte): Cell {
    BuildChar(32, color)
  }

  // ---- the stream

  /** The rows that have gone past the top when n cells have been written. */
  function Scrolled(n: nat): nat {
    if n / 80 <= 24 then 0 else n / 80 - 24
  }

  function Row(n: nat): (r: nat)
    ensures r <= 24
  {
    n / 80 - Scrolled(n)
  }

  function Column(n: nat): (c: nat)
    ensures c < 80
  {
    n % 80
  }

  /** The cells written since the screen was cleared, and for every row begun what it was blanked with. */
  datatype Stream = Stream(written: seq<Cell>, paper: seq<Cell>)

  predicate StreamOk(st: Stream) {
    |st.paper| == 25 + Scrolled(|st.written|)
  }

  /** The cell at a place of the window. */
  function CellAt(st: Stream, row: nat, col: nat): Cell
    requires StreamOk(st) && row < 25 && col < 80
  {
    var n := 80 * (Scrolled(|st.written|) + row) + col;
    if n < |st.written| then st.written[n] else st.paper[Scrolled(|st.written|) + row]
  }

  function Cleared(blank: Cell): (st: Stream)
    ensures StreamOk(st)
  {
    Stream([], seq(25, i => blank))
  }

  /** More cells; the rows begun meanwhile are blank. */
  function Put(st: Stream, cells: seq<Cell>, blank: Cell): (r: Stream)
    requires StreamOk(st)
    ensures StreamOk(r) && r.written == st.written + cells
  {
    ScrolledGrows(|st.written|, |st.written| + |cells|);
    var rows := Scrolled(|st.written| + |cells|) - Scrolled(|st.written|);
    Stream(st.written + cells, st.paper + seq(rows, i => blank))
  }

  lemma ScrolledGrows(n: nat, m: nat)
    requires n <= m
    ensures Scrolled(n) <= Scrolled(m)
  {
  }

  lemma PutInTwo(st: Stream, a: seq<Cell>, b: seq<Cell>, blank: Cell)
    requires StreamOk(st)
    ensures Put(Put(st, a, blank), b, blank) == Put(st, a + b, blank)
  {
    ScrolledGrows(|st.written|, |st.written| + |a|);
    ScrolledGrows(|st.written| + |a|, |st.written| + |a| + |b|);
    assert st.written + a + b == st.written + (a + b);
  }

  lemma PutNothing(st: Stream, blank: Cell)
    requires StreamOk(st)
    ensures Put(st, [], blank) == st
  {
  }

  // ---- what a text is in cells

  function Spaces(k: nat, color: Byte): (cells: seq<Cell>)
    ensures |cells| == k
  {
    seq(k, i => Space(color))
  }

  /** A line break fills the row up, or a whole row at the beginning of one. */
  function Break(n: nat, color: Byte): (cells: seq<Cell>)
    ensures |cells| == 80 - Column(n) && Column(n + |cells|) == 0
  {
    Spaces(80 - Column(n), color)
  }

  /** One character on its own. */
  function CharCells(c: Byte, n: nat, color: Byte): seq<Cell> {
    if c == 10 then Break(n, color) else [BuildChar(c, color)]
  }

  /** One character of a string, where a tab stands for four spaces. */
  function CellsOf(c: Byte, n: nat, color: Byte): seq<Cell> {
    if c == 9 then Spaces(4, color) else CharCells(c, n, color)
  }

  /** A string written at place n of the stream. */
  function Text(s: seq<Byte>, n: nat, color: Byte): seq<Cell> {
    if s == [] then []
    else
      var front := Text(s[..|s| - 1], n, color);
      front + CellsOf(s[|s| - 1], n + |front|, color)
  }

  lemma TextOfFourSpaces(n: nat, color: Byte)
    ensures Text([32, 32, 32, 32], n, color) == Spaces(4, color)
  {
    var s: seq<Byte> := [32, 32, 32, 32];
    assert s[..3] == [32, 32, 32] && s[..3][..2] == [32, 32] && s[..3][..2][..1] == [32];
    assert Text([32], n, color) == [Space(color)];
    assert Text([32, 32], n, color) == [Space(color)] + [Space(color)];
    assert Text([32, 32, 32], n, color) == [Space(color)] + [Space(color)] + [Space(color)];
  }

  /** What comes before a line: a break, unless a row has just begun. */
  function Opening(n: nat, color: Byte): (cells: seq<Cell>) {
    if Column(n) != 0 then Break(n, color) else []
  }

  /** `video_write_line`: on a row of its own. */
  function Line(s: seq<Byte>, n: nat, color: Byte): seq<Cell> {
    var first := Opening(n, color);
    var text := first + Text(s, n + |first|, color);
    text + Break(n + |text|, color)
  }

  /** Text written with the colour `color`, on paper of that colour. */
  function Wrote(st: Stream, cells: seq<Cell>, color: Byte): (r: Stream)
    requires StreamOk(st)
    ensures StreamOk(r) && r.written == st.written + cells
  {
    Put(st, cells, Space(color))
  }

  /** The stream with the first i characters of a string written. */
  function Typed(st: Stream, s: seq<Byte>, i: nat, color: Byte): (r: Stream)
    requires StreamOk(st) && i <= |s|
    ensures StreamOk(r)
  {
    Wrote(st, Text(s[..i], |st.written|, color), color)
  }

  lemma TypedEnds(st: Stream, s: seq<Byte>, color: Byte)
    requires StreamOk(st)
    ensures Typed(st, s, 0, color) == st && Typed(st, s, |s|, color) == Wrote(st, Text(s, |st.written|, color), color)
  {
    PutNothing(st, Space(color));
    assert s[..|s|] == s;
  }

  lemma TextStep(st: Stream, s: seq<Byte>, i: nat, color: Byte)
    requires StreamOk(st) && i < |s|
    ensures var r := Typed(st, s, i, color);
            Wrote(r, CellsOf(s[i], |r.written|, color), color) == Typed(st, s, i + 1, color)
  {
    var front := Text(s[..i], |st.written|, color);
    assert s[..i + 1][..i] == s[..i];
    PutInTwo(st, front, CellsOf(s[i], |st.written| + |front|, color), Space(color));
  }

  lemma LineParts(s: seq<Byte>, n: nat, color: Byte, first: seq<Cell>, text: seq<Cell>, last: seq<Cell>)
    requires first == Opening(n, color) && text == Text(s, n + |first|, color)
    requires last == Break(n + |first + text|, color)
    ensures Line(s, n, color) == first + text + last
  {
  }

  lemma LineInSteps(st: Stream, a: Stream, b: Stream, s: seq<Byte>, color: Byte)
    requires StreamOk(st) && a == Wrote(st, Opening(|st.written|, color), color)
    requires b == Wrote(a, Text(s, |a.written|, color), color)
    ensures Wrote(b, Break(|b.written|, color), color) == Wrote(st, Line(s, |st.written|, color), color)
  {
    var n, first, text, last := |st.written|, Opening(|st.written|, color), Text(s, |a.written|, color),
      Break(|b.written|, color);
    assert |a.written| == n + |first| && |b.written| == n + |first + text|;
    LineParts(s, n, color, first, text, last);
    ThreeInSteps(st, a, b, first, text, last, color);
  }

  lemma ThreeInSteps(st: Stream, s1: Stream, s2: Stream, a: seq<Cell>, b: seq<Cell>, c: seq<Cell>, color: Byte)
    requires StreamOk(st) && s1 == Wrote(st, a, color) && s2 == Wrote(s1, b, color)
    ensures Wrote(s2, c, color) == Wrote(st, a + b + c, color) && |s2.written| == |st.written| + |a + b|
  {
    PutInTwo(st, a, b, Space(color));
    PutInTwo(st, a + b, c, Space(color));
  }

  /** The stream with k spaces of a line break written. */
  function Broken(st: Stream, k: nat, color: Byte): (r: Stream)
    requires StreamOk(st)
    ensures StreamOk(r) && |r.written| == |st.written| + k
  {
    Wrote(st, Spaces(k, color), color)
  }

  lemma BreakStep(st: Stream, k: nat, color: Byte)
    requires StreamOk(st) && k < 80 - Column(|st.written|)
    ensures Wrote(Broken(st, k, color), CharCells(32, |st.written| + k, color), color) == Broken(st, k + 1, color)
    ensures Column(|st.written| + k + 1) == 0 <==> k + 1 == 80 - Column(|st.written|)
  {
    assert Spaces(k, color) + [Space(color)] == Spaces(k + 1, color);
    PutInTwo(st, Spaces(k, color), [Space(color)], Space(color));
  }

  lemma UpdateTwice(s: seq<Stream>, i: nat, a: Stream, b: Stream)
    requires i < |s|
    ensures s[i := a][i := b] == s[i := b] && s[i := s[i]] == s
  {
  }

  // ---- what the window shows after a write

  /** A cell written without filling the last row changes its place and nothing else. */
  lemma PutOneShows(st: Stream, cell: Cell, blank: Cell, row: nat, col: nat)
    requires StreamOk(st) && row < 25 && col < 80
    requires Scrolled(|st.written| + 1) == Scrolled(|st.written|)
    ensures CellAt(Put(st, [cell], blank), row, col) ==
            if row == Row(|st.written|) && col == Column(|st.written|) then cell else CellAt(st, row, col)
  {
    var n, k := |st.written|, 80 * (Scrolled(|st.written|) + row) + col;
    assert k == n <==> row == Row(n) && col == Column(n);
  }

  /** The cell that fills the last row moves every row up. */
  lemma PutLastShows(st: Stream, cell: Cell, blank: Cell, row: nat, col: nat)
    requires StreamOk(st) && row < 25 && col < 80
    requires Scrolled(|st.written| + 1) != Scrolled(|st.written|)
    ensures Row(|st.written|) == 24 && Column(|st.written|) == 79
    ensures CellAt(Put(st, [cell], blank), row, col) ==
            if row == 24 then blank
            else if row == 23 && col == 79 then cell
            else CellAt(st, row + 1, col)
  {
    var n, k := |st.written|, 80 * (Scrolled(|st.written|) + row + 1) + col;
    assert (n + 1) / 80 == n / 80 + 1;
    assert k == n <==> row == 23 && col == 79;
  }

  predicate PictureAt(b: seq<Cell>, st: Stream, row: nat, col: nat)
    requires |b| == 2000 && StreamOk(st) && row < 25 && col < 80
  {
    b[80 * row + col] == CellAt(st, row, col)
  }

  /** A buffer of 25 rows is the window onto the stream. */
  predicate Pictures(b: seq<Cell>, st: Stream) {
    |b| == 2000 && StreamOk(st) && forall row, col :: 0 <= row < 25 && 0 <= col < 80 ==> PictureAt(b, st, row, col)
  }

  lemma PutOnePictures(b: seq<Cell>, st: Stream, cell: Cell, blank: Cell)
    requires Pictures(b, st) && Scrolled(|st.written| + 1) == Scrolled(|st.written|)
    ensures Pictures(b[80 * Row(|st.written|) + Column(|st.written|) := cell], Put(st, [cell], blank))
  {
    var r, n := b[80 * Row(|st.written|) + Column(|st.written|) := cell], |st.written|;
    forall row, col | 0 <= row < 25 && 0 <= col < 80 ensures PictureAt(r, Put(st, [cell], blank), row, col) {
      PutOneShows(st, cell, blank, row, col);
      assert PictureAt(b, st, row, col);
      assert 80 * row + col == 80 * Row(n) + Column(n) <==> row == Row(n) && col == Column(n);
    }
  }

  /** `full` is `b` with the last cell written, and `r` is that moved up a row. */
  lemma PutLastPictures(b: seq<Cell>, full: seq<Cell>, r: seq<Cell>, st: Stream, cell: Cell, blank: Cell)
    requires Pictures(b, st) && |r| == 2000 && Scrolled(|st.written| + 1) != Scrolled(|st.written|)
    requires full == b[1999 := cell]
    requires forall row, col :: 0 <= row < 25 && 0 <= col < 80 ==> MovedUp(full, r, blank, row, col)
    ensures Pictures(r, Put(st, [cell], blank))
  {
    forall row, col | 0 <= row < 25 && 0 <= col < 80 ensures PictureAt(r, Put(st, [cell], blank), row, col) {
      PutLastShows(st, cell, blank, row, col);
      assert MovedUp(full, r, blank, row, col);
      assert row < 24 ==> PictureAt(b, st, row + 1, col);
    }
  }

  predicate MovedUp(b: seq<Cell>, r: seq<Cell>, blank: Cell, row: nat, col: nat)
    requires |b| == |r| == 2000 && row < 25 && col < 80
  {
    r[80 * row + col] == if row == 24 then blank else b[80 * (row + 1) + col]
  }

  /** Row and column follow the count: the next place, or the beginning of the next row. */
  lemma NextPlace(n: nat)
    ensures Column(n) + 1 < 80 ==>
              Column(n + 1) == Column(n) + 1 && Row(n + 1) == Row(n) && Scrolled(n + 1) == Scrolled(n)
    ensures Column(n) + 1 == 80 ==> Column(n + 1) == 0 && Row(n + 1) == (if Row(n) == 24 then 24 else Row(n) + 1)
    ensures Scrolled(n + 1) != Scrolled(n) <==> Column(n) + 1 == 80 && Row(n) == 24
  {
  }

  /** From the last row on, what is in the window are the cells still in the last 25 rows. */
  lemma WindowIsTheEnd(st: Stream, row: nat, col: nat)
    requires StreamOk(st) && row < 25 && col < 80
    ensures var n := |st.written|;
            && (row < Row(n) || (row == Row(n) && col < Column(n)) ==>
                  n > 80 * (Row(n) - row) + Column(n) - col - 1 >= 0 &&
                  CellAt(st, row, col) == st.written[n - (80 * (Row(n) - row) + Column(n) - col)])
            && (!(row < Row(n) || (row == Row(n) && col < Column(n))) ==>
                CellAt(st, row, col) == st.paper[Scrolled(n) + row])
  {
  }

  // ---- what there is to be read

  /** Only spaces in the colour, from a to b. */
  predicate BlankFrom(cells: seq<Cell>, a: nat, b: nat, color: Byte) {
    a <= b <= |cells| && forall k :: a <= k < b ==> Displays(cells[k], 32, color)
  }

  lemma TextGrows(s: seq<Byte>, n: nat, color: Byte, i: nat)
    requires i < |s|
    ensures var front := Text(s[..i], n, color); Text(s[..i + 1], n, color) == front + CellsOf(s[i], n + |front|, color)
  {
    assert s[..i + 1][..i] == s[..i];
  }

  lemma {:induction false} TextBegins(s: seq<Byte>, n: nat, color: Byte, i: nat)
    requires i <= |s|
    ensures Text(s[..i], n, color) <= Text(s, n, color)
    decreases |s| - i
  {
    if i < |s| {
      TextGrows(s, n, color, i);
      TextBegins(s, n, color, i + 1);
    } else {
      assert s[..i] == s;
    }
  }

  /** A character shows in one place, a tab as four spaces, and a line break as spaces to the end of the row, or a
      whole row of them at the beginning of one. */
  predicate CharShows(c: Byte, n: nat, cells: seq<Cell>, color: Byte) {
    && (c == 9 ==> |cells| == 4 && BlankFrom(cells, 0, 4, color))
    && (c == 10 ==> 0 < |cells| <= 80 && (n + |cells|) % 80 == 0 && BlankFrom(cells, 0, |cells|, color))
    && (c != 9 && c != 10 ==> |cells| == 1 && Displays(cells[0], c, color))
  }

  lemma CellsOfShow(c: Byte, n: nat, color: Byte)
    ensures CharShows(c, n, CellsOf(c, n, color), color)
  {
    CharIsDisplayed(c, color);
  }

  /** A text shows its characters one after the other: the cells of the first i, then those of the next. */
  lemma TextShows(s: seq<Byte>, n: nat, color: Byte, i: nat) returns (cells: seq<Cell>)
    requires i < |s|
    ensures var front := Text(s[..i], n, color);
            && CharShows(s[i], n + |front|, cells, color)
            && front + cells == Text(s[..i + 1], n, color) <= Text(s, n, color)
  {
    cells := CellsOf(s[i], n + |Text(s[..i], n, color)|, color);
    TextGrows(s, n, color, i);
    TextBegins(s, n, color, i + 1);
    CellsOfShow(s[i], n + |Text(s[..i], n, color)|, color);
  }

  /** Without tabs and line breaks that is the text itself. */
  lemma {:induction false} PlainTextShows(s: seq<Byte>, n: nat, color: Byte)
    requires 9 !in s && 10 !in s
    ensures |Text(s, n, color)| == |s|
    ensures forall i :: 0 <= i < |s| ==> Displays(Text(s, n, color)[i], s[i], color)
  {
    if s != [] {
      PlainTextShows(s[..|s| - 1], n, color);
      CharIsDisplayed(s[|s| - 1], color);
    }
  }

  /** A character is shown where the cursor was, or, where that was the last place of the screen, a row further up
      after the screen has moved. */
  lemma WrittenCharShows(st: Stream, c: Byte, color: Byte)
    requires StreamOk(st) && c != 10
    ensures var n, r := |st.written|, Wrote(st, CharCells(c, |st.written|, color), color);
            Displays(CellAt(r, if Row(n) == 24 && Column(n) == 79 then 23 else Row(n), Column(n)), c, color)
  {
    var n := |st.written|;
    NextPlace(n);
    if Scrolled(n + 1) == Scrolled(n) {
      PutOneShows(st, BuildChar(c, color), Space(color), Row(n), Column(n));
    } else {
      PutLastShows(st, BuildChar(c, color), Space(color), 23, 79);
    }
  }
}
