/** The text consoles: their buffers, and the video memory that shows one of them. */
module Console {
  import opened Words
  import opened CellStream

  /** `screen_t` */
  class Screen {
    var row: nat
    var column: nat
    var color: Byte
    var cursor: nat
    const cells: array<Cell>

    constructor ()
      ensures row == 0 && column == 0 && fresh(cells) && cells.Length == 2000
      ensures forall k :: 0 <= k < 2000 ==> cells[k] == 0
    {
      row, column, color, cursor := 0, 0, 0, 0;
      cells := new Cell[2000](i => 0);
    }
  }

  /** The buffer at a row and column. */
  ghost function CellOf(cells: array<Cell>, row: nat, col: nat): Cell
    requires cells.Length == 2000 && row < 25 && col < 80
    reads cells
  {
    cells[80 * row + col]
  }

  /** The screen is the window onto the stream. */
  ghost predicate Shows(s: Screen, st: Stream)
    reads s`row, s`column, s.cells
  {
    && s.cells.Length == 2000 && Pictures(s.cells[..], st)
    && s.row == Row(|st.written|) && s.column == Column(|st.written|)
  }

  class Video {
    const consoles: seq<Screen>
    const memory: array<Cell>
    var current: nat
    /** What has been written to each console. */
    ghost var streams: seq<Stream>

    function Con(i: nat): Screen
      requires i < |consoles|
    {
      consoles[i]
    }

    /** Eight consoles with buffers of their own. */
    ghost predicate Shape()
      reads this`current
    {
      && |consoles| == 8 && current < 8 && memory.Length == 2000
      && (forall i :: 0 <= i < 8 ==> Con(i).cells.Length == 2000 && Con(i).cells != memory)
      && (forall i, j :: 0 <= i < j < 8 ==> Con(i) != Con(j) && Con(i).cells != Con(j).cells)
    }

    /** The video memory holds the buffer of the current console. */
    ghost predicate Synced()
      requires Shape()
      reads this`current, memory, Con(current).cells
    {
      memory[..] == Con(current).cells[..]
    }

    /** `video_write_full_char_at` with `video_sync_console_at`. */
    method WriteFullCharAt(console: nat, c: Cell, row: nat, col: nat)
      requires Shape() && console < 8 && row < 25 && col < 80
      modifies Con(console).cells, memory
      ensures Con(console).cells[..] == old(Con(console).cells[..])[80 * row + col := c]
      ensures memory[..] == if console == current then old(memory[..])[80 * row + col := c] else old(memory[..])
      ensures forall i, j :: 0 <= i < 25 && 0 <= j < 80 ==>
                CellOf(Con(console).cells, i, j) ==
                  if i == row && j == col then c else old(CellOf(Con(console).cells, i, j))
    {
      Con(console).cells[row * 80 + col] := c;
      if console == current {
        memory[row * 80 + col] := Con(console).cells[row * 80 + col];
      }
    }

    /** `video_sync_console` */
    method Sync(console: nat)
      requires Shape() && console < 8
      modifies memory
      ensures memory[..] == if console == current then Con(console).cells[..] else old(memory[..])
    {
      if console != current { return; }
      for i := 0 to 25
        invariant forall k :: 0 <= k < 80 * i ==> memory[k] == Con(console).cells[k]
      {
        for j := 0 to 80
          invariant forall k :: 0 <= k < 80 * i + j ==> memory[k] == Con(console).cells[k]
        {
          memory[i * 80 + j] := Con(console).cells[i * 80 + j];
        }
      }
    }

    /** `video_update_cursor`, without the ports. */
    method UpdateCursor()
      requires Shape()
      modifies Con(current)`cursor
      ensures Con(current).cursor == 80 * Con(current).row + Con(current).column
    {
      Con(current).cursor := Con(current).row * 80 + Con(current).column;
    }

    /** `video_clear_line` */
    method ClearLine(console: nat, row: nat)
      requires Shape() && console < 8 && row < 25 && Synced()
      modifies Con(console)`column, Con(console).cells, memory
      ensures Synced() && Con(console).column == 0
      ensures forall r, c :: 0 <= r < 25 && 0 <= c < 80 ==>
                CellOf(Con(console).cells, r, c) ==
                if r == row then Space(Con(console).color) else old(CellOf(Con(console).cells, r, c))
    {
      for i := 0 to 80
        invariant Synced()
        invariant forall r, c :: 0 <= r < 25 && 0 <= c < 80 ==>
                    CellOf(Con(console).cells, r, c) ==
                    if r == row && c < i then Space(Con(console).color) else old(CellOf(Con(console).cells, r, c))
      {
        WriteFullCharAt(console, Space(Con(console).color), row, i);
      }
      Con(console).column := 0;
    }

    /** `video_scroll` */
    method Scroll(console: nat)
      requires Shape() && console < 8 && Synced() && Con(console).row > 0
      modifies Con(console)`row, Con(console)`column, Con(console).cells, memory
      ensures Synced() && Con(console).row == old(Con(console).row) - 1 && Con(console).column == 0
      ensures forall r, c :: 0 <= r < 25 && 0 <= c < 80 ==>
                CellOf(Con(console).cells, r, c) ==
                if r == 24 then Space(Con(console).color) else old(CellOf(Con(console).cells, r + 1, c))
    {
      for row := 1 to 25
        invariant Synced() && Con(console).row == old(Con(console).row)
        invariant forall r, c :: 0 <= r < 25 && 0 <= c < 80 ==>
                    CellOf(Con(console).cells, r, c) ==
                    if r + 1 < row then old(CellOf(Con(console).cells, r + 1, c))
                    else old(CellOf(Con(console).cells, r, c))
      {
        for column := 0 to 80
          invariant Synced() && Con(console).row == old(Con(console).row)
          invariant forall r, c :: 0 <= r < 25 && 0 <= c < 80 ==>
                      CellOf(Con(console).cells, r, c) ==
                      if r + 1 < row || (r + 1 == row && c < column)
                      then old(CellOf(Con(console).cells, r + 1, c)) else old(CellOf(Con(console).cells, r, c))
        {
          var c := Con(console).cells[row * 80 + column];
          assert c == CellOf(Con(console).cells, row, column);
          WriteFullCharAt(console, c, row - 1, column);
        }
      }
      ClearLine(console, 24);
      Con(console).column := 0;
      Con(console).row := Con(console).row - 1;
    }

    // ---- the consoles as streams

    /** Every console is the window onto its stream, and the video memory shows the current one. */
    ghost predicate Valid()
      reads this, memory, consoles, set s <- consoles :: s.cells
    {
      Shape() && Synced() && |streams| == 8 && forall i :: 0 <= i < 8 ==> Shows(Con(i), streams[i])
    }

    /** `video_write_full_char`, on one console alone. */
    method PutCell(console: nat, c: Cell, ghost st: Stream)
      requires Shape() && Synced() && console < 8 && Shows(Con(console), st)
      modifies Con(console)`row, Con(console)`column, Con(console).cells, memory
      ensures Synced() && Shows(Con(console), Put(st, [c], Space(Con(console).color)))
    {
      WriteFullCharAt(console, c, Con(console).row, Con(console).column);
      Con(console).column := Con(console).column + 1;
      if Con(console).column == 80 {
        Con(console).column := 0;
        Con(console).row := Con(console).row + 1;
      }
      NextPlace(|st.written|);
      ghost var b, blank := Con(console).cells[..], Space(Con(console).color);
      if Con(console).row == 25 {
        Scroll(console);
        ghost var r := Con(console).cells[..];
        forall row, col | 0 <= row < 25 && 0 <= col < 80 ensures MovedUp(b, r, blank, row, col) {
          assert r[80 * row + col] == CellOf(Con(console).cells, row, col);
        }
        PutLastPictures(old(Con(console).cells[..]), b, r, st, c, blank);
      } else {
        PutOnePictures(old(Con(console).cells[..]), st, c, blank);
      }
    }

    /** `video_write_full_char`: one cell more in the stream. */
    method WriteFullChar(console: nat, c: Cell)
      requires Valid() && console < 8
      modifies this`streams, Con(console)`row, Con(console)`column, Con(console).cells, memory
      ensures Valid()
      ensures streams == old(streams)[console := Wrote(old(streams)[console], [c], Con(console).color)]
    {
      PutCell(console, c, streams[console]);
      streams := streams[console := Wrote(streams[console], [c], Con(console).color)];
    }

    /** The console shows a character written at a place, which has moved up if it was the last of the screen. */
    ghost predicate IsSeen(console: nat, row: nat, col: nat, c: Byte)
      requires Shape() && console < 8
      reads this`current, Con(console)`color, Con(console).cells
    {
      && row < 25 && col < 80
      && Displays(CellOf(Con(console).cells, if row == 24 && col == 79 then 23 else row, col), c, Con(console).color)
    }

    /** `video_write_char` */
    method WriteChar(console: nat, c: Byte)
      requires Valid() && console < 8
      modifies this`streams, Con(console)`row, Con(console)`column, Con(console).cells, memory
      ensures Valid()
      ensures var st, color := old(streams)[console], Con(console).color;
              streams == old(streams)[console := Wrote(st, CharCells(c, |st.written|, color), color)]
      ensures c != 10 ==> IsSeen(console, old(Con(console).row), old(Con(console).column), c)
      decreases if c == 10 then 3 else 0
    {
      if c == 10 {
        WriteNl(console);
      } else {
        WrittenCharShows(streams[console], c, Con(console).color);
        WriteFullChar(console, BuildChar(c, Con(console).color));
        ghost var st := streams[console];
        var row, column := old(Con(console).row), old(Con(console).column);
        assert PictureAt(Con(console).cells[..], st, if row == 24 && column == 79 then 23 else row, column);
      }
    }

    /** One turn of the loop of `video_write_nl`. */
    method WriteNlChar(console: nat, ghost was: seq<Stream>, ghost st: Stream, ghost k: nat)
      requires Valid() && console < 8 && |was| == 8 && StreamOk(st) && k < 80 - Column(|st.written|)
      requires streams == was[console := Broken(st, k, Con(console).color)]
      modifies this`streams, Con(console)`row, Con(console)`column, Con(console).cells, memory
      ensures Valid() && streams == was[console := Broken(st, k + 1, Con(console).color)]
      ensures Con(console).column == 0 <==> k + 1 == 80 - Column(|st.written|)
      decreases 1
    {
      ghost var color := Con(console).color;
      BreakStep(st, k, color);
      UpdateTwice(was, console, Broken(st, k, color), Broken(st, k + 1, color));
      WriteChar(console, 32);
      assert Shows(Con(console), streams[console]);
    }

    /** `video_write_nl` */
    method WriteNl(console: nat)
      requires Valid() && console < 8
      modifies this`streams, Con(console)`row, Con(console)`column, Con(console).cells, memory
      ensures Valid()
      ensures var st, color := old(streams)[console], Con(console).color;
              streams == old(streams)[console := Wrote(st, Break(|st.written|, color), color)]
      decreases 2
    {
      ghost var was, st, n, k := streams, streams[console], |streams[console].written|, 0;
      ghost var color := Con(console).color;
      var lineStart := Con(console).column == 0;
      PutNothing(st, Space(color));
      UpdateTwice(was, console, st, st);
      while Con(console).column != 0 || lineStart
        invariant Valid() && k <= 80 - Column(n) && (lineStart <==> k == 0 && Column(n) == 0)
        invariant k > 0 ==> (Con(console).column == 0 <==> k == 80 - Column(n))
        invariant streams == was[console := Broken(st, k, color)]
        decreases 80 - k
      {
        WriteNlChar(console, was, st, k);
        lineStart, k := false, k + 1;
      }
    }

    /** The switch of `video_write_string`. */
    method WriteStringChar(console: nat, c: Byte)
      requires Valid() && console < 8
      modifies this`streams, Con(console)`row, Con(console)`column, Con(console).cells, memory, Con(current)`cursor
      ensures Valid()
      ensures var st, color := old(streams)[console], Con(console).color;
              streams == old(streams)[console := Wrote(st, CellsOf(c, |st.written|, color), color)]
      decreases if c == 9 then 6 else 4
    {
      if c == 9 {
        TextOfFourSpaces(|streams[console].written|, Con(console).color);
        WriteString(console, [32, 32, 32, 32]);
      } else {
        WriteChar(console, c);
      }
    }

    /** `video_write_string` */
    method WriteString(console: nat, s: seq<Byte>)
      requires Valid() && console < 8
      modifies this`streams, Con(console)`row, Con(console)`column, Con(console).cells, memory, Con(current)`cursor
      ensures Valid()
      ensures var st, color := old(streams)[console], Con(console).color;
              streams == old(streams)[console := Wrote(st, Text(s, |st.written|, color), color)]
      decreases if 9 in s then 7 else 5
    {
      ghost var was, st, color := streams, streams[console], Con(console).color;
      TypedEnds(st, s, color);
      UpdateTwice(was, console, st, st);
      var i := 0;
      while i < |s|
        invariant 0 <= i <= |s| && Valid()
        invariant streams == was[console := Typed(st, s, i, color)]
      {
        TextStep(st, s, i, color);
        UpdateTwice(was, console, Typed(st, s, i, color), Typed(st, s, i + 1, color));
        WriteStringChar(console, s[i]);
        i := i + 1;
      }
      UpdateCursor();
    }

    /** `video_write_line` */
    method WriteLine(console: nat, s: seq<Byte>)
      requires Valid() && console < 8
      modifies this`streams, Con(console)`row, Con(console)`column, Con(console).cells, memory, Con(current)`cursor
      ensures Valid()
      ensures var st, color := old(streams)[console], Con(console).color;
              streams == old(streams)[console := Wrote(st, Line(s, |st.written|, color), color)]
    {
      ghost var was, st, color := streams, streams[console], Con(console).color;
      PutNothing(st, Space(color));
      if Con(console).column != 0 {
        WriteNl(console);
      }
      ghost var a := streams[console];
      assert a == Wrote(st, Opening(|st.written|, color), color) && streams == was[console := a];
      WriteString(console, s);
      ghost var b := streams[console];
      assert b == Wrote(a, Text(s, |a.written|, color), color) && streams == was[console := b];
      LineInSteps(st, a, b, s, color);
      WriteNl(console);
    }

    /** `video_clear_screen`. The consoles need not be in order before it. */
    method Blank(console: nat)
      requires Shape() && console < 8
      modifies Con(console)`row, Con(console)`column, Con(console).cells, memory, Con(current)`cursor
      ensures Shows(Con(console), Cleared(Space(Con(console).color)))
      ensures console == current ==> Synced()
      ensures console != current ==> memory[..] == old(memory[..])
    {
      var c := Space(Con(console).color);
      for i := 0 to 25
        invariant forall k :: 0 <= k < 80 * i ==> Con(console).cells[k] == c
        invariant console != current ==> memory[..] == old(memory[..])
      {
        for j := 0 to 80
          invariant forall k :: 0 <= k < 80 * i + j ==> Con(console).cells[k] == c
          invariant console != current ==> memory[..] == old(memory[..])
        {
          WriteFullCharAt(console, c, i, j);
        }
      }
      Con(console).row := 0;
      Con(console).column := 0;
      UpdateCursor();
      Sync(console);
      forall row, col | 0 <= row < 25 && 0 <= col < 80
        ensures PictureAt(Con(console).cells[..], Cleared(c), row, col)
      {
        assert 80 * row + col < 2000;
      }
    }

    method ClearScreen(console: nat)
      requires Valid() && console < 8
      modifies this`streams, Con(console)`row, Con(console)`column, Con(console).cells, memory, Con(current)`cursor
      ensures Valid() && streams == old(streams)[console := Cleared(Space(Con(console).color))]
      ensures forall row, col :: 0 <= row < 25 && 0 <= col < 80 ==>
                Displays(CellOf(Con(console).cells, row, col), 32, Con(console).color)
    {
      Blank(console);
      CharIsDisplayed(32, Con(console).color);
      forall row, col | 0 <= row < 25 && 0 <= col < 80
        ensures CellOf(Con(console).cells, row, col) == Space(Con(console).color)
      {
        assert PictureAt(Con(console).cells[..], Cleared(Space(Con(console).color)), row, col);
      }
      streams := streams[console := Cleared(Space(Con(console).color))];
    }

    /** `video_change_console` */
    method ChangeConsole(console: nat)
      requires Shape() && console < 8
      modifies this`current, memory, Con(console)`cursor
      ensures Shape() && Synced() && current == console
      ensures old(Valid()) ==> Valid()
    {
      current := console;
      Sync(console);
      UpdateCursor();
    }

    /** `video_set_full_color`: what is written from now on. */
    method SetFullColor(console: nat, color: Byte)
      requires Valid() && console < 8
      modifies Con(console)`color
      ensures Valid() && Con(console).color == color
    {
      Con(console).color := color;
    }

    /** One turn of `video_preinit`. */
    method PreinitOne(console: nat)
      requires Shape() && console < 8
      modifies this`current, Con(console), Con(console).cells, memory
      ensures Shape() && Shows(Con(console), Cleared(Space(15)))
    {
      current := console;
      assert Shape();
      Con(console).color := 15;
      Con(console).row := 0;
      Con(console).column := 0;
      Con(console).cursor := 0;
      assert Con(console).color == 15;
      Blank(console);
    }

    ghost predicate Fresh(console: nat)
      requires console < |consoles|
      reads Con(console)`row, Con(console)`column, Con(console).cells
    {
      Shows(Con(console), Cleared(Space(15)))
    }

    /** `video_preinit`: seven blank consoles, the first of them shown. */
    method Preinit()
      requires Shape() && Shows(Con(7), Cleared(0))
      modifies this, memory, consoles, set s <- consoles :: s.cells
      ensures Valid() && current == 0
      ensures forall i :: 0 <= i < 7 ==> streams[i] == Cleared(Space(15))
      ensures streams[7] == Cleared(0)
    {
      for i := 0 to 7
        invariant Shape() && Shows(Con(7), Cleared(0))
        invariant forall j :: 0 <= j < i ==> Fresh(j)
      {
        PreinitOne(i);
        assert Fresh(i);
      }
      ChangeConsole(0);
      streams := seq(8, i => if i < 7 then Cleared(Space(15)) else Cleared(0));
      AllShown();
    }

    lemma AllShown()
      requires Shape() && |streams| == 8 && Shows(Con(7), streams[7])
      requires forall i :: 0 <= i < 7 ==> Fresh(i) && streams[i] == Cleared(Space(15))
      ensures forall i :: 0 <= i < 8 ==> Shows(Con(i), streams[i])
    {
      forall i | 0 <= i < 8 ensures Shows(Con(i), streams[i]) {
        assert i < 7 ==> Fresh(i) && streams[i] == Cleared(Space(15));
      }
    }
  }
}
