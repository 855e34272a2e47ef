/** Where printed characters end up: a reference layout that knows nothing of
    grids, scrolling or history, and the proof that printing realises it. */
module Layout {
  import opened Sequences
  import opened Cells
  import opened Regions
  import opened Screens
  import opened History

  predicate Widths(text: seq<Char>) {
    forall i :: 0 <= i < |text| ==> text[i].width <= 2
  }

  /** Input calls for a text, given what the line-drawing set makes of it. */
  function Prints(plain: seq<Char>, drawing: seq<Char>): (ops: seq<Op>)
    requires |plain| == |drawing|
    ensures |ops| == |plain|
    ensures forall i :: 0 <= i < |plain| ==> ops[i] == OpPrint(plain[i], drawing[i])
  {
    seq(|plain|, i requires 0 <= i < |plain| => OpPrint(plain[i], drawing[i]))
  }

  function PrintAll(s: Screen, text: seq<Char>): (t: Screen)
    requires Inv(s) && Widths(text)
    ensures Follows(s, t)
    ensures Window(s) ==> Window(t)
    decreases |text|
  {
    if text == [] then s else PrintAll(Print(s, text[0].ch, text[0].width), text[1..])
  }

  lemma {:induction false} PrintAllIsRun(s: Screen, plain: seq<Char>, drawing: seq<Char>)
    requires Inv(s) && Widths(plain) && Widths(drawing) && |plain| == |drawing|
    ensures Run(s, Prints(plain, drawing))
            == PrintAll(s, if ActiveCharset(s.charsets).LineDrawing? then drawing else plain)
    decreases |plain|
  {
    hide Inv, Print, Step, ActiveCharset;
    if plain != [] {
      var ops := Prints(plain, drawing);
      assert ops[1..] == Prints(plain[1..], drawing[1..]);
      var c := Mapped(s.charsets, plain[0], drawing[0]);
      var t := Print(s, c.ch, c.width);
      StepIsInput(s, plain[0], drawing[0]);
      PrintAllIsRun(t, plain[1..], drawing[1..]);
    }
  }

  /** An input call prints the mapped character and keeps the character sets. */
  lemma StepIsInput(s: Screen, plain: Char, drawing: Char)
    requires Inv(s) && plain.width <= 2 && drawing.width <= 2
    ensures var c := Mapped(s.charsets, plain, drawing);
            var t := Print(s, c.ch, c.width);
            Step(s, OpPrint(plain, drawing)) == t && Follows(s, t) && t.charsets == s.charsets
  {
    hide Inv, Print;
  }

  /** The cells of one character printed where `room` columns are left: a wide one has
      its continuation cell when it fits. */
  function GlyphCells(c: Char, pen: Pen, room: nat): seq<Cell> {
    match c.width
    case 0 => []
    case 1 => [Glyph(c.ch, 1, pen)]
    case _ => [Glyph(c.ch, 2, pen)] + if room >= 2 then [Continuation(pen)] else []
  }

  /** Where a character printed at `col` starts: a full line continues on the next. */
  function At(cols: nat, col: nat): nat {
    if col >= cols then 0 else col
  }

  /** A wide character that would straddle the margin. */
  predicate Straddles(cols: nat, col: nat, c: Char) {
    c.width == 2 && At(cols, col) + 1 >= cols
  }

  /** What one character adds to a line of `cols` cells at column `col`. One that would
      straddle the margin leaves an erased cell behind and starts the next line. */
  function FirstCells(cols: nat, col: nat, c: Char, pen: Pen): seq<Cell> {
    if Straddles(cols, col, c) then [Erased(pen.bg)] + GlyphCells(c, pen, cols)
    else GlyphCells(c, pen, Monus(cols, At(cols, col)))
  }

  /** The column after printing `c` at `col`. */
  function ColumnAfter(cols: nat, col: nat, c: Char): nat {
    if Straddles(cols, col, c) then 2 else At(cols, col) + c.width
  }

  /** Reference layout of a text on lines of `cols` cells, starting at column `col`
      (`col >= cols`: the line is full). */
  function Laid(cols: nat, col: nat, text: seq<Char>, pen: Pen): seq<Cell>
    decreases |text|
  {
    if text == [] then []
    else FirstCells(cols, col, text[0], pen) + Laid(cols, ColumnAfter(cols, col, text[0]), text[1..], pen)
  }

  lemma NextLine(n: nat, cols: nat)
    ensures (n + 1) * cols == n * cols + cols
  {
  }

  /** Everything before the cursor: rows scrolled off, rows above, cells to the left. */
  function TextOf(s: Screen): seq<Cell>
    requires Inv(s)
  {
    CellsOf(s.log) + CellsOf(s.grid[..s.cursorRow]) + CursorCells(s)[..Min(s.cursorCol, s.cols)]
  }

  /** The cursor's line, counted from the first row ever scrolled off. */
  function Line(s: Screen): nat {
    |s.log| + s.cursorRow
  }

  /** Erasing from the cursor on, in the line or the display, leaves the text alone. */
  lemma ErasingAheadKeepsText(s: Screen)
    requires Inv(s)
    ensures TextOf(ClearLine(s, Right)) == TextOf(s) && TextOf(ClearScreen(s, Below)) == TextOf(s)
  {
    hide Edits;
    var t, u := ClearLine(s, Right), ClearScreen(s, Below);
    assert t.grid[..s.cursorRow] == s.grid[..s.cursorRow] && u.grid[..s.cursorRow] == s.grid[..s.cursorRow];
    var left := Min(s.cursorCol, s.cols);
    assert CursorCells(t)[..left] == CursorCells(s)[..left] && CursorCells(u) == CursorCells(t);
  }

  /** The primary screen, scrolling as a whole, wrapping on, insert mode off. */
  predicate Plain(s: Screen) {
    && Inv(s) && s.modes.lineWrap && !s.usingAlt && !s.insertMode
    && s.scrollTop == 0 && s.scrollBottom == s.rows - 1
  }

  lemma LineFeedShape(s: Screen)
    requires Plain(s) && s.cursorCol == 0
    ensures var t := LineFeed(s);
            && Plain(t) && Inv(t) && t.cursorCol == 0 && t.pen == s.pen && t.capacity == s.capacity
            && if s.cursorRow == s.rows - 1 then
                 t.cursorRow == s.cursorRow && t.log == s.log + [s.grid[0]] && t.grid[..t.cursorRow] == s.grid[1..]
               else
                 t.cursorRow == s.cursorRow + 1 && t.log == s.log && t.grid == s.grid
  {
    if s.cursorRow == s.rows - 1 {
      var tape := Tape(s.grid, 0, s.rows - 1, 1, Blank(s));
      assert tape[..1] == [s.grid[0]];
      assert RegionUp(s.grid, 0, s.rows - 1, 1, Blank(s))[..s.cursorRow] == s.grid[1..];
    }
  }

  lemma LineFeedMovesRowIntoText(s: Screen)
    requires Plain(s) && s.cursorCol == 0
    ensures var t := LineFeed(s);
            && Plain(t) && Inv(t) && t.cursorCol == 0 && t.pen == s.pen && t.capacity == s.capacity
            && TextOf(t) == TextOf(s) + CursorCells(s) && Line(t) == Line(s) + 1
  {
    hide Inv, LineFeed, Edits;
    InvBounds(s);
    LineFeedShape(s);
    var t := LineFeed(s);
    var above, row := s.grid[..s.cursorRow], s.grid[s.cursorRow];
    assert s.grid[..s.cursorRow + 1] == above + [row];
    CellsOfSnoc(above, row);
    assert CursorCells(t)[..0] == [] && CursorCells(s)[..0] == [];
    assert TextOf(s) + row.cells == CellsOf(s.log) + CellsOf(above + [row]);
    if s.cursorRow == s.rows - 1 {
      CellsOfSnoc(s.log, s.grid[0]);
      assert above + [row] == [s.grid[0]] + s.grid[1..];
      CellsOfAppend([s.grid[0]], s.grid[1..]);
      assert CellsOf([s.grid[0]]) == s.grid[0].cells + CellsOf([]) == s.grid[0].cells;
    }
  }

  /** A full row left by the wrap counts as text already. */
  lemma WrapPendingKeepsText(s: Screen)
    requires Plain(s)
    ensures var t := WrapPending(s);
            && Plain(t) && Inv(t) && t.pen == s.pen && t.capacity == s.capacity && TextOf(t) == TextOf(s)
            && t.cursorCol == (if s.cursorCol >= s.cols then 0 else s.cursorCol)
            && Line(t) == Line(s) + (if s.cursorCol >= s.cols then 1 else 0)
  {
    if s.cursorCol >= s.cols {
      var home := s.(cursorCol := 0);
      LineFeedMovesRowIntoText(home);
      assert CursorCells(home)[..0] == [];
      assert CursorCells(s)[..s.cols] == CursorCells(s);
    }
  }

  lemma PutGlyphAppends(s: Screen, c: Char)
    requires Plain(s) && c.width <= 2 && s.cursorCol < s.cols
    ensures var t := PutGlyph(s, c.ch, c.width);
            && Plain(t) && Inv(t) && t.pen == s.pen && t.capacity == s.capacity && t.cursorCol == s.cursorCol + c.width
            && TextOf(t) == TextOf(s) + GlyphCells(c, s.pen, s.cols - s.cursorCol) && Line(t) == Line(s)
  {
    var t := PutGlyph(s, c.ch, c.width);
    assert t.grid[..t.cursorRow] == s.grid[..s.cursorRow];
    assert CursorCells(t)[..Min(t.cursorCol, t.cols)]
        == CursorCells(s)[..s.cursorCol] + GlyphCells(c, s.pen, s.cols - s.cursorCol);
  }

  /** The erased cell a wide character leaves behind when it wraps. */
  function Pad(s: Screen, width: nat): seq<Cell> {
    if width == 2 && s.cursorCol + 1 >= s.cols then [Erased(s.pen.bg)] else []
  }

  lemma WrapWideAppendsPad(s: Screen, width: nat)
    requires Plain(s) && s.cursorCol < s.cols && width <= 2
    ensures var t := WrapWide(s, width);
            && Plain(t) && Inv(t) && t.pen == s.pen && t.capacity == s.capacity
            && TextOf(t) == TextOf(s) + Pad(s, width)
            && t.cursorCol == (if Pad(s, width) == [] then s.cursorCol else 0)
            && Line(t) == Line(s) + |Pad(s, width)|
  {
    if width == 2 && s.cursorCol + 1 >= s.cols {
      var home := EraseChars(s, 1).(cursorCol := 0);
      LineFeedMovesRowIntoText(home);
      assert home.grid[..home.cursorRow] == s.grid[..s.cursorRow];
      assert CursorCells(home)[..0] == [];
      assert CursorCells(home) == CursorCells(s)[..s.cursorCol] + Pad(s, width);
    } else {
      assert TextOf(s) + [] == TextOf(s);
    }
  }

  lemma PrintAppends(s: Screen, c: Char, t: Screen)
    requires Inv(s) && Plain(s) && c.width <= 2 && t == Print(s, c.ch, c.width)
    ensures Inv(t) && Plain(t) && t.pen == s.pen && t.capacity == s.capacity && t.cols == s.cols
    ensures TextOf(t) == TextOf(s) + FirstCells(s.cols, s.cursorCol, c, s.pen)
    ensures t.cursorCol == ColumnAfter(s.cols, s.cursorCol, c)
    ensures Line(t) == Line(s) + (if s.cursorCol >= s.cols then 1 else 0)
                               + (if Straddles(s.cols, s.cursorCol, c) then 1 else 0)
  {
    hide LineFeed, Edits, TextOf, PutGlyph;
    var a := WrapPending(s);
    WrapPendingKeepsText(s);
    var b := WrapWide(a, c.width);
    WrapWideAppendsPad(a, c.width);
    assert OpenGap(b, c.width) == b;
    PutGlyphAppends(b, c);
    Assoc(TextOf(s), Pad(a, c.width), GlyphCells(c, s.pen, b.cols - b.cursorCol));
  }

  /** Printing any text of any widths from any such state appends exactly the
      reference layout to the text before the cursor, across wraps and scrolls. */
  lemma {:induction false} PrintingRealisesLayout(s: Screen, text: seq<Char>, t: Screen)
    requires Inv(s) && Plain(s) && Widths(text) && t == PrintAll(s, text)
    ensures Inv(t) && Plain(t) && t.pen == s.pen && t.capacity == s.capacity
    ensures TextOf(t) == TextOf(s) + Laid(s.cols, s.cursorCol, text, s.pen)
    decreases |text|
  {
    hide Plain, TextOf, Print, Inv;
    if text == [] {
      assert TextOf(s) + [] == TextOf(s);
    } else {
      var c := text[0];
      var u := Print(s, c.ch, c.width);
      PrintAppends(s, c, u);
      PrintingRealisesLayout(u, text[1..], t);
      Assoc(TextOf(s), FirstCells(s.cols, s.cursorCol, c, s.pen), Laid(s.cols, u.cursorCol, text[1..], s.pen));
    }
  }

  /** Width-1 text as cells, one a character. */
  function Plainly(text: seq<Char>, pen: Pen): (cells: seq<Cell>)
    ensures |cells| == |text|
    ensures forall i :: 0 <= i < |text| ==> cells[i] == Glyph(text[i].ch, 1, pen)
  {
    seq(|text|, i requires 0 <= i < |text| => Glyph(text[i].ch, 1, pen))
  }

  predicate Narrow(text: seq<Char>) {
    forall i :: 0 <= i < |text| ==> text[i].width == 1
  }

  lemma {:induction false} NarrowLayoutIsTheText(cols: nat, col: nat, text: seq<Char>, pen: Pen)
    requires Narrow(text)
    ensures Laid(cols, col, text, pen) == Plainly(text, pen)
    decreases |text|
  {
    if text != [] {
      NarrowLayoutIsTheText(cols, (if col >= cols then 0 else col) + 1, text[1..], pen);
      assert Plainly(text, pen) == [Glyph(text[0].ch, 1, pen)] + Plainly(text[1..], pen);
    }
  }

  /** The cursor as one number: a full line and the start of the next coincide. */
  function Position(s: Screen): nat {
    Line(s) * s.cols + Min(s.cursorCol, s.cols)
  }

  lemma NarrowCharAdvances(s: Screen, c: Char, t: Screen)
    requires Inv(s) && Plain(s) && c.width == 1 && t == Print(s, c.ch, 1)
    ensures Inv(t) && Plain(t) && Position(t) == Position(s) + 1
  {
    PrintAppends(s, c, t);
    hide Plain, TextOf, Print, Inv, Line;
    NextLine(Line(s), s.cols);
  }

  lemma {:induction false} NarrowTextAdvances(s: Screen, text: seq<Char>, t: Screen)
    requires Inv(s) && Plain(s) && Narrow(text) && t == PrintAll(s, text)
    ensures Position(t) == Position(s) + |text|
    decreases |text|
  {
    hide Plain, Print, Inv, Position;
    if text != [] {
      var u := Print(s, text[0].ch, 1);
      NarrowCharAdvances(s, text[0], u);
      NarrowTextAdvances(u, text[1..], t);
    }
  }

  /** Width-1 text is read back in order from the history followed by the rows above
      the cursor and the cursor row, the pending wrap after an exact fill included.
      Scrollback keeps showing the latest rows of that history. */
  lemma AutowrapLayout(s: Screen, text: seq<Char>, t: Screen)
    requires Inv(s) && Plain(s) && Narrow(text) && t == PrintAll(s, text)
    ensures Inv(t) && TextOf(t) == TextOf(s) + Plainly(text, s.pen)
    ensures Position(t) == Position(s) + |text|
    ensures s.scrollback == LastN(s.log, s.capacity) ==> t.scrollback == LastN(t.log, s.capacity)
  {
    hide Inv, Plain, TextOf, Laid, PrintAll, Position;
    PrintingRealisesLayout(s, text, t);
    NarrowLayoutIsTheText(s.cols, s.cursorCol, text, s.pen);
    NarrowTextAdvances(s, text, t);
  }

  /** A fresh terminal is a state the layout theorems start from, with no text yet. */
  lemma FreshIsPlain(s: Screen, rows: nat, cols: nat)
    requires 0 < rows && 0 < cols && s == Fresh(rows, cols)
    ensures Inv(s) && Plain(s) && TextOf(s) == [] && Position(s) == 0
    ensures s.scrollback == LastN(s.log, s.capacity) && s.pen == DEFAULT_PEN
  {
  }
}
