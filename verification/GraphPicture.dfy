/** A graph on the screen: what interpreting its bytes leaves in the cells from the cursor on. */
module GraphPictures {
  import opened Arithmetic
  import opened Bytes
  import opened Cells
  import opened Interpreter
  import opened Tokens
  import opened CursorLaws
  import opened Graphs

  // ----- single cells -----

  function CellAt(t: Screen, x: nat, y: nat): Cell
    requires t.Valid() && x < t.width && y < t.height
  {
    t.cells[Index(t.width, t.height, x, y)]
  }

  lemma IndexApart(w: nat, h: nat, x: nat, y: nat, x': nat, y': nat)
    requires x < w && x' < w && y < h && y' < h && Index(w, h, x, y) == Index(w, h, x', y')
    ensures x == x' && y == y'
  {
    if y < y' { RowsApart(w, y, y'); } else if y' < y { RowsApart(w, y', y); }
  }

  lemma RowsApart(w: nat, y: nat, y': nat)
    requires y < y'
    ensures y * w + w <= y' * w
  {
    assert y' * w == y * w + (y' - y) * w;
    assert (y' - y) * w == w + (y' - y - 1) * w;
  }

  /** A character changes the cell below the cursor and no other. */
  lemma PutChanges(t: Screen, ch: seq<Byte>, x: nat, y: nat)
    requires t.Valid() && x < t.width && y < t.height
    ensures CellAt(Put(t, ch), x, y)
         == if x == t.cx && y == t.cy then Cell(ch, t.pen.fg, t.pen.bg, t.pen.attrs) else CellAt(t, x, y)
  {
    if t.OnScreen() && Index(t.width, t.height, t.cx, t.cy) == Index(t.width, t.height, x, y) {
      IndexApart(t.width, t.height, t.cx, t.cy, x, y);
    }
  }

  lemma CharacterDoes(t: Screen, ch: seq<Byte>)
    requires t.Valid() && ValidChar(ch)
    ensures Does(t, ch, Put(t, ch))
  {
    forall rest ensures Run(t, ch + rest) == Run(Put(t, ch), rest) { StepGlyph(t, ch, rest); }
  }

  // ----- what a graph is drawn with -----

  /** A sequence that gives text this colour and changes nothing else. */
  ghost predicate Tints(g: seq<Byte>, colour: nat) {
    forall t: Screen, u: Screen {:trigger Does(t, g, u)} ::
      t.Valid() && u == t.(pen := t.pen.(fg := colour)) ==> Does(t, g, u)
  }

  /** As the themes write their gradients: a truecolour foreground. */
  lemma TruecolourTints(r: nat, g: nat, b: nat)
    ensures Tints(Sequence([38, 2, r, g, b], SGR), PackRgb(r, g, b))
  {
    var params := [38, 2, r, g, b];
    forall t: Screen, u: Screen | t.Valid() && u == t.(pen := t.pen.(fg := PackRgb(r, g, b)))
      ensures Does(t, Sequence(params, SGR), u)
    {
      assert Rendition(t.pen, params, 0) == Rendition(u.pen, params, 5);
      SequenceDoes(t, params, SGR, u);
    }
  }

  lemma NothingDoes(t: Screen)
    requires t.Valid()
    ensures Does(t, [], t)
  {
    forall rest ensures Run(t, [] + rest) == Run(t, rest) { assert [] + rest == rest; }
  }

  // ----- pictures of several lines -----

  /** Characters in lines of equal width, and for each line a sequence that sets its colour. */
  datatype Picture = Picture(width: nat, lines: seq<seq<seq<Byte>>>, coloured: bool, inks: seq<seq<Byte>>,
                             colours: seq<nat>) {
    ghost predicate Valid() {
      && |inks| == |colours| == |lines|
      && (forall r :: 0 <= r < |lines| ==> IsLine(lines[r], width))
      && (forall r :: 0 <= r < |inks| ==> Tints(inks[r], colours[r]))
    }

    /** The pen line `r` is drawn with. */
    function LinePen(pen: Pen, r: nat): Pen
      requires r < |colours|
    {
      if coloured then pen.(fg := colours[r]) else pen
    }

    /** The cell that shows column `j` of line `r`. */
    function Drawn(pen: Pen, j: nat, r: nat): Cell
      requires r < |lines| == |colours| && j < |lines[r]|
    {
      Cell(lines[r][j], LinePen(pen, r).fg, pen.bg, pen.attrs)
    }

    function Ink(r: nat): seq<Byte>
      requires r < |inks|
    {
      if coloured then inks[r] else []
    }

    /** Line `r`: a move below the start of the one before, its colour, its characters. */
    function LineBytes(r: nat): seq<Byte>
      requires r < |lines| == |inks|
    {
      (if r > 0 then DOWN_ONE + LeftBy(width) else []) + Ink(r) + Joined(lines[r])
    }

    function LinesFrom(r: nat): seq<Byte>
      requires r <= |lines| == |inks|
      decreases |lines| - r
    {
      if r == |lines| then [] else LineBytes(r) + LinesFrom(r + 1)
    }
  }

  predicate IsLine(line: seq<seq<Byte>>, width: nat) {
    |line| == width && width > 0 && forall j :: 0 <= j < |line| ==> ValidChar(line[j])
  }

  function Joined(chars: seq<seq<Byte>>): seq<Byte> {
    if chars == [] then [] else chars[0] + Joined(chars[1..])
  }

  /** `u` is `t` with these characters drawn at the cursor, which ends up behind them. */
  ghost predicate CharactersDrawn(t: Screen, u: Screen, chars: seq<seq<Byte>>) {
    && t.Valid() && u.Valid() && u == t.(cells := u.cells, cx := t.cx + |chars|)
    && forall x: nat, y: nat {:trigger CellAt(u, x, y)} :: x < t.width && y < t.height ==>
         CellAt(u, x, y)
         == if y == t.cy && t.cx <= x < t.cx + |chars|
            then Cell(chars[x - t.cx], t.pen.fg, t.pen.bg, t.pen.attrs)
            else CellAt(t, x, y)
  }

  lemma FirstCharacter(t: Screen, u: Screen, chars: seq<seq<Byte>>)
    requires t.Valid() && chars != [] && CharactersDrawn(Put(t, chars[0]), u, chars[1..])
    ensures CharactersDrawn(t, u, chars)
  {
    var v := Put(t, chars[0]);
    forall x: nat, y: nat | x < t.width && y < t.height
      ensures CellAt(u, x, y)
           == if y == t.cy && t.cx <= x < t.cx + |chars|
              then Cell(chars[x - t.cx], t.pen.fg, t.pen.bg, t.pen.attrs)
              else CellAt(t, x, y)
    {
      PutChanges(t, chars[0], x, y);
      if y == t.cy && t.cx < x < t.cx + |chars| { assert chars[1..][x - v.cx] == chars[x - t.cx]; }
    }
  }

  lemma {:induction false} CharactersDo(t: Screen, chars: seq<seq<Byte>>) returns (u: Screen)
    requires t.Valid() && forall j :: 0 <= j < |chars| ==> ValidChar(chars[j])
    ensures Does(t, Joined(chars), u) && CharactersDrawn(t, u, chars)
    decreases |chars|
  {
    if chars == [] {
      u := t;
      NothingDoes(t);
    } else {
      CharacterDoes(t, chars[0]);
      u := CharactersDo(Put(t, chars[0]), chars[1..]);
      ThenDoes(t, chars[0], Put(t, chars[0]), Joined(chars[1..]), u);
      FirstCharacter(t, u, chars);
    }
  }

  /** Where a line starts: the first at the cursor, each other one below the start of the one before. */
  function LineStart(t: Screen, width: nat, r: nat): (u: Screen)
    requires t.Valid()
    ensures u.Valid()
  {
    if r == 0 then t else t.(cx := t.cx - width, cy := t.cy + 1)
  }

  lemma LineMoves(t: Screen, width: nat, r: nat)
    requires t.Valid() && width > 0
    ensures Does(t, if r > 0 then DOWN_ONE + LeftBy(width) else [], LineStart(t, width, r))
  {
    if r == 0 {
      NothingDoes(t);
    } else {
      var below := t.(cy := t.cy + 1);
      assert DOWN_ONE == Sequence([1], DOWN) && LeftBy(width) == Sequence([width], LEFT);
      SequenceDoes(t, [1], DOWN, below);
      SequenceDoes(below, [width], LEFT, LineStart(t, width, r));
      ThenDoes(t, DOWN_ONE, below, LeftBy(width), LineStart(t, width, r));
    }
  }

  lemma InkDoes(t: Screen, p: Picture, r: nat)
    requires t.Valid() && p.Valid() && r < |p.lines|
    ensures Does(t, p.Ink(r), t.(pen := p.LinePen(t.pen, r)))
  {
    if p.coloured {
      assert Tints(p.inks[r], p.colours[r]);
    } else {
      NothingDoes(t);
    }
  }

  lemma NextStart(t: Screen, v: Screen, p: Picture, r: nat)
    requires t.Valid() && p.Valid() && r < |p.lines|
    requires CharactersDrawn(LineStart(t, p.width, r).(pen := p.LinePen(t.pen, r)), v, p.lines[r])
    ensures LineStart(v, p.width, r + 1)
         == v.(cx := LineStart(t, p.width, r).cx, cy := LineStart(t, p.width, r).cy + 1)
  {
    assert IsLine(p.lines[r], p.width);
  }

  lemma LineDoes(t: Screen, p: Picture, r: nat) returns (u: Screen)
    requires t.Valid() && p.Valid() && r < |p.lines|
    ensures Does(t, p.LineBytes(r), u)
    ensures CharactersDrawn(LineStart(t, p.width, r).(pen := p.LinePen(t.pen, r)), u, p.lines[r])
    ensures LineStart(u, p.width, r + 1)
         == u.(cx := LineStart(t, p.width, r).cx, cy := LineStart(t, p.width, r).cy + 1)
  {
    var start := LineStart(t, p.width, r);
    var ready := start.(pen := p.LinePen(t.pen, r));
    var moves := if r > 0 then DOWN_ONE + LeftBy(p.width) else [];
    assert IsLine(p.lines[r], p.width);
    LineMoves(t, p.width, r);
    InkDoes(start, p, r);
    ThenDoes(t, moves, start, p.Ink(r), ready);
    u := CharactersDo(ready, p.lines[r]);
    ThenDoes(t, moves + p.Ink(r), ready, Joined(p.lines[r]), u);
    NextStart(t, u, p, r);
  }

  /**
   Where the lines from `r` on are drawn over `t`, the first of all lines starting at column `x0` of row `y0`, the cell
   at `x` and `y` of the outcome `u` is the picture's, and elsewhere it is still that of `t`.
   */
  ghost predicate LinesDrawn(t: Screen, u: Screen, p: Picture, r: nat, x0: int, y0: int, x: nat, y: nat)
    requires p.Valid()
  {
    && t.Valid() && u.Valid() && u.width == t.width && u.height == t.height && x < t.width && y < t.height
    && u.pen.bg == t.pen.bg && u.pen.attrs == t.pen.attrs && (!p.coloured ==> u.pen == t.pen)
    && CellAt(u, x, y)
       == if x0 <= x < x0 + p.width && y0 + r <= y < y0 + |p.lines|
          then Shown(p, t.pen, x - x0, y - y0)
          else CellAt(t, x, y)
  }

  function Shown(p: Picture, pen: Pen, j: nat, r: nat): Cell {
    if r < |p.lines| == |p.colours| && j < |p.lines[r]| then p.Drawn(pen, j, r) else BLANK
  }

  /** One more line on top of those below it. */
  lemma LineAbove(t: Screen, v: Screen, u: Screen, p: Picture, r: nat, x0: int, y0: int, x: nat, y: nat)
    requires t.Valid() && p.Valid() && r < |p.lines|
    requires LineStart(t, p.width, r).cx == x0 && LineStart(t, p.width, r).cy == y0 + r
    requires CharactersDrawn(LineStart(t, p.width, r).(pen := p.LinePen(t.pen, r)), v, p.lines[r])
    requires LinesDrawn(v, u, p, r + 1, x0, y0, x, y)
    ensures LinesDrawn(t, u, p, r, x0, y0, x, y)
  {
    assert IsLine(p.lines[r], p.width);
    assert CellAt(v, x, y) == CellAt(v, x, y);
  }

  /** One line and then those below it. */
  lemma LineJoins(t: Screen, v: Screen, u: Screen, p: Picture, r: nat)
    requires p.Valid() && r < |p.lines| && Does(t, p.LineBytes(r), v) && Does(v, p.LinesFrom(r + 1), u)
    ensures Does(t, p.LinesFrom(r), u)
  {
    ThenDoes(t, p.LineBytes(r), v, p.LinesFrom(r + 1), u);
  }

  lemma {:induction false} LinesDo(t: Screen, p: Picture, r: nat, x0: int, y0: int, x: nat, y: nat)
    returns (u: Screen)
    requires t.Valid() && p.Valid() && r <= |p.lines| && x < t.width && y < t.height
    requires r < |p.lines| ==> LineStart(t, p.width, r).cx == x0 && LineStart(t, p.width, r).cy == y0 + r
    ensures Does(t, p.LinesFrom(r), u) && LinesDrawn(t, u, p, r, x0, y0, x, y)
    decreases |p.lines| - r
  {
    if r == |p.lines| {
      u := t;
      NothingDoes(t);
    } else {
      var v := LineDoes(t, p, r);
      u := LinesDo(v, p, r + 1, x0, y0, x, y);
      LineAbove(t, v, u, p, r, x0, y0, x, y);
      LineJoins(t, v, u, p, r);
    }
  }

  // ----- graphs of several rows -----

  ghost predicate SymbolsAreCharacters(s: Style) {
    s.Valid() && forall k :: 0 <= k < 25 ==> ValidChar(s.symbols[k])
  }

  /** Symbols are single characters, gradient entries set the colours given, and the reset is the code 0. */
  ghost predicate Drawable(s: Style, colours: seq<nat>) {
    && SymbolsAreCharacters(s) && |colours| == 101 && s.reset == Sequence([0], SGR)
    && (forall k :: 0 <= k < 101 ==> Tints(s.gradient[k], colours[k]))
  }

  /** In a graph of several rows, every column is one character. */
  lemma ColumnIsCharacter(s: Style, g: Graphs.Glyph, row: nat)
    requires SymbolsAreCharacters(s) && s.height > 1 && row < s.height
    ensures ValidChar(GlyphBytes(s, g, row))
  {
    if g.Pair? {
      var left := s.level(g.before, row, if g.first then 0 else s.Least(row));
      var right := s.level(g.value, row, s.Least(row));
      assert left * 5 + right < 25;
      assert GlyphBytes(s, g, row) == s.symbols[left * 5 + right];
    }
  }

  /** Line `r` from the top shows this row of the graph; an inverted one is printed from its last row up. */
  function RowOfLine(s: Style, r: nat): nat
    requires r < s.height
  {
    if s.invert then s.height - 1 - r else r
  }

  /** How far up the gradient the colour of line `i` lies, in percent. */
  function Shade(s: Style, i: nat): (p: nat)
    requires 0 < i <= s.height
    ensures p <= 100
  {
    if s.invert then Percent(i, s.height) else 100 - Percent(i - 1, s.height)
  }

  function Columns(s: Style, gs: seq<Graphs.Glyph>, row: nat): (chars: seq<seq<Byte>>)
    requires s.Valid()
    ensures |chars| == |gs| && forall j :: 0 <= j < |gs| ==> chars[j] == GlyphBytes(s, gs[j], row)
  {
    seq(|gs|, (j: nat) requires j < |gs| => GlyphBytes(s, gs[j], row))
  }

  /** A graph as a picture: `colours` are those of its gradient. */
  function PictureOf(s: Style, colours: seq<nat>, gs: seq<Graphs.Glyph>): (p: Picture)
    requires s.Valid() && |colours| == 101
    ensures |p.lines| == |p.inks| == |p.colours| == s.height && p.width == s.width && p.coloured == s.useGradient
    ensures forall r :: 0 <= r < s.height ==> p.lines[r] == Columns(s, gs, RowOfLine(s, r))
    ensures forall r :: 0 <= r < s.height ==> p.inks[r] == s.gradient[Shade(s, r + 1)]
    ensures forall r :: 0 <= r < s.height ==> p.colours[r] == colours[Shade(s, r + 1)]
  {
    Picture(s.width, seq(s.height, (r: nat) requires r < s.height => Columns(s, gs, RowOfLine(s, r))), s.useGradient,
            seq(s.height, (r: nat) requires r < s.height => s.gradient[Shade(s, r + 1)]),
            seq(s.height, (r: nat) requires r < s.height => colours[Shade(s, r + 1)]))
  }

  lemma PictureIsValid(s: Style, colours: seq<nat>, gs: seq<Graphs.Glyph>)
    requires Drawable(s, colours) && s.height > 1 && |gs| == s.width
    ensures PictureOf(s, colours, gs).Valid()
  {
    var p := PictureOf(s, colours, gs);
    forall r | 0 <= r < |p.lines| ensures IsLine(p.lines[r], p.width) {
      forall j | 0 <= j < |gs| ensures ValidChar(p.lines[r][j]) { ColumnIsCharacter(s, gs[j], RowOfLine(s, r)); }
    }
  }

  lemma {:induction false} RowIsJoined(s: Style, gs: seq<Graphs.Glyph>, row: nat)
    requires s.Valid()
    ensures RowBytes(s, gs, row) == Joined(Columns(s, gs, row))
  {
    if gs == [] {
    } else {
      RowIsJoined(s, gs[1..], row);
      assert Columns(s, gs, row)[1..] == Columns(s, gs[1..], row);
    }
  }

  lemma LineIsPictures(s: Style, rows: seq<seq<Byte>>, p: Picture, r: nat)
    requires |rows| == s.height == |p.lines| == |p.inks| && |s.gradient| == 101 && r < s.height
    requires p.width == s.width && p.coloured == s.useGradient && p.inks[r] == s.gradient[Shade(s, r + 1)]
    requires rows[RowOfLine(s, r)] == Joined(p.lines[r])
    ensures Line(s, rows, r + 1) == p.LineBytes(r)
  {
  }

  /** Every line of the output is that of the picture. */
  ghost predicate Prints(s: Style, rows: seq<seq<Byte>>, p: Picture) {
    && |rows| == s.height == |p.lines| == |p.inks| && |s.gradient| == 101
    && forall r :: 0 <= r < s.height ==> Line(s, rows, r + 1) == p.LineBytes(r)
  }

  lemma GraphPrints(s: Style, colours: seq<nat>, gs: seq<Graphs.Glyph>)
    requires s.Valid() && |colours| == 101
    ensures Prints(s, Rows(s, gs), PictureOf(s, colours, gs))
  {
    forall r | 0 <= r < s.height ensures Line(s, Rows(s, gs), r + 1) == PictureOf(s, colours, gs).LineBytes(r) {
      RowIsJoined(s, gs, RowOfLine(s, r));
      LineIsPictures(s, Rows(s, gs), PictureOf(s, colours, gs), r);
    }
  }

  lemma {:induction false} LinesArePictures(s: Style, rows: seq<seq<Byte>>, p: Picture, r: nat)
    requires Prints(s, rows, p) && r <= s.height
    ensures OutFrom(s, rows, r + 1) == p.LinesFrom(r)
    decreases s.height - r
  {
    if r < s.height {
      LinesArePictures(s, rows, p, r + 1);
    }
  }

  /** The reset at the end of a coloured graph leaves the cells alone. */
  lemma ResetDoes(t: Screen, s: Style, colours: seq<nat>) returns (u: Screen)
    requires t.Valid() && Drawable(s, colours)
    ensures Does(t, if s.useGradient then s.reset else [], u) && u.Valid() && u == t.(pen := u.pen)
  {
    if s.useGradient {
      u := Control(t, SGR, [0]);
      SequenceDoes(t, [0], SGR, u);
    } else {
      u := t;
      NothingDoes(t);
    }
  }

  lemma WholeDoes(t: Screen, s: Style, colours: seq<nat>, bytes: seq<Byte>, u: Screen) returns (v: Screen)
    requires t.Valid() && u.Valid() && Drawable(s, colours) && Does(t, bytes, u)
    ensures v == u.(pen := v.pen) && Run(t, bytes + if s.useGradient then s.reset else []) == v
  {
    v := ResetDoes(u, s, colours);
    var reset := if s.useGradient then s.reset else [];
    ThenDoes(t, bytes, u, reset, v);
    DoesAlone(t, bytes + reset, v);
  }

  lemma OutIsPicture(s: Style, colours: seq<nat>, gs: seq<Graphs.Glyph>)
    requires s.Valid() && |colours| == 101 && s.height > 1
    ensures Out(s, Rows(s, gs)) == PictureOf(s, colours, gs).LinesFrom(0) + if s.useGradient then s.reset else []
  {
    GraphPrints(s, colours, gs);
    LinesArePictures(s, Rows(s, gs), PictureOf(s, colours, gs), 0);
  }

  lemma RowsDo(t: Screen, s: Style, colours: seq<nat>, gs: seq<Graphs.Glyph>, x: nat, y: nat)
    returns (u: Screen, v: Screen)
    requires t.Valid() && Drawable(s, colours) && s.height > 1 && |gs| == s.width && x < t.width && y < t.height
    ensures PictureOf(s, colours, gs).Valid() && LinesDrawn(t, u, PictureOf(s, colours, gs), 0, t.cx, t.cy, x, y)
    ensures v == u.(pen := v.pen) && Run(t, Out(s, Rows(s, gs))) == v
  {
    var p := PictureOf(s, colours, gs);
    PictureIsValid(s, colours, gs);
    u := LinesDo(t, p, 0, t.cx, t.cy, x, y);
    v := WholeDoes(t, s, colours, p.LinesFrom(0), u);
    OutIsPicture(s, colours, gs);
  }

  /** The cell that shows column `j` in line `r` of a graph. */
  function ColumnCell(s: Style, colours: seq<nat>, pen: Pen, g: Graphs.Glyph, r: nat): Cell
    requires s.Valid() && |colours| == 101 && r < s.height
  {
    var fg := if s.useGradient then colours[Shade(s, r + 1)] else pen.fg;
    Cell(GlyphBytes(s, g, RowOfLine(s, r)), fg, pen.bg, pen.attrs)
  }

  lemma ShownIsColumn(s: Style, colours: seq<nat>, pen: Pen, gs: seq<Graphs.Glyph>, j: nat, r: nat)
    requires s.Valid() && |colours| == 101 && j < |gs| && r < s.height
    ensures Shown(PictureOf(s, colours, gs), pen, j, r) == ColumnCell(s, colours, pen, gs[j], r)
  {
  }

  /** What the lines drawn say about one cell, whatever becomes of the pen afterwards. */
  lemma RowsShown(t: Screen, u: Screen, v: Screen, p: Picture, x: nat, y: nat)
    requires p.Valid() && LinesDrawn(t, u, p, 0, t.cx, t.cy, x, y) && v == u.(pen := v.pen)
    ensures CellAt(v, x, y)
         == if t.cx <= x < t.cx + p.width && t.cy <= y < t.cy + |p.lines|
            then Shown(p, t.pen, x - t.cx, y - t.cy)
            else CellAt(t, x, y)
  {
    assert CellAt(v, x, y) == CellAt(u, x, y);
  }

  lemma RowsCell(t: Screen, u: Screen, v: Screen, s: Style, colours: seq<nat>, gs: seq<Graphs.Glyph>, x: nat, y: nat)
    requires Drawable(s, colours) && |gs| == s.width && PictureOf(s, colours, gs).Valid()
    requires LinesDrawn(t, u, PictureOf(s, colours, gs), 0, t.cx, t.cy, x, y) && v == u.(pen := v.pen)
    ensures CellAt(v, x, y)
         == if t.cx <= x < t.cx + s.width && t.cy <= y < t.cy + s.height
            then ColumnCell(s, colours, t.pen, gs[x - t.cx], y - t.cy)
            else CellAt(t, x, y)
  {
    RowsShown(t, u, v, PictureOf(s, colours, gs), x, y);
    if t.cx <= x < t.cx + s.width && t.cy <= y < t.cy + s.height {
      ShownIsColumn(s, colours, t.pen, gs, x - t.cx, y - t.cy);
    }
  }

  /**
   Interpreting a graph of several rows: its columns and lines fill the rectangle at the cursor, upright or upside
   down, each line in its shade of the gradient; no other cell changes.
   */
  lemma PictureOfRows(t: Screen, s: Style, colours: seq<nat>, gs: seq<Graphs.Glyph>, x: nat, y: nat)
    requires t.Valid() && Drawable(s, colours) && s.height > 1 && |gs| == s.width && x < t.width && y < t.height
    ensures CellAt(Run(t, Out(s, Rows(s, gs))), x, y)
         == if t.cx <= x < t.cx + s.width && t.cy <= y < t.cy + s.height
            then ColumnCell(s, colours, t.pen, gs[x - t.cx], y - t.cy)
            else CellAt(t, x, y)
  {
    var u, v := RowsDo(t, s, colours, gs, x, y);
    RowsCell(t, u, v, s, colours, gs, x, y);
  }

  // ----- graphs of one row -----

  /** A column of a one-row graph that draws nothing. */
  ghost predicate DrawsNothing(s: Style, g: Graphs.Glyph)
    requires s.Valid()
  {
    g.Pair? ==> s.level(g.before, 0, if g.first then 0 else s.Least(0)) == 0 && s.level(g.value, 0, s.Least(0)) == 0
  }

  /** Any other column: its symbol, in the colour of its higher percentage if the graph has colours. */
  function Column(s: Style, colours: seq<nat>, pen: Pen, g: Graphs.Glyph): Cell
    requires s.Valid() && |colours| == 101 && g.Pair?
  {
    var left := s.level(g.before, 0, if g.first then 0 else s.Least(0));
    var right := s.level(g.value, 0, s.Least(0));
    var fg := if s.useGradient then colours[Clamp(Max(g.before, g.value), 0, 100)] else pen.fg;
    Cell(s.symbols[left * 5 + right], fg, pen.bg, pen.attrs)
  }

  /** `u` is `t` with these columns drawn at the cursor, which ends up behind them; empty ones leave their cells. */
  ghost predicate ColumnsDrawn(t: Screen, u: Screen, s: Style, colours: seq<nat>, gs: seq<Graphs.Glyph>)
    requires s.Valid() && |colours| == 101
  {
    && t.Valid() && u.Valid() && u.width == t.width && u.height == t.height
    && u.cx == t.cx + |gs| && u.cy == t.cy
    && u.pen.bg == t.pen.bg && u.pen.attrs == t.pen.attrs && (!s.useGradient ==> u.pen == t.pen)
    && forall x: nat, y: nat {:trigger CellAt(u, x, y)} :: x < t.width && y < t.height ==>
         CellAt(u, x, y)
         == if y == t.cy && t.cx <= x < t.cx + |gs| && !DrawsNothing(s, gs[x - t.cx])
            then Column(s, colours, t.pen, gs[x - t.cx])
            else CellAt(t, x, y)
  }

  lemma ShadeDoes(t: Screen, s: Style, colours: seq<nat>, shade: nat)
    requires t.Valid() && Drawable(s, colours) && shade <= 100
    ensures Does(t, if s.useGradient then s.gradient[shade] else [],
                 t.(pen := if s.useGradient then t.pen.(fg := colours[shade]) else t.pen))
  {
    if s.useGradient {
      assert Tints(s.gradient[shade], colours[shade]);
    } else {
      NothingDoes(t);
    }
  }

  lemma EmptyColumnDoes(t: Screen, s: Style, colours: seq<nat>, g: Graphs.Glyph) returns (u: Screen)
    requires t.Valid() && Drawable(s, colours) && s.height == 1 && DrawsNothing(s, g)
    ensures Does(t, GlyphBytes(s, g, 0), u) && ColumnsDrawn(t, u, s, colours, [g])
  {
    u := t.(cx := t.cx + 1);
    assert RIGHT_ONE == Sequence([1], RIGHT);
    SequenceDoes(t, [1], RIGHT, u);
    forall x: nat, y: nat | x < t.width && y < t.height ensures CellAt(u, x, y) == CellAt(t, x, y) { }
  }

  /** The screen with a column's colour in the pen. */
  function Inked(t: Screen, s: Style, colours: seq<nat>, g: Graphs.Glyph): (u: Screen)
    requires t.Valid() && |colours| == 101 && g.Pair?
    ensures u.Valid()
  {
    t.(pen := if s.useGradient then t.pen.(fg := colours[Clamp(Max(g.before, g.value), 0, 100)]) else t.pen)
  }

  lemma ColumnParts(t: Screen, s: Style, colours: seq<nat>, g: Graphs.Glyph)
    requires t.Valid() && Drawable(s, colours) && s.height == 1 && !DrawsNothing(s, g)
    ensures var ch := Column(s, colours, t.pen, g).ch;
      ValidChar(ch)
      && GlyphBytes(s, g, 0) == (if s.useGradient then s.gradient[Clamp(Max(g.before, g.value), 0, 100)] else []) + ch
  {
  }

  lemma ColumnDoes(t: Screen, s: Style, colours: seq<nat>, g: Graphs.Glyph) returns (u: Screen)
    requires t.Valid() && Drawable(s, colours) && s.height == 1 && !DrawsNothing(s, g)
    ensures Does(t, GlyphBytes(s, g, 0), u) && ColumnsDrawn(t, u, s, colours, [g])
  {
    var ch, inked := Column(s, colours, t.pen, g).ch, Inked(t, s, colours, g);
    u := Put(inked, ch);
    OneColumn(t, inked, s, colours, g);
    ColumnParts(t, s, colours, g);
    CharacterDoes(inked, ch);
    ShadeDoes(t, s, colours, Clamp(Max(g.before, g.value), 0, 100));
    ThenDoes(t, if s.useGradient then s.gradient[Clamp(Max(g.before, g.value), 0, 100)] else [], inked, ch, u);
  }

  lemma OneColumn(t: Screen, inked: Screen, s: Style, colours: seq<nat>, g: Graphs.Glyph)
    requires t.Valid() && s.Valid() && |colours| == 101 && !DrawsNothing(s, g)
    requires var c := Column(s, colours, t.pen, g); inked == t.(pen := Pen(c.fg, c.bg, c.attrs))
    ensures ColumnsDrawn(t, Put(inked, Column(s, colours, t.pen, g).ch), s, colours, [g])
  {
    var c := Column(s, colours, t.pen, g);
    var u := Put(inked, c.ch);
    forall x: nat, y: nat | x < t.width && y < t.height
      ensures CellAt(u, x, y) == if x == t.cx && y == t.cy then c else CellAt(t, x, y)
    {
      PutChanges(inked, c.ch, x, y);
    }
  }

  lemma ColumnBefore(t: Screen, v: Screen, u: Screen, s: Style, colours: seq<nat>, gs: seq<Graphs.Glyph>)
    requires s.Valid() && |colours| == 101 && gs != []
    requires ColumnsDrawn(t, v, s, colours, gs[..1]) && ColumnsDrawn(v, u, s, colours, gs[1..])
    ensures ColumnsDrawn(t, u, s, colours, gs)
  {
    forall x: nat, y: nat | x < t.width && y < t.height
      ensures CellAt(u, x, y)
           == if y == t.cy && t.cx <= x < t.cx + |gs| && !DrawsNothing(s, gs[x - t.cx])
              then Column(s, colours, t.pen, gs[x - t.cx])
              else CellAt(t, x, y)
    {
      assert CellAt(v, x, y) == CellAt(v, x, y);
      if y == t.cy && t.cx < x < t.cx + |gs| { assert gs[1..][x - v.cx] == gs[x - t.cx]; }
    }
  }

  lemma {:induction false} ColumnsDo(t: Screen, s: Style, colours: seq<nat>, gs: seq<Graphs.Glyph>)
    returns (u: Screen)
    requires t.Valid() && Drawable(s, colours) && s.height == 1
    ensures Does(t, RowBytes(s, gs, 0), u) && ColumnsDrawn(t, u, s, colours, gs)
    decreases |gs|
  {
    if gs == [] {
      u := t;
      NothingDoes(t);
    } else {
      var v;
      if DrawsNothing(s, gs[0]) {
        v := EmptyColumnDoes(t, s, colours, gs[0]);
      } else {
        v := ColumnDoes(t, s, colours, gs[0]);
      }
      u := ColumnsDo(v, s, colours, gs[1..]);
      ThenDoes(t, GlyphBytes(s, gs[0], 0), v, RowBytes(s, gs[1..], 0), u);
      assert gs[..1] == [gs[0]];
      ColumnBefore(t, v, u, s, colours, gs);
    }
  }

  lemma RowAlone(t: Screen, s: Style, colours: seq<nat>, gs: seq<Graphs.Glyph>) returns (u: Screen, v: Screen)
    requires t.Valid() && Drawable(s, colours) && s.height == 1
    ensures ColumnsDrawn(t, u, s, colours, gs) && v == u.(pen := v.pen)
    ensures Run(t, Out(s, Rows(s, gs))) == v
  {
    u := ColumnsDo(t, s, colours, gs);
    v := WholeDoes(t, s, colours, RowBytes(s, gs, 0), u);
  }

  /**
   Interpreting a graph of one row: its columns fill the row from the cursor on; a column that draws nothing leaves
   its cell as it was, and no other cell changes.
   */
  lemma PictureOfOneRow(t: Screen, s: Style, colours: seq<nat>, gs: seq<Graphs.Glyph>, x: nat, y: nat)
    requires t.Valid() && Drawable(s, colours) && s.height == 1 && x < t.width && y < t.height
    ensures CellAt(Run(t, Out(s, Rows(s, gs))), x, y)
         == if y == t.cy && t.cx <= x < t.cx + |gs| && !DrawsNothing(s, gs[x - t.cx])
            then Column(s, colours, t.pen, gs[x - t.cx])
            else CellAt(t, x, y)
  {
    var u, v := RowAlone(t, s, colours, gs);
    assert CellAt(u, x, y) == CellAt(v, x, y);
  }
}
