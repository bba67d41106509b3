/**
 What control sequences do to a screen, as laws between byte strings: relative moves against absolute ones, moves
 that undo each other, defaults, line breaks, and the ways to select the same colours and attributes.
 */
module CursorLaws {
  import opened Arithmetic
  import opened Bytes
  import opened Cells
  import opened Collections
  import opened Interpreter
  import opened Tokens

  const UP: Byte := 65
  const DOWN: Byte := 66
  const RIGHT: Byte := 67
  const LEFT: Byte := 68

  /** A control sequence with parameters. */
  function Sequence(params: seq<nat>, fin: Byte): seq<Byte>
    requires params != []
  {
    [ESC, OPEN] + Args(params) + [fin]
  }

  /** A control sequence without parameters. */
  function Bare(fin: Byte): seq<Byte> {
    [ESC, OPEN, fin]
  }

  // ----- effects -----

  /** Interpreting `s` turns `t` into `u`, whatever follows. */
  ghost predicate Does(t: Screen, s: seq<Byte>, u: Screen) {
    t.Valid() && u.Valid() && forall rest {:trigger Run(t, s + rest)} :: Run(t, s + rest) == Run(u, rest)
  }

  /** On `t`, the two strings have the same effect, whatever follows. */
  ghost predicate SameEffect(t: Screen, a: seq<Byte>, b: seq<Byte>)
    requires t.Valid()
  {
    forall rest {:trigger Run(t, a + rest)} :: Run(t, a + rest) == Run(t, b + rest)
  }

  lemma TokenDoes(t: Screen, tok: Token, s: seq<Byte>, u: Screen)
    requires t.Valid() && Complete(tok) && s == TokenBytes(tok) && u == Apply(t, tok)
    ensures Does(t, s, u)
  {
    forall rest ensures Run(t, s + rest) == Run(u, rest) { StepToken(t, tok, rest); }
  }

  lemma SequenceDoes(t: Screen, params: seq<nat>, fin: Byte, u: Screen)
    requires t.Valid() && params != [] && 0x40 <= fin <= 0x7E && u == Control(t, fin, params)
    ensures Does(t, Sequence(params, fin), u)
  {
    ApplyPrinted(t, params, fin);
    assert TokenBytes(Csi(false, Args(params), fin)) == Sequence(params, fin);
    TokenDoes(t, Csi(false, Args(params), fin), Sequence(params, fin), u);
  }

  lemma BareDoes(t: Screen, fin: Byte, u: Screen)
    requires t.Valid() && 0x40 <= fin <= 0x7E && u == Control(t, fin, [])
    ensures Does(t, Bare(fin), u)
  {
    assert TokenBytes(Csi(false, [], fin)) == Bare(fin);
    TokenDoes(t, Csi(false, [], fin), Bare(fin), u);
  }

  lemma ThenDoes(t: Screen, a: seq<Byte>, u: Screen, b: seq<Byte>, v: Screen)
    requires Does(t, a, u) && Does(u, b, v)
    ensures Does(t, a + b, v)
  {
    forall rest ensures Run(t, a + b + rest) == Run(v, rest) {
      Regroup(a, b, rest);
    }
  }

  lemma BothDo(t: Screen, a: seq<Byte>, b: seq<Byte>, u: Screen)
    requires Does(t, a, u) && Does(t, b, u)
    ensures SameEffect(t, a, b)
  {
  }

  /** What interpreting `s` leaves if nothing follows. */
  lemma DoesAlone(t: Screen, s: seq<Byte>, u: Screen)
    requires Does(t, s, u)
    ensures Run(t, s) == u
  {
    assert s + [] == s;
    assert Run(t, s + []) == Run(u, []);
  }

  // ----- moves -----

  /** An absolute move has the effect of the move home followed by moves down and to the right. */
  lemma AbsoluteIsRelative(t: Screen, r: nat, c: nat)
    requires t.Valid() && r >= 2 && c >= 2
    ensures SameEffect(t, Sequence([r, c], HVP),
                       Sequence([1, 1], HVP) + Sequence([r - 1], DOWN) + Sequence([c - 1], RIGHT))
  {
    var home := t.(cy := 0, cx := 0);
    var row := home.(cy := r - 1);
    var there := row.(cx := c - 1);
    SequenceDoes(t, [r, c], HVP, there);
    SequenceDoes(t, [1, 1], HVP, home);
    SequenceDoes(home, [r - 1], DOWN, row);
    SequenceDoes(row, [c - 1], RIGHT, there);
    ThenDoes(t, Sequence([1, 1], HVP), home, Sequence([r - 1], DOWN), row);
    ThenDoes(t, Sequence([1, 1], HVP) + Sequence([r - 1], DOWN), row, Sequence([c - 1], RIGHT), there);
    BothDo(t, Sequence([r, c], HVP), Sequence([1, 1], HVP) + Sequence([r - 1], DOWN) + Sequence([c - 1], RIGHT), there);
  }

  /** Moving up undoes moving down, and moving left undoes moving right, by any distance. */
  lemma MovesUndo(t: Screen, n: nat, there: Byte, back: Byte)
    requires t.Valid() && (there, back) in {(DOWN, UP), (UP, DOWN), (RIGHT, LEFT), (LEFT, RIGHT)}
    ensures Does(t, Sequence([n], there) + Sequence([n], back), t)
  {
    var u := Control(t, there, [n]);
    SequenceDoes(t, [n], there, u);
    SequenceDoes(u, [n], back, t);
    ThenDoes(t, Sequence([n], there), u, Sequence([n], back), t);
  }

  lemma MoveDoes(t: Screen, r: nat, c: nat, s: seq<Byte>, u: Screen)
    requires t.Valid() && Does(t.(cy := r - 1, cx := c - 1), s, u)
    ensures Does(t, Sequence([r, c], HVP) + s, u)
  {
    SequenceDoes(t, [r, c], HVP, t.(cy := r - 1, cx := c - 1));
    ThenDoes(t, Sequence([r, c], HVP), t.(cy := r - 1, cx := c - 1), s, u);
  }

  lemma PutLands(t: Screen, ch: seq<Byte>)
    requires t.Valid()
    ensures if t.OnScreen() then
        var k := t.cy * t.width + t.cx;
        0 <= k < |t.cells| && Put(t, ch).cells == t.cells[k := Cell(ch, t.pen.fg, t.pen.bg, t.pen.attrs)]
      else Put(t, ch).cells == t.cells
  {
    if t.OnScreen() { assert Index(t.width, t.height, t.cx, t.cy) == t.cy * t.width + t.cx; }
  }

  /** A character after an absolute move lands in that row and column, counted from 1, or nowhere. */
  lemma CharacterLands(t: Screen, r: nat, c: nat, ch: seq<Byte>)
    requires t.Valid() && ValidChar(ch)
    ensures var after := Run(t, Sequence([r, c], HVP) + ch).cells;
      if 1 <= r <= t.height && 1 <= c <= t.width then
        var k := (r - 1) * t.width + (c - 1);
        0 <= k < |t.cells| && after == t.cells[k := Cell(ch, t.pen.fg, t.pen.bg, t.pen.attrs)]
      else after == t.cells
  {
    var there := t.(cy := r - 1, cx := c - 1);
    TokenDoes(there, Glyph(ch), ch, Put(there, ch));
    MoveDoes(t, r, c, ch, Put(there, ch));
    DoesAlone(t, Sequence([r, c], HVP) + ch, Put(there, ch));
    PutLands(there, ch);
  }

  /** A line break goes to the start of the next row. */
  lemma LineFeedLaw(t: Screen, r: nat, c: nat)
    requires t.Valid()
    ensures SameEffect(t, Sequence([r, c], HVP) + [LF], Sequence([r + 1, 1], HVP))
  {
    var u := t.(cy := r, cx := 0);
    TokenDoes(t.(cy := r - 1, cx := c - 1), Newline, [LF], u);
    MoveDoes(t, r, c, [LF], u);
    SequenceDoes(t, [r + 1, 1], HVP, u);
    BothDo(t, Sequence([r, c], HVP) + [LF], Sequence([r + 1, 1], HVP), u);
  }

  /** A carriage return goes to the start of the row. */
  lemma ReturnLaw(t: Screen, r: nat, c: nat)
    requires t.Valid()
    ensures SameEffect(t, Sequence([r, c], HVP) + [CR], Sequence([r, 1], HVP))
  {
    var u := t.(cy := r - 1, cx := 0);
    TokenDoes(t.(cy := r - 1, cx := c - 1), Return, [CR], u);
    MoveDoes(t, r, c, [CR], u);
    SequenceDoes(t, [r, 1], HVP, u);
    BothDo(t, Sequence([r, c], HVP) + [CR], Sequence([r, 1], HVP), u);
  }

  /** Two sequences that do the same to the screen. */
  lemma SameControl(t: Screen, a: seq<nat>, f: Byte, b: seq<nat>, g: Byte)
    requires t.Valid() && a != [] && b != [] && 0x40 <= f <= 0x7E && 0x40 <= g <= 0x7E
    requires Control(t, f, a) == Control(t, g, b)
    ensures SameEffect(t, Sequence(a, f), Sequence(b, g))
  {
    SequenceDoes(t, a, f, Control(t, f, a));
    SequenceDoes(t, b, g, Control(t, f, a));
    BothDo(t, Sequence(a, f), Sequence(b, g), Control(t, f, a));
  }

  lemma SameAsBare(t: Screen, f: Byte, b: seq<nat>)
    requires t.Valid() && b != [] && 0x40 <= f <= 0x7E && Control(t, f, []) == Control(t, f, b)
    ensures SameEffect(t, Bare(f), Sequence(b, f))
  {
    BareDoes(t, f, Control(t, f, []));
    SequenceDoes(t, b, f, Control(t, f, []));
    BothDo(t, Bare(f), Sequence(b, f), Control(t, f, []));
  }

  /** Missing row and column mean 1, and the final byte `H` is as good as `f`. */
  lemma PositionDefaults(t: Screen, r: nat, c: nat)
    requires t.Valid()
    ensures SameEffect(t, Bare(HVP), Sequence([1, 1], HVP))
    ensures SameEffect(t, Sequence([r], HVP), Sequence([r, 1], HVP))
    ensures SameEffect(t, Sequence([r, c], 72), Sequence([r, c], HVP))
  {
    SameAsBare(t, HVP, [1, 1]);
    SameControl(t, [r], HVP, [r, 1], HVP);
    SameControl(t, [r, c], 72, [r, c], HVP);
  }

  /** A missing or zero distance means 1. */
  lemma DistanceDefaults(t: Screen, fin: Byte)
    requires t.Valid() && fin in {UP, DOWN, RIGHT, LEFT}
    ensures SameEffect(t, Bare(fin), Sequence([1], fin)) && SameEffect(t, Sequence([0], fin), Sequence([1], fin))
  {
    SameAsBare(t, fin, [1]);
    SameControl(t, [0], fin, [1], fin);
  }

  /** A buffer skips the sequences that erase, save or restore. */
  lemma SkippedSequences(t: Screen, n: nat, fin: Byte)
    requires t.Valid() && !t.erases && fin in {74, 75, 115, 117}   // 'J', 'K', 's', 'u'
    ensures Does(t, Bare(fin), t) && Does(t, Sequence([n], fin), t)
  {
    BareDoes(t, fin, t);
    SequenceDoes(t, [n], fin, t);
  }

  // ----- colours and attributes -----

  /** Selecting graphics with these parameters turns the pen into `pen` and changes nothing else. */
  lemma RenditionDoes(t: Screen, params: seq<nat>, pen: Pen)
    requires t.Valid() && params != [] && Rendition(t.pen, params, 0) == pen
    ensures Does(t, Sequence(params, SGR), t.(pen := pen))
  {
    SequenceDoes(t, params, SGR, t.(pen := pen));
  }

  lemma CodeDoes(t: Screen, code: nat, pen: Pen)
    requires t.Valid() && code != 38 && code != 48 && pen == Plain(t.pen, code)
    ensures Does(t, Sequence([code], SGR), t.(pen := pen))
  {
    assert Rendition(t.pen, [code], 0) == Rendition(pen, [code], 1);
    RenditionDoes(t, [code], pen);
  }

  lemma ForeDoes(t: Screen, n: nat)
    requires t.Valid() && n < 256
    ensures Does(t, Sequence([38, 5, n], SGR), t.(pen := t.pen.(fg := n + 1)))
  {
    var params: seq<nat> := [38, 5, n];
    assert ColourOperand(params, 0) == Colour(n + 1, 2);
    assert Rendition(t.pen, params, 0) == Rendition(t.pen.(fg := n + 1), params, 3);
    RenditionDoes(t, params, t.pen.(fg := n + 1));
  }

  lemma BackDoes(t: Screen, n: nat)
    requires t.Valid() && n < 256
    ensures Does(t, Sequence([48, 5, n], SGR), t.(pen := t.pen.(bg := n + 1)))
  {
    var params: seq<nat> := [48, 5, n];
    assert ColourOperand(params, 0) == Colour(n + 1, 2);
    assert Rendition(t.pen, params, 0) == Rendition(t.pen.(bg := n + 1), params, 3);
    RenditionDoes(t, params, t.pen.(bg := n + 1));
  }

  /** The sixteen basic foreground colours are the first sixteen of the palette. */
  lemma BasicForeground(t: Screen, n: nat)
    requires t.Valid() && n < 16
    ensures SameEffect(t, Sequence([if n < 8 then 30 + n else 90 + (n - 8)], SGR), Sequence([38, 5, n], SGR))
  {
    var code, u := if n < 8 then 30 + n else 90 + (n - 8), t.(pen := t.pen.(fg := n + 1));
    CodeDoes(t, code, u.pen);
    ForeDoes(t, n);
    BothDo(t, Sequence([code], SGR), Sequence([38, 5, n], SGR), u);
  }

  /** So are the background colours. */
  lemma BasicBackground(t: Screen, n: nat)
    requires t.Valid() && n < 16
    ensures SameEffect(t, Sequence([if n < 8 then 40 + n else 100 + (n - 8)], SGR), Sequence([48, 5, n], SGR))
  {
    var code, u := if n < 8 then 40 + n else 100 + (n - 8), t.(pen := t.pen.(bg := n + 1));
    CodeDoes(t, code, u.pen);
    BackDoes(t, n);
    BothDo(t, Sequence([code], SGR), Sequence([48, 5, n], SGR), u);
  }

  /**
   Selecting a foreground colour changes nothing but the foreground, selecting a background colour nothing but the
   background; the same number gives the same colour in both places, and 39 and 49 take it back.
   */
  lemma ColoursAreApart(t: Screen, n: nat) returns (c: nat)
    requires t.Valid() && n < 256
    ensures c != 0
    ensures Does(t, Sequence([38, 5, n], SGR), t.(pen := t.pen.(fg := c)))
    ensures Does(t, Sequence([48, 5, n], SGR), t.(pen := t.pen.(bg := c)))
    ensures Does(t, Sequence([39], SGR), t.(pen := t.pen.(fg := 0)))
    ensures Does(t, Sequence([49], SGR), t.(pen := t.pen.(bg := 0)))
  {
    c := n + 1;
    ForeDoes(t, n);
    BackDoes(t, n);
    CodeDoes(t, 39, t.pen.(fg := 0));
    CodeDoes(t, 49, t.pen.(bg := 0));
  }

  /** A code that switches an attribute on sets its bit. */
  lemma AttributeOn(t: Screen, code: nat, mask: bv8)
    requires t.Valid() && (code, mask) in {(3, 0x04), (4, 0x08), (5, 0x10), (9, 0x20)}
    ensures Does(t, Sequence([code], SGR), t.(pen := t.pen.(attrs := t.pen.attrs | mask)))
  {
    CodeDoes(t, code, t.pen.(attrs := t.pen.attrs | mask));
  }

  /** The code that switches it off clears just that bit. */
  lemma AttributeOff(t: Screen, code: nat, mask: bv8)
    requires t.Valid() && (code, mask) in {(23, 0x04), (24, 0x08), (25, 0x10), (29, 0x20)}
    ensures Does(t, Sequence([code], SGR), t.(pen := t.pen.(attrs := t.pen.attrs & !mask)))
  {
    CodeDoes(t, code, t.pen.(attrs := t.pen.attrs & !mask));
  }

  /** Bold and dim have bits of their own and share one code that switches both off. */
  lemma BoldAndDim(t: Screen)
    requires t.Valid()
    ensures Does(t, Sequence([1], SGR), t.(pen := t.pen.(attrs := t.pen.attrs | 0x01)))
    ensures Does(t, Sequence([2], SGR), t.(pen := t.pen.(attrs := t.pen.attrs | 0x02)))
    ensures Does(t, Sequence([22], SGR), t.(pen := t.pen.(attrs := t.pen.attrs & !0x03)))
  {
    CodeDoes(t, 1, t.pen.(attrs := t.pen.attrs | 0x01));
    CodeDoes(t, 2, t.pen.(attrs := t.pen.attrs | 0x02));
    CodeDoes(t, 22, t.pen.(attrs := t.pen.attrs & !0x03));
  }

  /** Resetting, with or without the parameter, gives default colours and no attributes. */
  lemma Resets(t: Screen)
    requires t.Valid()
    ensures Does(t, Bare(SGR), t.(pen := Pen(0, 0, 0))) && Does(t, Sequence([0], SGR), t.(pen := Pen(0, 0, 0)))
  {
    BareDoes(t, SGR, t.(pen := Pen(0, 0, 0)));
    CodeDoes(t, 0, Pen(0, 0, 0));
  }
}
