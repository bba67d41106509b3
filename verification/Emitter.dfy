/**
 What the two emitters print. Both walk the grid in row-major order, skip the cells that equal a base
 grid (the previous frame, or all blanks for a full redraw), and print the rest with the fewest moves
 and pen changes.
 */
module Emitter {
  import opened Arithmetic
  import opened Bytes
  import opened Cells
  import opened Interpreter
  import opened Tokens

  /** UINT32_MAX: no colour emitted yet. */
  const NONE: nat := 0xFFFF_FFFF

  datatype Last = Last(x: int, y: int, fg: nat, bg: nat, attrs: bv8)

  const FIRST: Last := Last(-1, -1, NONE, NONE, 0xFF)

  function Sgr(params: seq<nat>): Token
    requires params != []
  {
    Csi(false, Args(params), SGR)
  }

  // ----- colours -----

  function ColourParams(c: nat, isFg: bool): (params: seq<nat>)
    requires c < WORD
    ensures params != []
  {
    if c == 0 then [if isFg then 39 else 49]
    else if c / TRUECOLOUR % 2 == 1 then [if isFg then 38 else 48, 2, Red(c), Green(c), Blue(c)]
    else
      var idx := (c - 1) % 256;
      if idx < 8 then [(if isFg then 30 else 40) + idx]
      else if idx < 16 then [(if isFg then 90 else 100) + (idx - 8)]
      else [if isFg then 38 else 48, 5, idx]
  }

  function Coloured(pen: Pen, c: nat, isFg: bool): Pen {
    if isFg then pen.(fg := c) else pen.(bg := c)
  }

  /** A colour given by its components. */
  lemma ComponentsRendition(pen: Pen, r: nat, g: nat, b: nat, isFg: bool)
    ensures Rendition(pen, [if isFg then 38 else 48, 2, r, g, b], 0) == Coloured(pen, PackRgb(r, g, b), isFg)
  {
    var params := [if isFg then 38 else 48, 2, r, g, b];
    assert ColourOperand(params, 0) == Colour(PackRgb(r, g, b), 4);
    assert Rendition(pen, params, 0) == Rendition(Coloured(pen, PackRgb(r, g, b), isFg), params, 5);
  }

  lemma TruecolourRendition(pen: Pen, c: nat, isFg: bool)
    requires TRUECOLOUR <= c < 2 * TRUECOLOUR
    ensures Rendition(pen, ColourParams(c, isFg), 0) == Coloured(pen, c, isFg)
  {
    UnpackPack(c);
    ComponentsRendition(pen, Red(c), Green(c), Blue(c), isFg);
  }

  lemma PaletteRendition(pen: Pen, c: nat, isFg: bool)
    requires 16 < c <= 256
    ensures Rendition(pen, ColourParams(c, isFg), 0) == Coloured(pen, c, isFg)
  {
    var params := ColourParams(c, isFg);
    assert params == [if isFg then 38 else 48, 5, c - 1];
    assert ColourOperand(params, 0) == Colour(c, 2);
    assert Rendition(pen, params, 0) == Rendition(Coloured(pen, c, isFg), params, 3);
  }

  lemma BasicRendition(pen: Pen, c: nat, isFg: bool)
    requires c <= 16
    ensures Rendition(pen, ColourParams(c, isFg), 0) == Coloured(pen, c, isFg)
  {
    var params := ColourParams(c, isFg);
    assert Rendition(pen, params, 0) == Rendition(Plain(pen, params[0]), params, 1);
  }

  /** Reading back an emitted colour sets exactly that colour. */
  lemma ColourReadBack(t: Screen, c: nat, isFg: bool)
    requires t.Valid() && ValidColour(c)
    ensures Apply(t, Sgr(ColourParams(c, isFg))) == t.(pen := Coloured(t.pen, c, isFg))
  {
    ApplyPrinted(t, ColourParams(c, isFg), SGR);
    if c <= 16 {
      BasicRendition(t.pen, c, isFg);
    } else if c <= 256 {
      PaletteRendition(t.pen, c, isFg);
    } else {
      TruecolourRendition(t.pen, c, isFg);
    }
  }

  // ----- attributes -----

  function AttrToken(new_: bv8, old_: bv8, mask: bv8, on: nat, off: nat): seq<Token> {
    if (new_ ^ old_) & mask == 0 then [] else [Sgr([if new_ & mask != 0 then on else off])]
  }

  function AttrTokens(new_: bv8, old_: bv8): seq<Token> {
    AttrToken(new_, old_, 0x01, 1, 22) + AttrToken(new_, old_, 0x02, 2, 22)
    + AttrToken(new_, old_, 0x04, 3, 23) + AttrToken(new_, old_, 0x08, 4, 24)
    + AttrToken(new_, old_, 0x10, 5, 25) + AttrToken(new_, old_, 0x20, 9, 29)
  }

  /** Attributes of a terminal pen `pen` after the codes for one bit. */
  function AttrStep(pen: bv8, new_: bv8, old_: bv8, mask: bv8, on: nat, off: nat): bv8 {
    if (new_ ^ old_) & mask == 0 then pen
    else Plain(Pen(0, 0, pen), if new_ & mask != 0 then on else off).attrs
  }

  /** Attributes of a terminal pen `pen` after the codes that turn `old_` into `new_`. */
  function AttrsAfter(pen: bv8, new_: bv8, old_: bv8): bv8 {
    var a1 := AttrStep(pen, new_, old_, 0x01, 1, 22);
    var a2 := AttrStep(a1, new_, old_, 0x02, 2, 22);
    var a3 := AttrStep(a2, new_, old_, 0x04, 3, 23);
    var a4 := AttrStep(a3, new_, old_, 0x08, 4, 24);
    var a5 := AttrStep(a4, new_, old_, 0x10, 5, 25);
    AttrStep(a5, new_, old_, 0x20, 9, 29)
  }

  predicate AttrCode(code: nat) {
    code in {1, 2, 3, 4, 5, 9, 22, 23, 24, 25, 29}
  }

  /** An attribute code leaves the colours alone. */
  lemma PlainAttrs(pen: Pen, code: nat)
    requires AttrCode(code)
    ensures Plain(pen, code) == pen.(attrs := Plain(Pen(0, 0, pen.attrs), code).attrs)
  {
  }

  lemma CodeReadBack(t: Screen, code: nat)
    requires t.Valid() && AttrCode(code)
    ensures ApplyAll(t, [Sgr([code])])
         == t.(pen := t.pen.(attrs := Plain(Pen(0, 0, t.pen.attrs), code).attrs))
  {
    ApplyPrinted(t, [code], SGR);
    assert Rendition(t.pen, [code], 0) == Rendition(Plain(t.pen, code), [code], 1);
    PlainAttrs(t.pen, code);
    assert [Sgr([code])][1..] == [];
  }

  lemma AttrTokenReadBack(t: Screen, new_: bv8, old_: bv8, mask: bv8, on: nat, off: nat)
    requires t.Valid() && AttrCode(on) && AttrCode(off)
    ensures ApplyAll(t, AttrToken(new_, old_, mask, on, off))
         == t.(pen := t.pen.(attrs := AttrStep(t.pen.attrs, new_, old_, mask, on, off)))
  {
    CodeReadBack(t, on);
    CodeReadBack(t, off);
  }

  lemma AttrsReadBack(t: Screen, new_: bv8, old_: bv8)
    requires t.Valid()
    ensures ApplyAll(t, AttrTokens(new_, old_))
         == t.(pen := t.pen.(attrs := AttrsAfter(t.pen.attrs, new_, old_)))
  {
    var k1 := AttrToken(new_, old_, 0x01, 1, 22);
    var k2 := AttrToken(new_, old_, 0x02, 2, 22);
    var k3 := AttrToken(new_, old_, 0x04, 3, 23);
    var k4 := AttrToken(new_, old_, 0x08, 4, 24);
    var k5 := AttrToken(new_, old_, 0x10, 5, 25);
    var k6 := AttrToken(new_, old_, 0x20, 9, 29);
    AttrTokenReadBack(t, new_, old_, 0x01, 1, 22);
    var t1 := ApplyAll(t, k1);
    ApplyAllConcat(t, k1, k2);
    AttrTokenReadBack(t1, new_, old_, 0x02, 2, 22);
    var t2 := ApplyAll(t1, k2);
    ApplyAllConcat(t, k1 + k2, k3);
    AttrTokenReadBack(t2, new_, old_, 0x04, 3, 23);
    var t3 := ApplyAll(t2, k3);
    ApplyAllConcat(t, k1 + k2 + k3, k4);
    AttrTokenReadBack(t3, new_, old_, 0x08, 4, 24);
    var t4 := ApplyAll(t3, k4);
    ApplyAllConcat(t, k1 + k2 + k3 + k4, k5);
    AttrTokenReadBack(t4, new_, old_, 0x10, 5, 25);
    var t5 := ApplyAll(t4, k5);
    ApplyAllConcat(t, k1 + k2 + k3 + k4 + k5, k6);
    AttrTokenReadBack(t5, new_, old_, 0x20, 9, 29);
  }

  // ----- one cell -----

  function MoveTokens(x: nat, y: nat, last: Last): seq<Token> {
    if y != last.y || x != last.x + 1 then [Csi(false, Args([y + 1, x + 1]), HVP)] else []
  }

  function AllAttrTokens(a: bv8, last: bv8): seq<Token> {
    if a != last then AttrTokens(a, last) else []
  }

  function ColourTokens(c: nat, last: nat, isFg: bool): seq<Token>
    requires c < WORD
  {
    if c != last then [Sgr(ColourParams(c, isFg))] else []
  }

  function PenTokens(c: Cell, last: Last): seq<Token>
    requires c.fg < WORD && c.bg < WORD
  {
    AllAttrTokens(c.attrs, last.attrs) + ColourTokens(c.fg, last.fg, true) + ColourTokens(c.bg, last.bg, false)
  }

  function CellTokens(c: Cell, x: nat, y: nat, last: Last): seq<Token>
    requires c.fg < WORD && c.bg < WORD
  {
    MoveTokens(x, y, last) + PenTokens(c, last) + [Glyph(c.ch)]
  }

  /** The terminal's cursor and pen are where the emitter believes they are. */
  predicate Synced(t: Screen, last: Last) {
    && (last.y >= 0 ==> t.cy == last.y && t.cx == last.x + 1)
    && (last.fg != NONE ==> t.pen.fg == last.fg)
    && (last.bg != NONE ==> t.pen.bg == last.bg)
  }

  /** Attributes of the terminal pen when cell attributes `a` are printed after `lastAttrs`. */
  function PrintedAttrs(pen: bv8, a: bv8, lastAttrs: bv8): bv8 {
    if a != lastAttrs then AttrsAfter(pen, a, lastAttrs) else pen
  }

  lemma MoveReadBack(t: Screen, x: nat, y: nat, last: Last)
    requires t.Valid() && Synced(t, last)
    ensures ApplyAll(t, MoveTokens(x, y, last)) == t.(cx := x, cy := y)
  {
    if y != last.y || x != last.x + 1 {
      ApplyPrinted(t, [y + 1, x + 1], HVP);
    }
  }

  lemma ColourTokensReadBack(t: Screen, c: nat, last: nat, isFg: bool)
    requires t.Valid() && ValidColour(c) && (last != NONE ==> last == if isFg then t.pen.fg else t.pen.bg)
    ensures ApplyAll(t, ColourTokens(c, last, isFg)) == t.(pen := Coloured(t.pen, c, isFg))
  {
    if c != last {
      ColourReadBack(t, c, isFg);
      assert [Sgr(ColourParams(c, isFg))][1..] == [];
    }
  }

  lemma AllAttrTokensReadBack(t: Screen, a: bv8, last: bv8)
    requires t.Valid()
    ensures ApplyAll(t, AllAttrTokens(a, last)) == t.(pen := t.pen.(attrs := PrintedAttrs(t.pen.attrs, a, last)))
  {
    if a != last { AttrsReadBack(t, a, last); }
  }

  lemma PenReadBack(t: Screen, c: Cell, last: Last)
    requires t.Valid() && WellFormed(c) && Synced(t, last)
    ensures ApplyAll(t, PenTokens(c, last))
         == t.(pen := Pen(c.fg, c.bg, PrintedAttrs(t.pen.attrs, c.attrs, last.attrs)))
  {
    var ka, kf := AllAttrTokens(c.attrs, last.attrs), ColourTokens(c.fg, last.fg, true);
    var kb := ColourTokens(c.bg, last.bg, false);
    AllAttrTokensReadBack(t, c.attrs, last.attrs);
    var t1 := ApplyAll(t, ka);
    ColourTokensReadBack(t1, c.fg, last.fg, true);
    var t2 := ApplyAll(t1, kf);
    ColourTokensReadBack(t2, c.bg, last.bg, false);
    ApplyAllConcat(t, ka, kf);
    ApplyAllConcat(t, ka + kf, kb);
  }

  lemma GlyphReadBack(t: Screen, ch: seq<Byte>)
    requires t.Valid()
    ensures ApplyAll(t, [Glyph(ch)]) == Put(t, ch)
  {
    assert [Glyph(ch)][1..] == [];
  }

  /** Printing one cell changes that cell only, and leaves cursor and pen just behind it. */
  lemma CellReadBack(t: Screen, c: Cell, x: nat, y: nat, last: Last)
    requires t.Valid() && WellFormed(c) && Synced(t, last) && x < t.width && y < t.height
    ensures var a := PrintedAttrs(t.pen.attrs, c.attrs, last.attrs);
      ApplyAll(t, CellTokens(c, x, y, last)) == Put(t.(cx := x, cy := y, pen := Pen(c.fg, c.bg, a)), c.ch)
  {
    var km, kp, kg := MoveTokens(x, y, last), PenTokens(c, last), [Glyph(c.ch)];
    MoveReadBack(t, x, y, last);
    var t1 := t.(cx := x, cy := y);
    ApplyAllConcat(t, km, kp);
    PenReadBack(t1, c, last.(x := x - 1, y := y));
    assert PenTokens(c, last.(x := x - 1, y := y)) == kp;
    var a := PrintedAttrs(t.pen.attrs, c.attrs, last.attrs);
    var t2 := t1.(pen := Pen(c.fg, c.bg, a));
    assert ApplyAll(t, km + kp) == t2;
    ApplyAllConcat(t, km + kp, kg);
    GlyphReadBack(t2, c.ch);
  }

  // ----- the whole grid -----

  function After(c: Cell, x: nat, y: nat): Last {
    Last(x, y, c.fg, c.bg, c.attrs)
  }

  /** Row and column of the position after column `x` of row `y`. */
  function NextX(w: nat, x: nat): nat { if x + 1 == w then 0 else x + 1 }
  function NextY(w: nat, x: nat, y: nat): nat { if x + 1 == w then y + 1 else y }

  /** The tokens printed for the cells from position `k` on, which is column `x` of row `y`. */
  function EmitFrom(w: nat, cur: seq<Cell>, base: seq<Cell>, k: nat, x: nat, y: nat, last: Last): seq<Token>
    requires |cur| == |base| && k <= |cur| && Printable(cur)
    decreases |cur| - k
  {
    if k == |cur| then []
    else if cur[k] == base[k] then EmitFrom(w, cur, base, k + 1, NextX(w, x), NextY(w, x, y), last)
    else
      CellTokens(cur[k], x, y, last)
      + EmitFrom(w, cur, base, k + 1, NextX(w, x), NextY(w, x, y), After(cur[k], x, y))
  }

  /** The bytes printed for a whole grid. */
  function Emit(w: nat, cur: seq<Cell>, base: seq<Cell>): seq<Byte>
    requires |cur| == |base| && Printable(cur)
  {
    Text(EmitFrom(w, cur, base, 0, 0, 0, FIRST))
  }
}
