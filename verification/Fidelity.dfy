/** What a terminal shows after it has interpreted an emitter's output. */
module Fidelity {
  import opened Arithmetic
  import opened Cells
  import opened Interpreter
  import opened Tokens
  import opened Emitter

  /**
   The grid a terminal ends with when cells `k..` are printed on `cells`, starting with pen attributes `pen`
   when the emitter assumes `last`: a changed cell gets its character and colours, and whatever attributes
   the codes before it leave in the pen.
   */
  ghost function Painted(cur: seq<Cell>, base: seq<Cell>, cells: seq<Cell>, k: nat, pen: bv8, last: bv8): (r: seq<Cell>)
    requires |cur| == |base| == |cells| && k <= |cur|
    ensures |r| == |cells|
    decreases |cur| - k
  {
    if k == |cur| then cells
    else if cur[k] == base[k] then Painted(cur, base, cells, k + 1, pen, last)
    else
      var a := PrintedAttrs(pen, cur[k].attrs, last);
      Painted(cur, base, cells[k := cur[k].(attrs := a)], k + 1, a, cur[k].attrs)
  }

  /** Positions advance row by row and stay on the grid. */
  lemma Position(w: nat, h: nat, k: nat, x: nat, y: nat)
    requires k == y * w + x && k < w * h && x < w
    ensures y < h && Index(w, h, x, y) == k
    ensures k + 1 == NextY(w, x, y) * w + NextX(w, x) && NextX(w, x) < w
  {
    if h <= y { Scale(w, h, y); }
    assert (y + 1) * w == y * w + w;
  }

  lemma CompleteConcat(a: seq<Token>, b: seq<Token>)
    requires AllComplete(a) && AllComplete(b)
    ensures AllComplete(a + b)
  {
  }

  lemma AttrsComplete(a: bv8, b: bv8)
    ensures AllComplete(AttrTokens(a, b))
  {
    var k1 := AttrToken(a, b, 0x01, 1, 22);
    var k2 := AttrToken(a, b, 0x02, 2, 22);
    var k3 := AttrToken(a, b, 0x04, 3, 23);
    var k4 := AttrToken(a, b, 0x08, 4, 24);
    var k5 := AttrToken(a, b, 0x10, 5, 25);
    CompleteConcat(k1, k2);
    CompleteConcat(k1 + k2, k3);
    CompleteConcat(k1 + k2 + k3, k4);
    CompleteConcat(k1 + k2 + k3 + k4, k5);
    CompleteConcat(k1 + k2 + k3 + k4 + k5, AttrToken(a, b, 0x20, 9, 29));
  }

  lemma CellComplete(c: Cell, x: nat, y: nat, last: Last)
    requires WellFormed(c)
    ensures AllComplete(CellTokens(c, x, y, last))
  {
    var ka, kf := AllAttrTokens(c.attrs, last.attrs), ColourTokens(c.fg, last.fg, true);
    AttrsComplete(c.attrs, last.attrs);
    CompleteConcat(ka, kf);
    CompleteConcat(ka + kf, ColourTokens(c.bg, last.bg, false));
    CompleteConcat(MoveTokens(x, y, last), PenTokens(c, last));
    CompleteConcat(MoveTokens(x, y, last) + PenTokens(c, last), [Glyph(c.ch)]);
  }

  lemma {:induction false} EmitComplete(w: nat, cur: seq<Cell>, base: seq<Cell>, k: nat, x: nat, y: nat, last: Last)
    requires |cur| == |base| && k <= |cur| && AllWellFormed(cur)
    ensures Printable(cur) && AllComplete(EmitFrom(w, cur, base, k, x, y, last))
    decreases |cur| - k
  {
    if k < |cur| && cur[k] != base[k] {
      assert WellFormed(cur[k]);
      CellComplete(cur[k], x, y, last);
      EmitComplete(w, cur, base, k + 1, NextX(w, x), NextY(w, x, y), After(cur[k], x, y));
      CompleteConcat(CellTokens(cur[k], x, y, last),
                     EmitFrom(w, cur, base, k + 1, NextX(w, x), NextY(w, x, y), After(cur[k], x, y)));
    } else if k < |cur| {
      EmitComplete(w, cur, base, k + 1, NextX(w, x), NextY(w, x, y), last);
    }
  }

  /** The effect of the printed tokens, cell by cell. */
  lemma {:induction false} EmitMeaning(t: Screen, cur: seq<Cell>, base: seq<Cell>, k: nat, x: nat, y: nat, last: Last)
    requires t.Valid() && |cur| == |base| == |t.cells| && k <= |cur|
    requires k == y * t.width + x && (k < |cur| ==> x < t.width)
    requires AllWellFormed(cur) && Synced(t, last)
    ensures Printable(cur)
    ensures ApplyAll(t, EmitFrom(t.width, cur, base, k, x, y, last)).cells
         == Painted(cur, base, t.cells, k, t.pen.attrs, last.attrs)
    decreases |cur| - k
  {
    var w := t.width;
    if k < |cur| {
      Position(w, t.height, k, x, y);
      var x', y' := NextX(w, x), NextY(w, x, y);
      if cur[k] == base[k] {
        EmitMeaning(t, cur, base, k + 1, x', y', last);
      } else {
        var c := cur[k];
        assert WellFormed(c);
        var a := PrintedAttrs(t.pen.attrs, c.attrs, last.attrs);
        CellReadBack(t, c, x, y, last);
        var t' := Put(t.(cx := x, cy := y, pen := Pen(c.fg, c.bg, a)), c.ch);
        assert t'.cells == t.cells[k := c.(attrs := a)];
        ApplyAllConcat(t, CellTokens(c, x, y, last), EmitFrom(w, cur, base, k + 1, x', y', After(c, x, y)));
        EmitMeaning(t', cur, base, k + 1, x', y', After(c, x, y));
      }
    }
  }

  /** Interpreting the emitted bytes paints the grid. */
  lemma RunEmit(t: Screen, cur: seq<Cell>, base: seq<Cell>)
    requires t.Valid() && |cur| == |base| == |t.cells| && AllWellFormed(cur)
    ensures Printable(cur)
    ensures Run(t, Emit(t.width, cur, base)).cells == Painted(cur, base, t.cells, 0, t.pen.attrs, 0xFF)
  {
    assert |cur| > 0 ==> t.width > 0 by { Scale(t.width, 0, t.height); assert 0 * t.height == 0; }
    EmitMeaning(t, cur, base, 0, 0, 0, FIRST);
    var toks := EmitFrom(t.width, cur, base, 0, 0, 0, FIRST);
    EmitComplete(t.width, cur, base, 0, 0, 0, FIRST);
    RunWhole(t, toks);
  }

  // ----- characters and colours -----

  lemma {:induction false} PaintedLooks(cur: seq<Cell>, base: seq<Cell>, cells: seq<Cell>, k: nat, pen: bv8, last: bv8)
    requires |cur| == |base| == |cells| && k <= |cur|
    ensures var r := Painted(cur, base, cells, k, pen, last);
      forall i :: 0 <= i < |cur| ==>
        if i < k || cur[i] == base[i] then r[i] == cells[i] else SameLook(r[i], cur[i])
    decreases |cur| - k
  {
    if k < |cur| && cur[k] == base[k] {
      PaintedLooks(cur, base, cells, k + 1, pen, last);
    } else if k < |cur| {
      var a := PrintedAttrs(pen, cur[k].attrs, last);
      PaintedLooks(cur, base, cells[k := cur[k].(attrs := a)], k + 1, a, cur[k].attrs);
    }
  }

  /**
   Differential redraw: on any terminal whose characters and colours are those of `base`, whatever its
   cursor, pen and attributes, the emitted bytes yield the characters and colours of `cur`, and cells that
   did not change are not touched.
   */
  lemma RedrawShowsCurrent(t: Screen, cur: seq<Cell>, base: seq<Cell>)
    requires t.Valid() && |cur| == |base| && AllWellFormed(cur) && SameLooks(t.cells, base)
    ensures Printable(cur)
    ensures var r := Run(t, Emit(t.width, cur, base));
      && SameLooks(r.cells, cur)
      && forall i :: 0 <= i < |cur| && cur[i] == base[i] ==> r.cells[i] == t.cells[i]
  {
    RunEmit(t, cur, base);
    PaintedLooks(cur, base, t.cells, 0, t.pen.attrs, 0xFF);
  }

  // ----- what is not printed -----

  lemma {:induction false} EqualPrintsNothing(w: nat, cur: seq<Cell>, k: nat, x: nat, y: nat, last: Last)
    requires k <= |cur| && Printable(cur)
    ensures EmitFrom(w, cur, cur, k, x, y, last) == []
    decreases |cur| - k
  {
    if k < |cur| { EqualPrintsNothing(w, cur, k + 1, NextX(w, x), NextY(w, x, y), last); }
  }

  lemma CellPrintsCharacter(c: Cell, x: nat, y: nat, last: Last, rest: seq<Token>)
    requires WellFormed(c)
    ensures Text(CellTokens(c, x, y, last) + rest) != []
  {
    TextConcat(CellTokens(c, x, y, last), rest);
    TextConcat(MoveTokens(x, y, last) + PenTokens(c, last), [Glyph(c.ch)]);
    assert Text([Glyph(c.ch)]) == c.ch + Text([]);
  }

  lemma {:induction false} ChangePrintsSomething(w: nat, cur: seq<Cell>, base: seq<Cell>, k: nat, x: nat, y: nat,
                                                 last: Last, i: nat)
    requires |cur| == |base| && k <= i < |cur| && AllWellFormed(cur) && Printable(cur) && cur[i] != base[i]
    ensures Text(EmitFrom(w, cur, base, k, x, y, last)) != []
    decreases |cur| - k
  {
    if cur[k] == base[k] {
      ChangePrintsSomething(w, cur, base, k + 1, NextX(w, x), NextY(w, x, y), last, i);
    } else {
      CellPrintsCharacter(cur[k], x, y, last,
                          EmitFrom(w, cur, base, k + 1, NextX(w, x), NextY(w, x, y), After(cur[k], x, y)));
    }
  }

  /** Nothing is printed exactly when nothing has changed. */
  lemma SilentIffEqual(w: nat, cur: seq<Cell>, base: seq<Cell>)
    requires |cur| == |base| && AllWellFormed(cur) && Printable(cur)
    ensures Emit(w, cur, base) == [] <==> cur == base
  {
    if cur == base {
      EqualPrintsNothing(w, cur, 0, 0, 0, FIRST);
    } else {
      var i :| 0 <= i < |cur| && cur[i] != base[i];
      ChangePrintsSomething(w, cur, base, 0, 0, 0, FIRST, i);
    }
  }

  predicate SamePen(c: Cell, last: Last) {
    c.fg == last.fg && c.bg == last.bg && c.attrs == last.attrs
  }

  /** A changed cell behind one of its row and its pen that was just printed: its character is all that is printed. */
  lemma SamePenIsBare(w: nat, cur: seq<Cell>, base: seq<Cell>, k: nat, x: nat, y: nat, last: Last)
    requires |cur| == |base| && k < |cur| && Printable(cur) && last.x == x - 1 && last.y == y
    requires cur[k] != base[k] && SamePen(cur[k], last)
    ensures Text(EmitFrom(w, cur, base, k, x, y, last))
         == cur[k].ch + Text(EmitFrom(w, cur, base, k + 1, NextX(w, x), NextY(w, x, y), last.(x := x)))
  {
    assert CellTokens(cur[k], x, y, last) == [Glyph(cur[k].ch)];
    assert After(cur[k], x, y) == last.(x := x);
  }

  // ----- attributes -----

  predicate Bold(a: bv8) { a & 0x01 != 0 }
  predicate Dim(a: bv8) { a & 0x02 != 0 }

  /**
   Attributes `b` can be printed after `a`: bold and dim share their "off" code 22, so it must not be sent
   for one of them when the other is to be on and is not switched on afterwards.
   */
  predicate Follows(a: bv8, b: bv8) {
    && !(Dim(a) && !Dim(b) && Bold(b))
    && !(Bold(a) && !Bold(b) && Dim(a) && Dim(b))
  }

  /**
   Attributes `a` can be printed first: the emitter sends no "on" code for the first cell, so what that cell
   needs must already be in the terminal's pen, and bold or dim alone is never possible.
   */
  predicate Opens(pen: bv8, a: bv8) {
    && Bold(a) == Dim(a)
    && a & !pen == 0
  }

  /** After the seed an attribute is switched off unless it is wanted, and never on. */
  lemma SeedItalic(pen: bv8, a: bv8)
    ensures AttrStep(pen, a, 0xFF, 0x04, 3, 23) == pen & (a | 0xFB)
  {
  }

  lemma SeedUnderline(pen: bv8, a: bv8)
    ensures AttrStep(pen, a, 0xFF, 0x08, 4, 24) == pen & (a | 0xF7)
  {
  }

  lemma SeedBlink(pen: bv8, a: bv8)
    ensures AttrStep(pen, a, 0xFF, 0x10, 5, 25) == pen & (a | 0xEF)
  {
  }

  lemma SeedStrike(pen: bv8, a: bv8)
    ensures AttrStep(pen, a, 0xFF, 0x20, 9, 29) == pen & (a | 0xDF)
  {
  }

  lemma SeedShared(pen: bv8, a: bv8)
    ensures AttrStep(AttrStep(pen, a, 0xFF, 0x01, 1, 22), a, 0xFF, 0x02, 2, 22)
         == if Bold(a) && Dim(a) then pen else pen & 0xFC
  {
  }

  lemma SeedMasks(p: bv8, a: bv8)
    ensures (((p & (a | 0xFB)) & (a | 0xF7)) & (a | 0xEF)) & (a | 0xDF) == p & (a | 0xC3)
  {
  }

  lemma SeedBits(pen: bv8, a: bv8)
    requires ValidAttrs(pen) && ValidAttrs(a)
    ensures (if Bold(a) && Dim(a) then pen else pen & 0xFC) & (a | 0xC3) == a <==> Opens(pen, a)
  {
  }

  lemma OpensExactly(pen: bv8, a: bv8)
    requires ValidAttrs(pen) && ValidAttrs(a)
    ensures PrintedAttrs(pen, a, 0xFF) == a <==> Opens(pen, a)
  {
    var p2 := if Bold(a) && Dim(a) then pen else pen & 0xFC;
    SeedShared(pen, a);
    SeedItalic(p2, a);
    SeedUnderline(p2 & (a | 0xFB), a);
    SeedBlink((p2 & (a | 0xFB)) & (a | 0xF7), a);
    SeedStrike(((p2 & (a | 0xFB)) & (a | 0xF7)) & (a | 0xEF), a);
    SeedMasks(p2, a);
    SeedBits(pen, a);
  }

  /** An attribute with its own "off" code is set as wanted when the pen agrees with what the emitter assumes. */
  lemma ItalicCode(pen: bv8, b: bv8, a: bv8)
    requires (pen ^ a) & 0x04 == 0
    ensures AttrStep(pen, b, a, 0x04, 3, 23) == (pen & 0xFB) | (b & 0x04)
  {
  }

  lemma UnderlineCode(pen: bv8, b: bv8, a: bv8)
    requires (pen ^ a) & 0x08 == 0
    ensures AttrStep(pen, b, a, 0x08, 4, 24) == (pen & 0xF7) | (b & 0x08)
  {
  }

  lemma BlinkCode(pen: bv8, b: bv8, a: bv8)
    requires (pen ^ a) & 0x10 == 0
    ensures AttrStep(pen, b, a, 0x10, 5, 25) == (pen & 0xEF) | (b & 0x10)
  {
  }

  lemma StrikeCode(pen: bv8, b: bv8, a: bv8)
    requires (pen ^ a) & 0x20 == 0
    ensures AttrStep(pen, b, a, 0x20, 9, 29) == (pen & 0xDF) | (b & 0x20)
  {
  }

  lemma BoldCode(a: bv8, b: bv8)
    ensures AttrStep(a, b, a, 0x01, 1, 22)
         == if a & 0x01 == b & 0x01 then a else if b & 0x01 != 0 then a | 0x01 else a & 0xFC
  {
  }

  lemma DimCode(pen: bv8, a: bv8, b: bv8)
    ensures AttrStep(pen, b, a, 0x02, 2, 22)
         == if a & 0x02 == b & 0x02 then pen else if b & 0x02 != 0 then pen | 0x02 else pen & 0xFC
  {
  }

  lemma SharedCode(a: bv8, b: bv8)
    ensures var a2 := AttrStep(AttrStep(a, b, a, 0x01, 1, 22), b, a, 0x02, 2, 22);
      && a2 & 0xFC == a & 0xFC
      && (a2 & 0x03 == b & 0x03 <==> Follows(a, b))
  {
    BoldCode(a, b);
    DimCode(AttrStep(a, b, a, 0x01, 1, 22), a, b);
  }

  lemma ItalicUnderline(pen: bv8, b: bv8, a: bv8)
    requires (pen ^ a) & 0x0C == 0
    ensures AttrStep(AttrStep(pen, b, a, 0x04, 3, 23), b, a, 0x08, 4, 24) == (pen & 0xF3) | (b & 0x0C)
  {
    ItalicCode(pen, b, a);
    UnderlineCode((pen & 0xFB) | (b & 0x04), b, a);
  }

  lemma BlinkStrike(pen: bv8, b: bv8, a: bv8)
    requires (pen ^ a) & 0x30 == 0
    ensures AttrStep(AttrStep(pen, b, a, 0x10, 5, 25), b, a, 0x20, 9, 29) == (pen & 0xCF) | (b & 0x30)
  {
    BlinkCode(pen, b, a);
    StrikeCode((pen & 0xEF) | (b & 0x10), b, a);
  }

  lemma Assemble(a: bv8, b: bv8, a2: bv8)
    requires ValidAttrs(a) && ValidAttrs(b) && a2 & 0xFC == a & 0xFC
    ensures var a4 := (a2 & 0xF3) | (b & 0x0C);
      && (a2 ^ a) & 0x0C == 0 && (a4 ^ a) & 0x30 == 0
      && ((a4 & 0xCF) | (b & 0x30) == b <==> a2 & 0x03 == b & 0x03)
  {
  }

  lemma UpperBits(pen: bv8, b: bv8, a: bv8)
    requires ValidAttrs(a) && ValidAttrs(b) && pen & 0xFC == a & 0xFC
    ensures AttrStep(AttrStep(AttrStep(AttrStep(pen, b, a, 0x04, 3, 23), b, a, 0x08, 4, 24), b, a, 0x10, 5, 25),
                     b, a, 0x20, 9, 29)
         == (((pen & 0xF3) | (b & 0x0C)) & 0xCF) | (b & 0x30)
  {
    Assemble(a, b, pen);
    ItalicUnderline(pen, b, a);
    BlinkStrike((pen & 0xF3) | (b & 0x0C), b, a);
  }

  lemma FollowsExactly(a: bv8, b: bv8)
    requires ValidAttrs(a) && ValidAttrs(b)
    ensures PrintedAttrs(a, b, a) == b <==> Follows(a, b)
  {
    if a != b {
      var a2 := AttrStep(AttrStep(a, b, a, 0x01, 1, 22), b, a, 0x02, 2, 22);
      SharedCode(a, b);
      Assemble(a, b, a2);
      UpperBits(a2, b, a);
    }
  }

  /** The attributes of the changed cells, in printing order. */
  function ChangedAttrs(cur: seq<Cell>, base: seq<Cell>, k: nat): seq<bv8>
    requires |cur| == |base| && k <= |cur|
    decreases |cur| - k
  {
    if k == |cur| then []
    else if cur[k] == base[k] then ChangedAttrs(cur, base, k + 1)
    else [cur[k].attrs] + ChangedAttrs(cur, base, k + 1)
  }

  predicate Chained(attrs: seq<bv8>) {
    forall i :: 0 <= i < |attrs| - 1 ==> Follows(attrs[i], attrs[i + 1])
  }

  /** The attribute codes can express this sequence of cells on a terminal whose pen has `pen`. */
  predicate Expressible(pen: bv8, attrs: seq<bv8>) {
    attrs == [] || (Opens(pen, attrs[0]) && Chained(attrs))
  }

  lemma ChainedSplit(a: bv8, rest: seq<bv8>)
    ensures Chained([a] + rest) <==> (rest == [] || (Follows(a, rest[0]) && Chained(rest)))
  {
    var s := [a] + rest;
    if rest != [] {
      assert s[0] == a && s[1] == rest[0];
      forall i | 0 <= i < |rest| - 1 && Chained(s) ensures Follows(rest[i], rest[i + 1]) {
        assert Follows(s[i + 1], s[i + 2]);
      }
      forall i | 0 <= i < |s| - 1 && Follows(a, rest[0]) && Chained(rest) ensures Follows(s[i], s[i + 1]) {
        if i > 0 { assert Follows(rest[i - 1], rest[i]); }
      }
    }
  }

  /** The chain goes on exactly if the next changed cell gets its attributes. */
  lemma ChainedStep(cur: seq<Cell>, base: seq<Cell>, k: nat, pen: bv8)
    requires |cur| == |base| && k < |cur| && AllWellFormed(cur) && ValidAttrs(pen) && cur[k] != base[k]
    ensures ValidAttrs(cur[k].attrs)
    ensures var b := cur[k].attrs;
      Chained([pen] + ChangedAttrs(cur, base, k))
      <==> PrintedAttrs(pen, b, pen) == b && Chained([b] + ChangedAttrs(cur, base, k + 1))
  {
    assert WellFormed(cur[k]);
    FollowsExactly(pen, cur[k].attrs);
    ChainedSplit(pen, ChangedAttrs(cur, base, k));
  }

  lemma PaintedStep(cur: seq<Cell>, base: seq<Cell>, cells: seq<Cell>, k: nat, pen: bv8, last: bv8, a: bv8)
    requires |cur| == |base| == |cells| && k < |cur| && cur[k] != base[k]
    requires a == PrintedAttrs(pen, cur[k].attrs, last)
    ensures Painted(cur, base, cells, k, pen, last)
         == Painted(cur, base, cells[k := cur[k].(attrs := a)], k + 1, a, cur[k].attrs)
    ensures a != cur[k].attrs ==> Painted(cur, base, cells, k, pen, last) != cur
  {
    PaintedLooks(cur, base, cells[k := cur[k].(attrs := a)], k + 1, a, cur[k].attrs);
  }

  /** The cells before `k` are printed in full, the others as they were. */
  ghost predicate DoneTo(cur: seq<Cell>, base: seq<Cell>, cells: seq<Cell>, k: nat) {
    && |cur| == |base| == |cells| && k <= |cur|
    && forall i :: 0 <= i < |cur| ==> cells[i] == if i < k then cur[i] else base[i]
  }

  lemma DoneNext(cur: seq<Cell>, base: seq<Cell>, cells: seq<Cell>, k: nat)
    requires DoneTo(cur, base, cells, k)
    ensures k == |cur| ==> cells == cur
    ensures k < |cur| ==> DoneTo(cur, base, cells[k := cur[k]], k + 1)
    ensures k < |cur| && cur[k] == base[k] ==> DoneTo(cur, base, cells, k + 1)
  {
  }

  /** Printing one changed cell in full leaves the rest to be printed in full; anything less is never made up. */
  lemma PaintedChanged(cur: seq<Cell>, base: seq<Cell>, cells: seq<Cell>, k: nat, pen: bv8)
    requires |cur| == |base| == |cells| && k < |cur| && cur[k] != base[k]
    ensures var b := cur[k].attrs;
      Painted(cur, base, cells, k, pen, pen) == cur
      <==> PrintedAttrs(pen, b, pen) == b && Painted(cur, base, cells[k := cur[k]], k + 1, b, b) == cur
  {
    var b := cur[k].attrs;
    var a := PrintedAttrs(pen, b, pen);
    PaintedStep(cur, base, cells, k, pen, pen, a);
    if a == b { assert cur[k].(attrs := a) == cur[k]; }
  }

  /** Printing the cells from `k` on reproduces the grid exactly if the chain of their attributes holds. */
  ghost predicate ExactFrom(cur: seq<Cell>, base: seq<Cell>, cells: seq<Cell>, k: nat, pen: bv8)
    requires |cur| == |base| == |cells| && k <= |cur|
  {
    Painted(cur, base, cells, k, pen, pen) == cur <==> Chained([pen] + ChangedAttrs(cur, base, k))
  }

  lemma ExactChanged(cur: seq<Cell>, base: seq<Cell>, cells: seq<Cell>, k: nat, pen: bv8)
    requires |cur| == |base| == |cells| && k < |cur| && AllWellFormed(cur) && ValidAttrs(pen) && cur[k] != base[k]
    requires ExactFrom(cur, base, cells[k := cur[k]], k + 1, cur[k].attrs)
    ensures ExactFrom(cur, base, cells, k, pen)
  {
    ChainedStep(cur, base, k, pen);
    PaintedChanged(cur, base, cells, k, pen);
  }

  lemma {:induction false} PaintedExactly(cur: seq<Cell>, base: seq<Cell>, cells: seq<Cell>, k: nat, pen: bv8)
    requires AllWellFormed(cur) && ValidAttrs(pen) && DoneTo(cur, base, cells, k)
    ensures ExactFrom(cur, base, cells, k, pen)
    decreases |cur| - k
  {
    DoneNext(cur, base, cells, k);
    if k == |cur| {
    } else if cur[k] == base[k] {
      PaintedExactly(cur, base, cells, k + 1, pen);
    } else {
      assert WellFormed(cur[k]);
      PaintedExactly(cur, base, cells[k := cur[k]], k + 1, cur[k].attrs);
      ExactChanged(cur, base, cells, k, pen);
    }
  }

  /** The first changed cell is printed in full exactly if the seed allows it; anything less is never made up. */
  lemma PaintedFirst(cur: seq<Cell>, base: seq<Cell>, k: nat, pen: bv8)
    requires |cur| == |base| && k < |cur| && cur[k] != base[k] && ValidAttrs(pen) && ValidAttrs(cur[k].attrs)
    ensures var b := cur[k].attrs;
      Painted(cur, base, base, k, pen, 0xFF) == cur
      <==> Opens(pen, b) && Painted(cur, base, base[k := cur[k]], k + 1, b, b) == cur
  {
    var b := cur[k].attrs;
    var a := PrintedAttrs(pen, b, 0xFF);
    OpensExactly(pen, b);
    PaintedStep(cur, base, base, k, pen, 0xFF, a);
    if a == b { assert cur[k].(attrs := a) == cur[k]; }
  }

  /** Printing the cells from `k` on, with the seed, reproduces the grid exactly if their attributes are expressible. */
  ghost predicate FirstExactFrom(cur: seq<Cell>, base: seq<Cell>, k: nat, pen: bv8)
    requires |cur| == |base| && k <= |cur|
  {
    Painted(cur, base, base, k, pen, 0xFF) == cur <==> Expressible(pen, ChangedAttrs(cur, base, k))
  }

  lemma FirstExactChanged(cur: seq<Cell>, base: seq<Cell>, k: nat, pen: bv8)
    requires |cur| == |base| && k < |cur| && cur[k] != base[k] && ValidAttrs(pen) && ValidAttrs(cur[k].attrs)
    requires ExactFrom(cur, base, base[k := cur[k]], k + 1, cur[k].attrs)
    ensures FirstExactFrom(cur, base, k, pen)
  {
    PaintedFirst(cur, base, k, pen);
  }

  lemma {:induction false} FirstPaintedExactly(cur: seq<Cell>, base: seq<Cell>, k: nat, pen: bv8)
    requires AllWellFormed(cur) && ValidAttrs(pen) && DoneTo(cur, base, base, k)
    ensures FirstExactFrom(cur, base, k, pen)
    decreases |cur| - k
  {
    DoneNext(cur, base, base, k);
    if k == |cur| {
    } else if cur[k] == base[k] {
      FirstPaintedExactly(cur, base, k + 1, pen);
    } else {
      assert WellFormed(cur[k]);
      PaintedExactly(cur, base, base[k := cur[k]], k + 1, cur[k].attrs);
      FirstExactChanged(cur, base, k, pen);
    }
  }

  /**
   Exactly when a redraw also reproduces the attributes: on a terminal that shows `base`, it shows `cur` in
   every respect afterwards if and only if the changed cells' attributes are expressible.
   */
  lemma RedrawIsExactIff(t: Screen, cur: seq<Cell>, base: seq<Cell>)
    requires t.Valid() && |cur| == |base| && AllWellFormed(cur) && t.cells == base && ValidAttrs(t.pen.attrs)
    ensures Printable(cur)
    ensures Run(t, Emit(t.width, cur, base)).cells == cur
      <==> Expressible(t.pen.attrs, ChangedAttrs(cur, base, 0))
  {
    RunEmit(t, cur, base);
    FirstPaintedExactly(cur, base, 0, t.pen.attrs);
  }

  /** A single bold cell on a blank screen loses its bold attribute. */
  lemma BoldIsLost()
    ensures var c := Cell([65], 0, 0, 1);
      var t := Screen(1, 1, [BLANK], true, 0, 0, Pen(0, 0, 0));
      WellFormed(c) && Run(t, Emit(1, [c], [BLANK])).cells != [c]
  {
    var c := Cell([65], 0, 0, 1);
    var t := Screen(1, 1, [BLANK], true, 0, 0, Pen(0, 0, 0));
    RedrawIsExactIff(t, [c], [BLANK]);
    assert ChangedAttrs([c], [BLANK], 0) == [1];
    assert Bold(1) && !Dim(1);
  }
}
