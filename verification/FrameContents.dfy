/** What a frame's grid holds: the overlay on top, the output without its colours below it, and the previous frame. */
module FrameContents {
  import opened Bytes
  import opened Cells
  import opened Collections
  import opened Fidelity
  import opened Interpreter
  import opened Tokens
  import opened Uncoloring
  import opened Frames

  // ----- what a text writes does not depend on what was there -----

  /** Two screens with the cursor in the same place. */
  ghost predicate SamePlace(a: Screen, b: Screen) {
    && a.Valid() && b.Valid() && a.width == b.width && a.height == b.height
    && a.cx == b.cx && a.cy == b.cy && !a.erases && !b.erases
  }

  lemma TokenKeepsPlace(a: Screen, b: Screen, tok: Token)
    requires SamePlace(a, b)
    ensures SamePlace(Apply(a, tok), Apply(b, tok))
  {
  }

  /** Which cells a text writes depends neither on the pen nor on the cells. */
  lemma {:induction false} SameWritten(a: Screen, b: Screen, toks: seq<Token>)
    requires SamePlace(a, b)
    ensures Written(a, toks) == Written(b, toks)
    decreases |toks|
  {
    if toks == [] {
    } else {
      TokenKeepsPlace(a, b, toks[0]);
      SameWritten(Apply(a, toks[0]), Apply(b, toks[0]), toks[1..]);
    }
  }

  /** The screens agree in place and pen, and on the cells in `where`. */
  ghost predicate Agree(a: Screen, b: Screen, where: set<nat>) {
    && SamePlace(a, b) && a.pen == b.pen
    && forall i :: 0 <= i < |a.cells| && i in where ==> a.cells[i] == b.cells[i]
  }

  lemma TokenKeepsAgree(a: Screen, b: Screen, where: set<nat>, tok: Token)
    requires Agree(a, b, where)
    ensures var now := if tok.Glyph? && a.OnScreen() then {Index(a.width, a.height, a.cx, a.cy)} else {};
      Agree(Apply(a, tok), Apply(b, tok), where + now)
  {
  }

  /** The cells a text writes end up the same on both. */
  lemma {:induction false} TokensKeepAgree(a: Screen, b: Screen, where: set<nat>, toks: seq<Token>)
    requires Agree(a, b, where)
    ensures Agree(ApplyAll(a, toks), ApplyAll(b, toks), where + Written(a, toks))
    decreases |toks|
  {
    if toks == [] {
      assert where + {} == where;
    } else {
      var now := if toks[0].Glyph? && a.OnScreen() then {Index(a.width, a.height, a.cx, a.cy)} else {};
      TokenKeepsAgree(a, b, where, toks[0]);
      TokensKeepAgree(Apply(a, toks[0]), Apply(b, toks[0]), where + now, toks[1..]);
      assert where + now + Written(Apply(a, toks[0]), toks[1..]) == where + Written(a, toks);
    }
  }

  lemma TokenWrites(t: Screen, tok: Token, i: nat)
    requires t.Valid() && !t.erases && i < |t.cells|
    requires tok.Glyph? && t.OnScreen() ==> i != Index(t.width, t.height, t.cx, t.cy)
    ensures Apply(t, tok).cells[i] == t.cells[i]
  {
  }

  /** The other cells stay as they are. */
  lemma {:induction false} OthersStay(t: Screen, toks: seq<Token>, i: nat)
    requires t.Valid() && !t.erases && i < |t.cells| && i !in Written(t, toks)
    ensures i < |ApplyAll(t, toks).cells| && ApplyAll(t, toks).cells[i] == t.cells[i]
    decreases |toks|
  {
    if toks == [] {
    } else {
      TokenWrites(t, toks[0], i);
      OthersStay(Apply(t, toks[0]), toks[1..], i);
    }
  }

  // ----- colours before a text -----

  lemma {:induction false} ColoursOnlyPen(t: Screen, toks: seq<Token>)
    requires t.Valid() && forall i :: 0 <= i < |toks| ==> IsColour(toks[i])
    ensures ApplyAll(t, toks) == t.(pen := ApplyAll(t, toks).pen)
    decreases |toks|
  {
    if toks == [] {
    } else {
      ColoursOnlyPen(Apply(t, toks[0]), toks[1..]);
    }
  }

  /** Without attributes there is nothing for the code 22 to switch off. */
  lemma UnboldDoesNothing(t: Screen)
    requires t.Valid() && t.pen.attrs == 0
    ensures Apply(t, UNBOLD) == t
  {
    assert Args([22]) == [50, 50];
    ApplyPrinted(t, [22], SGR);
    assert Rendition(t.pen, [22], 0) == Rendition(Plain(t.pen, 22), [22], 1);
  }

  lemma SyncBytes()
    ensures Text([SYNC_START]) == [ESC, OPEN, QUESTION, 50, 48, 50, 54, 104]   // ESC [ ? 2026 h
    ensures Text([SYNC_END]) == [ESC, OPEN, QUESTION, 50, 48, 50, 54, 108]     // ESC [ ? 2026 l
  {
    assert [SYNC_START][1..] == [] && [SYNC_END][1..] == [];
  }

  lemma ClearBytes()
    ensures Text([ERASE, HOME]) == [ESC, OPEN, 50, 74, ESC, OPEN, 48, SEMI, 48, HVP]   // ESC [ 2 J ESC [ 0 ; 0 f
  {
    assert [ERASE, HOME][1..] == [HOME] && [HOME][1..] == [];
    assert Text([HOME]) == [ESC, OPEN, 48, SEMI, 48, HVP];
  }

  /** The bytes around the printed cells: DEC private mode 2026 on and off, ED and HVP. */
  lemma BracketBytes(full: bool, f: Frame)
    ensures Text(Prefix(full, f))
         == (if f.sync then [ESC, OPEN, QUESTION, 50, 48, 50, 54, 104] else [])
            + (if full then [ESC, OPEN, 50, 74, ESC, OPEN, 48, SEMI, 48, HVP] else [])
    ensures Text(Suffix(f)) == if f.sync then [ESC, OPEN, QUESTION, 50, 48, 50, 54, 108] else []
  {
    SyncBytes();
    ClearBytes();
    TextConcat(if f.sync then [SYNC_START] else [], if full then [ERASE, HOME] else []);
  }

  // ----- the grid of a frame -----

  /** Where every text of a frame starts: at home, on the previous grid, with the theme's colours. */
  function Start(b: Buffer, f: Frame): Screen {
    Screen(b.w, b.h, b.previous, false, 0, 0, Pen(f.resetFg, f.resetBg, 0))
  }

  /** Without an overlay the output is rendered as it is. */
  lemma OutputAlone(b: Buffer, f: Frame)
    requires |b.previous| == b.w * b.h && f.overlay == []
    ensures b.Next(f) == Run(Start(b, f), f.output).cells
  {
    RenderOne(b.w, b.h, b.previous, f.output, f);
  }

  /** Without output so is the overlay. */
  lemma OverlayAlone(b: Buffer, f: Frame)
    requires |b.previous| == b.w * b.h && f.overlay != [] && f.output == []
    ensures b.Next(f) == Run(Start(b, f), f.overlay).cells
  {
    RenderOne(b.w, b.h, b.previous, f.overlay, f);
  }

  lemma UnboldSkipped(t: Screen, more: seq<Byte>)
    requires t.Valid() && t.pen.attrs == 0
    ensures Run(t, TokenBytes(UNBOLD) + more) == Run(t, more)
  {
    UnboldDoesNothing(t);
    StepToken(t, UNBOLD, more);
  }

  /** The screen when the output without its colours is about to be rendered. */
  lemma Dimmed(t: Screen, dim: seq<Token>, more: seq<Byte>)
    requires t.Valid() && t.pen.attrs == 0 && AllComplete(dim) && forall i :: 0 <= i < |dim| ==> IsColour(dim[i])
    ensures Run(t, Text(dim)) == t.(pen := Run(t, Text(dim)).pen)
    ensures Run(t, TokenBytes(UNBOLD) + Text(dim) + more) == Run(Run(t, Text(dim)), more)
  {
    Regroup(TokenBytes(UNBOLD), Text(dim), more);
    UnboldSkipped(t, Text(dim) + more);
    RunText(t, dim, more);
    RunWhole(t, dim);
    ColoursOnlyPen(t, dim);
  }

  /** What the output leaves below an overlay: its characters, in the inactive pen. */
  lemma UnderOverlay(t: Screen, dim: seq<Token>, out: seq<Token>, under: Screen)
    requires t.Valid() && !t.erases && t.pen.attrs == 0 && AllClean(out)
    requires AllComplete(dim) && forall i :: 0 <= i < |dim| ==> IsColour(dim[i])
    requires under == Run(t, TokenBytes(UNBOLD) + Text(dim) + Uncoloured(Text(out)))
    ensures |under.cells| == |t.cells| == |Run(t, Text(out)).cells|
    ensures var pen := Run(t, Text(dim)).pen;
      forall i: nat :: i < |t.cells| ==>
        under.cells[i]
        == if i in Written(t, out) then Cell(Run(t, Text(out)).cells[i].ch, pen.fg, pen.bg, pen.attrs) else t.cells[i]
  {
    var u := Run(t, Text(dim));
    Dimmed(t, dim, Uncoloured(Text(out)));
    UncolourRendersPlainly(u, out);
    SameWritten(u, t, out);
    SameCharacters(u, t, out);
    RunWhole(u, out);
    RunWhole(t, out);
  }

  /** The pen does not matter for the characters written. */
  lemma SameCharacters(a: Screen, b: Screen, toks: seq<Token>)
    requires SamePlace(a, b) && a.cells == b.cells
    ensures |ApplyAll(a, toks).cells| == |ApplyAll(b, toks).cells|
    ensures forall i :: 0 <= i < |ApplyAll(a, toks).cells| ==>
      ApplyAll(a, toks).cells[i].ch == ApplyAll(b, toks).cells[i].ch
  {
    CharactersStay(a, b, toks);
  }

  lemma {:induction false} CharactersStay(a: Screen, b: Screen, toks: seq<Token>)
    requires SamePlace(a, b) && forall i :: 0 <= i < |a.cells| ==> a.cells[i].ch == b.cells[i].ch
    ensures var u, v := ApplyAll(a, toks).cells, ApplyAll(b, toks).cells;
      |u| == |v| && forall i :: 0 <= i < |u| ==> u[i].ch == v[i].ch
    decreases |toks|
  {
    if toks == [] {
    } else {
      TokenKeepsCharacters(a, b, toks[0]);
      CharactersStay(Apply(a, toks[0]), Apply(b, toks[0]), toks[1..]);
    }
  }

  lemma TokenKeepsCharacters(a: Screen, b: Screen, tok: Token)
    requires SamePlace(a, b) && forall i :: 0 <= i < |a.cells| ==> a.cells[i].ch == b.cells[i].ch
    ensures SamePlace(Apply(a, tok), Apply(b, tok))
    ensures forall i :: 0 <= i < |Apply(a, tok).cells| ==> Apply(a, tok).cells[i].ch == Apply(b, tok).cells[i].ch
  {
  }

  /**
   With both, a cell the overlay writes is what the overlay makes it; a cell only the output writes has the
   output's character in the theme's inactive colour; every other cell is still the previous frame's.
   */
  lemma OverlayOnTop(b: Buffer, f: Frame, out: seq<Token>, over: seq<Token>, dim: seq<Token>)
    requires |b.previous| == b.w * b.h && f.overlay != [] && f.output != []
    requires AllClean(out) && f.output == Text(out) && AllComplete(over) && f.overlay == Text(over)
    requires AllComplete(dim) && f.inactiveFg == Text(dim) && forall i :: 0 <= i < |dim| ==> IsColour(dim[i])
    ensures var start := Start(b, f);
      var pen := Run(start, f.inactiveFg).pen;
      && |b.Next(f)| == |b.previous| == |Run(start, f.overlay).cells| == |Run(start, f.output).cells|
      && forall i: nat :: i < |b.previous| ==>
           b.Next(f)[i]
           == if i in Written(start, over) then Run(start, f.overlay).cells[i]
              else if i in Written(start, out)
              then Cell(Run(start, f.output).cells[i].ch, pen.fg, pen.bg, pen.attrs)
              else b.previous[i]
  {
    var start := Start(b, f);
    var under := Run(start, TokenBytes(UNBOLD) + f.inactiveFg + Uncoloured(f.output));
    UnderOverlay(start, dim, out, under);
    var again := start.(cells := under.cells);
    RenderOne(b.w, b.h, under.cells, f.overlay, f);
    assert b.Next(f) == Run(again, f.overlay).cells;
    RunWhole(again, over);
    RunWhole(start, over);
    TokensKeepAgree(start, again, {}, over);
    SameWritten(start, again, over);
    assert {} + Written(start, over) == Written(start, over);
    forall i: nat | i < |b.previous| && i !in Written(start, over) ensures b.Next(f)[i] == under.cells[i] {
      OthersStay(again, over, i);
    }
  }

  // ----- forced and unforced frames -----

  /** A forced frame is shown whatever the terminal showed before, in step with the program or not. */
  lemma ForcedFrameShows(b: Buffer, t: Screen, f: Frame)
    requires b.Valid() && Drawable(f) && t.Valid() && t.erases && t.width == b.w && t.height == b.h
    requires f.forceFull || b.forceFull
    ensures Printable(b.Next(f)) && SameLooks(Run(t, FrameBytes(b, f)).cells, b.Next(f))
  {
    NextIsWellFormed(b, f);
    FrameOnTerminal(t, b, f);
    RedrawShowsCurrent(ApplyAll(t, Prefix(true, f)), b.Next(f), Blanks(|t.cells|));
  }

  /** Any other frame leaves every cell of the terminal alone that has not changed since the last one. */
  lemma UnforcedFrameSpares(b: Buffer, t: Screen, f: Frame, i: nat)
    requires b.Valid() && Drawable(f) && t.Valid() && t.erases && t.width == b.w && t.height == b.h
    requires !f.forceFull && !b.forceFull && SameLooks(t.cells, b.previous)
    requires i < |t.cells| && b.Next(f)[i] == b.previous[i]
    ensures Printable(b.Next(f)) && Run(t, FrameBytes(b, f)).cells[i] == t.cells[i]
  {
    NextIsWellFormed(b, f);
    FrameOnTerminal(t, b, f);
    RedrawShowsCurrent(ApplyAll(t, Prefix(false, f)), b.Next(f), b.previous);
  }
}
