/** Removing colour sequences from text, and what is left of its rendering. */
module Uncoloring {
  import opened Bytes
  import opened Cells
  import opened Collections
  import opened Interpreter
  import opened Tokens
  import opened Rendering

  // ----- the specification -----

  function SkipArgs(s: seq<Byte>): (rest: seq<Byte>)
    ensures |rest| <= |s|
  {
    if s != [] && IsArg(s[0]) then SkipArgs(s[1..]) else s
  }

  /** A colour sequence starts at the head of `s`. */
  predicate StartsColour(s: seq<Byte>) {
    && 1 < |s| && s[0] == ESC && s[1] == OPEN
    && var rest := SkipArgs(s[2..]);
       rest != [] && rest[0] == SGR
  }

  function Uncoloured(s: seq<Byte>): seq<Byte>
    decreases |s|
  {
    if s == [] then []
    else if StartsColour(s) then Uncoloured(SkipArgs(s[2..])[1..])
    else [s[0]] + Uncoloured(s[1..])
  }

  lemma CopiesByte(before: seq<Byte>, s: seq<Byte>, i: nat)
    requires i < |s| && !StartsColour(s[i..])
    ensures before + Uncoloured(s[i..]) == before + [s[i]] + Uncoloured(s[i + 1..])
  {
    assert s[i..][1..] == s[i + 1..];
    Regroup(before, [s[i]], Uncoloured(s[i + 1..]));
  }

  method Uncolor(s: seq<Byte>) returns (out: seq<Byte>)
    ensures out == Uncoloured(s)
  {
    out := [];
    var i := 0;
    assert s[0..] == s;
    while i < |s|
      invariant i <= |s|
      invariant out + Uncoloured(s[i..]) == Uncoloured(s)
      decreases |s| - i
    {
      ghost var rest := s[i..];
      if s[i] == ESC && i + 1 < |s| && s[i + 1] == OPEN {
        var j := i + 2;
        assert rest[2..] == s[j..];
        while j < |s| && IsArg(s[j])
          invariant i + 2 <= j <= |s|
          invariant SkipArgs(rest[2..]) == SkipArgs(s[j..])
        {
          assert s[j..][1..] == s[j + 1..];
          j := j + 1;
        }
        assert SkipArgs(s[j..]) == s[j..];
        if j < |s| && s[j] == SGR {
          assert s[j..][1..] == s[j + 1..];
          i := j + 1;
          continue;
        }
      }
      CopiesByte(out, s, i);
      out := out + [s[i]];
      i := i + 1;
    }
    assert s[i..] == [];
  }

  // ----- texts of complete tokens -----

  /** Continuation bytes are never ESC (RFC 3629, section 3). */
  predicate Clean(tok: Token) {
    Complete(tok) && (tok.Glyph? ==> forall i :: 0 < i < |tok.ch| ==> tok.ch[i] >= 128)
  }

  predicate AllClean(toks: seq<Token>) {
    forall i :: 0 <= i < |toks| ==> Clean(toks[i])
  }

  predicate IsColour(tok: Token) {
    tok.Csi? && !tok.private && tok.fin == SGR
  }

  function WithoutColours(toks: seq<Token>): (r: seq<Token>)
    ensures AllClean(toks) ==> AllClean(r)
  {
    if toks == [] then []
    else (if IsColour(toks[0]) then [] else [toks[0]]) + WithoutColours(toks[1..])
  }

  lemma {:induction false} SkipAllArgs(args: seq<Byte>, tail: seq<Byte>)
    requires AllArgs(args) && tail != [] && !IsArg(tail[0])
    ensures SkipArgs(args + tail) == tail
  {
    if args == [] {
      assert args + tail == tail;
    } else {
      assert (args + tail)[0] == args[0] && IsArg(args[0]);
      assert (args + tail)[1..] == args[1..] + tail;
      SkipAllArgs(args[1..], tail);
    }
  }

  /** Bytes other than ESC are copied. */
  lemma {:induction false} CopiesPlain(a: seq<Byte>, rest: seq<Byte>)
    requires forall i :: 0 <= i < |a| ==> a[i] != ESC
    ensures Uncoloured(a + rest) == a + Uncoloured(rest)
  {
    if a == [] {
      assert a + rest == rest;
    } else {
      CopiesPlain(a[1..], rest);
      CopiesOne(a[0], a[1..] + rest);
      assert a + rest == [a[0]] + (a[1..] + rest);
      assert a + Uncoloured(rest) == [a[0]] + (a[1..] + Uncoloured(rest));
    }
  }

  lemma CopiesOne(b: Byte, s: seq<Byte>)
    requires b != ESC
    ensures Uncoloured([b] + s) == [b] + Uncoloured(s)
  {
    assert ([b] + s)[1..] == s;
  }

  lemma DropsColour(args: seq<Byte>, rest: seq<Byte>)
    requires AllArgs(args)
    ensures Uncoloured(TokenBytes(Csi(false, args, SGR)) + rest) == Uncoloured(rest)
  {
    var s := TokenBytes(Csi(false, args, SGR)) + rest;
    var tail := [SGR] + rest;
    assert s[2..] == args + tail;
    SkipAllArgs(args, tail);
    assert tail[1..] == rest;
  }

  lemma NoColourStarts(private: bool, args: seq<Byte>, fin: Byte, rest: seq<Byte>)
    requires AllArgs(args) && 0x40 <= fin <= 0x7E && (private || fin != SGR)
    ensures !StartsColour(TokenBytes(Csi(private, args, fin)) + rest)
  {
    var s := TokenBytes(Csi(private, args, fin)) + rest;
    var tail := [fin] + rest;
    if private {
      assert s[2..] == [QUESTION] + args + tail;
    } else {
      assert s[2..] == args + tail;
      SkipAllArgs(args, tail);
    }
  }

  lemma KeepsSequence(private: bool, args: seq<Byte>, fin: Byte, rest: seq<Byte>)
    requires AllArgs(args) && 0x40 <= fin <= 0x7E && (private || fin != SGR)
    ensures var b := TokenBytes(Csi(private, args, fin));
      Uncoloured(b + rest) == b + Uncoloured(rest)
  {
    var b := TokenBytes(Csi(private, args, fin));
    var inner := [OPEN] + (if private then [QUESTION] else []) + args + [fin];
    NoColourStarts(private, args, fin, rest);
    assert b + rest == [ESC] + (inner + rest) && (b + rest)[1..] == inner + rest;
    assert forall i :: 0 <= i < |args| ==> IsArg(args[i]);
    CopiesPlain(inner, rest);
    assert b + Uncoloured(rest) == [ESC] + (inner + Uncoloured(rest));
  }

  /** Uncolouring a text of complete tokens drops its colour tokens and keeps all others. */
  lemma {:induction false} UncolouredText(toks: seq<Token>)
    requires AllClean(toks)
    ensures Uncoloured(Text(toks)) == Text(WithoutColours(toks))
  {
    if toks != [] {
      var tok, rest := toks[0], Text(toks[1..]);
      UncolouredText(toks[1..]);
      if IsColour(tok) {
        DropsColour(tok.args, rest);
        assert WithoutColours(toks) == WithoutColours(toks[1..]);
      } else {
        match tok {
          case Csi(private, args, fin) => KeepsSequence(private, args, fin, rest);
          case Glyph(ch) => CopiesPlain(ch, rest);
          case Newline => CopiesPlain([LF], rest);
          case Return => CopiesPlain([CR], rest);
        }
        assert WithoutColours(toks) == [tok] + WithoutColours(toks[1..]);
      }
    }
  }

  // ----- rendering with and without colours -----

  /** The positions at which rendering `toks` writes a character. */
  function Written(t: Screen, toks: seq<Token>): set<nat>
    requires t.Valid()
    decreases |toks|
  {
    if toks == [] then {}
    else
      (if toks[0].Glyph? && t.OnScreen() then {Index(t.width, t.height, t.cx, t.cy)} else {})
      + Written(Apply(t, toks[0]), toks[1..])
  }

  /** Rendered with and without colours, starting from `start` with pen `pen`, after writing at `where`. */
  ghost predicate Alike(start: seq<Cell>, pen: Pen, coloured: Screen, plain: Screen, where: set<nat>) {
    && coloured.Valid() && plain.Valid()
    && coloured.width == plain.width && coloured.height == plain.height
    && !coloured.erases && !plain.erases
    && coloured.cx == plain.cx && coloured.cy == plain.cy && plain.pen == pen
    && |start| == |coloured.cells|
    && forall i :: 0 <= i < |start| ==>
         if i in where then plain.cells[i] == Cell(coloured.cells[i].ch, pen.fg, pen.bg, pen.attrs)
         else plain.cells[i] == start[i] && coloured.cells[i] == start[i]
  }

  lemma TokenKeepsAlike(start: seq<Cell>, pen: Pen, a: Screen, b: Screen, where: set<nat>, tok: Token)
    requires Alike(start, pen, a, b, where)
    ensures var now := if tok.Glyph? && a.OnScreen() then {Index(a.width, a.height, a.cx, a.cy)} else {};
      Alike(start, pen, Apply(a, tok), if IsColour(tok) then b else Apply(b, tok), where + now)
  {
  }

  lemma {:induction false} TokensKeepAlike(
    start: seq<Cell>, pen: Pen, a: Screen, b: Screen, where: set<nat>, toks: seq<Token>)
    requires Alike(start, pen, a, b, where)
    ensures Alike(start, pen, ApplyAll(a, toks), ApplyAll(b, WithoutColours(toks)), where + Written(a, toks))
    decreases |toks|
  {
    if toks == [] {
      assert where + {} == where;
    } else {
      var tok := toks[0];
      var now := if tok.Glyph? && a.OnScreen() then {Index(a.width, a.height, a.cx, a.cy)} else {};
      var b' := if IsColour(tok) then b else Apply(b, tok);
      TokenKeepsAlike(start, pen, a, b, where, tok);
      TokensKeepAlike(start, pen, Apply(a, tok), b', where + now, toks[1..]);
      var rest := WithoutColours(toks[1..]);
      if IsColour(tok) {
        assert [] + rest == rest;
      } else {
        assert ([tok] + rest)[1..] == rest;
      }
      assert where + now + Written(Apply(a, tok), toks[1..]) == where + Written(a, toks);
    }
  }

  /**
   For a text of complete tokens, rendering its uncoloured form writes the same characters to the same
   cells, leaves all other cells alone, and gives every written cell the starting pen.
   */
  lemma UncolourRendersPlainly(t: Screen, toks: seq<Token>)
    requires t.Valid() && !t.erases && AllClean(toks)
    ensures var coloured, plain := Run(t, Text(toks)), Run(t, Uncoloured(Text(toks)));
      Alike(t.cells, t.pen, coloured, plain, Written(t, toks))
  {
    UncolouredText(toks);
    RunWhole(t, toks);
    RunWhole(t, WithoutColours(toks));
    assert Alike(t.cells, t.pen, t, t, {});
    TokensKeepAlike(t.cells, t.pen, t, t, {}, toks);
    assert {} + Written(t, toks) == Written(t, toks);
  }

  // ----- renderable token texts -----

  predicate Fits(tok: Token) {
    IsColour(tok) ==> OperandsFit(Params(tok.args), 0)
  }

  lemma SequenceRenderable(private: bool, args: seq<Byte>, fin: Byte, rest: seq<Byte>)
    requires Complete(Csi(private, args, fin)) && Fits(Csi(private, args, fin)) && Renderable(rest)
    ensures Renderable(TokenBytes(Csi(private, args, fin)) + rest)
  {
    CsiScans(private, args, fin, rest);
    assert ([fin] + rest)[1..] == rest;
  }

  lemma GlyphRenderable(ch: seq<Byte>, rest: seq<Byte>)
    requires ValidChar(ch) && Renderable(rest)
    ensures Renderable(ch + rest)
  {
    assert (ch + rest)[0] == ch[0];
    assert (ch + rest)[|ch|..] == rest;
  }

  lemma TokenRenderable(tok: Token, rest: seq<Byte>)
    requires Complete(tok) && Fits(tok) && Renderable(rest)
    ensures Renderable(TokenBytes(tok) + rest)
  {
    match tok
    case Csi(private, args, fin) => SequenceRenderable(private, args, fin, rest);
    case Glyph(ch) => GlyphRenderable(ch, rest);
    case Newline => assert ([LF] + rest)[1..] == rest;
    case Return => assert ([CR] + rest)[1..] == rest;
  }

  lemma TextStep(toks: seq<Token>, rest: seq<Byte>)
    requires toks != []
    ensures Text(toks) + rest == TokenBytes(toks[0]) + (Text(toks[1..]) + rest)
  {
  }

  /** Texts of complete tokens with byte-sized colour operands are renderable, coloured or not. */
  lemma {:induction false} TokensRenderable(toks: seq<Token>, rest: seq<Byte>)
    requires AllComplete(toks) && (forall i :: 0 <= i < |toks| ==> Fits(toks[i])) && Renderable(rest)
    ensures Renderable(Text(toks) + rest)
  {
    if toks == [] {
      assert Text(toks) + rest == rest;
    } else {
      TokensRenderable(toks[1..], rest);
      TextStep(toks, rest);
      TokenRenderable(toks[0], Text(toks[1..]) + rest);
    }
  }

  /** What is left after uncolouring is renderable whatever the colours were. */
  lemma UncolouredRenderable(toks: seq<Token>)
    requires AllClean(toks)
    ensures Renderable(Uncoloured(Text(toks)))
  {
    UncolouredText(toks);
    NoColoursLeft(toks);
    TokensRenderable(WithoutColours(toks), []);
    assert Text(WithoutColours(toks)) + [] == Text(WithoutColours(toks));
  }

  lemma {:induction false} NoColoursLeft(toks: seq<Token>)
    requires AllClean(toks)
    ensures var r := WithoutColours(toks);
      AllComplete(r) && forall i :: 0 <= i < |r| ==> !IsColour(r[i])
  {
    if toks != [] { NoColoursLeft(toks[1..]); }
  }

  /**
   Outside such texts uncolouring can make a colour sequence: here the bytes around a dropped sequence join up,
   and the letter A comes out in colour 1.
   */
  lemma UncolouringMakesColour()
    ensures var s := [ESC, ESC, OPEN, 48, SGR, OPEN, 51, 49, SGR, 65];
      var t := Screen(1, 1, [BLANK], false, 0, 0, Pen(0, 0, 0));
      Uncoloured(s) == [ESC, OPEN, 51, 49, SGR, 65] && Run(t, Uncoloured(s)).cells == [Cell([65], 2, 0, 0)]
  {
    var tail := [OPEN, 51, 49, SGR, 65];
    var dropped := [ESC, OPEN, 48, SGR];
    assert TokenBytes(Csi(false, [48], SGR)) == dropped;
    DropsColour([48], tail);
    CopiesPlain(tail, []);
    assert tail + [] == tail;
    CopiesLoneEscape(dropped + tail);
    assert [ESC, ESC, OPEN, 48, SGR, OPEN, 51, 49, SGR, 65] == [ESC] + (dropped + tail);
    MadeColourRenders();
  }

  lemma CopiesLoneEscape(s: seq<Byte>)
    requires s != [] && s[0] != OPEN
    ensures Uncoloured([ESC] + s) == [ESC] + Uncoloured(s)
  {
    assert ([ESC] + s)[1] == s[0] && ([ESC] + s)[1..] == s;
  }

  lemma MadeColourRenders()
    ensures var t := Screen(1, 1, [BLANK], false, 0, 0, Pen(0, 0, 0));
      Run(t, [ESC, OPEN, 51, 49, SGR, 65]).cells == [Cell([65], 2, 0, 0)]
  {
    var t := Screen(1, 1, [BLANK], false, 0, 0, Pen(0, 0, 0));
    var red, letter := Csi(false, [51, 49], SGR), Glyph([65]);
    assert Args([31]) == [51, 49];
    ApplyPrinted(t, [31], SGR);
    assert Rendition(t.pen, [31], 0) == Plain(t.pen, 31);
    assert TokenBytes(red) == [ESC, OPEN, 51, 49, SGR];
    StepToken(t, red, [65]);
    StepToken(Apply(t, red), letter, []);
    assert [ESC, OPEN, 51, 49, SGR] + [65] == [ESC, OPEN, 51, 49, SGR, 65] && [65] + [] == [65];
  }
}
