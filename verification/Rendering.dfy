/** Rendering keeps the grid printable: every cell it writes can be emitted and read back. */
module Rendering {
  import opened Arithmetic
  import opened Bytes
  import opened Cells
  import opened Interpreter

  /** Every colour component or palette index given after 38 or 48 fits in a byte. */
  predicate OperandsFit(params: seq<nat>, p: nat)
    requires p <= |params|
    decreases |params| - p
  {
    p == |params|
    || (if params[p] == 38 || params[p] == 48 then
          var o := ColourOperand(params, p);
          && (forall i :: p + 2 <= i <= p + o.skip ==> params[i] < 256)
          && OperandsFit(params, p + o.skip + 1)
        else OperandsFit(params, p + 1))
  }

  /** ESC only begins control sequences, and colour operands fit in a byte. */
  predicate Renderable(s: seq<Byte>)
    decreases |s|
  {
    if s == [] then true
    else if s[0] == ESC then
      && 1 < |s| && s[1] == OPEN
      && var private := 2 < |s| && s[2] == QUESTION;
         var scan := ScanParams(if private then s[3..] else s[2..], [], -1);
         scan.rest == []
         || ((!private && scan.rest[0] == SGR ==> OperandsFit(scan.params, 0)) && Renderable(scan.rest[1..]))
    else if s[0] == LF || s[0] == CR || Utf8Length(s[0]) > |s| then Renderable(s[1..])
    else Renderable(s[Utf8Length(s[0])..])
  }

  lemma SmallIndex(n: nat)
    requires n < 256
    ensures (n % WORD + 1) % WORD == n + 1
  {
  }

  lemma OperandIsValid(params: seq<nat>, p: nat)
    requires p < |params| && (params[p] == 38 || params[p] == 48) && OperandsFit(params, p)
    ensures var o := ColourOperand(params, p);
      (o.Colour? ==> ValidColour(o.value)) && OperandsFit(params, p + o.skip + 1)
  {
    var o := ColourOperand(params, p);
    if o.Colour? {
      assert forall i :: p + 2 <= i <= p + o.skip ==> params[i] < 256;
      var n := params[p + 2];
      if params[p + 1] == 2 {
        PackIsPositional(n, params[p + 3], params[p + 4]);
      } else {
        SmallIndex(n);
      }
    }
  }

  lemma PlainKeepsAttrs(pen: Pen, code: nat)
    requires ValidAttrs(pen.attrs)
    ensures ValidAttrs(Plain(pen, code).attrs)
  {
  }

  lemma {:induction false} RenditionKeepsAttrs(pen: Pen, params: seq<nat>, p: nat)
    requires p <= |params| && ValidAttrs(pen.attrs)
    ensures ValidAttrs(Rendition(pen, params, p).attrs)
    decreases |params| - p
  {
    if p < |params| {
      if params[p] == 38 {
        var o := ColourOperand(params, p);
        RenditionKeepsAttrs(SetFg(pen, o), params, p + o.skip + 1);
      } else if params[p] == 48 {
        var o := ColourOperand(params, p);
        RenditionKeepsAttrs(SetBg(pen, o), params, p + o.skip + 1);
      } else {
        PlainKeepsAttrs(pen, params[p]);
        RenditionKeepsAttrs(Plain(pen, params[p]), params, p + 1);
      }
    }
  }

  lemma {:induction false} RenditionKeepsPen(pen: Pen, params: seq<nat>, p: nat)
    requires p <= |params| && ValidPen(pen) && OperandsFit(params, p)
    ensures ValidPen(Rendition(pen, params, p))
    decreases |params| - p
  {
    if p < |params| {
      var o := ColourOperand(params, p);
      if params[p] == 38 {
        OperandIsValid(params, p);
        RenditionKeepsPen(SetFg(pen, o), params, p + o.skip + 1);
      } else if params[p] == 48 {
        OperandIsValid(params, p);
        RenditionKeepsPen(SetBg(pen, o), params, p + o.skip + 1);
      } else {
        PlainKeepsAttrs(pen, params[p]);
        RenditionKeepsPen(Plain(pen, params[p]), params, p + 1);
      }
    }
  }

  /** One token keeps cells and pen well-formed. */
  lemma StepKeepsWellFormed(t: Screen, s: seq<Byte>)
    requires t.Valid() && AllWellFormed(t.cells) && ValidPen(t.pen)
    requires s != [] && Renderable(s)
    ensures var r := Step(t, s);
      AllWellFormed(r.screen.cells) && ValidPen(r.screen.pen) && Renderable(r.rest)
  {
    if s[0] == ESC {
      var private := 2 < |s| && s[2] == QUESTION;
      var scan := ScanParams(if private then s[3..] else s[2..], [], -1);
      if scan.rest != [] && !private && scan.rest[0] == SGR {
        RenditionKeepsPen(t.pen, scan.params, 0);
      }
    } else if s[0] != LF && s[0] != CR && Utf8Length(s[0]) <= |s| {
      assert WellFormed(Cell(s[..Utf8Length(s[0])], t.pen.fg, t.pen.bg, t.pen.attrs));
    }
  }

  /** Rendering any renderable text leaves a grid that meets the emitters' precondition. */
  lemma {:induction false} RenderKeepsWellFormed(t: Screen, s: seq<Byte>)
    requires t.Valid() && AllWellFormed(t.cells) && ValidPen(t.pen) && Renderable(s)
    ensures AllWellFormed(Run(t, s).cells) && ValidPen(Run(t, s).pen)
    decreases |s|
  {
    if s != [] {
      StepKeepsWellFormed(t, s);
      RenderKeepsWellFormed(Step(t, s).screen, Step(t, s).rest);
    }
  }

  /** A lone ESC byte is stored as a character, which the emitters cannot print back. */
  lemma LoneEscapeIsStored()
    ensures var t := Screen(1, 1, [BLANK], false, 0, 0, Pen(0, 0, 0));
      !AllWellFormed(Run(t, [ESC]).cells)
  {
    var t := Screen(1, 1, [BLANK], false, 0, 0, Pen(0, 0, 0));
    var p := Step(t, [ESC]);
    assert p.screen.cells[0].ch == [ESC];
    assert Run(t, [ESC]) == Run(p.screen, []);
  }

  /** No text, whatever it holds, sets attribute bits that do not exist. */
  lemma {:induction false} RunKeepsAttrs(t: Screen, s: seq<Byte>)
    requires t.Valid() && ValidAttrs(t.pen.attrs)
    ensures ValidAttrs(Run(t, s).pen.attrs)
    decreases |s|
  {
    if s != [] {
      var r := Step(t, s);
      if s[0] == ESC && 1 < |s| && s[1] == OPEN {
        var private := 2 < |s| && s[2] == QUESTION;
        var scan := ScanParams(if private then s[3..] else s[2..], [], -1);
        if scan.rest != [] && !private && scan.rest[0] == SGR {
          RenditionKeepsAttrs(t.pen, scan.params, 0);
        }
      }
      RunKeepsAttrs(r.screen, r.rest);
    }
  }

  // ----- any text at all -----

  predicate WordPen(pen: Pen) {
    pen.fg < WORD && pen.bg < WORD
  }

  lemma OperandIsWord(params: seq<nat>, p: nat)
    requires p < |params|
    ensures var o := ColourOperand(params, p); o.Colour? ==> o.value < WORD
  {
    var o := ColourOperand(params, p);
    if o.Colour? && params[p + 1] == 2 { PackFitsWord(params[p + 2], params[p + 3], params[p + 4]); }
  }

  lemma {:induction false} RenditionKeepsWords(pen: Pen, params: seq<nat>, p: nat)
    requires p <= |params| && WordPen(pen)
    ensures WordPen(Rendition(pen, params, p))
    decreases |params| - p
  {
    if p == |params| {
    } else if params[p] == 38 {
      OperandIsWord(params, p);
      var o := ColourOperand(params, p);
      RenditionKeepsWords(SetFg(pen, o), params, p + o.skip + 1);
    } else if params[p] == 48 {
      OperandIsWord(params, p);
      var o := ColourOperand(params, p);
      RenditionKeepsWords(SetBg(pen, o), params, p + o.skip + 1);
    } else {
      RenditionKeepsWords(Plain(pen, params[p]), params, p + 1);
    }
  }

  lemma StepKeepsWords(t: Screen, s: seq<Byte>)
    requires t.Valid() && Printable(t.cells) && WordPen(t.pen) && s != []
    ensures Printable(Step(t, s).screen.cells) && WordPen(Step(t, s).screen.pen)
  {
    if s[0] == ESC && 1 < |s| && s[1] == OPEN {
      var private := 2 < |s| && s[2] == QUESTION;
      var scan := ScanParams(if private then s[3..] else s[2..], [], -1);
      if scan.rest != [] && !private && scan.rest[0] == SGR {
        RenditionKeepsWords(t.pen, scan.params, 0);
      }
    }
  }

  /** Whatever the text, the colours it leaves in the grid are 32-bit words. */
  lemma {:induction false} RunKeepsWords(t: Screen, s: seq<Byte>)
    requires t.Valid() && Printable(t.cells) && WordPen(t.pen)
    ensures Printable(Run(t, s).cells) && WordPen(Run(t, s).pen)
    decreases |s|
  {
    if s == [] {
    } else {
      StepKeepsWords(t, s);
      RunKeepsWords(Step(t, s).screen, Step(t, s).rest);
    }
  }
}
