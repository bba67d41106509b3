/** The double-buffered cell grid, the renderer that fills it and the emitters that print it. */
module ScreenBuffers {
  import opened Arithmetic
  import opened Bytes
  import opened Cells
  import opened Interpreter
  import opened Tokens
  import opened Emitter
  import opened Fidelity

  lemma Tails(s: seq<Byte>, i: nat, n: nat)
    requires i + n <= |s|
    ensures s[i..][n..] == s[i + n..] && s[i..][..n] == s[i..i + n]
  {
  }

  class ScreenBuffer {
    var current: array<Cell>
    var previous: array<Cell>
    var w: nat
    var h: nat
    var forceFull: bool

    ghost predicate Valid()
      reads this
    {
      current != previous && current.Length == previous.Length == w * h
    }

    constructor ()
      ensures Valid() && fresh(current) && fresh(previous)
      ensures w == 0 && h == 0 && forceFull
    {
      current, previous := new Cell[0], new Cell[0];
      w, h, forceFull := 0, 0, true;
    }

    /** Both buffers become blank and the next frame is a full one. */
    method Resize(width: nat, height: nat)
      modifies this
      ensures Valid() && fresh(current) && fresh(previous)
      ensures w == width && h == height && forceFull
      ensures current[..] == Blanks(w * h) && previous[..] == Blanks(w * h)
    {
      var size := width * height;
      assert size >= 0;
      w, h := width, height;
      current := new Cell[size](_ => BLANK);
      previous := new Cell[size](_ => BLANK);
      forceFull := true;
    }

    method Swap()
      requires Valid()
      modifies this
      ensures Valid() && current == old(previous) && previous == old(current)
      ensures w == old(w) && h == old(h) && forceFull == old(forceFull)
    {
      current, previous := previous, current;
    }

    method SetForceFull()
      modifies `forceFull
      ensures forceFull
    {
      forceFull := true;
    }

    method ClearForceFull()
      modifies `forceFull
      ensures !forceFull
    {
      forceFull := false;
    }

    /** Despite its name, starts the new frame from the contents of the previous one. */
    method ClearCurrent()
      requires Valid()
      modifies current
      ensures current[..] == previous[..]
    {
      forall i | 0 <= i < current.Length {
        current[i] := previous[i];
      }
    }

    /** Writes a cell if the position is on the grid. */
    method SetCell(x: int, y: int, c: Cell)
      requires Valid()
      modifies current
      ensures current[..]
           == if 0 <= x < w && 0 <= y < h then old(current[..])[Index(w, h, x, y) := c] else old(current[..])
    {
      if 0 <= x < w && 0 <= y < h {
        current[Index(w, h, x, y)] := c;
      }
    }

    /** Consumes a line break or a character at position `i`. */
    method ReadPlain(s: seq<Byte>, i: nat, cx: int, cy: int, pen: Pen) returns (j: nat, cx': int, cy': int)
      requires Valid() && i < |s| && !(s[i] == ESC && i + 1 < |s| && s[i + 1] == OPEN)
      modifies current
      ensures i < j <= |s|
      ensures var now := Screen(w, h, old(current[..]), false, cx, cy, pen);
        Step(now, s[i..]) == Progress(Screen(w, h, current[..], false, cx', cy', pen), s[j..])
    {
      cx', cy', j := cx, cy, i + 1;
      Tails(s, i, 1);
      if s[i] == LF {
        cy', cx' := cy + 1, 0;
      } else if s[i] == CR {
        cx' := 0;
      } else {
        var n := Utf8Length(s[i]);
        if i + n <= |s| {
          Tails(s, i, n);
          SetCell(cx, cy, Cell(s[i..i + n], pen.fg, pen.bg, pen.attrs));
          cx', j := cx + 1, i + n;
        }
      }
    }

    /** Interprets `s` from the home position with the theme's baseline colours. */
    method RenderToBuffer(s: seq<Byte>, resetFg: nat, resetBg: nat)
      requires Valid()
      modifies current
      ensures var start := Screen(w, h, old(current[..]), false, 0, 0, Pen(resetFg, resetBg, 0));
        start.Valid() && current[..] == Run(start, s).cells
    {
      var cx: int, cy: int := 0, 0;
      var pen := Pen(resetFg, resetBg, 0);
      var i := 0;
      ghost var start := Screen(w, h, current[..], false, 0, 0, pen);
      assert s[0..] == s;
      while i < |s|
        invariant i <= |s|
        invariant start.Valid() && |current[..]| == w * h
        invariant Run(Screen(w, h, current[..], false, cx, cy, pen), s[i..]) == Run(start, s)
      {
        if s[i] == ESC && i + 1 < |s| && s[i + 1] == OPEN {
          i, cx, cy, pen := ReadControl(s, i, cx, cy, pen, Screen(w, h, current[..], false, cx, cy, pen));
        } else {
          i, cx, cy := ReadPlain(s, i, cx, cy, pen);
        }
      }
      assert s[i..] == [];
    }

    /** Prints the cells that differ from the previous frame. */
    method DiffAndEmit() returns (out: seq<Byte>)
      requires Valid() && Printable(current[..])
      ensures out == Emit(w, current[..], previous[..])
    {
      out := EmitChanged(w, h, current[..], previous[..]);
    }

    /** Prints the cells that are not blank. */
    method FullEmit() returns (out: seq<Byte>)
      requires Valid() && Printable(current[..])
      ensures out == Emit(w, current[..], Blanks(current.Length))
    {
      out := EmitChanged(w, h, current[..], Blanks(current.Length));
    }
  }

  lemma Appended(before: seq<Byte>, a: seq<Token>, b: seq<Token>)
    ensures before + Text(a) + Text(b) == before + Text(a + b)
  {
    TextConcat(a, b);
  }

  /** What is still to be printed from position `k` on, after `out`. */
  ghost predicate Remaining(w: nat, cur: seq<Cell>, base: seq<Cell>, all: seq<Byte>,
                            out: seq<Byte>, k: nat, x: nat, y: nat, last: Last)
  {
    |cur| == |base| && k <= |cur| && Printable(cur) && all == out + Text(EmitFrom(w, cur, base, k, x, y, last))
  }

  lemma RemainingStep(w: nat, cur: seq<Cell>, base: seq<Cell>, all: seq<Byte>,
                      out: seq<Byte>, k: nat, x: nat, y: nat, last: Last)
    requires Remaining(w, cur, base, all, out, k, x, y, last) && k < |cur|
    ensures if cur[k] == base[k] then Remaining(w, cur, base, all, out, k + 1, NextX(w, x), NextY(w, x, y), last)
      else
        Remaining(w, cur, base, all, out + Text(CellTokens(cur[k], x, y, last)), k + 1, NextX(w, x), NextY(w, x, y),
                  After(cur[k], x, y))
  {
    if cur[k] != base[k] {
      Appended(out, CellTokens(cur[k], x, y, last),
               EmitFrom(w, cur, base, k + 1, NextX(w, x), NextY(w, x, y), After(cur[k], x, y)));
    }
  }

  lemma RowStart(w: nat, h: nat, y: nat, size: nat)
    requires y < h && size == w * h
    ensures y * w + w <= size && (y + 1) * w == y * w + w
  {
    RowFits(w, h, y);
  }

  lemma EmitBounds(w: nat, h: nat, cur: seq<Cell>, base: seq<Cell>)
    requires |cur| == |base| == w * h && Printable(cur)
    ensures if w > 0 then Remaining(w, cur, base, Emit(w, cur, base), [], 0, 0, 0, FIRST) else Emit(w, cur, base) == []
    ensures h * w == |cur| && 0 * w == 0
  {
  }

  /** The loop both emitters run: row by row, printing the cells that differ from `base`. */
  method EmitChanged(w: nat, h: nat, cur: seq<Cell>, base: seq<Cell>) returns (out: seq<Byte>)
    requires |cur| == |base| == w * h && Printable(cur)
    ensures out == Emit(w, cur, base)
  {
    var last := FIRST;
    out := [];
    var k := 0;
    ghost var all := Emit(w, cur, base);
    EmitBounds(w, h, cur, base);
    for y := 0 to h
      invariant k == y * w
      invariant if w > 0 then Remaining(w, cur, base, all, out, k, 0, y, last) else out == [] == all
    {
      RowStart(w, h, y, |cur|);
      out, last, k := EmitRow(w, cur, base, y, k, last, out, all);
    }
  }

  /** Row `y`, which starts at position `row`. */
  method EmitRow(w: nat, cur: seq<Cell>, base: seq<Cell>, y: nat, row: nat, last: Last, before: seq<Byte>,
                 ghost all: seq<Byte>)
    returns (out: seq<Byte>, next: Last, k: nat)
    requires |cur| == |base| && Printable(cur) && row + w <= |cur|
    requires w > 0 ==> Remaining(w, cur, base, all, before, row, 0, y, last)
    ensures k == row + w
    ensures if w > 0 then Remaining(w, cur, base, all, out, k, 0, y + 1, next) else out == before
  {
    out, next, k := before, last, row;
    ghost var gx, gy := 0, y;
    for x := 0 to w
      invariant k == row + x
      invariant x < w ==> gx == x && gy == y
      invariant x == w ==> gx == 0 && gy == if w == 0 then y else y + 1
      invariant if w > 0 then Remaining(w, cur, base, all, out, k, gx, gy, next) else out == before
    {
      RemainingStep(w, cur, base, all, out, k, x, y, next);
      gx, gy := NextX(w, x), NextY(w, x, y);
      if cur[k] != base[k] {
        out := EmitCell(cur[k], x, y, next, out);
        next := After(cur[k], x, y);
      }
      k := k + 1;
    }
  }

  lemma TextOne(tok: Token)
    ensures Text([tok]) == TokenBytes(tok)
  {
    assert [tok][1..] == [];
  }

  lemma ArgsCons(n: nat, rest: seq<nat>)
    requires rest != []
    ensures Args([n] + rest) == Decimal(n) + [SEMI] + Args(rest)
  {
    assert ([n] + rest)[1..] == rest;
  }

  /** The parameter bytes of a colour, piece by piece. */
  method ColorArgs(c: nat, isFg: bool) returns (args: seq<Byte>)
    requires c < WORD
    ensures args == Args(ColourParams(c, isFg))
  {
    if c == 0 {
      args := Decimal(if isFg then 39 else 49);
    } else if c / TRUECOLOUR % 2 == 1 {
      var r: nat, g: nat, b: nat := Red(c), Green(c), Blue(c);
      ArgsCons(g, [b]);
      ArgsCons(r, [g, b]);
      ArgsCons(2, [r, g, b]);
      ArgsCons(if isFg then 38 else 48, [2, r, g, b]);
      args := Decimal(if isFg then 38 else 48) + [SEMI]
      + (Decimal(2) + [SEMI] + (Decimal(r) + [SEMI] + (Decimal(g) + [SEMI] + Decimal(b))));
      assert [if isFg then 38 else 48] + [2, r, g, b] == ColourParams(c, isFg);
    } else {
      var idx := (c - 1) % 256;
      if idx < 8 {
        args := Decimal((if isFg then 30 else 40) + idx);
      } else if idx < 16 {
        args := Decimal((if isFg then 90 else 100) + (idx - 8));
      } else {
        ArgsCons(5, [idx]);
        ArgsCons(if isFg then 38 else 48, [5, idx]);
        args := Decimal(if isFg then 38 else 48) + [SEMI] + (Decimal(5) + [SEMI] + Decimal(idx));
        assert [if isFg then 38 else 48] + [5, idx] == ColourParams(c, isFg);
      }
    }
  }

  /** Appends the sequence selecting a colour. */
  method EmitColor(c: nat, isFg: bool, before: seq<Byte>) returns (out: seq<Byte>)
    requires c < WORD
    ensures out == before + TokenBytes(Sgr(ColourParams(c, isFg)))
  {
    var args := ColorArgs(c, isFg);
    out := before + ([ESC, OPEN] + [] + args + [SGR]);
  }

  /** Appends the code for the attribute bit `mask` if it changes. */
  method EmitAttr(new_: bv8, old_: bv8, mask: bv8, on: nat, off: nat, before: seq<Byte>) returns (out: seq<Byte>)
    ensures out == before + Text(AttrToken(new_, old_, mask, on, off))
  {
    out := before;
    if (new_ ^ old_) & mask != 0 {
      TextOne(AttrToken(new_, old_, mask, on, off)[0]);
      out := out + ([ESC, OPEN] + Decimal(if new_ & mask != 0 then on else off) + [SGR]);
    }
  }

  /** Appends the codes that turn attributes `old_` into `new_`, bit by bit. */
  method EmitAttrs(new_: bv8, old_: bv8, before: seq<Byte>) returns (out: seq<Byte>)
    ensures out == before + Text(AttrTokens(new_, old_))
  {
    ghost var k1, k2 := AttrToken(new_, old_, 0x01, 1, 22), AttrToken(new_, old_, 0x02, 2, 22);
    ghost var k3, k4 := AttrToken(new_, old_, 0x04, 3, 23), AttrToken(new_, old_, 0x08, 4, 24);
    ghost var k5, k6 := AttrToken(new_, old_, 0x10, 5, 25), AttrToken(new_, old_, 0x20, 9, 29);
    out := EmitAttr(new_, old_, 0x01, 1, 22, before);
    out := EmitAttr(new_, old_, 0x02, 2, 22, out);
    Appended(before, k1, k2);
    out := EmitAttr(new_, old_, 0x04, 3, 23, out);
    Appended(before, k1 + k2, k3);
    out := EmitAttr(new_, old_, 0x08, 4, 24, out);
    Appended(before, k1 + k2 + k3, k4);
    out := EmitAttr(new_, old_, 0x10, 5, 25, out);
    Appended(before, k1 + k2 + k3 + k4, k5);
    out := EmitAttr(new_, old_, 0x20, 9, 29, out);
    Appended(before, k1 + k2 + k3 + k4 + k5, k6);
  }

  /** Appends a cursor move unless the cursor is already there. */
  method EmitMove(x: nat, y: nat, last: Last, before: seq<Byte>) returns (out: seq<Byte>)
    ensures out == before + Text(MoveTokens(x, y, last))
  {
    out := before;
    if y != last.y || x != last.x + 1 {
      var move := [ESC, OPEN] + [] + (Decimal(y + 1) + [SEMI] + Decimal(x + 1)) + [HVP];
      ArgsCons(y + 1, [x + 1]);
      assert [y + 1] + [x + 1] == [y + 1, x + 1];
      TextOne(Csi(false, Args([y + 1, x + 1]), HVP));
      out := out + move;
    }
  }

  /** Appends the attribute codes if the attributes change. */
  method ChangeAttrs(a: bv8, last: bv8, before: seq<Byte>) returns (out: seq<Byte>)
    ensures out == before + Text(AllAttrTokens(a, last))
  {
    out := before;
    if a != last {
      out := EmitAttrs(a, last, out);
    }
  }

  /** Appends the sequence for a colour if it changes. */
  method ChangeColor(c: nat, last: nat, isFg: bool, before: seq<Byte>) returns (out: seq<Byte>)
    requires c < WORD
    ensures out == before + Text(ColourTokens(c, last, isFg))
  {
    out := before;
    if c != last {
      out := EmitColor(c, isFg, out);
      TextOne(Sgr(ColourParams(c, isFg)));
    }
  }

  /** Appends the attribute and colour changes. */
  method EmitPen(c: Cell, last: Last, before: seq<Byte>) returns (out: seq<Byte>)
    requires c.fg < WORD && c.bg < WORD
    ensures out == before + Text(PenTokens(c, last))
  {
    ghost var ka, kf := AllAttrTokens(c.attrs, last.attrs), ColourTokens(c.fg, last.fg, true);
    out := ChangeAttrs(c.attrs, last.attrs, before);
    out := ChangeColor(c.fg, last.fg, true, out);
    Appended(before, ka, kf);
    out := ChangeColor(c.bg, last.bg, false, out);
    Appended(before, ka + kf, ColourTokens(c.bg, last.bg, false));
  }

  /** Appends one cell: cursor move, attributes, colours, character, each only when needed. */
  method EmitCell(c: Cell, x: nat, y: nat, last: Last, before: seq<Byte>) returns (out: seq<Byte>)
    requires c.fg < WORD && c.bg < WORD
    ensures out == before + Text(CellTokens(c, x, y, last))
  {
    ghost var km, kp := MoveTokens(x, y, last), PenTokens(c, last);
    out := EmitMove(x, y, last, before);
    out := EmitPen(c, last, out);
    Appended(before, km, kp);
    out := out + c.ch;
    TextOne(Glyph(c.ch));
    Appended(before, km + kp, [Glyph(c.ch)]);
  }

  /** Consumes the control sequence at position `i`. */
  method ReadControl(s: seq<Byte>, i: nat, cx: int, cy: int, pen: Pen, ghost t: Screen)
    returns (j: nat, cx': int, cy': int, pen': Pen)
    requires i + 1 < |s| && s[i] == ESC && s[i + 1] == OPEN
    requires t.Valid() && t.cx == cx && t.cy == cy && t.pen == pen && !t.erases
    ensures i < j <= |s|
    ensures Step(t, s[i..]) == Progress(t.(cx := cx', cy := cy', pen := pen'), s[j..])
  {
    cx', cy', pen' := cx, cy, pen;
    ghost var rest := s[i..];
    j := i + 2;
    var private := false;
    if j < |s| && s[j] == QUESTION {
      private := true;
      j := j + 1;
    }
    assert s[j..] == if private then rest[3..] else rest[2..];
    var params: seq<nat>;
    params, j := ReadParams(s, j);
    if j >= |s| {
      assert s[j..] == [];
    } else {
      assert s[j..][1..] == s[j + 1..];
      if !private {
        cx', cy', pen' := Obey(s[j], params, cx, cy, pen, t);
      }
      j := j + 1;
    }
  }

  /** Reads parameter bytes from position `i` on. */
  method ReadParams(s: seq<Byte>, i: nat) returns (params: seq<nat>, j: nat)
    requires i <= |s|
    ensures i <= j <= |s|
    ensures ScanParams(s[i..], [], -1) == Scan(params, s[j..])
  {
    params, j := [], i;
    var cur: int := -1;
    while j < |s|
      invariant i <= j <= |s| && -1 <= cur
      invariant ScanParams(s[i..], [], -1) == ScanParams(s[j..], params, cur)
    {
      assert s[j..][1..] == s[j + 1..];
      if IsDigit(s[j]) {
        if cur < 0 { cur := 0; }
        cur := cur * 10 + (s[j] - 48);
        j := j + 1;
      } else if s[j] == SEMI {
        params := params + [if cur < 0 then 0 else cur];
        cur := -1;
        j := j + 1;
      } else {
        break;
      }
    }
    if cur >= 0 {
      params := params + [cur];
    }
  }

  /** Carries out a control sequence; a buffer has no erasing ones. */
  method Obey(fin: Byte, params: seq<nat>, cx: int, cy: int, pen: Pen, ghost t: Screen)
    returns (cx': int, cy': int, pen': Pen)
    requires t.cx == cx && t.cy == cy && t.pen == pen && !t.erases
    ensures Control(t, fin, params) == t.(cx := cx', cy := cy', pen := pen')
  {
    cx', cy', pen' := cx, cy, pen;
    match fin {
      case 102 | 72 =>
        var row: int, col: int := 1, 1;
        if |params| > 0 { row := params[0]; }
        if |params| > 1 { col := params[1]; }
        cy', cx' := row - 1, col - 1;
      case 65 =>
        cy' := cy - Count(params);
      case 66 =>
        cy' := cy + Count(params);
      case 67 =>
        cx' := cx + Count(params);
      case 68 =>
        cx' := cx - Count(params);
      case 109 =>
        pen' := SelectRendition(params, pen);
      case _ =>
    }
  }

  /** Applies the parameters of an SGR sequence; none at all means reset. */
  method SelectRendition(params: seq<nat>, before: Pen) returns (pen: Pen)
    ensures pen == if params == [] then Pen(0, 0, 0) else Rendition(before, params, 0)
  {
    if params == [] {
      return Pen(0, 0, 0);
    }
    pen := before;
    var p := 0;
    while p < |params|
      invariant p <= |params|
      invariant Rendition(before, params, 0) == Rendition(pen, params, p)
    {
      if params[p] == 38 {
        var o := ColourOperand(params, p);
        if o.Colour? { pen := pen.(fg := o.value); }
        p := p + o.skip;
      } else if params[p] == 48 {
        var o := ColourOperand(params, p);
        if o.Colour? { pen := pen.(bg := o.value); }
        p := p + o.skip;
      } else {
        pen := Plain(pen, params[p]);
      }
      p := p + 1;
    }
  }
}
