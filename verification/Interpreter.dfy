/**
 The escape-sequence interpreter: what a byte string does to a cell grid.

 The same function gives the meaning of `render_to_buffer` (`erases` false) and of the terminal that
 receives the emitted bytes (`erases` true: ED with parameter 2 blanks the screen).
 */
module Interpreter {
  import opened Arithmetic
  import opened Bytes
  import opened Cells

  datatype Screen = Screen(
    width: nat, height: nat, cells: seq<Cell>, erases: bool, cx: int, cy: int, pen: Pen)
  {
    ghost predicate Valid() {
      |cells| == width * height
    }

    predicate OnScreen() {
      0 <= cx < width && 0 <= cy < height
    }
  }

  /** Row-major position of a cell. */
  function Index(w: nat, h: nat, x: nat, y: nat): (k: nat)
    requires x < w && y < h
    ensures k == y * w + x && k < w * h
  {
    RowFits(w, h, y);
    y * w + x
  }

  lemma RowFits(w: nat, h: nat, y: nat)
    requires y < h
    ensures y * w + w <= w * h
  {
    assert w * h == w * y + w * (h - y);
    assert w * (h - y) == w + w * (h - y - 1);
  }

  function Blanks(n: nat): (s: seq<Cell>)
    ensures |s| == n && forall i :: 0 <= i < n ==> s[i] == BLANK
  {
    seq(n, _ => BLANK)
  }

  // ----- parameters of a control sequence -----

  datatype Scan = Scan(params: seq<nat>, rest: seq<Byte>)

  /** Reads digits and semicolons; `cur` is -1 while no digit of the current parameter has been read. */
  function ScanParams(s: seq<Byte>, params: seq<nat>, cur: int): (r: Scan)
    requires -1 <= cur
    ensures |r.rest| <= |s|
  {
    if s != [] && IsDigit(s[0]) then
      ScanParams(s[1..], params, (if cur < 0 then 0 else cur) * 10 + (s[0] - 48))
    else if s != [] && s[0] == SEMI then
      ScanParams(s[1..], params + [if cur < 0 then 0 else cur], -1)
    else
      Scan(if cur >= 0 then params + [cur] else params, s)
  }

  // ----- select graphic rendition -----

  datatype Operand = NoColour(skip: nat) | Colour(value: nat, skip: nat)

  /** The colour that follows code 38 or 48 at `p`, and how many parameters it takes. */
  function ColourOperand(params: seq<nat>, p: nat): (o: Operand)
    requires p < |params|
    ensures p + o.skip < |params|
  {
    if p + 1 < |params| && params[p + 1] == 2 && p + 4 < |params| then
      Colour(PackRgb(params[p + 2], params[p + 3], params[p + 4]), 4)
    else if p + 1 < |params| && params[p + 1] == 5 && p + 2 < |params| then
      Colour((params[p + 2] % WORD + 1) % WORD, 2)
    else
      NoColour(0)
  }

  function SetFg(pen: Pen, o: Operand): Pen {
    if o.Colour? then pen.(fg := o.value) else pen
  }

  function SetBg(pen: Pen, o: Operand): Pen {
    if o.Colour? then pen.(bg := o.value) else pen
  }

  /** Codes without operands. */
  function Plain(pen: Pen, code: nat): Pen {
    if code == 0 then Pen(0, 0, 0)
    else if code == 1 then pen.(attrs := pen.attrs | 0x01)
    else if code == 2 then pen.(attrs := pen.attrs | 0x02)
    else if code == 3 then pen.(attrs := pen.attrs | 0x04)
    else if code == 4 then pen.(attrs := pen.attrs | 0x08)
    else if code == 5 then pen.(attrs := pen.attrs | 0x10)
    else if code == 9 then pen.(attrs := pen.attrs | 0x20)
    else if code == 22 then pen.(attrs := pen.attrs & 0xFC)
    else if code == 23 then pen.(attrs := pen.attrs & 0xFB)
    else if code == 24 then pen.(attrs := pen.attrs & 0xF7)
    else if code == 25 then pen.(attrs := pen.attrs & 0xEF)
    else if code == 29 then pen.(attrs := pen.attrs & 0xDF)
    else if code == 39 then pen.(fg := 0)
    else if code == 49 then pen.(bg := 0)
    else if 30 <= code <= 37 then pen.(fg := code - 30 + 1)
    else if 40 <= code <= 47 then pen.(bg := code - 40 + 1)
    else if 90 <= code <= 97 then pen.(fg := code - 90 + 8 + 1)
    else if 100 <= code <= 107 then pen.(bg := code - 100 + 8 + 1)
    else pen
  }

  /** Applies the parameters from position `p` on. */
  function Rendition(pen: Pen, params: seq<nat>, p: nat): Pen
    requires p <= |params|
    decreases |params| - p
  {
    if p == |params| then pen
    else if params[p] == 38 then
      var o := ColourOperand(params, p);
      Rendition(SetFg(pen, o), params, p + o.skip + 1)
    else if params[p] == 48 then
      var o := ColourOperand(params, p);
      Rendition(SetBg(pen, o), params, p + o.skip + 1)
    else
      Rendition(Plain(pen, params[p]), params, p + 1)
  }

  // ----- one token -----

  function Count(params: seq<nat>): nat {
    if |params| > 0 && params[0] > 0 then params[0] else 1
  }

  function Control(t: Screen, fin: Byte, params: seq<nat>): (r: Screen)
    ensures t.Valid() ==> r.Valid()
    ensures r.width == t.width && r.height == t.height && r.erases == t.erases
  {
    match fin
    case 102 | 72 =>   // 'f', 'H'
      var row: int := if |params| > 0 then params[0] else 1;
      var col: int := if |params| > 1 then params[1] else 1;
      t.(cy := row - 1, cx := col - 1)
    case 65 => t.(cy := t.cy - Count(params))   // 'A'
    case 66 => t.(cy := t.cy + Count(params))   // 'B'
    case 67 => t.(cx := t.cx + Count(params))   // 'C'
    case 68 => t.(cx := t.cx - Count(params))   // 'D'
    case 74 =>   // 'J'
      if t.erases && |params| > 0 && params[0] == 2 then t.(cells := Blanks(|t.cells|)) else t
    case 109 =>   // 'm'
      t.(pen := if params == [] then Pen(0, 0, 0) else Rendition(t.pen, params, 0))
    case _ => t
  }

  /** Writes a character at the cursor if it is on the screen; the cursor advances in either case. */
  function Put(t: Screen, ch: seq<Byte>): (r: Screen)
    requires t.Valid()
    ensures r.Valid()
    ensures r.width == t.width && r.height == t.height && r.erases == t.erases
  {
    if t.OnScreen() then
      var k := Index(t.width, t.height, t.cx, t.cy);
      t.(cells := t.cells[k := Cell(ch, t.pen.fg, t.pen.bg, t.pen.attrs)], cx := t.cx + 1)
    else
      t.(cx := t.cx + 1)
  }

  datatype Progress = Progress(screen: Screen, rest: seq<Byte>)

  /** Consumes the token at the head of `s`. */
  function Step(t: Screen, s: seq<Byte>): (r: Progress)
    requires t.Valid() && s != []
    ensures r.screen.Valid() && |r.rest| < |s|
    ensures r.screen.width == t.width && r.screen.height == t.height && r.screen.erases == t.erases
  {
    if s[0] == ESC && 1 < |s| && s[1] == OPEN then
      var private := 2 < |s| && s[2] == QUESTION;
      var scan := ScanParams(if private then s[3..] else s[2..], [], -1);
      if scan.rest == [] then Progress(t, [])
      else if private then Progress(t, scan.rest[1..])
      else Progress(Control(t, scan.rest[0], scan.params), scan.rest[1..])
    else if s[0] == LF then Progress(t.(cy := t.cy + 1, cx := 0), s[1..])
    else if s[0] == CR then Progress(t.(cx := 0), s[1..])
    else
      var n := Utf8Length(s[0]);
      if n > |s| then Progress(t, s[1..])
      else Progress(Put(t, s[..n]), s[n..])
  }

  /** Interprets a whole byte string. */
  function Run(t: Screen, s: seq<Byte>): (r: Screen)
    requires t.Valid()
    ensures r.Valid()
    ensures r.width == t.width && r.height == t.height && r.erases == t.erases
    decreases |s|
  {
    if s == [] then t
    else
      var p := Step(t, s);
      Run(p.screen, p.rest)
  }
}
