/**
 Complete tokens: the unit in which text is printed. Interpreting the bytes of a token list is applying
 its tokens one after another, whatever follows.
 */
module Tokens {
  import opened Bytes
  import opened Cells
  import opened Interpreter

  /** `args` are the parameter bytes of a control sequence and `fin` its final byte (ECMA-48, section 5.4). */
  datatype Token =
    | Csi(private: bool, args: seq<Byte>, fin: Byte)
    | Glyph(ch: seq<Byte>)
    | Newline
    | Return

  predicate IsArg(b: Byte) {
    IsDigit(b) || b == SEMI
  }

  predicate AllArgs(s: seq<Byte>) {
    forall i :: 0 <= i < |s| ==> IsArg(s[i])
  }

  predicate Complete(tok: Token) {
    match tok
    case Csi(_, args, fin) => AllArgs(args) && 0x40 <= fin <= 0x7E
    case Glyph(ch) => ValidChar(ch)
    case Newline => true
    case Return => true
  }

  predicate AllComplete(toks: seq<Token>) {
    forall i :: 0 <= i < |toks| ==> Complete(toks[i])
  }

  function TokenBytes(tok: Token): (s: seq<Byte>)
    ensures Complete(tok) ==> s != []
  {
    match tok
    case Csi(private, args, fin) => [ESC, OPEN] + (if private then [QUESTION] else []) + args + [fin]
    case Glyph(ch) => ch
    case Newline => [LF]
    case Return => [CR]
  }

  function Text(toks: seq<Token>): seq<Byte> {
    if toks == [] then [] else TokenBytes(toks[0]) + Text(toks[1..])
  }

  function Params(args: seq<Byte>): seq<nat> {
    ScanParams(args, [], -1).params
  }

  function Apply(t: Screen, tok: Token): (r: Screen)
    requires t.Valid()
    ensures r.Valid()
    ensures r.width == t.width && r.height == t.height && r.erases == t.erases
  {
    match tok
    case Csi(private, args, fin) => if private then t else Control(t, fin, Params(args))
    case Glyph(ch) => Put(t, ch)
    case Newline => t.(cy := t.cy + 1, cx := 0)
    case Return => t.(cx := 0)
  }

  function ApplyAll(t: Screen, toks: seq<Token>): (r: Screen)
    requires t.Valid()
    ensures r.Valid()
    ensures r.width == t.width && r.height == t.height && r.erases == t.erases
    decreases |toks|
  {
    if toks == [] then t else ApplyAll(Apply(t, toks[0]), toks[1..])
  }

  lemma {:induction false} ScanStopsAtFinal(args: seq<Byte>, tail: seq<Byte>, params: seq<nat>, cur: int)
    requires AllArgs(args) && tail != [] && !IsArg(tail[0]) && -1 <= cur
    ensures ScanParams(args + tail, params, cur) == Scan(ScanParams(args, params, cur).params, tail)
  {
    if args == [] {
      assert args + tail == tail;
    } else {
      assert IsArg(args[0]);
      assert (args + tail)[1..] == args[1..] + tail;
      if IsDigit(args[0]) {
        ScanStopsAtFinal(args[1..], tail, params, (if cur < 0 then 0 else cur) * 10 + (args[0] - 48));
      } else {
        ScanStopsAtFinal(args[1..], tail, params + [if cur < 0 then 0 else cur], -1);
      }
    }
  }

  /** Where the parameters of a control sequence start, and what scanning them gives. */
  lemma CsiScans(private: bool, args: seq<Byte>, fin: Byte, rest: seq<Byte>)
    requires Complete(Csi(private, args, fin))
    ensures var s := TokenBytes(Csi(private, args, fin)) + rest;
      && |s| > 2 && s[0] == ESC && s[1] == OPEN && (private <==> s[2] == QUESTION) && (private ==> |s| > 3)
      && ScanParams(s[if private then 3 else 2..], [], -1) == Scan(Params(args), [fin] + rest)
  {
    var s := TokenBytes(Csi(private, args, fin)) + rest;
    var tail := [fin] + rest;
    ScanStopsAtFinal(args, tail, [], -1);
    if private {
      assert s[3..] == args + tail;
    } else {
      assert s[2..] == args + tail;
      assert s[2] != QUESTION by {
        if args != [] { assert s[2] == args[0] && IsArg(args[0]); } else { assert s[2] == fin; }
      }
    }
  }

  lemma StepCsi(t: Screen, private: bool, args: seq<Byte>, fin: Byte, rest: seq<Byte>)
    requires t.Valid() && Complete(Csi(private, args, fin))
    ensures var tok := Csi(private, args, fin);
      Step(t, TokenBytes(tok) + rest) == Progress(Apply(t, tok), rest)
  {
    CsiScans(private, args, fin, rest);
    assert ([fin] + rest)[1..] == rest;
  }

  lemma StepGlyph(t: Screen, ch: seq<Byte>, rest: seq<Byte>)
    requires t.Valid() && ValidChar(ch)
    ensures Step(t, ch + rest) == Progress(Put(t, ch), rest)
  {
    var s := ch + rest;
    assert s[0] == ch[0];
    assert s[..|ch|] == ch && s[|ch|..] == rest;
  }

  /** One step of the interpreter consumes exactly one complete token. */
  lemma StepToken(t: Screen, tok: Token, rest: seq<Byte>)
    requires t.Valid() && Complete(tok)
    ensures Step(t, TokenBytes(tok) + rest) == Progress(Apply(t, tok), rest)
  {
    match tok
    case Csi(private, args, fin) => StepCsi(t, private, args, fin, rest);
    case Glyph(ch) => StepGlyph(t, ch, rest);
    case Newline => assert ([LF] + rest)[1..] == rest;
    case Return => assert ([CR] + rest)[1..] == rest;
  }

  /** Interpreting printed tokens is applying them, whatever bytes follow. */
  lemma {:induction false} RunText(t: Screen, toks: seq<Token>, rest: seq<Byte>)
    requires t.Valid() && AllComplete(toks)
    ensures Run(t, Text(toks) + rest) == Run(ApplyAll(t, toks), rest)
    decreases |toks|
  {
    if toks == [] {
      assert Text(toks) + rest == rest;
    } else {
      var more := Text(toks[1..]) + rest;
      assert Text(toks) + rest == TokenBytes(toks[0]) + more;
      StepToken(t, toks[0], more);
      RunText(Apply(t, toks[0]), toks[1..], rest);
    }
  }

  lemma RunWhole(t: Screen, toks: seq<Token>)
    requires t.Valid() && AllComplete(toks)
    ensures Run(t, Text(toks)) == ApplyAll(t, toks)
  {
    RunText(t, toks, []);
    assert Text(toks) + [] == Text(toks);
  }

  lemma {:induction false} ApplyAllConcat(t: Screen, a: seq<Token>, b: seq<Token>)
    requires t.Valid()
    ensures ApplyAll(t, a + b) == ApplyAll(ApplyAll(t, a), b)
    decreases |a|
  {
    if a == [] {
      assert a + b == b;
    } else {
      assert (a + b)[1..] == a[1..] + b;
      ApplyAllConcat(Apply(t, a[0]), a[1..], b);
    }
  }

  lemma {:induction false} TextConcat(a: seq<Token>, b: seq<Token>)
    ensures Text(a + b) == Text(a) + Text(b)
  {
    if a == [] {
      assert a + b == b;
    } else {
      assert (a + b)[1..] == a[1..] + b;
      TextConcat(a[1..], b);
    }
  }

  // ----- printing parameters -----

  /** Parameters in decimal, separated by semicolons. */
  function Args(params: seq<nat>): (s: seq<Byte>)
    requires params != []
    ensures AllArgs(s)
  {
    if |params| == 1 then Decimal(params[0])
    else Decimal(params[0]) + [SEMI] + Args(params[1..])
  }

  lemma {:induction false} ScanDecimal(n: nat, tail: seq<Byte>, params: seq<nat>)
    ensures ScanParams(Decimal(n) + tail, params, -1) == ScanParams(tail, params, n)
  {
    if n < 10 {
      assert (Decimal(n) + tail)[1..] == tail;
    } else {
      var digit := [48 + n % 10] + tail;
      assert Decimal(n) + tail == Decimal(n / 10) + digit;
      ScanDecimal(n / 10, digit, params);
      assert digit[1..] == tail;
    }
  }

  /** Reading printed parameters gives the parameters back. */
  lemma {:induction false} ParamsRoundTrip(params: seq<nat>, before: seq<nat>)
    requires params != []
    ensures ScanParams(Args(params), before, -1).params == before + params
  {
    if |params| == 1 {
      ScanDecimal(params[0], [], before);
      assert Decimal(params[0]) + [] == Args(params);
      assert params == [params[0]];
    } else {
      var more := Args(params[1..]);
      var tail := [SEMI] + more;
      assert Args(params) == Decimal(params[0]) + tail;
      ScanDecimal(params[0], tail, before);
      assert tail[1..] == more;
      ParamsRoundTrip(params[1..], before + [params[0]]);
      assert before + [params[0]] + params[1..] == before + params;
    }
  }

  /** A printed control sequence does what its parameters say. */
  lemma ApplyPrinted(t: Screen, params: seq<nat>, fin: Byte)
    requires t.Valid() && params != []
    ensures Apply(t, Csi(false, Args(params), fin)) == Control(t, fin, params)
  {
    ParamsRoundTrip(params, []);
    assert [] + params == params;
  }
}
