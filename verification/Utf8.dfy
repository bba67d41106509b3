/** Byte strings seen as lists of characters: a lead byte followed by its continuation bytes. */
module Utf8 {
  import opened Bytes

  predicate IsLead(b: Byte) {
    b < 128 || b >= 192
  }

  predicate IsChar(c: seq<Byte>) {
    c != [] && IsLead(c[0]) && forall i :: 0 < i < |c| ==> !IsLead(c[i])
  }

  predicate AllChars(cs: seq<seq<Byte>>) {
    forall i :: 0 <= i < |cs| ==> IsChar(cs[i])
  }

  function Join(cs: seq<seq<Byte>>): seq<Byte> {
    if cs == [] then [] else cs[0] + Join(cs[1..])
  }

  /** `ulen`: how many bytes are not continuation bytes. */
  function Count(s: seq<Byte>): nat {
    if s == [] then 0 else (if IsLead(s[0]) then 1 else 0) + Count(s[1..])
  }

  /** The bytes before the lead byte of character number `n`. */
  function First(s: seq<Byte>, n: nat): seq<Byte> {
    if s == [] || (IsLead(s[0]) && n == 0) then []
    else [s[0]] + First(s[1..], if IsLead(s[0]) then n - 1 else n)
  }

  /** Where the last `n` characters start, looking no further back than position 1. */
  function LastStart(s: seq<Byte>, i: nat, n: nat): (k: nat)
    requires i < |s| && n > 0
    ensures k <= i
  {
    if i == 0 then 0
    else if !IsLead(s[i]) then LastStart(s, i - 1, n)
    else if n == 1 then i
    else LastStart(s, i - 1, n - 1)
  }

  /** What `uresize` keeps. */
  function Head(s: seq<Byte>, len: nat): seq<Byte> {
    if len < 1 || s == [] then [] else First(s, len)
  }

  /** What `luresize` keeps. */
  function Tail(s: seq<Byte>, len: nat): seq<Byte> {
    if len < 1 || s == [] then [] else s[LastStart(s, |s| - 1, len)..]
  }

  /** Looking at byte `i` with `n` characters to go. */
  lemma FirstStep(s: seq<Byte>, i: nat, n: nat)
    requires i < |s|
    ensures IsLead(s[i]) && n == 0 ==> s[..i] + First(s[i..], n) == s[..i]
    ensures !(IsLead(s[i]) && n == 0) ==>
      s[..i] + First(s[i..], n) == s[..i + 1] + First(s[i + 1..], if IsLead(s[i]) then n - 1 else n)
  {
    assert s[i..][1..] == s[i + 1..];
    assert s[..i + 1] == s[..i] + [s[i]];
  }

  method Uresize(s: seq<Byte>, len: nat) returns (r: seq<Byte>)
    ensures r == Head(s, len)
  {
    if len < 1 || s == [] {
      return [];
    }
    var x := 0;
    var i := 0;
    assert s[0..] == s;
    while i < |s|
      invariant i <= |s| && x <= len
      invariant First(s, len) == s[..i] + First(s[i..], len - x)
    {
      FirstStep(s, i, len - x);
      if IsLead(s[i]) {
        x := x + 1;
      }
      if x >= len + 1 {
        return s[..i];
      }
      i := i + 1;
    }
    return s;
  }

  method Luresize(s: seq<Byte>, len: nat) returns (r: seq<Byte>)
    ensures r == Tail(s, len)
  {
    if len < 1 || s == [] {
      return [];
    }
    var x := 0;
    var i := |s| - 1;
    while i > 0
      invariant 0 <= i < |s| && x < len
      invariant LastStart(s, |s| - 1, len) == LastStart(s, i, len - x)
    {
      if IsLead(s[i]) {
        x := x + 1;
        if x >= len {
          return s[i..];
        }
      }
      i := i - 1;
    }
    return s;
  }

  // ----- on joined characters -----

  lemma {:induction false} JoinConcat(a: seq<seq<Byte>>, b: seq<seq<Byte>>)
    ensures Join(a + b) == Join(a) + Join(b)
  {
    if a == [] {
      assert a + b == b;
    } else {
      assert (a + b)[1..] == a[1..] + b;
      JoinConcat(a[1..], b);
    }
  }

  lemma JoinOne(c: seq<Byte>)
    ensures Join([c]) == c
  {
    assert [c][1..] == [] && Join([]) == [];
  }

  /** Splits a joined list at a character. */
  lemma JoinSplit(cs: seq<seq<Byte>>, k: nat)
    requires k <= |cs|
    ensures Join(cs) == Join(cs[..k]) + Join(cs[k..])
  {
    JoinConcat(cs[..k], cs[k..]);
    assert cs == cs[..k] + cs[k..];
  }

  lemma {:induction false} JoinNonEmpty(cs: seq<seq<Byte>>)
    requires AllChars(cs)
    ensures |Join(cs)| >= |cs| && (cs != [] ==> IsLead(Join(cs)[0]))
  {
    if cs != [] {
      JoinNonEmpty(cs[1..]);
      assert IsChar(cs[0]);
    }
  }

  lemma OverByte(b: Byte, s: seq<Byte>, n: nat)
    ensures Count([b] + s) == (if IsLead(b) then 1 else 0) + Count(s)
    ensures !IsLead(b) ==> First([b] + s, n) == [b] + First(s, n)
    ensures IsLead(b) && n > 0 ==> First([b] + s, n) == [b] + First(s, n - 1)
  {
    assert ([b] + s)[1..] == s;
  }

  /** Continuation bytes at the head neither count nor stop a prefix. */
  lemma {:induction false} OverContinuation(c: seq<Byte>, rest: seq<Byte>, n: nat)
    requires forall i :: 0 <= i < |c| ==> !IsLead(c[i])
    ensures Count(c + rest) == Count(rest) && First(c + rest, n) == c + First(rest, n)
  {
    if c == [] {
      assert c + rest == rest;
    } else {
      OverContinuation(c[1..], rest, n);
      OverByte(c[0], c[1..] + rest, n);
      FrontByte(c, rest);
      FrontByte(c, First(rest, n));
    }
  }

  lemma FrontByte(c: seq<Byte>, rest: seq<Byte>)
    requires c != []
    ensures c + rest == [c[0]] + (c[1..] + rest)
  {
  }

  lemma OverChar(c: seq<Byte>, rest: seq<Byte>, n: nat)
    requires IsChar(c)
    ensures Count(c + rest) == 1 + Count(rest)
    ensures n > 0 ==> First(c + rest, n) == c + First(rest, n - 1)
  {
    OverContinuation(c[1..], rest, if n > 0 then n - 1 else 0);
    OverByte(c[0], c[1..] + rest, n);
    FrontByte(c, rest);
    FrontByte(c, First(rest, if n > 0 then n - 1 else 0));
  }

  /** `ulen` counts characters and `uresize` keeps the first ones. */
  lemma {:induction false} FirstOfJoin(cs: seq<seq<Byte>>, n: nat)
    requires AllChars(cs) && n <= |cs|
    ensures Count(Join(cs)) == |cs| && First(Join(cs), n) == Join(cs[..n])
  {
    if cs != [] {
      var rest := Join(cs[1..]);
      assert IsChar(cs[0]);
      FirstOfJoin(cs[1..], if n > 0 then n - 1 else 0);
      OverChar(cs[0], rest, n);
      if n > 0 {
        assert cs[..n][1..] == cs[1..][..n - 1];
      }
    }
  }

  lemma {:induction false} LastStartInPrefix(a: seq<Byte>, b: seq<Byte>, i: nat, n: nat)
    requires i < |a| && n > 0
    ensures LastStart(a + b, i, n) == LastStart(a, i, n)
  {
    if i > 0 {
      assert (a + b)[i] == a[i];
      if !IsLead(a[i]) { LastStartInPrefix(a, b, i - 1, n); }
      else if n > 1 { LastStartInPrefix(a, b, i - 1, n - 1); }
    }
  }

  /** Looking back over the continuation bytes of the character that starts at `p`. */
  lemma {:induction false} BackToLead(s: seq<Byte>, p: nat, i: nat, n: nat)
    requires p <= i < |s| && n > 0 && forall j :: p < j <= i ==> !IsLead(s[j])
    ensures LastStart(s, i, n) == LastStart(s, p, n)
    decreases i
  {
    if p < i { BackToLead(s, p, i - 1, n); }
  }

  lemma LastChar(cs: seq<seq<Byte>>, n: nat)
    requires AllChars(cs) && cs != [] && n > 0
    ensures var front, c := Join(cs[..|cs| - 1]), cs[|cs| - 1];
      && Join(cs) == front + c && c != [] && IsLead(c[0])
      && LastStart(front + c, |front + c| - 1, n) == LastStart(front + c, |front|, n)
  {
    var k := |cs| - 1;
    var front, c := Join(cs[..k]), cs[k];
    assert IsChar(c);
    JoinSplit(cs, k);
    assert cs[k..] == [c];
    JoinOne(c);
    BackToLead(front + c, |front|, |front + c| - 1, n);
  }

  lemma StepBack(front: seq<Byte>, c: seq<Byte>, n: nat)
    requires c != [] && IsLead(c[0]) && n > 0
    ensures front == [] || n == 1 ==> LastStart(front + c, |front|, n) == |front|
    ensures front != [] && n > 1 ==>
      LastStart(front + c, |front|, n) == LastStart(front, |front| - 1, n - 1)
  {
    assert (front + c)[|front|] == c[0];
    if front != [] && n > 1 { LastStartInPrefix(front, c, |front| - 1, n - 1); }
  }

  /** Where the last `n` characters start. */
  function LastAt(s: seq<Byte>, n: nat): nat
    requires s != [] && n > 0
  {
    LastStart(s, |s| - 1, n)
  }

  lemma LastOneAt(cs: seq<seq<Byte>>)
    requires AllChars(cs) && cs != []
    ensures var front, c := Join(cs[..|cs| - 1]), cs[|cs| - 1];
      Join(cs) == front + c && c != [] && LastAt(Join(cs), 1) == |front|
  {
    LastChar(cs, 1);
    StepBack(Join(cs[..|cs| - 1]), cs[|cs| - 1], 1);
  }

  lemma LastOne(cs: seq<seq<Byte>>)
    requires AllChars(cs) && cs != []
    ensures Join(cs) != [] && Join(cs)[LastAt(Join(cs), 1)..] == Join(cs[|cs| - 1..])
  {
    LastOneAt(cs);
    assert cs[|cs| - 1..] == [cs[|cs| - 1]];
    JoinOne(cs[|cs| - 1]);
  }

  /** `luresize` keeps the last characters. */
  lemma {:induction false} LastOfJoin(cs: seq<seq<Byte>>, n: nat)
    requires AllChars(cs) && 0 < n <= |cs|
    ensures |Join(cs)| > 0 && LastAt(Join(cs), n) <= |Join(cs)|
    ensures Join(cs)[LastAt(Join(cs), n)..] == Join(cs[|cs| - n..])
    decreases n
  {
    JoinNonEmpty(cs);
    if n == 1 {
      LastOne(cs);
    } else {
      LastOfJoin(cs[..|cs| - 1], n - 1);
      LastStep(cs, n);
    }
  }

  lemma LastStep(cs: seq<seq<Byte>>, n: nat)
    requires AllChars(cs) && 1 < n <= |cs|
    requires var front := Join(cs[..|cs| - 1]);
      && front != [] && LastAt(front, n - 1) <= |front|
      && front[LastAt(front, n - 1)..] == Join(cs[..|cs| - 1][|cs| - n..])
    ensures Join(cs) != [] && LastAt(Join(cs), n) <= |Join(cs)|
    ensures Join(cs)[LastAt(Join(cs), n)..] == Join(cs[|cs| - n..])
  {
    var front, c := Join(cs[..|cs| - 1]), cs[|cs| - 1];
    LastChar(cs, n);
    StepBack(front, c, n);
    AppendChar(cs, n, front, LastAt(front, n - 1));
  }

  lemma AppendChar(cs: seq<seq<Byte>>, n: nat, front: seq<Byte>, start: nat)
    requires 1 < n <= |cs| && start <= |front|
    requires front[start..] == Join(cs[..|cs| - 1][|cs| - n..])
    ensures (front + cs[|cs| - 1])[start..] == Join(cs[|cs| - n..])
  {
    var c, tail := cs[|cs| - 1], cs[..|cs| - 1][|cs| - n..];
    assert (front + c)[start..] == front[start..] + c;
    JoinConcat(tail, [c]);
    JoinOne(c);
    assert tail + [c] == cs[|cs| - n..];
  }

  lemma HeadOfJoin(cs: seq<seq<Byte>>, n: nat)
    requires AllChars(cs) && n <= |cs|
    ensures Head(Join(cs), n) == Join(cs[..n])
  {
    FirstOfJoin(cs, n);
    JoinNonEmpty(cs);
    if n == 0 { assert cs[..n] == []; }
  }

  lemma TailOfJoin(cs: seq<seq<Byte>>, n: nat)
    requires AllChars(cs) && n <= |cs|
    ensures Tail(Join(cs), n) == Join(cs[|cs| - n..])
  {
    if n == 0 { assert cs[|cs|..] == []; } else { LastOfJoin(cs, n); }
  }

  /** A text has only one reading as characters. */
  lemma {:induction false} JoinInjective(a: seq<seq<Byte>>, b: seq<seq<Byte>>)
    requires AllChars(a) && AllChars(b) && Join(a) == Join(b)
    ensures a == b
  {
    FirstOfJoin(a, 0);
    FirstOfJoin(b, 0);
    if a != [] {
      FirstOfJoin(a, 1);
      FirstOfJoin(b, 1);
      assert a[..1] == [a[0]] && b[..1] == [b[0]];
      JoinOne(a[0]);
      JoinOne(b[0]);
      assert Join(a) == a[0] + Join(a[1..]) && Join(b) == b[0] + Join(b[1..]);
      assert Join(a)[|a[0]|..] == Join(a[1..]) && Join(b)[|b[0]|..] == Join(b[1..]);
      JoinInjective(a[1..], b[1..]);
    }
  }

  // ----- the characters of a text -----

  /** How many continuation bytes a text starts with. */
  function Stray(s: seq<Byte>): (n: nat)
    ensures n <= |s| && (forall i :: 0 <= i < n ==> !IsLead(s[i])) && (n < |s| ==> IsLead(s[n]))
  {
    if s == [] || IsLead(s[0]) then 0 else 1 + Stray(s[1..])
  }

  lemma FirstChar(text: seq<Byte>, n: nat)
    requires text != [] && IsLead(text[0]) && n == 1 + Stray(text[1..])
    ensures n <= |text| && IsChar(text[..n]) && text == text[..n] + text[n..] && (n < |text| ==> IsLead(text[n]))
  {
    assert forall i :: 0 < i < |text| ==> text[i] == text[1..][i - 1];
  }

  ghost function Chars(text: seq<Byte>): (cs: seq<seq<Byte>>)
    requires text == [] || IsLead(text[0])
    ensures AllChars(cs) && Join(cs) == text
  {
    if text == [] then []
    else
      var n := 1 + Stray(text[1..]);
      FirstChar(text, n);
      [text[..n]] + Chars(text[n..])
  }
}
