/**
 The incremental graph, in its non-tty form. Two sets of rows are kept, one pairing samples (0,1), (2,3), ...
 and one pairing (1,2), (3,4), ...; each update drops the leftmost glyph of one set at byte level and appends
 the newest pair to it.
 */
module Graphs {
  import opened Arithmetic
  import opened Bytes
  import opened Collections

  const LLONG_MIN: int := -0x8000_0000_0000_0000
  const RIGHT_ONE: seq<Byte> := [ESC, OPEN, 49, 67]    // ESC [ 1 C
  const DOWN_ONE: seq<Byte> := [ESC, OPEN, 49, 66]     // ESC [ 1 B

  /** `n` characters to the left. */
  function LeftBy(n: nat): seq<Byte> {
    [ESC, OPEN] + Decimal(n) + [68]
  }

  /**
   A graph's fixed settings. `level` is the height 0..4 of a value within a row, given the least level allowed
   there; how a value between two levels is rounded is left open.
   */
  datatype Style = Style(
    width: nat, height: nat, useGradient: bool, invert: bool, noZero: bool, maxValue: int, offset: int,
    symbols: seq<seq<Byte>>, gradient: seq<seq<Byte>>, reset: seq<Byte>, level: (int, nat, nat) -> nat)
  {
    /**
     Symbol 0 is a space and all others take three bytes; raising the left column from empty changes the symbol.
     Gradient entries are SGR sequences. Zero has the least level.
     */
    ghost predicate Valid() {
      && width > 0 && height > 0
      && |symbols| == 25 && symbols[0] == [32]
      && (forall k :: 0 < k < 25 ==> |symbols[k]| == 3 && symbols[k][0] != 32 && symbols[k][1] != OPEN)
      && |gradient| == 101 && (forall k :: 0 <= k < 101 ==> IsColour(gradient[k]))
      && (forall k :: 0 <= k < 5 ==> symbols[k] != symbols[k + 5])
      && (forall v: int, row: nat, least: nat :: least <= 4 ==> least <= level(v, row, least) <= 4)
      && (forall row: nat, least: nat :: least <= 4 ==> level(0, row, least) == least)
    }

    /** The displayed value of a sample, in percent when there is a maximum. */
    function Scaled(x: int): int {
      if maxValue > 0 then Clamp(Quotient((x + offset) * 100, maxValue), 0, 100) else x
    }

    /** The least level in a row: with `noZero`, the bottom row is never empty. */
    function Least(row: nat): nat {
      if noZero && row + 1 == height then 1 else 0
    }
  }

  predicate IsColour(g: seq<Byte>) {
    && |g| > 4 && g[0] == ESC && g[1] == OPEN && g[3] != 67
    && g[|g| - 1] == SGR && forall i :: 0 <= i < |g| - 1 ==> g[i] != SGR
  }

  function Clamp(x: int, lo: int, hi: int): int {
    if x < lo then lo else if x > hi then hi else x
  }

  /** Division that truncates towards zero. */
  function Quotient(a: int, b: int): int
    requires b > 0
  {
    if a >= 0 then a / b else -(-a / b)
  }

  function Max(a: int, b: int): int {
    if a > b then a else b
  }

  // ----- glyphs -----

  /** One column of one row set: padding, or a pair of samples; `first` marks the first pair of a new graph. */
  datatype Glyph = Blank | Pair(before: int, value: int, first: bool)

  function GlyphBytes(s: Style, g: Glyph, row: nat): (b: seq<Byte>)
    requires s.Valid()
  {
    match g
    case Blank => if s.height == 1 then RIGHT_ONE else [32]
    case Pair(before, value, first) =>
      var left := s.level(before, row, if first then 0 else s.Least(row));
      var right := s.level(value, row, s.Least(row));
      if s.height == 1 && left + right == 0 then RIGHT_ONE
      else
        (if s.height == 1 && s.useGradient then s.gradient[Clamp(Max(before, value), 0, 100)] else [])
        + s.symbols[left * 5 + right]
  }

  function RowBytes(s: Style, gs: seq<Glyph>, row: nat): seq<Byte>
    requires s.Valid()
  {
    if gs == [] then [] else GlyphBytes(s, gs[0], row) + RowBytes(s, gs[1..], row)
  }

  /** All rows of a set. */
  function Rows(s: Style, gs: seq<Glyph>): (r: seq<seq<Byte>>)
    requires s.Valid()
    ensures |r| == s.height && forall i :: 0 <= i < s.height ==> r[i] == RowBytes(s, gs, i)
  {
    seq(s.height, (i: nat) => RowBytes(s, gs, i))
  }

  lemma RowCons(s: Style, g: Glyph, gs: seq<Glyph>, row: nat)
    requires s.Valid()
    ensures RowBytes(s, [g] + gs, row) == GlyphBytes(s, g, row) + RowBytes(s, gs, row)
  {
    assert ([g] + gs)[1..] == gs;
  }

  lemma RowConcatStep(s: Style, g: Glyph, a: seq<Glyph>, b: seq<Glyph>, row: nat)
    requires s.Valid() && RowBytes(s, a + b, row) == RowBytes(s, a, row) + RowBytes(s, b, row)
    ensures RowBytes(s, [g] + (a + b), row) == RowBytes(s, [g] + a, row) + RowBytes(s, b, row)
  {
    RowCons(s, g, a + b, row);
    RowCons(s, g, a, row);
    Regroup(GlyphBytes(s, g, row), RowBytes(s, a, row), RowBytes(s, b, row));
  }

  lemma {:induction false} RowConcat(s: Style, a: seq<Glyph>, b: seq<Glyph>, row: nat)
    requires s.Valid()
    ensures RowBytes(s, a + b, row) == RowBytes(s, a, row) + RowBytes(s, b, row)
  {
    if a == [] {
      assert a + b == b;
    } else {
      RowConcat(s, a[1..], b, row);
      RowConcatStep(s, a[0], a[1..], b, row);
      assert a == [a[0]] + a[1..];
      Regroup([a[0]], a[1..], b);
    }
  }

  lemma RowAppend(s: Style, gs: seq<Glyph>, g: Glyph, row: nat)
    requires s.Valid()
    ensures RowBytes(s, gs + [g], row) == RowBytes(s, gs, row) + GlyphBytes(s, g, row)
  {
    RowConcat(s, gs, [g], row);
    assert [g][1..] == [];
    assert GlyphBytes(s, g, row) + [] == GlyphBytes(s, g, row);
  }

  // ----- dropping the leftmost glyph -----

  function FirstM(b: seq<Byte>): (k: nat)
    ensures k <= |b|
  {
    if b == [] || b[0] == SGR then 0 else 1 + FirstM(b[1..])
  }

  /** The row has the bytes that `at` looks at; on other rows it throws. */
  predicate Droppable(s: Style, b: seq<Byte>) {
    b != [] && (s.height == 1 ==> 1 < |b| && (b[1] == OPEN ==> 3 < |b|))
  }

  /** How many bytes are erased from the left of a row. */
  function GlyphLength(s: Style, b: seq<Byte>): nat
    requires Droppable(s, b)
  {
    if s.height == 1 && b[1] == OPEN then
      if b[3] == 67 then 4
      else if SGR in b then FirstM(b) + 4
      else 3
    else if b[0] == 32 then 1
    else 3
  }

  function Dropped(s: Style, b: seq<Byte>): seq<Byte>
    requires Droppable(s, b)
  {
    if GlyphLength(s, b) <= |b| then b[GlyphLength(s, b)..] else []
  }

  lemma {:induction false} FirstMIs(g: seq<Byte>, rest: seq<Byte>)
    requires g != [] && g[|g| - 1] == SGR && forall i :: 0 <= i < |g| - 1 ==> g[i] != SGR
    ensures FirstM(g + rest) == |g| - 1
  {
    if |g| > 1 {
      assert (g + rest)[1..] == g[1..] + rest;
      FirstMIs(g[1..], rest);
    }
  }

  lemma ColouredGlyph(s: Style, c: seq<Byte>, symbol: seq<Byte>, rest: seq<Byte>)
    requires s.height == 1 && IsColour(c) && |symbol| == 3
    ensures var b := c + symbol + rest;
      Droppable(s, b) && GlyphLength(s, b) == |c| + 3
  {
    var b := c + symbol + rest;
    assert b == c + (symbol + rest);
    FirstMIs(c, symbol + rest);
    assert b[1] == OPEN && b[3] != 67;
    assert b[|c| - 1] == SGR;
  }

  /** What is erased is exactly the leftmost glyph. */
  lemma DropsOneGlyph(s: Style, g: Glyph, rest: seq<Byte>, row: nat)
    requires s.Valid() && row < s.height
    ensures var b := GlyphBytes(s, g, row) + rest;
      Droppable(s, b) && Dropped(s, b) == rest
  {
    var glyph := GlyphBytes(s, g, row);
    var b := glyph + rest;
    if g.Pair? {
      var left := s.level(g.before, row, if g.first then 0 else s.Least(row));
      var right := s.level(g.value, row, s.Least(row));
      var k := left * 5 + right;
      assert k < 25;
      if s.height == 1 && k > 0 && s.useGradient {
        var c := s.gradient[Clamp(Max(g.before, g.value), 0, 100)];
        assert IsColour(c);
        assert glyph == c + s.symbols[k];
        ColouredGlyph(s, c, s.symbols[k], rest);
      } else if s.height > 1 || k > 0 {
        assert glyph == s.symbols[k];
      }
    }
    assert GlyphLength(s, b) == |glyph|;
  }

  // ----- the graph as lists of glyphs -----

  /** `sets[current]` is displayed; `last` is the scaled value the next pair starts with. */
  datatype Content = Content(even: seq<Glyph>, odd: seq<Glyph>, current: bool, last: int)
  {
    function Shown(): seq<Glyph> { if current then odd else even }
    function Hidden(): seq<Glyph> { if current then even else odd }

    /** Appends a pair to the current set. */
    function Add(g: Glyph): Content {
      if current then this.(odd := odd + [g]) else this.(even := even + [g])
    }

    /** Makes the other set current and drops its leftmost glyph. */
    function Turned(): Content
      requires Hidden() != []
    {
      if current then this.(current := false, even := even[1..]) else this.(current := true, odd := odd[1..])
    }
  }

  /** Sample `i` scaled; positions before the first sample hold 0. */
  function Value(s: Style, data: seq<int>, i: int): int
    requires i < |data|
  {
    if i < 0 then 0 else s.Scaled(data[i])
  }

  /** Where a new graph starts reading, so that an even number of samples fills at most its width. */
  function StartOffset(s: Style, n: nat): int {
    var start := if (n + 1) / 2 > s.width then n - s.width * 2 else 0;
    if (n - start) % 2 != 0 then start - 1 else start
  }

  function Padding(s: Style, n: nat): seq<Glyph> {
    if (n + 1) / 2 < s.width then seq(s.width - (n + 1) / 2, _ => Blank) else []
  }

  /** The horizontal iteration of `_create` from sample `i` on, for data of which more than one sample is read. */
  function Populate(s: Style, c: Content, data: seq<int>, start: int, i: int): Content
    requires -1 <= start <= i <= |data|
    decreases |data| - i
  {
    if i == |data| then c
    else
      var before := if i < 0 then 0 else c.last;
      var turned := c.(current := !c.current, last := Value(s, data, i));
      Populate(s, turned.Add(Pair(before, Value(s, data, i), i == start)), data, start, i + 1)
  }

  /** A graph built from scratch. */
  function FreshContent(s: Style, data: seq<int>): Content {
    var pad := Padding(s, |data|);
    if data == [] then Content(pad, pad, true, 0)
    else
      var start := StartOffset(s, |data|);
      StartInRange(s, |data|);
      Populate(s, Content(pad, pad, true, if start > 0 then s.Scaled(data[start - 1]) else 0), data, start, start)
  }

  lemma StartInRange(s: Style, n: nat)
    ensures -1 <= StartOffset(s, n) <= n && (n - StartOffset(s, n)) % 2 == 0
  {
  }

  /** One update with newest sample `x`. */
  function Updated(s: Style, c: Content, x: int): Content
    requires c.Hidden() != []
  {
    c.Turned().Add(Pair(c.last, s.Scaled(x), false)).(last := s.Scaled(x))
  }

  // ----- what a graph should show -----

  /** The glyph whose newest sample is number `i` of history `h`. */
  function At(s: Style, h: seq<int>, i: int): Glyph
    requires i < |h|
  {
    if i < 0 then Blank else Pair(Value(s, h, i - 1), Value(s, h, i), false)
  }

  /** The `n` glyphs whose newest samples are `from`, `from + 2`, ... */
  function Every(s: Style, h: seq<int>, from: int, n: nat): (r: seq<Glyph>)
    requires n > 0 ==> from + 2 * (n - 1) < |h|
    ensures |r| == n && forall j :: 0 <= j < n ==> r[j] == At(s, h, from + 2 * j)
  {
    seq(n, (j: nat) requires j < n => At(s, h, from + 2 * j))
  }

  /** A row as wide as the graph, ending with the newest sample. */
  function Display(s: Style, h: seq<int>): (r: seq<Glyph>)
    ensures |r| == s.width
  {
    Every(s, h, |h| - 2 * s.width + 1, s.width)
  }

  function ButLast(h: seq<int>): seq<int> {
    if h == [] then [] else h[..|h| - 1]
  }

  /** Two glyphs print the same bytes in every row. */
  ghost predicate SameGlyph(s: Style, a: Glyph, b: Glyph)
    requires s.Valid()
  {
    forall row :: 0 <= row < s.height ==> GlyphBytes(s, a, row) == GlyphBytes(s, b, row)
  }

  /** Two sets print the same from column `from` on. */
  ghost predicate SameFrom(s: Style, a: seq<Glyph>, b: seq<Glyph>, from: nat)
    requires s.Valid()
  {
    |a| == |b| == s.width && forall j :: from <= j < s.width ==> SameGlyph(s, a[j], b[j])
  }

  /** The value the next pair starts with. */
  function LastValue(s: Style, h: seq<int>): int {
    if h == [] then 0 else Value(s, h, |h| - 1)
  }

  /**
   The displayed set ends with the newest sample of `h`, and the hidden set with the one before it, except
   perhaps in its first glyph.
   */
  ghost predicate Tracks(s: Style, h: seq<int>, c: Content)
    requires s.Valid()
  {
    && c.last == LastValue(s, h) && SameFrom(s, c.Shown(), Display(s, h), 0)
    && SameFrom(s, c.Hidden(), Display(s, ButLast(h)), if s.noZero then 1 else 0)
  }

  /** No samples yet, or enough to fill the width, unless empty columns look like zero samples anyway. */
  predicate LongEnough(s: Style, h: seq<int>) {
    s.noZero ==> h == [] || |h| + 1 >= 2 * s.width
  }

  /** One sample more moves every second column on by one and adds a pair. */
  lemma DisplayMoves(s: Style, h: seq<int>, x: int)
    requires s.width > 0
    ensures Display(s, h + [x])
         == Display(s, ButLast(h))[1..] + [Pair(LastValue(s, h), s.Scaled(x), false)]
  {
    var a, b := Display(s, h + [x]), Display(s, ButLast(h));
    forall j | 0 <= j < s.width - 1 ensures a[j] == b[j + 1] {
      assert a[j] == At(s, h + [x], |h| - 2 * s.width + 2 + 2 * j);
    }
    assert a[s.width - 1] == At(s, h + [x], |h|);
  }

  lemma SameMoved(s: Style, a: seq<Glyph>, b: seq<Glyph>, from: nat, g: Glyph)
    requires s.Valid() && SameFrom(s, a, b, from) && from <= 1
    ensures SameFrom(s, a[1..] + [g], b[1..] + [g], 0)
  {
    forall j | 0 <= j < s.width ensures SameGlyph(s, (a[1..] + [g])[j], (b[1..] + [g])[j]) {
      if j + 1 < s.width { assert SameGlyph(s, a[j + 1], b[j + 1]); }
    }
  }

  lemma UpdatedSets(s: Style, c: Content, x: int)
    requires c.Hidden() != []
    ensures Updated(s, c, x).Shown() == c.Hidden()[1..] + [Pair(c.last, s.Scaled(x), false)]
    ensures Updated(s, c, x).Hidden() == c.Shown() && Updated(s, c, x).last == s.Scaled(x)
  {
  }

  /** An update extends the history by one sample. */
  lemma UpdateTracks(s: Style, h: seq<int>, c: Content, x: int)
    requires s.Valid() && Tracks(s, h, c)
    ensures Tracks(s, h + [x], Updated(s, c, x))
  {
    assert ButLast(h + [x]) == h;
    DisplayMoves(s, h, x);
    UpdatedSets(s, c, x);
    SameMoved(s, c.Hidden(), Display(s, ButLast(h)), if s.noZero then 1 else 0, Pair(c.last, s.Scaled(x), false));
  }

  // ----- a graph built from scratch shows what it should -----

  function FirstPair(s: Style, data: seq<int>, start: int): Glyph
    requires start < |data|
  {
    Pair(Value(s, data, start - 1), Value(s, data, start), true)
  }

  /** `_create` after reading samples `start..i`, begun with `p` columns of padding. */
  ghost predicate Partial(s: Style, data: seq<int>, start: int, i: int, p: nat, c: Content)
    requires -1 <= start <= i <= |data|
  {
    && |c.even| == p + (i - start + 1) / 2 && |c.odd| == p + (i - start) / 2
    && c.current == ((i - start) % 2 == 0)
    && c.last == Value(s, data, i - 1)
    && (forall j :: 0 <= j < p ==> c.even[j] == Blank && c.odd[j] == Blank)
    && (forall j :: p <= j < |c.even| ==>
          c.even[j] == if j == p then FirstPair(s, data, start) else At(s, data, start + 2 * (j - p)))
    && (forall j :: p <= j < |c.odd| ==> c.odd[j] == At(s, data, start + 1 + 2 * (j - p)))
  }

  /** Reading one more sample. */
  lemma PartialStep(s: Style, c: Content, data: seq<int>, start: int, i: int, p: nat)
    requires -1 <= start <= i < |data| && Partial(s, data, start, i, p, c)
    ensures var g := Pair(if i < 0 then 0 else c.last, Value(s, data, i), i == start);
      Partial(s, data, start, i + 1, p, c.(current := !c.current, last := Value(s, data, i)).Add(g))
  {
    assert (if i < 0 then 0 else c.last) == Value(s, data, i - 1);
  }

  lemma {:induction false} PopulateMeaning(s: Style, c: Content, data: seq<int>, start: int, i: int, p: nat)
    requires -1 <= start <= i <= |data| && Partial(s, data, start, i, p, c)
    ensures Partial(s, data, start, |data|, p, Populate(s, c, data, start, i))
    decreases |data| - i
  {
    if i < |data| {
      PartialStep(s, c, data, start, i, p);
      var g := Pair(if i < 0 then 0 else c.last, Value(s, data, i), i == start);
      PopulateMeaning(s, c.(current := !c.current, last := Value(s, data, i)).Add(g), data, start, i + 1, p);
    }
  }

  lemma PaddingFits(s: Style, n: nat)
    requires s.width > 0 && n > 0
    ensures var start := StartOffset(s, n);
      && n - start == 2 * (s.width - |Padding(s, n)|) && start < n
      && (|Padding(s, n)| > 0 ==> start <= 0)
      && (n + 1 >= 2 * s.width ==> Padding(s, n) == [])
  {
  }

  /** Without `noZero`, padding, zero pairs and first pairs print like ordinary pairs. */
  lemma FirstPairPrints(s: Style, h: seq<int>, i: int)
    requires s.Valid() && !s.noZero && i < |h|
    ensures SameGlyph(s, FirstPair(s, h, i), At(s, h, i))
  {
  }

  /** The two sets of a new graph: padding, then pairs up to the newest sample and up to the one before it. */
  lemma FreshMeaning(s: Style, h: seq<int>)
    requires s.width > 0 && h != []
    ensures var n, p := |h|, |Padding(s, |h|)|;
      var start, c := StartOffset(s, n), FreshContent(s, h);
      && -1 <= start < n && n - start == 2 * (s.width - p) && (p > 0 ==> start <= 0)
      && Partial(s, h, start, n, p, c) && c.current && |c.odd| == |c.even| == s.width
  {
    var start, pad := StartOffset(s, |h|), Padding(s, |h|);
    StartInRange(s, |h|);
    PaddingFits(s, |h|);
    var c0 := Content(pad, pad, true, if start > 0 then s.Scaled(h[start - 1]) else 0);
    assert Partial(s, h, start, start, |pad|, c0);
    PopulateMeaning(s, c0, h, start, start, |pad|);
  }

  /** What a new graph displays, whatever the length of its history. */
  lemma FreshShows(s: Style, h: seq<int>)
    requires s.width > 0
    ensures |FreshContent(s, h).even| == |FreshContent(s, h).odd| == s.width
    ensures FreshContent(s, h).Shown() == Display(s, h)
    ensures FreshContent(s, h).last == LastValue(s, h)
  {
    var c := FreshContent(s, h);
    if h != [] {
      FreshMeaning(s, h);
      var n, start, p := |h|, StartOffset(s, |h|), |Padding(s, |h|)|;
      forall j | 0 <= j < s.width ensures c.odd[j] == Display(s, h)[j] {
        var i := n - 2 * s.width + 1 + 2 * j;
        assert i == start + 1 + 2 * (j - p);
        assert Display(s, h)[j] == At(s, h, i);
      }
    }
  }

  /** What a new graph hides, except at the first pair it drew. */
  lemma FreshHides(s: Style, h: seq<int>, j: nat)
    requires s.width > 0 && h != [] && j < s.width
    ensures |FreshContent(s, h).Hidden()| == s.width
    ensures var p := |Padding(s, |h|)|;
      if j == p then
        StartOffset(s, |h|) < |h| && FreshContent(s, h).Hidden()[j] == FirstPair(s, h, StartOffset(s, |h|))
        && Display(s, ButLast(h))[j] == At(s, h, StartOffset(s, |h|))
      else FreshContent(s, h).Hidden()[j] == Display(s, ButLast(h))[j]
  {
    FreshMeaning(s, h);
    var c, start, p := FreshContent(s, h), StartOffset(s, |h|), |Padding(s, |h|)|;
    var i := |h| - 2 * s.width + 2 * j;
    assert i == start + 2 * (j - p);
    assert Display(s, ButLast(h))[j] == At(s, ButLast(h), i) == At(s, h, i);
  }

  /** A new graph tracks its history if that is long enough. */
  lemma FreshTracks(s: Style, h: seq<int>)
    requires s.Valid() && LongEnough(s, h)
    ensures Tracks(s, h, FreshContent(s, h))
  {
    FreshShows(s, h);
    if h != [] {
      FreshMeaning(s, h);
      forall j | (if s.noZero then 1 else 0) <= j < s.width
        ensures SameGlyph(s, FreshContent(s, h).Hidden()[j], Display(s, ButLast(h))[j])
      {
        FreshHidesAlike(s, h, j);
      }
    }
  }

  lemma FreshHidesAlike(s: Style, h: seq<int>, j: nat)
    requires s.Valid() && LongEnough(s, h) && h != [] && j < s.width && (s.noZero ==> j > 0)
    ensures |FreshContent(s, h).Hidden()| == s.width
    ensures SameGlyph(s, FreshContent(s, h).Hidden()[j], Display(s, ButLast(h))[j])
  {
    FreshHides(s, h, j);
    PaddingFits(s, |h|);
    if j == |Padding(s, |h|)| { FirstPairPrints(s, h, StartOffset(s, |h|)); }
  }

  // ----- equal displays print equal bytes -----

  lemma {:induction false} SameRows(s: Style, a: seq<Glyph>, b: seq<Glyph>, row: nat)
    requires s.Valid() && row < s.height && |a| == |b|
    requires forall j :: 0 <= j < |a| ==> SameGlyph(s, a[j], b[j])
    ensures RowBytes(s, a, row) == RowBytes(s, b, row)
  {
    if a != [] {
      assert SameGlyph(s, a[0], b[0]);
      forall j | 0 <= j < |a[1..]| ensures SameGlyph(s, a[1..][j], b[1..][j]) {
        assert SameGlyph(s, a[j + 1], b[j + 1]);
      }
      SameRows(s, a[1..], b[1..], row);
    }
  }

  /** A content that tracks a history displays its newest samples. */
  lemma TracksDetermineRows(s: Style, h: seq<int>, c: Content)
    requires s.Valid() && Tracks(s, h, c)
    ensures Rows(s, c.Shown()) == Rows(s, Display(s, h))
  {
    forall row | 0 <= row < s.height ensures Rows(s, c.Shown())[row] == Rows(s, Display(s, h))[row] {
      SameRows(s, c.Shown(), Display(s, h), row);
    }
  }

  // ----- updates -----

  /** Where the columns of `xs` that change the newest value are: a repeated value is not drawn again. */
  function Accepted(newest: int, blank: bool, xs: seq<int>): seq<int>
    decreases |xs|
  {
    if xs == [] then []
    else if xs[0] == newest && !blank then Accepted(newest, blank, xs[1..])
    else [xs[0]] + Accepted(xs[0], false, xs[1..])
  }

  /** `blank` says that nothing has been printed yet. */
  function Fed(s: Style, c: Content, newest: int, blank: bool, xs: seq<int>): Content
    requires s.width > 0 && |c.even| == |c.odd| == s.width
    decreases |xs|
  {
    if xs == [] then c
    else if xs[0] == newest && !blank then Fed(s, c, newest, blank, xs[1..])
    else Fed(s, Updated(s, c, xs[0]), xs[0], false, xs[1..])
  }

  lemma {:induction false} FedTracks(s: Style, h: seq<int>, c: Content, newest: int, blank: bool, xs: seq<int>)
    requires s.Valid() && Tracks(s, h, c)
    ensures Tracks(s, h + Accepted(newest, blank, xs), Fed(s, c, newest, blank, xs))
    decreases |xs|
  {
    if xs == [] {
      assert h + [] == h;
    } else if xs[0] == newest && !blank {
      FedTracks(s, h, c, newest, blank, xs[1..]);
    } else {
      UpdateTracks(s, h, c, xs[0]);
      FedTracks(s, h + [xs[0]], Updated(s, c, xs[0]), xs[0], false, xs[1..]);
      Regroup(h, [xs[0]], Accepted(xs[0], false, xs[1..]));
    }
  }

  /** The first sample differs from the newest one, unless nothing has been printed, and each from the one before. */
  predicate NeverRepeats(newest: int, blank: bool, xs: seq<int>) {
    && (xs != [] ==> blank || xs[0] != newest)
    && forall i :: 0 <= i < |xs| - 1 ==> xs[i] != xs[i + 1]
  }

  lemma NeverRepeatsStep(newest: int, blank: bool, xs: seq<int>)
    requires xs != []
    ensures NeverRepeats(newest, blank, xs) <==> (blank || xs[0] != newest) && NeverRepeats(xs[0], false, xs[1..])
  {
    var rest := xs[1..];
    assert forall i :: 0 <= i < |rest| ==> rest[i] == xs[i + 1];
    if NeverRepeats(xs[0], false, rest) {
      forall i | 0 <= i < |xs| - 1 ensures xs[i] != xs[i + 1] {
        if i > 0 { assert rest[i - 1] != rest[i]; }
      }
    }
  }

  lemma {:induction false} AcceptedAtMost(newest: int, blank: bool, xs: seq<int>)
    ensures |Accepted(newest, blank, xs)| <= |xs|
    decreases |xs|
  {
    if xs == [] {
    } else if xs[0] == newest && !blank {
      AcceptedAtMost(newest, blank, xs[1..]);
    } else {
      AcceptedAtMost(xs[0], false, xs[1..]);
    }
  }

  lemma {:induction false} DistinctAreAccepted(newest: int, blank: bool, xs: seq<int>)
    ensures Accepted(newest, blank, xs) == xs <==> NeverRepeats(newest, blank, xs)
    decreases |xs|
  {
    if xs == [] {
    } else {
      NeverRepeatsStep(newest, blank, xs);
      if xs[0] == newest && !blank {
        AcceptedAtMost(newest, blank, xs[1..]);
      } else {
        DistinctAreAccepted(xs[0], false, xs[1..]);
        assert Accepted(newest, blank, xs)[1..] == Accepted(xs[0], false, xs[1..]);
      }
    }
  }

  function Newest(h: seq<int>): int {
    if h == [] then LLONG_MIN else h[|h| - 1]
  }

  /** The samples a graph built on `h` draws when fed `xs`. */
  function Drawn(h: seq<int>, xs: seq<int>): seq<int> {
    h + Accepted(Newest(h), h == [], xs)
  }

  /** A graph built on `h` and then fed `xs`. */
  function Incremental(s: Style, h: seq<int>, xs: seq<int>): Content
    requires s.width > 0
  {
    FreshShows(s, h);
    Fed(s, FreshContent(s, h), Newest(h), h == [], xs)
  }

  ghost predicate DisplaysAsFresh(s: Style, h: seq<int>, xs: seq<int>)
    requires s.Valid()
  {
    Rows(s, Incremental(s, h, xs).Shown()) == Rows(s, FreshContent(s, Drawn(h, xs)).Shown())
  }

  /** Feeding samples one at a time displays what a graph built from scratch on all drawn samples displays. */
  lemma IncrementalIsFresh(s: Style, h: seq<int>, xs: seq<int>)
    requires s.Valid() && LongEnough(s, h)
    ensures Tracks(s, Drawn(h, xs), Incremental(s, h, xs))
    ensures DisplaysAsFresh(s, h, xs)
  {
    FreshTracks(s, h);
    FedTracks(s, h, FreshContent(s, h), Newest(h), h == [], xs);
    FreshShows(s, Drawn(h, xs));
    TracksDetermineRows(s, Drawn(h, xs), Incremental(s, h, xs));
  }

  /** Once the width is filled, the hidden sets agree as well, except perhaps in the first glyph. */
  lemma HiddenIsFresh(s: Style, h: seq<int>, xs: seq<int>)
    requires s.Valid() && |h| >= 2 * s.width
    ensures var a, b := Incremental(s, h, xs).Hidden(), FreshContent(s, Drawn(h, xs)).Hidden();
      |a| == |b| == s.width && forall j :: 0 < j < s.width ==> SameGlyph(s, a[j], b[j])
  {
    IncrementalIsFresh(s, h, xs);
    var drawn := Drawn(h, xs);
    FreshTracks(s, drawn);
    var a, b := Incremental(s, h, xs).Hidden(), FreshContent(s, drawn).Hidden();
    forall j | 0 < j < s.width ensures SameGlyph(s, a[j], b[j]) {
      var d := Display(s, ButLast(drawn))[j];
      assert SameGlyph(s, a[j], d) && SameGlyph(s, b[j], d);
    }
  }

  /** With `noZero`, the first pair of a graph prints differently from the same pair drawn later. */
  lemma FirstPairDiffers(s: Style, h: seq<int>, i: int)
    requires s.Valid() && s.noZero && -1 <= i < |h| && i <= 0
    ensures GlyphBytes(s, FirstPair(s, h, i), s.height - 1) != GlyphBytes(s, At(s, h, i), s.height - 1)
  {
    var row := s.height - 1;
    var right := s.level(Value(s, h, i), row, 1);
    var a, b := GlyphBytes(s, FirstPair(s, h, i), row), GlyphBytes(s, At(s, h, i), row);
    var c := if s.height == 1 && s.useGradient then s.gradient[Clamp(Max(0, Value(s, h, i)), 0, 100)] else [];
    assert s.level(0, row, 0) == 0 && s.level(0, row, 1) == 1;
    assert a == c + s.symbols[right];
    if i == 0 {
      assert right <= 4;
      assert b == c + s.symbols[5 + right];
      assert |s.symbols[right]| == |s.symbols[5 + right]| || right == 0;
      assert a[|c|..] == s.symbols[right] && b[|c|..] == s.symbols[5 + right];
    } else {
      assert right == 1;
      assert |a| == |c| + 3;
    }
  }

  lemma OneSample(s: Style, h: seq<int>, x: int)
    requires s.width > 0 && h != [] && x != Newest(h)
    ensures FreshContent(s, h).Hidden() != [] && Drawn(h, [x]) == h + [x]
    ensures Incremental(s, h, [x]) == Updated(s, FreshContent(s, h), x)
  {
    FreshShows(s, h);
    var c := FreshContent(s, h);
    assert [x][1..] == [];
    assert Accepted(Newest(h), false, [x]) == [x];
    assert Fed(s, Updated(s, c, x), x, false, []) == Updated(s, c, x);
  }

  /** After one sample, column `j` shows what column `j + 1` hid. */
  lemma SurfacedColumn(s: Style, h: seq<int>, x: int, j: nat)
    requires s.width > 0 && h != [] && x != Newest(h) && j < s.width
    ensures |Incremental(s, h, [x]).Shown()| == s.width
    ensures var p, start := |Padding(s, |h|)|, StartOffset(s, |h|);
      var a, b := Incremental(s, h, [x]).Shown()[j], Display(s, h + [x])[j];
      if j + 1 == p then start < |h| && a == FirstPair(s, h, start) && b == At(s, h, start) else a == b
  {
    OneSample(s, h, x);
    FreshShows(s, h);
    UpdatedSets(s, FreshContent(s, h), x);
    DisplayMoves(s, h, x);
    if j + 1 < s.width {
      FreshHides(s, h, j + 1);
    } else {
      PaddingFits(s, |h|);
    }
  }

  lemma RowAround(s: Style, a: seq<Glyph>, k: nat, row: nat)
    requires s.Valid() && k < |a|
    ensures RowBytes(s, a, row) == RowBytes(s, a[..k], row) + (GlyphBytes(s, a[k], row) + RowBytes(s, a[k + 1..], row))
  {
    assert a[k..][1..] == a[k + 1..];
    assert a == a[..k] + a[k..];
    RowConcat(s, a[..k], a[k..], row);
  }

  lemma CancelBoth(front: seq<Byte>, a: seq<Byte>, b: seq<Byte>, back: seq<Byte>)
    ensures front + (a + back) == front + (b + back) ==> a == b
  {
    var x, y := front + (a + back), front + (b + back);
    if x == y {
      assert |a| == |b|;
      assert x[|front|..|front| + |a|] == a && y[|front|..|front| + |a|] == b;
    }
  }

  lemma OneGlyphApart(s: Style, a: seq<Glyph>, b: seq<Glyph>, k: nat, row: nat)
    requires s.Valid() && k < |a| == |b| && forall j :: 0 <= j < |a| && j != k ==> a[j] == b[j]
    requires GlyphBytes(s, a[k], row) != GlyphBytes(s, b[k], row)
    ensures RowBytes(s, a, row) != RowBytes(s, b, row)
  {
    RowAround(s, a, k, row);
    RowAround(s, b, k, row);
    assert a[..k] == b[..k] && a[k + 1..] == b[k + 1..];
    CancelBoth(RowBytes(s, a[..k], row), GlyphBytes(s, a[k], row), GlyphBytes(s, b[k], row),
               RowBytes(s, a[k + 1..], row));
  }

  /** Both sets of columns have the same width and differ in one column, in the bottom row. */
  ghost predicate DifferAt(s: Style, a: seq<Glyph>, b: seq<Glyph>, k: nat)
    requires s.Valid()
  {
    && k < |a| == |b| && (forall j :: 0 <= j < |a| && j != k ==> a[j] == b[j])
    && GlyphBytes(s, a[k], s.height - 1) != GlyphBytes(s, b[k], s.height - 1)
  }

  lemma DifferentRows(s: Style, a: seq<Glyph>, b: seq<Glyph>, k: nat)
    requires s.Valid() && DifferAt(s, a, b, k)
    ensures Rows(s, a) != Rows(s, b)
  {
    OneGlyphApart(s, a, b, k, s.height - 1);
    assert Rows(s, a)[s.height - 1] != Rows(s, b)[s.height - 1];
  }

  lemma ShortHistorySurfaces(s: Style, h: seq<int>, x: int)
    requires s.Valid() && !LongEnough(s, h) && x != Newest(h)
    ensures |Padding(s, |h|)| > 0
    ensures DifferAt(s, Incremental(s, h, [x]).Shown(), Display(s, h + [x]), |Padding(s, |h|)| - 1)
  {
    var p, start := |Padding(s, |h|)|, StartOffset(s, |h|);
    PaddingFits(s, |h|);
    StartInRange(s, |h|);
    var a, b := Incremental(s, h, [x]).Shown(), Display(s, h + [x]);
    SurfacedColumn(s, h, x, p - 1);
    forall j | 0 <= j < s.width && j != p - 1 ensures a[j] == b[j] { SurfacedColumn(s, h, x, j); }
    FirstPairDiffers(s, h, start);
  }

  /** On a shorter history, the first pair surfaces in the display and the very next sample shows it. */
  lemma ShortHistoryDiffers(s: Style, h: seq<int>, x: int)
    requires s.Valid() && !LongEnough(s, h) && x != Newest(h)
    ensures !DisplaysAsFresh(s, h, [x])
  {
    ShortHistorySurfaces(s, h, x);
    DifferentRows(s, Incremental(s, h, [x]).Shown(), Display(s, h + [x]), |Padding(s, |h|)| - 1);
    OneSample(s, h, x);
    FreshShows(s, h + [x]);
  }

  /** Exactly which graphs can be updated in place of being rebuilt. */
  lemma IncrementalIsFreshIff(s: Style, h: seq<int>)
    requires s.Valid()
    ensures (forall xs :: DisplaysAsFresh(s, h, xs)) <==> LongEnough(s, h)
  {
    if LongEnough(s, h) {
      forall xs ensures DisplaysAsFresh(s, h, xs) { IncrementalIsFresh(s, h, xs); }
    } else {
      ShortHistoryDiffers(s, h, Newest(h) + 1);
    }
  }

  /** Every sample is drawn exactly when none repeats the one before it. */
  lemma DistinctHistoryIsDrawn(h: seq<int>, xs: seq<int>)
    ensures Drawn(h, xs) == h + xs <==> NeverRepeats(Newest(h), h == [], xs)
  {
    DistinctAreAccepted(Newest(h), h == [], xs);
    var accepted := Accepted(Newest(h), h == [], xs);
    assert Drawn(h, xs)[|h|..] == accepted && (h + xs)[|h|..] == xs;
  }

  // ----- the output string -----

  function Percent(i: nat, n: nat): (r: nat)
    requires i <= n && n > 0
    ensures r <= 100
  {
    PercentBound(i, n);
    i * 100 / n
  }

  lemma PercentBound(i: nat, n: nat)
    requires i <= n && n > 0
    ensures i * 100 / n <= 100
  {
    var q := i * 100 / n;
    assert n * q + i * 100 % n == i * 100;
    if q >= 101 { Scale(n, 101, q); }
  }

  /** Line `i` of the output: a move to its start, its colour, its row. */
  function Line(s: Style, rows: seq<seq<Byte>>, i: nat): seq<Byte>
    requires |rows| == s.height && |s.gradient| == 101 && 0 < i <= s.height
  {
    (if i > 1 then DOWN_ONE + LeftBy(s.width) else [])
    + (if !s.useGradient then []
       else s.gradient[if s.invert then Percent(i, s.height) else 100 - Percent(i - 1, s.height)])
    + (if s.invert then rows[s.height - i] else rows[i - 1])
  }

  /** The rows joined into one string, each row below the one before. */
  function OutFrom(s: Style, rows: seq<seq<Byte>>, i: nat): seq<Byte>
    requires |rows| == s.height && |s.gradient| == 101 && 0 < i <= s.height + 1
    decreases s.height + 1 - i
  {
    if i == s.height + 1 then [] else Line(s, rows, i) + OutFrom(s, rows, i + 1)
  }

  function Out(s: Style, rows: seq<seq<Byte>>): seq<Byte>
    requires |rows| == s.height && |s.gradient| == 101 && s.height > 0
  {
    (if s.height == 1 then rows[0] else OutFrom(s, rows, 1)) + (if s.useGradient then s.reset else [])
  }

  // ----- the class -----

  function Repeat(b: seq<Byte>, n: nat): seq<Byte> {
    if n == 0 then [] else b + Repeat(b, n - 1)
  }

  function PaddingBytes(s: Style, n: nat): seq<Byte> {
    Repeat(if s.height == 1 then RIGHT_ONE else [32], n)
  }

  lemma {:induction false} RepeatRow(s: Style, n: nat, row: nat)
    requires s.Valid()
    ensures RowBytes(s, seq(n, _ => Blank), row) == PaddingBytes(s, n)
  {
    if n > 0 {
      assert seq(n, _ => Blank)[1..] == seq(n - 1, _ => Blank);
      RepeatRow(s, n - 1, row);
    }
  }

  lemma PaddingRows(s: Style, n: nat, fill: seq<Byte>)
    requires s.Valid()
    requires fill == PaddingBytes(s, if (n + 1) / 2 < s.width then s.width - (n + 1) / 2 else 0)
    ensures Rows(s, Padding(s, n)) == seq(s.height, _ => fill)
  {
    forall row | 0 <= row < s.height ensures Rows(s, Padding(s, n))[row] == fill {
      RepeatRow(s, |Padding(s, n)|, row);
      assert Padding(s, n) == seq(|Padding(s, n)|, _ => Blank);
    }
  }

  /** What `_create` does to the glyph lists: reads the samples from `start` on. */
  function Created(s: Style, c: Content, data: seq<int>, start: int): Content
    requires -1 <= start < |data|
  {
    if |data| - start > 1 then
      Populate(s, if start > 0 then c.(last := s.Scaled(data[start - 1])) else c, data, start, start)
    else
      var value := Value(s, data, start);
      c.Add(Pair(if start < 0 then 0 else c.last, value, false)).(last := value)
  }

  /** Reads sample `i`, one of several or the only one. */
  function ReadOne(s: Style, c: Content, data: seq<int>, i: int, several: bool, first: bool): Content
    requires i < |data|
  {
    var before, value := if i < 0 then 0 else c.last, Value(s, data, i);
    if several then c.(current := !c.current, last := value).Add(Pair(before, value, first))
    else c.(last := before).Add(Pair(before, value, false))
  }

  /** The reading loop has reached sample `i` on its way to `goal`, with `value` read last. */
  predicate Reading(s: Style, c: Content, data: seq<int>, start: int, i: int, value: int, goal: Content) {
    && -1 <= start <= i <= |data| && start < |data|
    && if |data| - start > 1 then Populate(s, c, data, start, i) == goal && (i > start ==> c.last == value)
       else if i == start then goal == Created(s, c, data, start)
       else goal == c.(last := value)
  }

  lemma ReadingStarts(s: Style, c: Content, data: seq<int>, start: int)
    requires -1 <= start < |data|
    ensures var c' := if |data| - start > 1 && start > 0 then c.(last := s.Scaled(data[start - 1])) else c;
      Reading(s, c', data, start, start, 0, Created(s, c, data, start))
  {
  }

  lemma ReadingGoesOn(s: Style, c: Content, data: seq<int>, start: int, i: int, value: int, goal: Content)
    requires Reading(s, c, data, start, i, value, goal) && i < |data|
    ensures var several := |data| - start > 1;
      Reading(s, ReadOne(s, c, data, i, several, several && i == start), data, start, i + 1, Value(s, data, i), goal)
  {
  }

  lemma ReadingEnds(s: Style, c: Content, data: seq<int>, start: int, value: int, goal: Content)
    requires Reading(s, c, data, start, |data|, value, goal)
    ensures goal == c.(last := value)
  {
  }

  /** Appends a column to the rows of one set. */
  method AppendColumn(s: Style, rows: seq<seq<Byte>>, ghost gs: seq<Glyph>, g: Glyph) returns (r: seq<seq<Byte>>)
    requires s.Valid() && rows == Rows(s, gs)
    ensures r == Rows(s, gs + [g])
  {
    r := rows;
    for row := 0 to s.height
      invariant |r| == s.height
      invariant forall i :: 0 <= i < s.height ==> r[i] == if i < row then RowBytes(s, gs + [g], i) else rows[i]
    {
      RowAppend(s, gs, g, row);
      r := r[row := r[row] + GlyphBytes(s, g, row)];
    }
  }

  /** Drops the leftmost column of one set, byte by byte. */
  method DropColumn(s: Style, rows: seq<seq<Byte>>, ghost gs: seq<Glyph>) returns (r: seq<seq<Byte>>)
    requires s.Valid() && rows == Rows(s, gs) && gs != []
    ensures r == Rows(s, gs[1..])
  {
    r := rows;
    for row := 0 to s.height
      invariant |r| == s.height
      invariant forall i :: 0 <= i < s.height ==> r[i] == if i < row then RowBytes(s, gs[1..], i) else rows[i]
    {
      DropsOneGlyph(s, gs[0], RowBytes(s, gs[1..], row), row);
      r := r[row := Dropped(s, r[row])];
    }
  }

  method PrintLine(s: Style, rows: seq<seq<Byte>>, i: nat, before: seq<Byte>) returns (out: seq<Byte>)
    requires |rows| == s.height && |s.gradient| == 101 && 0 < i <= s.height
    ensures out == before + Line(s, rows, i)
  {
    out := before;
    if i > 1 { out := out + (DOWN_ONE + LeftBy(s.width)); }
    if s.useGradient {
      out := out + s.gradient[if s.invert then Percent(i, s.height) else 100 - Percent(i - 1, s.height)];
    }
    out := out + if s.invert then rows[s.height - i] else rows[i - 1];
  }

  lemma OutStep(s: Style, rows: seq<seq<Byte>>, i: nat, before: seq<Byte>)
    requires |rows| == s.height && |s.gradient| == 101 && 0 < i <= s.height
    ensures before + Line(s, rows, i) + OutFrom(s, rows, i + 1) == before + OutFrom(s, rows, i)
  {
    Regroup(before, Line(s, rows, i), OutFrom(s, rows, i + 1));
  }

  method PrintLines(s: Style, rows: seq<seq<Byte>>) returns (out: seq<Byte>)
    requires |rows| == s.height && |s.gradient| == 101 && s.height > 0
    ensures out == OutFrom(s, rows, 1)
  {
    out := [];
    for i := 1 to s.height + 1
      invariant out + OutFrom(s, rows, i) == OutFrom(s, rows, 1)
    {
      OutStep(s, rows, i, out);
      out := PrintLine(s, rows, i, out);
    }
  }

  /** Joins the rows of a set. */
  method Print(s: Style, rows: seq<seq<Byte>>) returns (out: seq<Byte>)
    requires |rows| == s.height && |s.gradient| == 101 && s.height > 0
    ensures out == Out(s, rows)
  {
    if s.height == 1 {
      out := rows[0];
    } else {
      out := PrintLines(s, rows);
    }
    if s.useGradient { out := out + s.reset; }
  }

  lemma FreshIsCreated(s: Style, data: seq<int>)
    requires s.width > 0 && data != []
    ensures -1 <= StartOffset(s, |data|) < |data| - 1
    ensures var pad := Padding(s, |data|);
      FreshContent(s, data) == Created(s, Content(pad, pad, true, 0), data, StartOffset(s, |data|))
  {
    StartInRange(s, |data|);
    PaddingFits(s, |data|);
  }

  lemma OutNonEmpty(s: Style, gs: seq<Glyph>)
    requires s.Valid() && gs != []
    ensures Out(s, Rows(s, gs)) != []
  {
    var rows := Rows(s, gs);
    forall row | 0 <= row < s.height ensures rows[row] != [] {
      DropsOneGlyph(s, gs[0], [], row);
      assert GlyphBytes(s, gs[0], row) + [] == GlyphBytes(s, gs[0], row);
    }
    if s.height > 1 {
      assert OutFrom(s, rows, 1) == Line(s, rows, 1) + OutFrom(s, rows, 2);
    }
  }

  lemma StartFacts(s: Style, data: seq<int>)
    requires s.Valid() && data != []
    ensures -1 <= StartOffset(s, |data|) < |data| - 1
    ensures var pad, c := Padding(s, |data|), FreshContent(s, data);
      && c == Created(s, Content(pad, pad, true, 0), data, StartOffset(s, |data|))
      && |c.even| == |c.odd| == s.width && Out(s, Rows(s, c.Shown())) != []
  {
    FreshIsCreated(s, data);
    FreshShows(s, data);
    OutNonEmpty(s, FreshContent(s, data).Shown());
  }

  lemma FedOne(s: Style, c: Content, newest: int, blank: bool, x: int)
    requires s.width > 0 && |c.even| == |c.odd| == s.width
    ensures Fed(s, c, newest, blank, [x]) == if x == newest && !blank then c else Updated(s, c, x)
  {
    assert [x][1..] == [];
  }

  class Graph {
    const style: Style
    var even: seq<seq<Byte>>
    var odd: seq<seq<Byte>>
    var current: bool
    var last: int
    var newest: int
    var out: seq<Byte>
    ghost var evenGlyphs: seq<Glyph>
    ghost var oddGlyphs: seq<Glyph>

    ghost function Model(): Content
      reads this
    {
      Content(evenGlyphs, oddGlyphs, current, last)
    }

    /** Both row sets are the bytes of their glyphs. */
    ghost predicate Backed()
      reads this
    {
      style.Valid() && even == Rows(style, evenGlyphs) && odd == Rows(style, oddGlyphs)
    }

    ghost predicate Valid()
      reads this
    {
      && Backed() && |evenGlyphs| == |oddGlyphs| == style.width
      && (out == [] || out == Out(style, Rows(style, Model().Shown())))
    }

    /** Pads both sets, then reads the newest samples that fit. */
    constructor (style: Style, data: seq<int>)
      requires style.Valid()
      ensures Valid() && this.style == style && Model() == FreshContent(style, data)
      ensures newest == Newest(data) && (out == [] <==> data == [])
    {
      this.style := style;
      var n := |data|;
      var valueWidth := (n + 1) / 2;
      var fill := PaddingBytes(style, if valueWidth < style.width then style.width - valueWidth else 0);
      even, odd := seq(style.height, _ => fill), seq(style.height, _ => fill);
      current, last, newest, out := true, 0, LLONG_MIN, [];
      evenGlyphs, oddGlyphs := Padding(style, n), Padding(style, n);
      new;
      PaddingRows(style, n, fill);
      FreshShows(style, data);
      if n > 0 {
        Start(data);
      }
    }

    method Start(data: seq<int>)
      requires data != [] && Backed() && Model() == Content(Padding(style, |data|), Padding(style, |data|), true, 0)
      modifies this
      ensures Backed() && Model() == FreshContent(style, data) && newest == Newest(data)
      ensures out == Out(style, Rows(style, Model().Shown())) && out != []
    {
      StartFacts(style, data);
      Create(data, StartOffset(style, |data|));
      newest := data[|data| - 1];
    }

    /** Appends a column to every row of the current set. */
    method Append(g: Glyph)
      requires Backed()
      modifies `even, `odd, `evenGlyphs, `oddGlyphs
      ensures Backed() && Model() == old(Model()).Add(g)
    {
      if current {
        odd := AppendColumn(style, odd, oddGlyphs, g);
        oddGlyphs := oddGlyphs + [g];
      } else {
        even := AppendColumn(style, even, evenGlyphs, g);
        evenGlyphs := evenGlyphs + [g];
      }
    }

    /** Makes the other set current and drops its leftmost column. */
    method Turn()
      requires Backed() && Model().Hidden() != []
      modifies `even, `odd, `evenGlyphs, `oddGlyphs, `current
      ensures Backed() && Model() == old(Model()).Turned()
    {
      current := !current;
      if current {
        odd := DropColumn(style, odd, oddGlyphs);
        oddGlyphs := oddGlyphs[1..];
      } else {
        even := DropColumn(style, even, evenGlyphs);
        evenGlyphs := evenGlyphs[1..];
      }
    }

    /** One turn of the reading loop. */
    method Read(data: seq<int>, i: int, several: bool, first: bool) returns (dataValue: int)
      requires Backed() && -1 <= i < |data| && (first ==> several)
      modifies `even, `odd, `evenGlyphs, `oddGlyphs, `current, `last
      ensures Backed() && Model() == ReadOne(style, old(Model()), data, i, several, first)
      ensures dataValue == Value(style, data, i)
    {
      if several { current := !current; }
      if i < 0 {
        dataValue := 0;
        last := 0;
      } else {
        dataValue := style.Scaled(data[i]);
      }
      Append(Pair(last, dataValue, first));
      if several && i >= 0 { last := dataValue; }
    }

    /** Reads the samples from `start` on and prints the current set. */
    method Create(data: seq<int>, start: int)
      requires Backed() && -1 <= start < |data|
      modifies `even, `odd, `evenGlyphs, `oddGlyphs, `current, `last, `out
      ensures Backed() && Model() == Created(style, old(Model()), data, start)
      ensures out == Out(style, Rows(style, Model().Shown()))
    {
      var mult := |data| - start > 1;
      ghost var goal := Created(style, Model(), data, start);
      ReadingStarts(style, Model(), data, start);
      if mult && start > 0 {
        last := style.Scaled(data[start - 1]);
      }
      var dataValue := 0;
      var i := start;
      while i < |data|
        invariant Backed() && Reading(style, Model(), data, start, i, dataValue, goal)
      {
        ReadingGoesOn(style, Model(), data, start, i, dataValue, goal);
        dataValue := Read(data, i, mult, mult && i == start);
        i := i + 1;
      }
      ReadingEnds(style, Model(), data, start, dataValue, goal);
      last := dataValue;
      out := Print(style, if current then odd else even);
    }

    /** One call of `operator()` with the samples collected so far, the newest at the back. */
    method Update(data: seq<int>, dataSame: bool) returns (shown: seq<Byte>)
      requires Valid()
      modifies this
      ensures Valid() && shown == out
      ensures dataSame || (data != [] && Newest(data) == old(newest) && old(out) != []) ==>
        Model() == old(Model()) && out == old(out) && newest == old(newest)
      ensures !dataSame && data != [] && !(Newest(data) == old(newest) && old(out) != []) ==>
        newest == Newest(data) && out == Out(style, Rows(style, Model().Shown()))
      ensures !dataSame && data != [] ==>
        Model() == Fed(style, old(Model()), old(newest), old(out) == [], [Newest(data)])
      ensures !dataSame && data == [] ==>
        Model() == old(Model()).Turned().Add(Pair(0, 0, false)).(last := 0) && newest == old(newest)
    {
      FedOne(style, Model(), newest, out == [], Newest(data));
      if dataSame {
        return out;
      }
      if data != [] {
        if data[|data| - 1] == newest && out != [] {
          return out;
        }
        newest := data[|data| - 1];
      }
      Turn();
      Create(data, |data| - 1);
      return out;
    }
  }
}
