/** What a graph's columns say about the samples: which sample stands where, its percentage, how high it is drawn. */
module GraphValues {
  import opened Arithmetic
  import opened Bytes
  import opened Graphs

  // ----- percentages -----

  /** `v` is what a sample shows: itself without a maximum, otherwise its share of the maximum, rounded down. */
  ghost predicate Shows(s: Style, x: int, v: int) {
    if s.maxValue <= 0 then v == x
    else if x + s.offset < 0 then v == 0
    else if x + s.offset > s.maxValue then v == 100
    else s.maxValue * v <= 100 * (x + s.offset) < s.maxValue * (v + 1)
  }

  lemma QuotientRounds(a: int, b: int)
    requires a >= 0 && b > 0
    ensures b * Quotient(a, b) <= a < b * (Quotient(a, b) + 1)
  {
  }

  lemma QuotientBounded(a: int, b: int)
    requires b > 0
    ensures a < 0 ==> Quotient(a, b) <= 0
    ensures a >= 100 * b ==> Quotient(a, b) >= 100
    ensures 0 <= a <= 100 * b ==> 0 <= Quotient(a, b) <= 100
  {
    if a >= 0 {
      QuotientRounds(a, b);
      if Quotient(a, b) < 100 { Scale(b, Quotient(a, b) + 1, 100); }
      if Quotient(a, b) > 100 { Scale(b, 101, Quotient(a, b)); }
    }
  }

  lemma ScaledShows(s: Style, x: int)
    ensures Shows(s, x, s.Scaled(x))
  {
    if s.maxValue > 0 {
      QuotientBounded((x + s.offset) * 100, s.maxValue);
      if x + s.offset >= 0 { QuotientRounds((x + s.offset) * 100, s.maxValue); }
    }
  }

  lemma QuotientGrows(a: int, b: int, m: int)
    requires a <= b && m > 0
    ensures Quotient(a, m) <= Quotient(b, m)
  {
    if a >= 0 {
      DivisionGrows(a, b, m);
    } else if b < 0 {
      DivisionGrows(-b, -a, m);
    } else {
      DivisionGrows(0, -a, m);
      DivisionGrows(0, b, m);
    }
  }

  lemma DivisionGrows(a: nat, b: nat, m: int)
    requires a <= b && m > 0
    ensures a / m <= b / m && 0 / m == 0
  {
    assert a == m * (a / m) + a % m && b == m * (b / m) + b % m;
    if b / m < a / m { Scale(m, b / m + 1, a / m); }
  }

  /** A higher sample never shows less. */
  lemma ScaledGrows(s: Style, x: int, y: int)
    requires x <= y
    ensures s.Scaled(x) <= s.Scaled(y)
  {
    if s.maxValue > 0 { QuotientGrows((x + s.offset) * 100, (y + s.offset) * 100, s.maxValue); }
  }

  // ----- which sample stands where -----

  /** A column shows sample `i` of the history and the one before it; before the first sample there is nothing. */
  ghost predicate ShowsSample(s: Style, h: seq<int>, i: int, g: Glyph)
    requires i < |h|
  {
    if i < 0 then g == Blank
    else
      && g.Pair? && !g.first && Shows(s, h[i], g.value)
      && if i == 0 then g.before == 0 else Shows(s, h[i - 1], g.before)
  }

  /** Counted from the right, column `k` of the display shows the samples `2 k` and `2 k + 1` before the newest one. */
  lemma DisplayShows(s: Style, h: seq<int>, k: nat)
    requires k < s.width
    ensures ShowsSample(s, h, |h| - 1 - 2 * k, Display(s, h)[s.width - 1 - k])
  {
    var i := |h| - 1 - 2 * k;
    assert Display(s, h)[s.width - 1 - k] == At(s, h, i);
    if i >= 0 { ScaledShows(s, h[i]); }
    if i > 0 { ScaledShows(s, h[i - 1]); }
  }

  /** So does every column of a new graph. */
  lemma FreshShowsSamples(s: Style, h: seq<int>, k: nat)
    requires k < s.width
    ensures |FreshContent(s, h).Shown()| == s.width
    ensures ShowsSample(s, h, |h| - 1 - 2 * k, FreshContent(s, h).Shown()[s.width - 1 - k])
  {
    FreshShows(s, h);
    DisplayShows(s, h, k);
  }

  function LastColumn(c: Content): Glyph
    requires c.Shown() != []
  {
    c.Shown()[|c.Shown()| - 1]
  }

  /** An update's newest column shows the new sample next to the value remembered. */
  lemma UpdateShows(s: Style, c: Content, x: int)
    requires c.Hidden() != []
    ensures var r := Updated(s, c, x);
      && r.Shown() != [] && LastColumn(r).Pair? && LastColumn(r).before == c.last
      && Shows(s, x, LastColumn(r).value) && r.last == LastColumn(r).value
  {
    ScaledShows(s, x);
    UpdatedSets(s, c, x);
  }

  /** The newest column and the value remembered are those of the newest sample. */
  ghost predicate NewestRead(s: Style, c: Content, data: seq<int>, i: int)
    requires i <= |data|
  {
    && c.Shown() != [] && LastColumn(c).Pair? && LastColumn(c).value == c.last
    && if i <= 0 then c.last == 0 else Shows(s, data[i - 1], c.last)
  }

  lemma {:induction false} PopulateReads(s: Style, c: Content, data: seq<int>, start: int, i: int)
    requires -1 <= start <= i <= |data| && (i == |data| ==> NewestRead(s, c, data, i))
    ensures NewestRead(s, Populate(s, c, data, start, i), data, |data|)
    decreases |data| - i
  {
    if i == |data| {
    } else {
      var value := Value(s, data, i);
      var turned := c.(current := !c.current, last := value);
      var next := turned.Add(Pair(if i < 0 then 0 else c.last, value, i == start));
      if i >= 0 { ScaledShows(s, data[i]); }
      assert LastColumn(next) == Pair(if i < 0 then 0 else c.last, value, i == start);
      PopulateReads(s, next, data, start, i + 1);
    }
  }

  /** Whatever `_create` reads, its last column shows the newest sample, or zero if there is none. */
  lemma CreatedShows(s: Style, c: Content, data: seq<int>, start: int)
    requires -1 <= start < |data|
    ensures NewestRead(s, Created(s, c, data, start), data, |data|)
  {
    if |data| - start > 1 {
      PopulateReads(s, if start > 0 then c.(last := s.Scaled(data[start - 1])) else c, data, start, start);
    } else {
      if start >= 0 { ScaledShows(s, data[start]); }
      var value := Value(s, data, start);
      assert c.Add(Pair(if start < 0 then 0 else c.last, value, false)).Shown()
          == c.Shown() + [Pair(if start < 0 then 0 else c.last, value, false)];
    }
  }

  // ----- how high a sample is drawn -----

  /** Higher values reach higher levels. */
  ghost predicate Rising(s: Style) {
    forall v: int, w: int, row: nat, least: nat ::
      v <= w && least <= 4 ==> s.level(v, row, least) <= s.level(w, row, least)
  }

  /** These bytes draw a left half up to `left` and a right half up to `right`. */
  ghost predicate Draws(s: Style, b: seq<Byte>, left: nat, right: nat)
    requires s.Valid()
  {
    && left <= 4 && right <= 4
    && if s.height == 1 && left + right == 0 then b == RIGHT_ONE
       else
         var symbol := s.symbols[left * 5 + right];
         |b| >= |symbol| && b[|b| - |symbol|..] == symbol
  }

  lemma GlyphDraws(s: Style, g: Glyph, row: nat)
    requires s.Valid() && g.Pair? && !g.first && row < s.height
    ensures Draws(s, GlyphBytes(s, g, row), s.level(g.before, row, s.Least(row)), s.level(g.value, row, s.Least(row)))
  {
  }

  /** Of two columns the one with the higher sample is never drawn lower, each sample in its own half. */
  lemma ColumnsRise(s: Style, a: Glyph, b: Glyph, row: nat) returns (al: nat, ar: nat, bl: nat, br: nat)
    requires s.Valid() && Rising(s) && row < s.height && a.Pair? && b.Pair? && !a.first && !b.first
    ensures Draws(s, GlyphBytes(s, a, row), al, ar) && Draws(s, GlyphBytes(s, b, row), bl, br)
    ensures (a.before <= b.before ==> al <= bl) && (a.value <= b.value ==> ar <= br)
  {
    GlyphDraws(s, a, row);
    GlyphDraws(s, b, row);
    al, ar := s.level(a.before, row, s.Least(row)), s.level(a.value, row, s.Least(row));
    bl, br := s.level(b.before, row, s.Least(row)), s.level(b.value, row, s.Least(row));
  }

  /** In the newest column of an update, a higher sample is drawn at least as high in every row. */
  lemma HigherIsNoLower(s: Style, c: Content, x: int, y: int, row: nat) returns (lower: nat, higher: nat, left: nat)
    requires s.Valid() && Rising(s) && row < s.height && c.Hidden() != [] && x <= y
    ensures Updated(s, c, x).Shown() != [] && Updated(s, c, y).Shown() != []
    ensures Draws(s, GlyphBytes(s, LastColumn(Updated(s, c, x)), row), left, lower)
    ensures Draws(s, GlyphBytes(s, LastColumn(Updated(s, c, y)), row), left, higher)
    ensures lower <= higher
  {
    UpdatedSets(s, c, x);
    UpdatedSets(s, c, y);
    ScaledGrows(s, x, y);
    GlyphDraws(s, LastColumn(Updated(s, c, x)), row);
    GlyphDraws(s, LastColumn(Updated(s, c, y)), row);
    left := s.level(c.last, row, s.Least(row));
    lower, higher := s.level(s.Scaled(x), row, s.Least(row)), s.level(s.Scaled(y), row, s.Least(row));
  }

  /** In a graph of one row with colours, a column has the colour of the higher of its two percentages. */
  lemma ColumnColour(s: Style, g: Glyph)
    requires s.Valid() && s.height == 1 && s.useGradient && g.Pair? && 0 <= g.before <= 100 && 0 <= g.value <= 100
    ensures var b, p := GlyphBytes(s, g, 0), if g.before <= g.value then g.value else g.before;
      b == RIGHT_ONE || (|b| >= |s.gradient[p]| && b[..|s.gradient[p]|] == s.gradient[p])
  {
  }
}
