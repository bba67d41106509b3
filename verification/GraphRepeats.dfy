/**
 Repeated samples: an update whose newest value repeats is skipped, which leaves that sample out of the graph.
 Here the picture that is kept is compared with a graph built from the whole history.
 */
module GraphRepeats {
  import opened Bytes
  import opened Graphs

  // ----- equal rows come from equal glyphs -----

  /** Rows that print the same start with glyphs that do, and go on with rows that do. */
  lemma SameStart(s: Style, a: seq<Glyph>, b: seq<Glyph>, row: nat)
    requires s.Valid() && row < s.height && a != [] && b != [] && RowBytes(s, a, row) == RowBytes(s, b, row)
    ensures RowBytes(s, a[1..], row) == RowBytes(s, b[1..], row)
    ensures GlyphBytes(s, a[0], row) == GlyphBytes(s, b[0], row)
  {
    DropsOneGlyph(s, a[0], RowBytes(s, a[1..], row), row);
    DropsOneGlyph(s, b[0], RowBytes(s, b[1..], row), row);
    SameFront(GlyphBytes(s, a[0], row), GlyphBytes(s, b[0], row), RowBytes(s, a[1..], row));
  }

  lemma {:induction false} SameBytes(s: Style, a: seq<Glyph>, b: seq<Glyph>, row: nat, j: nat)
    requires s.Valid() && row < s.height && j < |a| == |b| && RowBytes(s, a, row) == RowBytes(s, b, row)
    ensures GlyphBytes(s, a[j], row) == GlyphBytes(s, b[j], row)
    decreases j
  {
    SameStart(s, a, b, row);
    if j > 0 {
      SameBytes(s, a[1..], b[1..], row, j - 1);
      assert a[1..][j - 1] == a[j] && b[1..][j - 1] == b[j];
    }
  }

  lemma SameFront(a: seq<Byte>, b: seq<Byte>, back: seq<Byte>)
    requires a + back == b + back
    ensures a == b
  {
    assert (a + back)[..|a|] == a && (b + back)[..|b|] == b;
  }

  /** Two displays print the same rows exactly when they agree glyph by glyph. */
  lemma RowsAgreeIff(s: Style, a: seq<Glyph>, b: seq<Glyph>)
    requires s.Valid() && |a| == |b| == s.width
    ensures Rows(s, a) == Rows(s, b) <==> SameFrom(s, a, b, 0)
  {
    if SameFrom(s, a, b, 0) {
      forall row | 0 <= row < s.height ensures Rows(s, a)[row] == Rows(s, b)[row] { SameRows(s, a, b, row); }
    }
    if Rows(s, a) == Rows(s, b) {
      forall j, row | 0 <= j < s.width && 0 <= row < s.height
        ensures GlyphBytes(s, a[j], row) == GlyphBytes(s, b[j], row)
      {
        assert Rows(s, a)[row] == Rows(s, b)[row];
        SameBytes(s, a, b, row, j);
      }
    }
  }

  // ----- when the kept picture is right -----

  /** The graph shows what a graph built from the whole history shows, repeated samples included. */
  ghost predicate ShowsWholeHistory(s: Style, h: seq<int>, xs: seq<int>)
    requires s.Valid()
  {
    Rows(s, Incremental(s, h, xs).Shown()) == Rows(s, FreshContent(s, h + xs).Shown())
  }

  /**
   In every run of updates, the graph shows the whole history exactly when the newest samples drawn look like
   the newest samples, column by column.
   */
  lemma WholeHistoryIff(s: Style, h: seq<int>, xs: seq<int>)
    requires s.Valid() && LongEnough(s, h)
    ensures ShowsWholeHistory(s, h, xs) <==> SameFrom(s, Display(s, Drawn(h, xs)), Display(s, h + xs), 0)
  {
    IncrementalIsFresh(s, h, xs);
    FreshShows(s, Drawn(h, xs));
    FreshShows(s, h + xs);
    RowsAgreeIff(s, Display(s, Drawn(h, xs)), Display(s, h + xs));
  }

  lemma SkippedChangesNothing(s: Style, h: seq<int>, x: int)
    requires s.width > 0 && h != [] && x == Newest(h)
    ensures Drawn(h, [x]) == h && Incremental(s, h, [x]) == FreshContent(s, h)
  {
    assert [x][1..] == [];
    assert Accepted(Newest(h), false, [x]) == [];
    FreshShows(s, h);
    FedOne(s, FreshContent(s, h), Newest(h), false, x);
  }

  /** A skipped update leaves the right picture exactly when moving every column on by one sample changes nothing. */
  lemma SkippedIsRightIff(s: Style, h: seq<int>, x: int)
    requires s.Valid() && LongEnough(s, h) && h != [] && x == Newest(h)
    ensures ShowsWholeHistory(s, h, [x]) <==> SameFrom(s, Display(s, h), Display(s, h + [x]), 0)
  {
    SkippedChangesNothing(s, h, x);
    WholeHistoryIff(s, h, [x]);
  }

  /** When no sample repeats, the whole history is shown. */
  lemma DistinctRunsAreRight(s: Style, h: seq<int>, xs: seq<int>)
    requires s.Valid() && LongEnough(s, h) && NeverRepeats(Newest(h), h == [], xs)
    ensures ShowsWholeHistory(s, h, xs)
  {
    DistinctHistoryIsDrawn(h, xs);
    IncrementalIsFresh(s, h, xs);
  }

  // ----- a history on which it is wrong -----

  /** One column, one row, and a symbol of its own for every pair of levels. */
  function Small(): Style {
    Style(
      1, 1, false, false, false, 0, 0,
      seq(25, (k: nat) requires k < 25 => if k == 0 then [32] else [226, 160, k]),
      seq(101, (_: nat) => [ESC, OPEN, 51, 49, SGR]),
      [],
      (v: int, _: nat, least: nat) => if v <= 0 then least else 4)
  }

  lemma SmallIsValid()
    ensures Small().Valid()
  {
  }

  lemma SmallDisplays()
    ensures var s := Small();
      && s.Valid() && Display(s, [0, 1]) == [Pair(0, 1, false)] && Display(s, [0, 1] + [1]) == [Pair(1, 1, false)]
      && GlyphBytes(s, Pair(0, 1, false), 0) == [226, 160, 4] && GlyphBytes(s, Pair(1, 1, false), 0) == [226, 160, 24]
  {
    SmallIsValid();
  }

  /** After 0 and 1, a second 1 is skipped: the graph goes on showing the rise, where a new one shows a full column. */
  lemma SkippedIsWrong()
    ensures Small().Valid() && LongEnough(Small(), [0, 1]) && Newest([0, 1]) == 1
    ensures !ShowsWholeHistory(Small(), [0, 1], [1])
  {
    var s := Small();
    SmallDisplays();
    SkippedIsRightIff(s, [0, 1], 1);
    assert !SameGlyph(s, Display(s, [0, 1])[0], Display(s, [0, 1] + [1])[0]);
  }
}
