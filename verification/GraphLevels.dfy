/** How high a value is drawn in a row, in real arithmetic, and that this is what the graph asks of its levels. */
module GraphLevels {
  import opened Graphs
  import opened GraphValues

  /** `std::round` of a number that is not negative. */
  function Round(x: real): int {
    (x + 0.5).Floor
  }

  /** The least value that fills row `row` from the top, and the one at or below which it is empty. */
  function High(height: nat, row: nat): int
    requires row < height
  {
    if height > 1 then Round(100.0 * (height - row) as real / height as real) else 100
  }

  function Low(height: nat, row: nat): int
    requires row < height
  {
    if height > 1 then Round(100.0 * (height - (row + 1)) as real / height as real) else 0
  }

  /** The share of a row that a value between its bounds fills, in quarters. */
  function Quarters(height: nat, v: int, low: int, high: int): int
    requires low < high
  {
    Round((v - low) as real * 4.0 / (high - low) as real + if height == 1 then 0.3 else 0.1)
  }

  /** The level of `v` in a row; rows beyond the graph are empty. */
  function Level(height: nat, v: int, row: nat, least: nat): (k: nat)
    ensures least <= 4 ==> least <= k <= 4
  {
    if row >= height || least > 4 then least
    else if v >= High(height, row) then 4
    else if v <= Low(height, row) then least
    else Clamp(Quarters(height, v, Low(height, row), High(height, row)), least, 4)
  }

  // ----- rounding -----

  lemma RoundGrows(x: real, y: real)
    requires x <= y
    ensures Round(x) <= Round(y)
  {
  }

  lemma ShareGrows(a: real, b: real, d: real)
    requires a <= b && d > 0.0
    ensures a / d <= b / d
  {
    assert b / d - a / d == (b - a) / d;
  }

  lemma BoundsGrow(height: nat, a: nat, b: nat)
    requires a <= b && height > 0
    ensures Round(100.0 * a as real / height as real) <= Round(100.0 * b as real / height as real)
  {
    ShareGrows(100.0 * a as real, 100.0 * b as real, height as real);
    RoundGrows(100.0 * a as real / height as real, 100.0 * b as real / height as real);
  }

  lemma WholeShare(height: nat)
    requires height > 0
    ensures Round(100.0 * 0 as real / height as real) == 0
    ensures Round(100.0 * height as real / height as real) == 100
  {
    assert 100.0 * height as real / height as real == 100.0;
  }

  /** Higher rows have higher bounds, between 0 and 100, and a row starts where the next one ends. */
  lemma Bounds(height: nat, row: nat)
    requires row < height
    ensures 0 <= Low(height, row) <= High(height, row) <= 100
    ensures row + 1 < height ==> High(height, row + 1) == Low(height, row)
    ensures row == 0 ==> High(height, row) == 100
    ensures row + 1 == height ==> Low(height, row) == 0
  {
    if height > 1 {
      WholeShare(height);
      BoundsGrow(height, 0, height - (row + 1));
      BoundsGrow(height, height - (row + 1), height - row);
      BoundsGrow(height, height - row, height);
    }
  }

  lemma {:induction false} BoundsFall(height: nat, a: nat, b: nat)
    requires a <= b < height
    ensures High(height, b) <= High(height, a) && Low(height, b) <= Low(height, a)
  {
    if height > 1 {
      BoundsGrow(height, height - b, height - a);
      BoundsGrow(height, height - (b + 1), height - (a + 1));
    }
  }

  lemma QuartersGrow(height: nat, v: int, w: int, low: int, high: int)
    requires low < high && v <= w
    ensures Quarters(height, v, low, high) <= Quarters(height, w, low, high)
  {
    var d, m := (high - low) as real, if height == 1 then 0.3 else 0.1;
    ShareGrows((v - low) as real * 4.0, (w - low) as real * 4.0, d);
    RoundGrows((v - low) as real * 4.0 / d + m, (w - low) as real * 4.0 / d + m);
  }

  // ----- what the levels are like -----

  lemma LevelInside(height: nat, v: int, row: nat, least: nat)
    requires row < height && least <= 4 && Low(height, row) < v < High(height, row)
    ensures Level(height, v, row, least) == Clamp(Quarters(height, v, Low(height, row), High(height, row)), least, 4)
  {
  }

  lemma LevelOutside(height: nat, v: int, row: nat, least: nat)
    requires row < height && least <= 4
    ensures v >= High(height, row) ==> Level(height, v, row, least) == 4
    ensures v <= Low(height, row) && v < High(height, row) ==> Level(height, v, row, least) == least
  {
  }

  lemma ClampGrows(x: int, y: int, least: nat)
    requires x <= y && least <= 4
    ensures Clamp(x, least, 4) <= Clamp(y, least, 4)
  {
  }

  /** A higher value reaches at least the same level. */
  lemma LevelGrows(height: nat, v: int, w: int, row: nat, least: nat)
    requires v <= w && least <= 4
    ensures Level(height, v, row, least) <= Level(height, w, row, least)
  {
    if row < height {
      var low, high := Low(height, row), High(height, row);
      LevelOutside(height, v, row, least);
      LevelOutside(height, w, row, least);
      if low < v && w < high {
        LevelInside(height, v, row, least);
        LevelInside(height, w, row, least);
        QuartersGrow(height, v, w, low, high);
        ClampGrows(Quarters(height, v, low, high), Quarters(height, w, low, high), least);
      }
    }
  }

  /** A column has no gaps: below a row it reaches into, every row is full. */
  lemma ColumnIsSolid(height: nat, v: int, row: nat, below: nat, least: nat)
    requires row < below < height && least <= 4 && Level(height, v, row, least) > least
    ensures Level(height, v, below, least) == 4
  {
    Bounds(height, row);
    BoundsFall(height, row + 1, below);
  }

  /** The full percentage fills every row. */
  lemma HundredIsFull(height: nat, row: nat, least: nat)
    requires row < height && least <= 4
    ensures Level(height, 100, row, least) == 4
  {
    Bounds(height, row);
  }

  /** The bottom row's upper bound is at least 1 up to a height of 200. */
  lemma BottomBound(height: nat)
    requires height > 0
    ensures High(height, height - 1) >= 1 <==> height <= 200
  {
    if height > 1 {
      HalfShare(100.0 * 1 as real, height as real);
    }
  }

  lemma HalfShare(a: real, h: real)
    requires h > 0.0
    ensures a / h >= 0.5 <==> 2.0 * a >= h
  {
    assert (a / h - 0.5) * h == a - 0.5 * h;
    SignOfProduct(a / h - 0.5, h);
  }

  lemma SignOfProduct(x: real, h: real)
    requires h > 0.0
    ensures x * h >= 0.0 <==> x >= 0.0
  {
  }

  /** Zero is drawn as low as a row allows, in every row, exactly for graphs of at most 200 rows. */
  lemma ZeroIsEmptyIff(height: nat)
    requires height > 0
    ensures (forall row: nat, least: nat :: row < height && least <= 4 ==> Level(height, 0, row, least) == least)
       <==> height <= 200
  {
    BottomBound(height);
    if height <= 200 {
      forall row: nat, least: nat | row < height && least <= 4 ensures Level(height, 0, row, least) == least {
        Bounds(height, row);
        BoundsFall(height, row, height - 1);
      }
    } else {
      assert Level(height, 0, height - 1, 0) == 4;
    }
  }

  /** The style with these levels. */
  function Levelled(s: Style): Style {
    s.(level := (v: int, row: nat, least: nat) => Level(s.height, v, row, least))
  }

  /** Everything the graph asks of its levels holds of these, up to a height of 200, and higher values reach higher. */
  lemma LevelsAreValid(s: Style)
    requires s.Valid() && s.height <= 200
    ensures Levelled(s).Valid() && Rising(Levelled(s))
  {
    var r := Levelled(s);
    ZeroIsEmptyIff(s.height);
    forall v: int, row: nat, least: nat | least <= 4 ensures least <= r.level(v, row, least) <= 4 {
      assert r.level(v, row, least) == Level(s.height, v, row, least);
    }
    forall row: nat, least: nat | least <= 4 ensures r.level(0, row, least) == least {
      assert r.level(0, row, least) == Level(s.height, 0, row, least);
    }
    forall v: int, w: int, row: nat, least: nat | v <= w && least <= 4
      ensures r.level(v, row, least) <= r.level(w, row, least)
    {
      LevelGrows(s.height, v, w, row, least);
    }
  }
}
