/** The process list in tree mode: walking, sorting and numbering together, and the final order of the rows. */
module ProcessViews {
  import opened Collections
  import opened ProcTree
  import opened ProcTreeFacts
  import opened ProcAmounts
  import opened ProcFamilies
  import opened ProcRanks
  import opened TreeSorting
  import opened Reordering

  /** The shown rows of a tree, top to bottom. */
  function ShownRows(xs: seq<nat>, ps: seq<Proc>): seq<nat> {
    if xs == [] then []
    else (if xs[0] < |ps| && !ps[xs[0]].filtered then [xs[0]] else []) + ShownRows(xs[1..], ps)
  }

  /** Numbering gives the shown rows consecutive numbers, and counts them. */
  lemma {:induction false} NumberedMeans(ps: seq<Proc>, xs: seq<nat>, from: nat, to: nat)
    requires Numbered(ps, xs, from, to)
    ensures var rows := ShownRows(xs, ps);
      && |rows| == to - from == |xs| - HiddenRows(xs, ps)
      && forall j :: 0 <= j < |rows| ==> rows[j] < |ps| && ps[rows[j]].treeIndex == from + j
    decreases |xs|
  {
    if xs != [] {
      NumberedMeans(ps, xs[1..], if ps[xs[0]].filtered then from else from + 1, to);
    }
  }

  lemma {:induction false} MarksKept(a: seq<Proc>, b: seq<Proc>, xs: seq<nat>, q: Quantity)
    requires |a| == |b| && forall k :: 0 <= k < |a| ==> b[k] == a[k].(treeIndex := b[k].treeIndex)
    ensures HiddenRows(xs, a) == HiddenRows(xs, b) && Shown(xs, a, q) == Shown(xs, b, q)
  {
    if xs != [] { MarksKept(a, b, xs[1..], q); }
  }

  lemma OnceWhenNoRepeats(xs: seq<nat>)
    requires NoRepeats(xs)
    ensures Once(xs)
  {
    forall k: nat ensures multiset(xs)[k] <= 1 { CountOnce(xs, k); }
  }

  /**
   The shown rows add up to all processes but the dropped ones; without an update the amounts stay as they were.
   With aggregation, each process shows the total of what is below it and not severed from it by a dead process.
   */
  ghost predicate AmountsShown(ps: seq<Proc>, rank: seq<nat>, top: nat, now: seq<Proc>, mode: Mode, q: Quantity)
    requires Forest(ps, rank, top) && |now| == |ps|
  {
    if mode.aggregate then
      forall k: nat :: k < |ps| ==>
        Amount(now[k], q) == Sum(Pre(TreeOf(ps, rank, top, k)), Joined(ps, rank, top, k), q)
    else if mode.noUpdate then forall k: nat :: k < |ps| ==> Amount(now[k], q) == Amount(ps[k], q)
    else Shown(Positions(|ps|), now, q) == Sum(Positions(|ps|), Cleared(ps, rank, top), q)
  }

  /**
   What the view promises after walking, sorting and numbering: `ps` is the list before.
   */
  ghost predicate Arranged(ps: seq<Proc>, rank: seq<nat>, top: nat, mode: Mode, now: seq<Proc>, trees: seq<Tree>,
                           shown: nat)
    requires Forest(ps, rank, top)
  {
    && |now| == |ps| && shown <= |ps|
    && multiset(PreAll(trees)) == multiset(Positions(|ps|))
    && (forall k: nat :: k < |ps| ==>
          (now[k].filtered <==> BelowCollapsed(ps, rank, top, k) && (!mode.noUpdate || HasChild(ps, k))))
    && (forall q: Quantity :: AmountsShown(ps, rank, top, now, mode, q))
    && (forall k: nat :: k < |ps| && now[k].filtered ==> now[k].treeIndex == 1)
    && var rows := ShownRows(PreAll(trees), now);
       |rows| == shown == |ps| - HiddenRows(Positions(|ps|), now)
       && forall j :: 0 <= j < shown ==> rows[j] < |ps| && now[rows[j]].treeIndex == j
  }

  lemma HiddenAtOne(ps: seq<Proc>, rank: seq<nat>, top: nat, mode: Mode, mid: seq<Proc>, now: seq<Proc>,
                    order: Order, trees: seq<Tree>, r: seq<Tree>, k: nat)
    requires Forest(ps, rank, top) && RootsWalked(ps, rank, top, mid, trees, mode) && SameShape(mid, ps)
    requires r == SortTrees(mid, order, trees) && OnlyNumbers(mid, now, PreAll(trees))
    requires AllParked(now, r, |ps|) && k in PreAll(r) && k < |ps| && now[k].filtered
    ensures now[k].treeIndex == 1
  {
    var j := PreAllFind(r, k);
    var i := SortedRoot(mid, order, trees, j);
    WalkedNested(trees[i], ps, mid, false, 0, i, mode);
    NestedSorted(mid, order, trees[i]);
    NestedKept(mid, now, r[j]);
    ParkedAtOne(now, r[j], |ps|, k);
  }

  /** Every hidden row is given the number 1, whatever the size of the list. */
  lemma HiddenGetOne(ps: seq<Proc>, rank: seq<nat>, top: nat, mode: Mode, mid: seq<Proc>, now: seq<Proc>,
                     order: Order, trees: seq<Tree>, r: seq<Tree>)
    requires Forest(ps, rank, top) && RootsWalked(ps, rank, top, mid, trees, mode) && SameShape(mid, ps)
    requires r == SortTrees(mid, order, trees) && OnlyNumbers(mid, now, PreAll(trees))
    requires AllParked(now, r, |ps|) && multiset(PreAll(trees)) == multiset(Positions(|ps|))
    ensures forall k: nat :: k < |ps| && now[k].filtered ==> now[k].treeIndex == 1
  {
    SortKeepsRows(mid, order, trees);
    SameMembers(PreAll(r), Positions(|ps|));
    forall k: nat | k < |ps| && now[k].filtered ensures now[k].treeIndex == 1 {
      assert Positions(|ps|)[k] == k;
      HiddenAtOne(ps, rank, top, mode, mid, now, order, trees, r, k);
    }
  }

  /** The hidden rows get the size of the list, as `index_max` is meant, exactly when there are none. */
  lemma SizeOnlyIfNoneHidden(ps: seq<Proc>, rank: seq<nat>, top: nat, mode: Mode, now: seq<Proc>, trees: seq<Tree>,
                             shown: nat)
    requires Forest(ps, rank, top) && Arranged(ps, rank, top, mode, now, trees, shown)
    ensures (forall k: nat :: k < |ps| && now[k].filtered ==> now[k].treeIndex == |ps|)
       <==> (forall k: nat :: k < |ps| ==> !now[k].filtered)
  {
    forall k: nat | k < |ps| && now[k].filtered ensures |ps| > 1 {
      assert BelowCollapsed(ps, rank, top, k);
    }
  }

  lemma ShownAfterWalk(ps: seq<Proc>, rank: seq<nat>, top: nat, mode: Mode, mid: seq<Proc>, now: seq<Proc>,
                       trees: seq<Tree>, q: Quantity)
    requires Forest(ps, rank, top) && Rooted(ps) && ps != [] && |trees| == Roots(ps)
    requires RootsWalked(ps, rank, top, mid, trees, mode) && OnlyNumbers(mid, now, PreAll(trees))
    ensures AmountsShown(ps, rank, top, now, mode, q)
  {
    if mode.aggregate {
      forall k: nat | k < |ps|
        ensures Amount(now[k], q) == Sum(Pre(TreeOf(ps, rank, top, k)), Joined(ps, rank, top, k), q)
      {
        AggregateTotals(ps, rank, top, mid, trees, k, mode, q);
      }
    } else if mode.noUpdate {
      forall k: nat | k < |ps| ensures Amount(now[k], q) == Amount(ps[k], q) {
        AmountsStay(ps, rank, top, mid, trees, k, q);
      }
    } else {
      ShownAreKept(ps, rank, top, mid, trees, q);
      MarksKept(mid, now, Positions(|ps|), q);
    }
  }

  lemma ArrangedFrom(ps: seq<Proc>, rank: seq<nat>, top: nat, mode: Mode, mid: seq<Proc>, now: seq<Proc>,
                     order: Order, trees: seq<Tree>, r: seq<Tree>, c: nat)
    requires Forest(ps, rank, top) && Rooted(ps) && ps != [] && |trees| == Roots(ps)
    requires RootsWalked(ps, rank, top, mid, trees, mode)
    requires r == SortTrees(mid, order, trees) && OnlyNumbers(mid, now, PreAll(trees))
    requires Numbered(now, PreAll(r), 0, c)
    requires forall k: nat :: k < |ps| && now[k].filtered ==> now[k].treeIndex == 1
    ensures Arranged(ps, rank, top, mode, now, r, c)
    ensures HiddenRows(PreAll(trees), mid) == HiddenRows(Positions(|ps|), now)
  {
    TreesHoldAll(ps, rank, top, trees);
    SortKeepsRows(mid, order, trees);
    SameMembers(PreAll(r), Positions(|ps|));
    NumberedMeans(now, PreAll(r), 0, c);
    SumsPermute(PreAll(r), Positions(|ps|), now, Mem);
    SumsPermute(PreAll(trees), Positions(|ps|), mid, Mem);
    MarksKept(mid, now, Positions(|ps|), Mem);
    forall q: Quantity ensures AmountsShown(ps, rank, top, now, mode, q) {
      ShownAfterWalk(ps, rank, top, mode, mid, now, trees, q);
    }
    forall k: nat | k < |ps|
      ensures now[k].filtered <==> BelowCollapsed(ps, rank, top, k) && (!mode.noUpdate || HasChild(ps, k))
    {
      HiddenExactly(ps, rank, top, mid, trees, mode, k);
      assert now[k] == mid[k].(treeIndex := now[k].treeIndex);
    }
  }

  /** Numbering and sorting leave depths as the walk sets them, and keep everyone below the same process. */
  lemma FamiliesFrom(ps: seq<Proc>, rank: seq<nat>, top: nat, mode: Mode, mid: seq<Proc>, now: seq<Proc>,
                     order: Order, trees: seq<Tree>)
    requires Forest(ps, rank, top) && Rooted(ps) && ps != [] && |trees| == Roots(ps) <= |ps|
    requires RootsWalked(ps, rank, top, mid, trees, mode) && OnlyNumbers(mid, now, PreAll(trees))
    requires Within(PreAll(trees), |mid|)
    ensures Families(ps, SortTrees(mid, order, trees)) && LevelsStable(now, order, SortTrees(mid, order, trees))
    ensures forall k: nat :: k < |ps| ==> now[k].depth + 1 == Level(ps, k)
  {
    SortedFamilies(ps, rank, top, mid, order, trees);
    forall j | 0 <= j < |trees| ensures Listed(trees[j].children) { WalkedListed(ps, rank, top, j); }
    SortedStable(mid, order, trees);
    LevelsStayStable(mid, now, order, SortTrees(mid, order, trees));
    forall k: nat | k < |ps| ensures now[k].depth + 1 == Level(ps, k) {
      DepthIsLevel(ps, rank, top, mid, trees, mode, k);
    }
  }

  // ----- the final order -----

  lemma PickFirst(now: seq<Proc>, xs: seq<nat>)
    requires xs != [] && forall i :: 0 <= i < |xs| ==> xs[i] < |now|
    ensures Pick(now, xs)[0] == now[xs[0]] && Pick(now, xs)[1..] == Pick(now, xs[1..])
  {
  }

  lemma PickCons(now: seq<Proc>, x: nat, rest: seq<nat>)
    requires x < |now| && forall i :: 0 <= i < |rest| ==> rest[i] < |now|
    ensures Pick(now, [x] + rest) == [now[x]] + Pick(now, rest)
  {
  }

  lemma {:induction false} ShownOfPicked(now: seq<Proc>, xs: seq<nat>)
    requires forall i :: 0 <= i < |xs| ==> xs[i] < |now|
    ensures var rows := ShownRows(xs, now);
      (forall i :: 0 <= i < |rows| ==> rows[i] < |now|) && ShownProcs(Pick(now, xs)) == Pick(now, rows)
  {
    if xs == [] {
    } else {
      ShownOfPicked(now, xs[1..]);
      PickFirst(now, xs);
      var rest := ShownRows(xs[1..], now);
      if now[xs[0]].filtered { assert [] + rest == rest; } else { PickCons(now, xs[0], rest); }
    }
  }

  /** Picking the shown rows of the trees is picking all rows of the list, in another order, without the hidden ones. */
  lemma PickedContents(now: seq<Proc>, xs: seq<nat>)
    requires multiset(xs) == multiset(Positions(|now|))
    ensures forall i :: 0 <= i < |xs| ==> xs[i] < |now|
    ensures multiset(Pick(now, xs)) == multiset(now)
  {
    var all := Positions(|now|);
    SameMembers(xs, all);
    forall i | 0 <= i < |xs| ensures xs[i] < |now| { assert xs[i] in all; }
    PickPermutes(now, xs, all);
    assert Pick(now, all) == now;
  }

  lemma SameShown(s: seq<Proc>, t: seq<Proc>)
    requires multiset(s) == multiset(t)
    ensures multiset(ShownProcs(s)) == multiset(ShownProcs(t))
  {
    forall p ensures multiset(ShownProcs(s))[p] == multiset(ShownProcs(t))[p] {
      ShownCount(s, p);
      ShownCount(t, p);
    }
  }

  /** In the list sorted by number, the shown rows are those of the trees from top to bottom. */
  lemma ReorderedShows(now: seq<Proc>, xs: seq<nat>)
    requires multiset(xs) == multiset(Positions(|now|))
    requires var rows := ShownRows(xs, now);
      forall j :: 0 <= j < |rows| ==> rows[j] < |now| && now[rows[j]].treeIndex == j
    ensures ShownProcs(ByIndex(now)) == Pick(now, ShownRows(xs, now))
  {
    PickedContents(now, xs);
    ShownOfPicked(now, xs);
    ByIndexContract(now, 0);
    ShownAscending(ByIndex(now));
    SameShown(ByIndex(now), Pick(now, xs));
    SameOrder(ShownProcs(ByIndex(now)), Pick(now, ShownRows(xs, now)));
  }

  /** All hidden rows end up in one block with the second shown row, right behind the first. */
  lemma HiddenBesideSecond(ps: seq<Proc>, rank: seq<nat>, top: nat, mode: Mode, now: seq<Proc>, trees: seq<Tree>,
                           shown: nat)
    requires Forest(ps, rank, top) && Arranged(ps, rank, top, mode, now, trees, shown)
    ensures WithIndex(now, 0) + WithIndex(now, 1) <= ByIndex(now)
    ensures forall k :: 0 <= k < |now| && now[k].filtered ==> now[k] in WithIndex(now, 1)
  {
    RowsNumberedOne(now);
    forall k: nat | k < |now| && now[k].filtered ensures now[k] in WithIndex(now, 1) { HasIndex(now, k); }
  }

  /**
   Walks the list, sorts the trees, numbers the rows and sorts the list by number, as the collector does in tree
   mode; `now` is the list before the last step. A row is shown unless something above it is collapsed; the shown
   rows are numbered from 0 in tree order, add up as `AmountsShown` says, and are exactly those not counted as found.
   Siblings are in the chosen order by the amounts shown. Hidden rows all get 1; `HiddenBesideSecond` says where the
   last step puts them.
   */
  method ArrangeTree(a: array<Proc>, order: Order, mode: Mode, ghost rank: seq<nat>, ghost top: nat)
    returns (trees: seq<Tree>, found: nat, shown: nat, ghost now: seq<Proc>)
    requires a.Length > 0 && Forest(a[..], rank, top) && Rooted(a[..])
    modifies a
    ensures Arranged(old(a[..]), rank, top, mode, now, trees, shown)
    ensures found == if mode.noUpdate then 0 else a.Length - shown
    ensures Families(old(a[..]), trees) && LevelsSorted(now, order, trees) && LevelsStable(now, order, trees)
    ensures forall k: nat :: k < a.Length ==> now[k].depth + 1 == Level(old(a[..]), k)
    ensures a[..] == ByIndex(now)
    ensures |now| == a.Length && forall i :: 0 <= i < shown ==> ShownRows(PreAll(trees), now)[i] < |now|
    ensures ShownProcs(a[..]) == Pick(now, ShownRows(PreAll(trees), now))
  {
    ghost var ps := a[..];
    var walked;
    walked, found := GenerateTrees(a, mode, rank, top);
    ghost var mid := a[..];
    RootRange(ps);
    RootsNoRepeats(ps, rank, top, walked, 0);
    OnceWhenNoRepeats(PreAll(walked));
    TreesHoldAll(ps, rank, top, walked);
    SameMembers(PreAll(walked), Positions(|ps|));
    trees, shown := TreeSort(a, walked, order, 0, a.Length);
    now := a[..];
    HiddenGetOne(ps, rank, top, mode, mid, now, order, walked, trees);
    ArrangedFrom(ps, rank, top, mode, mid, now, order, walked, trees, shown);
    FamiliesFrom(ps, rank, top, mode, mid, now, order, walked);
    ReorderedShows(now, PreAll(trees));
    Reorder(a);
  }

  // ----- the smallest trees with a hidden row -----

  /** A collapsed process and its child. */
  const PAIR: seq<Proc> :=
    [Proc(1, 0, 1, 0, 0.0, 0.0, true, false, false, 0, 0), Proc(2, 1, 1, 0, 0.0, 0.0, false, false, false, 0, 0)]

  lemma PairIsForest()
    ensures Forest(PAIR, [0, 1], 2) && Rooted(PAIR)
    ensures BelowCollapsed(PAIR, [0, 1], 2, 1) && !BelowCollapsed(PAIR, [0, 1], 2, 0)
  {
    assert PAIR[1].ppid == PAIR[0].pid;
    assert Above(PAIR, [0, 1], 2, 0, 0);
    assert Above(PAIR, [0, 1], 2, 0, 1);
    assert !Above(PAIR, [0, 1], 2, 1, 0);
  }

  lemma ChildOfPair(ps: seq<Proc>)
    requires SameShape(ps, PAIR) && Forest(ps, [0, 1], 2)
    ensures Pre(TreeOf(ps, [0, 1], 2, 0)) == [0, 1]
  {
    LowerIs(ps, 1, 1);
    LowerIs(ps, 2, 2);
    LowerIs(ps, 3, 2);
    assert TreesOf(ps, [0, 1], 2, 1, 2) == [] && TreesOf(ps, [0, 1], 2, 0, 2) == [];
    assert TreeOf(ps, [0, 1], 2, 1) == Node(1, []);
    assert TreesOf(ps, [0, 1], 2, 0, 1) == [Node(1, [])] + [] == [Node(1, [])];
    assert TreeOf(ps, [0, 1], 2, 0) == Node(0, [Node(1, [])]);
    assert PreAll([Node(1, [])]) == [1] by { assert [Node(1, [])][1..] == [] && Pre(Node(1, [])) == [1]; }
  }

  lemma LeafOfPair(ps: seq<Proc>)
    requires SameShape(ps, PAIR) && Forest(ps, [0, 1], 2)
    ensures Pre(TreeOf(ps, [0, 1], 2, 1)) == [1]
  {
    LowerIs(ps, 2, 2);
    LowerIs(ps, 3, 2);
  }

  lemma SumOfTwo(ps: seq<Proc>, q: Quantity)
    requires |ps| == 2
    ensures Sum([0, 1], ps, q) == Amount(ps[0], q) + Amount(ps[1], q) && Sum([1], ps, q) == Amount(ps[1], q)
  {
    assert [0, 1][1..] == [1] && [1][1..] == [];
    assert Sum([], ps, q) == 0.0;
    assert Sum([1], ps, q) == Amount(ps[1], q) + Sum([], ps, q);
  }

  lemma HiddenOfTwo(now: seq<Proc>)
    requires |now| == 2 && now[1].filtered && !now[0].filtered
    ensures HiddenRows([0, 1], now) == 1
  {
    assert [0, 1][1..] == [1] && [1][1..] == [];
    assert HiddenRows([1], now) == 1;
  }

  lemma {:induction false} ShownRowsShown(xs: seq<nat>, ps: seq<Proc>)
    ensures forall i :: 0 <= i < |ShownRows(xs, ps)| ==>
      ShownRows(xs, ps)[i] < |ps| && !ps[ShownRows(xs, ps)[i]].filtered
  {
    if xs == [] {
    } else {
      ShownRowsShown(xs[1..], ps);
    }
  }

  /** The hidden child gets 1, where the list's size is 2 and the only shown row has 0. */
  lemma PairIsNumbered(now: seq<Proc>, trees: seq<Tree>, shown: nat)
    requires Forest(PAIR, [0, 1], 2) && Arranged(PAIR, [0, 1], 2, UPDATE, now, trees, shown)
    ensures now[1].filtered && now[1].treeIndex == 1 && !now[0].filtered && now[0].treeIndex == 0 && shown == 1
  {
    PairIsForest();
    var first: nat, second: nat := 0, 1;
    assert now[first].filtered <==> BelowCollapsed(PAIR, [0, 1], 2, first);
    assert now[second].filtered <==> BelowCollapsed(PAIR, [0, 1], 2, second);
    assert Positions(2) == [0, 1];
    HiddenOfTwo(now);
    ShownRowsShown(PreAll(trees), now);
    assert ShownRows(PreAll(trees), now)[0] == 0;
  }

  /** Without an update the same child stays shown, since it has no children. */
  lemma PairWithoutUpdate(now: seq<Proc>, trees: seq<Tree>, shown: nat)
    requires Forest(PAIR, [0, 1], 2) && Arranged(PAIR, [0, 1], 2, Mode(true, false), now, trees, shown)
    ensures !now[1].filtered && !now[0].filtered
  {
    PairIsForest();
    ChildRange(PAIR, 1);
    var first: nat, second: nat := 0, 1;
    assert !now[first].filtered;
    assert now[second].filtered ==> HasChild(PAIR, second);
  }

  /** With aggregation the collapsed process takes its child over, on an update or not. */
  lemma PairTotals(ps: seq<Proc>, now: seq<Proc>, trees: seq<Tree>, shown: nat, mode: Mode)
    requires SameShape(ps, PAIR) && Forest(ps, [0, 1], 2) && mode.aggregate
    requires Arranged(ps, [0, 1], 2, mode, now, trees, shown)
    ensures Amount(now[0], Mem) == Amount(ps[0], Mem) + Amount(ps[1], Mem) && Amount(now[1], Mem) == Amount(ps[1], Mem)
  {
    var first: nat, second: nat := 0, 1;
    ChildOfPair(ps);
    LeafOfPair(ps);
    SumOfTwo(ps, Mem);
    assert AmountsShown(ps, [0, 1], 2, now, mode, Mem);
    assert Joined(ps, [0, 1], 2, first) == ps && Joined(ps, [0, 1], 2, second) == ps;
  }

  /** With aggregation, a walk without an update counts the child again: 1 and 1 are shown as 2, and then as 3. */
  lemma PairCountedTwice(once: seq<Proc>, trees: seq<Tree>, shown: nat, twice: seq<Proc>, trees': seq<Tree>,
                         shown': nat)
    requires SameShape(once, PAIR) && Forest(PAIR, [0, 1], 2) && Forest(once, [0, 1], 2)
    requires Arranged(PAIR, [0, 1], 2, Mode(false, true), once, trees, shown)
    requires Arranged(once, [0, 1], 2, Mode(true, true), twice, trees', shown')
    ensures PAIR[0].mem + PAIR[1].mem == once[0].mem == 2 && twice[0].mem == 3
  {
    PairTotals(PAIR, once, trees, shown, Mode(false, true));
    PairTotals(once, twice, trees', shown', Mode(true, true));
  }

  /** A collapsed process and its dead child. */
  const GRAVE: seq<Proc> :=
    [Proc(1, 0, 1, 0, 0.0, 0.0, true, false, false, 0, 0), Proc(2, 1, 1, 0, 0.0, 0.0, false, true, false, 0, 0)]

  lemma GraveIsCleared()
    requires Forest(GRAVE, [0, 1], 2)
    ensures Cleared(GRAVE, [0, 1], 2) == [GRAVE[0], GRAVE[1].(mem := 0)]
  {
    var first: nat, second: nat := 0, 1;
    assert GRAVE[1].ppid == GRAVE[0].pid;
    assert Above(GRAVE, [0, 1], 2, first, first) && Above(GRAVE, [0, 1], 2, second, second);
    assert Above(GRAVE, [0, 1], 2, first, second) && !Above(GRAVE, [0, 1], 2, second, first);
    assert BelowCollapsed(GRAVE, [0, 1], 2, second);
    assert Dropped(GRAVE, [0, 1], 2, second) && !Dropped(GRAVE, [0, 1], 2, first);
  }

  /** The hidden child's memory is shown nowhere. */
  lemma DeadChildIsLost(now: seq<Proc>, trees: seq<Tree>, shown: nat)
    requires Forest(GRAVE, [0, 1], 2) && Arranged(GRAVE, [0, 1], 2, UPDATE, now, trees, shown)
    ensures Shown(Positions(2), now, Mem) == 1.0 && Sum(Positions(2), GRAVE, Mem) == 2.0
  {
    GraveIsCleared();
    assert AmountsShown(GRAVE, [0, 1], 2, now, UPDATE, Mem);
    assert Positions(2) == [0, 1];
    SumOfTwo(GRAVE, Mem);
    SumOfTwo([GRAVE[0], GRAVE[1].(mem := 0)], Mem);
  }
}
