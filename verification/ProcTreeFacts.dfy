/** What the walk means for the process view: which rows are hidden, and how many. */
module ProcTreeFacts {
  import opened Collections
  import opened ProcTree

  // ----- rows of one subtree -----

  /** `k` has a collapsed proper ancestor at or below `i`. */
  ghost predicate Covered(ps: seq<Proc>, rank: seq<nat>, top: nat, i: nat, k: nat)
    requires Forest(ps, rank, top) && i < |ps| && k < |ps|
  {
    exists j: nat :: j < |ps| && j != k && ps[j].collapsed
      && Above(ps, rank, top, i, j) && Above(ps, rank, top, j, k)
  }

  lemma CoveredThroughChild(ps: seq<Proc>, rank: seq<nat>, top: nat, i: nat, c: nat, k: nat)
    requires Forest(ps, rank, top) && i < |ps| && First(ps, i) <= c < Past(ps, i) <= |ps| && k < |ps|
    requires Above(ps, rank, top, c, k)
    ensures Covered(ps, rank, top, i, k) <==> ps[i].collapsed || Covered(ps, rank, top, c, k)
  {
    ChildRange(ps, i);
    AboveRank(ps, rank, top, c, k);
    assert Above(ps, rank, top, i, i) && Above(ps, rank, top, i, c);
    AboveTransitive(ps, rank, top, i, c, k);
    if Covered(ps, rank, top, i, k) {
      var j: nat :| j < |ps| && j != k && ps[j].collapsed && Above(ps, rank, top, i, j) && Above(ps, rank, top, j, k);
      if j != i {
        var d := AboveChild(ps, rank, top, i, j);
        AboveTransitive(ps, rank, top, d, j, k);
        if d != c { SiblingsDisjoint(ps, rank, top, c, d, k); }
        assert Above(ps, rank, top, c, j);
      }
    }
    if Covered(ps, rank, top, c, k) {
      var j: nat :| j < |ps| && j != k && ps[j].collapsed && Above(ps, rank, top, c, j) && Above(ps, rank, top, j, k);
      AboveTransitive(ps, rank, top, i, c, j);
    }
  }

  lemma NotCoveringItself(ps: seq<Proc>, rank: seq<nat>, top: nat, i: nat)
    requires Forest(ps, rank, top) && i < |ps|
    ensures !Covered(ps, rank, top, i, i)
  {
    if Covered(ps, rank, top, i, i) {
      var j: nat :| j < |ps| && j != i && ps[j].collapsed && Above(ps, rank, top, i, j) && Above(ps, rank, top, j, i);
      AboveRank(ps, rank, top, i, j);
      AboveRank(ps, rank, top, j, i);
    }
  }

  /** The child of `i` that is `k` or above it, and its place among the children. */
  lemma ChildToward(ps: seq<Proc>, rank: seq<nat>, top: nat, i: nat, k: nat) returns (c: nat, j: nat)
    requires Forest(ps, rank, top) && i < |ps| && k < |ps| && k != i && Above(ps, rank, top, i, k)
    ensures First(ps, i) <= c < Past(ps, i) <= |ps| && rank[i] < rank[c] && Above(ps, rank, top, c, k)
    ensures j < |TreeOf(ps, rank, top, i).children| && TreeOf(ps, rank, top, i).children[j] == TreeOf(ps, rank, top, c)
  {
    ChildRange(ps, i);
    c := AboveChild(ps, rank, top, i, k);
    j := c - First(ps, i);
    ChildAt(ps, rank, top, i, First(ps, i), j);
  }

  predicate HasChild(ps: seq<Proc>, k: nat)
    requires k < |ps|
  {
    First(ps, k) < Past(ps, k)
  }

  /**
   Below the root of a walked subtree, a row is hidden exactly when something above it is collapsed and, if
   nothing was updated, it has children.
   */
  lemma {:induction false} HiddenBelow(ps: seq<Proc>, rank: seq<nat>, top: nat, i: nat, after: seq<Proc>,
                                       under: bool, depth: nat, slot: nat, k: nat, mode: Mode)
    requires Forest(ps, rank, top) && i < |ps| && |after| == |ps| && k < |ps| && k != i
    requires Walked(TreeOf(ps, rank, top, i), ps, after, under, depth, slot, mode) && Above(ps, rank, top, i, k)
    ensures after[k].filtered <==> (under || Covered(ps, rank, top, i, k)) && (!mode.noUpdate || HasChild(ps, k))
    decreases top - rank[i]
  {
    var c, j := ChildToward(ps, rank, top, i, k);
    CoveredThroughChild(ps, rank, top, i, c, k);
    if k == c {
      ChildRange(ps, c);
      NotCoveringItself(ps, rank, top, c);
    } else {
      HiddenBelow(ps, rank, top, c, after, under || ps[i].collapsed, depth + 1, j, k, mode);
    }
  }

  lemma {:induction false} ChildAt(ps: seq<Proc>, rank: seq<nat>, top: nat, i: nat, from: nat, j: nat)
    requires Forest(ps, rank, top) && i < |ps| && First(ps, i) <= from <= Past(ps, i) && j < Past(ps, i) - from
    ensures from + j < |ps| && TreesOf(ps, rank, top, i, from)[j] == TreeOf(ps, rank, top, from + j)
    decreases j
  {
    ChildRange(ps, i);
    if j > 0 { ChildAt(ps, rank, top, i, from + 1, j - 1); }
  }

  lemma {:induction false} ShownConcat(xs: seq<nat>, ys: seq<nat>, ps: seq<Proc>, q: Quantity)
    ensures Shown(xs + ys, ps, q) == Shown(xs, ps, q) + Shown(ys, ps, q)
    ensures HiddenRows(xs + ys, ps) == HiddenRows(xs, ps) + HiddenRows(ys, ps)
  {
    if xs == [] {
      assert xs + ys == ys;
    } else {
      assert (xs + ys)[1..] == xs[1..] + ys;
      ShownConcat(xs[1..], ys, ps, q);
    }
  }

  /** How many rows of walked siblings are hidden; `hides` says that their parent folds them. */
  lemma {:induction false} SiblingsHidden(ts: seq<Tree>, before: seq<Proc>, after: seq<Proc>, hides: bool, depth: nat,
                                          from: nat, mode: Mode)
    requires |after| == |before| && !mode.noUpdate && AllFrom(ts, before, after, hides, depth, from, mode)
    ensures HiddenRows(PreAll(ts), after) == CountedFrom(ts, before, hides, mode)
    decreases ts
  {
    if ts == [] {
    } else {
      AllFromSplit(ts, before, after, hides, depth, from, mode);
      SiblingsHidden(ts[1..], before, after, hides, depth, from + 1, mode);
      SubtreeHidden(ts[0], before, after, hides, depth, from, mode);
      ShownConcat(Pre(ts[0]), PreAll(ts[1..]), after, Mem);
    }
  }

  lemma {:induction false} SubtreeHidden(t: Tree, before: seq<Proc>, after: seq<Proc>, under: bool, depth: nat,
                                         slot: nat, mode: Mode)
    requires |after| == |before| && !mode.noUpdate && Walked(t, before, after, under, depth, slot, mode)
    requires after[t.entry].filtered == under
    ensures HiddenRows(Pre(t), after) == (if under then 1 else 0) + Counted(t, before, under, mode)
    decreases t
  {
    SiblingsHidden(t.children, before, after, under || before[t.entry].collapsed, depth + 1, 0, mode);
    assert Pre(t)[1..] == PreAll(t.children);
  }

  /** Walked siblings, all hidden or all shown, from place `from` on. */
  ghost predicate AllFrom(ts: seq<Tree>, before: seq<Proc>, after: seq<Proc>, hides: bool, depth: nat, from: nat,
                          mode: Mode)
  {
    forall j :: 0 <= j < |ts| ==>
      Walked(ts[j], before, after, hides, depth, from + j, mode) && after[ts[j].entry].filtered == hides
  }

  lemma AllFromSplit(ts: seq<Tree>, before: seq<Proc>, after: seq<Proc>, hides: bool, depth: nat, from: nat, mode: Mode)
    requires ts != [] && AllFrom(ts, before, after, hides, depth, from, mode)
    ensures Walked(ts[0], before, after, hides, depth, from, mode) && after[ts[0].entry].filtered == hides
    ensures AllFrom(ts[1..], before, after, hides, depth, from + 1, mode)
  {
    assert Walked(ts[0], before, after, hides, depth, from + 0, mode);
    var rest := ts[1..];
    forall j | 0 <= j < |rest|
      ensures Walked(rest[j], before, after, hides, depth, from + 1 + j, mode)
      ensures after[rest[j].entry].filtered == hides
    {
      assert rest[j] == ts[j + 1] && Walked(ts[j + 1], before, after, hides, depth, from + (j + 1), mode);
    }
  }

  // ----- the whole list -----

  /** The roots are the processes with the lowest parent. */
  function Roots(ps: seq<Proc>): nat
    requires ps != []
  {
    Lower(ps, ps[0].ppid + 1)
  }

  /** Every process is a root or has its parent in the list. */
  ghost predicate Rooted(ps: seq<Proc>) {
    forall k :: 0 <= k < |ps| ==> ps[k].ppid == ps[0].ppid || exists j :: 0 <= j < |ps| && ps[j].pid == ps[k].ppid
  }

  lemma RootRange(ps: seq<Proc>)
    requires Sorted(ps) && ps != []
    ensures Roots(ps) <= |ps| && forall k :: 0 <= k < |ps| ==> (k < Roots(ps) <==> ps[k].ppid == ps[0].ppid)
  {
    LowerMeaning(ps, ps[0].ppid + 1);
    forall k | 0 <= k < |ps| ensures k < Roots(ps) <==> ps[k].ppid == ps[0].ppid {
      if k > 0 { assert ps[0].ppid <= ps[k].ppid; }
    }
  }

  /** Every process is below some root. */
  lemma {:induction false} RootAbove(ps: seq<Proc>, rank: seq<nat>, top: nat, k: nat) returns (r: nat)
    requires Forest(ps, rank, top) && Rooted(ps) && k < |ps|
    ensures r < Roots(ps) <= |ps| && Above(ps, rank, top, r, k)
    decreases rank[k]
  {
    RootRange(ps);
    if ps[k].ppid == ps[0].ppid {
      r := k;
    } else {
      var j :| 0 <= j < |ps| && ps[j].pid == ps[k].ppid;
      r := RootAbove(ps, rank, top, j);
      assert Above(ps, rank, top, r, k);
    }
  }

  /** The first `n` root trees after their walk. */
  ghost predicate RootsWalked(ps: seq<Proc>, rank: seq<nat>, top: nat, now: seq<Proc>, ts: seq<Tree>, mode: Mode)
    requires Forest(ps, rank, top)
  {
    && |now| == |ps| && |ts| <= |ps|
    && forall j :: 0 <= j < |ts| ==>
         && ts[j] == TreeOf(ps, rank, top, j)
         && Walked(ts[j], ps, now, false, 0, j, mode) && !now[ts[j].entry].filtered
  }

  lemma RootsApart(ps: seq<Proc>, rank: seq<nat>, top: nat, c: nat, d: nat)
    requires Forest(ps, rank, top) && ps != [] && c < Roots(ps) <= |ps| && d < Roots(ps) && c != d
    ensures forall k :: k in Pre(TreeOf(ps, rank, top, c)) ==> k < |ps| && k !in Pre(TreeOf(ps, rank, top, d))
  {
    RootRange(ps);
    forall k | k in Pre(TreeOf(ps, rank, top, c)) ensures k < |ps| && k !in Pre(TreeOf(ps, rank, top, d)) {
      PreIsBelow(ps, rank, top, c, k);
      PreIsBelow(ps, rank, top, d, k);
      SiblingsDisjoint(ps, rank, top, c, d, k);
    }
  }

  /** Walking one more root keeps the earlier ones. */
  lemma RootWalked(ps: seq<Proc>, rank: seq<nat>, top: nat, a: seq<Proc>, b: seq<Proc>, ts: seq<Tree>, mode: Mode)
    requires Forest(ps, rank, top) && ps != [] && |ts| < Roots(ps) <= |ps| && |b| == |a|
    requires RootsWalked(ps, rank, top, a, ts, mode)
    requires var t := TreeOf(ps, rank, top, |ts|);
      && Walked(t, ps, b, false, 0, |ts|, mode) && !b[t.entry].filtered
      && forall k :: 0 <= k < |b| && k !in Pre(t) ==> b[k] == a[k]
    ensures RootsWalked(ps, rank, top, b, ts + [TreeOf(ps, rank, top, |ts|)], mode)
  {
    forall j | 0 <= j < |ts| ensures Walked(ts[j], ps, b, false, 0, j, mode) && !b[ts[j].entry].filtered {
      var d: nat := j;
      RootsApart(ps, rank, top, d, |ts|);
      assert ts[j] == TreeOf(ps, rank, top, d) && ts[j].entry in Pre(ts[j]);
      WalkedFrame(ts[j], ps, a, b, false, 0, j, mode);
    }
  }

  lemma NextRootWalked(ps: seq<Proc>, rank: seq<nat>, top: nat, a: seq<Proc>, b: seq<Proc>, ts: seq<Tree>, mode: Mode)
    requires Forest(ps, rank, top) && ps != [] && |ts| < Roots(ps) <= |ps| && |b| == |a|
    requires RootsWalked(ps, rank, top, a, ts, mode) && Untouched(|ps|, ts, ps, a)
    requires var t := TreeOf(ps, rank, top, |ts|);
      && Walked(t, ps, b, false, 0, |ts|, mode) && !b[t.entry].filtered
      && forall k :: 0 <= k < |b| && k !in Pre(t) ==> b[k] == a[k]
    ensures RootsWalked(ps, rank, top, b, ts + [TreeOf(ps, rank, top, |ts|)], mode)
    ensures Untouched(|ps|, ts + [TreeOf(ps, rank, top, |ts|)], ps, b)
  {
    RootWalked(ps, rank, top, a, b, ts, mode);
    StillUntouched(|ps|, ts, TreeOf(ps, rank, top, |ts|), ps, a, b);
  }

  /** The next root's subtree is still as it was. */
  lemma RootUnfolded(ps: seq<Proc>, rank: seq<nat>, top: nat, now: seq<Proc>, ts: seq<Tree>)
    requires Forest(ps, rank, top) && ps != [] && |ts| < Roots(ps) <= |ps| == |now|
    requires forall j :: 0 <= j < |ts| ==> ts[j] == TreeOf(ps, rank, top, j)
    requires Untouched(|ps|, ts, ps, now)
    ensures Unfolded(Pre(TreeOf(ps, rank, top, |ts|)), ps, now)
  {
    forall k | k in Pre(TreeOf(ps, rank, top, |ts|)) && k < |ps| ensures now[k] == ps[k] {
      if k in PreAll(ts) {
        var j := PreAllFind(ts, k);
        RootsApart(ps, rank, top, j, |ts|);
      }
    }
  }

  lemma {:induction false} NothingCounted(ts: seq<Tree>, before: seq<Proc>, hides: bool, mode: Mode)
    requires mode.noUpdate
    ensures CountedFrom(ts, before, hides, mode) == 0
    decreases ts
  {
    if ts == [] {
    } else {
      if ts[0].entry < |before| {
        NothingCounted(ts[0].children, before, hides || before[ts[0].entry].collapsed, mode);
      }
      NothingCounted(ts[1..], before, hides, mode);
    }
  }

  lemma {:induction false} NothingFound(ts: seq<Tree>, before: seq<Proc>, mode: Mode)
    requires mode.noUpdate
    ensures CountedAll(ts, before, mode) == 0
  {
    if ts == [] {
    } else {
      if ts[0].entry < |before| {
        NothingCounted(ts[0].children, before, before[ts[0].entry].collapsed, mode);
      }
      NothingFound(ts[1..], before, mode);
    }
  }

  ghost function CountedAll(ts: seq<Tree>, before: seq<Proc>, mode: Mode): nat {
    if ts == [] then 0
    else
      (if ts[0].entry < |before| then Counted(ts[0], before, false, mode) else 0)
      + CountedAll(ts[1..], before, mode)
  }

  lemma {:induction false} CountedAllSnoc(ts: seq<Tree>, t: Tree, before: seq<Proc>, mode: Mode)
    requires t.entry < |before|
    ensures CountedAll(ts + [t], before, mode)
         == CountedAll(ts, before, mode) + Counted(t, before, false, mode)
  {
    if ts == [] {
      assert [t][1..] == [] && [] + [t] == [t];
    } else {
      assert (ts + [t])[1..] == ts[1..] + [t];
      CountedAllSnoc(ts[1..], t, before, mode);
    }
  }

  lemma {:induction false} RootsHidden(ts: seq<Tree>, before: seq<Proc>, after: seq<Proc>, from: nat, mode: Mode)
    requires |after| == |before| && !mode.noUpdate && AllFrom(ts, before, after, false, 0, from, mode)
    ensures HiddenRows(PreAll(ts), after) == CountedAll(ts, before, mode)
    decreases ts
  {
    if ts == [] {
    } else {
      AllFromSplit(ts, before, after, false, 0, from, mode);
      RootsHidden(ts[1..], before, after, from + 1, mode);
      SubtreeHidden(ts[0], before, after, false, 0, from, mode);
      ShownConcat(Pre(ts[0]), PreAll(ts[1..]), after, Mem);
    }
  }

  /** What the walks of all roots count. */
  lemma FoundAll(ps: seq<Proc>, rank: seq<nat>, top: nat, now: seq<Proc>, ts: seq<Tree>, mode: Mode)
    requires Forest(ps, rank, top) && RootsWalked(ps, rank, top, now, ts, mode)
    ensures CountedAll(ts, ps, mode) == if mode.noUpdate then 0 else HiddenRows(PreAll(ts), now)
  {
    if mode.noUpdate { NothingFound(ts, ps, mode); } else { RootsHidden(ts, ps, now, 0, mode); }
  }

  /** Generates the trees of all roots; a walk without an update counts nothing as found. */
  method GenerateTrees(a: array<Proc>, mode: Mode, ghost rank: seq<nat>, ghost top: nat)
    returns (trees: seq<Tree>, found: nat)
    requires a.Length > 0 && Forest(a[..], rank, top)
    modifies a
    ensures |trees| == Roots(old(a[..])) && RootsWalked(old(a[..]), rank, top, a[..], trees, mode)
    ensures SameShape(a[..], old(a[..])) && found == if mode.noUpdate then 0 else HiddenRows(PreAll(trees), a[..])
  {
    ghost var ps := a[..];
    RootRange(ps);
    var hi := LowerBound(a, a[0].ppid + 1);
    trees, found := [], 0;
    for c := 0 to hi
      invariant SameShape(a[..], ps) && |trees| == c
      invariant RootsWalked(ps, rank, top, a[..], trees, mode) && Untouched(|ps|, trees, ps, a[..])
      invariant found == CountedAll(trees, ps, mode)
    {
      ghost var before := a[..];
      RootUnfolded(ps, rank, top, before, trees);
      var t, n := TreeGen(a, c, 0, false, |trees|, mode, ps, rank, top);
      NextRootWalked(ps, rank, top, before, a[..], trees, mode);
      CountedAllSnoc(trees, t, ps, mode);
      trees := trees + [t];
      found := found + n;
    }
    FoundAll(ps, rank, top, a[..], trees, mode);
  }

  // ----- every process is in the trees exactly once -----

  lemma NoRepeatsConcat(xs: seq<nat>, ys: seq<nat>)
    requires NoRepeats(xs) && NoRepeats(ys) && forall k :: k in xs ==> k !in ys
    ensures NoRepeats(xs + ys)
  {
    var zs := xs + ys;
    forall i, j | 0 <= i < j < |zs| ensures zs[i] != zs[j] {
      if i < |xs| && |xs| <= j { assert zs[i] in xs && zs[j] in ys; }
    }
  }

  lemma {:induction false} PreNoRepeats(ps: seq<Proc>, rank: seq<nat>, top: nat, i: nat)
    requires Forest(ps, rank, top) && i < |ps|
    ensures NoRepeats(Pre(TreeOf(ps, rank, top, i)))
    decreases top - rank[i], 1, 0
  {
    ChildRange(ps, i);
    NotBelowItself(ps, rank, top, i);
    PreAllNoRepeats(ps, rank, top, i, First(ps, i));
    NoRepeatsConcat([i], PreAll(TreesOf(ps, rank, top, i, First(ps, i))));
  }

  lemma {:induction false} PreAllNoRepeats(ps: seq<Proc>, rank: seq<nat>, top: nat, i: nat, j: nat)
    requires Forest(ps, rank, top) && i < |ps| && First(ps, i) <= j <= Past(ps, i)
    ensures NoRepeats(PreAll(TreesOf(ps, rank, top, i, j)))
    decreases top - rank[i], 0, Past(ps, i) - j
  {
    ChildRange(ps, i);
    if j < Past(ps, i) {
      PreNoRepeats(ps, rank, top, j);
      PreAllNoRepeats(ps, rank, top, i, j + 1);
      var t, rest := TreeOf(ps, rank, top, j), TreesOf(ps, rank, top, i, j + 1);
      forall k | k in Pre(t) ensures k !in PreAll(rest) { NotInLaterSiblings(ps, rank, top, i, j, k); }
      NoRepeatsCons(t, rest);
    }
  }

  lemma NoRepeatsCons(t: Tree, rest: seq<Tree>)
    requires NoRepeats(Pre(t)) && NoRepeats(PreAll(rest)) && forall k :: k in Pre(t) ==> k !in PreAll(rest)
    ensures NoRepeats(PreAll([t] + rest))
  {
    assert ([t] + rest)[1..] == rest;
    NoRepeatsConcat(Pre(t), PreAll(rest));
  }

  lemma NotInLaterSiblings(ps: seq<Proc>, rank: seq<nat>, top: nat, i: nat, j: nat, k: nat)
    requires Forest(ps, rank, top) && i < |ps| && First(ps, i) <= j < Past(ps, i) <= |ps|
    requires k in Pre(TreeOf(ps, rank, top, j))
    ensures k !in PreAll(TreesOf(ps, rank, top, i, j + 1))
  {
    var rest := TreesOf(ps, rank, top, i, j + 1);
    if k in PreAll(rest) {
      var m := PreAllFind(rest, k);
      ChildAt(ps, rank, top, i, j + 1, m);
      ChildApart(ps, rank, top, i, j);
    }
  }

  lemma RootApart(ps: seq<Proc>, rank: seq<nat>, top: nat, rest: seq<Tree>, from: nat)
    requires Forest(ps, rank, top) && ps != [] && from + 1 + |rest| <= Roots(ps) <= |ps|
    requires forall j :: 0 <= j < |rest| ==> rest[j] == TreeOf(ps, rank, top, from + 1 + j)
    ensures forall k :: k in Pre(TreeOf(ps, rank, top, from)) ==> k !in PreAll(rest)
  {
    forall k | k in Pre(TreeOf(ps, rank, top, from)) ensures k !in PreAll(rest) {
      if k in PreAll(rest) {
        var m := PreAllFind(rest, k);
        RootsApart(ps, rank, top, from, from + 1 + m);
      }
    }
  }

  lemma {:induction false} RootsNoRepeats(ps: seq<Proc>, rank: seq<nat>, top: nat, ts: seq<Tree>, from: nat)
    requires Forest(ps, rank, top) && ps != [] && from + |ts| <= Roots(ps) <= |ps|
    requires forall j :: 0 <= j < |ts| ==> ts[j] == TreeOf(ps, rank, top, from + j)
    ensures NoRepeats(PreAll(ts))
    decreases |ts|
  {
    if ts != [] {
      var rest := ts[1..];
      forall j | 0 <= j < |rest| ensures rest[j] == TreeOf(ps, rank, top, from + 1 + j) { assert rest[j] == ts[j + 1]; }
      RootsNoRepeats(ps, rank, top, rest, from + 1);
      assert ts[0] == TreeOf(ps, rank, top, from);
      PreNoRepeats(ps, rank, top, from);
      RootApart(ps, rank, top, rest, from);
      NoRepeatsConcat(Pre(ts[0]), PreAll(rest));
    }
  }

  function Positions(n: nat): seq<nat> {
    seq(n, (i: nat) => i)
  }

  /** The trees hold every position of the list exactly once. */
  lemma TreesHoldAll(ps: seq<Proc>, rank: seq<nat>, top: nat, ts: seq<Tree>)
    requires Forest(ps, rank, top) && Rooted(ps) && ps != [] && |ts| == Roots(ps)
    requires forall j :: 0 <= j < |ts| ==> ts[j] == TreeOf(ps, rank, top, j)
    ensures multiset(PreAll(ts)) == multiset(Positions(|ps|))
  {
    RootRange(ps);
    RootsNoRepeats(ps, rank, top, ts, 0);
    var n := |ps|;
    forall k: nat ensures multiset(PreAll(ts))[k] == multiset(Positions(n))[k] {
      CountOnce(PreAll(ts), k);
      CountOnce(Positions(n), k);
      if k < n {
        assert Positions(n)[k] == k;
        var r := RootAbove(ps, rank, top, k);
        PreIsBelow(ps, rank, top, r, k);
        PreContains(ts, r);
      } else if k in PreAll(ts) {
        var j := PreAllFind(ts, k);
        PreIsBelow(ps, rank, top, j, k);
      }
    }
  }

  lemma SumsWithout(ys: seq<nat>, i: nat, ps: seq<Proc>, q: Quantity)
    requires i < |ys|
    ensures var rest := ys[..i] + ys[i + 1..];
      && Sum(ys, ps, q) == Sum([ys[i]], ps, q) + Sum(rest, ps, q)
      && Shown(ys, ps, q) == Shown([ys[i]], ps, q) + Shown(rest, ps, q)
      && HiddenRows(ys, ps) == HiddenRows([ys[i]], ps) + HiddenRows(rest, ps)
  {
    var a, x, b := ys[..i], [ys[i]], ys[i + 1..];
    assert ys == a + (x + b);
    SumConcat(a, x + b, ps, q);
    SumConcat(x, b, ps, q);
    SumConcat(a, b, ps, q);
    ShownConcat(a, x + b, ps, q);
    ShownConcat(x, b, ps, q);
    ShownConcat(a, b, ps, q);
  }

  /** Sums do not depend on the order of the rows. */
  lemma {:induction false} SumsPermute(xs: seq<nat>, ys: seq<nat>, ps: seq<Proc>, q: Quantity)
    requires multiset(xs) == multiset(ys)
    ensures Sum(xs, ps, q) == Sum(ys, ps, q) && Shown(xs, ps, q) == Shown(ys, ps, q)
    ensures HiddenRows(xs, ps) == HiddenRows(ys, ps)
    decreases |xs|
  {
    if xs == [] {
      assert |ys| == |multiset(ys)| == |multiset(xs)|;
    } else {
      var i := Matching(xs, ys);
      SumsPermute(xs[1..], ys[..i] + ys[i + 1..], ps, q);
      SumsWithout(ys, i, ps, q);
      SumsWithout(xs, 0, ps, q);
      assert xs[..0] + xs[1..] == xs[1..];
    }
  }

  // ----- the results -----

  /** A root has no ancestors. */
  lemma RootIsTop(ps: seq<Proc>, rank: seq<nat>, top: nat, r: nat, j: nat)
    requires Forest(ps, rank, top) && Rooted(ps) && r < |ps| && j < |ps|
    requires ps[r].ppid == ps[0].ppid && Above(ps, rank, top, j, r)
    ensures j == r
  {
    if j != r {
      var p :| 0 <= p < |ps| && ps[r].ppid == ps[p].pid && Above(ps, rank, top, j, p);
      RootRange(ps);
      var s := RootAbove(ps, rank, top, p);
      AboveRank(ps, rank, top, s, p);
    }
  }

  /** `k` has a collapsed proper ancestor. */
  ghost predicate BelowCollapsed(ps: seq<Proc>, rank: seq<nat>, top: nat, k: nat)
    requires Forest(ps, rank, top) && k < |ps|
  {
    exists j: nat :: j < |ps| && j != k && ps[j].collapsed && Above(ps, rank, top, j, k)
  }

  /**
   A process is hidden exactly when one of its proper ancestors is collapsed; without an update only if it
   has children besides.
   */
  lemma HiddenExactly(ps: seq<Proc>, rank: seq<nat>, top: nat, after: seq<Proc>, ts: seq<Tree>, mode: Mode, k: nat)
    requires Forest(ps, rank, top) && Rooted(ps) && ps != [] && |ts| == Roots(ps)
    requires RootsWalked(ps, rank, top, after, ts, mode) && k < |ps|
    ensures after[k].filtered <==> BelowCollapsed(ps, rank, top, k) && (!mode.noUpdate || HasChild(ps, k))
  {
    RootRange(ps);
    var r := RootAbove(ps, rank, top, k);
    assert ts[r] == TreeOf(ps, rank, top, r);
    if k == r {
      forall j: nat | j < |ps| && j != k ensures !Above(ps, rank, top, j, k) {
        if Above(ps, rank, top, j, k) { RootIsTop(ps, rank, top, k, j); }
      }
    } else {
      HiddenBelow(ps, rank, top, r, after, false, 0, r, k, mode);
      forall j: nat | j < |ps| && Above(ps, rank, top, j, k) ensures Above(ps, rank, top, r, j) {
        var s := RootAbove(ps, rank, top, j);
        AboveTransitive(ps, rank, top, s, j, k);
        if s != r { SiblingsDisjoint(ps, rank, top, r, s, k); }
      }
    }
  }
}
