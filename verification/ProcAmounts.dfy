/**
 What the walk means for the amounts shown: what an update loses, what aggregation adds up, and what a walk
 without an update changes.
 */
module ProcAmounts {
  import opened Collections
  import opened ProcTree
  import opened ProcTreeFacts

  // ----- an update: what the shown rows account for -----

  /** A subtree's amounts without those of dead processes whose parent folds them, and of all folded into those. */
  function Kept(t: Tree, ps: seq<Proc>, hides: bool, q: Quantity): real
    decreases t
  {
    if t.entry >= |ps| || (hides && ps[t.entry].dead) then 0.0
    else Amount(ps[t.entry], q) + KeptAll(t.children, ps, hides || ps[t.entry].collapsed, q)
  }

  function KeptAll(ts: seq<Tree>, ps: seq<Proc>, hides: bool, q: Quantity): real
    decreases ts
  {
    if ts == [] then 0.0 else Kept(ts[0], ps, hides, q) + KeptAll(ts[1..], ps, hides, q)
  }

  /** On an update, a folded process gathers all that is kept of its children, and any other gathers nothing. */
  lemma {:induction false} GatheredIsKept(ts: seq<Tree>, ps: seq<Proc>, hides: bool, q: Quantity)
    ensures GatheredAll(ts, ps, hides, UPDATE, q) == if hides then KeptAll(ts, ps, true, q) else 0.0
    decreases ts
  {
    if ts == [] {
    } else {
      GatheredIsKept(ts[1..], ps, hides, q);
      if hides { GatheredIsKept(ts[0].children, ps, true, q); }
    }
  }

  /** Walked siblings: hidden ones show nothing, shown ones show what is kept of them. */
  lemma {:induction false} SiblingsShow(ts: seq<Tree>, before: seq<Proc>, after: seq<Proc>, hides: bool, depth: nat,
                                        from: nat, q: Quantity)
    requires |after| == |before| && AllFrom(ts, before, after, hides, depth, from, UPDATE)
    ensures Shown(PreAll(ts), after, q) == if hides then 0.0 else KeptAll(ts, before, false, q)
    decreases ts
  {
    if ts == [] {
    } else {
      AllFromSplit(ts, before, after, hides, depth, from, UPDATE);
      SiblingsShow(ts[1..], before, after, hides, depth, from + 1, q);
      SubtreeShows(ts[0], before, after, hides, depth, from, q);
      ShownConcat(Pre(ts[0]), PreAll(ts[1..]), after, q);
    }
  }

  /** A walked and marked subtree. */
  lemma {:induction false} SubtreeShows(t: Tree, before: seq<Proc>, after: seq<Proc>, under: bool, depth: nat,
                                        slot: nat, q: Quantity)
    requires |after| == |before| && Walked(t, before, after, under, depth, slot, UPDATE)
    requires after[t.entry].filtered == under
    ensures Shown(Pre(t), after, q) == if under then 0.0 else Kept(t, before, false, q)
    decreases t
  {
    var hides := under || before[t.entry].collapsed;
    SiblingsShow(t.children, before, after, hides, depth + 1, 0, q);
    GatheredIsKept(t.children, before, hides, q);
    assert Pre(t)[1..] == PreAll(t.children);
    assert Amount(after[t.entry], q) == Gathered(t, before, under, UPDATE, q);
  }

  /** `k` is a dead process below a collapsed one, or below such a process. */
  ghost predicate Dropped(ps: seq<Proc>, rank: seq<nat>, top: nat, k: nat)
    requires Forest(ps, rank, top) && k < |ps|
  {
    exists j: nat :: j < |ps| && ps[j].dead && BelowCollapsed(ps, rank, top, j) && Above(ps, rank, top, j, k)
  }

  function Emptied(p: Proc): Proc {
    p.(mem := 0, threads := 0, cpuP := 0.0, cpuC := 0.0)
  }

  /** The list with the amounts of all dropped processes set to nothing. */
  ghost function Cleared(ps: seq<Proc>, rank: seq<nat>, top: nat): (r: seq<Proc>)
    requires Forest(ps, rank, top)
    ensures |r| == |ps|
    ensures forall k: nat :: k < |ps| ==> r[k] == if Dropped(ps, rank, top, k) then Emptied(ps[k]) else ps[k]
  {
    seq(|ps|, (k: nat) requires k < |ps| && Forest(ps, rank, top) =>
      if Dropped(ps, rank, top, k) then Emptied(ps[k]) else ps[k])
  }

  lemma {:induction false} NothingToSum(xs: seq<nat>, ps: seq<Proc>, q: Quantity)
    requires forall k :: k in xs && k < |ps| ==> Amount(ps[k], q) == 0.0
    ensures Sum(xs, ps, q) == 0.0
  {
    if xs == [] {
    } else {
      NothingToSum(xs[1..], ps, q);
    }
  }

  /** What is above a child, other than itself, is above its parent. */
  lemma AboveParent(ps: seq<Proc>, rank: seq<nat>, top: nat, i: nat, c: nat, j: nat)
    requires Forest(ps, rank, top) && i < |ps| && c < |ps| && j < |ps| && ps[c].ppid == ps[i].pid
    requires j != c && Above(ps, rank, top, j, c)
    ensures Above(ps, rank, top, j, i)
  {
    var m :| 0 <= m < |ps| && ps[c].ppid == ps[m].pid && Above(ps, rank, top, j, m);
    assert m == i;
  }

  lemma ChildBelowCollapsed(ps: seq<Proc>, rank: seq<nat>, top: nat, i: nat, c: nat)
    requires Forest(ps, rank, top) && i < |ps| && c < |ps| && ps[c].ppid == ps[i].pid
    ensures BelowCollapsed(ps, rank, top, c) <==> ps[i].collapsed || BelowCollapsed(ps, rank, top, i)
  {
    assert rank[i] < rank[c] && Above(ps, rank, top, i, i);
    assert Above(ps, rank, top, i, c);
    if BelowCollapsed(ps, rank, top, c) {
      var j: nat :| j < |ps| && j != c && ps[j].collapsed && Above(ps, rank, top, j, c);
      AboveParent(ps, rank, top, i, c, j);
    }
    if BelowCollapsed(ps, rank, top, i) {
      var j: nat :| j < |ps| && j != i && ps[j].collapsed && Above(ps, rank, top, j, i);
      AboveRank(ps, rank, top, j, i);
      assert Above(ps, rank, top, j, c);
    }
  }

  /** A process is dropped if its parent is, or if it is dead and folded away itself. */
  lemma ChildDropped(ps: seq<Proc>, rank: seq<nat>, top: nat, i: nat, c: nat)
    requires Forest(ps, rank, top) && i < |ps| && c < |ps| && ps[c].ppid == ps[i].pid
    ensures Dropped(ps, rank, top, c)
       <==> Dropped(ps, rank, top, i) || (ps[c].dead && BelowCollapsed(ps, rank, top, c))
  {
    assert Above(ps, rank, top, c, c);
    if Dropped(ps, rank, top, c) {
      var j: nat :| j < |ps| && ps[j].dead && BelowCollapsed(ps, rank, top, j) && Above(ps, rank, top, j, c);
      if j != c { AboveParent(ps, rank, top, i, c, j); }
    }
    if Dropped(ps, rank, top, i) {
      var j: nat :| j < |ps| && ps[j].dead && BelowCollapsed(ps, rank, top, j) && Above(ps, rank, top, j, i);
      assert Above(ps, rank, top, j, c);
    }
  }

  lemma DroppedSum(ps: seq<Proc>, rank: seq<nat>, top: nat, i: nat, q: Quantity)
    requires Forest(ps, rank, top) && i < |ps| && ps[i].dead && BelowCollapsed(ps, rank, top, i)
    ensures Sum(Pre(TreeOf(ps, rank, top, i)), Cleared(ps, rank, top), q) == 0.0
  {
    forall k | k in Pre(TreeOf(ps, rank, top, i)) && k < |ps| ensures Amount(Cleared(ps, rank, top)[k], q) == 0.0 {
      PreIsBelow(ps, rank, top, i, k);
      assert Dropped(ps, rank, top, k);
    }
    NothingToSum(Pre(TreeOf(ps, rank, top, i)), Cleared(ps, rank, top), q);
  }

  lemma {:induction false} KeptAllSums(ts: seq<Tree>, ps: seq<Proc>, cleared: seq<Proc>, hides: bool, q: Quantity)
    requires forall m :: 0 <= m < |ts| ==> Kept(ts[m], ps, hides, q) == Sum(Pre(ts[m]), cleared, q)
    ensures KeptAll(ts, ps, hides, q) == Sum(PreAll(ts), cleared, q)
  {
    if ts == [] {
    } else {
      assert forall m :: 0 <= m < |ts[1..]| ==> ts[1..][m] == ts[m + 1];
      KeptAllSums(ts[1..], ps, cleared, hides, q);
      SumConcat(Pre(ts[0]), PreAll(ts[1..]), cleared, q);
    }
  }

  lemma ChildNumber(ps: seq<Proc>, rank: seq<nat>, top: nat, i: nat, m: nat) returns (c: nat)
    requires Forest(ps, rank, top) && i < |ps| && m < |TreeOf(ps, rank, top, i).children|
    ensures c < |ps| && rank[i] < rank[c] && ps[c].ppid == ps[i].pid
    ensures TreeOf(ps, rank, top, i).children[m] == TreeOf(ps, rank, top, c)
  {
    ChildRange(ps, i);
    ChildAt(ps, rank, top, i, First(ps, i), m);
    c := First(ps, i) + m;
  }

  /** What holds of child number `m` when its parent is not dropped. */
  lemma ChildKeeps(ps: seq<Proc>, rank: seq<nat>, top: nat, i: nat, m: nat, hides: bool) returns (c: nat)
    requires Forest(ps, rank, top) && i < |ps| && m < |TreeOf(ps, rank, top, i).children|
    requires (hides <==> ps[i].collapsed || BelowCollapsed(ps, rank, top, i)) && !Dropped(ps, rank, top, i)
    ensures c < |ps| && rank[i] < rank[c] && TreeOf(ps, rank, top, i).children[m] == TreeOf(ps, rank, top, c)
    ensures (hides <==> BelowCollapsed(ps, rank, top, c)) && (Dropped(ps, rank, top, c) ==> ps[c].dead && hides)
  {
    c := ChildNumber(ps, rank, top, i, m);
    ChildBelowCollapsed(ps, rank, top, i, c);
    ChildDropped(ps, rank, top, i, c);
  }

  /** What is kept of a subtree is the sum over its processes that are not dropped. */
  lemma {:induction false} KeptIsSum(ps: seq<Proc>, rank: seq<nat>, top: nat, i: nat, hides: bool, q: Quantity)
    requires Forest(ps, rank, top) && i < |ps| && (hides <==> BelowCollapsed(ps, rank, top, i))
    requires Dropped(ps, rank, top, i) ==> ps[i].dead && hides
    ensures Kept(TreeOf(ps, rank, top, i), ps, hides, q)
         == Sum(Pre(TreeOf(ps, rank, top, i)), Cleared(ps, rank, top), q)
    decreases top - rank[i]
  {
    var t, cleared := TreeOf(ps, rank, top, i), Cleared(ps, rank, top);
    if hides && ps[i].dead {
      DroppedSum(ps, rank, top, i, q);
    } else {
      var folds := hides || ps[i].collapsed;
      forall m | 0 <= m < |t.children|
        ensures Kept(t.children[m], ps, folds, q) == Sum(Pre(t.children[m]), cleared, q)
      {
        var c := ChildKeeps(ps, rank, top, i, m, folds);
        KeptIsSum(ps, rank, top, c, folds, q);
      }
      KeptAllSums(t.children, ps, cleared, folds, q);
      assert Pre(t)[0] == i && Pre(t)[1..] == PreAll(t.children);
    }
  }

  lemma RootKept(ps: seq<Proc>, rank: seq<nat>, top: nat, r: nat, q: Quantity)
    requires Forest(ps, rank, top) && Rooted(ps) && ps != [] && r < Roots(ps) <= |ps|
    ensures Kept(TreeOf(ps, rank, top, r), ps, false, q)
         == Sum(Pre(TreeOf(ps, rank, top, r)), Cleared(ps, rank, top), q)
  {
    RootRange(ps);
    forall j: nat | j < |ps| && Above(ps, rank, top, j, r) ensures j == r { RootIsTop(ps, rank, top, r, j); }
    KeptIsSum(ps, rank, top, r, false, q);
  }

  /** After an update the shown rows account for every process that is not dropped. */
  lemma ShownAreKept(ps: seq<Proc>, rank: seq<nat>, top: nat, after: seq<Proc>, ts: seq<Tree>, q: Quantity)
    requires Forest(ps, rank, top) && Rooted(ps) && ps != [] && |ts| == Roots(ps)
    requires RootsWalked(ps, rank, top, after, ts, UPDATE)
    ensures Shown(Positions(|ps|), after, q) == Sum(Positions(|ps|), Cleared(ps, rank, top), q)
  {
    RootRange(ps);
    TreesHoldAll(ps, rank, top, ts);
    SumsPermute(PreAll(ts), Positions(|ps|), Cleared(ps, rank, top), q);
    SumsPermute(PreAll(ts), Positions(|ps|), after, q);
    SiblingsShow(ts, ps, after, false, 0, 0, q);
    forall r | 0 <= r < |ts| ensures Kept(ts[r], ps, false, q) == Sum(Pre(ts[r]), Cleared(ps, rank, top), q) {
      RootKept(ps, rank, top, r, q);
    }
    KeptAllSums(ts, ps, Cleared(ps, rank, top), false, q);
  }

  lemma {:induction false} SumsAgreeIff(xs: seq<nat>, a: seq<Proc>, b: seq<Proc>, q: Quantity)
    requires |a| == |b| && forall k :: 0 <= k < |a| ==> Amount(a[k], q) <= Amount(b[k], q)
    ensures Sum(xs, a, q) <= Sum(xs, b, q)
    ensures Sum(xs, a, q) == Sum(xs, b, q) <==> forall k :: k in xs && k < |a| ==> Amount(a[k], q) == Amount(b[k], q)
  {
    if xs == [] {
    } else {
      SumsAgreeIff(xs[1..], a, b, q);
      assert forall k :: k in xs <==> k == xs[0] || k in xs[1..];
    }
  }

  /** An update loses nothing exactly when no dropped process has anything to lose. */
  lemma NothingIsLostIff(ps: seq<Proc>, rank: seq<nat>, top: nat, after: seq<Proc>, ts: seq<Tree>, q: Quantity)
    requires Forest(ps, rank, top) && Rooted(ps) && ps != [] && |ts| == Roots(ps)
    requires RootsWalked(ps, rank, top, after, ts, UPDATE)
    requires forall k :: 0 <= k < |ps| ==> Amount(ps[k], q) >= 0.0
    ensures Shown(Positions(|ps|), after, q) == Sum(Positions(|ps|), ps, q)
       <==> forall k: nat :: k < |ps| && Dropped(ps, rank, top, k) ==> Amount(ps[k], q) == 0.0
  {
    ShownAreKept(ps, rank, top, after, ts, q);
    SumsAgreeIff(Positions(|ps|), Cleared(ps, rank, top), ps, q);
    forall k: nat | k < |ps| ensures k in Positions(|ps|) { assert Positions(|ps|)[k] == k; }
  }

  /** With no dead process below a collapsed one, the shown rows add up to all processes. */
  lemma NothingIsLost(ps: seq<Proc>, rank: seq<nat>, top: nat, after: seq<Proc>, ts: seq<Tree>, q: Quantity)
    requires Forest(ps, rank, top) && Rooted(ps) && ps != [] && |ts| == Roots(ps)
    requires RootsWalked(ps, rank, top, after, ts, UPDATE)
    requires forall k: nat :: k < |ps| && ps[k].dead ==> !BelowCollapsed(ps, rank, top, k)
    ensures Shown(Positions(|ps|), after, q) == Sum(Positions(|ps|), ps, q)
  {
    ShownAreKept(ps, rank, top, after, ts, q);
    assert Cleared(ps, rank, top) == ps;
  }

  // ----- aggregation -----

  /** Every process carries what it gathered in its own subtree. */
  lemma {:induction false} CarriedBelow(ps: seq<Proc>, rank: seq<nat>, top: nat, i: nat, after: seq<Proc>, under: bool,
                                        depth: nat, slot: nat, k: nat, mode: Mode) returns (u: bool)
    requires Forest(ps, rank, top) && i < |ps| && |after| == |ps| && k < |ps|
    requires Walked(TreeOf(ps, rank, top, i), ps, after, under, depth, slot, mode) && Above(ps, rank, top, i, k)
    ensures Carries(TreeOf(ps, rank, top, k), ps, after, u, mode)
    decreases top - rank[i]
  {
    if k == i {
      u := under;
    } else {
      var c, j := ChildToward(ps, rank, top, i, k);
      u := CarriedBelow(ps, rank, top, c, after, under || ps[i].collapsed, depth + 1, j, k, mode);
    }
  }

  lemma Carried(ps: seq<Proc>, rank: seq<nat>, top: nat, after: seq<Proc>, ts: seq<Tree>, k: nat, mode: Mode)
    returns (u: bool)
    requires Forest(ps, rank, top) && Rooted(ps) && ps != [] && |ts| == Roots(ps)
    requires RootsWalked(ps, rank, top, after, ts, mode) && k < |ps|
    ensures Carries(TreeOf(ps, rank, top, k), ps, after, u, mode)
  {
    var r := RootAbove(ps, rank, top, k);
    assert ts[r] == TreeOf(ps, rank, top, r);
    u := CarriedBelow(ps, rank, top, r, after, false, 0, r, k, mode);
  }

  /** The first tree's root and children and the other trees are parts of the whole. */
  lemma PartsOf(ts: seq<Tree>)
    requires ts != []
    ensures ts[0].entry in PreAll(ts)
    ensures forall k :: k in PreAll(ts[0].children) || k in PreAll(ts[1..]) ==> k in PreAll(ts)
  {
    assert PreAll(ts) == Pre(ts[0]) + PreAll(ts[1..]);
    assert Pre(ts[0]) == [ts[0].entry] + PreAll(ts[0].children);
    assert Pre(ts[0])[0] == ts[0].entry;
  }

  /** What is below `k` in its tree, other than itself. */
  lemma BelowProper(ps: seq<Proc>, rank: seq<nat>, top: nat, k: nat)
    requires Forest(ps, rank, top) && k < |ps|
    ensures forall j :: j in PreAll(TreeOf(ps, rank, top, k).children) ==>
      j < |ps| && j != k && Above(ps, rank, top, k, j)
  {
    var t := TreeOf(ps, rank, top, k);
    NotBelowItself(ps, rank, top, k);
    forall j | j in PreAll(t.children) ensures j < |ps| && j != k && Above(ps, rank, top, k, j) {
      assert Pre(t)[1..] == PreAll(t.children);
      PreIsBelow(ps, rank, top, k, j);
    }
  }

  /** A dead process below `k`, other than itself, stands between `k` and `j` or is `j`. */
  ghost predicate Severed(ps: seq<Proc>, rank: seq<nat>, top: nat, k: nat, j: nat)
    requires Forest(ps, rank, top) && k < |ps| && j < |ps|
  {
    exists d: nat :: d < |ps| && d != k && ps[d].dead && Above(ps, rank, top, k, d) && Above(ps, rank, top, d, j)
  }

  /** The list with the amounts of all processes severed from `k` set to nothing. */
  ghost function Joined(ps: seq<Proc>, rank: seq<nat>, top: nat, k: nat): (r: seq<Proc>)
    requires Forest(ps, rank, top) && k < |ps|
    ensures |r| == |ps|
    ensures forall j: nat :: j < |ps| ==> r[j] == if Severed(ps, rank, top, k, j) then Emptied(ps[j]) else ps[j]
  {
    seq(|ps|, (j: nat) requires j < |ps| && k < |ps| && Forest(ps, rank, top) =>
      if Severed(ps, rank, top, k, j) then Emptied(ps[j]) else ps[j])
  }

  lemma ChildSevered(ps: seq<Proc>, rank: seq<nat>, top: nat, k: nat, i: nat, c: nat)
    requires Forest(ps, rank, top) && k < |ps| && i < |ps| && c < |ps|
    requires ps[c].ppid == ps[i].pid && Above(ps, rank, top, k, i)
    ensures Above(ps, rank, top, k, c)
    ensures Severed(ps, rank, top, k, c) <==> Severed(ps, rank, top, k, i) || ps[c].dead
  {
    AboveRank(ps, rank, top, k, i);
    assert Above(ps, rank, top, c, c);
    if Severed(ps, rank, top, k, c) {
      var d: nat :| d < |ps| && d != k && ps[d].dead && Above(ps, rank, top, k, d) && Above(ps, rank, top, d, c);
      if d != c { AboveParent(ps, rank, top, i, c, d); }
    }
    if Severed(ps, rank, top, k, i) {
      var d: nat :| d < |ps| && d != k && ps[d].dead && Above(ps, rank, top, k, d) && Above(ps, rank, top, d, i);
      assert Above(ps, rank, top, d, c);
    }
  }

  /** What is below a severed process is severed. */
  lemma SeveredBelow(ps: seq<Proc>, rank: seq<nat>, top: nat, k: nat, i: nat, j: nat)
    requires Forest(ps, rank, top) && k < |ps| && i < |ps| && j < |ps|
    requires Severed(ps, rank, top, k, i) && Above(ps, rank, top, i, j)
    ensures Severed(ps, rank, top, k, j)
  {
    var d: nat :| d < |ps| && d != k && ps[d].dead && Above(ps, rank, top, k, d) && Above(ps, rank, top, d, i);
    AboveTransitive(ps, rank, top, d, i, j);
  }

  lemma SeveredSum(ps: seq<Proc>, rank: seq<nat>, top: nat, k: nat, i: nat, q: Quantity)
    requires Forest(ps, rank, top) && k < |ps| && i < |ps| && Severed(ps, rank, top, k, i)
    ensures Sum(Pre(TreeOf(ps, rank, top, i)), Joined(ps, rank, top, k), q) == 0.0
  {
    forall j | j in Pre(TreeOf(ps, rank, top, i)) && j < |ps| ensures Amount(Joined(ps, rank, top, k)[j], q) == 0.0 {
      PreIsBelow(ps, rank, top, i, j);
      SeveredBelow(ps, rank, top, k, i, j);
    }
    NothingToSum(Pre(TreeOf(ps, rank, top, i)), Joined(ps, rank, top, k), q);
  }

  /** What a parent takes over from one child. */
  function TakenFrom(t: Tree, ps: seq<Proc>, hides: bool, mode: Mode, q: Quantity): real {
    if t.entry < |ps| && Takes(ps[t.entry], hides, mode) then Gathered(t, ps, hides, mode, q) else 0.0
  }

  lemma {:induction false} GatheredAllSums(ts: seq<Tree>, ps: seq<Proc>, joined: seq<Proc>, hides: bool, mode: Mode,
                                           q: Quantity)
    requires forall m :: 0 <= m < |ts| ==> TakenFrom(ts[m], ps, hides, mode, q) == Sum(Pre(ts[m]), joined, q)
    ensures GatheredAll(ts, ps, hides, mode, q) == Sum(PreAll(ts), joined, q)
  {
    if ts == [] {
    } else {
      assert forall m :: 0 <= m < |ts[1..]| ==> ts[1..][m] == ts[m + 1];
      GatheredAllSums(ts[1..], ps, joined, hides, mode, q);
      SumConcat(Pre(ts[0]), PreAll(ts[1..]), joined, q);
    }
  }

  /** With aggregation, what reaches `i` from below also reaches every `k` above it that `i` is not severed from. */
  lemma {:induction false} GatheredIsSum(ps: seq<Proc>, rank: seq<nat>, top: nat, k: nat, i: nat, under: bool,
                                         mode: Mode, q: Quantity)
    requires Forest(ps, rank, top) && k < |ps| && i < |ps| && mode.aggregate
    requires Above(ps, rank, top, k, i) && !Severed(ps, rank, top, k, i)
    ensures Gathered(TreeOf(ps, rank, top, i), ps, under, mode, q)
         == Sum(Pre(TreeOf(ps, rank, top, i)), Joined(ps, rank, top, k), q)
    decreases top - rank[i]
  {
    var t, joined, hides := TreeOf(ps, rank, top, i), Joined(ps, rank, top, k), under || ps[i].collapsed;
    forall m | 0 <= m < |t.children|
      ensures TakenFrom(t.children[m], ps, hides, mode, q) == Sum(Pre(t.children[m]), joined, q)
    {
      var c := ChildNumber(ps, rank, top, i, m);
      ChildSevered(ps, rank, top, k, i, c);
      if ps[c].dead { SeveredSum(ps, rank, top, k, c, q); } else { GatheredIsSum(ps, rank, top, k, c, hides, mode, q); }
    }
    GatheredAllSums(t.children, ps, joined, hides, mode, q);
    assert Pre(t)[0] == i && Pre(t)[1..] == PreAll(t.children);
  }

  lemma NotSeveredFromItself(ps: seq<Proc>, rank: seq<nat>, top: nat, k: nat)
    requires Forest(ps, rank, top) && k < |ps|
    ensures Above(ps, rank, top, k, k) && !Severed(ps, rank, top, k, k)
  {
    forall d: nat | d < |ps| && d != k && Above(ps, rank, top, k, d) ensures !Above(ps, rank, top, d, k) {
      AboveRank(ps, rank, top, k, d);
      if Above(ps, rank, top, d, k) { AboveRank(ps, rank, top, d, k); }
    }
  }

  /**
   With aggregation, a process shows the total of itself and everything below it, collapsed or not, except what a
   dead process severs from it.
   */
  lemma AggregateTotals(ps: seq<Proc>, rank: seq<nat>, top: nat, after: seq<Proc>, ts: seq<Tree>, k: nat, mode: Mode,
                        q: Quantity)
    requires Forest(ps, rank, top) && Rooted(ps) && ps != [] && |ts| == Roots(ps)
    requires RootsWalked(ps, rank, top, after, ts, mode) && k < |ps| && mode.aggregate
    ensures Amount(after[k], q) == Sum(Pre(TreeOf(ps, rank, top, k)), Joined(ps, rank, top, k), q)
  {
    var u := Carried(ps, rank, top, after, ts, k, mode);
    NotSeveredFromItself(ps, rank, top, k);
    GatheredIsSum(ps, rank, top, k, k, u, mode, q);
  }

  // ----- walks without an update -----

  lemma {:induction false} NothingGathered(ts: seq<Tree>, ps: seq<Proc>, hides: bool, q: Quantity)
    ensures GatheredAll(ts, ps, hides, Mode(true, false), q) == 0.0
  {
    if ts == [] {
    } else {
      NothingGathered(ts[1..], ps, hides, q);
    }
  }

  /** Without an update and without aggregation no process takes anything over. */
  lemma AmountsStay(ps: seq<Proc>, rank: seq<nat>, top: nat, after: seq<Proc>, ts: seq<Tree>, k: nat, q: Quantity)
    requires Forest(ps, rank, top) && Rooted(ps) && ps != [] && |ts| == Roots(ps)
    requires RootsWalked(ps, rank, top, after, ts, Mode(true, false)) && k < |ps|
    ensures Amount(after[k], q) == Amount(ps[k], q)
  {
    var u := Carried(ps, rank, top, after, ts, k, Mode(true, false));
    NothingGathered(TreeOf(ps, rank, top, k).children, ps, u || ps[k].collapsed, q);
  }

  lemma {:induction false} GatheredGrows(ts: seq<Tree>, ps: seq<Proc>, hides: bool, mode: Mode, q: Quantity)
    requires forall k :: 0 <= k < |ps| ==> Amount(ps[k], q) >= 0.0
    ensures GatheredAll(ts, ps, hides, mode, q) >= 0.0
    ensures forall m :: 0 <= m < |ts| && ts[m].entry < |ps| && Takes(ps[ts[m].entry], hides, mode) ==>
      Amount(ps[ts[m].entry], q) <= GatheredAll(ts, ps, hides, mode, q)
    decreases ts
  {
    if ts == [] {
    } else {
      GatheredGrows(ts[1..], ps, hides, mode, q);
      if ts[0].entry < |ps| {
        GatheredGrows(ts[0].children, ps, hides || ps[ts[0].entry].collapsed, mode, q);
      }
      forall m | 0 < m < |ts| ensures ts[1..][m - 1] == ts[m] {}
    }
  }

  lemma {:induction false} IdleGathered(ts: seq<Tree>, ps: seq<Proc>, hides: bool, mode: Mode, q: Quantity)
    requires forall k :: k in PreAll(ts) && k < |ps| && !ps[k].dead ==> Amount(ps[k], q) == 0.0
    ensures GatheredAll(ts, ps, hides, mode, q) == 0.0
    decreases ts
  {
    if ts == [] {
    } else {
      var t := ts[0];
      PartsOf(ts);
      IdleGathered(ts[1..], ps, hides, mode, q);
      if t.entry < |ps| { IdleGathered(t.children, ps, hides || ps[t.entry].collapsed, mode, q); }
    }
  }

  predicate HasParent(ps: seq<Proc>, k: nat)
    requires k < |ps|
  {
    exists j :: 0 <= j < |ps| && ps[k].ppid == ps[j].pid
  }

  /** A walk that aggregates leaves the amounts alone exactly when no living process has any for its parent. */
  lemma AggregateStaysIff(ps: seq<Proc>, rank: seq<nat>, top: nat, after: seq<Proc>, ts: seq<Tree>, noUpdate: bool,
                          q: Quantity)
    requires Forest(ps, rank, top) && Rooted(ps) && ps != [] && |ts| == Roots(ps)
    requires RootsWalked(ps, rank, top, after, ts, Mode(noUpdate, true))
    requires forall k :: 0 <= k < |ps| ==> Amount(ps[k], q) >= 0.0
    ensures (forall k: nat :: k < |ps| ==> Amount(after[k], q) == Amount(ps[k], q))
       <==> (forall k: nat :: k < |ps| && !ps[k].dead && HasParent(ps, k) ==> Amount(ps[k], q) == 0.0)
  {
    var mode := Mode(noUpdate, true);
    if forall k: nat :: k < |ps| ==> Amount(after[k], q) == Amount(ps[k], q) {
      forall k: nat | k < |ps| && !ps[k].dead && HasParent(ps, k) ensures Amount(ps[k], q) == 0.0 {
        var j: nat :| j < |ps| && ps[k].ppid == ps[j].pid;
        TakenByParent(ps, rank, top, after, ts, j, k, mode, q);
      }
    }
    if forall k: nat :: k < |ps| && !ps[k].dead && HasParent(ps, k) ==> Amount(ps[k], q) == 0.0 {
      forall k: nat | k < |ps| ensures Amount(after[k], q) == Amount(ps[k], q) {
        var u := Carried(ps, rank, top, after, ts, k, mode);
        BelowHaveParents(ps, rank, top, k);
        IdleGathered(TreeOf(ps, rank, top, k).children, ps, u || ps[k].collapsed, mode, q);
      }
    }
  }

  lemma TakenByParent(ps: seq<Proc>, rank: seq<nat>, top: nat, after: seq<Proc>, ts: seq<Tree>, j: nat, k: nat,
                      mode: Mode, q: Quantity)
    requires Forest(ps, rank, top) && Rooted(ps) && ps != [] && |ts| == Roots(ps)
    requires RootsWalked(ps, rank, top, after, ts, mode) && j < |ps| && k < |ps| && mode.aggregate
    requires ps[k].ppid == ps[j].pid && !ps[k].dead && forall i :: 0 <= i < |ps| ==> Amount(ps[i], q) >= 0.0
    ensures Amount(after[j], q) >= Amount(ps[j], q) + Amount(ps[k], q)
  {
    var u := Carried(ps, rank, top, after, ts, j, mode);
    var m := ChildPlace(ps, rank, top, j, k);
    GatheredGrows(TreeOf(ps, rank, top, j).children, ps, u || ps[j].collapsed, mode, q);
  }

  lemma ChildPlace(ps: seq<Proc>, rank: seq<nat>, top: nat, j: nat, k: nat) returns (m: nat)
    requires Forest(ps, rank, top) && j < |ps| && k < |ps| && ps[k].ppid == ps[j].pid
    ensures m < |TreeOf(ps, rank, top, j).children| && TreeOf(ps, rank, top, j).children[m].entry == k
  {
    ChildRange(ps, j);
    m := k - First(ps, j);
    ChildAt(ps, rank, top, j, First(ps, j), m);
  }

  lemma BelowHaveParents(ps: seq<Proc>, rank: seq<nat>, top: nat, k: nat)
    requires Forest(ps, rank, top) && k < |ps|
    ensures forall j :: j in PreAll(TreeOf(ps, rank, top, k).children) ==> j < |ps| && HasParent(ps, j)
  {
    BelowProper(ps, rank, top, k);
    forall j | j in PreAll(TreeOf(ps, rank, top, k).children) ensures j < |ps| && HasParent(ps, j) {
      var m :| 0 <= m < |ps| && ps[j].ppid == ps[m].pid && Above(ps, rank, top, k, m);
    }
  }
}
