/** The arranged trees in terms of the list: who stands below whom, how deep, and how equal siblings are placed. */
module ProcFamilies {
  import opened ProcTree
  import opened ProcTreeFacts
  import opened ProcRanks
  import opened TreeSorting

  // ----- who stands below whom -----

  /** Whatever stands directly below a process is its child. */
  ghost predicate ChildrenBelow(ps: seq<Proc>, t: Tree)
    decreases t
  {
    && t.entry < |ps|
    && forall j :: 0 <= j < |t.children| ==>
         && ChildrenBelow(ps, t.children[j])
         && ps[t.children[j].entry].ppid == ps[t.entry].pid
  }

  /** The trees of a list: at the top stand processes whose parent is that of the first one. */
  ghost predicate Families(ps: seq<Proc>, ts: seq<Tree>) {
    forall j :: 0 <= j < |ts| ==> ChildrenBelow(ps, ts[j]) && ps[ts[j].entry].ppid == ps[0].ppid
  }

  lemma {:induction false} WalkedFamily(ps: seq<Proc>, rank: seq<nat>, top: nat, i: nat)
    requires Forest(ps, rank, top) && i < |ps|
    ensures ChildrenBelow(ps, TreeOf(ps, rank, top, i))
    decreases top - rank[i]
  {
    var t := TreeOf(ps, rank, top, i);
    ChildRange(ps, i);
    forall j | 0 <= j < |t.children|
      ensures ChildrenBelow(ps, t.children[j]) && ps[t.children[j].entry].ppid == ps[i].pid
    {
      ChildAt(ps, rank, top, i, First(ps, i), j);
      WalkedFamily(ps, rank, top, First(ps, i) + j);
    }
  }

  /** Sorting siblings leaves everyone below the same process, whatever list the amounts are read from. */
  lemma {:induction false} SortedFamily(ps: seq<Proc>, keys: seq<Proc>, order: Order, t: Tree)
    requires ChildrenBelow(ps, t)
    ensures ChildrenBelow(ps, SortTree(keys, order, t))
    decreases t
  {
    var kids := SortTrees(keys, order, t.children);
    assert SortTree(keys, order, t) == Node(t.entry, kids);
    forall j | 0 <= j < |kids| ensures ChildrenBelow(ps, kids[j]) && ps[kids[j].entry].ppid == ps[t.entry].pid {
      var i := SortedRoot(keys, order, t.children, j);
      SortedFamily(ps, keys, order, t.children[i]);
    }
  }

  /** The trees of the walk, sorted, are the families of the list. */
  lemma SortedFamilies(ps: seq<Proc>, rank: seq<nat>, top: nat, keys: seq<Proc>, order: Order, ts: seq<Tree>)
    requires Forest(ps, rank, top) && ps != [] && |ts| == Roots(ps) <= |ps|
    requires forall j :: 0 <= j < |ts| ==> ts[j] == TreeOf(ps, rank, top, j)
    ensures Families(ps, SortTrees(keys, order, ts))
  {
    var r := SortTrees(keys, order, ts);
    RootRange(ps);
    forall j | 0 <= j < |r| ensures ChildrenBelow(ps, r[j]) && ps[r[j].entry].ppid == ps[0].ppid {
      var i := SortedRoot(keys, order, ts, j);
      WalkedFamily(ps, rank, top, i);
      SortedFamily(ps, keys, order, ts[i]);
    }
  }

  // ----- equal siblings -----

  predicate Ascending(ts: seq<Tree>) {
    forall i, j :: 0 <= i < j < |ts| ==> ts[i].entry < ts[j].entry
  }

  /** Siblings stand in list order, at every level. */
  ghost predicate Listed(ts: seq<Tree>)
    decreases ts
  {
    && Ascending(ts)
    && (forall i :: 0 <= i < |ts| ==> Listed(ts[i].children))
  }

  /** Siblings that might as well stand the other way round are in list order, at every level. */
  ghost predicate LevelsStable(ps: seq<Proc>, order: Order, ts: seq<Tree>)
    decreases ts
  {
    && (forall i :: 0 <= i < |ts| ==> ts[i].entry < |ps|)
    && (forall i, j :: 0 <= i < j < |ts| && MayPrecede(order, ps[ts[j].entry], ps[ts[i].entry]) ==>
          ts[i].entry < ts[j].entry)
    && (forall i :: 0 <= i < |ts| ==> LevelsStable(ps, order, ts[i].children))
  }

  lemma {:induction false} WalkedListed(ps: seq<Proc>, rank: seq<nat>, top: nat, i: nat)
    requires Forest(ps, rank, top) && i < |ps|
    ensures Listed(TreeOf(ps, rank, top, i).children)
    decreases top - rank[i]
  {
    var kids := TreeOf(ps, rank, top, i).children;
    ChildRange(ps, i);
    forall j | 0 <= j < |kids| ensures kids[j].entry == First(ps, i) + j && Listed(kids[j].children) {
      ChildAt(ps, rank, top, i, First(ps, i), j);
      WalkedListed(ps, rank, top, First(ps, i) + j);
    }
  }

  lemma TiesStep(ps: seq<Proc>, order: Order, u: Tree, ts: seq<Tree>)
    requires ts != []
    ensures var rest := Ties(ps, order, u, ts[1..]);
      Ties(ps, order, u, ts) == if Tie(ps, order, u, ts[0]) then [ts[0]] + rest else rest
  {
  }

  /** All of these stand behind position `n` of the list. */
  predicate Behind(ts: seq<Tree>, n: nat) {
    forall k :: 0 <= k < |ts| ==> n < ts[k].entry
  }

  lemma {:induction false} TiesBehind(ps: seq<Proc>, order: Order, u: Tree, ts: seq<Tree>, n: nat)
    requires Behind(ts, n)
    ensures Behind(Ties(ps, order, u, ts), n)
  {
    if ts == [] {
    } else {
      TiesBehind(ps, order, u, ts[1..], n);
      TiesStep(ps, order, u, ts);
    }
  }

  lemma LowestFirst(t: Tree, rest: seq<Tree>)
    requires Ascending(rest) && Behind(rest, t.entry)
    ensures Ascending([t] + rest)
  {
    var s := [t] + rest;
    forall i, j | 0 <= i < j < |s| ensures s[i].entry < s[j].entry {
      assert s[j] == rest[j - 1];
      if i > 0 { assert s[i] == rest[i - 1]; }
    }
  }

  lemma {:induction false} TiesListed(ps: seq<Proc>, order: Order, u: Tree, ts: seq<Tree>)
    requires Ascending(ts)
    ensures Ascending(Ties(ps, order, u, ts))
  {
    if ts == [] {
    } else {
      TiesListed(ps, order, u, ts[1..]);
      TiesBehind(ps, order, u, ts[1..], ts[0].entry);
      LowestFirst(ts[0], Ties(ps, order, u, ts[1..]));
      TiesStep(ps, order, u, ts);
    }
  }

  /** Two elements tied with `u` stand in the same order among all that are. */
  lemma {:induction false} TiesPlaces(ps: seq<Proc>, order: Order, u: Tree, ts: seq<Tree>, i: nat, j: nat)
    returns (p: nat, q: nat)
    requires i < j < |ts| && Tie(ps, order, u, ts[i]) && Tie(ps, order, u, ts[j])
    ensures var s := Ties(ps, order, u, ts); p < q < |s| && s[p] == ts[i] && s[q] == ts[j]
  {
    if i > 0 {
      var first := if Tie(ps, order, u, ts[0]) then 1 else 0;
      p, q := TiesPlaces(ps, order, u, ts[1..], i - 1, j - 1);
      p, q := p + first, q + first;
    } else {
      q := TiePlace(ps, order, u, ts[1..], j - 1);
      assert Ties(ps, order, u, ts) == [ts[0]] + Ties(ps, order, u, ts[1..]);
      p, q := 0, q + 1;
    }
  }

  lemma {:induction false} TiePlace(ps: seq<Proc>, order: Order, u: Tree, ts: seq<Tree>, j: nat) returns (q: nat)
    requires j < |ts| && Tie(ps, order, u, ts[j])
    ensures q < |Ties(ps, order, u, ts)| && Ties(ps, order, u, ts)[q] == ts[j]
  {
    if j == 0 {
      q := 0;
    } else {
      q := TiePlace(ps, order, u, ts[1..], j - 1);
      q := q + if Tie(ps, order, u, ts[0]) then 1 else 0;
    }
  }

  /** The library sort leaves tied siblings in list order. */
  lemma TiedStay(ps: seq<Proc>, order: Order, ts: seq<Tree>, i: nat, j: nat)
    requires Ascending(ts)
    requires var r := StableSort(ps, order, ts); i < j < |r| && Tie(ps, order, r[i], r[j])
    ensures var r := StableSort(ps, order, ts); r[i].entry < r[j].entry
  {
    var r := StableSort(ps, order, ts);
    SortIsStable(ps, order, r[i], ts);
    TiesListed(ps, order, r[i], ts);
    var p, q := TiesPlaces(ps, order, r[i], r, i, j);
  }

  lemma BothWaysIsTie(ps: seq<Proc>, order: Order, t: Tree, u: Tree)
    requires t.entry < |ps| && u.entry < |ps|
    ensures Tie(ps, order, t, u) <==>
      MayPrecede(order, ps[t.entry], ps[u.entry]) && MayPrecede(order, ps[u.entry], ps[t.entry])
  {
  }

  /** One sorted level of the trees. */
  lemma LevelStable(ps: seq<Proc>, order: Order, ts: seq<Tree>)
    requires Within(PreAll(ts), |ps|) && Ascending(ts)
    ensures var r := SortTrees(ps, order, ts); forall i, j :: 0 <= i < j < |r| ==>
      r[i].entry < |ps| && r[j].entry < |ps|
      && (MayPrecede(order, ps[r[j].entry], ps[r[i].entry]) ==> r[i].entry < r[j].entry)
  {
    var each, r := SortEach(ps, order, ts), SortTrees(ps, order, ts);
    forall k | 0 <= k < |ts| ensures each[k].entry == ts[k].entry { SortEachAt(ps, order, ts, k); }
    SortedLevels(ps, order, ts);
    forall i, j | 0 <= i < j < |r| && MayPrecede(order, ps[r[j].entry], ps[r[i].entry])
      ensures r[i].entry < r[j].entry
    {
      BothWaysIsTie(ps, order, r[i], r[j]);
      TiedStay(ps, order, each, i, j);
    }
  }

  lemma {:induction false} SortedStable(ps: seq<Proc>, order: Order, ts: seq<Tree>)
    requires Within(PreAll(ts), |ps|) && Listed(ts)
    ensures LevelsStable(ps, order, SortTrees(ps, order, ts))
    decreases ts
  {
    var r := SortTrees(ps, order, ts);
    forall j | 0 <= j < |r| ensures r[j].entry < |ps| && LevelsStable(ps, order, r[j].children) {
      var i := SortedRoot(ps, order, ts, j);
      PartWithin(ts, i, |ps|);
      SortedStable(ps, order, ts[i].children);
    }
    LevelStable(ps, order, ts);
  }

  lemma {:induction false} LevelsStayStable(a: seq<Proc>, b: seq<Proc>, order: Order, ts: seq<Tree>)
    requires LevelsStable(a, order, ts) && SameKeys(a, b)
    ensures LevelsStable(b, order, ts)
    decreases ts
  {
    forall i | 0 <= i < |ts| ensures LevelsStable(b, order, ts[i].children) {
      LevelsStayStable(a, b, order, ts[i].children);
    }
    forall i, j | 0 <= i < j < |ts| && MayPrecede(order, b[ts[j].entry], b[ts[i].entry])
      ensures ts[i].entry < ts[j].entry
    {
      assert SameAmounts(a[ts[i].entry], b[ts[i].entry]) && SameAmounts(a[ts[j].entry], b[ts[j].entry]);
    }
  }

  // ----- depth -----

  /** In a walked subtree, each step down adds one. */
  lemma {:induction false} DepthBelow(ps: seq<Proc>, rank: seq<nat>, top: nat, i: nat, after: seq<Proc>, under: bool,
                                      depth: nat, slot: nat, k: nat, mode: Mode)
    requires Forest(ps, rank, top) && !OwnAncestor(ps) && i < |ps| && |after| == |ps| && k < |ps|
    requires Walked(TreeOf(ps, rank, top, i), ps, after, under, depth, slot, mode) && Above(ps, rank, top, i, k)
    ensures after[k].depth + Level(ps, i) == depth + Level(ps, k)
    decreases top - rank[i]
  {
    if k != i {
      var c, j := ChildToward(ps, rank, top, i, k);
      ChildRange(ps, i);
      ChildIsDeeper(ps, i, c);
      DepthBelow(ps, rank, top, c, after, under || ps[i].collapsed, depth + 1, j, k, mode);
    }
  }

  lemma NoOwnAncestor(ps: seq<Proc>, rank: seq<nat>, top: nat)
    requires Forest(ps, rank, top)
    ensures !OwnAncestor(ps)
  {
    assert Acyclic(ps, rank, top);
    RanksExistIff(ps);
  }

  lemma RootAlone(ps: seq<Proc>, rank: seq<nat>, top: nat, r: nat)
    requires Forest(ps, rank, top) && Rooted(ps) && ps != [] && r < Roots(ps) <= |ps|
    ensures Level(ps, r) == 1
  {
    RootRange(ps);
    if Parent(ps, r).Some? {
      var j := Parent(ps, r).value;
      assert Above(ps, rank, top, j, j);
      assert Above(ps, rank, top, j, r);
      RootIsTop(ps, rank, top, r, j);
    }
  }

  /** A process is as deep as it has ancestors. */
  lemma DepthIsLevel(ps: seq<Proc>, rank: seq<nat>, top: nat, after: seq<Proc>, ts: seq<Tree>, mode: Mode, k: nat)
    requires Forest(ps, rank, top) && Rooted(ps) && ps != [] && |ts| == Roots(ps)
    requires RootsWalked(ps, rank, top, after, ts, mode) && k < |ps|
    ensures after[k].depth + 1 == Level(ps, k)
  {
    var r := RootAbove(ps, rank, top, k);
    NoOwnAncestor(ps, rank, top);
    RootAlone(ps, rank, top, r);
    assert ts[r] == TreeOf(ps, rank, top, r);
    DepthBelow(ps, rank, top, r, after, false, 0, r, k, mode);
  }
}
