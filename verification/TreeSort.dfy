/** Sorting and numbering of the process tree (`tree_sort`), with the numbers given to the rows that are shown. */
module TreeSorting {
  import opened Collections
  import opened ProcTree
  import opened ProcTreeFacts

  /** `Unsorted` covers the paused list and the orders that `tree_sort` does not know. */
  datatype Order = Unsorted | Ascending(q: Quantity) | Descending(q: Quantity)

  function Key(ps: seq<Proc>, q: Quantity, t: Tree): real {
    if t.entry < |ps| then Amount(ps[t.entry], q) else 0.0
  }

  /** The comparison given to the library's stable sort. */
  predicate Before(ps: seq<Proc>, order: Order, a: Tree, b: Tree) {
    match order
    case Unsorted => false
    case Ascending(q) => Key(ps, q, a) < Key(ps, q, b)
    case Descending(q) => Key(ps, q, a) > Key(ps, q, b)
  }

  // ----- the library sort -----

  function Insert(ps: seq<Proc>, order: Order, t: Tree, ts: seq<Tree>): (r: seq<Tree>)
    ensures |r| == |ts| + 1
  {
    if ts == [] || !Before(ps, order, ts[0], t) then [t] + ts
    else [ts[0]] + Insert(ps, order, t, ts[1..])
  }

  /** A stable sort. */
  function StableSort(ps: seq<Proc>, order: Order, ts: seq<Tree>): (r: seq<Tree>)
    ensures |r| == |ts|
  {
    if ts == [] then [] else Insert(ps, order, ts[0], StableSort(ps, order, ts[1..]))
  }

  predicate InOrder(ps: seq<Proc>, order: Order, ts: seq<Tree>) {
    forall i, j :: 0 <= i < j < |ts| ==> !Before(ps, order, ts[j], ts[i])
  }

  lemma {:induction false} InsertContents(ps: seq<Proc>, order: Order, t: Tree, ts: seq<Tree>)
    ensures multiset(Insert(ps, order, t, ts)) == multiset{t} + multiset(ts)
  {
    if ts != [] && Before(ps, order, ts[0], t) {
      InsertContents(ps, order, t, ts[1..]);
      assert ts == [ts[0]] + ts[1..];
    }
  }

  lemma {:induction false} InsertInOrder(ps: seq<Proc>, order: Order, t: Tree, ts: seq<Tree>)
    requires InOrder(ps, order, ts)
    ensures InOrder(ps, order, Insert(ps, order, t, ts))
  {
    if ts != [] && Before(ps, order, ts[0], t) {
      InsertInOrder(ps, order, t, ts[1..]);
      var rest := Insert(ps, order, t, ts[1..]);
      InsertContents(ps, order, t, ts[1..]);
      forall j | 0 <= j < |rest| ensures !Before(ps, order, rest[j], ts[0]) {
        assert rest[j] in multiset(rest);
        if rest[j] != t {
          assert rest[j] in ts[1..];
          var k :| 0 <= k < |ts[1..]| && ts[1..][k] == rest[j];
          assert ts[k + 1] == rest[j];
        }
      }
    }
  }

  /** The library sort's contract: the same elements, in order. */
  lemma {:induction false} SortContract(ps: seq<Proc>, order: Order, ts: seq<Tree>)
    ensures multiset(StableSort(ps, order, ts)) == multiset(ts)
    ensures InOrder(ps, order, StableSort(ps, order, ts))
  {
    if ts != [] {
      SortContract(ps, order, ts[1..]);
      InsertContents(ps, order, ts[0], StableSort(ps, order, ts[1..]));
      InsertInOrder(ps, order, ts[0], StableSort(ps, order, ts[1..]));
      assert ts == [ts[0]] + ts[1..];
    }
  }

  predicate Tie(ps: seq<Proc>, order: Order, t: Tree, u: Tree) {
    !Before(ps, order, t, u) && !Before(ps, order, u, t)
  }

  /** The elements of `ts` that the order does not tell apart from `t`, as they stand. */
  function Ties(ps: seq<Proc>, order: Order, t: Tree, ts: seq<Tree>): seq<Tree> {
    if ts == [] then []
    else (if Tie(ps, order, t, ts[0]) then [ts[0]] else []) + Ties(ps, order, t, ts[1..])
  }

  lemma TiesCons(ps: seq<Proc>, order: Order, u: Tree, t: Tree, ts: seq<Tree>)
    ensures Ties(ps, order, u, [t] + ts) == (if Tie(ps, order, u, t) then [t] else []) + Ties(ps, order, u, ts)
  {
    assert ([t] + ts)[1..] == ts;
  }

  /** What the order tells apart is not tied with the same element. */
  lemma TiedOnce(ps: seq<Proc>, order: Order, u: Tree, a: Tree, b: Tree)
    requires Before(ps, order, a, b)
    ensures !Tie(ps, order, u, a) || !Tie(ps, order, u, b)
  {
  }

  lemma {:induction false} InsertTies(ps: seq<Proc>, order: Order, u: Tree, t: Tree, ts: seq<Tree>)
    ensures Ties(ps, order, u, Insert(ps, order, t, ts)) == Ties(ps, order, u, [t] + ts)
  {
    if ts != [] && Before(ps, order, ts[0], t) {
      InsertTies(ps, order, u, t, ts[1..]);
      TiedOnce(ps, order, u, ts[0], t);
      TiesCons(ps, order, u, ts[0], Insert(ps, order, t, ts[1..]));
      TiesCons(ps, order, u, t, ts[1..]);
      TiesCons(ps, order, u, t, ts);
    }
  }

  /** Elements that compare equal keep their order. */
  lemma {:induction false} SortIsStable(ps: seq<Proc>, order: Order, u: Tree, ts: seq<Tree>)
    ensures Ties(ps, order, u, StableSort(ps, order, ts)) == Ties(ps, order, u, ts)
  {
    if ts != [] {
      var rest := StableSort(ps, order, ts[1..]);
      SortIsStable(ps, order, u, ts[1..]);
      InsertTies(ps, order, u, ts[0], rest);
      assert ([ts[0]] + rest)[1..] == rest;
    }
  }

  // ----- the sorted tree -----

  /** Every sibling list sorted, at every level. */
  function SortTree(ps: seq<Proc>, order: Order, t: Tree): (r: Tree)
    ensures r.entry == t.entry
    decreases t
  {
    Node(t.entry, StableSort(ps, order, SortEach(ps, order, t.children)))
  }

  function SortEach(ps: seq<Proc>, order: Order, ts: seq<Tree>): (r: seq<Tree>)
    ensures |r| == |ts|
    decreases ts
  {
    if ts == [] then [] else [SortTree(ps, order, ts[0])] + SortEach(ps, order, ts[1..])
  }

  function SortTrees(ps: seq<Proc>, order: Order, ts: seq<Tree>): seq<Tree> {
    StableSort(ps, order, SortEach(ps, order, ts))
  }

  /** Sorting siblings before or after their subtrees makes no difference. */
  lemma {:induction false} InsertCommutes(ps: seq<Proc>, order: Order, t: Tree, ts: seq<Tree>)
    ensures SortEach(ps, order, Insert(ps, order, t, ts))
         == Insert(ps, order, SortTree(ps, order, t), SortEach(ps, order, ts))
  {
    if ts == [] || !Before(ps, order, ts[0], t) {
      assert ([t] + ts)[1..] == ts;
    } else {
      InsertCommutes(ps, order, t, ts[1..]);
      var rest := Insert(ps, order, t, ts[1..]);
      assert ([ts[0]] + rest)[1..] == rest;
      assert SortEach(ps, order, ts)[1..] == SortEach(ps, order, ts[1..]);
    }
  }

  lemma {:induction false} SortCommutes(ps: seq<Proc>, order: Order, ts: seq<Tree>)
    ensures SortEach(ps, order, StableSort(ps, order, ts)) == SortTrees(ps, order, ts)
  {
    if ts != [] {
      SortCommutes(ps, order, ts[1..]);
      InsertCommutes(ps, order, ts[0], StableSort(ps, order, ts[1..]));
      assert SortEach(ps, order, ts)[1..] == SortEach(ps, order, ts[1..]);
    }
  }

  lemma {:induction false} SortEachConcat(ps: seq<Proc>, order: Order, xs: seq<Tree>, ys: seq<Tree>)
    ensures SortEach(ps, order, xs + ys) == SortEach(ps, order, xs) + SortEach(ps, order, ys)
  {
    if xs == [] {
      assert xs + ys == ys;
    } else {
      assert (xs + ys)[1..] == xs[1..] + ys;
      SortEachConcat(ps, order, xs[1..], ys);
    }
  }

  // ----- sorting keeps the rows -----

  lemma {:induction false} InsertKeepsRows(ps: seq<Proc>, order: Order, t: Tree, ts: seq<Tree>)
    ensures multiset(PreAll(Insert(ps, order, t, ts))) == multiset(Pre(t)) + multiset(PreAll(ts))
  {
    if ts == [] || !Before(ps, order, ts[0], t) {
      assert ([t] + ts)[1..] == ts;
    } else {
      InsertKeepsRows(ps, order, t, ts[1..]);
      var rest := Insert(ps, order, t, ts[1..]);
      assert ([ts[0]] + rest)[1..] == rest;
    }
  }

  lemma {:induction false} StableSortKeepsRows(ps: seq<Proc>, order: Order, ts: seq<Tree>)
    ensures multiset(PreAll(StableSort(ps, order, ts))) == multiset(PreAll(ts))
  {
    if ts != [] {
      StableSortKeepsRows(ps, order, ts[1..]);
      InsertKeepsRows(ps, order, ts[0], StableSort(ps, order, ts[1..]));
    }
  }

  lemma {:induction false} SortTreeKeepsRows(ps: seq<Proc>, order: Order, t: Tree)
    ensures multiset(Pre(SortTree(ps, order, t))) == multiset(Pre(t))
    decreases t
  {
    SortEachKeepsRows(ps, order, t.children);
    StableSortKeepsRows(ps, order, SortEach(ps, order, t.children));
  }

  lemma {:induction false} SortEachKeepsRows(ps: seq<Proc>, order: Order, ts: seq<Tree>)
    ensures multiset(PreAll(SortEach(ps, order, ts))) == multiset(PreAll(ts))
    decreases ts
  {
    if ts != [] {
      SortTreeKeepsRows(ps, order, ts[0]);
      SortEachKeepsRows(ps, order, ts[1..]);
      assert SortEach(ps, order, ts)[1..] == SortEach(ps, order, ts[1..]);
    }
  }

  /** Sorting permutes siblings and keeps all rows. */
  lemma SortKeepsRows(ps: seq<Proc>, order: Order, ts: seq<Tree>)
    ensures multiset(PreAll(SortTrees(ps, order, ts))) == multiset(PreAll(ts))
  {
    SortEachKeepsRows(ps, order, ts);
    StableSortKeepsRows(ps, order, SortEach(ps, order, ts));
  }

  // ----- sorting looks at the amounts only -----

  ghost predicate SameKeys(a: seq<Proc>, b: seq<Proc>) {
    |a| == |b| && forall k :: 0 <= k < |a| ==> SameAmounts(a[k], b[k])
  }

  lemma KeysAgree(a: seq<Proc>, b: seq<Proc>, order: Order, t: Tree, u: Tree)
    requires SameKeys(a, b)
    ensures Before(a, order, t, u) == Before(b, order, t, u)
  {
    if order != Unsorted {
      assert t.entry < |a| ==> SameAmounts(a[t.entry], b[t.entry]);
      assert u.entry < |a| ==> SameAmounts(a[u.entry], b[u.entry]);
    }
  }

  lemma {:induction false} InsertAgrees(a: seq<Proc>, b: seq<Proc>, order: Order, t: Tree, ts: seq<Tree>)
    requires SameKeys(a, b)
    ensures Insert(a, order, t, ts) == Insert(b, order, t, ts)
  {
    if ts != [] {
      KeysAgree(a, b, order, ts[0], t);
      InsertAgrees(a, b, order, t, ts[1..]);
    }
  }

  lemma {:induction false} StableSortAgrees(a: seq<Proc>, b: seq<Proc>, order: Order, ts: seq<Tree>)
    requires SameKeys(a, b)
    ensures StableSort(a, order, ts) == StableSort(b, order, ts)
  {
    if ts != [] {
      StableSortAgrees(a, b, order, ts[1..]);
      InsertAgrees(a, b, order, ts[0], StableSort(b, order, ts[1..]));
    }
  }

  lemma {:induction false} SortEachAgrees(a: seq<Proc>, b: seq<Proc>, order: Order, ts: seq<Tree>)
    requires SameKeys(a, b)
    ensures SortEach(a, order, ts) == SortEach(b, order, ts)
    decreases ts
  {
    if ts != [] {
      SortEachAgrees(a, b, order, ts[0].children);
      StableSortAgrees(a, b, order, SortEach(b, order, ts[0].children));
      SortEachAgrees(a, b, order, ts[1..]);
    }
  }

  // ----- numbering -----

  /** The shown rows among `xs`, in this order, are numbered from `from` up to but not including `to`. */
  ghost predicate Numbered(ps: seq<Proc>, xs: seq<nat>, from: nat, to: nat) {
    if xs == [] then from == to
    else
      xs[0] < |ps|
      && if ps[xs[0]].filtered then Numbered(ps, xs[1..], from, to)
         else ps[xs[0]].treeIndex == from && Numbered(ps, xs[1..], from + 1, to)
  }

  lemma {:induction false} NumberedConcat(ps: seq<Proc>, xs: seq<nat>, ys: seq<nat>, from: nat, mid: nat, to: nat)
    requires Numbered(ps, xs, from, mid) && Numbered(ps, ys, mid, to)
    ensures Numbered(ps, xs + ys, from, to)
    decreases |xs|
  {
    if xs == [] {
      assert xs + ys == ys;
    } else {
      assert (xs + ys)[1..] == xs[1..] + ys;
      NumberedConcat(ps, xs[1..], ys, if ps[xs[0]].filtered then from else from + 1, mid, to);
    }
  }

  lemma {:induction false} NumberedFrame(a: seq<Proc>, b: seq<Proc>, xs: seq<nat>, from: nat, to: nat)
    requires Numbered(a, xs, from, to) && |a| == |b| && forall k :: k in xs && k < |a| ==> a[k] == b[k]
    ensures Numbered(b, xs, from, to)
    decreases |xs|
  {
    if xs != [] {
      assert xs[0] in xs;
      NumberedFrame(a, b, xs[1..], if a[xs[0]].filtered then from else from + 1, to);
    }
  }

  /** Only numbers change, and only at these positions. */
  ghost predicate OnlyNumbers(was: seq<Proc>, now: seq<Proc>, xs: seq<nat>) {
    && |was| == |now|
    && (forall k :: 0 <= k < |was| ==> now[k] == was[k].(treeIndex := now[k].treeIndex))
    && (forall k :: 0 <= k < |was| && k !in xs ==> now[k] == was[k])
  }

  ghost predicate Within(xs: seq<nat>, n: nat) {
    forall k :: k in xs ==> k < n
  }

  /** No position occurs twice. */
  ghost predicate Once(xs: seq<nat>) {
    forall k :: multiset(xs)[k] <= 1
  }

  lemma SplitPrefix(s: seq<Tree>, j: nat)
    requires j < |s|
    ensures PreAll(s[..j + 1]) == PreAll(s[..j]) + Pre(s[j])
  {
    PreAllSnoc(s[..j], s[j]);
    assert s[..j + 1] == s[..j] + [s[j]];
  }

  lemma SplitAt(s: seq<Tree>, j: nat)
    requires j < |s|
    ensures PreAll(s) == PreAll(s[..j + 1]) + PreAll(s[j + 1..])
  {
    Halves(s, j + 1);
    PreAllConcat(s[..j + 1], s[j + 1..]);
  }

  lemma {:induction false} PreAllConcat(xs: seq<Tree>, ys: seq<Tree>)
    ensures PreAll(xs + ys) == PreAll(xs) + PreAll(ys)
  {
    if xs == [] {
      assert xs + ys == ys;
    } else {
      assert (xs + ys)[1..] == xs[1..] + ys;
      PreAllConcat(xs[1..], ys);
    }
  }

  // ----- hidden rows -----

  /** What a hidden row is given in place of a number: `indexMax`, which the recursion replaces by 0 or 1. */
  ghost predicate Parked(ps: seq<Proc>, t: Tree, indexMax: nat)
    decreases t
  {
    && t.entry < |ps|
    && (ps[t.entry].filtered ==> ps[t.entry].treeIndex == indexMax)
    && var below := if ps[t.entry].collapsed || ps[t.entry].treeIndex == indexMax then 1 else 0;
       forall j :: 0 <= j < |t.children| ==> Parked(ps, t.children[j], below)
  }

  ghost predicate AllParked(ps: seq<Proc>, ts: seq<Tree>, indexMax: nat) {
    forall j :: 0 <= j < |ts| ==> Parked(ps, ts[j], indexMax)
  }

  lemma {:induction false} ParkedFrame(a: seq<Proc>, b: seq<Proc>, t: Tree, indexMax: nat)
    requires Parked(a, t, indexMax) && |a| == |b| && forall k :: k in Pre(t) && k < |a| ==> a[k] == b[k]
    ensures Parked(b, t, indexMax)
    decreases t
  {
    assert t.entry in Pre(t);
    var below := if a[t.entry].collapsed || a[t.entry].treeIndex == indexMax then 1 else 0;
    forall j | 0 <= j < |t.children| ensures Parked(b, t.children[j], below) {
      PreContains(t.children, j);
      ParkedFrame(a, b, t.children[j], below);
    }
  }

  lemma AllParkedFrame(a: seq<Proc>, b: seq<Proc>, ts: seq<Tree>, indexMax: nat)
    requires AllParked(a, ts, indexMax) && |a| == |b| && forall k :: k in PreAll(ts) && k < |a| ==> a[k] == b[k]
    ensures AllParked(b, ts, indexMax)
  {
    forall j | 0 <= j < |ts| ensures Parked(b, ts[j], indexMax) {
      PreContains(ts, j);
      ParkedFrame(a, b, ts[j], indexMax);
    }
  }

  /** No row is hidden below one that is neither hidden nor collapsed. */
  ghost predicate Nested(ps: seq<Proc>, t: Tree)
    decreases t
  {
    && t.entry < |ps|
    && forall j :: 0 <= j < |t.children| ==>
         && Nested(ps, t.children[j])
         && (ps[t.children[j].entry].filtered ==> ps[t.entry].filtered || ps[t.entry].collapsed)
  }

  /** The walk hides a row only below one that is collapsed or hidden itself. */
  lemma {:induction false} WalkedNested(
    t: Tree, before: seq<Proc>, after: seq<Proc>, under: bool, depth: nat, slot: nat, mode: Mode)
    requires Walked(t, before, after, under, depth, slot, mode) && SameShape(after, before)
    requires after[t.entry].filtered == Marked(t, under, mode)
    ensures Nested(after, t)
    decreases t
  {
    var hides := under || before[t.entry].collapsed;
    forall j | 0 <= j < |t.children| ensures Nested(after, t.children[j]) {
      WalkedNested(t.children[j], before, after, hides, depth + 1, j, mode);
    }
  }

  lemma {:induction false} NestedKept(a: seq<Proc>, b: seq<Proc>, t: Tree)
    requires Nested(a, t) && |a| == |b|
    requires forall k :: 0 <= k < |a| ==> b[k] == a[k].(treeIndex := b[k].treeIndex)
    ensures Nested(b, t)
    decreases t
  {
    forall j | 0 <= j < |t.children| ensures Nested(b, t.children[j]) { NestedKept(a, b, t.children[j]); }
  }

  /** Sorting siblings does not change what is below what. */
  lemma {:induction false} NestedSorted(ps: seq<Proc>, order: Order, t: Tree)
    requires Nested(ps, t)
    ensures Nested(ps, SortTree(ps, order, t))
    decreases t
  {
    var kids := SortTrees(ps, order, t.children);
    assert SortTree(ps, order, t) == Node(t.entry, kids);
    forall j | 0 <= j < |kids|
      ensures Nested(ps, kids[j]) && (ps[kids[j].entry].filtered ==> ps[t.entry].filtered || ps[t.entry].collapsed)
    {
      var i := SortedRoot(ps, order, t.children, j);
      NestedSorted(ps, order, t.children[i]);
    }
  }

  /** Every hidden row below the top one is given 1: its parent is collapsed, or hidden and so given `indexMax`. */
  lemma {:induction false} ParkedAtOne(ps: seq<Proc>, t: Tree, indexMax: nat, k: nat)
    requires Parked(ps, t, indexMax) && Nested(ps, t) && k in Pre(t) && k != t.entry
    ensures k < |ps| && (ps[k].filtered ==> ps[k].treeIndex == 1)
    decreases t
  {
    assert Pre(t)[1..] == PreAll(t.children);
    var j := PreAllFind(t.children, k);
    var below := if ps[t.entry].collapsed || ps[t.entry].treeIndex == indexMax then 1 else 0;
    assert Parked(ps, t.children[j], below);
    if k != t.children[j].entry { ParkedAtOne(ps, t.children[j], below, k); }
  }

  /** Every top-level tree of the sorted list is a top-level tree of the given one, sorted. */
  lemma SortedRoot(ps: seq<Proc>, order: Order, ts: seq<Tree>, j: nat) returns (i: nat)
    requires j < |SortTrees(ps, order, ts)|
    ensures i < |ts| && SortTrees(ps, order, ts)[j] == SortTree(ps, order, ts[i])
  {
    var each, r := SortEach(ps, order, ts), SortTrees(ps, order, ts);
    SortContract(ps, order, each);
    assert r[j] in multiset(r);
    assert r[j] in multiset(each);
    i :| i < |each| && each[i] == r[j];
    SortEachAt(ps, order, ts, i);
  }

  lemma {:induction false} SortEachAt(ps: seq<Proc>, order: Order, ts: seq<Tree>, i: nat)
    requires i < |ts|
    ensures SortEach(ps, order, ts)[i] == SortTree(ps, order, ts[i])
  {
    if i > 0 { SortEachAt(ps, order, ts[1..], i - 1); }
  }

  // ----- the order of siblings, in terms of the list -----

  /** Whether a process with these amounts may stand before another among its siblings. */
  predicate MayPrecede(order: Order, p: Proc, later: Proc) {
    match order
    case Unsorted => true
    case Ascending(Mem) => p.mem <= later.mem
    case Ascending(Threads) => p.threads <= later.threads
    case Ascending(CpuP) => p.cpuP <= later.cpuP
    case Ascending(CpuC) => p.cpuC <= later.cpuC
    case Descending(Mem) => p.mem >= later.mem
    case Descending(Threads) => p.threads >= later.threads
    case Descending(CpuP) => p.cpuP >= later.cpuP
    case Descending(CpuC) => p.cpuC >= later.cpuC
  }

  /** These siblings are in order, and so are their children, at every level. */
  ghost predicate LevelsSorted(ps: seq<Proc>, order: Order, ts: seq<Tree>)
    decreases ts
  {
    && (forall i :: 0 <= i < |ts| ==> ts[i].entry < |ps|)
    && (forall i, j :: 0 <= i < j < |ts| ==> MayPrecede(order, ps[ts[i].entry], ps[ts[j].entry]))
    && (forall i :: 0 <= i < |ts| ==> LevelsSorted(ps, order, ts[i].children))
  }

  lemma InOrderMayPrecede(ps: seq<Proc>, order: Order, ts: seq<Tree>)
    requires InOrder(ps, order, ts) && forall i :: 0 <= i < |ts| ==> ts[i].entry < |ps|
    ensures forall i, j :: 0 <= i < j < |ts| ==> MayPrecede(order, ps[ts[i].entry], ps[ts[j].entry])
  {
    forall i, j | 0 <= i < j < |ts| ensures MayPrecede(order, ps[ts[i].entry], ps[ts[j].entry]) {
      assert !Before(ps, order, ts[j], ts[i]);
    }
  }

  lemma PartWithin(ts: seq<Tree>, i: nat, size: nat)
    requires i < |ts| && Within(PreAll(ts), size)
    ensures ts[i].entry < size && Within(PreAll(ts[i].children), size)
  {
    var all := Pre(ts[i]);
    PreContains(ts, i);
    assert all == [ts[i].entry] + PreAll(ts[i].children) && all[0] == ts[i].entry && ts[i].entry in all;
    forall j | 0 <= j < |PreAll(ts[i].children)| ensures PreAll(ts[i].children)[j] < size {
      assert all[j + 1] == PreAll(ts[i].children)[j] && all[j + 1] in all;
    }
  }

  /** Sorting every level leaves every level sorted. */
  lemma {:induction false} SortedLevels(ps: seq<Proc>, order: Order, ts: seq<Tree>)
    requires Within(PreAll(ts), |ps|)
    ensures LevelsSorted(ps, order, SortTrees(ps, order, ts))
    decreases ts
  {
    var r := SortTrees(ps, order, ts);
    forall j | 0 <= j < |r| ensures r[j].entry < |ps| && LevelsSorted(ps, order, r[j].children) {
      var i := SortedRoot(ps, order, ts, j);
      PartWithin(ts, i, |ps|);
      SortedLevels(ps, order, ts[i].children);
    }
    SortContract(ps, order, SortEach(ps, order, ts));
    InOrderMayPrecede(ps, order, r);
  }

  /** Numbering rows does not disturb the order. */
  lemma {:induction false} LevelsStaySorted(a: seq<Proc>, b: seq<Proc>, order: Order, ts: seq<Tree>)
    requires LevelsSorted(a, order, ts) && SameKeys(a, b)
    ensures LevelsSorted(b, order, ts)
    decreases ts
  {
    forall i | 0 <= i < |ts| ensures LevelsSorted(b, order, ts[i].children) {
      LevelsStaySorted(a, b, order, ts[i].children);
    }
    forall i, j | 0 <= i < j < |ts| ensures MayPrecede(order, b[ts[i].entry], b[ts[j].entry]) {
      assert SameAmounts(a[ts[i].entry], b[ts[i].entry]) && SameAmounts(a[ts[j].entry], b[ts[j].entry]);
    }
  }

  /** An order that is not known leaves all siblings as they stand. */
  lemma {:induction false} UnsortedStays(ps: seq<Proc>, ts: seq<Tree>)
    ensures SortTrees(ps, Unsorted, ts) == ts
    decreases ts
  {
    UnsortedEach(ps, ts);
    UnsortedSame(ps, ts);
  }

  lemma {:induction false} UnsortedSame(ps: seq<Proc>, ts: seq<Tree>)
    ensures StableSort(ps, Unsorted, ts) == ts
  {
    if ts == [] {
    } else {
      UnsortedSame(ps, ts[1..]);
      assert ts == [ts[0]] + ts[1..];
    }
  }

  lemma {:induction false} UnsortedEach(ps: seq<Proc>, ts: seq<Tree>)
    ensures SortEach(ps, Unsorted, ts) == ts
    decreases ts
  {
    if ts == [] {
    } else {
      UnsortedEach(ps, ts[0].children);
      UnsortedSame(ps, ts[0].children);
      UnsortedEach(ps, ts[1..]);
      assert ts[0] == Node(ts[0].entry, ts[0].children) && ts == [ts[0]] + ts[1..];
    }
  }

  // ----- the recursion -----

  /** Rows visited so far are numbered and the rest untouched. */
  ghost predicate Progress(was: seq<Proc>, now: seq<Proc>, order: Order, done: seq<Tree>, r: seq<Tree>,
    from: nat, c: nat) {
    && r == SortEach(was, order, done)
    && OnlyNumbers(was, now, PreAll(done)) && Numbered(now, PreAll(r), from, c)
  }

  lemma OnceSplit(xs: seq<nat>, ys: seq<nat>)
    requires Once(xs + ys)
    ensures Once(xs) && Once(ys) && forall k :: k in xs ==> k !in ys
  {
    assert multiset(xs + ys) == multiset(xs) + multiset(ys);
    forall k ensures multiset(xs)[k] <= 1 && multiset(ys)[k] <= 1 && (k in xs ==> k !in ys) {
      assert multiset(xs + ys)[k] <= 1;
      assert (k in xs ==> k in multiset(xs)) && (k in ys ==> k in multiset(ys));
    }
  }

  lemma SameMembers(xs: seq<nat>, ys: seq<nat>)
    requires multiset(xs) == multiset(ys)
    ensures |xs| == |ys| && forall k :: k in xs <==> k in ys
    ensures Once(xs) ==> Once(ys)
  {
    assert |multiset(xs)| == |xs| && |multiset(ys)| == |ys|;
    forall k ensures k in xs <==> k in ys {
      assert (k in xs <==> k in multiset(xs)) && (k in ys <==> k in multiset(ys));
    }
  }

  /** One more row with its subtree, numbered in state `now`, where the earlier rows are as in `mid`. */
  lemma ProgressStep(was: seq<Proc>, mid: seq<Proc>, now: seq<Proc>, order: Order, done: seq<Tree>, r: seq<Tree>,
                     t: Tree, kids: seq<Tree>, from: nat, c: nat, c': nat)
    requires Progress(was, mid, order, done, r, from, c) && Once(PreAll(done) + Pre(t))
    requires OnlyNumbers(mid, now, Pre(t)) && Numbered(now, [t.entry] + PreAll(kids), c, c')
    requires Node(t.entry, kids) == SortTree(was, order, t)
    ensures Progress(was, now, order, done + [t], r + [Node(t.entry, kids)], from, c')
  {
    var u := Node(t.entry, kids);
    SortEachConcat(was, order, done, [t]);
    assert [t][1..] == [] && SortEach(was, order, [t]) == [u];
    PreAllSnoc(done, t);
    PreAllSnoc(r, u);
    OnceSplit(PreAll(done), Pre(t));
    SortEachKeepsRows(was, order, done);
    SameMembers(PreAll(r), PreAll(done));
    NumberedFrame(mid, now, PreAll(r), from, c);
    NumberedConcat(now, PreAll(r), Pre(u), from, c, c');
  }

  /** Numbering one more subtree leaves the earlier hidden rows as they are. */
  lemma EarlierParked(was: seq<Proc>, mid: seq<Proc>, now: seq<Proc>, order: Order, done: seq<Tree>, r: seq<Tree>,
                      t: Tree, indexMax: nat)
    requires r == SortEach(was, order, done) && Once(PreAll(done) + Pre(t))
    requires OnlyNumbers(mid, now, Pre(t)) && AllParked(mid, r, indexMax)
    ensures AllParked(now, r, indexMax)
  {
    OnceSplit(PreAll(done), Pre(t));
    SortEachKeepsRows(was, order, done);
    SameMembers(PreAll(r), PreAll(done));
    AllParkedFrame(mid, now, r, indexMax);
  }

  lemma SortTreeAgrees(a: seq<Proc>, b: seq<Proc>, order: Order, t: Tree)
    requires SameKeys(a, b)
    ensures SortTrees(a, order, t.children) == SortTrees(b, order, t.children)
    ensures SortTree(a, order, t) == Node(t.entry, SortTrees(b, order, t.children))
  {
    SortEachAgrees(a, b, order, t.children);
    StableSortAgrees(a, b, order, SortEach(b, order, t.children));
  }

  /** One more row, both numbered and with its hidden rows parked. */
  lemma RowDone(was: seq<Proc>, mid: seq<Proc>, now: seq<Proc>, order: Order, done: seq<Tree>, r: seq<Tree>, t: Tree,
                kids: seq<Tree>, from: nat, c: nat, c': nat, indexMax: nat)
    requires Once(PreAll(done) + Pre(t))
    requires Progress(was, mid, order, done, r, from, c) && AllParked(mid, r, indexMax)
    requires kids == SortTrees(mid, order, t.children) && OnlyNumbers(mid, now, Pre(t))
    requires Numbered(now, [t.entry] + PreAll(kids), c, c') && Parked(now, Node(t.entry, kids), indexMax)
    ensures Progress(was, now, order, done + [t], r + [Node(t.entry, kids)], from, c')
    ensures AllParked(now, r + [Node(t.entry, kids)], indexMax)
  {
    SortTreeAgrees(was, mid, order, t);
    EarlierParked(was, mid, now, order, done, r, t, indexMax);
    ProgressStep(was, mid, now, order, done, r, t, kids, from, c, c');
  }

  /** Sorts the siblings, numbers them and their subtrees in turn. */
  method TreeSort(a: array<Proc>, ts: seq<Tree>, order: Order, cIndex: nat, indexMax: nat)
    returns (r: seq<Tree>, c: nat)
    requires Once(PreAll(ts)) && Within(PreAll(ts), a.Length)
    modifies a
    ensures r == SortTrees(old(a[..]), order, ts)
    ensures OnlyNumbers(old(a[..]), a[..], PreAll(ts))
    ensures Numbered(a[..], PreAll(r), cIndex, c) && AllParked(a[..], r, indexMax)
    ensures LevelsSorted(a[..], order, r)
    decreases |PreAll(ts)|, 2
  {
    ghost var was := a[..];
    var s := StableSort(a[..], order, ts);
    StableSortKeepsRows(was, order, ts);
    SameMembers(PreAll(ts), PreAll(s));
    r, c := [], cIndex;
    assert PreAll(s[..0]) == [];
    for j := 0 to |s|
      invariant Progress(was, a[..], order, s[..j], r, cIndex, c) && AllParked(a[..], r, indexMax)
    {
      r, c := NextRow(a, s, j, order, c, indexMax, r, was, cIndex);
    }
    assert s[..|s|] == s;
    SortCommutes(was, order, ts);
    SortedLevels(was, order, ts);
    LevelsStaySorted(was, a[..], order, r);
  }

  /** The subtree of one sibling, apart from those before it. */
  lemma RowApart(s: seq<Tree>, j: nat)
    requires j < |s| && Once(PreAll(s))
    ensures Once(PreAll(s[..j]) + Pre(s[j])) && Once(Pre(s[j]))
    ensures |Pre(s[j])| <= |PreAll(s)| && forall k :: k in Pre(s[j]) ==> k in PreAll(s)
  {
    SplitPrefix(s, j);
    SplitAt(s, j);
    OnceSplit(PreAll(s[..j + 1]), PreAll(s[j + 1..]));
    OnceSplit(PreAll(s[..j]), Pre(s[j]));
    assert forall k :: k in Pre(s[j]) ==> k in PreAll(s[..j + 1]);
  }

  /** One turn of the loop over the sorted siblings `s`. */
  method NextRow(a: array<Proc>, s: seq<Tree>, j: nat, order: Order, cIndex: nat, indexMax: nat, before: seq<Tree>,
                 ghost was: seq<Proc>, ghost from: nat)
    returns (r: seq<Tree>, c: nat)
    requires j < |s| && Once(PreAll(s)) && Within(PreAll(s), a.Length)
    requires Progress(was, a[..], order, s[..j], before, from, cIndex) && AllParked(a[..], before, indexMax)
    modifies a
    ensures Progress(was, a[..], order, s[..j + 1], r, from, c) && AllParked(a[..], r, indexMax)
    decreases |PreAll(s)|, 1
  {
    RowApart(s, j);
    ghost var mid := a[..];
    var kids;
    kids, c := NumberRow(a, s[j], order, cIndex, indexMax);
    r := before + [Node(s[j].entry, kids)];
    RowDone(was, mid, a[..], order, s[..j], before, s[j], kids, from, cIndex, c, indexMax);
    assert s[..j] + [s[j]] == s[..j + 1];
  }

  lemma RowParts(t: Tree, size: nat)
    requires Once(Pre(t)) && Within(Pre(t), size)
    ensures t.entry in Pre(t) && t.entry < size && t.entry !in PreAll(t.children)
    ensures Once(PreAll(t.children)) && Within(PreAll(t.children), size) && |PreAll(t.children)| < |Pre(t)|
    ensures forall k :: k in PreAll(t.children) ==> k in Pre(t)
  {
    assert t.entry in Pre(t) && Pre(t) == [t.entry] + PreAll(t.children);
    assert forall k :: k in PreAll(t.children) ==> k in Pre(t);
    OnceSplit([t.entry], PreAll(t.children));
    assert t.entry in [t.entry];
  }

  /** Numbers one row, then sorts and numbers its subtree. */
  method NumberRow(a: array<Proc>, t: Tree, order: Order, cIndex: nat, indexMax: nat) returns (kids: seq<Tree>, c: nat)
    requires Once(Pre(t)) && Within(Pre(t), a.Length)
    modifies a
    ensures kids == SortTrees(old(a[..]), order, t.children)
    ensures OnlyNumbers(old(a[..]), a[..], Pre(t))
    ensures Numbered(a[..], [t.entry] + PreAll(kids), cIndex, c) && Parked(a[..], Node(t.entry, kids), indexMax)
    decreases |Pre(t)|, 0
  {
    ghost var was := a[..];
    RowParts(t, a.Length);
    c := cIndex;
    if a[t.entry].filtered {
      a[t.entry] := a[t.entry].(treeIndex := indexMax);
    } else {
      a[t.entry] := a[t.entry].(treeIndex := c);
      c := c + 1;
    }
    SortTreeAgrees(was, a[..], order, t);
    kids := [];
    if t.children != [] {
      var below := if a[t.entry].collapsed || a[t.entry].treeIndex == indexMax then 1 else 0;
      kids, c := TreeSort(a, t.children, order, c, below);
    }
    assert ([t.entry] + PreAll(kids))[1..] == PreAll(kids);
  }
}
