/**
 The process tree: `_tree_gen` walks a list sorted by parent, folds collapsed subtrees into their root and
 marks what is hidden; without an update it only marks. With `proc_aggregate` every process takes over its
 children's amounts; those of dead processes are never taken over. Filtering is off.
 */
module ProcTree {
  datatype Proc = Proc(
    pid: nat, ppid: nat, mem: nat, threads: nat, cpuP: real, cpuC: real,
    collapsed: bool, dead: bool, filtered: bool, depth: nat, treeIndex: nat)

  /** How the list is walked: `no_update` and the option `proc_aggregate`. */
  datatype Mode = Mode(noUpdate: bool, aggregate: bool)

  const UPDATE: Mode := Mode(false, false)

  /** `tree_proc`: a position in the process list and its subtrees. */
  datatype Tree = Node(entry: nat, children: seq<Tree>)

  // ----- the list -----

  predicate Sorted(ps: seq<Proc>) {
    forall i, j :: 0 <= i < j < |ps| ==> ps[i].ppid <= ps[j].ppid
  }

  predicate DistinctPids(ps: seq<Proc>) {
    forall i, j :: 0 <= i < j < |ps| ==> ps[i].pid != ps[j].pid
  }

  /** Every parent has a smaller rank than its children. */
  ghost predicate Acyclic(ps: seq<Proc>, rank: seq<nat>, top: nat) {
    && |rank| == |ps|
    && (forall i :: 0 <= i < |ps| ==> rank[i] < top)
    && (forall i, j :: 0 <= i < |ps| && 0 <= j < |ps| && ps[j].ppid == ps[i].pid ==> rank[i] < rank[j])
  }

  /** A list `_tree_gen` can walk: sorted by parent, no process listed twice, none its own ancestor. */
  ghost predicate Forest(ps: seq<Proc>, rank: seq<nat>, top: nat) {
    Sorted(ps) && DistinctPids(ps) && Acyclic(ps, rank, top)
  }

  /** What a walk never changes. */
  predicate SameShape(a: seq<Proc>, b: seq<Proc>) {
    |a| == |b| && forall i :: 0 <= i < |a| ==>
      && a[i].pid == b[i].pid && a[i].ppid == b[i].ppid
      && a[i].collapsed == b[i].collapsed && a[i].dead == b[i].dead
  }

  /** How many entries have a parent below `key`; in a sorted list, where its children start. */
  function Lower(ps: seq<Proc>, key: nat): (k: nat)
    ensures k <= |ps|
  {
    if ps == [] || ps[0].ppid >= key then 0 else 1 + Lower(ps[1..], key)
  }

  lemma {:induction false} LowerMeaning(ps: seq<Proc>, key: nat)
    requires Sorted(ps)
    ensures forall i :: 0 <= i < |ps| ==> (i < Lower(ps, key) <==> ps[i].ppid < key)
  {
    if ps != [] && ps[0].ppid < key {
      LowerMeaning(ps[1..], key);
      forall i | 0 <= i < |ps| ensures i < Lower(ps, key) <==> ps[i].ppid < key {
        if i > 0 { assert ps[i] == ps[1..][i - 1]; }
      }
    }
  }

  /** The bounds of a sorted list are unique. */
  lemma LowerIs(ps: seq<Proc>, key: nat, k: nat)
    requires Sorted(ps) && k <= |ps|
    requires forall i :: 0 <= i < |ps| ==> (i < k <==> ps[i].ppid < key)
    ensures Lower(ps, key) == k
  {
    LowerMeaning(ps, key);
    if k < |ps| { assert !(ps[k].ppid < key); }
    if Lower(ps, key) < |ps| { assert !(ps[Lower(ps, key)].ppid < key); }
  }

  /** Binary search for the first entry whose parent is not below `key`. */
  method LowerBound(a: array<Proc>, key: nat) returns (k: nat)
    requires Sorted(a[..])
    ensures k == Lower(a[..], key)
  {
    var lo, hi := 0, a.Length;
    while lo < hi
      invariant 0 <= lo <= hi <= a.Length
      invariant forall i :: 0 <= i < lo ==> a[i].ppid < key
      invariant forall i :: hi <= i < a.Length ==> a[i].ppid >= key
    {
      var mid := (lo + hi) / 2;
      if a[mid].ppid < key {
        forall i | 0 <= i < mid + 1 ensures a[i].ppid < key {
          if i < mid { assert a[..][i].ppid <= a[..][mid].ppid; }
        }
        lo := mid + 1;
      } else {
        forall i | mid <= i < a.Length ensures a[i].ppid >= key {
          if i > mid { assert a[..][mid].ppid <= a[..][i].ppid; }
        }
        hi := mid;
      }
    }
    k := lo;
    LowerIs(a[..], key, k);
  }

  // ----- the tree of a list -----

  /** The children of `i` are the positions from `First(ps, i)` up to but not including `Past(ps, i)`. */
  function First(ps: seq<Proc>, i: nat): nat
    requires i < |ps|
  {
    Lower(ps, ps[i].pid)
  }

  function Past(ps: seq<Proc>, i: nat): nat
    requires i < |ps|
  {
    Lower(ps, ps[i].pid + 1)
  }

  lemma ChildRange(ps: seq<Proc>, i: nat)
    requires Sorted(ps) && i < |ps|
    ensures First(ps, i) <= Past(ps, i) <= |ps|
    ensures forall j :: 0 <= j < |ps| ==> (First(ps, i) <= j < Past(ps, i) <==> ps[j].ppid == ps[i].pid)
  {
    LowerMeaning(ps, ps[i].pid);
    LowerMeaning(ps, ps[i].pid + 1);
    assert Past(ps, i) < |ps| ==> !(ps[Past(ps, i)].ppid < ps[i].pid + 1);
  }

  lemma ShapeKeepsOrder(a: seq<Proc>, b: seq<Proc>)
    requires SameShape(a, b) && Sorted(b)
    ensures Sorted(a) && forall key :: Lower(a, key) == Lower(b, key)
  {
    forall key ensures Lower(a, key) == Lower(b, key) {
      LowerMeaning(b, key);
      LowerIs(a, key, Lower(b, key));
    }
  }

  /** The tree below position `i`, siblings in list order. */
  ghost function TreeOf(ps: seq<Proc>, rank: seq<nat>, top: nat, i: nat): (t: Tree)
    requires Forest(ps, rank, top) && i < |ps|
    ensures t.entry == i
    decreases top - rank[i], 1, 0
  {
    ChildRange(ps, i);
    Node(i, TreesOf(ps, rank, top, i, First(ps, i)))
  }

  /** The trees of the children of `i` from position `j` on. */
  ghost function TreesOf(ps: seq<Proc>, rank: seq<nat>, top: nat, i: nat, j: nat): (ts: seq<Tree>)
    requires Forest(ps, rank, top) && i < |ps| && First(ps, i) <= j <= Past(ps, i)
    ensures |ts| == Past(ps, i) - j
    decreases top - rank[i], 0, Past(ps, i) - j
  {
    ChildRange(ps, i);
    if j == Past(ps, i) then []
    else [TreeOf(ps, rank, top, j)] + TreesOf(ps, rank, top, i, j + 1)
  }

  /** The positions of a tree, each before its descendants. */
  function Pre(t: Tree): seq<nat> {
    [t.entry] + PreAll(t.children)
  }

  function PreAll(ts: seq<Tree>): seq<nat> {
    if ts == [] then [] else Pre(ts[0]) + PreAll(ts[1..])
  }

  /** `i` is `k` or an ancestor of `k`. */
  ghost predicate Above(ps: seq<Proc>, rank: seq<nat>, top: nat, i: nat, k: nat)
    requires Forest(ps, rank, top) && i < |ps| && k < |ps|
    decreases rank[k]
  {
    i == k || exists j :: 0 <= j < |ps| && ps[k].ppid == ps[j].pid && Above(ps, rank, top, i, j)
  }

  lemma {:induction false} AboveRank(ps: seq<Proc>, rank: seq<nat>, top: nat, i: nat, k: nat)
    requires Forest(ps, rank, top) && i < |ps| && k < |ps| && Above(ps, rank, top, i, k)
    ensures i == k || rank[i] < rank[k]
    decreases rank[k]
  {
    if i != k {
      var j :| 0 <= j < |ps| && ps[k].ppid == ps[j].pid && Above(ps, rank, top, i, j);
      AboveRank(ps, rank, top, i, j);
    }
  }

  /** A proper descendant of `i` is below exactly one child of `i`. */
  lemma {:induction false} AboveChild(ps: seq<Proc>, rank: seq<nat>, top: nat, i: nat, k: nat) returns (c: nat)
    requires Forest(ps, rank, top) && i < |ps| && k < |ps| && Above(ps, rank, top, i, k) && i != k
    ensures c < |ps| && ps[c].ppid == ps[i].pid && Above(ps, rank, top, c, k)
    decreases rank[k]
  {
    var j :| 0 <= j < |ps| && ps[k].ppid == ps[j].pid && Above(ps, rank, top, i, j);
    if i == j {
      c := k;
    } else {
      c := AboveChild(ps, rank, top, i, j);
    }
  }

  lemma {:induction false} AboveTransitive(ps: seq<Proc>, rank: seq<nat>, top: nat, i: nat, j: nat, k: nat)
    requires Forest(ps, rank, top) && i < |ps| && j < |ps| && k < |ps|
    requires Above(ps, rank, top, i, j) && Above(ps, rank, top, j, k)
    ensures Above(ps, rank, top, i, k)
    decreases rank[k]
  {
    if j != k {
      var m :| 0 <= m < |ps| && ps[k].ppid == ps[m].pid && Above(ps, rank, top, j, m);
      AboveTransitive(ps, rank, top, i, j, m);
    }
  }

  /** Siblings share no descendants. */
  lemma {:induction false} SiblingsDisjoint(ps: seq<Proc>, rank: seq<nat>, top: nat, c: nat, d: nat, k: nat)
    requires Forest(ps, rank, top) && c < |ps| && d < |ps| && k < |ps|
    requires c != d && ps[c].ppid == ps[d].ppid
    requires Above(ps, rank, top, c, k)
    ensures !Above(ps, rank, top, d, k)
    decreases rank[k]
  {
    if Above(ps, rank, top, d, k) {
      AboveRank(ps, rank, top, c, k);
      AboveRank(ps, rank, top, d, k);
      if c == k {
        var j :| 0 <= j < |ps| && ps[k].ppid == ps[j].pid && Above(ps, rank, top, d, j);
        AboveRank(ps, rank, top, d, j);
      } else if d == k {
        var j :| 0 <= j < |ps| && ps[k].ppid == ps[j].pid && Above(ps, rank, top, c, j);
        AboveRank(ps, rank, top, c, j);
      } else {
        var j :| 0 <= j < |ps| && ps[k].ppid == ps[j].pid && Above(ps, rank, top, c, j);
        var j' :| 0 <= j' < |ps| && ps[k].ppid == ps[j'].pid && Above(ps, rank, top, d, j');
        assert j == j';
        SiblingsDisjoint(ps, rank, top, c, d, j);
      }
    }
  }

  lemma {:induction false} PreIsBelow(ps: seq<Proc>, rank: seq<nat>, top: nat, i: nat, k: nat)
    requires Forest(ps, rank, top) && i < |ps|
    ensures k in Pre(TreeOf(ps, rank, top, i)) <==> k < |ps| && Above(ps, rank, top, i, k)
    decreases top - rank[i], 1, 0
  {
    ChildRange(ps, i);
    var ts := TreesOf(ps, rank, top, i, First(ps, i));
    PreAllIsBelow(ps, rank, top, i, First(ps, i), k);
    assert TreeOf(ps, rank, top, i).children == ts;
    assert Pre(TreeOf(ps, rank, top, i)) == [i] + PreAll(ts);
    if k < |ps| && k != i && Above(ps, rank, top, i, k) {
      var c := AboveChild(ps, rank, top, i, k);
      assert First(ps, i) <= c < Past(ps, i) && c < |ps| && Above(ps, rank, top, c, k);
      assert k in PreAll(ts);
    }
    if k == i { assert Above(ps, rank, top, i, k); assert ([i] + PreAll(ts))[0] == i; }
    if k in PreAll(ts) { assert k in [i] + PreAll(ts); }
  }

  lemma {:induction false} PreAllIsBelow(ps: seq<Proc>, rank: seq<nat>, top: nat, i: nat, j: nat, k: nat)
    requires Forest(ps, rank, top) && i < |ps| && First(ps, i) <= j <= Past(ps, i)
    ensures k in PreAll(TreesOf(ps, rank, top, i, j))
       <==> k < |ps| && exists c: nat :: j <= c < Past(ps, i) && c < |ps| && Above(ps, rank, top, c, k)
    ensures k in PreAll(TreesOf(ps, rank, top, i, j)) ==> Above(ps, rank, top, i, k)
    decreases top - rank[i], 0, Past(ps, i) - j
  {
    ChildRange(ps, i);
    if j < Past(ps, i) {
      PreIsBelow(ps, rank, top, j, k);
      PreAllIsBelow(ps, rank, top, i, j + 1, k);
      var ts := TreesOf(ps, rank, top, i, j);
      assert ts[1..] == TreesOf(ps, rank, top, i, j + 1);
      if k in Pre(ts[0]) {
        assert Above(ps, rank, top, i, j);
        AboveTransitive(ps, rank, top, i, j, k);
      }
    }
  }

  // ----- what a walk leaves behind -----

  /** The quantities that collapsed processes take over from their descendants. */
  datatype Quantity = Mem | Threads | CpuP | CpuC

  function Amount(p: Proc, q: Quantity): real {
    match q
    case Mem => p.mem as real
    case Threads => p.threads as real
    case CpuP => p.cpuP
    case CpuC => p.cpuC
  }

  function Sum(xs: seq<nat>, ps: seq<Proc>, q: Quantity): real {
    if xs == [] then 0.0 else (if xs[0] < |ps| then Amount(ps[xs[0]], q) else 0.0) + Sum(xs[1..], ps, q)
  }

  /** The sum over the rows that are shown. */
  function Shown(xs: seq<nat>, ps: seq<Proc>, q: Quantity): real {
    if xs == [] then 0.0
    else (if xs[0] < |ps| && !ps[xs[0]].filtered then Amount(ps[xs[0]], q) else 0.0) + Shown(xs[1..], ps, q)
  }

  function HiddenRows(xs: seq<nat>, ps: seq<Proc>): nat {
    if xs == [] then 0
    else (if xs[0] < |ps| && ps[xs[0]].filtered then 1 else 0) + HiddenRows(xs[1..], ps)
  }

  /** Whether a process adds the amounts of its child `p` to its own; a dead child's are never added. */
  predicate Takes(p: Proc, hides: bool, mode: Mode) {
    !p.dead && ((hides && !mode.noUpdate) || mode.aggregate)
  }

  /** What a process has after the walk of its subtree: its own amounts and those it takes over. */
  function Gathered(t: Tree, ps: seq<Proc>, under: bool, mode: Mode, q: Quantity): real
    decreases t
  {
    if t.entry < |ps| then
      Amount(ps[t.entry], q) + GatheredAll(t.children, ps, under || ps[t.entry].collapsed, mode, q)
    else 0.0
  }

  /** What is taken over from these siblings. */
  function GatheredAll(ts: seq<Tree>, ps: seq<Proc>, hides: bool, mode: Mode, q: Quantity): real
    decreases ts
  {
    if ts == [] then 0.0
    else
      (if ts[0].entry < |ps| && Takes(ps[ts[0].entry], hides, mode) then Gathered(ts[0], ps, hides, mode, q) else 0.0)
      + GatheredAll(ts[1..], ps, hides, mode, q)
  }

  /** The amounts of a subtree's root after the walk. */
  ghost predicate Carries(t: Tree, before: seq<Proc>, after: seq<Proc>, under: bool, mode: Mode) {
    && t.entry < |before| && t.entry < |after|
    && forall q: Quantity :: Amount(after[t.entry], q) == Gathered(t, before, under, mode, q)
  }

  /** Whether a child whose parent folds it is marked: without an update only a process with children is. */
  predicate Marked(t: Tree, hides: bool, mode: Mode) {
    hides && (!mode.noUpdate || t.children != [])
  }

  /**
   The state of a subtree after the walk: `under` says that a proper ancestor is collapsed, `slot` is its place
   among its siblings. The root's own mark is set by the caller.
   */
  ghost predicate Walked(
    t: Tree, before: seq<Proc>, after: seq<Proc>, under: bool, depth: nat, slot: nat, mode: Mode)
    decreases t
  {
    && Carries(t, before, after, under, mode)
    && after[t.entry].depth == depth
    && after[t.entry].treeIndex == (if under then |before| else slot)
    && var hides := under || before[t.entry].collapsed;
       forall j :: 0 <= j < |t.children| ==>
         && Walked(t.children[j], before, after, hides, depth + 1, j, mode)
         && after[t.children[j].entry].filtered == Marked(t.children[j], hides, mode)
  }

  /** How many rows of a subtree, not counting its root, the walk counts as found. */
  ghost function Counted(t: Tree, before: seq<Proc>, under: bool, mode: Mode): nat
    requires t.entry < |before|
    decreases t
  {
    CountedFrom(t.children, before, under || before[t.entry].collapsed, mode)
  }

  ghost function CountedFrom(ts: seq<Tree>, before: seq<Proc>, hides: bool, mode: Mode): nat
    decreases ts
  {
    if ts == [] then 0
    else
      (if hides && !mode.noUpdate then 1 else 0)
      + (if ts[0].entry < |before| then Counted(ts[0], before, hides, mode) else 0)
      + CountedFrom(ts[1..], before, hides, mode)
  }

  lemma {:induction false} WalkedFrame(
    t: Tree, before: seq<Proc>, a: seq<Proc>, b: seq<Proc>, under: bool, depth: nat, slot: nat, mode: Mode)
    requires Walked(t, before, a, under, depth, slot, mode) && |a| == |b|
    requires forall k :: k in Pre(t) && k < |a| ==> a[k] == b[k]
    ensures Walked(t, before, b, under, depth, slot, mode)
    decreases t
  {
    assert t.entry in Pre(t);
    var hides := under || before[t.entry].collapsed;
    forall j | 0 <= j < |t.children|
      ensures Walked(t.children[j], before, b, hides, depth + 1, j, mode)
      ensures b[t.children[j].entry].filtered == Marked(t.children[j], hides, mode)
    {
      var c := t.children[j];
      PreContains(t.children, j);
      assert c.entry in Pre(c);
      WalkedFrame(c, before, a, b, hides, depth + 1, j, mode);
    }
  }

  lemma {:induction false} PreContains(ts: seq<Tree>, j: nat)
    requires j < |ts|
    ensures forall k :: k in Pre(ts[j]) ==> k in PreAll(ts)
  {
    if j > 0 {
      PreContains(ts[1..], j - 1);
      assert ts[1..][j - 1] == ts[j];
    }
  }

  predicate SameAmounts(a: Proc, b: Proc) {
    a.mem == b.mem && a.threads == b.threads && a.cpuP == b.cpuP && a.cpuC == b.cpuC
  }

  /** `p` with the amounts of `c` added. */
  function Added(p: Proc, c: Proc): Proc {
    p.(cpuP := p.cpuP + c.cpuP, cpuC := p.cpuC + c.cpuC, mem := p.mem + c.mem, threads := p.threads + c.threads)
  }

  /** The amounts at these positions are still the original ones. */
  ghost predicate Unfolded(xs: seq<nat>, ps: seq<Proc>, now: seq<Proc>) {
    |now| == |ps| && forall k :: k in xs && k < |ps| ==> SameAmounts(now[k], ps[k])
  }

  /** A child's subtree does not meet its parent nor another child's subtree. */
  lemma ChildApart(ps: seq<Proc>, rank: seq<nat>, top: nat, i: nat, c: nat)
    requires Forest(ps, rank, top) && i < |ps| && First(ps, i) <= c < Past(ps, i)
    ensures c < |ps| && ps[c].ppid == ps[i].pid && rank[i] < rank[c]
    ensures i !in Pre(TreeOf(ps, rank, top, c))
    ensures forall k :: k in Pre(TreeOf(ps, rank, top, c)) ==> k < |ps| && k in Pre(TreeOf(ps, rank, top, i))
    ensures forall d: nat, k |
              First(ps, i) <= d < Past(ps, i) && d != c && d < |ps| && k in Pre(TreeOf(ps, rank, top, c)) ::
              k !in Pre(TreeOf(ps, rank, top, d))
  {
    ChildRange(ps, i);
    PreIsBelow(ps, rank, top, c, i);
    if Above(ps, rank, top, c, i) { AboveRank(ps, rank, top, c, i); }
    forall k | k in Pre(TreeOf(ps, rank, top, c)) ensures k < |ps| && k in Pre(TreeOf(ps, rank, top, i)) {
      PreIsBelow(ps, rank, top, c, k);
      assert Above(ps, rank, top, i, i) && Above(ps, rank, top, i, c);
      AboveTransitive(ps, rank, top, i, c, k);
      PreIsBelow(ps, rank, top, i, k);
    }
    forall d: nat, k | First(ps, i) <= d < Past(ps, i) && d != c && d < |ps| && k in Pre(TreeOf(ps, rank, top, c))
      ensures k !in Pre(TreeOf(ps, rank, top, d))
    {
      PreIsBelow(ps, rank, top, c, k);
      PreIsBelow(ps, rank, top, d, k);
      SiblingsDisjoint(ps, rank, top, c, d, k);
    }
  }

  lemma {:induction false} SumConcat(xs: seq<nat>, ys: seq<nat>, ps: seq<Proc>, q: Quantity)
    ensures Sum(xs + ys, ps, q) == Sum(xs, ps, q) + Sum(ys, ps, q)
  {
    if xs == [] {
      assert xs + ys == ys;
    } else {
      assert (xs + ys)[1..] == xs[1..] + ys;
      SumConcat(xs[1..], ys, ps, q);
    }
  }

  lemma {:induction false} PreAllSnoc(ts: seq<Tree>, t: Tree)
    ensures PreAll(ts + [t]) == PreAll(ts) + Pre(t)
  {
    if ts == [] {
      assert [t][1..] == [] && [] + [t] == [t];
    } else {
      assert (ts + [t])[1..] == ts[1..] + [t];
      PreAllSnoc(ts[1..], t);
    }
  }

  lemma {:induction false} CountedSnoc(ts: seq<Tree>, t: Tree, before: seq<Proc>, hides: bool, mode: Mode)
    requires t.entry < |before|
    ensures CountedFrom(ts + [t], before, hides, mode)
         == CountedFrom(ts, before, hides, mode) + (if hides && !mode.noUpdate then 1 else 0)
            + Counted(t, before, hides, mode)
  {
    if ts == [] {
      assert [t][1..] == [] && [] + [t] == [t];
    } else {
      assert (ts + [t])[1..] == ts[1..] + [t];
      CountedSnoc(ts[1..], t, before, hides, mode);
    }
  }

  lemma {:induction false} GatheredSnoc(ts: seq<Tree>, t: Tree, ps: seq<Proc>, hides: bool, mode: Mode, q: Quantity)
    ensures GatheredAll(ts + [t], ps, hides, mode, q)
         == GatheredAll(ts, ps, hides, mode, q)
            + if t.entry < |ps| && Takes(ps[t.entry], hides, mode) then Gathered(t, ps, hides, mode, q) else 0.0
  {
    if ts == [] {
      assert [t][1..] == [] && [] + [t] == [t];
    } else {
      assert (ts + [t])[1..] == ts[1..] + [t];
      GatheredSnoc(ts[1..], t, ps, hides, mode, q);
    }
  }

  lemma {:induction false} TreesOfIs(ps: seq<Proc>, rank: seq<nat>, top: nat, i: nat, j: nat, ts: seq<Tree>)
    requires Forest(ps, rank, top) && i < |ps| && First(ps, i) <= j <= Past(ps, i) <= |ps|
    requires |ts| == Past(ps, i) - j
    requires forall m :: 0 <= m < |ts| ==> ts[m] == TreeOf(ps, rank, top, j + m)
    ensures ts == TreesOf(ps, rank, top, i, j)
    decreases |ts|
  {
    if ts != [] {
      forall m | 0 <= m < |ts[1..]| ensures ts[1..][m] == TreeOf(ps, rank, top, j + 1 + m) {
        assert ts[1..][m] == ts[m + 1];
      }
      TreesOfIs(ps, rank, top, i, j + 1, ts[1..]);
      assert ts == [ts[0]] + ts[1..];
    }
  }

  // ----- the walk -----

  /** A child in place `j` has been walked and marked. */
  ghost predicate KidWalked(kid: Tree, j: nat, ps: seq<Proc>, now: seq<Proc>, hides: bool, depth: nat, mode: Mode) {
    Walked(kid, ps, now, hides, depth, j, mode) && now[kid.entry].filtered == Marked(kid, hides, mode)
  }

  /** The children visited so far have been walked and marked. */
  ghost predicate AllWalked(kids: seq<Tree>, ps: seq<Proc>, now: seq<Proc>, hides: bool, depth: nat, mode: Mode) {
    forall j :: 0 <= j < |kids| ==> KidWalked(kids[j], j, ps, now, hides, depth, mode)
  }

  /** These are the trees of the first children of `i`. */
  ghost predicate FirstKids(ps: seq<Proc>, rank: seq<nat>, top: nat, i: nat, kids: seq<Tree>)
    requires Forest(ps, rank, top) && i < |ps| && First(ps, i) + |kids| <= |ps|
  {
    forall j :: 0 <= j < |kids| ==> kids[j] == TreeOf(ps, rank, top, First(ps, i) + j)
  }

  /** `i` has its own amounts and those taken over from its children's subtrees. */
  ghost predicate Gathers(i: nat, kids: seq<Tree>, ps: seq<Proc>, now: seq<Proc>, hides: bool, mode: Mode)
    requires i < |ps| && i < |now|
  {
    forall q: Quantity :: Amount(now[i], q) == Amount(ps[i], q) + GatheredAll(kids, ps, hides, mode, q)
  }

  /** The state of the list while the children of `i` before `c` have been visited. */
  ghost predicate Visiting(ps: seq<Proc>, rank: seq<nat>, top: nat, i: nat, c: nat, now: seq<Proc>, kids: seq<Tree>,
                           under: bool, depth: nat, slot: nat, mode: Mode)
    requires Forest(ps, rank, top) && i < |ps| && First(ps, i) <= c <= Past(ps, i) <= |ps|
  {
    var hides := under || ps[i].collapsed;
    && SameShape(now, ps) && |kids| == c - First(ps, i)
    && FirstKids(ps, rank, top, i, kids) && AllWalked(kids, ps, now, hides, depth + 1, mode)
    && now[i].depth == depth && now[i].treeIndex == (if under then |ps| else slot)
    && now[i].filtered == (under && kids != [])
    && Gathers(i, kids, ps, now, hides, mode)
  }

  /** Positions outside `i` and the visited subtrees are untouched. */
  ghost predicate Untouched(i: nat, kids: seq<Tree>, was: seq<Proc>, now: seq<Proc>) {
    Beside(i, PreAll(kids), was, now)
  }

  /** Two states agree beside `i` and the given positions. */
  ghost predicate Beside(i: nat, xs: seq<nat>, was: seq<Proc>, now: seq<Proc>) {
    |was| == |now| && forall k :: 0 <= k < |now| && k != i && k !in xs ==> now[k] == was[k]
  }

  /** The visited children meet neither `i` nor the next child's subtree. */
  ghost predicate Apart(i: nat, kids: seq<Tree>, sub: Tree) {
    i !in Pre(sub) && forall k :: k in PreAll(kids) ==> k != i && k !in Pre(sub)
  }

  lemma {:induction false} PreAllFind(ts: seq<Tree>, k: nat) returns (j: nat)
    requires k in PreAll(ts)
    ensures j < |ts| && k in Pre(ts[j])
  {
    if k in Pre(ts[0]) {
      j := 0;
    } else {
      j := PreAllFind(ts[1..], k);
      j := j + 1;
    }
  }

  lemma KidsApart(ps: seq<Proc>, rank: seq<nat>, top: nat, i: nat, c: nat, kids: seq<Tree>)
    requires Forest(ps, rank, top) && i < |ps| && First(ps, i) <= c < Past(ps, i) <= |ps|
    requires |kids| == c - First(ps, i) && FirstKids(ps, rank, top, i, kids)
    ensures Apart(i, kids, TreeOf(ps, rank, top, c))
  {
    ChildApart(ps, rank, top, i, c);
    forall k | k in PreAll(kids) ensures k != i && k !in Pre(TreeOf(ps, rank, top, c)) {
      var j := PreAllFind(kids, k);
      ChildApart(ps, rank, top, i, First(ps, i) + j);
    }
  }

  /** The next child's subtree still has its original amounts. */
  lemma ChildUnfolded(ps: seq<Proc>, below: seq<nat>, i: nat, kids: seq<Tree>, sub: Tree,
                      was: seq<Proc>, now: seq<Proc>)
    requires Unfolded(below, ps, was) && Untouched(i, kids, was, now) && Apart(i, kids, sub)
    requires forall k :: k in Pre(sub) ==> k in below
    ensures Unfolded(Pre(sub), ps, now)
  {
    forall k | k in Pre(sub) && k < |ps| ensures SameAmounts(now[k], ps[k]) {
      assert now[k] == was[k];
    }
  }

  /** The range of children of `i`, by two binary searches. */
  method ChildBounds(a: array<Proc>, i: nat, ghost ps: seq<Proc>) returns (lo: nat, hi: nat)
    requires Sorted(ps) && SameShape(a[..], ps) && i < |ps|
    ensures lo == First(ps, i) <= Past(ps, i) == hi <= |ps|
  {
    ShapeKeepsOrder(a[..], ps);
    ChildRange(ps, i);
    assert a[..][i].pid == ps[i].pid;
    lo := LowerBound(a, a[i].pid);
    hi := LowerBound(a, a[i].pid + 1);
  }

  lemma StartVisiting(ps: seq<Proc>, rank: seq<nat>, top: nat, i: nat, was: seq<Proc>,
                      under: bool, depth: nat, slot: nat, mode: Mode)
    requires Forest(ps, rank, top) && i < |ps| && First(ps, i) <= Past(ps, i) <= |ps|
    requires SameShape(was, ps) && Unfolded(Pre(TreeOf(ps, rank, top, i)), ps, was)
    ensures var now := was[i := was[i].(filtered := false, depth := depth, treeIndex := if under then |ps| else slot)];
      Visiting(ps, rank, top, i, First(ps, i), now, [], under, depth, slot, mode) && Untouched(i, [], was, now)
  {
    assert i in Pre(TreeOf(ps, rank, top, i));
  }

  lemma EndVisiting(ps: seq<Proc>, rank: seq<nat>, top: nat, i: nat, now: seq<Proc>, kids: seq<Tree>,
                    under: bool, depth: nat, slot: nat, mode: Mode)
    requires Forest(ps, rank, top) && i < |ps| && First(ps, i) <= Past(ps, i) <= |ps|
    requires Visiting(ps, rank, top, i, Past(ps, i), now, kids, under, depth, slot, mode)
    ensures Node(i, kids) == TreeOf(ps, rank, top, i)
    ensures Walked(Node(i, kids), ps, now, under, depth, slot, mode)
  {
    TreesOfIs(ps, rank, top, i, First(ps, i), kids);
    CarriesOwn(i, kids, ps, now, under, mode);
    forall j | 0 <= j < |kids|
      ensures Walked(kids[j], ps, now, under || ps[i].collapsed, depth + 1, j, mode)
      ensures now[kids[j].entry].filtered == Marked(kids[j], under || ps[i].collapsed, mode)
    {
      assert KidWalked(kids[j], j, ps, now, under || ps[i].collapsed, depth + 1, mode);
    }
  }

  lemma CarriesOwn(i: nat, kids: seq<Tree>, ps: seq<Proc>, now: seq<Proc>, under: bool, mode: Mode)
    requires i < |ps| && i < |now| && Gathers(i, kids, ps, now, under || ps[i].collapsed, mode)
    ensures Carries(Node(i, kids), ps, now, under, mode)
  {
  }

  /** Earlier subtrees are not disturbed by changes to `i` and to the next child's subtree. */
  lemma EarlierKept(i: nat, kids: seq<Tree>, sub: Tree, ps: seq<Proc>, a: seq<Proc>, b: seq<Proc>, hides: bool,
                    depth: nat, mode: Mode)
    requires AllWalked(kids, ps, a, hides, depth, mode) && Apart(i, kids, sub) && Beside(i, Pre(sub), a, b)
    ensures AllWalked(kids, ps, b, hides, depth, mode)
  {
    forall j | 0 <= j < |kids| ensures KidWalked(kids[j], j, ps, b, hides, depth, mode) {
      assert KidWalked(kids[j], j, ps, a, hides, depth, mode);
      PreContains(kids, j);
      assert kids[j].entry in Pre(kids[j]);
      WalkedFrame(kids[j], ps, a, b, hides, depth, j, mode);
    }
  }

  lemma NotBelowItself(ps: seq<Proc>, rank: seq<nat>, top: nat, c: nat)
    requires Forest(ps, rank, top) && c < |ps|
    ensures c !in PreAll(TreeOf(ps, rank, top, c).children)
  {
    ChildRange(ps, c);
    PreAllIsBelow(ps, rank, top, c, First(ps, c), c);
    forall d: nat | First(ps, c) <= d < Past(ps, c) && d < |ps| ensures !Above(ps, rank, top, d, c) {
      if Above(ps, rank, top, d, c) { AboveRank(ps, rank, top, d, c); }
    }
  }

  /** Marking a subtree's root as hidden does not disturb its walk. */
  lemma MarkKeepsWalked(t: Tree, ps: seq<Proc>, a: seq<Proc>, b: seq<Proc>, under: bool, depth: nat, slot: nat,
                        mode: Mode)
    requires Walked(t, ps, a, under, depth, slot, mode) && |a| == |b| && t.entry !in PreAll(t.children)
    requires forall k :: k in PreAll(t.children) && k < |a| ==> a[k] == b[k]
    requires b[t.entry] == a[t.entry].(filtered := b[t.entry].filtered)
    ensures Walked(t, ps, b, under, depth, slot, mode)
  {
    var hides := under || ps[t.entry].collapsed;
    forall j | 0 <= j < |t.children|
      ensures Walked(t.children[j], ps, b, hides, depth + 1, j, mode)
      ensures b[t.children[j].entry].filtered == Marked(t.children[j], hides, mode)
    {
      PreContains(t.children, j);
      assert t.children[j].entry in Pre(t.children[j]);
      WalkedFrame(t.children[j], ps, a, b, hides, depth + 1, j, mode);
    }
  }

  /** Lets a child's amounts be taken over by its parent, and hides the child. */
  ghost function Taken(s: seq<Proc>, i: nat, c: nat, takes: bool, hides: bool): (r: seq<Proc>)
    requires i < |s| && c < |s| && i != c
    ensures |r| == |s|
  {
    var added := if takes then s[i := Added(s[i], s[c])] else s;
    if hides then added[c := added[c].(filtered := true)] else added
  }

  /** What taking over does in a given mode. */
  ghost function TakenIn(ps: seq<Proc>, s: seq<Proc>, i: nat, c: nat, hides: bool, mode: Mode): (r: seq<Proc>)
    requires i < |s| && c < |s| && c < |ps| && i != c
    ensures |r| == |s|
  {
    Taken(s, i, c, Takes(ps[c], hides, mode), hides && !mode.noUpdate)
  }

  /** What the walk of `sub` leaves, before its parent marks it. */
  ghost predicate Unmarked(
    sub: Tree, ps: seq<Proc>, s2: seq<Proc>, hides: bool, depth: nat, slot: nat, mode: Mode)
  {
    && Walked(sub, ps, s2, hides, depth, slot, mode) && sub.entry !in PreAll(sub.children)
    && s2[sub.entry].filtered == (hides && sub.children != [])
  }

  /** A walked child is marked by the taking over, which leaves its subtree walked. */
  lemma SubtreeTaken(i: nat, sub: Tree, ps: seq<Proc>, s2: seq<Proc>, hides: bool, depth: nat, slot: nat, mode: Mode)
    requires Unmarked(sub, ps, s2, hides, depth, slot, mode) && i < |s2| && i !in Pre(sub)
    ensures sub.entry in Pre(sub)
    ensures KidWalked(sub, slot, ps, TakenIn(ps, s2, i, sub.entry, hides, mode), hides, depth, mode)
  {
    assert Pre(sub)[0] == sub.entry && Pre(sub)[1..] == PreAll(sub.children);
    MarkKeepsWalked(sub, ps, s2, TakenIn(ps, s2, i, sub.entry, hides, mode), hides, depth, slot, mode);
  }

  lemma AmountsAdded(p: Proc, c: Proc, q: Quantity)
    ensures Amount(Added(p, c), q) == Amount(p, q) + Amount(c, q)
  {
  }

  lemma GathersSame(i: nat, kids: seq<Tree>, ps: seq<Proc>, a: seq<Proc>, b: seq<Proc>, hides: bool, mode: Mode)
    requires i < |ps| && i < |a| && i < |b| && SameAmounts(b[i], a[i]) && Gathers(i, kids, ps, a, hides, mode)
    ensures Gathers(i, kids, ps, b, hides, mode)
  {
    forall q: Quantity ensures Amount(b[i], q) == Amount(a[i], q) {}
  }

  lemma GathersTaken(i: nat, kids: seq<Tree>, sub: Tree, ps: seq<Proc>, s2: seq<Proc>, hides: bool, mode: Mode)
    requires i < |ps| && i < |s2| && i != sub.entry && Gathers(i, kids, ps, s2, hides, mode)
    requires Carries(sub, ps, s2, hides, mode)
    ensures Gathers(i, kids + [sub], ps, TakenIn(ps, s2, i, sub.entry, hides, mode), hides, mode)
  {
    forall q: Quantity
      ensures Amount(TakenIn(ps, s2, i, sub.entry, hides, mode)[i], q)
           == Amount(ps[i], q) + GatheredAll(kids + [sub], ps, hides, mode, q)
    {
      GatheredSnoc(kids, sub, ps, hides, mode, q);
      AmountsAdded(s2[i], s2[sub.entry], q);
    }
  }

  lemma TakenShape(ps: seq<Proc>, i: nat, c: nat, s2: seq<Proc>, takes: bool, hides: bool)
    requires SameShape(s2, ps) && i < |ps| && c < |ps| && i != c
    ensures var r := Taken(s2, i, c, takes, hides);
      && SameShape(r, ps)
      && r[i].depth == s2[i].depth && r[i].treeIndex == s2[i].treeIndex && r[i].filtered == s2[i].filtered
  {
  }

  lemma TakenBeside(i: nat, below: seq<nat>, c: nat, s0: seq<Proc>, s2: seq<Proc>, takes: bool, hides: bool)
    requires Beside(i, below, s0, s2) && i < |s2| && c < |s2| && i != c && c in below
    ensures Beside(i, below, s0, Taken(s2, i, c, takes, hides))
  {
  }

  lemma WalksTaken(i: nat, kids: seq<Tree>, sub: Tree, ps: seq<Proc>, s0: seq<Proc>, s2: seq<Proc>, hides: bool,
                   depth: nat, mode: Mode)
    requires AllWalked(kids, ps, s0, hides, depth, mode) && Apart(i, kids, sub) && i < |s2|
    requires Unmarked(sub, ps, s2, hides, depth, |kids|, mode) && Beside(i, Pre(sub), s0, s2)
    ensures sub.entry in Pre(sub)
    ensures AllWalked(kids + [sub], ps, TakenIn(ps, s2, i, sub.entry, hides, mode), hides, depth, mode)
    ensures Beside(i, Pre(sub), s0, TakenIn(ps, s2, i, sub.entry, hides, mode))
  {
    SubtreeTaken(i, sub, ps, s2, hides, depth, |kids|, mode);
    TakenBeside(i, Pre(sub), sub.entry, s0, s2, Takes(ps[sub.entry], hides, mode), hides && !mode.noUpdate);
    EarlierKept(i, kids, sub, ps, s0, TakenIn(ps, s2, i, sub.entry, hides, mode), hides, depth, mode);
  }

  lemma OneMoreKid(ps: seq<Proc>, rank: seq<nat>, top: nat, i: nat, c: nat, kids: seq<Tree>)
    requires Forest(ps, rank, top) && i < |ps| && First(ps, i) <= c < Past(ps, i) <= |ps|
    requires |kids| == c - First(ps, i) && FirstKids(ps, rank, top, i, kids)
    ensures FirstKids(ps, rank, top, i, kids + [TreeOf(ps, rank, top, c)])
  {
  }

  /** The state after visiting one more child. */
  lemma ChildVisited(ps: seq<Proc>, rank: seq<nat>, top: nat, i: nat, c: nat, s0: seq<Proc>, s2: seq<Proc>,
                     kids: seq<Tree>, sub: Tree, under: bool, depth: nat, slot: nat, mode: Mode)
    requires Forest(ps, rank, top) && i < |ps| && i != c
    requires First(ps, i) <= c < Past(ps, i) <= |ps| && SameShape(s2, ps)
    requires sub == TreeOf(ps, rank, top, c) && Apart(i, kids, sub)
    requires Visiting(ps, rank, top, i, c, s0, kids, under, depth, slot, mode)
    requires s2[i] == s0[i].(filtered := under) && Beside(i, Pre(sub), s0, s2)
    requires Unmarked(sub, ps, s2, under || ps[i].collapsed, depth + 1, |kids|, mode)
    ensures var s3 := TakenIn(ps, s2, i, c, under || ps[i].collapsed, mode);
      && Visiting(ps, rank, top, i, c + 1, s3, kids + [sub], under, depth, slot, mode)
      && Beside(i, Pre(sub), s0, s3)
  {
    var hides := under || ps[i].collapsed;
    OneMoreKid(ps, rank, top, i, c, kids);
    TakenShape(ps, i, c, s2, Takes(ps[c], hides, mode), hides && !mode.noUpdate);
    WalksTaken(i, kids, sub, ps, s0, s2, hides, depth + 1, mode);
    GathersSame(i, kids, ps, s0, s2, hides, mode);
    GathersTaken(i, kids, sub, ps, s2, hides, mode);
  }

  lemma StillUntouched(i: nat, kids: seq<Tree>, sub: Tree, was: seq<Proc>, s0: seq<Proc>, s3: seq<Proc>)
    requires Untouched(i, kids, was, s0) && Beside(i, Pre(sub), s0, s3)
    ensures Untouched(i, kids + [sub], was, s3)
  {
    PreAllSnoc(kids, sub);
  }

  /**
   What `i` does with its child `c` after that was walked: on an update, a folded child is hidden and counted.
   Its amounts are taken over then, or if all are to be aggregated, but not from a dead child.
   */
  method TakeOver(a: array<Proc>, i: nat, c: nat, hides: bool, mode: Mode) returns (found: nat)
    requires i < a.Length && c < a.Length && i != c
    modifies a
    ensures a[..] == TakenIn(old(a[..]), old(a[..]), i, c, hides, mode)
    ensures found == if hides && !mode.noUpdate then 1 else 0
  {
    found := 0;
    if !mode.noUpdate && hides {
      if !a[c].dead {
        a[i] := Added(a[i], a[c]);
      }
      found := 1;
      a[c] := a[c].(filtered := true);
    } else if mode.aggregate && !a[c].dead {
      a[i] := Added(a[i], a[c]);
    }
  }

  /** What a child finds when its walk starts: only `i` has been marked since the last child. */
  lemma BeforeChild(ps: seq<Proc>, rank: seq<nat>, top: nat, i: nat, c: nat, s0: seq<Proc>, kids: seq<Tree>,
                    under: bool, depth: nat, slot: nat, mode: Mode, was: seq<Proc>)
    requires Forest(ps, rank, top) && i < |ps| && First(ps, i) <= c < Past(ps, i) <= |ps|
    requires Visiting(ps, rank, top, i, c, s0, kids, under, depth, slot, mode)
    requires Unfolded(Pre(TreeOf(ps, rank, top, i)), ps, was) && Untouched(i, kids, was, s0)
    ensures i != c && rank[i] < rank[c] && Apart(i, kids, TreeOf(ps, rank, top, c))
    ensures ps[i].collapsed == s0[i].collapsed
    ensures var s1 := s0[i := s0[i].(filtered := under || s0[i].filtered)];
      && SameShape(s1, ps) && s1[i] == s0[i].(filtered := under)
      && Unfolded(Pre(TreeOf(ps, rank, top, c)), ps, s1)
  {
    ChildApart(ps, rank, top, i, c);
    KidsApart(ps, rank, top, i, c, kids);
    var s1 := s0[i := s0[i].(filtered := under || s0[i].filtered)];
    ChildUnfolded(ps, Pre(TreeOf(ps, rank, top, i)), i, kids, TreeOf(ps, rank, top, c), was, s1);
  }

  /** Visits one child: walks it, then lets `i` take over its amounts if it is hidden. */
  method VisitChild(a: array<Proc>, i: nat, c: nat, depth: nat, under: bool, slot: nat, kids: seq<Tree>, mode: Mode,
                    ghost ps: seq<Proc>, ghost rank: seq<nat>, ghost top: nat, ghost was: seq<Proc>)
    returns (sub: Tree, found: nat)
    requires Forest(ps, rank, top) && i < |ps|
    requires First(ps, i) <= c < Past(ps, i) <= |ps|
    requires Visiting(ps, rank, top, i, c, a[..], kids, under, depth, slot, mode)
    requires Unfolded(Pre(TreeOf(ps, rank, top, i)), ps, was) && Untouched(i, kids, was, a[..])
    modifies a
    ensures Visiting(ps, rank, top, i, c + 1, a[..], kids + [sub], under, depth, slot, mode)
    ensures Untouched(i, kids + [sub], was, a[..])
    ensures sub.entry < |ps|
    ensures found == (if (under || ps[i].collapsed) && !mode.noUpdate then 1 else 0)
                     + Counted(sub, ps, under || ps[i].collapsed, mode)
    decreases top - rank[i], 0
  {
    ghost var s0 := a[..];
    BeforeChild(ps, rank, top, i, c, s0, kids, under, depth, slot, mode, was);
    var hides := under || a[i].collapsed;
    if under {
      a[i] := a[i].(filtered := true);
    }
    assert a[..] == s0[i := s0[i].(filtered := under || s0[i].filtered)];
    sub, found := TreeGen(a, c, depth + 1, hides, |kids|, mode, ps, rank, top);
    NotBelowItself(ps, rank, top, c);
    ChildVisited(ps, rank, top, i, c, s0, a[..], kids, sub, under, depth, slot, mode);
    var more := TakeOver(a, i, c, hides, mode);
    StillUntouched(i, kids, sub, was, s0, a[..]);
    found := found + more;
  }

  method TreeGen(a: array<Proc>, i: nat, depth: nat, under: bool, slot: nat, mode: Mode,
                 ghost ps: seq<Proc>, ghost rank: seq<nat>, ghost top: nat)
    returns (t: Tree, found: nat)
    requires Forest(ps, rank, top) && i < |ps| && SameShape(a[..], ps)
    requires Unfolded(Pre(TreeOf(ps, rank, top, i)), ps, a[..])
    modifies a
    ensures SameShape(a[..], ps) && t == TreeOf(ps, rank, top, i)
    ensures Walked(t, ps, a[..], under, depth, slot, mode)
    ensures a[i].filtered == (under && t.children != [])
    ensures found == Counted(t, ps, under, mode)
    ensures forall k :: 0 <= k < a.Length && k !in Pre(t) ==> a[k] == old(a[k])
    decreases top - rank[i], 1
  {
    ghost var was := a[..];
    ChildRange(ps, i);
    StartVisiting(ps, rank, top, i, was, under, depth, slot, mode);
    a[i] := a[i].(filtered := false, depth := depth, treeIndex := if under then a.Length else slot);
    var lo, hi := ChildBounds(a, i, ps);
    var kids := [];
    found := 0;
    for c := lo to hi
      invariant Visiting(ps, rank, top, i, c, a[..], kids, under, depth, slot, mode)
      invariant Untouched(i, kids, was, a[..])
      invariant found == CountedFrom(kids, ps, under || ps[i].collapsed, mode)
    {
      var sub, n := VisitChild(a, i, c, depth, under, slot, kids, mode, ps, rank, top, was);
      CountedSnoc(kids, sub, ps, under || ps[i].collapsed, mode);
      kids := kids + [sub];
      found := found + n;
    }
    EndVisiting(ps, rank, top, i, a[..], kids, under, depth, slot, mode);
    t := Node(i, kids);
  }
}
