/** The list sorted by row number, the last step of the process view. */
module Reordering {
  import opened Collections
  import opened ProcTree

  function InsertByIndex(p: Proc, s: seq<Proc>): seq<Proc> {
    if s == [] || p.treeIndex <= s[0].treeIndex then [p] + s else [s[0]] + InsertByIndex(p, s[1..])
  }

  /** The library's stable sort by row number. */
  function ByIndex(s: seq<Proc>): seq<Proc> {
    if s == [] then [] else InsertByIndex(s[0], ByIndex(s[1..]))
  }

  predicate Ascending(s: seq<Proc>) {
    forall i, j :: 0 <= i < j < |s| ==> s[i].treeIndex <= s[j].treeIndex
  }

  /** The rows with number `n`, as they stand. */
  function WithIndex(s: seq<Proc>, n: nat): seq<Proc> {
    if s == [] then [] else (if s[0].treeIndex == n then [s[0]] else []) + WithIndex(s[1..], n)
  }

  lemma {:induction false} InsertKeeps(p: Proc, s: seq<Proc>)
    ensures multiset(InsertByIndex(p, s)) == multiset(s) + multiset{p}
  {
    if s == [] || p.treeIndex <= s[0].treeIndex {
    } else {
      InsertKeeps(p, s[1..]);
      assert s == [s[0]] + s[1..];
    }
  }

  lemma {:induction false} InsertAscending(p: Proc, s: seq<Proc>)
    requires Ascending(s)
    ensures Ascending(InsertByIndex(p, s))
  {
    if s == [] || p.treeIndex <= s[0].treeIndex {
    } else {
      InsertAscending(p, s[1..]);
      InsertKeeps(p, s[1..]);
      AscendingCons(s[0], InsertByIndex(p, s[1..]), s[1..] + [p]);
    }
  }

  /** A row no higher than the rest, in front of the rest in order. */
  lemma AscendingCons(x: Proc, r: seq<Proc>, all: seq<Proc>)
    requires Ascending(r) && multiset(r) == multiset(all)
    requires forall i :: 0 <= i < |all| ==> x.treeIndex <= all[i].treeIndex
    ensures Ascending([x] + r)
  {
    forall i | 0 <= i < |r| ensures x.treeIndex <= r[i].treeIndex { var j := PlaceOf(r[i], all, multiset(r)); }
  }

  lemma WithIndexCons(x: Proc, s: seq<Proc>, n: nat)
    ensures WithIndex([x] + s, n) == (if x.treeIndex == n then [x] else []) + WithIndex(s, n)
  {
    assert ([x] + s)[1..] == s;
  }

  lemma Exchange(a: seq<Proc>, b: seq<Proc>, rest: seq<Proc>)
    requires a == [] || b == []
    ensures a + (b + rest) == b + (a + rest)
  {
    assert [] + rest == rest && [] + (a + rest) == a + rest && [] + (b + rest) == b + rest;
  }

  lemma {:induction false} InsertStable(p: Proc, s: seq<Proc>, n: nat)
    ensures WithIndex(InsertByIndex(p, s), n) == (if p.treeIndex == n then [p] else []) + WithIndex(s, n)
  {
    if s == [] || p.treeIndex <= s[0].treeIndex {
      WithIndexCons(p, s, n);
    } else {
      InsertStable(p, s[1..], n);
      WithIndexCons(s[0], InsertByIndex(p, s[1..]), n);
      Exchange(if s[0].treeIndex == n then [s[0]] else [], if p.treeIndex == n then [p] else [], WithIndex(s[1..], n));
    }
  }

  lemma {:induction false} ByIndexOrders(s: seq<Proc>)
    ensures multiset(ByIndex(s)) == multiset(s) && Ascending(ByIndex(s))
  {
    if s == [] {
    } else {
      ByIndexOrders(s[1..]);
      InsertKeeps(s[0], ByIndex(s[1..]));
      InsertAscending(s[0], ByIndex(s[1..]));
      assert s == [s[0]] + s[1..];
    }
  }

  lemma {:induction false} ByIndexIsStable(s: seq<Proc>, n: nat)
    ensures WithIndex(ByIndex(s), n) == WithIndex(s, n)
  {
    if s == [] {
    } else {
      ByIndexIsStable(s[1..], n);
      InsertStable(s[0], ByIndex(s[1..]), n);
    }
  }

  /** The sort's contract: the same rows, by number, rows with equal numbers as they stood. */
  lemma ByIndexContract(s: seq<Proc>, n: nat)
    ensures multiset(ByIndex(s)) == multiset(s) && Ascending(ByIndex(s)) && WithIndex(ByIndex(s), n) == WithIndex(s, n)
  {
    ByIndexOrders(s);
    ByIndexIsStable(s, n);
  }

  function ShownProcs(s: seq<Proc>): seq<Proc> {
    if s == [] then [] else (if s[0].filtered then [] else [s[0]]) + ShownProcs(s[1..])
  }

  lemma {:induction false} ShownCount(s: seq<Proc>, p: Proc)
    ensures multiset(ShownProcs(s))[p] == if p.filtered then 0 else multiset(s)[p]
  {
    if s == [] {
    } else {
      ShownCount(s[1..], p);
      WithoutFirst(s);
      assert multiset(ShownProcs(s))
          == (if s[0].filtered then multiset{} else multiset{s[0]}) + multiset(ShownProcs(s[1..]));
    }
  }

  lemma {:induction false} ShownAscending(s: seq<Proc>)
    requires Ascending(s)
    ensures Ascending(ShownProcs(s))
  {
    if s == [] {
    } else {
      var r := ShownProcs(s[1..]);
      ShownAscending(s[1..]);
      forall i | 0 <= i < |r| ensures s[0].treeIndex <= r[i].treeIndex {
        assert r[i] in multiset(r);
        ShownCount(s[1..], r[i]);
        assert r[i] in s[1..];
      }
    }
  }

  lemma SameFirst(f: seq<Proc>, g: seq<Proc>)
    requires multiset(f) == multiset(g) && Ascending(f) && f != [] && g != []
    requires forall i, j :: 0 <= i < j < |g| ==> g[i].treeIndex < g[j].treeIndex
    ensures f[0] == g[0]
  {
    var i := PlaceOf(f[0], g, multiset(f));
    var j := PlaceOf(g[0], f, multiset(g));
  }

  /** Two arrangements of the same rows are equal if one is numbered strictly and the other in order. */
  lemma {:induction false} SameOrder(f: seq<Proc>, g: seq<Proc>)
    requires multiset(f) == multiset(g) && Ascending(f)
    requires forall i, j :: 0 <= i < j < |g| ==> g[i].treeIndex < g[j].treeIndex
    ensures f == g
    decreases |f|
  {
    assert |f| == |multiset(f)| == |g|;
    if f == [] {
    } else {
      SameFirst(f, g);
      WithoutFirst(f);
      WithoutFirst(g);
      SameOrder(f[1..], g[1..]);
      assert f == [f[0]] + f[1..] && g == [g[0]] + g[1..];
    }
  }

  lemma {:induction false} NoneBelow(s: seq<Proc>, n: nat)
    requires forall i :: 0 <= i < |s| ==> s[i].treeIndex > n
    ensures WithIndex(s, n) == []
  {
    if s == [] {
    } else {
      forall i | 0 <= i < |s[1..]| ensures s[1..][i].treeIndex > n { assert s[1..][i] == s[i + 1]; }
      NoneBelow(s[1..], n);
    }
  }

  /** A list in order starts with its rows numbered 0, followed by those numbered 1. */
  lemma {:induction false} FirstBlocks(s: seq<Proc>)
    requires Ascending(s)
    ensures WithIndex(s, 0) + WithIndex(s, 1) <= s
  {
    if s == [] {
    } else {
      var rest := s[1..];
      FirstBlocks(rest);
      assert s == [s[0]] + rest;
      if s[0].treeIndex == 0 {
        assert [s[0]] + WithIndex(rest, 0) + WithIndex(rest, 1) == [s[0]] + (WithIndex(rest, 0) + WithIndex(rest, 1));
      } else {
        NoneBelow(rest, 0);
        if s[0].treeIndex > 1 { NoneBelow(rest, 1); }
      }
    }
  }

  /** Sorting by number puts the rows numbered 1 behind those numbered 0, as they stood. */
  lemma RowsNumberedOne(s: seq<Proc>)
    ensures WithIndex(s, 0) + WithIndex(s, 1) <= ByIndex(s)
  {
    ByIndexContract(s, 0);
    ByIndexContract(s, 1);
    FirstBlocks(ByIndex(s));
  }

  lemma {:induction false} HasIndex(s: seq<Proc>, k: nat)
    requires k < |s|
    ensures s[k] in WithIndex(s, s[k].treeIndex)
  {
    if k == 0 {
      assert ([s[0]] + WithIndex(s[1..], s[0].treeIndex))[0] == s[0];
    } else {
      HasIndex(s[1..], k - 1);
    }
  }

  /** Sorts the list in place. */
  method Reorder(a: array<Proc>)
    modifies a
    ensures a[..] == ByIndex(old(a[..]))
  {
    var s := ByIndex(a[..]);
    ByIndexContract(a[..], 0);
    assert |multiset(s)| == |s| && |multiset(a[..])| == a.Length;
    forall i | 0 <= i < a.Length { a[i] := s[i]; }
  }
}
