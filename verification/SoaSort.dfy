/** The key-extraction sort for long process lists, and what a display limit does to the rest of the list. */
module SoaSorting {
  import opened Collections

  /** A process: `name` stands for its strings, `key` for the number it is sorted by. */
  datatype Row = Row(pid: nat, key: real, name: string)

  /** A row whose strings have been moved out; its numbers remain. */
  function Husk(r: Row): Row {
    r.(name := "")
  }

  predicate Better(a: Row, b: Row, ascending: bool) {
    if ascending then a.key < b.key else a.key > b.key
  }

  /** How many places are sorted. */
  function Places(size: nat, limit: int): nat {
    if 0 < limit < size then limit else size
  }

  predicate IsPermutation(idx: seq<nat>, size: nat) {
    && |idx| == size
    && (forall i :: 0 <= i < size ==> idx[i] < size)
    && (forall i, j :: 0 <= i < j < size ==> idx[i] != idx[j])
  }

  /** The contract of `partial_sort`: `idx` lists the rows with the best `n` in front, in order. */
  ghost predicate PartlySorted(s: seq<Row>, idx: seq<nat>, n: nat, ascending: bool) {
    && IsPermutation(idx, |s|) && n <= |s|
    && (forall i, j :: 0 <= i < j < |s| && i < n ==> !Better(s[idx[j]], s[idx[i]], ascending))
  }

  /** The library's partial sort of row indices by key. */
  method PartialSort(s: seq<Row>, n: nat, ascending: bool) returns (idx: seq<nat>)
    requires n <= |s|
    ensures PartlySorted(s, idx, n, ascending)
  {
    idx := seq(|s|, (i: nat) => i);
    for i := 0 to n
      invariant PartlySorted(s, idx, i, ascending)
    {
      var best := i;
      for j := i + 1 to |s|
        invariant i <= best < |s|
        invariant forall k :: i <= k < j ==> !Better(s[idx[k]], s[idx[best]], ascending)
      {
        if Better(s[idx[j]], s[idx[best]], ascending) {
          best := j;
        }
      }
      idx := idx[i := idx[best]][best := idx[i]];
    }
  }

  /** The list after sorting: chosen rows in front, and behind them what was there, emptied if it was chosen. */
  function Result(s: seq<Row>, chosen: seq<nat>): (r: seq<Row>)
    requires |chosen| <= |s| && forall i :: 0 <= i < |chosen| ==> chosen[i] < |s|
    ensures |r| == |s|
  {
    seq(|s|, (j: nat) requires j < |s| =>
      if j < |chosen| then s[chosen[j]] else if j in chosen then Husk(s[j]) else s[j])
  }

  /** Moves the chosen rows out of the list, in order, leaving their husks. */
  method MoveOut(a: array<Row>, chosen: seq<nat>) returns (front: seq<Row>)
    requires forall i :: 0 <= i < |chosen| ==> chosen[i] < a.Length
    requires forall i, j :: 0 <= i < j < |chosen| ==> chosen[i] != chosen[j]
    modifies a
    ensures |front| == |chosen| && forall k :: 0 <= k < |chosen| ==> front[k] == old(a[chosen[k]])
    ensures forall k :: 0 <= k < a.Length ==> a[k] == if k in chosen then Husk(old(a[k])) else old(a[k])
  {
    front := [];
    for j := 0 to |chosen|
      invariant |front| == j && forall k :: 0 <= k < j ==> front[k] == old(a[chosen[k]])
      invariant forall k :: 0 <= k < a.Length ==> a[k] == if k in chosen[..j] then Husk(old(a[k])) else old(a[k])
    {
      assert chosen[j] !in chosen[..j];
      front := front + [a[chosen[j]]];
      a[chosen[j]] := Husk(a[chosen[j]]);
      assert chosen[..j + 1] == chosen[..j] + [chosen[j]];
    }
    assert chosen[..|chosen|] == chosen;
  }

  /** Moves rows to the front of the list. */
  method MoveIn(a: array<Row>, front: seq<Row>)
    requires |front| <= a.Length
    modifies a
    ensures forall k :: 0 <= k < a.Length ==> a[k] == if k < |front| then front[k] else old(a[k])
  {
    for j := 0 to |front|
      invariant forall k :: 0 <= k < a.Length ==> a[k] == if k < j then front[k] else old(a[k])
    {
      a[j] := front[j];
    }
  }

  /** Sorts in place; `idx` is the order the library chose. */
  method SoaSort(a: array<Row>, ascending: bool, limit: int) returns (ghost idx: seq<nat>)
    modifies a
    ensures PartlySorted(old(a[..]), idx, Places(a.Length, limit), ascending)
    ensures a[..] == Result(old(a[..]), idx[..Places(a.Length, limit)])
  {
    var n := Places(a.Length, limit);
    var keys := PartialSort(a[..], n, ascending);
    idx := keys;
    var front := MoveOut(a, keys[..n]);
    MoveIn(a, front);
  }

  // ----- permutations -----

  /** Distinct positions below their number reach every position. */
  lemma Find(idx: seq<nat>, size: nat, k: nat) returns (j: nat)
    requires IsPermutation(idx, size) && k < size
    ensures j < size && idx[j] == k
  {
    if k !in idx { Pigeonhole(idx, Below(size) - {k}); }
    j :| j < size && idx[j] == k;
  }

  lemma PermutationPicksAll<T>(s: seq<T>, idx: seq<nat>)
    requires IsPermutation(idx, |s|)
    ensures multiset(Pick(s, idx)) == multiset(s)
  {
    var all := seq(|s|, (i: nat) => i);
    forall k: nat ensures multiset(idx)[k] == multiset(all)[k] {
      CountOnce(idx, k);
      CountOnce(all, k);
      if k < |s| {
        var j := Find(idx, |s|, k);
        assert all[k] == k;
      }
    }
    PickPermutes(s, idx, all);
    assert Pick(s, all) == s;
  }

  // ----- the results -----

  /** The front holds a best selection of the input, in order. */
  lemma FrontIsBest(s: seq<Row>, idx: seq<nat>, n: nat, ascending: bool)
    requires PartlySorted(s, idx, n, ascending)
    ensures var r := Result(s, idx[..n]);
      && (forall i :: 0 <= i < n ==> r[i] == s[idx[i]])
      && (forall i, j :: 0 <= i < j < n ==> !Better(r[j], r[i], ascending))
      && (forall i, k :: 0 <= i < n && 0 <= k < |s| && k !in idx[..n] ==> !Better(s[k], r[i], ascending))
  {
    var r := Result(s, idx[..n]);
    forall i, k | 0 <= i < n && 0 <= k < |s| && k !in idx[..n] ensures !Better(s[k], r[i], ascending) {
      assert forall i :: 0 <= i < n ==> idx[i] in idx[..n];
      var j := Find(idx, |s|, k);
    }
  }

  /** Without an effective limit the result is the whole list in order. */
  lemma UnlimitedSortsAll(s: seq<Row>, idx: seq<nat>, ascending: bool)
    requires PartlySorted(s, idx, |s|, ascending)
    ensures var r := Result(s, idx[..|s|]);
      multiset(r) == multiset(s) && forall i, j :: 0 <= i < j < |s| ==> !Better(r[j], r[i], ascending)
  {
    assert idx[..|s|] == idx;
    PermutationPicksAll(s, idx);
    assert Result(s, idx) == Pick(s, idx);
  }

  /** Whether a row with this key may stand before one with that key. */
  predicate MayLead(key: real, later: real, ascending: bool) {
    if ascending then key <= later else key >= later
  }

  /** A limit of 0 or less, or one that covers the list, sorts everything by key. */
  lemma SortsByKey(s: seq<Row>, idx: seq<nat>, limit: int, ascending: bool)
    requires PartlySorted(s, idx, Places(|s|, limit), ascending) && (limit <= 0 || limit >= |s|)
    ensures var r := Result(s, idx[..Places(|s|, limit)]);
      multiset(r) == multiset(s) && forall i, j :: 0 <= i < j < |s| ==> MayLead(r[i].key, r[j].key, ascending)
  {
    UnlimitedSortsAll(s, idx, ascending);
    var r := Result(s, idx[..|s|]);
    forall i, j | 0 <= i < j < |s| ensures MayLead(r[i].key, r[j].key, ascending) {
      assert !Better(r[j], r[i], ascending);
    }
  }

  /** Any other limit brings that many rows to the front, by key; no row left out belongs before one of them. */
  lemma LimitSortsByKey(s: seq<Row>, idx: seq<nat>, limit: int, ascending: bool)
    requires PartlySorted(s, idx, Places(|s|, limit), ascending) && 0 < limit < |s|
    ensures var r := Result(s, idx[..Places(|s|, limit)]);
      && (forall i :: 0 <= i < limit ==> r[i] == s[idx[i]])
      && (forall i, j :: 0 <= i < j < limit ==> MayLead(r[i].key, r[j].key, ascending))
      && (forall i, k: nat :: 0 <= i < limit && k < |s| && k !in idx[..limit] ==>
            MayLead(r[i].key, s[k].key, ascending))
  {
    FrontIsBest(s, idx, limit, ascending);
    var r := Result(s, idx[..limit]);
    forall i, j | 0 <= i < j < limit ensures MayLead(r[i].key, r[j].key, ascending) {
      assert !Better(r[j], r[i], ascending);
    }
    forall i, k: nat | 0 <= i < limit && k < |s| && k !in idx[..limit]
      ensures MayLead(r[i].key, s[k].key, ascending)
    {
      assert !Better(s[k], r[i], ascending);
    }
  }

  predicate DistinctPids(s: seq<Row>) {
    forall i, j :: 0 <= i < j < |s| ==> s[i].pid != s[j].pid
  }

  predicate DistinctKeys(s: seq<Row>) {
    forall i, j :: 0 <= i < j < |s| ==> s[i].key != s[j].key
  }

  /** Every row chosen for the front already is among the first `n`. */
  predicate FrontStays(idx: seq<nat>, n: nat)
    requires n <= |idx|
  {
    forall i :: 0 <= i < n ==> idx[i] < n
  }

  function Merged(idx: seq<nat>, n: nat): (m: seq<nat>)
    requires n <= |idx|
    ensures |m| == |idx| && forall j :: 0 <= j < |m| ==> m[j] == if j < n then idx[j] else j
  {
    seq(|idx|, (j: nat) requires j < |idx| => if j < n then idx[j] else j)
  }

  /** With a limit, the list keeps all its rows exactly when the chosen rows were in front before. */
  lemma LimitKeepsRowsIff(s: seq<Row>, idx: seq<nat>, n: nat, ascending: bool)
    requires PartlySorted(s, idx, n, ascending) && DistinctPids(s)
    ensures multiset(Result(s, idx[..n])) == multiset(s) <==> FrontStays(idx, n)
  {
    var r := Result(s, idx[..n]);
    if FrontStays(idx, n) {
      var m := Merged(idx, n);
      forall j | n <= j < |s| ensures j !in idx[..n] { }
      PermutationPicksAll(s, m);
      assert r == Pick(s, m);
    } else {
      var j :| 0 <= j < n && idx[j] >= n;
      var k := idx[j];
      assert idx[..n][j] == k;
      assert r[j] == s[k] && r[k] == Husk(s[k]);
      if multiset(r) == multiset(s) {
        assert r[k] in multiset(s);
        var i :| 0 <= i < |s| && s[i] == r[k];
        assert i == k;
        Twice(r, j, k);
        CountOnce(s, s[k]);
      }
    }
  }

  lemma Twice(r: seq<Row>, j: nat, k: nat)
    requires j < k < |r| && r[j] == r[k]
    ensures multiset(r)[r[j]] >= 2
  {
    assert r == r[..k] + r[k..];
    assert r[j] in r[..k] && r[k] in r[k..];
    assert multiset(r) == multiset(r[..k]) + multiset(r[k..]);
  }

  // ----- every order the library may choose -----

  /** Some order is always admissible. */
  lemma {:induction false} SomeOrder(s: seq<Row>, n: nat, ascending: bool) returns (idx: seq<nat>)
    requires n <= |s|
    ensures PartlySorted(s, idx, n, ascending)
  {
    if n == 0 {
      idx := seq(|s|, (i: nat) => i);
    } else {
      idx := SomeOrder(s, n - 1, ascending);
      var best := BestFrom(s, idx, n - 1, ascending);
      idx := idx[n - 1 := idx[best]][best := idx[n - 1]];
    }
  }

  lemma {:induction false} BestFrom(s: seq<Row>, idx: seq<nat>, from: nat, ascending: bool) returns (best: nat)
    requires IsPermutation(idx, |s|) && from < |s|
    ensures from <= best < |s| && forall k :: from <= k < |s| ==> !Better(s[idx[k]], s[idx[best]], ascending)
    decreases |s| - from
  {
    best := from;
    if from + 1 < |s| {
      var later := BestFrom(s, idx, from + 1, ascending);
      if Better(s[idx[later]], s[idx[from]], ascending) { best := later; }
    }
  }

  /** Exchanging two tied rows leaves an order admissible. */
  lemma SwapTied(s: seq<Row>, idx: seq<nat>, n: nat, ascending: bool, p: nat, q: nat) returns (other: seq<nat>)
    requires PartlySorted(s, idx, n, ascending) && p < q < |s| && s[idx[p]].key == s[idx[q]].key
    ensures PartlySorted(s, other, n, ascending) && other[p] == idx[q]
  {
    other := idx[p := idx[q]][q := idx[p]];
    forall i, j | 0 <= i < j < |s| && i < n ensures !Better(s[other[j]], s[other[i]], ascending) {
      assert s[other[i]].key == s[idx[i]].key && s[other[j]].key == s[idx[j]].key;
    }
  }

  /** No row behind the first `n` is better than one of them. */
  predicate FrontLeads(s: seq<Row>, n: nat, ascending: bool) {
    forall i, k :: 0 <= i < n <= k < |s| ==> !Better(s[k], s[i], ascending)
  }

  /** Each of the first `n` rows is better than every row behind them. */
  predicate FrontWins(s: seq<Row>, n: nat, ascending: bool) {
    forall i, k :: 0 <= i < n <= k < |s| ==> Better(s[i], s[k], ascending)
  }

  predicate Keeps(s: seq<Row>, idx: seq<nat>, n: nat)
    requires IsPermutation(idx, |s|) && n <= |s|
  {
    multiset(Result(s, idx[..n])) == multiset(s)
  }

  lemma StayingLeads(s: seq<Row>, idx: seq<nat>, n: nat, ascending: bool)
    requires PartlySorted(s, idx, n, ascending) && FrontStays(idx, n)
    ensures FrontLeads(s, n, ascending)
  {
    forall i, k | 0 <= i < n <= k < |s| ensures !Better(s[k], s[i], ascending) {
      var p := FindBelow(idx, |s|, n, i);
      var q := Find(idx, |s|, k);
    }
  }

  lemma WinningStays(s: seq<Row>, idx: seq<nat>, n: nat, ascending: bool)
    requires PartlySorted(s, idx, n, ascending) && FrontWins(s, n, ascending)
    ensures FrontStays(idx, n)
  {
    if j :| 0 <= j < n && idx[j] >= n {
      var i := Missing(idx, |s|, n, j);
      var q := Find(idx, |s|, i);
    }
  }

  /** If a row in front is not better than one behind, some admissible order fetches a row from behind. */
  lemma SomeOrderFetches(s: seq<Row>, n: nat, ascending: bool, i: nat, k: nat) returns (idx: seq<nat>)
    requires i < n <= k < |s| && !Better(s[i], s[k], ascending)
    ensures PartlySorted(s, idx, n, ascending) && !FrontStays(idx, n)
  {
    idx := SomeOrder(s, n, ascending);
    if FrontStays(idx, n) {
      StayingLeads(s, idx, n, ascending);
      var p := FindBelow(idx, |s|, n, i);
      var q := Find(idx, |s|, k);
      idx := SwapTied(s, idx, n, ascending, p, q);
    }
  }

  /** With a limit, the list is sure to keep all its rows exactly when each row in front beats every row behind. */
  lemma AlwaysKeptIff(s: seq<Row>, n: nat, ascending: bool)
    requires n <= |s| && DistinctPids(s)
    ensures (forall idx :: PartlySorted(s, idx, n, ascending) ==> Keeps(s, idx, n)) <==> FrontWins(s, n, ascending)
  {
    if FrontWins(s, n, ascending) {
      forall idx | PartlySorted(s, idx, n, ascending) ensures Keeps(s, idx, n) {
        WinningStays(s, idx, n, ascending);
        LimitKeepsRowsIff(s, idx, n, ascending);
      }
    } else {
      var i: nat, k: nat :| i < n <= k < |s| && !Better(s[i], s[k], ascending);
      var idx := SomeOrderFetches(s, n, ascending, i, k);
      LimitKeepsRowsIff(s, idx, n, ascending);
    }
  }

  /** An order that sorts the first `n` rows among themselves. */
  lemma FrontOrder(s: seq<Row>, n: nat, ascending: bool) returns (idx: seq<nat>)
    requires n <= |s| && FrontLeads(s, n, ascending)
    ensures PartlySorted(s, idx, n, ascending) && FrontStays(idx, n)
  {
    var front := SomeOrder(s[..n], n, ascending);
    idx := front + seq(|s| - n, (i: nat) => n + i);
    forall i, j | 0 <= i < j < |s| && i < n ensures !Better(s[idx[j]], s[idx[i]], ascending) {
      if j < n { assert !Better(s[..n][front[j]], s[..n][front[i]], ascending); }
    }
  }

  /** It may keep them all, if the library breaks ties that way, exactly when no row behind beats one in front. */
  lemma SometimesKeptIff(s: seq<Row>, n: nat, ascending: bool)
    requires n <= |s| && DistinctPids(s)
    ensures (exists idx :: PartlySorted(s, idx, n, ascending) && Keeps(s, idx, n)) <==> FrontLeads(s, n, ascending)
  {
    if FrontLeads(s, n, ascending) {
      var idx := FrontOrder(s, n, ascending);
      LimitKeepsRowsIff(s, idx, n, ascending);
    }
    forall idx | PartlySorted(s, idx, n, ascending) && Keeps(s, idx, n) ensures FrontLeads(s, n, ascending) {
      LimitKeepsRowsIff(s, idx, n, ascending);
      StayingLeads(s, idx, n, ascending);
    }
  }

  /** When no two keys are equal both conditions are the same, and the library has no choice. */
  lemma LimitKeepsRowsWhenSorted(s: seq<Row>, idx: seq<nat>, n: nat, ascending: bool)
    requires PartlySorted(s, idx, n, ascending) && DistinctKeys(s)
    ensures FrontStays(idx, n) <==> FrontLeads(s, n, ascending)
    ensures FrontLeads(s, n, ascending) <==> FrontWins(s, n, ascending)
  {
    if FrontLeads(s, n, ascending) {
      forall i, k | 0 <= i < n <= k < |s| ensures Better(s[i], s[k], ascending) { assert s[i].key != s[k].key; }
      WinningStays(s, idx, n, ascending);
    }
    if FrontStays(idx, n) { StayingLeads(s, idx, n, ascending); }
    if FrontWins(s, n, ascending) {
      forall i, k | 0 <= i < n <= k < |s| ensures !Better(s[k], s[i], ascending) {
        assert Better(s[i], s[k], ascending);
      }
    }
  }

  /** Two rows in descending order, the second one higher, limit one: the first is lost, the second doubled. */
  lemma LimitLosesRow(idx: seq<nat>)
    requires PartlySorted([Row(1, 1.0, "a"), Row(2, 2.0, "b")], idx, 1, false)
    ensures Result([Row(1, 1.0, "a"), Row(2, 2.0, "b")], idx[..1]) == [Row(2, 2.0, "b"), Row(2, 2.0, "")]
    ensures !Keeps([Row(1, 1.0, "a"), Row(2, 2.0, "b")], idx, 1)
  {
    var s := [Row(1, 1.0, "a"), Row(2, 2.0, "b")];
    if idx[0] == 0 {
      var q := Find(idx, 2, 1);
    }
    assert idx[..1] == [1];
    assert s[0] in multiset(s) && s[0] !in multiset([s[1], Husk(s[1])]);
  }

  /** If the front stays, every position below `n` is chosen within the first `n`. */
  lemma FindBelow(idx: seq<nat>, size: nat, n: nat, i: nat) returns (p: nat)
    requires IsPermutation(idx, size) && n <= size && FrontStays(idx, n) && i < n
    ensures p < n && idx[p] == i
  {
    p := Find(idx[..n], n, i);
  }

  /** If a choice lies behind the first `n`, some position below `n` is not chosen within the first `n`. */
  lemma Missing(idx: seq<nat>, size: nat, n: nat, j: nat) returns (i: nat)
    requires IsPermutation(idx, size) && j < n <= size && idx[j] >= n
    ensures i < n && i !in idx[..n]
  {
    if forall i: nat :: i < n ==> i in idx[..n] {
      var inverse := InverseOf(idx[..n], n);
      assert IsPermutation(inverse, n);
      var m := Find(inverse, n, j);
    }
    i :| i < n && i !in idx[..n];
  }

  /** Where each of the positions below `n` occurs. */
  lemma InverseOf(xs: seq<nat>, n: nat) returns (inv: seq<nat>)
    requires forall i: nat :: i < n ==> i in xs
    ensures |inv| == n && forall i :: 0 <= i < n ==> inv[i] < |xs| && xs[inv[i]] == i
  {
    inv := [];
    for i := 0 to n
      invariant |inv| == i && forall k :: 0 <= k < i ==> inv[k] < |xs| && xs[inv[k]] == k
    {
      var value: nat := i;
      assert value in xs;
      var p: nat :| p < |xs| && xs[p] == value;
      inv := inv + [p];
    }
  }
}
