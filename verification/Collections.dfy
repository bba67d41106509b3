/** Small facts about options, sequences and sets that several models share. */
module Collections {
  datatype Option<+T> = None | Some(value: T)

  predicate NoRepeats<T(==)>(xs: seq<T>) {
    forall i, j :: 0 <= i < j < |xs| ==> xs[i] != xs[j]
  }

  lemma {:induction false} CountOnce<T>(xs: seq<T>, k: T)
    requires NoRepeats(xs)
    ensures multiset(xs)[k] == if k in xs then 1 else 0
  {
    if xs == [] {
    } else {
      assert xs == [xs[0]] + xs[1..];
      CountOnce(xs[1..], k);
    }
  }

  function Below(n: nat): (b: set<nat>)
    ensures |b| == n && forall i: nat :: i in b <==> i < n
  {
    if n == 0 then {} else Below(n - 1) + {n - 1}
  }

  /** Distinct elements of a set are at most as many as the set has. */
  lemma {:induction false} Pigeonhole<T>(xs: seq<T>, values: set<T>)
    requires NoRepeats(xs) && forall i :: 0 <= i < |xs| ==> xs[i] in values
    ensures |xs| <= |values|
    decreases |xs|
  {
    if xs == [] {
    } else {
      forall i | 0 <= i < |xs[1..]| ensures xs[1..][i] in values - {xs[0]} { assert xs[1..][i] == xs[i + 1]; }
      Pigeonhole(xs[1..], values - {xs[0]});
    }
  }

  lemma Regroup<T>(a: seq<T>, b: seq<T>, c: seq<T>)
    ensures a + b + c == a + (b + c)
  {
  }

  // ----- picking elements by position -----

  function Pick<T>(s: seq<T>, xs: seq<nat>): (r: seq<T>)
    requires forall i :: 0 <= i < |xs| ==> xs[i] < |s|
    ensures |r| == |xs| && forall i :: 0 <= i < |xs| ==> r[i] == s[xs[i]]
  {
    seq(|xs|, (i: nat) requires i < |xs| => s[xs[i]])
  }

  lemma Without<T>(xs: seq<T>, i: nat)
    requires i < |xs|
    ensures multiset(xs[..i] + xs[i + 1..]) == multiset(xs) - multiset{xs[i]}
    ensures multiset(xs) == multiset(xs[..i] + xs[i + 1..]) + multiset{xs[i]}
  {
    assert xs == xs[..i] + ([xs[i]] + xs[i + 1..]);
  }

  lemma {:induction false} PickPermutes<T>(s: seq<T>, xs: seq<nat>, ys: seq<nat>)
    requires multiset(xs) == multiset(ys)
    requires forall i :: 0 <= i < |xs| ==> xs[i] < |s|
    requires forall i :: 0 <= i < |ys| ==> ys[i] < |s|
    ensures multiset(Pick(s, xs)) == multiset(Pick(s, ys))
    decreases |xs|
  {
    assert |ys| == |multiset(ys)| == |multiset(xs)|;
    if xs == [] {
      assert Pick(s, xs) == Pick(s, ys);
    } else {
      var i := Matching(xs, ys);
      var rest := ys[..i] + ys[i + 1..];
      PickPermutes(s, xs[1..], rest);
      PickWithout(s, xs, 0, xs[1..]);
      PickWithout(s, ys, i, rest);
    }
  }

  lemma Halves<T>(s: seq<T>, k: nat)
    requires k <= |s|
    ensures s == s[..k] + s[k..]
  {
  }

  lemma SliceLast<T>(s: seq<T>, lo: nat, hi: nat)
    requires lo < hi <= |s|
    ensures s[lo..hi] == s[lo..hi - 1] + [s[hi - 1]]
  {
  }

  lemma WithoutFirst<T>(xs: seq<T>)
    requires xs != []
    ensures multiset(xs[1..]) == multiset(xs) - multiset{xs[0]}
  {
    assert xs == [xs[0]] + xs[1..];
  }

  /** Where the first element of `xs` sits in its rearrangement `ys`. */
  lemma Matching<T>(xs: seq<T>, ys: seq<T>) returns (i: nat)
    requires xs != [] && multiset(xs) == multiset(ys)
    ensures i < |ys| && ys[i] == xs[0]
    ensures multiset(xs[1..]) == multiset(ys[..i] + ys[i + 1..])
  {
    i := PlaceOf(xs[0], ys, multiset(xs));
    WithoutFirst(xs);
    Without(ys, i);
  }

  lemma PlaceOf<T>(x: T, ys: seq<T>, m: multiset<T>) returns (i: nat)
    requires m == multiset(ys) && x in m
    ensures i < |ys| && ys[i] == x
  {
    assert x in ys;
    i :| i < |ys| && ys[i] == x;
  }

  lemma PickWithout<T>(s: seq<T>, xs: seq<nat>, i: nat, rest: seq<nat>)
    requires i < |xs| && rest == xs[..i] + xs[i + 1..]
    requires forall k :: 0 <= k < |xs| ==> xs[k] < |s|
    requires forall k :: 0 <= k < |rest| ==> rest[k] < |s|
    ensures multiset(Pick(s, xs)) == multiset(Pick(s, rest)) + multiset{s[xs[i]]}
  {
    var p := Pick(s, xs);
    Without(p, i);
    assert Pick(s, rest) == p[..i] + p[i + 1..];
  }
}
