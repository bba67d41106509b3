/** The promotion loop of the "cpu lazy" order: busy processes move to the front of an already sorted list. */
module LazySorting {
  import opened Collections
  import opened ProcTree

  const MAX_PROMOTED: nat := 11

  /** How many processes at the front are all above 30 percent. */
  function Lead(s: seq<Proc>): (r: nat)
    ensures r <= |s|
    ensures forall i :: 0 <= i < r ==> s[i].cpuP > 30.0
    ensures r < |s| ==> s[r].cpuP <= 30.0
  {
    if s == [] || s[0].cpuP <= 30.0 then 0 else 1 + Lead(s[1..])
  }

  /** The highest usage among the first `n`, and at least 10. */
  function Highest(s: seq<Proc>, n: nat): real
    requires n <= |s|
  {
    if n == 0 then 10.0
    else if s[n - 1].cpuP > Highest(s, n - 1) then s[n - 1].cpuP
    else Highest(s, n - 1)
  }

  /** The usage a process at position `i` must exceed to be promoted. */
  function Target(s: seq<Proc>, i: nat): real {
    if i < 6 || |s| < 6 then 30.0
    else if Highest(s, 6) > 30.0 then Highest(s, 6)
    else 10.0
  }

  predicate Busy(s: seq<Proc>, i: nat)
    requires i < |s|
  {
    s[i].cpuP > Target(s, i)
  }

  /** The busy processes from `lo` up to `hi`, the last one first. */
  function Promoted(s: seq<Proc>, lo: nat, hi: nat): seq<Proc>
    requires lo <= hi <= |s|
  {
    if lo == hi then []
    else if Busy(s, hi - 1) then [s[hi - 1]] + Promoted(s, lo, hi - 1)
    else Promoted(s, lo, hi - 1)
  }

  /** The others, in their order. */
  function Passed(s: seq<Proc>, lo: nat, hi: nat): seq<Proc>
    requires lo <= hi <= |s|
  {
    if lo == hi then []
    else if Busy(s, hi - 1) then Passed(s, lo, hi - 1)
    else Passed(s, lo, hi - 1) + [s[hi - 1]]
  }

  /** Where the scan ends: behind the eleventh busy process after the lead, or at the end of the list. */
  function Stop(s: seq<Proc>, i: nat): (k: nat)
    requires Lead(s) <= i <= |s|
    ensures i <= k <= |s|
    decreases |s| - i
  {
    if i == |s| || |Promoted(s, Lead(s), i)| >= MAX_PROMOTED then i else Stop(s, i + 1)
  }

  function Lazy(s: seq<Proc>): seq<Proc> {
    var r, stop := Lead(s), Stop(s, Lead(s));
    s[..r] + Promoted(s, r, stop) + Passed(s, r, stop) + s[stop..]
  }

  /** The first process behind the lead is never busy. */
  lemma LeadEnds(s: seq<Proc>)
    requires Lead(s) < |s|
    ensures !Busy(s, Lead(s))
  {
    if Lead(s) >= 6 { HighestAbove(s, 6, 0); }
  }

  lemma {:induction false} HighestAbove(s: seq<Proc>, n: nat, i: nat)
    requires i < n <= |s|
    ensures Highest(s, n) >= s[i].cpuP
  {
    if i < n - 1 { HighestAbove(s, n - 1, i); }
  }

  /** Moves the element at `i` down to `lo` and shifts those between up by one. */
  method Rotate(a: array<Proc>, lo: nat, i: nat)
    requires lo <= i < a.Length
    modifies a
    ensures a[..] == old(a[..lo]) + [old(a[i])] + old(a[lo..i]) + old(a[i + 1..])
  {
    var moved := a[i];
    ghost var s := a[..];
    var k := i;
    while k > lo
      invariant lo <= k <= i
      invariant forall j :: 0 <= j < a.Length && (j < k || j > i) ==> a[j] == s[j]
      invariant forall j :: k < j <= i ==> a[j] == s[j - 1]
    {
      a[k] := a[k - 1];
      k := k - 1;
    }
    a[lo] := moved;
    RotatedParts(s, a[..], lo, i);
  }

  lemma RotatedParts(s: seq<Proc>, t: seq<Proc>, lo: nat, i: nat)
    requires lo <= i < |s| == |t| && t[lo] == s[i]
    requires forall j :: 0 <= j < |s| && (j < lo || j > i) ==> t[j] == s[j]
    requires forall j :: lo < j <= i ==> t[j] == s[j - 1]
    ensures t == s[..lo] + [s[i]] + s[lo..i] + s[i + 1..]
  {
  }

  lemma {:induction false} Split(s: seq<Proc>, lo: nat, hi: nat)
    requires lo <= hi <= |s|
    ensures |Promoted(s, lo, hi)| + |Passed(s, lo, hi)| == hi - lo
  {
    if lo < hi { Split(s, lo, hi - 1); }
  }

  /** The list when the scan has reached position `i`, at or behind the end of the lead. */
  function Scanned(s: seq<Proc>, i: nat): seq<Proc>
    requires Lead(s) <= i <= |s|
  {
    s[..Lead(s)] + Promoted(s, Lead(s), i) + Passed(s, Lead(s), i) + s[i..]
  }

  lemma Pieces(a: seq<Proc>, p: seq<Proc>, q: seq<Proc>, x: Proc, rest: seq<Proc>)
    ensures var z, i := a + p + q + ([x] + rest), |a| + |p| + |q|;
      && z[i] == x && z == a + p + (q + [x]) + rest
      && z[..|a|] == a && z[|a|..i] == p + q && z[i + 1..] == rest
  {
  }

  lemma ScannedAt(s: seq<Proc>, i: nat)
    requires Lead(s) <= i < |s|
    ensures |Scanned(s, i)| == |s| && Scanned(s, i)[i] == s[i]
    ensures !Busy(s, i) ==> Scanned(s, i + 1) == Scanned(s, i)
    ensures Busy(s, i) ==>
      Scanned(s, i + 1)
      == Scanned(s, i)[..Lead(s)] + [s[i]] + Scanned(s, i)[Lead(s)..i] + Scanned(s, i)[i + 1..]
  {
    var r := Lead(s);
    var p, q := Promoted(s, r, i), Passed(s, r, i);
    Split(s, r, i);
    assert s[i..] == [s[i]] + s[i + 1..];
    Pieces(s[..r], p, q, s[i], s[i + 1..]);
    if Busy(s, i) {
      MovedFront(s[..r], [s[i]], p, q, s[i + 1..]);
    }
  }

  lemma MovedFront(a: seq<Proc>, x: seq<Proc>, p: seq<Proc>, q: seq<Proc>, rest: seq<Proc>)
    ensures a + (x + p) + q + rest == a + x + (p + q) + rest
  {
  }

  /** `highest` and `target` before position `i` is looked at. */
  predicate Aims(s: seq<Proc>, i: nat, highest: real, target: real)
    requires i <= |s|
  {
    && highest == Highest(s, if i < 6 then i else 6)
    && target == if i == 0 then 30.0 else Target(s, i - 1)
  }

  /** Follows the highest usage of the first six and fixes the target behind them. */
  method NextTarget(cpu: real, i: nat, highest: real, target: real, ghost s: seq<Proc>) returns (h: real, t: real)
    requires i < |s| && cpu == s[i].cpuP && Aims(s, i, highest, target)
    ensures Aims(s, i + 1, h, t) && t == Target(s, i)
  {
    h, t := highest, target;
    if i <= 5 && cpu > highest {
      h := cpu;
    } else if i == 6 {
      t := if highest > 30.0 then highest else 10.0;
    }
  }

  /** The promotion loop has reached position `i`. */
  ghost predicate Reached(s: seq<Proc>, now: seq<Proc>, i: nat, offset: nat, x: nat) {
    var r := Lead(s);
    && i <= |s| && offset == (if i <= r then i else r)
    && (i < r ==> now == s && x == 0)
    && (i >= r ==> now == Scanned(s, i) && Stop(s, r) == Stop(s, i) && x == |Promoted(s, r, i)|)
  }

  lemma ReachedStart(s: seq<Proc>)
    ensures Reached(s, s, 0, 0, 0)
  {
    if Lead(s) == 0 { assert Scanned(s, 0) == s; }
  }

  lemma ReachedInLead(s: seq<Proc>, now: seq<Proc>, i: nat, offset: nat, x: nat)
    requires Reached(s, now, i, offset, x) && i < Lead(s)
    ensures offset == i && now == s && s[i].cpuP > 30.0 && Reached(s, now, i + 1, offset + 1, x)
  {
    if i + 1 == Lead(s) { assert Scanned(s, i + 1) == s; }
  }

  lemma ReachedBehind(s: seq<Proc>, now: seq<Proc>, i: nat, offset: nat, x: nat)
    requires Reached(s, now, i, offset, x) && Lead(s) <= i < |s| && x < MAX_PROMOTED
    ensures |now| == |s| && now[i] == s[i] && offset <= i && !(i == offset && s[i].cpuP > 30.0)
    ensures !Busy(s, i) ==> Reached(s, now, i + 1, offset, x)
  {
    ScannedAt(s, i);
    if i == Lead(s) { LeadEnds(s); }
  }

  /** What the loop finds at position `i`, and where it stands if nothing moves. */
  lemma ReachedNext(s: seq<Proc>, now: seq<Proc>, i: nat, offset: nat, x: nat)
    requires Reached(s, now, i, offset, x) && i < |s| && x < MAX_PROMOTED
    ensures offset <= i && |now| == |s| && now[i] == s[i]
    ensures i == offset && s[i].cpuP > 30.0 ==> Reached(s, now, i + 1, offset + 1, x)
    ensures !(i == offset && s[i].cpuP > 30.0) ==> i >= Lead(s)
    ensures !(i == offset && s[i].cpuP > 30.0) && !Busy(s, i) ==> Reached(s, now, i + 1, offset, x)
  {
    if i < Lead(s) { ReachedInLead(s, now, i, offset, x); } else { ReachedBehind(s, now, i, offset, x); }
  }

  /** Where the loop stands after a promotion. */
  lemma ReachedPromoted(s: seq<Proc>, now: seq<Proc>, then_: seq<Proc>, i: nat, offset: nat, x: nat)
    requires Reached(s, now, i, offset, x) && Lead(s) <= i < |s| && x < MAX_PROMOTED && Busy(s, i)
    requires |now| == |s| && offset <= i && then_ == now[..offset] + [now[i]] + now[offset..i] + now[i + 1..]
    ensures Reached(s, then_, i + 1, offset, x + 1)
  {
    ScannedAt(s, i);
    if i == Lead(s) { LeadEnds(s); }
  }

  /** Moves the busy process at `i` behind those promoted before. */
  method Raise(a: array<Proc>, i: nat, offset: nat, ghost x: nat, ghost s: seq<Proc>)
    requires Reached(s, a[..], i, offset, x) && Lead(s) <= i < |s| && x < MAX_PROMOTED && Busy(s, i)
    modifies a
    ensures Reached(s, a[..], i + 1, offset, x + 1)
  {
    ghost var now := a[..];
    ReachedNext(s, now, i, offset, x);
    Rotate(a, offset, i);
    ReachedPromoted(s, now, a[..], i, offset, x);
  }

  /** One turn of the loop: the lead grows, a busy process is moved, or nothing changes. */
  method Turn(a: array<Proc>, i: nat, offset: nat, x: nat, target: real, ghost s: seq<Proc>) returns (o: nat, y: nat)
    requires Reached(s, a[..], i, offset, x) && i < |s| && x < MAX_PROMOTED && target == Target(s, i)
    modifies a
    ensures Reached(s, a[..], i + 1, o, y) && y <= x + 1 && (y > x ==> i >= Lead(s))
  {
    ReachedNext(s, a[..], i, offset, x);
    assert a[i] == a[..][i];
    o, y := offset, x;
    if i == offset && a[i].cpuP > 30.0 {
      o := offset + 1;
    } else if a[i].cpuP > target {
      Raise(a, i, offset, x, s);
      y := x + 1;
    }
  }

  method Promote(a: array<Proc>)
    modifies a
    ensures a[..] == Lazy(old(a[..])) && LazyOrder(old(a[..]), a[..])
  {
    ghost var s := a[..];
    var highest, target := 10.0, 30.0;
    var x: nat, offset: nat, i: nat := 0, 0, 0;
    ReachedStart(s);
    while i < a.Length && x < MAX_PROMOTED
      invariant Reached(s, a[..], i, offset, x) && x <= MAX_PROMOTED
      invariant i < a.Length ==> Aims(s, i, highest, target)
      invariant x == MAX_PROMOTED ==> i >= Lead(s)
    {
      ReachedSame(s, a[..], i, offset, x);
      highest, target := NextTarget(a[i].cpuP, i, highest, target, s);
      offset, x := Turn(a, i, offset, x, target, s);
      i := i + 1;
    }
    ReachedEnd(s, a[..], i, offset, x);
    LazyMeaning(s);
  }

  lemma ReachedSame(s: seq<Proc>, now: seq<Proc>, i: nat, offset: nat, x: nat)
    requires Reached(s, now, i, offset, x) && i < |s| && x < MAX_PROMOTED
    ensures |now| == |s| && now[i] == s[i]
  {
    ReachedNext(s, now, i, offset, x);
  }

  lemma ReachedEnd(s: seq<Proc>, now: seq<Proc>, i: nat, offset: nat, x: nat)
    requires Reached(s, now, i, offset, x) && (i == |s| || (x >= MAX_PROMOTED && i >= Lead(s)))
    ensures now == Lazy(s)
  {
  }

  // ----- what the result is -----

  lemma {:induction false} PromotedContents(s: seq<Proc>, lo: nat, hi: nat)
    requires lo <= hi <= |s|
    ensures multiset(Promoted(s, lo, hi)) + multiset(Passed(s, lo, hi)) == multiset(s[lo..hi])
  {
    if lo == hi {
      assert Promoted(s, lo, hi) == [] && Passed(s, lo, hi) == [] && s[lo..hi] == [];
    } else {
      PromotedContents(s, lo, hi - 1);
      SliceLast(s, lo, hi);
      OneMore(Promoted(s, lo, hi - 1), Passed(s, lo, hi - 1), s[lo..hi - 1], s[hi - 1]);
    }
  }

  lemma OneMore(p: seq<Proc>, q: seq<Proc>, all: seq<Proc>, x: Proc)
    requires multiset(p) + multiset(q) == multiset(all)
    ensures multiset([x] + p) + multiset(q) == multiset(all + [x])
    ensures multiset(p) + multiset(q + [x]) == multiset(all + [x])
  {
    assert multiset([x] + p) == multiset{x} + multiset(p);
    assert multiset(q + [x]) == multiset(q) + multiset{x};
    assert multiset(all + [x]) == multiset(all) + multiset{x};
  }

  lemma {:induction false} StopBound(s: seq<Proc>, i: nat)
    requires Lead(s) <= i <= |s| && |Promoted(s, Lead(s), i)| <= MAX_PROMOTED
    ensures |Promoted(s, Lead(s), Stop(s, i))| <= MAX_PROMOTED
    ensures Stop(s, i) == |s| || |Promoted(s, Lead(s), Stop(s, i))| == MAX_PROMOTED
    decreases |s| - i
  {
    if i < |s| && |Promoted(s, Lead(s), i)| < MAX_PROMOTED { StopBound(s, i + 1); }
  }

  /** Nothing is lost or doubled; at most eleven are promoted, and fewer only if the whole list was scanned. */
  lemma LazyIsPermutation(s: seq<Proc>)
    ensures multiset(Lazy(s)) == multiset(s)
    ensures var r, stop := Lead(s), Stop(s, Lead(s));
      |Promoted(s, r, stop)| <= MAX_PROMOTED && (stop < |s| ==> |Promoted(s, r, stop)| == MAX_PROMOTED)
  {
    var r, stop := Lead(s), Stop(s, Lead(s));
    StopBound(s, r);
    PromotedContents(s, r, stop);
    FourParts(s, r, stop, Promoted(s, r, stop), Passed(s, r, stop));
  }

  lemma FourParts(s: seq<Proc>, r: nat, stop: nat, p: seq<Proc>, q: seq<Proc>)
    requires r <= stop <= |s| && multiset(p) + multiset(q) == multiset(s[r..stop])
    ensures multiset(s[..r] + p + q + s[stop..]) == multiset(s)
  {
    assert s == s[..r] + (s[r..stop] + s[stop..]);
    assert multiset(s) == multiset(s[..r]) + multiset(s[r..stop]) + multiset(s[stop..]);
  }

  // ----- who is promoted, and where everyone ends up -----

  /**
   Within the first six, usage above 30 is promoted. Behind them a process must be above all six if one of these is
   above 30, and otherwise above 10.
   */
  predicate Overtakes(s: seq<Proc>, i: nat)
    requires i < |s|
  {
    if i < 6 then s[i].cpuP > 30.0
    else if exists j :: 0 <= j < 6 && s[j].cpuP > 30.0 then forall j :: 0 <= j < 6 ==> s[i].cpuP > s[j].cpuP
    else s[i].cpuP > 10.0
  }

  lemma {:induction false} HighestIsReached(s: seq<Proc>, n: nat)
    requires n <= |s|
    ensures Highest(s, n) == 10.0 || exists j :: 0 <= j < n && s[j].cpuP == Highest(s, n)
  {
    if n > 0 {
      HighestIsReached(s, n - 1);
      if Highest(s, n) != 10.0 && s[n - 1].cpuP <= Highest(s, n - 1) {
        var j :| 0 <= j < n - 1 && s[j].cpuP == Highest(s, n - 1);
      }
    }
  }

  lemma BusyMeans(s: seq<Proc>, i: nat)
    requires i < |s|
    ensures Busy(s, i) <==> Overtakes(s, i)
  {
    if i >= 6 {
      HighestIsReached(s, 6);
      forall j | 0 <= j < 6 ensures Highest(s, 6) >= s[j].cpuP { HighestAbove(s, 6, j); }
    }
  }

  /** The list `now` is `s` with the processes at the positions `up` moved behind the first `r`. */
  ghost predicate Raised(s: seq<Proc>, now: seq<Proc>, r: nat, up: seq<nat>, rest: seq<nat>) {
    && r <= |s|
    && (forall k :: 0 <= k < |up| ==> r <= up[k] < |s|)
    && (forall k :: 0 <= k < |rest| ==> r <= rest[k] < |s|)
    && now == s[..r] + Pick(s, up) + Pick(s, rest)
    && (forall j, k :: 0 <= j < k < |up| ==> up[j] > up[k])
    && (forall j, k :: 0 <= j < k < |rest| ==> rest[j] < rest[k])
    && (forall i: nat :: r <= i < |s| ==> (i in rest <==> i !in up))
  }

  /**
   The run above 30 stays in front. Behind it come at most eleven that overtake, the last one first, and then all
   others in their order; one that overtakes is left behind only if eleven before it were moved.
   */
  ghost predicate LazyOrder(s: seq<Proc>, now: seq<Proc>) {
    exists r: nat, up, rest :: Raised(s, now, r, up, rest) && LazyChoice(s, r, up)
  }

  ghost predicate LazyChoice(s: seq<Proc>, r: nat, up: seq<nat>) {
    && r <= |s| && |up| <= 11
    && (forall i :: 0 <= i < r ==> s[i].cpuP > 30.0)
    && (r < |s| ==> s[r].cpuP <= 30.0)
    && (forall k :: 0 <= k < |up| ==> up[k] < |s| && Overtakes(s, up[k]))
    && (forall i: nat :: r <= i < |s| && i !in up && Overtakes(s, i) ==> |up| == 11 && i > up[0])
  }

  /** Positions of the busy processes, the last one first. */
  ghost function BusyPlaces(s: seq<Proc>, lo: nat, hi: nat): (up: seq<nat>)
    requires lo <= hi <= |s|
    ensures forall k :: 0 <= k < |up| ==> lo <= up[k] < hi && Busy(s, up[k])
    ensures forall j, k :: 0 <= j < k < |up| ==> up[j] > up[k]
  {
    if lo == hi then []
    else if Busy(s, hi - 1) then [hi - 1] + BusyPlaces(s, lo, hi - 1)
    else BusyPlaces(s, lo, hi - 1)
  }

  ghost function IdlePlaces(s: seq<Proc>, lo: nat, hi: nat): (rest: seq<nat>)
    requires lo <= hi <= |s|
    ensures forall k :: 0 <= k < |rest| ==> lo <= rest[k] < hi && !Busy(s, rest[k])
    ensures forall j, k :: 0 <= j < k < |rest| ==> rest[j] < rest[k]
  {
    if lo == hi then []
    else if Busy(s, hi - 1) then IdlePlaces(s, lo, hi - 1)
    else IdlePlaces(s, lo, hi - 1) + [hi - 1]
  }

  lemma {:induction false} EachHasPlace(s: seq<Proc>, lo: nat, hi: nat, i: nat)
    requires lo <= i < hi <= |s|
    ensures if Busy(s, i) then i in BusyPlaces(s, lo, hi) else i in IdlePlaces(s, lo, hi)
  {
    if i < hi - 1 { EachHasPlace(s, lo, hi - 1, i); }
  }

  lemma {:induction false} BusyPick(s: seq<Proc>, lo: nat, hi: nat)
    requires lo <= hi <= |s|
    ensures Promoted(s, lo, hi) == Pick(s, BusyPlaces(s, lo, hi))
  {
    if lo < hi {
      BusyPick(s, lo, hi - 1);
      PickTwo(s, [hi - 1], BusyPlaces(s, lo, hi - 1));
      PickOne(s, hi - 1);
    }
  }

  lemma {:induction false} IdlePick(s: seq<Proc>, lo: nat, hi: nat)
    requires lo <= hi <= |s|
    ensures Passed(s, lo, hi) == Pick(s, IdlePlaces(s, lo, hi))
  {
    if lo < hi {
      IdlePick(s, lo, hi - 1);
      PickTwo(s, IdlePlaces(s, lo, hi - 1), [hi - 1]);
      PickOne(s, hi - 1);
    }
  }

  lemma PickOne(s: seq<Proc>, i: nat)
    requires i < |s|
    ensures Pick(s, [i]) == [s[i]]
  {
  }

  /** The positions from `stop` on, which the scan did not reach. */
  ghost function From(s: seq<Proc>, stop: nat): (xs: seq<nat>)
    requires stop <= |s|
    ensures |xs| == |s| - stop && forall k :: 0 <= k < |xs| ==> xs[k] == stop + k
    ensures Pick(s, xs) == s[stop..]
  {
    seq(|s| - stop, (k: nat) => stop + k)
  }

  lemma PickTwo(s: seq<Proc>, xs: seq<nat>, ys: seq<nat>)
    requires forall k :: 0 <= k < |xs| ==> xs[k] < |s|
    requires forall k :: 0 <= k < |ys| ==> ys[k] < |s|
    ensures Pick(s, xs + ys) == Pick(s, xs) + Pick(s, ys)
  {
  }

  /** Every position behind the lead is in exactly one of the lists. */
  lemma PlacesCover(s: seq<Proc>, r: nat, stop: nat, i: nat)
    requires r <= stop <= |s| && r <= i < |s|
    ensures i in IdlePlaces(s, r, stop) + From(s, stop) <==> i !in BusyPlaces(s, r, stop)
  {
    if i < stop {
      EachHasPlace(s, r, stop, i);
    } else {
      assert From(s, stop)[i - stop] == i;
    }
  }

  lemma LazyPicks(s: seq<Proc>)
    ensures var r, stop := Lead(s), Stop(s, Lead(s));
      Lazy(s) == s[..r] + Pick(s, BusyPlaces(s, r, stop)) + Pick(s, IdlePlaces(s, r, stop) + From(s, stop))
  {
    var r, stop := Lead(s), Stop(s, Lead(s));
    var idle, tail := IdlePlaces(s, r, stop), From(s, stop);
    BusyPick(s, r, stop);
    IdlePick(s, r, stop);
    PickTwo(s, idle, tail);
    Regroup(s[..r] + Promoted(s, r, stop), Pick(s, idle), Pick(s, tail));
  }

  lemma LazyRaises(s: seq<Proc>)
    ensures var r, stop := Lead(s), Stop(s, Lead(s));
      Raised(s, Lazy(s), r, BusyPlaces(s, r, stop), IdlePlaces(s, r, stop) + From(s, stop))
  {
    var r, stop := Lead(s), Stop(s, Lead(s));
    var idle, tail := IdlePlaces(s, r, stop), From(s, stop);
    LazyPicks(s);
    forall i: nat | r <= i < |s| ensures i in idle + tail <==> i !in BusyPlaces(s, r, stop) {
      PlacesCover(s, r, stop, i);
    }
  }

  /** What overtakes and is not chosen stands behind eleven that are. */
  lemma LeftBehind(s: seq<Proc>, i: nat)
    requires var r, stop := Lead(s), Stop(s, Lead(s)); r <= i < |s| && Busy(s, i) && i !in BusyPlaces(s, r, stop)
    ensures var up := BusyPlaces(s, Lead(s), Stop(s, Lead(s))); |up| == 11 && i > up[0]
  {
    var r, stop := Lead(s), Stop(s, Lead(s));
    if i < stop { EachHasPlace(s, r, stop, i); }
    LazyIsPermutation(s);
    BusyPick(s, r, stop);
  }

  /** What the promotion loop leaves, said by usage and position alone. */
  lemma LazyMeaning(s: seq<Proc>)
    ensures LazyOrder(s, Lazy(s))
  {
    LazyRaises(s);
    ChoiceIsBusy(s);
  }

  lemma ChoiceIsBusy(s: seq<Proc>)
    ensures LazyChoice(s, Lead(s), BusyPlaces(s, Lead(s), Stop(s, Lead(s))))
  {
    var r, stop := Lead(s), Stop(s, Lead(s));
    var up := BusyPlaces(s, r, stop);
    LazyIsPermutation(s);
    BusyPick(s, r, stop);
    forall i: nat | i < |s| ensures Busy(s, i) <==> Overtakes(s, i) { BusyMeans(s, i); }
    forall i: nat | r <= i < |s| && i !in up && Overtakes(s, i) ensures |up| == 11 && i > up[0] { LeftBehind(s, i); }
  }
}
