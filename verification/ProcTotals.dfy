/** What the arranged process list shows, in the fields themselves. */
module ProcTotals {
  import opened Collections
  import opened ProcTree
  import opened ProcTreeFacts
  import opened ProcAmounts
  import opened ProcessViews
  import opened Reordering

  datatype Totals = Totals(mem: nat, threads: nat, cpuP: real, cpuC: real)

  /** The four amounts of these processes, added up. */
  function Totalled(ps: seq<Proc>): Totals {
    if ps == [] then Totals(0, 0, 0.0, 0.0)
    else
      var p, t := ps[0], Totalled(ps[1..]);
      Totals(p.mem + t.mem, p.threads + t.threads, p.cpuP + t.cpuP, p.cpuC + t.cpuC)
  }

  function Part(t: Totals, q: Quantity): real {
    match q
    case Mem => t.mem as real
    case Threads => t.threads as real
    case CpuP => t.cpuP
    case CpuC => t.cpuC
  }

  lemma PartsDetermine(t: Totals, u: Totals)
    requires forall q: Quantity :: Part(t, q) == Part(u, q)
    ensures t == u
  {
    assert Part(t, Mem) == Part(u, Mem) && Part(t, Threads) == Part(u, Threads);
    assert Part(t, CpuP) == Part(u, CpuP) && Part(t, CpuC) == Part(u, CpuC);
  }

  lemma TotalledStep(ps: seq<Proc>, q: Quantity)
    requires ps != []
    ensures Part(Totalled(ps), q) == Amount(ps[0], q) + Part(Totalled(ps[1..]), q)
  {
  }

  lemma {:induction false} SumIsTotal(xs: seq<nat>, ps: seq<Proc>, q: Quantity)
    requires forall i :: 0 <= i < |xs| ==> xs[i] < |ps|
    ensures Sum(xs, ps, q) == Part(Totalled(Pick(ps, xs)), q)
  {
    if xs == [] {
    } else {
      SumIsTotal(xs[1..], ps, q);
      PickFirst(ps, xs);
      TotalledStep(Pick(ps, xs), q);
    }
  }

  lemma {:induction false} ShownIsTotal(xs: seq<nat>, ps: seq<Proc>, q: Quantity)
    requires forall i :: 0 <= i < |xs| ==> xs[i] < |ps|
    ensures Shown(xs, ps, q) == Part(Totalled(ShownProcs(Pick(ps, xs))), q)
  {
    if xs == [] {
    } else {
      ShownIsTotal(xs[1..], ps, q);
      PickFirst(ps, xs);
      ShownStep(Pick(ps, xs), q);
    }
  }

  lemma ShownStep(s: seq<Proc>, q: Quantity)
    requires s != []
    ensures var rest := Part(Totalled(ShownProcs(s[1..])), q);
      Part(Totalled(ShownProcs(s)), q) == if s[0].filtered then rest else Amount(s[0], q) + rest
  {
    if s[0].filtered {
      assert ShownProcs(s) == [] + ShownProcs(s[1..]) == ShownProcs(s[1..]);
    } else {
      assert ShownProcs(s)[1..] == ShownProcs(s[1..]);
      TotalledStep(ShownProcs(s), q);
    }
  }

  /** The processes whose flag is set. */
  function Chosen(ps: seq<Proc>, keep: seq<bool>): seq<Proc>
    requires |keep| == |ps|
  {
    if ps == [] then [] else (if keep[0] then [ps[0]] else []) + Chosen(ps[1..], keep[1..])
  }

  lemma EmptiedAddsNothing(p: Proc, s: seq<Proc>, t: seq<Proc>)
    requires Totalled(s) == Totalled(t)
    ensures Totalled([p] + s) == Totalled([p] + t) && Totalled([Emptied(p)] + s) == Totalled([] + t)
  {
    assert ([p] + s)[1..] == s && ([p] + t)[1..] == t && ([Emptied(p)] + s)[1..] == s && [] + t == t;
  }

  lemma {:induction false} ClearedIsChosen(ps: seq<Proc>, cleared: seq<Proc>, keep: seq<bool>)
    requires |keep| == |ps| == |cleared|
    requires forall k :: 0 <= k < |ps| ==> cleared[k] == if keep[k] then ps[k] else Emptied(ps[k])
    ensures Totalled(cleared) == Totalled(Chosen(ps, keep))
  {
    if ps == [] {
    } else {
      ClearedIsChosen(ps[1..], cleared[1..], keep[1..]);
      assert cleared == [cleared[0]] + cleared[1..];
      EmptiedAddsNothing(ps[0], cleared[1..], Chosen(ps[1..], keep[1..]));
    }
  }

  lemma {:induction false} AllChosen(ps: seq<Proc>, keep: seq<bool>)
    requires |keep| == |ps| && forall k :: 0 <= k < |ps| ==> keep[k]
    ensures Chosen(ps, keep) == ps
  {
    if ps == [] {
    } else {
      AllChosen(ps[1..], keep[1..]);
      assert ps == [ps[0]] + ps[1..];
    }
  }

  ghost function NotDropped(ps: seq<Proc>, rank: seq<nat>, top: nat): (keep: seq<bool>)
    requires Forest(ps, rank, top)
    ensures |keep| == |ps| && forall k: nat :: k < |ps| ==> keep[k] == !Dropped(ps, rank, top, k)
  {
    seq(|ps|, (k: nat) requires k < |ps| && Forest(ps, rank, top) => !Dropped(ps, rank, top, k))
  }

  /** The processes that are not dropped. */
  ghost function Remaining(ps: seq<Proc>, rank: seq<nat>, top: nat): seq<Proc>
    requires Forest(ps, rank, top)
  {
    Chosen(ps, NotDropped(ps, rank, top))
  }

  /** Rearranging processes does not change their totals. */
  lemma {:induction false} TotalsPermute(s: seq<Proc>, t: seq<Proc>)
    requires multiset(s) == multiset(t)
    ensures Totalled(s) == Totalled(t)
    decreases |s|
  {
    assert |s| == |multiset(s)| == |multiset(t)| == |t|;
    if s == [] {
    } else {
      var i := Matching(s, t);
      TotalsPermute(s[1..], t[..i] + t[i + 1..]);
      TotalWithout(t, i);
    }
  }

  lemma {:induction false} TotalWithout(t: seq<Proc>, i: nat)
    requires i < |t|
    ensures var u := Totalled(t[..i] + t[i + 1..]);
      Totalled(t) == Totals(t[i].mem + u.mem, t[i].threads + u.threads, t[i].cpuP + u.cpuP, t[i].cpuC + u.cpuC)
  {
    if i == 0 {
      assert t[..i] + t[i + 1..] == t[1..];
    } else {
      TotalWithout(t[1..], i - 1);
      assert t[1..][..i - 1] + t[1..][i..] == (t[..i] + t[i + 1..])[1..];
    }
  }

  lemma PositionsPick(ps: seq<Proc>)
    ensures forall i :: 0 <= i < |ps| ==> Positions(|ps|)[i] < |ps|
    ensures Pick(ps, Positions(|ps|)) == ps
  {
  }

  /** After an update the shown rows add up to the processes that are not dropped, in every field. */
  lemma ShownRemain(ps: seq<Proc>, rank: seq<nat>, top: nat, now: seq<Proc>, trees: seq<Tree>, shown: nat)
    requires Forest(ps, rank, top) && Arranged(ps, rank, top, UPDATE, now, trees, shown)
    ensures Totalled(ShownProcs(now)) == Totalled(Remaining(ps, rank, top))
  {
    var cleared, all := Cleared(ps, rank, top), Positions(|ps|);
    ClearedIsChosen(ps, cleared, NotDropped(ps, rank, top));
    PositionsPick(cleared);
    PositionsPick(now);
    forall q: Quantity ensures Part(Totalled(ShownProcs(now)), q) == Part(Totalled(cleared), q) {
      assert AmountsShown(ps, rank, top, now, UPDATE, q);
      SumIsTotal(all, cleared, q);
      ShownIsTotal(all, now, q);
    }
    PartsDetermine(Totalled(ShownProcs(now)), Totalled(cleared));
  }

  /** The final order adds up to the same. */
  lemma ReorderedRemain(ps: seq<Proc>, rank: seq<nat>, top: nat, now: seq<Proc>, trees: seq<Tree>, shown: nat)
    requires Forest(ps, rank, top) && Arranged(ps, rank, top, UPDATE, now, trees, shown)
    ensures Totalled(ShownProcs(ByIndex(now))) == Totalled(Remaining(ps, rank, top))
  {
    ShownRemain(ps, rank, top, now, trees, shown);
    ByIndexContract(now, 0);
    SameShown(ByIndex(now), now);
    TotalsPermute(ShownProcs(ByIndex(now)), ShownProcs(now));
  }

  lemma NothingDropped(ps: seq<Proc>, rank: seq<nat>, top: nat, k: nat)
    requires Forest(ps, rank, top) && k < |ps|
    requires forall j: nat :: j < |ps| && ps[j].dead ==> !BelowCollapsed(ps, rank, top, j)
    ensures !Dropped(ps, rank, top, k)
  {
  }

  /** With no dead process below a collapsed one, what is shown adds up to the whole list. */
  lemma WholeListIsShown(ps: seq<Proc>, rank: seq<nat>, top: nat, now: seq<Proc>, trees: seq<Tree>, shown: nat)
    requires Forest(ps, rank, top) && Arranged(ps, rank, top, UPDATE, now, trees, shown)
    requires forall k: nat :: k < |ps| && ps[k].dead ==> !BelowCollapsed(ps, rank, top, k)
    ensures Totalled(ShownProcs(ByIndex(now))) == Totalled(ps)
  {
    ReorderedRemain(ps, rank, top, now, trees, shown);
    forall k: nat | k < |ps| ensures !Dropped(ps, rank, top, k) { NothingDropped(ps, rank, top, k); }
    AllChosen(ps, NotDropped(ps, rank, top));
  }

  lemma SubtreeWithin(ps: seq<Proc>, rank: seq<nat>, top: nat, k: nat)
    requires Forest(ps, rank, top) && k < |ps|
    ensures forall i :: 0 <= i < |Pre(TreeOf(ps, rank, top, k))| ==> Pre(TreeOf(ps, rank, top, k))[i] < |ps|
  {
    var xs := Pre(TreeOf(ps, rank, top, k));
    forall i | 0 <= i < |xs| ensures xs[i] < |ps| { PreIsBelow(ps, rank, top, k, xs[i]); }
  }

  /** The processes in the subtree of `k`, those severed from `k` without amounts. */
  ghost function Subtree(ps: seq<Proc>, rank: seq<nat>, top: nat, k: nat): seq<Proc>
    requires Forest(ps, rank, top) && k < |ps|
  {
    SubtreeWithin(ps, rank, top, k);
    Pick(Joined(ps, rank, top, k), Pre(TreeOf(ps, rank, top, k)))
  }

  lemma SubtreeSum(ps: seq<Proc>, rank: seq<nat>, top: nat, k: nat, q: Quantity)
    requires Forest(ps, rank, top) && k < |ps|
    ensures Sum(Pre(TreeOf(ps, rank, top, k)), Joined(ps, rank, top, k), q)
         == Part(Totalled(Subtree(ps, rank, top, k)), q)
  {
    SubtreeWithin(ps, rank, top, k);
    SumIsTotal(Pre(TreeOf(ps, rank, top, k)), Joined(ps, rank, top, k), q);
  }

  lemma AmountIsPart(ps: seq<Proc>, rank: seq<nat>, top: nat, mode: Mode, now: seq<Proc>, trees: seq<Tree>,
                     shown: nat, k: nat, q: Quantity)
    requires Forest(ps, rank, top) && mode.aggregate && Arranged(ps, rank, top, mode, now, trees, shown) && k < |ps|
    ensures Amount(now[k], q) == Part(Totalled(Subtree(ps, rank, top, k)), q)
  {
    assert AmountsShown(ps, rank, top, now, mode, q);
    SubtreeSum(ps, rank, top, k, q);
  }

  /** With aggregation a process shows the totals of its subtree, but for what a dead process severs from it. */
  lemma SubtreeTotals(ps: seq<Proc>, rank: seq<nat>, top: nat, mode: Mode, now: seq<Proc>, trees: seq<Tree>,
                      shown: nat, k: nat)
    requires Forest(ps, rank, top) && mode.aggregate && Arranged(ps, rank, top, mode, now, trees, shown) && k < |ps|
    ensures Totals(now[k].mem, now[k].threads, now[k].cpuP, now[k].cpuC) == Totalled(Subtree(ps, rank, top, k))
  {
    var t, u := Totals(now[k].mem, now[k].threads, now[k].cpuP, now[k].cpuC), Totalled(Subtree(ps, rank, top, k));
    forall q: Quantity ensures Part(t, q) == Part(u, q) {
      AmountIsPart(ps, rank, top, mode, now, trees, shown, k, q);
    }
    PartsDetermine(t, u);
  }

  /** Without an update and without aggregation all four fields stay. */
  lemma FieldsStay(ps: seq<Proc>, rank: seq<nat>, top: nat, now: seq<Proc>, trees: seq<Tree>, shown: nat, k: nat)
    requires Forest(ps, rank, top) && Arranged(ps, rank, top, Mode(true, false), now, trees, shown) && k < |ps|
    ensures now[k].mem == ps[k].mem && now[k].threads == ps[k].threads
    ensures now[k].cpuP == ps[k].cpuP && now[k].cpuC == ps[k].cpuC
  {
    forall q: Quantity ensures Amount(now[k], q) == Amount(ps[k], q) {
      assert AmountsShown(ps, rank, top, now, Mode(true, false), q);
    }
    assert Amount(now[k], Mem) == Amount(ps[k], Mem) && Amount(now[k], Threads) == Amount(ps[k], Threads);
    assert Amount(now[k], CpuP) == Amount(ps[k], CpuP) && Amount(now[k], CpuC) == Amount(ps[k], CpuC);
  }
}
