/** Which lists the walk of the process tree ends on: those in which no process is its own ancestor. */
module ProcRanks {
  import opened Collections
  import opened ProcTree

  /** Each process of the path is followed by its parent. */
  predicate Upward(ps: seq<Proc>, path: seq<nat>) {
    && (forall i :: 0 <= i < |path| ==> path[i] < |ps|)
    && (forall i :: 0 <= i < |path| - 1 ==> ps[path[i]].ppid == ps[path[i + 1]].pid)
  }

  ghost predicate OwnAncestor(ps: seq<Proc>) {
    exists path :: |path| > 1 && Upward(ps, path) && path[0] == path[|path| - 1]
  }

  ghost function Parent(ps: seq<Proc>, k: nat): (r: Option<nat>)
    requires k < |ps|
    ensures r.Some? ==> r.value < |ps| && ps[k].ppid == ps[r.value].pid
    ensures r.None? ==> forall j :: 0 <= j < |ps| ==> ps[k].ppid != ps[j].pid
  {
    if j: nat :| j < |ps| && ps[k].ppid == ps[j].pid then Some(j) else None
  }

  /** The ancestors of `k` and `k` itself, from below, as far as `steps` reach. */
  ghost function Line(ps: seq<Proc>, k: nat, steps: nat): (path: seq<nat>)
    requires k < |ps|
    ensures 0 < |path| <= steps + 1 && path[0] == k
    decreases steps
  {
    if steps == 0 || Parent(ps, k).None? then [k] else [k] + Line(ps, Parent(ps, k).value, steps - 1)
  }

  lemma {:induction false} LineIsUpward(ps: seq<Proc>, k: nat, steps: nat)
    requires k < |ps|
    ensures Upward(ps, Line(ps, k, steps))
    decreases steps
  {
    if steps == 0 || Parent(ps, k).None? {
    } else {
      LineIsUpward(ps, Parent(ps, k).value, steps - 1);
    }
  }

  /** A line that ends early does not change with more steps. */
  lemma {:induction false} LineEnds(ps: seq<Proc>, k: nat, steps: nat)
    requires k < |ps| && |Line(ps, k, steps)| <= steps
    ensures Line(ps, k, steps + 1) == Line(ps, k, steps)
    decreases steps
  {
    if Parent(ps, k).None? {
    } else {
      LineEnds(ps, Parent(ps, k).value, steps - 1);
    }
  }

  lemma NoLoop(ps: seq<Proc>, path: seq<nat>)
    requires Upward(ps, path) && !OwnAncestor(ps)
    ensures NoRepeats(path)
  {
    forall i, j | 0 <= i < j < |path| ensures path[i] != path[j] {
      var loop := path[i..j + 1];
      assert Upward(ps, loop) && |loop| > 1;
    }
  }

  lemma LineIsShort(ps: seq<Proc>, k: nat, steps: nat)
    requires k < |ps| && !OwnAncestor(ps)
    ensures |Line(ps, k, steps)| <= |ps|
  {
    LineIsUpward(ps, k, steps);
    NoLoop(ps, Line(ps, k, steps));
    Pigeonhole(Line(ps, k, steps), Below(|ps|));
  }

  /** How many processes are on the way up from `k`. */
  ghost function Level(ps: seq<Proc>, k: nat): nat
    requires k < |ps|
  {
    |Line(ps, k, |ps|)|
  }

  lemma ChildIsDeeper(ps: seq<Proc>, i: nat, j: nat)
    requires DistinctPids(ps) && !OwnAncestor(ps) && i < |ps| && j < |ps| && ps[j].ppid == ps[i].pid
    ensures Level(ps, j) == Level(ps, i) + 1
  {
    assert Parent(ps, j) == Some(i);
    LineIsShort(ps, j, |ps|);
    LineEnds(ps, i, |ps| - 1);
  }

  lemma {:induction false} RanksFall(ps: seq<Proc>, rank: seq<nat>, top: nat, path: seq<nat>)
    requires Acyclic(ps, rank, top) && |path| > 1 && Upward(ps, path)
    ensures rank[path[|path| - 1]] < rank[path[0]]
    decreases |path|
  {
    assert ps[path[0]].ppid == ps[path[1]].pid;
    if |path| == 2 {
    } else {
      assert Upward(ps, path[1..]);
      RanksFall(ps, rank, top, path[1..]);
    }
  }

  /** The ranks the walk is given exist exactly when no process is its own ancestor. */
  lemma RanksExistIff(ps: seq<Proc>)
    requires DistinctPids(ps)
    ensures (exists rank, top :: Acyclic(ps, rank, top)) <==> !OwnAncestor(ps)
  {
    if rank, top :| Acyclic(ps, rank, top) {
      forall path | |path| > 1 && Upward(ps, path) ensures path[0] != path[|path| - 1] {
        RanksFall(ps, rank, top, path);
      }
    }
    if !OwnAncestor(ps) {
      var rank := seq(|ps|, (k: nat) requires k < |ps| => Level(ps, k));
      forall i, j | 0 <= i < |ps| && 0 <= j < |ps| && ps[j].ppid == ps[i].pid ensures rank[i] < rank[j] {
        ChildIsDeeper(ps, i, j);
      }
      assert Acyclic(ps, rank, |ps| + 2);
    }
  }
}
