/** The locked configuration: writes wait in a second set of arrays until the lock is given back. */
module ConfigLocks {
  import opened Collections

  const SELECTED_PID := 5
  const SELECTED_DEPTH := 7
  const PROC_START := 8
  const PROC_SELECTED := 9
  const SELECTED_NAME := 27
  const INT_KEYS := 12
  const STRING_KEYS := 28

  datatype Values = Values(bools: seq<bool>, ints: seq<int>, strings: seq<string>) {
    predicate Valid() {
      |ints| >= INT_KEYS && |strings| >= STRING_KEYS
    }
  }

  datatype Op =
    | SetBool(key: nat, on: bool)
    | SetInt(key: nat, n: int)
    | SetString(key: nat, text: string)
    | Flip(key: nat)

  predicate Fits(v: Values, op: Op) {
    match op
    case SetBool(k, _) => k < |v.bools|
    case SetInt(k, _) => k < |v.ints|
    case SetString(k, _) => k < |v.strings|
    case Flip(k) => k < |v.bools|
  }

  /** A write to the configuration itself. */
  function WriteOne(v: Values, op: Op): (r: Values)
    requires v.Valid() && Fits(v, op)
    ensures r.Valid() && |r.bools| == |v.bools| && |r.ints| == |v.ints| && |r.strings| == |v.strings|
  {
    match op
    case SetBool(k, on) => v.(bools := v.bools[k := on])
    case SetInt(k, n) => v.(ints := v.ints[k := n])
    case SetString(k, text) => v.(strings := v.strings[k := text])
    case Flip(k) => v.(bools := v.bools[k := !v.bools[k]])
  }

  predicate AllFit(v: Values, ops: seq<Op>) {
    forall i :: 0 <= i < |ops| ==> Fits(v, ops[i])
  }

  /** Writes in order. */
  function WriteAll(v: Values, ops: seq<Op>): (r: Values)
    requires v.Valid() && AllFit(v, ops)
    ensures r.Valid() && |r.bools| == |v.bools| && |r.ints| == |v.ints| && |r.strings| == |v.strings|
    decreases |ops|
  {
    if ops == [] then v else WriteOne(WriteAll(v, ops[..|ops| - 1]), ops[|ops| - 1])
  }

  /** The process list's own selection, and whether the list is shown. */
  datatype Selection = Selection(shown: bool, pid: int, name: string, start: int, selected: int, depth: int)

  function TakeSelection(v: Values, sel: Selection): (r: Values)
    requires v.Valid()
    ensures r.Valid() && |r.bools| == |v.bools| && |r.ints| == |v.ints| && |r.strings| == |v.strings|
  {
    if !sel.shown then v
    else v.(
      ints := v.ints[SELECTED_PID := sel.pid][PROC_START := sel.start][PROC_SELECTED := sel.selected]
        [SELECTED_DEPTH := sel.depth],
      strings := v.strings[SELECTED_NAME := sel.name])
  }

  // ----- the store -----

  function Merged<T>(base: seq<T>, tmp: seq<Option<T>>): (r: seq<T>)
    requires |base| == |tmp|
    ensures |r| == |base| && forall i :: 0 <= i < |r| ==> r[i] == if tmp[i].Some? then tmp[i].value else base[i]
  {
    seq(|base|, (i: nat) requires i < |base| => if tmp[i].Some? then tmp[i].value else base[i])
  }

  function Empty<T>(n: nat): (r: seq<Option<T>>)
    ensures |r| == n && forall i :: 0 <= i < n ==> r[i] == None
  {
    seq(n, (_: nat) => None)
  }

  /** What readers see, the waiting writes, and the lock. */
  datatype Store = Store(
    seen: Values, boolsTmp: seq<Option<bool>>, intsTmp: seq<Option<int>>, stringsTmp: seq<Option<string>>, locked: bool)
  {
    predicate Valid() {
      && seen.Valid()
      && |boolsTmp| == |seen.bools| && |intsTmp| == |seen.ints| && |stringsTmp| == |seen.strings|
    }

    predicate NothingWaits() {
      boolsTmp == Empty(|boolsTmp|) && intsTmp == Empty(|intsTmp|) && stringsTmp == Empty(|stringsTmp|)
    }

    /** The configuration with the waiting writes laid over `base`. */
    function Over(base: Values): (r: Values)
      requires Valid() && base.Valid()
      requires |base.bools| == |seen.bools| && |base.ints| == |seen.ints| && |base.strings| == |seen.strings|
      ensures r.Valid()
    {
      Values(Merged(base.bools, boolsTmp), Merged(base.ints, intsTmp), Merged(base.strings, stringsTmp))
    }
  }

  function Apply(s: Store, op: Op): (r: Store)
    requires s.Valid() && Fits(s.seen, op)
    ensures r.Valid() && r.locked == s.locked
  {
    if !s.locked then s.(seen := WriteOne(s.seen, op))
    else
      match op
      case SetBool(k, on) => s.(boolsTmp := s.boolsTmp[k := Some(on)])
      case SetInt(k, n) => s.(intsTmp := s.intsTmp[k := Some(n)])
      case SetString(k, text) => s.(stringsTmp := s.stringsTmp[k := Some(text)])
      case Flip(k) =>
        s.(boolsTmp := s.boolsTmp[k := Some(if s.boolsTmp[k].Some? then !s.boolsTmp[k].value else !s.seen.bools[k])])
  }

  function Locked(s: Store): (r: Store)
    requires s.Valid()
    ensures r.Valid()
  {
    s.(locked := true)
  }

  function Unlocked(s: Store, sel: Selection): (r: Store)
    requires s.Valid()
    ensures r.Valid()
  {
    if !s.locked then s
    else
      Store(s.Over(TakeSelection(s.seen, sel)),
            Empty(|s.boolsTmp|), Empty(|s.intsTmp|), Empty(|s.stringsTmp|), false)
  }

  class Config {
    const bools: array<bool>
    const boolsTmp: array<Option<bool>>
    const ints: array<int>
    const intsTmp: array<Option<int>>
    const strings: array<string>
    const stringsTmp: array<Option<string>>
    var locked: bool

    ghost predicate Valid()
      reads this, bools, boolsTmp, ints, intsTmp, strings, stringsTmp
    {
      View().Valid()
    }

    ghost function View(): (s: Store)
      reads this, bools, boolsTmp, ints, intsTmp, strings, stringsTmp
    {
      Store(Values(bools[..], ints[..], strings[..]), boolsTmp[..], intsTmp[..], stringsTmp[..], locked)
    }

    constructor (values: Values)
      requires values.Valid()
      ensures Valid() && View().seen == values && View().NothingWaits() && !locked
      ensures fresh(bools) && fresh(boolsTmp) && fresh(ints) && fresh(intsTmp) && fresh(strings) && fresh(stringsTmp)
    {
      bools := new bool[|values.bools|](i requires 0 <= i < |values.bools| => values.bools[i]);
      boolsTmp := new Option<bool>[|values.bools|](_ => None);
      ints := new int[|values.ints|](i requires 0 <= i < |values.ints| => values.ints[i]);
      intsTmp := new Option<int>[|values.ints|](_ => None);
      strings := new string[|values.strings|](i requires 0 <= i < |values.strings| => values.strings[i]);
      stringsTmp := new Option<string>[|values.strings|](_ => None);
      locked := false;
    }

    method SetBool(key: nat, on: bool)
      requires Valid() && key < bools.Length
      modifies bools, boolsTmp
      ensures View() == Apply(old(View()), Op.SetBool(key, on))
      ensures bools[..] == if locked then old(bools[..]) else old(bools[..])[key := on]
    {
      if locked {
        boolsTmp[key] := Some(on);
      } else {
        bools[key] := on;
      }
    }

    method SetInt(key: nat, n: int)
      requires Valid() && key < ints.Length
      modifies ints, intsTmp
      ensures View() == Apply(old(View()), Op.SetInt(key, n))
      ensures ints[..] == if locked then old(ints[..]) else old(ints[..])[key := n]
    {
      if locked {
        intsTmp[key] := Some(n);
      } else {
        ints[key] := n;
      }
    }

    method SetString(key: nat, text: string)
      requires Valid() && key < strings.Length
      modifies strings, stringsTmp
      ensures View() == Apply(old(View()), Op.SetString(key, text))
      ensures strings[..] == if locked then old(strings[..]) else old(strings[..])[key := text]
    {
      if locked {
        stringsTmp[key] := Some(text);
      } else {
        strings[key] := text;
      }
    }

    method Flip(key: nat)
      requires Valid() && key < bools.Length
      modifies bools, boolsTmp
      ensures View() == Apply(old(View()), Op.Flip(key))
      ensures bools[..] == if locked then old(bools[..]) else old(bools[..])[key := !old(bools[key])]
    {
      if locked {
        if boolsTmp[key].Some? {
          boolsTmp[key] := Some(!boolsTmp[key].value);
        } else {
          boolsTmp[key] := Some(!bools[key]);
        }
      } else {
        bools[key] := !bools[key];
      }
    }

    method Lock()
      requires Valid()
      modifies this`locked
      ensures View() == Locked(old(View()))
    {
      locked := true;
    }

    method Unlock(sel: Selection)
      requires Valid()
      modifies this`locked, bools, boolsTmp, ints, intsTmp, strings, stringsTmp
      ensures View() == Unlocked(old(View()), sel)
    {
      if !locked {
        return;
      }
      if sel.shown {
        ints[SELECTED_PID] := sel.pid;
        strings[SELECTED_NAME] := sel.name;
        ints[PROC_START] := sel.start;
        ints[PROC_SELECTED] := sel.selected;
        ints[SELECTED_DEPTH] := sel.depth;
      }
      assert ints[..] == TakeSelection(old(View().seen), sel).ints;
      assert strings[..] == TakeSelection(old(View().seen), sel).strings;
      Commit(strings, stringsTmp);
      Commit(ints, intsTmp);
      Commit(bools, boolsTmp);
      locked := false;
    }
  }

  /** Moves the waiting writes of one kind over the values. */
  method Commit<T>(values: array<T>, tmp: array<Option<T>>)
    requires values.Length == tmp.Length && values as object != tmp as object
    modifies values, tmp
    ensures values[..] == Merged(old(values[..]), old(tmp[..]))
    ensures tmp[..] == Empty(tmp.Length)
  {
    for i := 0 to values.Length
      invariant forall k :: 0 <= k < i ==>
        tmp[k] == None && values[k] == if old(tmp[k]).Some? then old(tmp[k]).value else old(values[k])
      invariant forall k :: i <= k < values.Length ==> tmp[k] == old(tmp[k]) && values[k] == old(values[k])
    {
      if tmp[i].Some? {
        values[i] := tmp[i].value;
        tmp[i] := None;
      }
    }
  }

  // ----- every run -----

  datatype Event = Write(op: Op) | LockIt | UnlockIt(sel: Selection)

  predicate EventFits(v: Values, e: Event) {
    e.Write? ==> Fits(v, e.op)
  }

  function StepStore(s: Store, e: Event): (r: Store)
    requires s.Valid() && EventFits(s.seen, e)
    ensures r.Valid()
    ensures |r.seen.bools| == |s.seen.bools| && |r.seen.ints| == |s.seen.ints| && |r.seen.strings| == |s.seen.strings|
  {
    match e
    case Write(op) => Apply(s, op)
    case LockIt => Locked(s)
    case UnlockIt(sel) => Unlocked(s, sel)
  }

  /** The plain account of locking: while locked, writes are noted down; unlocking carries them out in order. */
  datatype Ledger = Ledger(seen: Values, noted: seq<Op>, locked: bool) {
    predicate Valid() {
      seen.Valid() && AllFit(seen, noted)
    }
  }

  lemma SelectionFits(v: Values, sel: Selection, ops: seq<Op>)
    requires v.Valid() && AllFit(v, ops)
    ensures AllFit(TakeSelection(v, sel), ops)
  {
  }

  function StepLedger(l: Ledger, e: Event): (r: Ledger)
    requires l.Valid() && EventFits(l.seen, e)
    ensures r.Valid()
    ensures |r.seen.bools| == |l.seen.bools| && |r.seen.ints| == |l.seen.ints| && |r.seen.strings| == |l.seen.strings|
  {
    match e
    case Write(op) =>
      if l.locked then l.(noted := l.noted + [op]) else l.(seen := WriteOne(l.seen, op))
    case LockIt => l.(locked := true)
    case UnlockIt(sel) =>
      if l.locked then
        SelectionFits(l.seen, sel, l.noted);
        Ledger(WriteAll(TakeSelection(l.seen, sel), l.noted), [], false)
      else l
  }

  /** Laid over any values with the same flags, the waiting writes amount to the noted ones. */
  ghost predicate Amounts(s: Store, noted: seq<Op>)
    requires s.Valid()
  {
    forall base: Values :: Under(s, base) ==> AllFit(base, noted) && s.Over(base) == WriteAll(base, noted)
  }

  predicate Under(s: Store, base: Values)
    requires s.Valid()
  {
    base.Valid() && base.bools == s.seen.bools && |base.ints| == |s.seen.ints| && |base.strings| == |s.seen.strings|
  }

  ghost predicate Refines(s: Store, l: Ledger) {
    && s.Valid() && l.Valid() && s.seen == l.seen && s.locked == l.locked
    && (!s.locked ==> s.NothingWaits() && l.noted == [])
    && Amounts(s, l.noted)
  }

  lemma NothingOver(s: Store, base: Values)
    requires s.Valid() && s.NothingWaits() && Under(s, base)
    ensures s.Over(base) == base
  {
    assert Merged(base.bools, s.boolsTmp) == base.bools;
    assert Merged(base.ints, s.intsTmp) == base.ints;
    assert Merged(base.strings, s.stringsTmp) == base.strings;
  }

  lemma EmptyAmounts(s: Store)
    requires s.Valid() && s.NothingWaits()
    ensures Amounts(s, [])
  {
    forall base: Values | Under(s, base) ensures s.Over(base) == WriteAll(base, []) {
      NothingOver(s, base);
    }
  }

  /** A waiting write is a write to the merged configuration. */
  lemma WaitingWrite(s: Store, base: Values, op: Op)
    requires s.Valid() && s.locked && Fits(s.seen, op) && Under(s, base)
    ensures Apply(s, op).Over(base) == WriteOne(s.Over(base), op)
  {
    var r := Apply(s, op);
    assert Merged(base.bools, r.boolsTmp) == WriteOne(s.Over(base), op).bools;
    assert Merged(base.ints, r.intsTmp) == WriteOne(s.Over(base), op).ints;
    assert Merged(base.strings, r.stringsTmp) == WriteOne(s.Over(base), op).strings;
  }

  lemma WriteKeepsRefines(s: Store, l: Ledger, op: Op)
    requires Refines(s, l) && s.locked && Fits(s.seen, op)
    ensures Refines(Apply(s, op), StepLedger(l, Write(op)))
  {
    var r, noted := Apply(s, op), l.noted + [op];
    assert noted[..|noted| - 1] == l.noted;
    forall base: Values | Under(r, base) ensures AllFit(base, noted) && r.Over(base) == WriteAll(base, noted) {
      assert Under(s, base);
      assert s.Over(base) == WriteAll(base, l.noted);
      WaitingWrite(s, base, op);
    }
  }

  lemma UnlockKeepsRefines(s: Store, l: Ledger, sel: Selection)
    requires Refines(s, l) && s.locked
    ensures Refines(Unlocked(s, sel), StepLedger(l, UnlockIt(sel)))
  {
    var base := TakeSelection(s.seen, sel);
    assert Under(s, base);
    assert s.Over(base) == WriteAll(base, l.noted);
    EmptyAmounts(Unlocked(s, sel));
  }

  lemma StepRefines(s: Store, l: Ledger, e: Event)
    requires Refines(s, l) && EventFits(s.seen, e)
    ensures Refines(StepStore(s, e), StepLedger(l, e))
  {
    if s.locked {
      match e
      case Write(op) => WriteKeepsRefines(s, l, op);
      case LockIt =>
      case UnlockIt(sel) => UnlockKeepsRefines(s, l, sel);
    } else {
      EmptyAmounts(StepStore(s, e));
    }
  }

  predicate RunFits(v: Values, events: seq<Event>) {
    forall i :: 0 <= i < |events| ==> EventFits(v, events[i])
  }

  function RunStore(s: Store, events: seq<Event>): (r: Store)
    requires s.Valid() && RunFits(s.seen, events)
    ensures r.Valid()
    ensures |r.seen.bools| == |s.seen.bools| && |r.seen.ints| == |s.seen.ints| && |r.seen.strings| == |s.seen.strings|
    decreases |events|
  {
    if events == [] then s else RunStore(StepStore(s, events[0]), events[1..])
  }

  function RunLedger(l: Ledger, events: seq<Event>): (r: Ledger)
    requires l.Valid() && RunFits(l.seen, events)
    ensures r.Valid()
    ensures |r.seen.bools| == |l.seen.bools| && |r.seen.ints| == |l.seen.ints| && |r.seen.strings| == |l.seen.strings|
    decreases |events|
  {
    if events == [] then l else RunLedger(StepLedger(l, events[0]), events[1..])
  }

  /**
   In every run of writes, locks and unlocks, readers see what the plain account shows: the values frozen at
   the lock, and after the unlock all writes carried out in order on top of the process list's selection.
   */
  lemma {:induction false} RunRefines(s: Store, l: Ledger, events: seq<Event>)
    requires Refines(s, l) && RunFits(s.seen, events)
    ensures RunStore(s, events).seen == RunLedger(l, events).seen
    ensures RunStore(s, events).locked == RunLedger(l, events).locked
    ensures Refines(RunStore(s, events), RunLedger(l, events))
    decreases |events|
  {
    if events != [] {
      StepRefines(s, l, events[0]);
      RunRefines(StepStore(s, events[0]), StepLedger(l, events[0]), events[1..]);
    }
  }

  function Writes(ops: seq<Op>): (events: seq<Event>)
    ensures |events| == |ops| && forall i :: 0 <= i < |ops| ==> events[i] == Write(ops[i])
  {
    seq(|ops|, (i: nat) requires i < |ops| => Write(ops[i]))
  }

  lemma {:induction false} LedgerNotes(l: Ledger, ops: seq<Op>)
    requires l.Valid() && l.locked && AllFit(l.seen, ops)
    ensures RunLedger(l, Writes(ops)) == l.(noted := l.noted + ops)
    decreases |ops|
  {
    if ops == [] {
      assert l.noted + ops == l.noted;
    } else {
      assert Writes(ops)[1..] == Writes(ops[1..]);
      LedgerNotes(StepLedger(l, Write(ops[0])), ops[1..]);
      assert l.noted + [ops[0]] + ops[1..] == l.noted + ops;
    }
  }

  lemma LedgerBatch(v: Values, ops: seq<Op>)
    requires v.Valid() && AllFit(v, ops)
    ensures RunLedger(Ledger(v, [], false), [LockIt] + Writes(ops)) == Ledger(v, ops, true)
  {
    var events := [LockIt] + Writes(ops);
    assert events[1..] == Writes(ops);
    LedgerNotes(Ledger(v, [], true), ops);
    assert [] + ops == ops;
  }

  /** One locked stretch: nothing changes for readers until the unlock, which carries out all writes at once. */
  lemma LockedBatch(s: Store, ops: seq<Op>, sel: Selection)
    requires s.Valid() && !s.locked && s.NothingWaits() && AllFit(s.seen, ops)
    ensures var r := RunStore(s, [LockIt] + Writes(ops));
      && r.seen == s.seen
      && AllFit(TakeSelection(s.seen, sel), ops)
      && Unlocked(r, sel).seen == WriteAll(TakeSelection(s.seen, sel), ops)
  {
    EmptyAmounts(s);
    LedgerBatch(s.seen, ops);
    RunRefines(s, Ledger(s.seen, [], false), [LockIt] + Writes(ops));
    SelectionFits(s.seen, sel, ops);
    UnlockKeepsRefines(RunStore(s, [LockIt] + Writes(ops)), Ledger(s.seen, ops, true), sel);
  }

  /** Both write the same value of the same kind. */
  predicate SameTarget(a: Op, b: Op) {
    a.key == b.key && (a.SetInt? <==> b.SetInt?) && (a.SetString? <==> b.SetString?)
  }

  /** What a reader finds after a write that no later one overwrites: the value set, or the flag turned over. */
  predicate ShowsWrite(before: Values, after: Values, op: Op)
    requires Fits(before, op) && Fits(after, op)
  {
    match op
    case SetBool(k, on) => after.bools[k] == on
    case SetInt(k, n) => after.ints[k] == n
    case SetString(k, text) => after.strings[k] == text
    case Flip(k) => after.bools[k] != before.bools[k]
  }

  lemma {:induction false} LastWriteShows(v: Values, ops: seq<Op>, j: nat)
    requires v.Valid() && AllFit(v, ops) && j < |ops|
    requires forall i :: j < i < |ops| ==> !SameTarget(ops[j], ops[i])
    ensures ShowsWrite(WriteAll(v, ops[..j]), WriteAll(v, ops), ops[j])
    decreases |ops|
  {
    var front, last := ops[..|ops| - 1], ops[|ops| - 1];
    if j < |front| {
      assert front[j] == ops[j] && front[..j] == ops[..j];
      LastWriteShows(v, front, j);
      assert !SameTarget(ops[j], last);
    }
  }

  predicate WritesInt(ops: seq<Op>, key: nat) {
    exists i :: 0 <= i < |ops| && ops[i].SetInt? && ops[i].key == key
  }

  predicate WritesString(ops: seq<Op>, key: nat) {
    exists i :: 0 <= i < |ops| && ops[i].SetString? && ops[i].key == key
  }

  /** A number written in the stretch is the last one written; one not written is what it was before. */
  lemma {:induction false} LastWriteCounts(v: Values, w: Values, ops: seq<Op>, key: nat)
    requires v.Valid() && AllFit(v, ops) && w.Valid() && AllFit(w, ops)
    requires key < |v.ints| == |w.ints|
    ensures if WritesInt(ops, key)
      then WriteAll(v, ops).ints[key] == WriteAll(w, ops).ints[key]
      else WriteAll(v, ops).ints[key] == v.ints[key]
    decreases |ops|
  {
    if ops != [] {
      var front, op := ops[..|ops| - 1], ops[|ops| - 1];
      LastWriteCounts(v, w, front, key);
      if op.SetInt? && op.key == key {
      } else if i :| 0 <= i < |ops| && ops[i].SetInt? && ops[i].key == key {
        assert front[i].SetInt? && front[i].key == key;
      }
    }
  }

  lemma {:induction false} LastStringCounts(v: Values, w: Values, ops: seq<Op>, key: nat)
    requires v.Valid() && AllFit(v, ops) && w.Valid() && AllFit(w, ops)
    requires key < |v.strings| == |w.strings|
    ensures if WritesString(ops, key)
      then WriteAll(v, ops).strings[key] == WriteAll(w, ops).strings[key]
      else WriteAll(v, ops).strings[key] == v.strings[key]
    decreases |ops|
  {
    if ops != [] {
      var front, op := ops[..|ops| - 1], ops[|ops| - 1];
      LastStringCounts(v, w, front, key);
      if op.SetString? && op.key == key {
      } else if i :| 0 <= i < |ops| && ops[i].SetString? && ops[i].key == key {
        assert front[i].SetString? && front[i].key == key;
      }
    }
  }

  function SelectedInt(sel: Selection, v: Values, key: nat): int
    requires key < |v.ints|
  {
    if key == SELECTED_PID then sel.pid
    else if key == PROC_START then sel.start
    else if key == PROC_SELECTED then sel.selected
    else if key == SELECTED_DEPTH then sel.depth
    else v.ints[key]
  }

  /** The unlock hands over the process list's selection only when the list is shown and no write is waiting. */
  lemma SelectionYields(s: Store, ops: seq<Op>, sel: Selection)
    requires s.Valid() && !s.locked && s.NothingWaits() && AllFit(s.seen, ops)
    ensures var r := Unlocked(RunStore(s, [LockIt] + Writes(ops)), sel).seen;
      var direct := WriteAll(s.seen, ops);
      && |r.ints| == |s.seen.ints| && |r.strings| == |s.seen.strings| && r.bools == direct.bools
      && (forall k :: 0 <= k < |r.ints| ==>
        r.ints[k] == if !sel.shown || WritesInt(ops, k) then direct.ints[k] else SelectedInt(sel, s.seen, k))
      && (forall k :: 0 <= k < |r.strings| ==>
        r.strings[k] == if !sel.shown || WritesString(ops, k) then direct.strings[k]
          else if k == SELECTED_NAME then sel.name else s.seen.strings[k])
  {
    var base := TakeSelection(s.seen, sel);
    LockedBatch(s, ops, sel);
    SameFlags(base, s.seen, ops);
    forall k | 0 <= k < |base.ints|
      ensures WriteAll(base, ops).ints[k]
           == if WritesInt(ops, k) then WriteAll(s.seen, ops).ints[k] else base.ints[k]
    {
      LastWriteCounts(base, s.seen, ops, k);
    }
    forall k | 0 <= k < |base.strings|
      ensures WriteAll(base, ops).strings[k]
           == if WritesString(ops, k) then WriteAll(s.seen, ops).strings[k] else base.strings[k]
    {
      LastStringCounts(base, s.seen, ops, k);
    }
  }

  lemma {:induction false} SameFlags(v: Values, w: Values, ops: seq<Op>)
    requires v.Valid() && AllFit(v, ops) && w.Valid() && AllFit(w, ops) && v.bools == w.bools
    ensures WriteAll(v, ops).bools == WriteAll(w, ops).bools
    decreases |ops|
  {
    if ops != [] { SameFlags(v, w, ops[..|ops| - 1]); }
  }
}
