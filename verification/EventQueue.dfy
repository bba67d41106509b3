/**
 The single-producer single-consumer ring queue, as interleaved atomic steps: every load and store of
 `head_`, `tail_` and a slot is a step of its own. Head and tail are 32-bit counters that wrap.
 */
module EventQueues {
  import opened Arithmetic
  import opened Collections

  /** Bitwise and. */
  function BitAnd(a: nat, b: nat): (r: nat)
    ensures r <= b
  {
    if a == 0 || b == 0 then 0
    else (if a % 2 == 1 && b % 2 == 1 then 1 else 0) + 2 * BitAnd(a / 2, b / 2)
  }

  /** Unsigned 32-bit subtraction. */
  function Minus(a: nat, b: nat): nat {
    (a - b) % WORD
  }

  datatype Producer<T> =
    | Ready
    | HasHead(item: T, h: nat)
    | HasTail(item: T, h: nat, t: nat, seen: nat)
    | Stored(item: T, h: nat)

  datatype Consumer<T> =
    | Waiting
    | KnowsTail(t: nat)
    | KnowsHead(t: nat, h: nat, seen: nat)
    | Took(t: nat, item: T)
    | CheckTail(t: nat)
    | CheckHead(h: nat, seen: nat)

  /** An answer of `empty()`, with the number of items held when it loaded the head. */
  datatype Check = Check(answer: bool, held: nat)

  /**
   `pushed` and `popped` are the items accepted and returned so far; `refused` and `missed` record how many
   items the queue held when a failing push loaded the tail and when a failing pop loaded the head; `checks`
   are the answers given to the consumer's questions whether the queue is empty.
   */
  datatype Queue<T> = Queue(
    bits: nat, head: nat, tail: nat, slots: seq<T>,
    producer: Producer<T>, consumer: Consumer<T>,
    pushed: seq<T>, popped: seq<T>, refused: seq<nat>, missed: seq<nat>, checks: seq<Check>)
  {
    function Capacity(): (c: nat)
      ensures c > 0
    {
      Pow2(bits)
    }

    /** `i & mask`. */
    function Slot(i: nat): (k: nat)
      ensures k < Capacity()
    {
      BitAnd(i, Capacity() - 1)
    }

    function Held(): int {
      |pushed| - |popped|
    }
  }

  /** `empty()` may load its two counters in either order. */
  datatype Act<T> = StartPush(item: T) | Produce | StartPop | StartEmpty(tailFirst: bool) | Consume

  predicate Sized<T>(q: Queue<T>) {
    |q.slots| == q.Capacity() && |q.popped| <= |q.pushed|
  }

  /** One atomic step; an act that does not apply changes nothing. */
  function Next<T>(q: Queue<T>, a: Act<T>): Queue<T>
    requires Sized(q)
  {
    match a
    case StartPush(item) =>
      if q.producer.Ready? then q.(producer := HasHead(item, q.head)) else q
    case Produce =>
      (match q.producer
       case Ready => q
       case HasHead(item, h) => q.(producer := HasTail(item, h, q.tail, q.Held()))
       case HasTail(item, h, t, seen) =>
         if Minus(h, t) >= q.Capacity() then q.(producer := Ready, refused := q.refused + [seen])
         else q.(producer := Stored(item, h), slots := q.slots[q.Slot(h) := item])
       case Stored(item, h) => q.(producer := Ready, head := (h + 1) % WORD, pushed := q.pushed + [item]))
    case StartPop =>
      if q.consumer.Waiting? then q.(consumer := KnowsTail(q.tail)) else q
    case StartEmpty(tailFirst) =>
      if !q.consumer.Waiting? then q
      else if tailFirst then q.(consumer := CheckTail(q.tail))
      else q.(consumer := CheckHead(q.head, q.Held()))
    case Consume =>
      match q.consumer
      case Waiting => q
      case KnowsTail(t) => q.(consumer := KnowsHead(t, q.head, q.Held()))
      case KnowsHead(t, h, seen) =>
        if t == h then q.(consumer := Waiting, missed := q.missed + [seen])
        else q.(consumer := Took(t, q.slots[q.Slot(t)]))
      case Took(t, item) => q.(consumer := Waiting, tail := (t + 1) % WORD, popped := q.popped + [item])
      case CheckTail(t) => q.(consumer := Waiting, checks := q.checks + [Check(q.head == t, q.Held())])
      case CheckHead(h, seen) => q.(consumer := Waiting, checks := q.checks + [Check(h == q.tail, seen)])
  }

  // ----- arithmetic -----

  lemma HalfMask(a: nat, p: nat)
    requires p > 0
    ensures BitAnd(a, 2 * p - 1) == a % 2 + 2 * BitAnd(a / 2, p - 1)
  {
    assert (2 * p - 1) / 2 == p - 1 && (2 * p - 1) % 2 == 1;
  }

  /** Masking with a power of two less one is the remainder. */
  lemma {:induction false} MaskIsRemainder(a: nat, k: nat)
    ensures BitAnd(a, Pow2(k) - 1) == a % Pow2(k)
  {
    if k == 0 {
      assert BitAnd(a, 0) == 0;
    } else {
      MaskIsRemainder(a / 2, k - 1);
      HalfMask(a, Pow2(k - 1));
      HalfRemainder(a, Pow2(k - 1));
    }
  }

  /** A capacity that is a power of two divides the counters' range, so wrapping does not move slots. */
  lemma WrapKeepsSlot(n: nat, k: nat)
    requires k <= 32
    ensures n % WORD % Pow2(k) == n % Pow2(k)
  {
    var m := PowersDivide(k, 32);
    WordIsPower();
    RemainderTwice(n, WORD, Pow2(k), m);
  }

  /** The difference of two wrapped counters is the difference of the counts, if that fits in a word. */
  lemma WrappedDifference(p: nat, d: nat)
    requires d <= p && d < WORD
    ensures Minus(p % WORD, (p - d) % WORD) == d
  {
    var a, b := p / WORD, (p - d) / WORD;
    assert p == WORD * a + p % WORD && p - d == WORD * b + (p - d) % WORD;
    assert p % WORD - (p - d) % WORD == WORD * (b - a) + d;
    RemainderIs(p % WORD - (p - d) % WORD, WORD, b - a, d);
  }

  lemma WrappedSuccessor(n: nat)
    ensures (n % WORD + 1) % WORD == (n + 1) % WORD
  {
  }

  /** Fewer than `c` consecutive positions never share a slot. */
  lemma SlotsDiffer(i: nat, j: nat, c: nat)
    requires i < j < i + c
    ensures i % c != j % c
  {
    var d := j / c - i / c;
    assert i == c * (i / c) + i % c;
    assert j == c * (j / c) + j % c;
    assert c * (j / c) - c * (i / c) == c * d;
    if d <= 0 { Scale(c, d, 0); } else { Scale(c, 1, d); }
  }

  // ----- what every step keeps -----

  ghost predicate ProducerOk<T>(q: Queue<T>)
    requires |q.slots| == q.Capacity()
  {
    var p := |q.pushed|;
    match q.producer
    case Ready => true
    case HasHead(item, h) => h == q.head
    case HasTail(item, h, t, seen) =>
      h == q.head && q.Held() <= seen <= q.Capacity() && seen <= p && t == (p - seen) % WORD
    case Stored(item, h) =>
      h == q.head && q.Held() < q.Capacity() && q.slots[p % q.Capacity()] == item
  }

  ghost predicate ConsumerOk<T>(q: Queue<T>)
    requires |q.popped| <= |q.pushed|
  {
    var d := |q.popped|;
    match q.consumer
    case Waiting => true
    case KnowsTail(t) => t == q.tail
    case KnowsHead(t, h, seen) =>
      t == q.tail && seen <= q.Held() && h == (d + seen) % WORD
    case Took(t, item) => t == q.tail && q.Held() > 0 && item == q.pushed[d]
    case CheckTail(t) => t == q.tail
    case CheckHead(h, seen) => seen <= q.Held() && h == (d + seen) % WORD
  }

  /** The queue's items are in their slots, in order, and what has left is a prefix of what has entered. */
  ghost predicate Inv<T>(q: Queue<T>) {
    && q.bits < 32 && |q.slots| == q.Capacity()
    && q.head == |q.pushed| % WORD && q.tail == |q.popped| % WORD
    && 0 <= q.Held() <= q.Capacity()
    && (forall i :: 0 <= i < |q.popped| ==> q.popped[i] == q.pushed[i])
    && (forall i :: |q.popped| <= i < |q.pushed| ==> q.slots[i % q.Capacity()] == q.pushed[i])
    && ProducerOk(q) && ConsumerOk(q)
    && (forall i :: 0 <= i < |q.refused| ==> q.refused[i] == q.Capacity())
    && (forall i :: 0 <= i < |q.missed| ==> q.missed[i] == 0)
    && (forall i :: 0 <= i < |q.checks| ==> (q.checks[i].answer <==> q.checks[i].held == 0))
  }

  lemma SlotIs<T>(q: Queue<T>, n: nat)
    requires q.bits < 32
    ensures q.Slot(n % WORD) == n % q.Capacity() < q.Capacity()
    ensures q.Capacity() < WORD
  {
    MaskIsRemainder(n % WORD, q.bits);
    WrapKeepsSlot(n, q.bits);
    var m := PowersDivide(q.bits + 1, 32);
    WordIsPower();
    Scale(Pow2(q.bits + 1), 1, m);
  }

  lemma StoreKeepsInv<T>(q: Queue<T>)
    requires Inv(q) && q.producer.HasTail?
    ensures Inv(Next(q, Produce))
    ensures Next(q, Produce).producer.Stored? <==> q.producer.seen < q.Capacity()
  {
    var p, c, seen := |q.pushed|, q.Capacity(), q.producer.seen;
    SlotIs(q, p);
    WrappedDifference(p, seen);
    if seen < c {
      forall i | |q.popped| <= i < p ensures i % c != p % c {
        SlotsDiffer(i, p, c);
      }
    }
  }

  /** The oldest item is in the slot the tail points at. */
  lemma OldestInSlot<T>(q: Queue<T>)
    requires Inv(q) && q.Held() > 0
    ensures q.slots[q.Slot(q.tail)] == q.pushed[|q.popped|]
  {
    var d := |q.popped|;
    SlotIs(q, d);
    assert q.slots[d % q.Capacity()] == q.pushed[d];
  }

  lemma SeenWhenEqual(d: nat, seen: nat)
    requires seen < WORD
    ensures d % WORD == (d + seen) % WORD <==> seen == 0
  {
    WrappedDifference(d + seen, seen);
  }

  lemma TakeReads<T>(q: Queue<T>)
    requires Inv(q) && q.consumer.KnowsHead?
    ensures q.consumer.t == q.consumer.h <==> q.consumer.seen == 0
    ensures q.consumer.t != q.consumer.h ==> q.slots[q.Slot(q.consumer.t)] == q.pushed[|q.popped|]
  {
    var seen := q.consumer.seen;
    SlotIs(q, 0);
    SeenWhenEqual(|q.popped|, seen);
    if q.Held() > 0 { OldestInSlot(q); }
  }

  lemma TakeKeepsInv<T>(q: Queue<T>)
    requires Inv(q) && q.consumer.KnowsHead?
    ensures Inv(Next(q, Consume))
  {
    TakeReads(q);
    var r := Next(q, Consume);
    assert ConsumerOk(r) && ProducerOk(r);
  }

  lemma HeadMeetsTail<T>(q: Queue<T>)
    requires Inv(q)
    ensures q.tail == q.head <==> q.Held() == 0
  {
    SlotIs(q, 0);
    SeenWhenEqual(|q.popped|, q.Held());
  }

  lemma ProduceKeepsInv<T>(q: Queue<T>)
    requires Inv(q)
    ensures Inv(Next(q, Produce))
  {
    match q.producer
    case HasTail(_, _, _, _) => StoreKeepsInv(q);
    case Stored(_, _) => WrappedSuccessor(|q.pushed|);
    case _ =>
  }

  lemma CheckKeepsInv<T>(q: Queue<T>)
    requires Inv(q) && (q.consumer.CheckTail? || q.consumer.CheckHead?)
    ensures Inv(Next(q, Consume))
  {
    if q.consumer.CheckTail? {
      HeadMeetsTail(q);
    } else {
      SlotIs(q, 0);
      SeenWhenEqual(|q.popped|, q.consumer.seen);
    }
    var r := Next(q, Consume);
    assert ConsumerOk(r) && ProducerOk(r);
  }

  lemma ConsumeKeepsInv<T>(q: Queue<T>)
    requires Inv(q)
    ensures Inv(Next(q, Consume))
  {
    match q.consumer
    case KnowsHead(_, _, _) => TakeKeepsInv(q);
    case Took(_, _) => WrappedSuccessor(|q.popped|);
    case CheckTail(_) => CheckKeepsInv(q);
    case CheckHead(_, _) => CheckKeepsInv(q);
    case _ =>
  }

  /** Every atomic step of either side keeps the invariant, whatever the other side is doing. */
  lemma StepKeepsInv<T>(q: Queue<T>, a: Act<T>)
    requires Inv(q)
    ensures Inv(Next(q, a))
  {
    match a
    case StartPush(_) =>
    case StartPop =>
    case StartEmpty(_) =>
    case Produce => ProduceKeepsInv(q);
    case Consume => ConsumeKeepsInv(q);
  }

  // ----- every interleaving -----

  ghost function Interleave<T>(q: Queue<T>, acts: seq<Act<T>>): (r: Queue<T>)
    requires Inv(q)
    ensures Inv(r)
    decreases |acts|
  {
    if acts == [] then q
    else
      StepKeepsInv(q, acts[0]);
      Interleave(Next(q, acts[0]), acts[1..])
  }

  function Fresh<T>(bits: nat, slots: seq<T>): Queue<T> {
    Queue(bits, 0, 0, slots, Ready, Waiting, [], [], [], [], [])
  }

  /** First in, first out, under every interleaving of the two sides and across counter wrap-around. */
  lemma PoppedIsPrefixOfPushed<T>(bits: nat, slots: seq<T>, acts: seq<Act<T>>)
    requires bits < 32 && |slots| == Pow2(bits)
    ensures Inv(Fresh(bits, slots))
    ensures var q := Interleave(Fresh(bits, slots), acts);
      && |q.popped| <= |q.pushed| <= |q.popped| + Pow2(bits) && q.bits == bits
      && q.popped == q.pushed[..|q.popped|]
  {
    var q := Interleave(Fresh(bits, slots), acts);
    InterleaveKeepsBits(Fresh(bits, slots), acts);
  }

  lemma {:induction false} InterleaveKeepsBits<T>(q: Queue<T>, acts: seq<Act<T>>)
    requires Inv(q)
    ensures Interleave(q, acts).bits == q.bits
    decreases |acts|
  {
    if acts != [] {
      StepKeepsInv(q, acts[0]);
      InterleaveKeepsBits(Next(q, acts[0]), acts[1..]);
    }
  }

  /** A push is refused only if the queue was full, and a pop misses only if it was empty, when it looked. */
  lemma RefusalsAreJustified<T>(bits: nat, slots: seq<T>, acts: seq<Act<T>>)
    requires bits < 32 && |slots| == Pow2(bits)
    ensures Inv(Fresh(bits, slots))
    ensures var q := Interleave(Fresh(bits, slots), acts);
      && (forall i :: 0 <= i < |q.refused| ==> q.refused[i] == Pow2(bits))
      && (forall i :: 0 <= i < |q.missed| ==> q.missed[i] == 0)
  {
    InterleaveKeepsBits(Fresh(bits, slots), acts);
  }

  /**
   Under every interleaving, `empty()` asked by the consumer says yes exactly if the queue was empty when the head
   was loaded.
   */
  lemma EmptyAnswersAreRight<T>(bits: nat, slots: seq<T>, acts: seq<Act<T>>)
    requires bits < 32 && |slots| == Pow2(bits)
    ensures Inv(Fresh(bits, slots))
    ensures var q := Interleave(Fresh(bits, slots), acts);
      forall i :: 0 <= i < |q.checks| ==> (q.checks[i].answer <==> q.checks[i].held == 0)
  {
    var q := Interleave(Fresh(bits, slots), acts);
    assert Inv(q);
  }

  /** No step changes the slot of an item that is in the queue, including one being read. */
  lemma LiveSlotsAreSpared<T>(q: Queue<T>, a: Act<T>, i: nat)
    requires Inv(q) && |q.popped| <= i < |q.pushed|
    ensures Next(q, a).slots[i % q.Capacity()] == q.slots[i % q.Capacity()]
  {
    if q.producer.HasTail? {
      SlotIs(q, |q.pushed|);
      WrappedDifference(|q.pushed|, q.producer.seen);
      if q.producer.seen < q.Capacity() { SlotsDiffer(i, |q.pushed|, q.Capacity()); }
    }
  }

  // ----- the methods -----

  /** The atomic steps of one push, of one pop and of one question, run without interruption. */
  function PushSteps<T>(item: T): seq<Act<T>> {
    [StartPush(item), Produce, Produce, Produce]
  }

  function PopSteps<T>(): seq<Act<T>> {
    [StartPop, Consume, Consume, Consume]
  }

  function EmptySteps<T>(): seq<Act<T>> {
    [StartEmpty(false), Consume]
  }

  lemma OneStep<T>(q: Queue<T>, a: Act<T>, rest: seq<Act<T>>)
    requires Inv(q)
    ensures Inv(Next(q, a)) && Interleave(q, [a] + rest) == Interleave(Next(q, a), rest)
  {
    StepKeepsInv(q, a);
    assert ([a] + rest)[1..] == rest;
  }

  lemma FourActs<T>(a: Act<T>, b: Act<T>, c: Act<T>, d: Act<T>)
    ensures [a, b, c, d] == [a] + [b, c, d] && [b, c, d] == [b] + [c, d] && [c, d] == [c] + [d] && [d] == [d] + []
  {
  }

  lemma FourSteps<T>(q: Queue<T>, a: Act<T>, b: Act<T>, c: Act<T>, d: Act<T>)
    requires Inv(q)
    ensures Sized(Next(q, a)) && Sized(Next(Next(q, a), b)) && Sized(Next(Next(Next(q, a), b), c))
    ensures Interleave(q, [a, b, c, d]) == Next(Next(Next(Next(q, a), b), c), d)
  {
    FourActs(a, b, c, d);
    OneStep(q, a, [b, c, d]);
    OneStep(Next(q, a), b, [c, d]);
    OneStep(Next(Next(q, a), b), c, [d]);
    OneStep(Next(Next(Next(q, a), b), c), d, []);
  }

  /** The two loads of a push. */
  lemma PushLoads<T>(q: Queue<T>, item: T)
    requires Sized(q) && q.producer.Ready?
    ensures Sized(Next(q, StartPush(item)))
    ensures Next(Next(q, StartPush(item)), Produce) == q.(producer := HasTail(item, q.head, q.tail, q.Held()))
  {
  }

  /** The rest of it, when nothing came between. */
  lemma PushStores<T>(q: Queue<T>, item: T)
    requires Sized(q) && q.producer.Ready?
    ensures var q2 := q.(producer := HasTail(item, q.head, q.tail, q.Held()));
      && Sized(q2) && Sized(Next(q2, Produce))
      && Next(Next(q2, Produce), Produce)
         == if Minus(q.head, q.tail) >= q.Capacity() then q.(refused := q.refused + [q.Held()])
            else q.(slots := q.slots[q.Slot(q.head) := item], head := (q.head + 1) % WORD, pushed := q.pushed + [item])
  {
  }

  /** An uninterrupted push: one item in, or one refusal. */
  lemma SoloPush<T>(q: Queue<T>, item: T)
    requires Inv(q) && q.producer.Ready?
    ensures var r := Interleave(q, PushSteps(item));
      r == if Minus(q.head, q.tail) >= q.Capacity() then q.(refused := q.refused + [q.Held()])
           else q.(slots := q.slots[q.Slot(q.head) := item], head := (q.head + 1) % WORD, pushed := q.pushed + [item])
    ensures Minus(q.head, q.tail) == q.Held()
  {
    FourSteps(q, StartPush(item), Produce, Produce, Produce);
    PushLoads(q, item);
    PushStores(q, item);
    HeldIsDifference(q);
  }

  lemma HeldIsDifference<T>(q: Queue<T>)
    requires Inv(q)
    ensures Minus(q.head, q.tail) == q.Held()
  {
    SlotIs(q, 0);
    WrappedDifference(|q.pushed|, q.Held());
  }

  lemma PopLoads<T>(q: Queue<T>)
    requires Sized(q) && q.consumer.Waiting?
    ensures Sized(Next(q, StartPop))
    ensures Next(Next(q, StartPop), Consume) == q.(consumer := KnowsHead(q.tail, q.head, q.Held()))
  {
  }

  lemma PopTakes<T>(q: Queue<T>)
    requires Sized(q) && q.consumer.Waiting? && (q.tail != q.head ==> q.Held() > 0)
    ensures var q2 := q.(consumer := KnowsHead(q.tail, q.head, q.Held()));
      && Sized(q2) && Sized(Next(q2, Consume))
      && Next(Next(q2, Consume), Consume)
         == if q.tail == q.head then q.(missed := q.missed + [q.Held()])
            else q.(tail := (q.tail + 1) % WORD, popped := q.popped + [q.slots[q.Slot(q.tail)]])
  {
  }

  /** An uninterrupted pop: the oldest item out, or one miss. */
  lemma SoloPop<T>(q: Queue<T>)
    requires Inv(q) && q.consumer.Waiting?
    ensures Interleave(q, PopSteps())
         == if q.tail == q.head then q.(missed := q.missed + [q.Held()])
            else q.(tail := (q.tail + 1) % WORD, popped := q.popped + [q.slots[q.Slot(q.tail)]])
  {
    HeadMeetsTail(q);
    FourSteps(q, StartPop, Consume, Consume, Consume);
    PopLoads(q);
    PopTakes(q);
  }

  lemma EmptyLoads<T>(q: Queue<T>)
    requires Sized(q) && q.consumer.Waiting?
    ensures Sized(Next(q, StartEmpty(false)))
    ensures Next(Next(q, StartEmpty(false)), Consume) == q.(checks := q.checks + [Check(q.head == q.tail, q.Held())])
  {
  }

  /** An uninterrupted question: the answer is right. */
  lemma SoloEmpty<T>(q: Queue<T>)
    requires Inv(q) && q.consumer.Waiting?
    ensures Interleave(q, EmptySteps())
         == q.(checks := q.checks + [Check(q.head == q.tail, q.Held())])
    ensures q.head == q.tail <==> q.pushed == q.popped
  {
    TwoSteps(q, StartEmpty(false), Consume);
    EmptyLoads(q);
    HeadMeetsTail(q);
    SameWhenNoneHeld(q);
  }

  lemma TwoSteps<T>(q: Queue<T>, a: Act<T>, b: Act<T>)
    requires Inv(q)
    ensures Sized(Next(q, a)) && Interleave(q, [a, b]) == Next(Next(q, a), b)
  {
    assert [a, b] == [a] + [b] && [b] == [b] + [];
    OneStep(q, a, [b]);
    OneStep(Next(q, a), b, []);
  }

  lemma SameWhenNoneHeld<T>(q: Queue<T>)
    requires Inv(q)
    ensures q.Held() == 0 <==> q.pushed == q.popped
  {
  }

  class EventQueue<T(0)> {
    const bits: nat
    var head: nat
    var tail: nat
    const slots: array<T>
    ghost var pushed: seq<T>
    ghost var popped: seq<T>
    ghost var refused: seq<nat>
    ghost var missed: seq<nat>
    ghost var checks: seq<Check>

    /** The machine this queue is, with both sides at rest. */
    ghost function Machine(): Queue<T>
      reads this, slots
    {
      Queue(bits, head, tail, slots[..], Ready, Waiting, pushed, popped, refused, missed, checks)
    }

    ghost predicate Valid()
      reads this, slots
    {
      Inv(Machine())
    }

    constructor (bits: nat)
      requires bits < 32
      ensures Valid() && fresh(slots) && this.bits == bits && pushed == [] && popped == []
    {
      this.bits := bits;
      head, tail := 0, 0;
      slots := new T[Pow2(bits)];
      pushed, popped, refused, missed, checks := [], [], [], [], [];
    }

    /** Full queues drop the event. */
    method Push(item: T) returns (ok: bool)
      requires Valid()
      modifies this, slots
      ensures Valid() && Machine() == Interleave(old(Machine()), PushSteps(item))
      ensures ok <==> old(|pushed| - |popped|) < Pow2(bits)
      ensures popped == old(popped) && pushed == old(pushed) + if ok then [item] else []
    {
      SoloPush(Machine(), item);
      var h := head;
      var t := tail;
      if Minus(h, t) >= Pow2(bits) {
        refused := refused + [|pushed| - |popped|];
        return false;
      }
      slots[BitAnd(h, Pow2(bits) - 1)] := item;
      head := (h + 1) % WORD;
      pushed := pushed + [item];
      return true;
    }

    method TryPop() returns (r: Option<T>)
      requires Valid()
      modifies this
      ensures Valid() && Machine() == Interleave(old(Machine()), PopSteps())
      ensures pushed == old(pushed)
      ensures if old(|pushed| > |popped|) then r == Some(old(pushed[|popped|])) && popped == old(popped) + [r.value]
              else r == None && popped == old(popped)
    {
      SoloPop(Machine());
      HeadMeetsTail(Machine());
      var t := tail;
      var h := head;
      if t == h {
        missed := missed + [|pushed| - |popped|];
        return None;
      }
      OldestInSlot(Machine());
      var item := slots[BitAnd(t, Pow2(bits) - 1)];
      tail := (t + 1) % WORD;
      popped := popped + [item];
      return Some(item);
    }

    /** Asked by the consumer. */
    method Empty() returns (empty: bool)
      requires Valid()
      modifies `checks
      ensures Valid() && (empty <==> pushed == popped)
      ensures Machine() == Interleave(old(Machine()), EmptySteps())
    {
      SoloEmpty(Machine());
      var h := head;
      var t := tail;
      checks := checks + [Check(h == t, |pushed| - |popped|)];
      return h == t;
    }
  }
}
