/** The circular history buffer against the list it stands for. */
module RingBuffers {
  import opened Arithmetic
  import opened Collections

  /** A list of at most `capacity` items; the oldest comes first. */
  datatype History<T> = History(capacity: nat, items: seq<T>) {
    predicate Valid() {
      |items| <= capacity
    }
  }

  datatype Op<T> = Push(value: T) | Pop | Clear | Resize(capacity: nat)

  /** The last `n` items, or all there are. */
  function Newest<T>(s: seq<T>, n: nat): (r: seq<T>)
    ensures |r| == if |s| <= n then |s| else n
  {
    if |s| <= n then s else s[|s| - n..]
  }

  function Next<T>(h: History<T>, op: Op<T>): (r: History<T>)
    requires h.Valid()
    ensures r.Valid()
  {
    match op
    case Push(x) => h.(items := Newest(h.items + [x], h.capacity))
    case Pop => if h.items == [] then h else h.(items := h.items[1..])
    case Clear => h.(items := [])
    case Resize(n) => History(n, Newest(h.items, n))
  }

  /** Where the `i`-th item lies when the oldest is at `head`. */
  function Slot(head: nat, i: nat, capacity: nat): (r: nat)
    requires head < capacity && i <= capacity
    ensures r < capacity
  {
    if head + i < capacity then head + i else head + i - capacity
  }

  lemma SlotIs(head: nat, i: nat, capacity: nat)
    requires head < capacity && i <= capacity
    ensures (head + i) % capacity == Slot(head, i, capacity)
  {
    RemainderIs(head + i, capacity, if head + i < capacity then 0 else 1, Slot(head, i, capacity));
  }

  lemma TurnAgain(capacity: nat, q: int)
    ensures capacity * (q + 1) == capacity * q + capacity
  {
  }

  lemma SlotWraps(head: nat, i: nat, capacity: nat)
    requires head < capacity
    ensures (head + i) % capacity == Slot(head, i % capacity, capacity)
    ensures i < capacity ==> i % capacity == i
  {
    if i < capacity { RemainderIs(i, capacity, 0, i); }
    var q, r := i / capacity, i % capacity;
    assert i == capacity * q + r;
    TurnAgain(capacity, q);
    RemainderIs(head + i, capacity, if head + r < capacity then q else q + 1, Slot(head, r, capacity));
  }

  class RingBuffer<T(0)> {
    var data: array<T>
    var capacity: nat
    var head: nat
    var size: nat

    ghost predicate Valid()
      reads this
    {
      && data.Length == capacity && size <= capacity
      && (if capacity == 0 then head == 0 else head < capacity)
    }

    ghost function Items(): (s: seq<T>)
      requires Valid()
      reads this, data
      ensures |s| == size
    {
      seq(size, (i: nat) requires i < size && Valid() reads this, data => data[Slot(head, i, capacity)])
    }

    ghost function View(): (h: History<T>)
      requires Valid()
      reads this, data
    {
      History(capacity, Items())
    }

    constructor (capacity: nat)
      ensures Valid() && fresh(data) && View() == History(capacity, [])
    {
      data := new T[capacity];
      this.capacity := capacity;
      head, size := 0, 0;
    }

    constructor Copy(other: RingBuffer<T>)
      requires other.Valid()
      ensures Valid() && fresh(data) && View() == other.View()
    {
      data := new T[other.capacity](i requires 0 <= i < other.capacity && other.Valid() reads other, other.data =>
        other.data[i]);
      capacity, head, size := other.capacity, other.head, other.size;
      new;
      assert Items() == other.Items();
    }

    /**
     The `i`-th item; when there is none at all, a default. Positions from the size on reach slots that hold no
     item, and come round to the items again after a whole turn.
     */
    method Get(i: nat) returns (x: Option<T>)
      requires Valid()
      ensures size == 0 <==> x == None
      ensures i < size ==> x == Some(Items()[i])
      ensures 0 < size && i % capacity < size ==> x == Some(Items()[i % capacity])
      ensures 0 < size ==> x == Some(data[Slot(head, i % capacity, capacity)])
    {
      if capacity == 0 || size == 0 {
        return None;
      }
      SlotWraps(head, i, capacity);
      x := Some(data[(head + i) % capacity]);
    }

    method Front() returns (x: Option<T>)
      requires Valid()
      ensures x == if size == 0 then None else Some(Items()[0])
    {
      if capacity == 0 || size == 0 {
        return None;
      }
      x := Some(data[head]);
    }

    method Back() returns (x: Option<T>)
      requires Valid()
      ensures x == if size == 0 then None else Some(Items()[size - 1])
    {
      if capacity == 0 || size == 0 {
        return None;
      }
      SlotIs(head, size - 1, capacity);
      x := Some(data[(head + size - 1) % capacity]);
    }

    method PushBack(value: T)
      requires Valid()
      modifies this, data
      ensures Valid() && data == old(data) && View() == Next(old(View()), Push(value))
    {
      if capacity == 0 {
        return;
      }
      ghost var before := Items();
      if size < capacity {
        SlotIs(head, size, capacity);
        data[(head + size) % capacity] := value;
        size := size + 1;
        assert Items() == before + [value];
      } else {
        SlotIs(head, 1, capacity);
        data[head] := value;
        head := (head + 1) % capacity;
        assert Items() == (before + [value])[1..];
      }
    }

    method PopFront()
      requires Valid()
      modifies this
      ensures Valid() && data == old(data) && View() == Next(old(View()), Pop)
    {
      if size == 0 {
        return;
      }
      SlotIs(head, 1, capacity);
      head := (head + 1) % capacity;
      size := size - 1;
      assert Items() == old(Items())[1..];
    }

    method ClearAll()
      requires Valid()
      modifies this
      ensures Valid() && data == old(data) && View() == Next(old(View()), Clear)
    {
      head := 0;
      size := 0;
    }

    method SetCapacity(newCapacity: nat)
      requires Valid()
      modifies this
      ensures Valid() && (data == old(data) || fresh(data)) && View() == Next(old(View()), Resize(newCapacity))
    {
      if newCapacity == capacity {
        return;
      }
      if newCapacity == 0 {
        data := new T[0];
        capacity, head, size := 0, 0, 0;
        return;
      }
      ghost var before := Items();
      var newData := CopyNewest(newCapacity);
      size := if size < newCapacity then size else newCapacity;
      data, capacity, head := newData, newCapacity, 0;
      assert Items() == Newest(before, newCapacity);
    }

    /** Copies the newest items to the start of a new array. */
    method CopyNewest(newCapacity: nat) returns (newData: array<T>)
      requires Valid()
      ensures fresh(newData) && newData.Length == newCapacity
      ensures newData[..|Newest(Items(), newCapacity)|] == Newest(Items(), newCapacity)
    {
      newData := new T[newCapacity];
      var keep := if size < newCapacity then size else newCapacity;
      var skip := size - keep;
      ghost var items := Items();
      for i := 0 to keep
        invariant newData[..i] == items[skip..skip + i]
      {
        SlotIs(head, skip + i, capacity);
        newData[i] := data[(head + skip + i) % capacity];
        assert newData[..i + 1] == newData[..i] + [items[skip + i]];
      }
      assert items[skip..skip + keep] == items[skip..];
    }
  }

  // ----- every run -----

  function RunOps<T>(h: History<T>, ops: seq<Op<T>>): (r: History<T>)
    requires h.Valid()
    ensures r.Valid()
    decreases |ops|
  {
    if ops == [] then h else RunOps(Next(h, ops[0]), ops[1..])
  }

  function Pushed<T>(ops: seq<Op<T>>): seq<T> {
    if ops == [] then [] else (if ops[0].Push? then [ops[0].value] else []) + Pushed(ops[1..])
  }

  predicate IsSuffix<T(==)>(s: seq<T>, of: seq<T>) {
    |s| <= |of| && of[|of| - |s|..] == s
  }

  lemma SuffixAppend<T>(s: seq<T>, of: seq<T>, x: T)
    requires IsSuffix(s, of)
    ensures IsSuffix(s + [x], of + [x])
  {
    var k := |of| - |s|;
    assert (of + [x])[k..] == of[k..] + [x];
  }

  lemma SuffixDrop<T>(s: seq<T>, of: seq<T>, k: nat)
    requires IsSuffix(s, of) && k <= |s|
    ensures IsSuffix(s[k..], of)
  {
    var m := |of| - |s|;
    assert of[m..][k..] == of[m + k..];
  }

  lemma SuffixNewest<T>(s: seq<T>, of: seq<T>, n: nat)
    requires IsSuffix(s, of)
    ensures IsSuffix(Newest(s, n), of)
  {
    if |s| > n { SuffixDrop(s, of, |s| - n); }
  }

  lemma SuffixStep<T>(h: History<T>, op: Op<T>, past: seq<T>)
    requires h.Valid() && IsSuffix(h.items, past)
    ensures IsSuffix(Next(h, op).items, if op.Push? then past + [op.value] else past)
  {
    match op
    case Push(x) =>
      SuffixAppend(h.items, past, x);
      SuffixNewest(h.items + [x], past + [x], h.capacity);
    case Pop => if h.items != [] { SuffixDrop(h.items, past, 1); }
    case Clear =>
    case Resize(n) => SuffixNewest(h.items, past, n);
  }

  lemma PushedStep<T>(past: seq<T>, ops: seq<Op<T>>)
    requires ops != []
    ensures past + Pushed(ops) == (if ops[0].Push? then past + [ops[0].value] else past) + Pushed(ops[1..])
  {
    if ops[0].Push? {
      assert past + ([ops[0].value] + Pushed(ops[1..])) == past + [ops[0].value] + Pushed(ops[1..]);
    } else {
      assert [] + Pushed(ops[1..]) == Pushed(ops[1..]);
    }
  }

  /** After any run the buffer holds the newest of all items ever pushed, oldest first. */
  lemma {:induction false} HoldsNewest<T>(h: History<T>, ops: seq<Op<T>>, past: seq<T>)
    requires h.Valid() && IsSuffix(h.items, past)
    ensures IsSuffix(RunOps(h, ops).items, past + Pushed(ops))
    decreases |ops|
  {
    if ops == [] {
      assert past + [] == past;
    } else {
      var now := if ops[0].Push? then past + [ops[0].value] else past;
      SuffixStep(h, ops[0], past);
      HoldsNewest(Next(h, ops[0]), ops[1..], now);
      PushedStep(past, ops);
    }
  }

  /** Pushes alone keep as many of the newest items as fit. */
  lemma {:induction false} PushesFill<T>(h: History<T>, ops: seq<Op<T>>)
    requires h.Valid() && forall i :: 0 <= i < |ops| ==> ops[i].Push?
    ensures RunOps(h, ops) == h.(items := Newest(h.items + Pushed(ops), h.capacity))
    decreases |ops|
  {
    if ops == [] {
      assert h.items + [] == h.items;
    } else {
      PushesFill(Next(h, ops[0]), ops[1..]);
      PushedStep(h.items, ops);
      NewestTwice(h.items + [ops[0].value], Pushed(ops[1..]), h.capacity);
    }
  }

  lemma NewestTwice<T>(a: seq<T>, b: seq<T>, n: nat)
    ensures Newest(Newest(a, n) + b, n) == Newest(a + b, n)
  {
  }

  // ----- single steps and queues -----

  /** One step in terms of the list: what comes in at the back, what goes at the front, and what is too much. */
  lemma StepMeaning<T>(h: History<T>, x: T, n: nat)
    requires h.Valid()
    ensures |h.items| < h.capacity ==> Next(h, Push(x)) == History(h.capacity, h.items + [x])
    ensures 0 < |h.items| == h.capacity ==> Next(h, Push(x)) == History(h.capacity, h.items[1..] + [x])
    ensures h.capacity == 0 ==> Next(h, Push(x)) == h
    ensures h.items != [] ==> Next(h, Pop) == History(h.capacity, h.items[1..])
    ensures h.items == [] ==> Next(h, Pop) == h
    ensures Next(h, Clear) == History(h.capacity, [])
    ensures |h.items| <= n ==> Next(h, Resize(n)) == History(n, h.items)
    ensures |h.items| > n ==> Next(h, Resize(n)) == History(n, h.items[|h.items| - n..])
  {
    if 0 < |h.items| == h.capacity { assert (h.items + [x])[1..] == h.items[1..] + [x]; }
    if h.capacity == 0 { assert (h.items + [x])[1..] == h.items; }
  }

  /** Items that fit come out in the order they went in. */
  lemma {:induction false} FirstInFirstOut<T>(h: History<T>, ops: seq<Op<T>>)
    requires h.Valid() && |ops| <= |h.items| && forall i :: 0 <= i < |ops| ==> ops[i] == Pop
    ensures RunOps(h, ops) == History(h.capacity, h.items[|ops|..])
    decreases |ops|
  {
    if ops == [] {
      assert h.items[0..] == h.items;
    } else {
      StepMeaning(h, h.items[0], 0);
      FirstInFirstOut(Next(h, ops[0]), ops[1..]);
    }
  }
}
