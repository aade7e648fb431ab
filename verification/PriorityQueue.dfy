/** The server's array binary heap (slots 1..nAlloc) with doubling and halving. */
module PriorityQueue {
  import opened Shared

  const PQ_DEFAULT_SIZE := 10
  const ST_OK := 0

  /** What a comparison function must be for the heap to work. */
  ghost predicate StrictWeakOrder<T(!new)>(less: (T, T) -> bool) {
    && (forall x, y :: less(x, y) ==> !less(y, x))
    && (forall x, y, z :: less(x, z) ==> less(x, y) || less(y, z))
  }

  // ---------- heap order on sequences; slot 0 is unused ----------

  /** Item j does not come before its parent. */
  ghost predicate AfterParent<T>(q: seq<T>, j: nat, less: (T, T) -> bool)
    requires 2 <= j < |q|
  {
    !less(q[j], q[j / 2])
  }

  ghost predicate HeapOrdered<T>(q: seq<T>, n: nat, less: (T, T) -> bool) {
    n < |q| && forall j :: 2 <= j <= n ==> AfterParent(q, j, less)
  }

  ghost function Elements<T>(q: seq<T>, n: nat): multiset<T>
    requires n < |q|
  {
    multiset(q[1..n + 1])
  }

  function Swapped<T>(q: seq<T>, i: nat, j: nat): seq<T>
    requires i < |q| && j < |q|
  {
    q[i := q[j]][j := q[i]]
  }

  lemma SwappedElements<T>(q: seq<T>, n: nat, i: nat, j: nat)
    requires n < |q| && 1 <= i <= n && 1 <= j <= n
    ensures Elements(Swapped(q, i, j), n) == Elements(q, n)
  {
    var s := q[1..n + 1];
    assert Swapped(q, i, j)[1..n + 1] == s[i - 1 := s[j - 1]][j - 1 := s[i - 1]];
  }

  /** Item j does not come before item g. */
  ghost predicate AfterItem<T>(q: seq<T>, j: nat, g: nat, less: (T, T) -> bool)
    requires j < |q| && g < |q|
  {
    !less(q[j], q[g])
  }

  /** Heap ordered but for slot i, which may be less than its parent. */
  ghost predicate SwimmingAt<T>(q: seq<T>, n: nat, i: nat, less: (T, T) -> bool) {
    && 1 <= i <= n < |q|
    && (forall j :: 2 <= j <= n && j != i ==> AfterParent(q, j, less))
    && (forall j :: 2 <= j <= n && j / 2 == i && i >= 2 ==> AfterItem(q, j, i / 2, less))
  }

  lemma SwimStep<T(!new)>(q: seq<T>, n: nat, i: nat, less: (T, T) -> bool)
    requires StrictWeakOrder(less) && SwimmingAt(q, n, i, less)
    requires i > 1 && less(q[i], q[i / 2])
    ensures SwimmingAt(Swapped(q, i, i / 2), n, i / 2, less)
    ensures Elements(Swapped(q, i, i / 2), n) == Elements(q, n)
  {
    var p, r := i / 2, Swapped(q, i, i / 2);
    SwappedElements(q, n, i, p);
    forall j | 2 <= j <= n && j != p ensures AfterParent(r, j, less) {
      if j != i { assert AfterParent(q, j, less); }
      if j / 2 == i { assert AfterItem(q, j, p, less); }
    }
    forall j | 2 <= j <= n && j / 2 == p && p >= 2 ensures AfterItem(r, j, p / 2, less) {
      assert AfterParent(q, p, less);
      if j != i { assert AfterParent(q, j, less); }
    }
  }

  /** Heap ordered but for slot i, whose children may be less than it. */
  ghost predicate SinkingAt<T>(q: seq<T>, n: nat, i: nat, less: (T, T) -> bool) {
    && 1 <= i && n < |q|
    && (forall j :: 2 <= j <= n && j / 2 != i ==> AfterParent(q, j, less))
    && (forall j :: 2 <= j <= n && j / 2 == i && i >= 2 ==> AfterItem(q, j, i / 2, less))
  }

  /** c is a child of i that no child of i comes before. */
  ghost predicate LeastChild<T>(q: seq<T>, n: nat, i: nat, c: nat, less: (T, T) -> bool) {
    && 1 <= i && 2 * i <= c <= n < |q| && c / 2 == i
    && forall j :: 2 <= j <= n && j / 2 == i ==> AfterItem(q, j, c, less)
  }

  lemma SinkStep<T(!new)>(q: seq<T>, n: nat, i: nat, c: nat, less: (T, T) -> bool)
    requires StrictWeakOrder(less) && SinkingAt(q, n, i, less)
    requires LeastChild(q, n, i, c, less) && less(q[c], q[i])
    ensures SinkingAt(Swapped(q, c, i), n, c, less)
    ensures Elements(Swapped(q, c, i), n) == Elements(q, n)
  {
    SwappedElements(q, n, c, i);
    var r := Swapped(q, c, i);
    forall j | 2 <= j <= n && j / 2 != c ensures AfterParent(r, j, less) {
      if j == i { assert AfterItem(q, c, i / 2, less); }
      else if j / 2 == i { assert AfterItem(q, j, c, less); }
      else { assert AfterParent(q, j, less); }
    }
    forall j | 2 <= j <= n && j / 2 == c ensures AfterItem(r, j, c / 2, less) {
      assert AfterParent(q, j, less);
    }
  }

  /** Nothing below slot i is less: sinking may stop. */
  lemma SinkStops<T(!new)>(q: seq<T>, n: nat, i: nat, c: nat, less: (T, T) -> bool)
    requires StrictWeakOrder(less) && SinkingAt(q, n, i, less)
    requires 2 * i <= n ==> LeastChild(q, n, i, c, less) && !less(q[c], q[i])
    ensures HeapOrdered(q, n, less)
  {
    forall j | 2 <= j <= n ensures AfterParent(q, j, less) {
      if j / 2 == i { assert AfterItem(q, j, c, less); }
    }
  }

  /** The root of a heap is a least element. */
  lemma {:induction false} RootIsLeast<T(!new)>(q: seq<T>, n: nat, less: (T, T) -> bool, j: nat)
    requires StrictWeakOrder(less) && HeapOrdered(q, n, less) && 1 <= j <= n
    ensures !less(q[j], q[1])
    decreases j
  {
    if j >= 2 {
      RootIsLeast(q, n, less, j / 2);
      assert AfterParent(q, j, less);
    }
  }

  /** No stored item is less than the root. */
  lemma RootIsLeastElement<T(!new)>(q: seq<T>, n: nat, less: (T, T) -> bool, x: T)
    requires StrictWeakOrder(less) && HeapOrdered(q, n, less) && x in Elements(q, n)
    ensures n >= 1 && !less(x, q[1])
  {
    assert x in q[1..n + 1];
    var k :| 0 <= k < n && q[1..n + 1][k] == x;
    RootIsLeast(q, n, less, k + 1);
  }

  // ---------- the counters: how full, how large, how many slots copied ----------

  datatype Counters = Counters(nAlloc: nat, size: nat, copied: nat)
  datatype Op = Insert | DelMin

  function Resized(c: Counters, newSize: nat): Counters {
    c.(size := newSize, copied := c.copied + c.nAlloc + 1)
  }

  function InsertCount(c: Counters): Counters {
    var d := if c.nAlloc + 1 == c.size then Resized(c, c.size * 2) else c;
    d.(nAlloc := d.nAlloc + 1)
  }

  function DelMinCount(c: Counters): Counters {
    if c.nAlloc == 0 then c else
      var d := c.(nAlloc := c.nAlloc - 1);
      if d.nAlloc > 0 && d.nAlloc <= (d.size - 1) / 4 then Resized(d, d.size / 2) else d
  }

  function RunCount(c: Counters, ops: seq<Op>): Counters
    decreases |ops|
  {
    if ops == [] then c
    else RunCount(if ops[0] == Insert then InsertCount(c) else DelMinCount(c), ops[1..])
  }

  /** The array has room for the unused slot and every item. */
  predicate Roomy(c: Counters) {
    c.nAlloc + 1 <= c.size
  }

  /** Slots saved up for the next resize: the distance from half full. */
  function Potential(c: Counters): nat {
    var d := c.size - 2 * (c.nAlloc + 1);
    if d < 0 then -d else d
  }

  lemma OneOperationIsCheap(c: Counters, op: Op)
    requires Roomy(c)
    ensures var d := if op == Insert then InsertCount(c) else DelMinCount(c);
      Roomy(d) && d.copied + Potential(d) <= c.copied + Potential(c) + 8
  {
  }

  /** Resizing is amortised constant: at most eight slots are copied per operation, plus the initial
      capacity, over any run, and there is always room. */
  lemma {:induction false} ResizingIsAmortised(c: Counters, ops: seq<Op>)
    requires Roomy(c)
    ensures Roomy(RunCount(c, ops))
    ensures RunCount(c, ops).copied <= c.copied + 8 * |ops| + Potential(c)
    decreases |ops|
  {
    if ops != [] {
      OneOperationIsCheap(c, ops[0]);
      ResizingIsAmortised(if ops[0] == Insert then InsertCount(c) else DelMinCount(c), ops[1..]);
    }
  }

  lemma CopiesFromEmpty(capacity: nat, ops: seq<Op>)
    ensures RunCount(Counters(0, capacity + 1, 0), ops).copied <= 8 * |ops| + capacity + 1
  {
    ResizingIsAmortised(Counters(0, capacity + 1, 0), ops);
  }

  // ---------- the queue ----------

  class Queue<T(0, !new)> {
    var queue: array<T>
    var nAlloc: nat
    var size: nat
    const comp: (T, T) -> bool
    ghost var copied: nat  // slots copied by resize so far

    ghost predicate Shaped()
      reads this
    {
      queue.Length == size && nAlloc + 1 <= size && StrictWeakOrder(comp)
    }

    ghost predicate Valid()
      reads this, queue
    {
      Shaped() && HeapOrdered(queue[..], nAlloc, comp)
    }

    ghost function Contents(): multiset<T>
      reads this, queue
      requires Shaped()
    {
      Elements(queue[..], nAlloc)
    }

    ghost function Count(): Counters
      reads this
    {
      Counters(nAlloc, size, copied)
    }

    constructor (comp: (T, T) -> bool, size: nat)
      requires StrictWeakOrder(comp)
      ensures Valid() && fresh(queue) && this.comp == comp
      ensures Contents() == multiset{} && Count() == Counters(0, size + 1, 0)
    {
      this.queue := new T[size + 1];
      this.nAlloc := 0;
      this.size := size + 1;
      this.comp := comp;
      this.copied := 0;
    }

    method IsEmpty() returns (r: int)
      requires Valid()
      ensures r != 0 <==> Contents() == multiset{}
    {
      r := if nAlloc == 0 then 1 else 0;
      if nAlloc == 0 {
        assert queue[..][1..nAlloc + 1] == [];
      } else {
        assert queue[..][1..nAlloc + 1][0] in Contents();
      }
    }

    /** None stands for NULL. */
    method Min() returns (r: Option<T>)
      requires Valid()
      ensures r.None? <==> Contents() == multiset{}
      ensures r.Some? ==> nAlloc >= 1 && r.value == queue[1] && r.value in Contents()
      ensures r.Some? ==> forall x :: x in Contents() ==> !comp(x, r.value)
    {
      var empty := IsEmpty();
      if empty != 0 { return None; }
      r := Some(queue[1]);
      assert queue[..][1..nAlloc + 1][0] == queue[1];
      forall x | x in Contents() ensures !comp(x, queue[1]) {
        RootIsLeastElement(queue[..], nAlloc, comp, x);
      }
    }

    method Resize(newSize: nat) returns (rc: int)
      requires Valid()
      modifies this`queue, this`size, this`copied
      ensures rc < 0 <==> newSize <= old(nAlloc)
      ensures rc < 0 ==> unchanged(this)
      ensures rc >= 0 ==> rc == ST_OK && fresh(queue) && Count() == Resized(old(Count()), newSize)
      ensures rc >= 0 ==> size == newSize && nAlloc == old(nAlloc) && copied == old(copied) + nAlloc + 1
      ensures Valid() && Contents() == old(Contents())
    {
      if newSize <= nAlloc { return -1; }
      ghost var q := queue[..];
      var newPtr := new T[newSize];
      forall i | 0 <= i < nAlloc + 1 { newPtr[i] := queue[i]; }
      ghost var r := newPtr[..];
      SamePrefixSameHeap(q, r, nAlloc, comp);
      assert Contents() == Elements(r, nAlloc);
      queue := newPtr;
      assert queue[..] == r;
      size := newSize;
      copied := copied + nAlloc + 1;
      return ST_OK;
    }

    method Exch(i: nat, j: nat)
      requires i < queue.Length && j < queue.Length
      modifies queue
      ensures queue[..] == Swapped(old(queue[..]), i, j)
    {
      var tmp := queue[i];
      queue[i] := queue[j];
      queue[j] := tmp;
    }

    method Swim(start: nat)
      requires Shaped() && SwimmingAt(queue[..], nAlloc, start, comp)
      modifies queue
      ensures Valid() && Contents() == old(Contents())
    {
      var index: nat := start;
      while index > 1 && comp(queue[index], queue[index / 2])
        invariant SwimmingAt(queue[..], nAlloc, index, comp)
        invariant Elements(queue[..], nAlloc) == old(Elements(queue[..], nAlloc))
      {
        SwimStep(queue[..], nAlloc, index, comp);
        Exch(index, index / 2);
        index := index / 2;
      }
    }

    /** The choice of child at the top of sink's loop. */
    method LesserChild(cur: nat) returns (l: nat)
      requires Shaped() && 1 <= cur && 2 * cur <= nAlloc
      ensures LeastChild(queue[..], nAlloc, cur, l, comp)
    {
      l := 2 * cur;
      if l < nAlloc && comp(queue[l + 1], queue[l]) {
        l := l + 1;
      }
    }

    method Sink(start: nat) returns (cur: nat)
      requires Shaped() && SinkingAt(queue[..], nAlloc, start, comp)
      modifies queue
      ensures Valid() && Contents() == old(Contents())
    {
      cur := start;
      while 2 * cur <= nAlloc
        invariant SinkingAt(queue[..], nAlloc, cur, comp)
        invariant Elements(queue[..], nAlloc) == old(Elements(queue[..], nAlloc))
        decreases nAlloc - cur
      {
        var l := LesserChild(cur);
        if !comp(queue[l], queue[cur]) {
          SinkStops(queue[..], nAlloc, cur, l, comp);
          break;
        }
        SinkStep(queue[..], nAlloc, cur, l, comp);
        Exch(l, cur);
        cur := l;
      }
    }

    /** The first three statements of st_pq_del_min on a non-empty queue. */
    method RemoveRoot()
      requires Valid() && nAlloc >= 1
      modifies this`nAlloc, queue
      ensures Valid() && nAlloc == old(nAlloc) - 1
      ensures old(queue[1]) in old(Contents()) && Contents() == old(Contents()) - multiset{old(queue[1])}
    {
      hide StrictWeakOrder, HeapOrdered, Elements, SinkingAt, Contents, Valid, Shaped;
      LastToRoot();
      var _ := Sink(1);
    }

    /** The root goes behind the last item, out of the heap. */
    method LastToRoot()
      requires Valid() && nAlloc >= 1
      modifies this`nAlloc, queue
      ensures Shaped() && nAlloc == old(nAlloc) - 1 && SinkingAt(queue[..], nAlloc, 1, comp)
      ensures old(queue[1]) in old(Contents()) && Contents() == old(Contents()) - multiset{old(queue[1])}
    {
      hide StrictWeakOrder, HeapOrdered, Elements, SinkingAt, Swapped;
      ghost var q, n := queue[..], nAlloc;
      LastOut(q, n, comp);
      assert q[1] == queue[1] && Contents() == Elements(q, n);
      Exch(1, nAlloc);
      assert queue[..] == Swapped(q, 1, n);
      nAlloc := nAlloc - 1;
      assert Contents() == Elements(Swapped(q, 1, n), n - 1);
    }

    method DeleteMin() returns (rc: int)
      requires Valid()
      modifies this`queue, this`nAlloc, this`size, this`copied, queue
      ensures rc == ST_OK
      ensures Valid() && (queue == old(queue) || fresh(queue))
      ensures Count() == DelMinCount(old(Count()))
      ensures nAlloc == if old(nAlloc) == 0 then 0 else old(nAlloc) - 1
      ensures size == if old(nAlloc) > 1 && nAlloc <= (old(size) - 1) / 4 then old(size) / 2 else old(size)
      ensures copied == old(copied) + if size != old(size) then nAlloc + 1 else 0
      ensures old(nAlloc) >= 1 ==>
        old(queue[1]) in old(Contents()) && Contents() == old(Contents()) - multiset{old(queue[1])}
      ensures old(nAlloc) == 0 ==> Contents() == old(Contents()) == multiset{}
    {
      if nAlloc == 0 {
        assert queue[..][1..1] == [];
        return ST_OK;
      }
      hide StrictWeakOrder, HeapOrdered, Elements;
      RemoveRoot();
      if nAlloc > 0 && nAlloc <= (size - 1) / 4 {
        rc := Resize(size / 2);
        if rc < 0 { return -1; }
      }
      rc := ST_OK;
    }

    /** Stores an item behind the last one and restores the heap. */
    method Append(item: T)
      requires Valid() && nAlloc + 1 < size
      modifies this`nAlloc, queue
      ensures Valid() && nAlloc == old(nAlloc) + 1
      ensures Contents() == old(Contents()) + multiset{item}
    {
      OneMore(queue[..], nAlloc + 1, item, comp);
      nAlloc := nAlloc + 1;
      queue[nAlloc] := item;
      Swim(nAlloc);
    }

    method Add(item: T) returns (rc: int)
      requires Valid()
      modifies this`queue, this`nAlloc, this`size, this`copied, queue
      ensures rc == ST_OK
      ensures Valid() && (queue == old(queue) || fresh(queue))
      ensures Count() == InsertCount(old(Count()))
      ensures nAlloc == old(nAlloc) + 1 && size == if nAlloc == old(size) then 2 * old(size) else old(size)
      ensures copied == old(copied) + if size != old(size) then nAlloc else 0
      ensures Contents() == old(Contents()) + multiset{item}
    {
      if nAlloc + 1 == size {
        rc := Resize(size * 2);
        if rc < 0 { return -1; }
      }
      Append(item);
      rc := ST_OK;
    }
  }

  lemma LastOut<T(!new)>(q: seq<T>, n: nat, less: (T, T) -> bool)
    requires StrictWeakOrder(less) && HeapOrdered(q, n, less) && n >= 1
    ensures SinkingAt(Swapped(q, 1, n), n - 1, 1, less)
    ensures q[1] in Elements(q, n)
    ensures Elements(Swapped(q, 1, n), n - 1) == Elements(q, n) - multiset{q[1]}
  {
    LastOutElements(q, n);
    hide Elements, StrictWeakOrder;
    var r := Swapped(q, 1, n);
    forall j | 2 <= j <= n - 1 && j / 2 != 1 ensures AfterParent(r, j, less) {
      assert AfterParent(q, j, less);
    }
  }

  lemma LastOutElements<T>(q: seq<T>, n: nat)
    requires 1 <= n < |q|
    ensures q[1] in Elements(q, n)
    ensures Elements(Swapped(q, 1, n), n - 1) == Elements(q, n) - multiset{q[1]}
  {
    var r := Swapped(q, 1, n);
    SwappedElements(q, n, 1, n);
    assert r[1..n + 1] == r[1..n] + [q[1]];
  }

  lemma SamePrefixSameHeap<T>(q: seq<T>, r: seq<T>, n: nat, less: (T, T) -> bool)
    requires n < |r| && HeapOrdered(q, n, less) && q[..n + 1] == r[..n + 1]
    ensures HeapOrdered(r, n, less) && Elements(q, n) == Elements(r, n)
  {
    assert forall j :: 0 <= j <= n ==> q[j] == q[..n + 1][j] == r[..n + 1][j] == r[j];
    assert q[1..n + 1] == r[1..n + 1];
    forall j | 2 <= j <= n ensures AfterParent(r, j, less) {
      assert AfterParent(q, j, less);
    }
  }

  lemma OneMore<T>(q: seq<T>, n: nat, item: T, less: (T, T) -> bool)
    requires 1 <= n < |q| && HeapOrdered(q, n - 1, less)
    ensures SwimmingAt(q[n := item], n, n, less)
    ensures Elements(q[n := item], n) == Elements(q, n - 1) + multiset{item}
  {
    var r := q[n := item];
    assert r[1..n + 1] == q[1..n] + [item];
    forall j | 2 <= j <= n && j != n ensures AfterParent(r, j, less) {
      assert AfterParent(q, j, less);
    }
  }
}
