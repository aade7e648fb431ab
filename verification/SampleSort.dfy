/**
 Parallel sample sort: splitters cut the values into k buckets, every bucket gets one segment of
 the result, and k threads select, sort and write one segment each, in any interleaving.
 */
module SampleSort {
  import opened Shared
  import opened SortSpec

  const UPPER_INFINITE := 999999999
  const LOWER_INFINITE := -1
  const MAX := 32

  ghost predicate InRange(s: seq<int>) {
    forall i :: 0 <= i < |s| ==> 0 <= s[i] <= UPPER_INFINITE
  }

  // ---------- compare, on 32-bit integers ----------

  function Compare(a: int, b: int): int {
    Int32(a - b)
  }

  /** The comparator tells the order of two ints exactly when their difference fits an int. */
  lemma CompareIsOrderIffDifferenceFits(a: int, b: int)
    requires -0x8000_0000 <= a < 0x8000_0000 && -0x8000_0000 <= b < 0x8000_0000
    ensures ((Compare(a, b) < 0 <==> a < b) && (Compare(a, b) == 0 <==> a == b))
            <==> -0x8000_0000 <= a - b < 0x8000_0000
  {
    if a - b < -0x8000_0000 {
      assert Compare(a, b) == a - b + 0x1_0000_0000;
    } else if a - b >= 0x8000_0000 {
      assert Compare(a, b) == a - b - 0x1_0000_0000;
    }
  }

  /** The least int and 1: their difference wraps around, and the comparator says the least is the greater. */
  lemma CompareWrapsAround()
    ensures Compare(-0x8000_0000, 1) > 0
  {
    CompareIsOrderIffDifferenceFits(-0x8000_0000, 1);
  }

  /** The first i values are the i least ones, in order. */
  ghost predicate Selected(s: seq<int>, i: nat) {
    && i <= |s|
    && Ascending(s[..i])
    && forall x, y :: 0 <= x < i <= y < |s| ==> s[x] <= s[y]
  }

  /** s[m] is a least value of s[i..j]. */
  ghost predicate LeastOf(s: seq<int>, i: nat, m: nat, j: nat) {
    i <= m < j <= |s| && forall x :: i <= x < j ==> s[m] <= s[x]
  }

  lemma SelectionStep(s: seq<int>, i: nat, m: nat)
    requires Selected(s, i) && LeastOf(s, i, m, |s|)
    ensures Selected(s[i := s[m]][m := s[i]], i + 1)
    ensures multiset(s[i := s[m]][m := s[i]]) == multiset(s)
  {
    var t := s[i := s[m]][m := s[i]];
    assert t[..i] == s[..i];
    assert t[..i + 1] == s[..i] + [s[m]];
  }

  method LeastIndex(a: array<int>, lo: nat, i: nat, n: nat) returns (m: nat)
    requires i < n && lo + n <= a.Length
    requires InRange(a[..])
    ensures LeastOf(a[lo..lo + n], i, m, n)
  {
    m := i;
    var j := i + 1;
    while j < n
      invariant i < j <= n && LeastOf(a[lo..lo + n], i, m, j)
    {
      if Compare(a[lo + j], a[lo + m]) < 0 { m := j; }
      j := j + 1;
    }
  }

  method Swap(a: array<int>, i: nat, j: nat)
    requires i < a.Length && j < a.Length
    modifies a
    ensures a[..] == old(a[..])[i := old(a[j])][j := old(a[i])]
  {
    a[i], a[j] := a[j], a[i];
  }

  /** s with its n values from lo on put in order. */
  function SortAt(s: seq<int>, lo: nat, n: nat): (r: seq<int>)
    requires lo + n <= |s|
    ensures |r| == |s|
  {
    s[..lo] + SortSeq(s[lo..lo + n]) + s[lo + n..]
  }

  /** `now` is `was` with the first i values of was[lo..lo+n] selected, nothing else moved. */
  ghost predicate SortingUpTo(was: seq<int>, now: seq<int>, lo: nat, n: nat, i: nat) {
    && lo + n <= |was| == |now|
    && now[..lo] == was[..lo] && now[lo + n..] == was[lo + n..]
    && multiset(now[lo..lo + n]) == multiset(was[lo..lo + n])
    && Selected(now[lo..lo + n], i)
  }

  lemma SortingStep(was: seq<int>, now: seq<int>, lo: nat, n: nat, i: nat, m: nat)
    requires SortingUpTo(was, now, lo, n, i) && InRange(now)
    requires LeastOf(now[lo..lo + n], i, m, n)
    ensures var next := now[lo + i := now[lo + m]][lo + m := now[lo + i]];
      SortingUpTo(was, next, lo, n, i + 1) && InRange(next)
  {
    var seg, next := now[lo..lo + n], now[lo + i := now[lo + m]][lo + m := now[lo + i]];
    assert next[lo..lo + n] == seg[i := seg[m]][m := seg[i]];
    assert next[..lo] == now[..lo] && next[lo + n..] == now[lo + n..];
    SelectionStep(seg, i, m);
  }

  lemma SortingDone(was: seq<int>, now: seq<int>, lo: nat, n: nat)
    requires SortingUpTo(was, now, lo, n, n)
    ensures now == SortAt(was, lo, n)
    ensures multiset(now) == multiset(was)
  {
    var seg := now[lo..lo + n];
    assert seg[..n] == seg;
    SortSeqIs(was[lo..lo + n], seg);
    assert was == was[..lo] + was[lo..lo + n] + was[lo + n..];
    assert now == now[..lo] + now[lo..lo + n] + now[lo + n..];
  }

  /** Stands for libc's qsort on a[lo..lo+n]: the contract is what the library promises. */
  method Qsort(a: array<int>, lo: nat, n: nat)
    requires lo + n <= a.Length
    requires InRange(a[..])
    modifies a
    ensures a[..] == SortAt(old(a[..]), lo, n)
    ensures InRange(a[..]) && multiset(a[..]) == multiset(old(a[..]))
  {
    ghost var was, now := a[..], a[..];
    var i := 0;
    while i < n
      invariant 0 <= i <= n && a[..] == now
      invariant SortingUpTo(was, now, lo, n, i) && InRange(now)
    {
      assert a[lo..lo + n] == now[lo..lo + n];
      var m := LeastIndex(a, lo, i, n);
      SortingStep(was, now, lo, n, i, m);
      Swap(a, lo + i, lo + m);
      now := now[lo + i := now[lo + m]][lo + m := now[lo + i]];
      i := i + 1;
    }
    SortingDone(was, now, lo, n);
  }

  // ---------- buckets ----------

  /** The sub-sequence with lo < v <= hi: the selection test of a sorting thread. */
  function SelectRange(s: seq<int>, lo: int, hi: int): (r: seq<int>)
    ensures |r| <= |s|
  {
    if s == [] then []
    else
      var v := s[|s| - 1];
      SelectRange(s[..|s| - 1], lo, hi) + (if v <= hi && v > lo then [v] else [])
  }

  lemma {:induction false} SelectInRange(s: seq<int>, lo: int, hi: int)
    ensures forall x :: x in SelectRange(s, lo, hi) ==> lo < x <= hi
  {
    if s != [] { SelectInRange(s[..|s| - 1], lo, hi); }
  }

  ghost predicate ValidSplitters(sp: seq<int>) {
    |sp| >= 1 && Ascending(sp) && InRange(sp)
  }

  /** The i-th cut: bucket i holds the values in (Cut(i), Cut(i + 1)]. */
  function Cut(sp: seq<int>, i: int): int
    requires 0 <= i <= |sp| + 1
  {
    if i == 0 then LOWER_INFINITE else if i == |sp| + 1 then UPPER_INFINITE else sp[i - 1]
  }

  lemma CutsAscend(sp: seq<int>, i: int, j: int)
    requires ValidSplitters(sp) && 0 <= i <= j <= |sp| + 1
    ensures Cut(sp, i) <= Cut(sp, j)
  {
  }

  function Bucket(s: seq<int>, sp: seq<int>, b: int): seq<int>
    requires 0 <= b <= |sp|
  {
    SelectRange(s, Cut(sp, b), Cut(sp, b + 1))
  }

  /** Where bucket b's segment starts in the result. */
  function Offset(s: seq<int>, sp: seq<int>, b: int): (r: nat)
    requires 0 <= b <= |sp| + 1
  {
    if b == 0 then 0 else Offset(s, sp, b - 1) + |Bucket(s, sp, b - 1)|
  }

  lemma {:induction false} OffsetsAscend(s: seq<int>, sp: seq<int>, b: int, c: int)
    requires 0 <= b <= c <= |sp| + 1
    ensures Offset(s, sp, b) <= Offset(s, sp, c)
    decreases c
  {
    if b < c { OffsetsAscend(s, sp, b, c - 1); }
  }

  lemma {:induction false} SelectSplits(s: seq<int>, a: int, b: int, c: int)
    requires a <= b <= c
    ensures multiset(SelectRange(s, a, c)) == multiset(SelectRange(s, a, b)) + multiset(SelectRange(s, b, c))
  {
    if s != [] { SelectSplits(s[..|s| - 1], a, b, c); }
  }

  lemma {:induction false} SelectNone(s: seq<int>, a: int)
    ensures SelectRange(s, a, a) == []
  {
    if s != [] { SelectNone(s[..|s| - 1], a); }
  }

  lemma {:induction false} SelectAll(s: seq<int>)
    requires InRange(s)
    ensures SelectRange(s, LOWER_INFINITE, UPPER_INFINITE) == s
  {
    if s != [] {
      SelectAll(s[..|s| - 1]);
      assert s == s[..|s| - 1] + [s[|s| - 1]];
    }
  }

  lemma {:induction false} SelectPrefixShorter(s: seq<int>, lo: int, hi: int, i: nat)
    requires i <= |s|
    ensures |SelectRange(s[..i], lo, hi)| <= |SelectRange(s, lo, hi)|
    ensures i < |s| && lo < s[i] <= hi ==> |SelectRange(s[..i], lo, hi)| < |SelectRange(s, lo, hi)|
    decreases |s|
  {
    if i < |s| {
      var t := s[..|s| - 1];
      assert t[..i] == s[..i];
      if i < |t| { SelectPrefixShorter(t, lo, hi, i); } else { assert s[..i] == t; }
    } else {
      assert s[..i] == s;
    }
  }

  /** The segments of the first n buckets, one after the other. */
  function Segments(s: seq<int>, sp: seq<int>, n: int): seq<int>
    requires 0 <= n <= |sp| + 1
  {
    if n == 0 then [] else Segments(s, sp, n - 1) + SortSeq(Bucket(s, sp, n - 1))
  }

  lemma ConcatAscends(a: seq<int>, b: seq<int>, c: int)
    requires Ascending(a) && Ascending(b)
    requires forall x :: x in a ==> x <= c
    requires forall x :: x in b ==> c <= x
    ensures Ascending(a + b)
  {
    forall i, j | 0 <= i < j < |a + b| ensures (a + b)[i] <= (a + b)[j] {
      if i < |a| <= j { assert a[i] in a && b[j - |a|] in b; }
    }
  }

  lemma {:induction false} SegmentsSorted(s: seq<int>, sp: seq<int>, n: int)
    requires ValidSplitters(sp) && 0 <= n <= |sp| + 1
    ensures |Segments(s, sp, n)| == Offset(s, sp, n)
    ensures Ascending(Segments(s, sp, n))
    ensures forall x :: x in Segments(s, sp, n) ==> x <= Cut(sp, n)
    ensures multiset(Segments(s, sp, n)) == multiset(SelectRange(s, LOWER_INFINITE, Cut(sp, n)))
  {
    if n == 0 {
      SelectNone(s, LOWER_INFINITE);
    } else {
      SegmentsSorted(s, sp, n - 1);
      var prev, seg := Segments(s, sp, n - 1), SortSeq(Bucket(s, sp, n - 1));
      CutsAscend(sp, n - 1, n);
      CutsAscend(sp, 0, n - 1);
      SelectSplits(s, LOWER_INFINITE, Cut(sp, n - 1), Cut(sp, n));
      SelectInRange(s, Cut(sp, n - 1), Cut(sp, n));
      SortSeqSorts(Bucket(s, sp, n - 1));
      SameMultisetSameElements(seg, Bucket(s, sp, n - 1));
      ConcatAscends(prev, seg, Cut(sp, n - 1));
    }
  }

  /** The buckets' sorted segments, laid end to end, are the whole sorted input, repeated splitters or not. */
  lemma SegmentsAreTheSortedInput(s: seq<int>, sp: seq<int>)
    requires ValidSplitters(sp) && InRange(s)
    ensures Segments(s, sp, |sp| + 1) == SortSeq(s)
    ensures Offset(s, sp, |sp| + 1) == |s|
  {
    SegmentsSorted(s, sp, |sp| + 1);
    SelectAll(s);
    SortSeqIs(s, Segments(s, sp, |sp| + 1));
  }

  // ---------- the threads ----------

  datatype Param = Param(lower: int, upper: int, count: int, lowerValue: int, upperValue: int)
  datatype Phase = Selecting | Writing | Done
  datatype Thread = Thread(param: Param, phase: Phase, i: int, index: int, local: seq<int>)
  datatype State = State(sorted: seq<int>, threads: seq<Thread>)

  /** The next access of a thread stays inside the arrays. */
  predicate InBounds(u: seq<int>, len: nat, th: Thread) {
    match th.phase
    case Selecting => 0 <= th.i <= |u| && 0 <= th.index &&
      (th.i < |u| && u[th.i] <= th.param.upperValue && u[th.i] > th.param.lowerValue ==> th.index < |th.local|)
    case Writing => th.i < th.param.upper ==> 0 <= th.i < len && 0 <= th.index < |th.local|
    case Done => true
  }

  /** One step of a sorting thread: one loop iteration, or one exit of a loop. */
  function ThreadStep(u: seq<int>, sorted: seq<int>, th: Thread): (r: (seq<int>, Thread))
    requires InBounds(u, |sorted|, th)
  {
    match th.phase
    case Selecting =>
      if th.i == |u| then
        (sorted, th.(phase := Writing, i := th.param.lower, index := 0, local := SortSeq(th.local)))
      else if u[th.i] <= th.param.upperValue && u[th.i] > th.param.lowerValue then
        (sorted, th.(i := th.i + 1, index := th.index + 1, local := th.local[th.index := u[th.i]]))
      else
        (sorted, th.(i := th.i + 1))
    case Writing =>
      if th.i < th.param.upper then
        (sorted[th.i := th.local[th.index]], th.(i := th.i + 1, index := th.index + 1))
      else
        (sorted, th.(phase := Done))
    case Done => (sorted, th)
  }

  function ParamOf(u: seq<int>, sp: seq<int>, t: nat): Param
    requires t <= |sp|
  {
    Param(Offset(u, sp, t), Offset(u, sp, t + 1), |Bucket(u, sp, t)|, Cut(sp, t), Cut(sp, t + 1))
  }

  ghost predicate ThreadInv(u: seq<int>, sp: seq<int>, sorted: seq<int>, t: nat, th: Thread)
    requires t <= |sp|
  {
    var p := ParamOf(u, sp, t);
    && th.param == p
    && p.upper <= |sorted|
    && |th.local| == p.count
    && match th.phase
       case Selecting =>
         && 0 <= th.i <= |u|
         && 0 <= th.index <= p.count
         && th.local[..th.index] == SelectRange(u[..th.i], p.lowerValue, p.upperValue)
       case Writing =>
         && p.lower <= th.i <= p.upper
         && th.index == th.i - p.lower
         && th.local == SortSeq(Bucket(u, sp, t))
         && sorted[p.lower..th.i] == th.local[..th.index]
       case Done =>
         sorted[p.lower..p.upper] == SortSeq(Bucket(u, sp, t))
  }

  ghost predicate Inv(u: seq<int>, sp: seq<int>, st: State) {
    && |st.threads| == |sp| + 1
    && |st.sorted| == Offset(u, sp, |sp| + 1)
    && forall t :: 0 <= t < |st.threads| ==> ThreadInv(u, sp, st.sorted, t, st.threads[t])
  }

  lemma ThreadInvInBounds(u: seq<int>, sp: seq<int>, sorted: seq<int>, t: nat, th: Thread)
    requires t <= |sp| && ThreadInv(u, sp, sorted, t, th)
    ensures InBounds(u, |sorted|, th)
  {
    if th.phase.Selecting? {
      SelectPrefixShorter(u, th.param.lowerValue, th.param.upperValue, th.i);
    }
  }

  /** A thread changed nothing outside its own segment. */
  ghost predicate OnlySegment(u: seq<int>, sp: seq<int>, t: nat, sorted: seq<int>, sorted': seq<int>)
    requires t <= |sp|
  {
    && |sorted'| == |sorted|
    && forall x :: 0 <= x < |sorted| && !(Offset(u, sp, t) <= x < Offset(u, sp, t + 1)) ==> sorted'[x] == sorted[x]
  }

  lemma SelectingStepKeepsOwn(u: seq<int>, sp: seq<int>, sorted: seq<int>, t: nat, th: Thread)
    requires t <= |sp| && ThreadInv(u, sp, sorted, t, th) && InBounds(u, |sorted|, th) && th.phase.Selecting?
    ensures var r := ThreadStep(u, sorted, th); r.0 == sorted && ThreadInv(u, sp, sorted, t, r.1)
  {
    var r := ThreadStep(u, sorted, th).1;
    if th.i == |u| {
      assert u[..th.i] == u;
      assert th.local[..th.index] == th.local;
    } else {
      assert u[..th.i + 1][..th.i] == u[..th.i];
      SelectPrefixShorter(u, th.param.lowerValue, th.param.upperValue, th.i + 1);
      assert r.local[..th.index] == th.local[..th.index];
    }
  }

  lemma WritingStepKeepsOwn(u: seq<int>, sp: seq<int>, sorted: seq<int>, t: nat, th: Thread)
    requires t <= |sp| && ThreadInv(u, sp, sorted, t, th) && InBounds(u, |sorted|, th) && th.phase.Writing?
    ensures var r := ThreadStep(u, sorted, th);
      OnlySegment(u, sp, t, sorted, r.0) && ThreadInv(u, sp, r.0, t, r.1)
  {
    var p := th.param;
    if th.i < p.upper {
      var sorted' := ThreadStep(u, sorted, th).0;
      assert sorted'[p.lower..th.i + 1] == sorted[p.lower..th.i] + [th.local[th.index]];
    } else {
      assert th.local[..th.index] == th.local;
    }
  }

  /** A step keeps the stepping thread's own invariant and touches only that thread's segment. */
  lemma StepKeepsOwn(u: seq<int>, sp: seq<int>, sorted: seq<int>, t: nat, th: Thread)
    requires t <= |sp| && ThreadInv(u, sp, sorted, t, th) && InBounds(u, |sorted|, th)
    ensures var r := ThreadStep(u, sorted, th);
      OnlySegment(u, sp, t, sorted, r.0) && ThreadInv(u, sp, r.0, t, r.1)
  {
    match th.phase
    case Selecting => SelectingStepKeepsOwn(u, sp, sorted, t, th);
    case Writing => WritingStepKeepsOwn(u, sp, sorted, t, th);
    case Done =>
  }

  lemma OthersUndisturbed(u: seq<int>, sp: seq<int>, sorted: seq<int>, sorted': seq<int>, t: nat, o: nat, th: Thread)
    requires t <= |sp| && o <= |sp| && o != t
    requires ThreadInv(u, sp, sorted, o, th)
    requires OnlySegment(u, sp, t, sorted, sorted')
    ensures ThreadInv(u, sp, sorted', o, th)
  {
    if o < t { OffsetsAscend(u, sp, o + 1, t); } else { OffsetsAscend(u, sp, t + 1, o); }
    var p := ParamOf(u, sp, o);
    assert sorted'[p.lower..p.upper] == sorted[p.lower..p.upper];
    if th.phase.Writing? {
      assert sorted'[p.lower..th.i] == sorted[p.lower..th.i];
    }
  }

  function StepAt(u: seq<int>, st: State, t: nat): (st': State)
    requires t < |st.threads| && InBounds(u, |st.sorted|, st.threads[t])
  {
    var (sorted, th) := ThreadStep(u, st.sorted, st.threads[t]);
    State(sorted, st.threads[t := th])
  }

  /** Whatever thread moves next, its access is in bounds and every thread's invariant survives. */
  lemma AnyStepKeepsInv(u: seq<int>, sp: seq<int>, st: State, t: nat)
    requires t < |st.threads| && Inv(u, sp, st)
    ensures InBounds(u, |st.sorted|, st.threads[t])
    ensures Inv(u, sp, StepAt(u, st, t))
  {
    ThreadInvInBounds(u, sp, st.sorted, t, st.threads[t]);
    StepKeepsOwn(u, sp, st.sorted, t, st.threads[t]);
    var st' := StepAt(u, st, t);
    forall o | 0 <= o < |st'.threads| ensures ThreadInv(u, sp, st'.sorted, o, st'.threads[o]) {
      if o != t { OthersUndisturbed(u, sp, st.sorted, st'.sorted, t, o, st.threads[o]); }
    }
  }

  ghost predicate AllDone(st: State) {
    forall t :: 0 <= t < |st.threads| ==> st.threads[t].phase.Done?
  }

  lemma {:induction false} DonePrefix(u: seq<int>, sp: seq<int>, st: State, n: nat)
    requires Inv(u, sp, st) && AllDone(st) && n <= |sp| + 1
    ensures Offset(u, sp, n) <= |st.sorted| && st.sorted[..Offset(u, sp, n)] == Segments(u, sp, n)
  {
    hide ThreadInv, Bucket, SortSeq;
    OffsetsAscend(u, sp, n, |sp| + 1);
    if n > 0 {
      DonePrefix(u, sp, st, n - 1);
      OffsetsAscend(u, sp, n - 1, n);
      assert ThreadInv(u, sp, st.sorted, n - 1, st.threads[n - 1]) && st.threads[n - 1].phase.Done?;
      DoneSegment(u, sp, st.sorted, n - 1, st.threads[n - 1]);
      var a, b := Offset(u, sp, n - 1), Offset(u, sp, n);
      hide Offset;
      assert st.sorted[..b] == st.sorted[..a] + st.sorted[a..b];
    }
  }

  lemma DoneSegment(u: seq<int>, sp: seq<int>, sorted: seq<int>, t: nat, th: Thread)
    requires t <= |sp| && ThreadInv(u, sp, sorted, t, th) && th.phase.Done?
    ensures 0 <= Offset(u, sp, t) <= Offset(u, sp, t + 1) <= |sorted|
    ensures sorted[Offset(u, sp, t)..Offset(u, sp, t + 1)] == SortSeq(Bucket(u, sp, t))
  {
  }

  lemma DoneMeansSorted(u: seq<int>, sp: seq<int>, st: State)
    requires Inv(u, sp, st) && AllDone(st) && ValidSplitters(sp) && InRange(u)
    ensures st.sorted == SortSeq(u)
  {
    var n := |sp| + 1;
    SegmentsAreTheSortedInput(u, sp);
    DonePrefix(u, sp, st, n);
    assert st.sorted[..Offset(u, sp, n)] == st.sorted;
  }

  /** Thread t as main creates it: nothing selected yet, its buffer holds garbage. */
  ghost predicate Created(u: seq<int>, sp: seq<int>, t: nat, th: Thread)
    requires t <= |sp|
  {
    && th.param == ParamOf(u, sp, t)
    && th.phase == Selecting && th.i == 0 && th.index == 0
    && |th.local| == th.param.count
  }

  /** The state when the threads are created; the result holds garbage. */
  ghost predicate Initial(u: seq<int>, sp: seq<int>, st: State) {
    && |st.threads| == |sp| + 1
    && |st.sorted| == |u|
    && forall t :: 0 <= t < |st.threads| ==> Created(u, sp, t, st.threads[t])
  }

  lemma InitialInv(u: seq<int>, sp: seq<int>, st: State)
    requires Initial(u, sp, st) && ValidSplitters(sp) && InRange(u)
    ensures Inv(u, sp, st)
  {
    SegmentsAreTheSortedInput(u, sp);
    forall t | 0 <= t < |st.threads| ensures ThreadInv(u, sp, st.sorted, t, st.threads[t]) {
      OffsetsAscend(u, sp, t + 1, |sp| + 1);
      assert st.threads[t].local[..0] == SelectRange(u[..0], Cut(sp, t), Cut(sp, t + 1));
    }
  }

  /** The state after the threads took turns as `schedule` says. */
  ghost function Run(u: seq<int>, sp: seq<int>, st: State, schedule: seq<nat>): (st': State)
    requires Inv(u, sp, st)
    requires forall x :: 0 <= x < |schedule| ==> schedule[x] <= |sp|
    ensures Inv(u, sp, st')
    decreases |schedule|
  {
    if schedule == [] then st
    else
      AnyStepKeepsInv(u, sp, st, schedule[0]);
      Run(u, sp, StepAt(u, st, schedule[0]), schedule[1..])
  }

  /** Every interleaving of the threads that lets them all finish leaves the sorted input. */
  lemma EveryInterleavingSorts(u: seq<int>, sp: seq<int>, st: State, schedule: seq<nat>)
    requires ValidSplitters(sp) && InRange(u) && Initial(u, sp, st)
    requires forall x :: 0 <= x < |schedule| ==> schedule[x] <= |sp|
    ensures Inv(u, sp, st)
    ensures AllDone(Run(u, sp, st, schedule)) ==> Run(u, sp, st, schedule).sorted == SortSeq(u)
  {
    InitialInv(u, sp, st);
    var st' := Run(u, sp, st, schedule);
    if AllDone(st') { DoneMeansSorted(u, sp, st'); }
  }

  // ---------- how many steps are left ----------

  function Left(u: seq<int>, th: Thread): (r: int)
  {
    match th.phase
    case Selecting => (|u| - th.i) + 1 + (th.param.upper - th.param.lower) + 1
    case Writing => (th.param.upper - th.i) + 1
    case Done => 0
  }

  function TotalLeft(u: seq<int>, ths: seq<Thread>): int {
    if ths == [] then 0 else Left(u, ths[0]) + TotalLeft(u, ths[1..])
  }

  lemma {:induction false} TotalLeftUpdate(u: seq<int>, ths: seq<Thread>, t: nat, th: Thread)
    requires t < |ths|
    ensures TotalLeft(u, ths[t := th]) == TotalLeft(u, ths) - Left(u, ths[t]) + Left(u, th)
    decreases |ths|
  {
    if t > 0 {
      TotalLeftUpdate(u, ths[1..], t - 1, th);
      assert ths[t := th][1..] == ths[1..][t - 1 := th];
    } else {
      assert ths[t := th][1..] == ths[1..];
    }
  }

  lemma {:induction false} TotalLeftBounds(u: seq<int>, sp: seq<int>, sorted: seq<int>, ths: seq<Thread>, from: nat)
    requires from + |ths| == |sp| + 1
    requires forall t :: 0 <= t < |ths| ==> ThreadInv(u, sp, sorted, from + t, ths[t])
    ensures 0 <= TotalLeft(u, ths)
    decreases |ths|
  {
    if ths != [] {
      assert ThreadInv(u, sp, sorted, from + 0, ths[0]);
      forall t | 0 <= t < |ths[1..]| ensures ThreadInv(u, sp, sorted, from + 1 + t, ths[1..][t]) {
        assert ThreadInv(u, sp, sorted, from + (t + 1), ths[t + 1]);
      }
      TotalLeftBounds(u, sp, sorted, ths[1..], from + 1);
    }
  }

  /** Every turn given to an unfinished thread uses up one of finitely many steps: no interleaving runs for ever. */
  lemma TurnsRunOut(u: seq<int>, sp: seq<int>, st: State, t: nat)
    requires t < |st.threads| && Inv(u, sp, st) && !st.threads[t].phase.Done?
    ensures InBounds(u, |st.sorted|, st.threads[t])
    ensures 0 <= TotalLeft(u, StepAt(u, st, t).threads) == TotalLeft(u, st.threads) - 1
  {
    AnyStepKeepsInv(u, sp, st, t);
    var st' := StepAt(u, st, t);
    TotalLeftUpdate(u, st.threads, t, st'.threads[t]);
    forall o | 0 <= o < |st'.threads| ensures ThreadInv(u, sp, st'.sorted, 0 + o, st'.threads[o]) {
      assert ThreadInv(u, sp, st'.sorted, o, st'.threads[o]);
    }
    TotalLeftBounds(u, sp, st'.sorted, st'.threads, 0);
    assert ThreadInv(u, sp, st.sorted, t, st.threads[t]);
  }

  // ---------- choosing the splitters ----------

  /** The bucket gap of find_splitters. */
  function Gap(len: nat, k: int): int
    requires k >= 1
  {
    MulPositive(k, k);
    len / (k * k)
  }

  lemma MulPositive(a: int, b: int)
    requires a >= 1 && b >= 1
    ensures a * b >= 1
  {
  }

  lemma MulMonotone(a: int, b: int, c: int)
    requires a <= b && 0 <= c
    ensures a * c <= b * c
  {
  }

  /** i * gap of every candidate position is inside the array. */
  lemma CandidateInBounds(len: nat, k: int, i: int)
    requires 2 <= k && k * k <= len && 0 <= i < k * k
    ensures 1 <= Gap(len, k) && 0 <= i * Gap(len, k) < len
  {
    var g := Gap(len, k);
    assert g * (k * k) <= len && g >= 1;
    MulMonotone(i, k * k - 1, g);
    assert (k * k - 1) * g == g * (k * k) - g;
  }

  /** The "last block is shorter" branch of find_splitters is never taken. */
  lemma BlockFits(len: nat, k: int, i: int)
    requires 2 <= k && k * k <= len && 0 <= i < k * k && i % k == 0
    ensures i + Gap(len, k) * k <= len
  {
    var g := Gap(len, k);
    var b := i / k;
    assert i == b * k;
    if b >= k { MulMonotone(k, b, k); }
    MulMonotone(b, k - 1, k);
    assert (k - 1) * k == k * k - k;
    CandidateInBounds(len, k, i);
    MulMonotone(k, k * k, g - 1);
    assert k * (g - 1) == g * k - k && (k * k) * (g - 1) == g * (k * k) - k * k;
  }

  function BlockLen(len: nat, k: int, i: int): int
    requires k >= 1
  {
    if i + Gap(len, k) * k > len then len - i else Gap(len, k) * k
  }

  /** One turn of find_splitters' first loop; BlockFits shows the block is inside the array. */
  function SortBlockAt(s: seq<int>, k: int, i: nat): (r: seq<int>)
    requires k >= 1
    ensures |r| == |s|
  {
    var n := BlockLen(|s|, k, i);
    if i % k == 0 && 0 <= n <= |s| - i then SortAt(s, i, n) else s
  }

  /** The array after the first i turns: block number b is sorted at position b * k. */
  function BlocksSorted(s: seq<int>, k: int, i: nat): (r: seq<int>)
    requires k >= 1
    ensures |r| == |s|
  {
    if i == 0 then s else SortBlockAt(BlocksSorted(s, k, i - 1), k, i - 1)
  }

  /** What a turn sorts: n / k^2 times k elements from position i on, for every k-th i. */
  lemma BlockTurn(s: seq<int>, k: int, i: nat)
    requires 2 <= k && k * k <= |s| && i < k * k
    ensures i % k != 0 ==> SortBlockAt(s, k, i) == s
    ensures i % k == 0 ==>
      var n := |s| / (k * k) * k;
      0 <= n && i + n <= |s| && SortBlockAt(s, k, i) == s[..i] + SortSeq(s[i..i + n]) + s[i + n..]
  {
    if i % k == 0 {
      BlockFits(|s|, k, i);
      CandidateInBounds(|s|, k, i);
      MulPositive(Gap(|s|, k), k);
    }
  }

  ghost function Candidates(s: seq<int>, k: int, i: nat): seq<int>
    requires 2 <= k && k * k <= |s| && i <= k * k
  {
    if i == 0 then [] else
      CandidateInBounds(|s|, k, i - 1);
      Candidates(s, k, i - 1) + (if (i - 1) % k != 0 then [s[(i - 1) * Gap(|s|, k)]] else [])
  }

  lemma {:induction false} CandidatesCount(s: seq<int>, k: int, b: nat, r: nat)
    requires 2 <= k && k * k <= |s| && r <= k && b < k && b * k + r <= k * k
    ensures |Candidates(s, k, b * k + r)| == b * (k - 1) + (if r == 0 then 0 else r - 1)
    decreases b, r
  {
    if r > 0 {
      CandidatesCount(s, k, b, r - 1);
      assert (b * k + (r - 1)) % k == r - 1 by { ModIs(b, k, r - 1); }
    } else if b > 0 {
      assert b * k == (b - 1) * k + k && b * (k - 1) == (b - 1) * (k - 1) + k - 1;
      CandidatesCount(s, k, b - 1, k);
    }
  }

  /** The candidates, k - 1 from each k places: number b * (k - 1) + r - 1 is the value at (b * k + r) * (n / k^2). */
  lemma {:induction false} CandidateIs(s: seq<int>, k: int, i: nat, b: nat, r: nat)
    requires 2 <= k && k * k <= |s| && i <= k * k && 1 <= r < k && b < k && b * k + r < i
    ensures 0 <= b * (k - 1) + r - 1 < |Candidates(s, k, i)|
    ensures 0 <= (b * k + r) * (|s| / (k * k)) < |s|
    ensures Candidates(s, k, i)[b * (k - 1) + r - 1] == s[(b * k + r) * (|s| / (k * k))]
    decreases i
  {
    if i == b * k + r + 1 {
      CandidatesCount(s, k, b, r);
      ModIs(b, k, r);
      CandidateInBounds(|s|, k, i - 1);
    } else {
      CandidateIs(s, k, i - 1, b, r);
    }
  }

  lemma ModIs(b: nat, k: int, r: nat)
    requires r < k
    ensures (b * k + r) % k == r
  {
    assert (b * k + r) / k == b && (b * k + r) % k == r by { DivModUnique(b * k + r, k, b, r); }
  }

  lemma DivModUnique(x: int, k: int, q: int, r: int)
    requires 0 <= r < k && x == q * k + r
    ensures x / k == q && x % k == r
  {
    var q', r' := x / k, x % k;
    assert x == q' * k + r';
    assert (q - q') * k == r' - r;
    if q > q' { MulMonotone(1, q - q', k); } else if q < q' { MulMonotone(q - q', -1, k); }
  }

  lemma {:induction false} CandidatesGrow(s: seq<int>, k: int, i: nat, j: nat)
    requires 2 <= k && k * k <= |s| && i <= j <= k * k
    ensures |Candidates(s, k, i)| <= |Candidates(s, k, j)|
    decreases j
  {
    if i < j { CandidatesGrow(s, k, i, j - 1); }
  }

  lemma {:induction false} CandidatesInRange(s: seq<int>, k: int, i: nat)
    requires 2 <= k && k * k <= |s| && i <= k * k && InRange(s)
    ensures InRange(Candidates(s, k, i))
  {
    if i > 0 {
      CandidatesInRange(s, k, i - 1);
      CandidateInBounds(|s|, k, i - 1);
    }
  }

  lemma AllCandidates(s: seq<int>, k: int)
    requires 2 <= k && k * k <= |s|
    ensures |Candidates(s, k, k * k)| == k * (k - 1)
  {
    CandidatesCount(s, k, k - 1, k);
    assert (k - 1) * k + k == k * k;
    assert (k - 1) * (k - 1) + k - 1 == k * (k - 1);
  }

  /** The position, among the sorted candidates, of splitter j. */
  lemma PickInBounds(k: int, j: int)
    requires 2 <= k && 0 <= j < k - 1
    ensures 0 <= (j + 1) * k - 1 < k * (k - 1)
  {
    MulMonotone(1, j + 1, k);
    MulMonotone(j + 1, k - 1, k);
  }

  /** Value v is number (j + 1) * k - 1 of c. */
  ghost predicate KthAt(c: seq<int>, k: int, j: int, v: int) {
    0 <= (j + 1) * k - 1 < |c| && v == c[(j + 1) * k - 1]
  }

  /** sp holds every k-th value of c. */
  ghost predicate EveryKth(c: seq<int>, k: int, sp: seq<int>) {
    |sp| == k - 1 && forall j :: 0 <= j < |sp| ==> KthAt(c, k, j, sp[j])
  }

  lemma EveryKthAscends(c: seq<int>, k: int, sp: seq<int>)
    requires 2 <= k && Ascending(c) && EveryKth(c, k, sp)
    ensures Ascending(sp)
  {
    forall i, j | 0 <= i < j < |sp| ensures sp[i] <= sp[j] {
      MulMonotone(i + 1, j + 1, k);
      assert KthAt(c, k, i, sp[i]) && KthAt(c, k, j, sp[j]);
    }
  }

  /** Of the sorted candidates, k at a time, splitter j is the last of the j-th k: they come up to it, and the later
      ones do not come before it. */
  lemma SplitterEndsItsGroup(c: seq<int>, k: int, sp: seq<int>, j: int, i: int)
    requires 2 <= k && Ascending(c) && EveryKth(c, k, sp) && 0 <= j < k - 1 && 0 <= i < |c|
    ensures j * k <= i < (j + 1) * k ==> c[i] <= sp[j]
    ensures (j + 1) * k <= i ==> sp[j] <= c[i]
    ensures i == j * k + k - 1 ==> sp[j] == c[i]
  {
    assert (j + 1) * k == j * k + k;
    assert KthAt(c, k, j, sp[j]);
  }

  lemma SortedInRange(c: seq<int>)
    requires InRange(c)
    ensures InRange(SortSeq(c))
  {
    SortSeqSorts(c);
    SameMultisetSameElements(SortSeq(c), c);
    forall i | 0 <= i < |SortSeq(c)| ensures SortSeq(c)[i] in c {
      assert SortSeq(c)[i] in SortSeq(c);
    }
  }

  /** The splitters find_splitters ends with are in order and in range, whatever the input. */
  lemma ChosenSplittersValid(s: seq<int>, k: int, sp: seq<int>)
    requires 2 <= k && k * k <= |s| && InRange(s)
    requires EveryKth(SortSeq(Candidates(s, k, k * k)), k, sp)
    ensures ValidSplitters(sp)
  {
    var c := Candidates(s, k, k * k);
    CandidatesInRange(s, k, k * k);
    SortSeqSorts(c);
    SortedInRange(c);
    EveryKthAscends(SortSeq(c), k, sp);
  }

  method SortBlocks(arr: array<int>, k: int)
    requires 2 <= k && k * k <= arr.Length && InRange(arr[..])
    modifies arr
    ensures arr[..] == BlocksSorted(old(arr[..]), k, k * k)
    ensures InRange(arr[..])
  {
    ghost var was := arr[..];
    var i := 0;
    while i < k * k
      invariant 0 <= i <= k * k
      invariant arr[..] == BlocksSorted(was, k, i)
      invariant InRange(arr[..])
    {
      if i % k == 0 {
        BlockFits(arr.Length, k, i);
        CandidateInBounds(arr.Length, k, i);
        MulPositive(Gap(arr.Length, k), k);
        Qsort(arr, i, BlockLen(arr.Length, k, i));
      }
      i := i + 1;
    }
  }

  lemma SortAtPermutes(s: seq<int>, lo: nat, n: nat)
    requires lo + n <= |s|
    ensures multiset(SortAt(s, lo, n)) == multiset(s)
  {
    SortSeqSorts(s[lo..lo + n]);
    assert s == s[..lo] + s[lo..lo + n] + s[lo + n..];
  }

  lemma SortBlockPermutes(s: seq<int>, k: int, i: nat)
    requires k >= 1
    ensures multiset(SortBlockAt(s, k, i)) == multiset(s)
  {
    var n := BlockLen(|s|, k, i);
    if i % k == 0 && 0 <= n <= |s| - i { SortAtPermutes(s, i, n); }
  }

  lemma {:induction false} BlocksSortedPermutes(s: seq<int>, k: int, i: nat)
    requires k >= 1
    ensures multiset(BlocksSorted(s, k, i)) == multiset(s)
  {
    if i > 0 {
      BlocksSortedPermutes(s, k, i - 1);
      var t := BlocksSorted(s, k, i - 1);
      assert multiset(t) == multiset(s);
      assert BlocksSorted(s, k, i) == SortBlockAt(t, k, i - 1);
      SortBlockPermutes(t, k, i - 1);
    }
  }

  method CollectCandidates(arr: array<int>, candidate: array<int>, k: int)
    requires 2 <= k && k * k <= arr.Length && candidate.Length == k * (k - 1) && arr != candidate
    modifies candidate
    ensures candidate[..] == Candidates(arr[..], k, k * k)
  {
    ghost var s := arr[..];
    AllCandidates(s, k);
    var gap := Gap(arr.Length, k);
    var index, i := 0, 0;
    while i < k * k
      invariant 0 <= i <= k * k
      invariant index == |Candidates(s, k, i)| <= candidate.Length
      invariant candidate[..index] == Candidates(s, k, i)
      invariant arr[..] == s
    {
      CandidatesGrow(s, k, i + 1, k * k);
      CandidateInBounds(arr.Length, k, i);
      if i % k != 0 {
        candidate[index] := arr[i * gap];
        index := index + 1;
      }
      i := i + 1;
    }
    assert candidate[..index] == candidate[..];
  }

  method PickSplitters(candidate: array<int>, finalSplitter: array<int>, k: int)
    requires 2 <= k && candidate.Length == k * (k - 1) && finalSplitter.Length == k - 1 && candidate != finalSplitter
    modifies finalSplitter
    ensures EveryKth(candidate[..], k, finalSplitter[..])
  {
    ghost var c := candidate[..];
    var i := 1;
    while i < k
      invariant 1 <= i <= k
      invariant candidate[..] == c && forall j :: 0 <= j < i - 1 ==> KthAt(c, k, j, finalSplitter[j])
    {
      PickInBounds(k, i - 1);
      finalSplitter[i - 1] := candidate[i * k - 1];
      assert KthAt(c, k, i - 1, finalSplitter[i - 1]);
      hide KthAt;
      i := i + 1;
    }
  }

  method FindSplitters(arr: array<int>, candidate: array<int>, finalSplitter: array<int>, k: int)
    requires 2 <= k && k * k <= arr.Length && InRange(arr[..])
    requires candidate.Length == k * (k - 1) && finalSplitter.Length == k - 1
    requires arr != candidate && arr != finalSplitter && candidate != finalSplitter
    modifies arr, candidate, finalSplitter
    ensures arr[..] == BlocksSorted(old(arr[..]), k, k * k) && InRange(arr[..])
    ensures EveryKth(SortSeq(Candidates(arr[..], k, k * k)), k, finalSplitter[..])
  {
    SortBlocks(arr, k);
    ghost var s := arr[..];
    CollectCandidates(arr, candidate, k);
    ghost var c := candidate[..];
    CandidatesInRange(s, k, k * k);
    Qsort(candidate, 0, candidate.Length);
    assert candidate[..] == SortSeq(c) by {
      assert c[0..0 + |c|] == c;
    }
    PickSplitters(candidate, finalSplitter, k);
    assert arr[..] == s;
  }

  // ---------- counting and segment bounds ----------

  /** A value whose first splitter >= it is number j is selected by thread j and by no other. */
  lemma FirstSplitterIsTheSelector(sp: seq<int>, v: int, j: int)
    requires ValidSplitters(sp) && 0 <= v <= UPPER_INFINITE && 0 <= j <= |sp|
    requires forall x :: 0 <= x < j ==> sp[x] < v
    requires j < |sp| ==> sp[j] >= v
    ensures forall b :: 0 <= b <= |sp| ==> (Cut(sp, b) < v <= Cut(sp, b + 1) <==> b == j)
  {
    forall b | 0 <= b <= |sp| ensures Cut(sp, b) < v <= Cut(sp, b + 1) <==> b == j {
      if b < j { CutsAscend(sp, b + 1, j); } else if b > j { CutsAscend(sp, j + 1, b); }
    }
  }

  method CountElementsEachBucket(arr: array<int>, finalSplitter: array<int>, elements: array<int>, k: int)
    requires 2 <= k && InRange(arr[..])
    requires finalSplitter.Length == k - 1 && ValidSplitters(finalSplitter[..])
    requires elements.Length == k + 1 && elements != arr && elements != finalSplitter
    modifies elements
    ensures forall b :: 0 <= b < k ==> elements[b] == |Bucket(arr[..], finalSplitter[..], b)|
    ensures elements[k] == 0
  {
    ghost var s, sp := arr[..], finalSplitter[..];
    var i := 0;
    while i < k + 1
      invariant 0 <= i <= k + 1
      invariant forall b :: 0 <= b < i ==> elements[b] == 0
      invariant arr[..] == s && finalSplitter[..] == sp
    {
      elements[i] := 0;
      i := i + 1;
    }
    i := 0;
    while i < arr.Length
      invariant 0 <= i <= arr.Length
      invariant arr[..] == s && finalSplitter[..] == sp && elements[k] == 0
      invariant forall b :: 0 <= b < k ==> elements[b] == |Bucket(s[..i], sp, b)|
    {
      assert s[..i + 1][..i] == s[..i];
      ghost var before := elements[..];
      var flag, j := 0, 0;
      while j < k - 1
        invariant 0 <= j <= k - 1 && flag == 0
        invariant arr[..] == s && finalSplitter[..] == sp && elements[..] == before
        invariant forall x :: 0 <= x < j ==> sp[x] < s[i]
      {
        if finalSplitter[j] >= arr[i] {
          flag := 1;
          elements[j] := elements[j] + 1;
          break;
        }
        j := j + 1;
      }
      if flag == 0 {
        elements[k - 1] := elements[k - 1] + 1;
      }
      FirstSplitterIsTheSelector(sp, s[i], j);
      assert elements[..] == before[j := before[j] + 1];
      i := i + 1;
    }
    assert s[..i] == s;
  }

  function PrefixSum(c: seq<int>, b: int): int
    requires 0 <= b <= |c|
  {
    if b == 0 then 0 else PrefixSum(c, b - 1) + c[b - 1]
  }

  lemma {:induction false} PrefixSumIsOffset(s: seq<int>, sp: seq<int>, c: seq<int>, b: int)
    requires |c| > |sp| && 0 <= b <= |sp| + 1
    requires forall x :: 0 <= x <= |sp| ==> c[x] == |Bucket(s, sp, x)|
    ensures PrefixSum(c, b) == Offset(s, sp, b)
  {
    if b > 0 { PrefixSumIsOffset(s, sp, c, b - 1); }
  }

  method FindArrBoundInSorted(elements: array<int>, bound: array<int>, k: int)
    requires 2 <= k && elements.Length == bound.Length == k + 1 && elements != bound
    modifies bound
    ensures forall b :: 0 <= b <= k ==> bound[b] == PrefixSum(elements[..], b)
  {
    bound[0] := 0;
    var i := 1;
    while i < k + 1
      invariant 1 <= i <= k + 1
      invariant forall b :: 0 <= b < i ==> bound[b] == PrefixSum(elements[..], b)
    {
      bound[i] := bound[i - 1] + elements[i - 1];
      i := i + 1;
    }
  }

  /** The parameter block main fills in for thread i. */
  method MakeParam(elements: array<int>, bound: array<int>, finalSplitter: array<int>, k: int, i: int)
    returns (param: Param)
    requires 2 <= k && 0 <= i < k && elements.Length == bound.Length == k + 1 && finalSplitter.Length == k - 1
    ensures param == Param(bound[i], bound[i + 1], elements[i],
                           Cut(finalSplitter[..], i), Cut(finalSplitter[..], i + 1))
  {
    var lowerValue, upperValue;
    if i == 0 {
      upperValue, lowerValue := finalSplitter[i], LOWER_INFINITE;
    } else if i == k - 1 {
      upperValue, lowerValue := UPPER_INFINITE, finalSplitter[i - 1];
    } else {
      upperValue, lowerValue := finalSplitter[i], finalSplitter[i - 1];
    }
    if i == 0 && i == k - 1 {
      assert false;
    }
    param := Param(bound[i], bound[i + 1], elements[i], lowerValue, upperValue);
  }

  method CreateThreads(arr: array<int>, finalSplitter: array<int>, elements: array<int>, bound: array<int>, k: int)
    returns (threads: seq<Thread>)
    requires 2 <= k && elements.Length == bound.Length == k + 1 && finalSplitter.Length == k - 1
    requires forall b :: 0 <= b < k ==> elements[b] == |Bucket(arr[..], finalSplitter[..], b)|
    requires forall b :: 0 <= b <= k ==> bound[b] == PrefixSum(elements[..], b)
    ensures |threads| == k
    ensures forall t :: 0 <= t < k ==> Created(arr[..], finalSplitter[..], t, threads[t])
  {
    threads := [];
    var i := 0;
    while i < k
      invariant 0 <= i <= k && |threads| == i
      invariant forall t :: 0 <= t < i ==> Created(arr[..], finalSplitter[..], t, threads[t])
    {
      var param := MakeParam(elements, bound, finalSplitter, k, i);
      PrefixSumIsOffset(arr[..], finalSplitter[..], elements[..], i);
      PrefixSumIsOffset(arr[..], finalSplitter[..], elements[..], i + 1);
      var th := Thread(param, Selecting, 0, 0, seq(param.count, _ => 0));
      assert Created(arr[..], finalSplitter[..], i, th);
      threads := threads + [th];
      i := i + 1;
    }
  }

  /** One step of thread `th` on the shared result array. */
  method StepThread(arr: array<int>, sortedArr: array<int>, th: Thread) returns (th': Thread)
    requires arr != sortedArr && InBounds(arr[..], sortedArr.Length, th)
    modifies sortedArr
    ensures (sortedArr[..], th') == ThreadStep(old(arr[..]), old(sortedArr[..]), th)
  {
    match th.phase {
      case Selecting =>
        if th.i == arr.Length {
          th' := th.(phase := Writing, i := th.param.lower, index := 0, local := SortSeq(th.local));
        } else if arr[th.i] <= th.param.upperValue && arr[th.i] > th.param.lowerValue {
          th' := th.(i := th.i + 1, index := th.index + 1, local := th.local[th.index := arr[th.i]]);
        } else {
          th' := th.(i := th.i + 1);
        }
      case Writing =>
        if th.i < th.param.upper {
          sortedArr[th.i] := th.local[th.index];
          th' := th.(i := th.i + 1, index := th.index + 1);
        } else {
          th' := th.(phase := Done);
        }
      case Done =>
        th' := th;
    }
  }

  /** Runs the threads in an arbitrary interleaving until all have finished. */
  method RunThreads(arr: array<int>, sortedArr: array<int>, created: seq<Thread>, ghost sp: seq<int>)
    requires arr != sortedArr && InRange(arr[..]) && ValidSplitters(sp)
    requires Initial(arr[..], sp, State(sortedArr[..], created))
    modifies sortedArr
    ensures sortedArr[..] == SortSeq(arr[..])
  {
    ghost var u := arr[..];
    var threads := created;
    InitialInv(u, sp, State(sortedArr[..], threads));
    while exists t :: 0 <= t < |threads| && !threads[t].phase.Done?
      invariant arr[..] == u && Inv(u, sp, State(sortedArr[..], threads))
      decreases TotalLeft(u, threads)
    {
      var t :| 0 <= t < |threads| && !threads[t].phase.Done?;
      ghost var st := State(sortedArr[..], threads);
      AnyStepKeepsInv(u, sp, st, t);
      TurnsRunOut(u, sp, st, t);
      var th := StepThread(arr, sortedArr, threads[t]);
      threads := threads[t := th];
    }
    DoneMeansSorted(u, sp, State(sortedArr[..], threads));
  }

  method SortWithSplitters(arr: array<int>, finalSplitter: array<int>, k: int) returns (sortedArr: array<int>)
    requires 2 <= k && finalSplitter.Length == k - 1 && arr != finalSplitter
    requires InRange(arr[..]) && ValidSplitters(finalSplitter[..])
    ensures fresh(sortedArr) && sortedArr[..] == SortSeq(arr[..])
  {
    ghost var s, sp := arr[..], finalSplitter[..];
    var elements, bound := new int[k + 1], new int[k + 1];
    CountElementsEachBucket(arr, finalSplitter, elements, k);
    sortedArr := new int[arr.Length];
    FindArrBoundInSorted(elements, bound, k);
    assert arr[..] == s && finalSplitter[..] == sp;
    var threads := CreateThreads(arr, finalSplitter, elements, bound, k);
    RunThreads(arr, sortedArr, threads, sp);
  }

  /** main after the input is read: arr is rearranged by find_splitters, the result is the sorted input. */
  method SortInParallel(arr: array<int>, k: int) returns (sortedArr: array<int>)
    requires 2 <= k <= MAX && k * k <= arr.Length && InRange(arr[..])
    modifies arr
    ensures fresh(sortedArr) && sortedArr[..] == SortSeq(old(arr[..]))
  {
    ghost var input := arr[..];
    MulPositive(k, k - 1);
    var candidate, finalSplitter := new int[k * (k - 1)], new int[k - 1];
    FindSplitters(arr, candidate, finalSplitter, k);
    ghost var s := arr[..];
    ChosenSplittersValid(s, k, finalSplitter[..]);
    BlocksSortedPermutes(input, k, k * k);
    SortSeqSorts(s);
    SortSeqIs(input, SortSeq(s));
    sortedArr := SortWithSplitters(arr, finalSplitter, k);
  }
}
