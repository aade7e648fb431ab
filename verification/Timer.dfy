/** The server's timers: a heap by due time, with deletion by flag and removal later. */
module Timer {
  import opened Shared
  import opened PriorityQueue

  const ST_TIMER_INFINITE := -1

  /** A timer node. A pointer to one is the pair of its identity and what is set once at creation. */
  datatype TimerNode = TimerNode(id: nat, key: nat, rq: nat, handler: bool)

  function TimerComp(ti: TimerNode, tj: TimerNode): int {
    if ti.key < tj.key then 1 else 0
  }

  function Earlier(): (TimerNode, TimerNode) -> bool {
    (ti, tj) => TimerComp(ti, tj) != 0
  }

  lemma EarlierIsStrictWeakOrder()
    ensures StrictWeakOrder(Earlier())
  {
  }

  // ---------- the remaining time, as the C expression computes it ----------

  const TWO31 := 0x8000_0000
  const TWO32 := 0x1_0000_0000
  const TWO64 := 0x1_0000_0000_0000_0000

  /** (int)(key - cur) for size_t operands: subtraction modulo 2^64, then the low 32 bits as an int. */
  function IntDifference(key: nat, cur: nat): int {
    var low := ((key - cur) % TWO64) % TWO32;
    if low >= TWO31 then low - TWO32 else low
  }

  function Remaining(key: nat, cur: nat): nat {
    var time := IntDifference(key, cur);
    if time > 0 then time else 0
  }

  /** The unsigned subtraction gives max(0, key - cur) exactly when a timer still to come is less than
      2^31 ms away, or an overdue one is late by at most 2^31 ms modulo 2^32. */
  lemma RemainingExact(key: nat, cur: nat)
    requires key < TWO64 && cur < TWO64
    ensures Remaining(key, cur) == (if key > cur then key - cur else 0)
            <==> if key >= cur then key - cur < TWO31 else (cur - key) % TWO32 <= TWO31
  {
    if key >= cur {
      var d := key - cur;
      assert d % TWO64 == d;
      assert d % TWO32 < TWO32;
      if d >= TWO32 { assert d % TWO32 != d; }
    } else {
      var d := cur - key;
      assert (key - cur) % TWO64 == TWO64 - d;
      assert TWO64 == TWO32 * TWO32;
      var m := d % TWO32;
      assert d == TWO32 * (d / TWO32) + m;
      assert TWO64 - d == TWO32 * (TWO32 - d / TWO32) - m;
      LowBits(TWO32 - d / TWO32, m);
    }
  }

  /** A timer 2^31 ms ahead is taken for overdue, and one overdue by 2^31 + 1 ms for one to come. */
  lemma RemainingWrapsAround()
    ensures Remaining(TWO31, 0) == 0 && Remaining(0, TWO31 + 1) == TWO31 - 1
  {
    assert (0 - (TWO31 + 1)) % TWO64 == TWO64 - TWO31 - 1;
    assert (TWO64 - TWO31 - 1) % TWO32 == TWO32 - TWO31 - 1;
  }

  lemma LowBits(q: int, m: int)
    requires 0 <= m < TWO32
    ensures (TWO32 * q - m) % TWO32 == if m == 0 then 0 else TWO32 - m
  {
    if m == 0 {
      assert (TWO32 * q) % TWO32 == 0;
    } else {
      assert TWO32 * q - m == TWO32 * (q - 1) + (TWO32 - m);
    }
  }

  // ---------- what has happened to every timer ----------

  /** A timer that left the heap when due; called: whether it had a handler to call. */
  datatype Firing = Firing(node: TimerNode, time: nat, called: bool)

  /** pending: nodes in the heap; deleted: nodes st_del_timer was called on. */
  datatype History = History(
    added: seq<TimerNode>, pending: multiset<TimerNode>, deleted: set<TimerNode>,
    fired: seq<Firing>, discarded: seq<TimerNode>, now: nat)

  function Nodes(fired: seq<Firing>): seq<TimerNode> {
    seq(|fired|, i requires 0 <= i < |fired| => fired[i].node)
  }

  /** Every node ever added is at exactly one place: in the heap, fired at or after its key, its handler called if it
      has one, and never deleted before that, or discarded after a deletion. */
  ghost predicate Accounted(h: History) {
    && (forall i, j :: 0 <= i < j < |h.added| ==> h.added[i].id != h.added[j].id)
    && multiset(h.added) == h.pending + multiset(Nodes(h.fired)) + multiset(h.discarded)
    && (forall i :: 0 <= i < |h.fired| ==>
          && h.fired[i].node.key <= h.fired[i].time <= h.now && h.fired[i].node !in h.deleted
          && h.fired[i].called == h.fired[i].node.handler)
    && (forall i :: 0 <= i < |h.discarded| ==> h.discarded[i] in h.deleted)
    && (forall n :: n in h.deleted ==> n in multiset(h.added))
  }

  function Ticked(h: History, t: nat): History { h.(now := t) }
  function AddedNode(h: History, n: TimerNode): History {
    h.(added := h.added + [n], pending := h.pending + multiset{n})
  }
  function Deleted(h: History, n: TimerNode): History { h.(deleted := h.deleted + {n}) }
  function Fired(h: History, n: TimerNode): History {
    h.(pending := h.pending - multiset{n}, fired := h.fired + [Firing(n, h.now, n.handler)])
  }
  function Discarded(h: History, n: TimerNode): History {
    h.(pending := h.pending - multiset{n}, discarded := h.discarded + [n])
  }

  datatype Event = Tick(t: nat) | Add(n: TimerNode) | Delete(n: TimerNode) | Fire(n: TimerNode) | Discard(n: TimerNode)

  /** When the program takes a step of each kind. */
  ghost predicate Enabled(h: History, e: Event) {
    match e
    case Tick(t) => h.now <= t
    case Add(n) => forall i :: 0 <= i < |h.added| ==> h.added[i].id != n.id
    case Delete(n) => n in h.pending
    case Fire(n) => n in h.pending && n !in h.deleted && n.key <= h.now
    case Discard(n) => n in h.pending && n in h.deleted
  }

  function After(h: History, e: Event): History {
    match e
    case Tick(t) => Ticked(h, t)
    case Add(n) => AddedNode(h, n)
    case Delete(n) => Deleted(h, n)
    case Fire(n) => Fired(h, n)
    case Discard(n) => Discarded(h, n)
  }

  lemma NodesAppend(fired: seq<Firing>, f: Firing)
    ensures Nodes(fired + [f]) == Nodes(fired) + [f.node]
  {
  }

  lemma AddedOnce(s: seq<TimerNode>, n: TimerNode)
    requires forall i, j :: 0 <= i < j < |s| ==> s[i].id != s[j].id
    ensures multiset(s)[n] <= 1
    decreases |s|
  {
    if s != [] {
      var t := s[..|s| - 1];
      assert s == t + [s[|s| - 1]];
      AddedOnce(t, n);
      if n == s[|s| - 1] { assert n !in t; assert n !in multiset(t); }
    }
  }

  lemma DeletionKeepsAccounts(h: History, n: TimerNode)
    requires Accounted(h) && n in h.pending
    ensures Accounted(Deleted(h, n))
  {
    AddedOnce(h.added, n);
    forall i | 0 <= i < |h.fired| ensures h.fired[i].node != n {
      assert Nodes(h.fired)[i] in multiset(Nodes(h.fired));
    }
    assert n in multiset(h.added);
  }

  lemma FiringKeepsAccounts(h: History, n: TimerNode)
    requires Accounted(h) && Enabled(h, Fire(n))
    ensures Accounted(Fired(h, n))
  {
    var h' := Fired(h, n);
    NodesAppend(h.fired, Firing(n, h.now, n.handler));
    assert multiset(Nodes(h'.fired)) == multiset(Nodes(h.fired)) + multiset{n};
    assert h.pending == h'.pending + multiset{n};
    assert multiset(h'.added) == h'.pending + multiset(Nodes(h'.fired)) + multiset(h'.discarded);
  }

  lemma DiscardKeepsAccounts(h: History, n: TimerNode)
    requires Accounted(h) && Enabled(h, Discard(n))
    ensures Accounted(Discarded(h, n))
  {
    var h' := Discarded(h, n);
    assert h.pending == h'.pending + multiset{n};
    assert multiset(h'.added) == h'.pending + multiset(Nodes(h'.fired)) + multiset(h'.discarded);
  }

  lemma AddingKeepsAccounts(h: History, n: TimerNode)
    requires Accounted(h) && Enabled(h, Add(n))
    ensures Accounted(AddedNode(h, n))
  {
    var h' := AddedNode(h, n);
    assert multiset(h'.added) == multiset(h.added) + multiset{n};
    assert multiset(h'.added) == h'.pending + multiset(Nodes(h'.fired)) + multiset(h'.discarded);
  }

  lemma StepKeepsAccounts(h: History, e: Event)
    requires Accounted(h) && Enabled(h, e)
    ensures Accounted(After(h, e))
  {
    match e
    case Tick(t) =>
    case Add(n) => AddingKeepsAccounts(h, n);
    case Delete(n) => DeletionKeepsAccounts(h, n);
    case Fire(n) => FiringKeepsAccounts(h, n);
    case Discard(n) => DiscardKeepsAccounts(h, n);
  }

  /** The events of a run, the last one outermost. */
  datatype Trace = Start | Then(before: Trace, e: Event)

  const START := History([], multiset{}, {}, [], [], 0)

  function AfterAll(tr: Trace): History {
    match tr
    case Start => START
    case Then(before, e) => After(AfterAll(before), e)
  }

  ghost predicate IsRun(tr: Trace) {
    tr.Start? || (IsRun(tr.before) && Enabled(AfterAll(tr.before), tr.e))
  }

  /** Over any run, every timer is accounted for. */
  lemma {:induction false} EveryRunIsAccounted(tr: Trace)
    requires IsRun(tr)
    ensures Accounted(AfterAll(tr))
  {
    if tr.Then? {
      EveryRunIsAccounted(tr.before);
      StepKeepsAccounts(AfterAll(tr.before), tr.e);
    }
  }

  /** Over any run, a timer leaves the heap at most once, and is never both fired and discarded. */
  lemma LeavesAtMostOnce(tr: Trace, n: TimerNode)
    requires IsRun(tr)
    ensures var h := AfterAll(tr);
      h.pending[n] + multiset(Nodes(h.fired))[n] + multiset(h.discarded)[n] <= 1
  {
    EveryRunIsAccounted(tr);
    var h := AfterAll(tr);
    AddedOnce(h.added, n);
    assert multiset(h.added)[n] == (h.pending + multiset(Nodes(h.fired)) + multiset(h.discarded))[n];
  }

  // ---------- the timer queue ----------

  ghost predicate Live(h: History, n: TimerNode) {
    n in h.pending && n !in h.deleted
  }

  /** n is a live timer due no later than any other live one. */
  ghost predicate NextDue(h: History, n: TimerNode) {
    Live(h, n) && forall m :: Live(h, m) ==> n.key <= m.key
  }

  /** The firings from position k on are in key order. */
  ghost predicate InKeyOrder(fired: seq<Firing>, k: nat) {
    forall i, j :: k <= i < j < |fired| ==> fired[i].node.key <= fired[j].node.key
  }

  ghost predicate Monotone(clock: nat -> nat) {
    forall i: nat, j: nat :: i <= j ==> clock(i) <= clock(j)
  }

  class TimerQueue {
    const pq: Queue<TimerNode>
    const clock: nat -> nat  // what the successive gettimeofday calls answer, in ms
    var ticks: nat
    var currentMsec: nat
    var deleted: set<TimerNode>  // nodes whose `deleted` field is 1
    var timerOf: map<nat, TimerNode>  // rq->timer
    var nextId: nat
    var fired: seq<Firing>
    ghost var added: seq<TimerNode>
    ghost var discarded: seq<TimerNode>
    ghost var trace: Trace

    ghost function View(): History
      reads this, pq, pq.queue
      requires pq.Shaped()
    {
      History(added, pq.Contents(), deleted, fired, discarded, currentMsec)
    }

    /** The heap is in order and the state is what the events so far lead to. */
    ghost predicate Valid()
      reads this, pq, pq.queue
    {
      && pq.Valid() && pq.comp == Earlier()
      && Monotone(clock) && currentMsec <= clock(ticks)
      && (forall i :: 0 <= i < |added| ==> added[i].id < nextId)
      && IsRun(trace) && AfterAll(trace) == View()
    }

    /** Whatever was called so far, every timer is accounted for. */
    lemma ValidIsAccounted()
      requires Valid()
      ensures Accounted(View())
    {
      EveryRunIsAccounted(trace);
    }

    /** st_timer_init. */
    constructor (clock: nat -> nat)
      requires Monotone(clock)
      ensures Valid() && fresh(pq) && fresh(pq.queue) && this.clock == clock
      ensures View() == START.(now := clock(0))
    {
      EarlierIsStrictWeakOrder();
      this.clock := clock;
      var q := new Queue<TimerNode>(Earlier(), PQ_DEFAULT_SIZE);
      pq := q;
      ticks, currentMsec := 1, clock(0);
      deleted, timerOf, nextId := {}, map[], 0;
      added, fired, discarded := [], [], [];
      trace := Then(Start, Tick(clock(0)));
      assert IsRun(Start);
    }

    method TimeUpdate()
      requires Valid()
      modifies this`currentMsec, this`ticks, this`trace
      ensures Valid() && trace == Then(old(trace), Tick(currentMsec))
      ensures currentMsec == clock(old(ticks)) && ticks == old(ticks) + 1
      ensures View() == old(View()).(now := currentMsec)
    {
      hide HeapOrdered, Elements, StrictWeakOrder;
      currentMsec := clock(ticks);
      trace := Then(trace, Tick(currentMsec));
      ticks := ticks + 1;
    }

    /** The heap's minimum: a node that no pending one precedes. */
    method MinNode() returns (r: Option<TimerNode>)
      requires Valid()
      ensures r.None? <==> View().pending == multiset{}
      ensures r.Some? ==> pq.nAlloc >= 1 && r.value == pq.queue[1] && r.value in View().pending
      ensures r.Some? ==> forall m :: m in View().pending ==> r.value.key <= m.key
    {
      r := pq.Min();
      if r.Some? {
        forall m | m in View().pending ensures r.value.key <= m.key {
          assert !pq.comp(m, r.value);
        }
      }
    }

    /** The current time is a reading of the clock that was made since. */
    ghost predicate ReadSince(before: nat)
      reads this
    {
      before < ticks && currentMsec == clock(ticks - 1)
    }

    /** A loop that starts with timers in the heap reads the clock; with an empty one it does nothing. */
    ghost predicate ClockWasRead(h: History, before: nat, was: nat)
      reads this
    {
      if h.pending == multiset{} then ticks == before && currentMsec == was else ReadSince(before)
    }

    /** Takes the minimum out of the heap and frees it, after its deletion. */
    method DropDeleted(n: TimerNode)
      requires Valid() && pq.nAlloc >= 1 && n == pq.queue[1] && n in deleted
      modifies this`discarded, this`trace, pq, pq.queue
      ensures Valid() && (pq.queue == old(pq.queue) || fresh(pq.queue))
      ensures trace == Then(old(trace), Discard(n))
      ensures n in old(View()).pending && View() == Discarded(old(View()), n)
    {
      hide HeapOrdered, Elements, StrictWeakOrder;
      ghost var h := View();
      var rc := pq.DeleteMin();
      discarded := discarded + [n];
      trace := Then(trace, Discard(n));
      assert View() == After(h, Discard(n));
    }

    /** Calls the handler, then takes the minimum out of the heap and frees it. */
    method FireMin(n: TimerNode)
      requires Valid() && pq.nAlloc >= 1 && n == pq.queue[1] && n !in deleted && n.key <= currentMsec
      modifies this`fired, this`trace, pq, pq.queue
      ensures Valid() && (pq.queue == old(pq.queue) || fresh(pq.queue))
      ensures trace == Then(old(trace), Fire(n))
      ensures n in old(View()).pending && View() == Fired(old(View()), n)
    {
      hide HeapOrdered, Elements, StrictWeakOrder;
      ghost var h := View();
      var called := false;
      if n.handler { called := true; }
      var rc := pq.DeleteMin();
      fired := fired + [Firing(n, currentMsec, called)];
      trace := Then(trace, Fire(n));
      assert View() == After(h, Fire(n));
    }

    /** The clock is read, then the minimum is looked at. */
    method NextNode() returns (node: TimerNode)
      requires Valid() && View().pending != multiset{}
      modifies this`currentMsec, this`ticks, this`trace
      ensures Valid() && trace == Then(old(trace), Tick(currentMsec))
      ensures ticks == old(ticks) + 1 && currentMsec == clock(old(ticks))
      ensures View() == old(View()).(now := currentMsec)
      ensures pq.nAlloc >= 1 && node == pq.queue[1] && Foremost(View(), node)
    {
      hide HeapOrdered, Elements, StrictWeakOrder;
      TimeUpdate();
      var top := MinNode();
      node := top.value;
    }

    /** One turn of st_find_timer's loop. */
    method FindStep() returns (time: int, done: bool)
      requires Valid() && View().pending != multiset{}
      modifies this`currentMsec, this`ticks, this`discarded, this`trace, pq, pq.queue
      ensures Valid() && (pq.queue == old(pq.queue) || fresh(pq.queue))
      ensures SameLive(old(View()), View()) && View().pending <= old(View()).pending
      ensures ticks == old(ticks) + 1 && currentMsec == clock(old(ticks))
      ensures done ==> exists n :: NextDue(View(), n) && time == Remaining(n.key, currentMsec)
      ensures !done ==> |View().pending| < |old(View()).pending|
    {
      hide HeapOrdered, Elements, StrictWeakOrder;
      var node := NextNode();
      ghost var h := View();
      if node !in deleted {
        time := IntDifference(node.key, currentMsec);
        time := if time > 0 then time else 0;
        ForemostLiveIsNext(h, node);
        return time, true;
      }
      DropDeleted(node);
      DiscardKeepsLive(h, node);
      return ST_TIMER_INFINITE, false;
    }

    /** The remaining time is that of a reading of the clock made in the call. */
    method FindTimer() returns (time: int)
      requires Valid()
      modifies this`currentMsec, this`ticks, this`discarded, this`trace, pq, pq.queue
      ensures Valid() && (pq.queue == old(pq.queue) || fresh(pq.queue))
      ensures SameLive(old(View()), View())
      ensures time == ST_TIMER_INFINITE <==> forall n :: !Live(View(), n)
      ensures time != ST_TIMER_INFINITE ==>
        exists n :: NextDue(View(), n) && time == Remaining(n.key, currentMsec)
      ensures ClockWasRead(old(View()), old(ticks), old(currentMsec))
    {
      hide HeapOrdered, Elements, StrictWeakOrder;
      time := ST_TIMER_INFINITE;
      var empty := pq.IsEmpty();
      while empty == 0
        invariant Valid() && (pq.queue == old(pq.queue) || fresh(pq.queue))
        invariant SameLive(old(View()), View())
        invariant time == ST_TIMER_INFINITE && View().pending <= old(View()).pending
        invariant if ticks == old(ticks) then View() == old(View()) else ReadSince(old(ticks))
        invariant old(View()).pending == multiset{} ==> ticks == old(ticks)
        invariant empty != 0 <==> View().pending == multiset{}
        decreases |View().pending|
      {
        var t, done := FindStep();
        if done { return t; }
        empty := pq.IsEmpty();
      }
    }

    /** One turn of st_handle_expire_timers' loop. */
    method ExpireStep(ghost k: nat) returns (done: bool)
      requires Valid() && View().pending != multiset{}
      requires FiredInOrder(View(), k)
      modifies this`currentMsec, this`ticks, this`discarded, this`fired, this`trace, pq, pq.queue
      ensures Valid() && (pq.queue == old(pq.queue) || fresh(pq.queue))
      ensures old(fired) <= fired && FiredInOrder(View(), k)
      ensures ticks == old(ticks) + 1 && currentMsec == clock(old(ticks))
      ensures done ==> NothingDue(View())
      ensures !done ==> |View().pending| < |old(View()).pending|
    {
      hide HeapOrdered, Elements, StrictWeakOrder;
      ghost var h0 := View();
      var node := NextNode();
      ghost var h := View();
      OrderKept(h0, currentMsec, node, k);
      OrderKept(h, currentMsec, node, k);
      if node in deleted {
        DropDeleted(node);
        return false;
      }
      if node.key > currentMsec { return true; }
      FireMin(node);
      return false;
    }

    /** Fires what is due by the last reading of the clock, which is made in the call. */
    method HandleExpireTimers()
      requires Valid()
      modifies this`currentMsec, this`ticks, this`discarded, this`fired, this`trace, pq, pq.queue
      ensures Valid() && (pq.queue == old(pq.queue) || fresh(pq.queue))
      ensures old(fired) <= fired && InKeyOrder(fired, |old(fired)|)
      ensures NothingDue(View())
      ensures ClockWasRead(old(View()), old(ticks), old(currentMsec))
    {
      hide HeapOrdered, Elements, StrictWeakOrder;
      ghost var k := |fired|;
      var empty := pq.IsEmpty();
      while empty == 0
        invariant Valid() && (pq.queue == old(pq.queue) || fresh(pq.queue))
        invariant old(fired) <= fired && FiredInOrder(View(), k)
        invariant if ticks == old(ticks) then View() == old(View()) else ReadSince(old(ticks))
        invariant old(View()).pending == multiset{} ==> ticks == old(ticks)
        invariant empty != 0 <==> View().pending == multiset{}
        decreases |View().pending|
      {
        var done := ExpireStep(k);
        if done { return; }
        empty := pq.IsEmpty();
      }
    }

    method AddTimer(rq: nat, timeout: nat, handler: bool) returns (node: TimerNode)
      requires Valid()
      modifies this`currentMsec, this`ticks, this`timerOf, this`nextId, this`added, this`trace, pq, pq.queue
      ensures Valid() && (pq.queue == old(pq.queue) || fresh(pq.queue))
      ensures node == TimerNode(old(nextId), (currentMsec + timeout) % TWO64, rq, handler)
      ensures ticks == old(ticks) + 1 && currentMsec == clock(old(ticks)) && timerOf == old(timerOf)[rq := node]
      ensures trace == Then(Then(old(trace), Tick(currentMsec)), Add(node))
      ensures View() == AddedNode(old(View()).(now := currentMsec), node)
    {
      hide HeapOrdered, Elements, StrictWeakOrder, Valid, View, AddedNode;
      TimeUpdate();
      node := TimerNode(nextId, (currentMsec + timeout) % TWO64, rq, handler);
      Attach(rq, node);
      InsertNode(node);
    }

    /** The request's pointer to its timer. */
    method Attach(rq: nat, node: TimerNode)
      requires Valid()
      modifies this`timerOf
      ensures Valid() && View() == old(View()) && timerOf == old(timerOf)[rq := node]
    {
      hide HeapOrdered, Elements, StrictWeakOrder;
      timerOf := timerOf[rq := node];
    }

    method InsertNode(node: TimerNode)
      requires Valid() && node.id == nextId
      modifies this`nextId, this`added, this`trace, pq, pq.queue
      ensures Valid() && (pq.queue == old(pq.queue) || fresh(pq.queue))
      ensures trace == Then(old(trace), Add(node)) && View() == AddedNode(old(View()), node)
    {
      hide HeapOrdered, Elements, StrictWeakOrder;
      nextId := nextId + 1;
      trace := Then(trace, Add(node));
      added := added + [node];
      var rc := pq.Add(node);
    }

    /** The request's timer must still be in the heap: its node is freed when it leaves. */
    method DelTimer(rq: nat)
      requires Valid() && rq in timerOf && timerOf[rq] in View().pending
      modifies this`currentMsec, this`ticks, this`deleted, this`trace
      ensures Valid() && deleted == old(deleted) + {timerOf[rq]}
      ensures ticks == old(ticks) + 1 && currentMsec == clock(old(ticks))
      ensures trace == Then(Then(old(trace), Tick(currentMsec)), Delete(timerOf[rq]))
      ensures View() == Deleted(old(View()).(now := currentMsec), timerOf[rq])
    {
      hide HeapOrdered, Elements, StrictWeakOrder;
      TimeUpdate();
      trace := Then(trace, Delete(timerOf[rq]));
      deleted := deleted + {timerOf[rq]};
    }
  }

  ghost predicate SameLive(h: History, h': History) {
    h'.deleted == h.deleted && forall n :: Live(h', n) <==> Live(h, n)
  }

  ghost predicate NothingDue(h: History) {
    forall n :: n in h.pending ==> n.key > h.now
  }

  /** n is in the heap and nothing in it has a lesser key. */
  ghost predicate Foremost(h: History, n: TimerNode) {
    n in h.pending && forall m :: m in h.pending ==> n.key <= m.key
  }

  /** What was fired from position k on is in key order, and due no later than what is still pending. */
  ghost predicate FiredInOrder(h: History, k: nat) {
    && k <= |h.fired| && InKeyOrder(h.fired, k)
    && forall i, n :: k <= i < |h.fired| && n in h.pending ==> h.fired[i].node.key <= n.key
  }

  lemma ForemostLiveIsNext(h: History, n: TimerNode)
    requires Foremost(h, n) && n !in h.deleted
    ensures NextDue(h, n) && Live(h, n)
  {
  }

  lemma DiscardKeepsLive(h: History, n: TimerNode)
    requires n in h.deleted
    ensures SameLive(h, Discarded(h, n))
  {
  }

  lemma OrderKept(h: History, now: nat, n: TimerNode, k: nat)
    requires FiredInOrder(h, k)
    ensures FiredInOrder(h.(now := now), k)
    ensures FiredInOrder(Discarded(h, n), k)
    ensures Foremost(h, n) ==> FiredInOrder(Fired(h, n), k)
  {
    if Foremost(h, n) { FiringKeepsOrder(h, n, k); }
    hide Foremost, InKeyOrder, Fired;
  }

  lemma FiringKeepsOrder(h: History, n: TimerNode, k: nat)
    requires FiredInOrder(h, k) && Foremost(h, n)
    ensures FiredInOrder(Fired(h, n), k)
  {
  }
}
