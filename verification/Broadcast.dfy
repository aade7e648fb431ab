/**
 The select server of version 1.4 of the 2048 game: a slot table, a growing count of clients, and one loop that
 reads every ready client and sends what it said to the others.
 */
module Broadcast {
  import opened Shared

  const FD_SETSIZE := 1024
  const STDIN := 0

  type Bytes = seq<nat>

  /** A slot: the client's number and its descriptor, both -1 when it is free. */
  datatype Slot = Slot(id: int, fd: int)

  const FREE := Slot(-1, -1)

  type Table = seq<Slot>

  datatype Answer = ReadError | EndOfFile | Data(bytes: Bytes)

  datatype Event = DidRead(fd: int) | Wrote(fd: int, bytes: Bytes) | Closed(fd: int) | Refused(fd: int)

  predicate Taken(s: Slot) { s.fd != -1 }

  // ---------- one pass of handle, as a function ----------

  /** What is written when slot i has said something: to every slot below the count with another number. */
  function Sends(t: Table, i: nat, clients: nat, bytes: Bytes): seq<Event>
    requires i < |t| && clients <= |t|
    decreases clients
  {
    if clients == 0 then []
    else Sends(t, i, clients - 1, bytes)
         + (if t[clients - 1].id != t[i].id then [Wrote(t[clients - 1].fd, bytes)] else [])
  }

  /** The slot is read in this pass. */
  predicate Ready(t: Table, i: nat, rset: set<int>)
    requires i < |t|
  {
    Taken(t[i]) && t[i].fd in rset
  }

  function EventsAt(t: Table, i: nat, clients: nat, rset: set<int>, read: int -> Answer): seq<Event>
    requires i < |t| && clients <= |t|
  {
    if !Ready(t, i, rset) then []
    else match read(t[i].fd)
      case Data(bytes) => [DidRead(t[i].fd)] + Sends(t, i, clients, bytes)
      case _ => [DidRead(t[i].fd), Closed(t[i].fd)]
  }

  /** The table after slot i has been handled: freed if its client failed or is gone. */
  function TableAfter(t: Table, i: nat, rset: set<int>, read: int -> Answer): (r: Table)
    requires i < |t|
    ensures |r| == |t|
  {
    if Ready(t, i, rset) && !read(t[i].fd).Data? then t[i := FREE] else t
  }

  /** The table before slot n is handled. */
  function TableBefore(t: Table, n: nat, rset: set<int>, read: int -> Answer): (r: Table)
    requires n <= |t|
    ensures |r| == |t|
  {
    if n == 0 then t else TableAfter(TableBefore(t, n - 1, rset, read), n - 1, rset, read)
  }

  /** All events of the first n slots. */
  function PassEvents(t: Table, n: nat, clients: nat, rset: set<int>, read: int -> Answer): seq<Event>
    requires n <= |t| && clients <= |t|
  {
    if n == 0 then []
    else PassEvents(t, n - 1, clients, rset, read) + EventsAt(TableBefore(t, n - 1, rset, read), n - 1, clients,
        rset, read)
  }

  // ---------- what the table keeps ----------

  /** Clients are below the count and below maxfd, with descriptors and numbers of their own. */
  ghost predicate GoodTable(t: Table, clients: nat, last: int, maxfd: int) {
    && |t| == FD_SETSIZE
    && (forall i :: 0 <= i < |t| && Taken(t[i]) ==>
          i < clients && i < maxfd && 0 <= t[i].fd <= maxfd && 0 <= t[i].id <= last)
    && (forall i :: 0 <= i < |t| && !Taken(t[i]) ==> t[i] == FREE)
    && (forall i, j :: 0 <= i < j < |t| && Taken(t[i]) && Taken(t[j]) ==> t[i].fd != t[j].fd && t[i].id != t[j].id)
  }

  /** The watched descriptors: the listening one, standard input, the clients'. */
  ghost predicate GoodSet(t: Table, allset: set<int>, listenfd: int) {
    && listenfd in allset && STDIN in allset
    && (forall i :: 0 <= i < |t| && Taken(t[i]) ==> t[i].fd in allset && t[i].fd != listenfd && t[i].fd != STDIN)
    && (forall f :: f in allset ==>
          f == listenfd || f == STDIN || exists i :: 0 <= i < |t| && Taken(t[i]) && t[i].fd == f)
  }

  function UpTo(m: nat): (r: set<int>)
    ensures |r| == m + 1 && forall f :: f in r <==> 0 <= f <= m
  {
    if m == 0 then {0} else UpTo(m - 1) + {m}
  }

  predicate Distinct(s: seq<int>) { forall i, j :: 0 <= i < j < |s| ==> s[i] != s[j] }

  lemma {:induction false} DistinctCount(s: seq<int>)
    requires Distinct(s)
    ensures |set f | f in s| == |s|
  {
    if s != [] {
      var last := |s| - 1;
      DistinctCount(s[..last]);
      assert (set f | f in s) == (set f | f in s[..last]) + {s[last]};
    }
  }

  /** Pigeonhole: so many different descriptors need a large one. */
  lemma ManyNeedALargeOne(s: seq<int>, m: nat)
    requires Distinct(s) && forall i :: 0 <= i < |s| ==> 0 <= s[i] <= m
    ensures |s| <= m + 1
  {
    DistinctCount(s);
    SubsetIsSmaller((set f | f in s), UpTo(m));
  }

  lemma SubsetIsSmaller(a: set<int>, b: set<int>)
    requires a <= b
    ensures |a| <= |b|
  {
    assert a + (b - a) == b;
  }

  /** A client in the first free slot: the slot's number is below the new maxfd, because every slot before it and the
      listening socket hold descriptors of their own. */
  lemma FirstFreeIsBelowMaxfd(t: Table, i: nat, clients: nat, last: int, maxfd: nat, listenfd: int, connfd: int,
      maxfd': nat)
    requires GoodTable(t, clients, last, maxfd) && i < |t|
    requires forall j :: 0 <= j < i ==> Taken(t[j]) && t[j].fd != listenfd
    requires 0 <= listenfd <= maxfd <= maxfd' && 0 <= connfd <= maxfd' && connfd != listenfd
    requires forall j :: 0 <= j < |t| && Taken(t[j]) ==> t[j].fd != connfd
    ensures i < maxfd'
  {
    var fds := seq(i, j requires 0 <= j < i => t[j].fd) + [listenfd, connfd];
    assert fds[i] == listenfd && fds[i + 1] == connfd;
    assert forall j :: 0 <= j < i ==> fds[j] == t[j].fd;
    ManyNeedALargeOne(fds, maxfd');
  }

  /** The new client keeps the table good. */
  lemma AddKeepsGood(t: Table, i: nat, clients: nat, last: int, maxfd: int, connfd: int, maxfd': int)
    requires GoodTable(t, clients, last, maxfd) && i < |t| && !Taken(t[i])
    requires forall j :: 0 <= j < i ==> Taken(t[j])
    requires i < maxfd' && maxfd <= maxfd' && 0 <= connfd <= maxfd' && last >= -1
    requires forall j :: 0 <= j < |t| && Taken(t[j]) ==> t[j].fd != connfd
    ensures GoodTable(t[i := Slot(last + 1, connfd)], clients + 1, last + 1, maxfd')
  {
    assert i == 0 || Taken(t[i - 1]);
  }

  lemma TableAfterKeepsGood(t: Table, i: nat, clients: nat, last: int, maxfd: int, rset: set<int>, read: int -> Answer)
    requires GoodTable(t, clients, last, maxfd) && i < |t|
    ensures GoodTable(TableAfter(t, i, rset, read), clients, last, maxfd)
  {
  }

  lemma {:induction false} TableBeforeKeepsGood(t: Table, n: nat, clients: nat, last: int, maxfd: int,
      rset: set<int>, read: int -> Answer)
    requires GoodTable(t, clients, last, maxfd) && n <= |t|
    ensures GoodTable(TableBefore(t, n, rset, read), clients, last, maxfd)
    ensures forall j :: n <= j < |t| ==> TableBefore(t, n, rset, read)[j] == t[j]
    ensures forall j :: 0 <= j < n ==>
      TableBefore(t, n, rset, read)[j] == if Ready(t, j, rset) && !read(t[j].fd).Data? then FREE else t[j]
  {
    hide GoodTable;
    if n > 0 {
      TableBeforeKeepsGood(t, n - 1, clients, last, maxfd, rset, read);
      TableAfterKeepsGood(TableBefore(t, n - 1, rset, read), n - 1, clients, last, maxfd, rset, read);
    }
  }

  // ---------- every message reaches every other client once ----------

  function CountOf(e: Event, es: seq<Event>): nat {
    if es == [] then 0 else (if es[0] == e then 1 else 0) + CountOf(e, es[1..])
  }

  lemma {:induction false} CountOfConcat(e: Event, a: seq<Event>, b: seq<Event>)
    ensures CountOf(e, a + b) == CountOf(e, a) + CountOf(e, b)
  {
    if a == [] {
      assert a + b == b;
    } else {
      assert (a + b)[1..] == a[1..] + b;
      CountOfConcat(e, a[1..], b);
    }
  }

  /** Among the first `clients` slots: one write to each other client, none to the speaker, nothing else. */
  lemma {:induction false} SendsCount(t: Table, i: nat, clients: nat, all: nat, last: int, maxfd: int, bytes: Bytes,
      e: Event)
    requires GoodTable(t, all, last, maxfd) && i < |t| && Taken(t[i]) && clients <= |t|
    requires e.DidRead? || e.Closed? || e.fd >= 0
    ensures CountOf(e, Sends(t, i, clients, bytes)) ==
      if e.Wrote? && e.bytes == bytes
         && exists j :: 0 <= j < clients && j != i && Taken(t[j]) && t[j].fd == e.fd then 1 else 0
  {
    if clients > 0 {
      var j := clients - 1;
      SendsCount(t, i, j, all, last, maxfd, bytes, e);
      var more := if t[j].id != t[i].id then [Wrote(t[j].fd, bytes)] else [];
      CountOfConcat(e, Sends(t, i, j, bytes), more);
    }
  }

  /** In a pass: what ready client i says goes once to each client still connected, and not back to it. */
  lemma MessageReachesTheOthers(t: Table, i: nat, j: nat, clients: nat, last: int, maxfd: int, rset: set<int>,
                                read: int -> Answer, bytes: Bytes)
    requires GoodTable(t, clients, last, maxfd) && clients <= |t| && i < |t| && j < |t|
    requires Ready(t, i, rset) && read(t[i].fd) == Data(bytes) && Taken(t[j])
    ensures var now := TableBefore(t, i, rset, read);
      CountOf(Wrote(t[j].fd, bytes), EventsAt(now, i, clients, rset, read)) == if j != i && Taken(now[j]) then 1 else 0
    ensures j < i ==> (Taken(TableBefore(t, i, rset, read)[j]) <==> !Ready(t, j, rset) || read(t[j].fd).Data?)
    ensures j >= i ==> Taken(TableBefore(t, i, rset, read)[j])
  {
    var now := TableBefore(t, i, rset, read);
    TableBeforeKeepsGood(t, i, clients, last, maxfd, rset, read);
    hide TableBefore;
    assert now[j] == t[j] || now[j] == FREE;
    SendsCount(now, i, clients, clients, last, maxfd, bytes, Wrote(t[j].fd, bytes));
    CountOfConcat(Wrote(t[j].fd, bytes), [DidRead(t[i].fd)], Sends(now, i, clients, bytes));
    StillDistinct(t, now, i, j, clients, last, maxfd);
    hide Sends, GoodTable;
  }

  /** Slot j gets what slot i says: another ready client said it, and j has not been closed earlier in the pass. */
  predicate Hears(t: Table, i: nat, j: nat, rset: set<int>, read: int -> Answer, bytes: Bytes)
    requires i < |t| && j < |t|
  {
    i != j && Ready(t, i, rset) && read(t[i].fd) == Data(bytes) &&
    (j < i && Ready(t, j, rset) ==> read(t[j].fd).Data?)
  }

  /** How many of the first n slots say these bytes to slot j. */
  function Speakers(t: Table, n: nat, j: nat, rset: set<int>, read: int -> Answer, bytes: Bytes): nat
    requires n <= |t| && j < |t|
  {
    if n == 0 then 0
    else Speakers(t, n - 1, j, rset, read, bytes) + (if Hears(t, n - 1, j, rset, read, bytes) then 1 else 0)
  }

  /** What one slot adds. */
  lemma SaidAt(t: Table, i: nat, j: nat, clients: nat, last: int, maxfd: int, rset: set<int>, read: int -> Answer,
      bytes: Bytes)
    requires GoodTable(t, clients, last, maxfd) && clients <= |t| && i < |t| && j < |t| && Taken(t[j])
    ensures CountOf(Wrote(t[j].fd, bytes), EventsAt(TableBefore(t, i, rset, read), i, clients, rset, read))
            == if Hears(t, i, j, rset, read, bytes) then 1 else 0
  {
    var now := TableBefore(t, i, rset, read);
    var e := Wrote(t[j].fd, bytes);
    TableBeforeKeepsGood(t, i, clients, last, maxfd, rset, read);
    assert now[i] == t[i];
    EventsOf(now, i, clients, rset, read);
    FdsAreNotNegative(t, clients, last, maxfd);
    if Ready(t, i, rset) && read(t[i].fd) == Data(bytes) {
      MessageReachesTheOthers(t, i, j, clients, last, maxfd, rset, read, bytes);
    } else if Ready(t, i, rset) && read(t[i].fd).Data? {
      hide TableBefore, EventsAt, Sends;
      SendsCount(now, i, clients, clients, last, maxfd, read(t[i].fd).bytes, e);
      CountOfConcat(e, [DidRead(t[i].fd)], Sends(now, i, clients, read(t[i].fd).bytes));
    } else if Ready(t, i, rset) {
      CountOfConcat(e, [DidRead(t[i].fd)], [Closed(t[i].fd)]);
    }
  }

  /** Over a whole pass: each client gets every message exactly as often as the others say it, up to its own end. */
  lemma {:induction false} EveryMessageIsDelivered(t: Table, n: nat, j: nat, clients: nat, last: int, maxfd: int,
      rset: set<int>, read: int -> Answer, bytes: Bytes)
    requires GoodTable(t, clients, last, maxfd) && n <= |t| && clients <= |t| && j < |t| && Taken(t[j])
    ensures CountOf(Wrote(t[j].fd, bytes), PassEvents(t, n, clients, rset, read))
            == Speakers(t, n, j, rset, read, bytes)
  {
    hide GoodTable, TableBefore, EventsAt, Hears;
    if n > 0 {
      EveryMessageIsDelivered(t, n - 1, j, clients, last, maxfd, rset, read, bytes);
      SaidAt(t, n - 1, j, clients, last, maxfd, rset, read, bytes);
      PassStep(t, n - 1, clients, rset, read);
      hide PassEvents, CountOf;
      CountOfConcat(Wrote(t[j].fd, bytes), PassEvents(t, n - 1, clients, rset, read),
                    EventsAt(TableBefore(t, n - 1, rset, read), n - 1, clients, rset, read));
    }
  }

  /** A descriptor that no client holds gets nothing. */
  lemma {:induction false} NobodyElseIsTold(t: Table, n: nat, clients: nat, last: int, maxfd: int, rset: set<int>,
      read: int -> Answer, fd: int, bytes: Bytes)
    requires GoodTable(t, clients, last, maxfd) && n <= |t| && clients <= |t| && fd >= 0
    requires forall j :: 0 <= j < |t| && Taken(t[j]) ==> t[j].fd != fd
    ensures CountOf(Wrote(fd, bytes), PassEvents(t, n, clients, rset, read)) == 0
  {
    hide GoodTable, TableBefore, EventsAt;
    if n > 0 {
      NobodyElseIsTold(t, n - 1, clients, last, maxfd, rset, read, fd, bytes);
      NobodyElseAt(t, n - 1, clients, last, maxfd, rset, read, fd, bytes);
      PassStep(t, n - 1, clients, rset, read);
      hide PassEvents, CountOf;
      CountOfConcat(Wrote(fd, bytes), PassEvents(t, n - 1, clients, rset, read),
                    EventsAt(TableBefore(t, n - 1, rset, read), n - 1, clients, rset, read));
    }
  }

  lemma NobodyElseAt(t: Table, i: nat, clients: nat, last: int, maxfd: int, rset: set<int>, read: int -> Answer,
      fd: int, bytes: Bytes)
    requires GoodTable(t, clients, last, maxfd) && clients <= |t| && i < |t| && fd >= 0
    requires forall j :: 0 <= j < |t| && Taken(t[j]) ==> t[j].fd != fd
    ensures CountOf(Wrote(fd, bytes), EventsAt(TableBefore(t, i, rset, read), i, clients, rset, read)) == 0
  {
    var now := TableBefore(t, i, rset, read);
    var e := Wrote(fd, bytes);
    TableBeforeKeepsGood(t, i, clients, last, maxfd, rset, read);
    assert now[i] == t[i] && forall j :: 0 <= j < |t| ==> now[j] == t[j] || now[j] == FREE;
    EventsOf(now, i, clients, rset, read);
    if Ready(t, i, rset) && read(t[i].fd).Data? {
      hide TableBefore, EventsAt, Sends;
      SendsCount(now, i, clients, clients, last, maxfd, read(t[i].fd).bytes, e);
      CountOfConcat(e, [DidRead(t[i].fd)], Sends(now, i, clients, read(t[i].fd).bytes));
    } else if Ready(t, i, rset) {
      CountOfConcat(e, [DidRead(t[i].fd)], [Closed(t[i].fd)]);
    }
  }

  /** A pass in which no client is ready does nothing. */
  lemma {:induction false} NobodyReady(t: Table, n: nat, clients: nat, rset: set<int>, read: int -> Answer)
    requires n <= |t| && clients <= |t| && forall i :: 0 <= i < |t| ==> !Ready(t, i, rset)
    ensures TableBefore(t, n, rset, read) == t && PassEvents(t, n, clients, rset, read) == []
  {
    if n > 0 { NobodyReady(t, n - 1, clients, rset, read); }
  }

  lemma StillDistinct(t: Table, now: Table, i: nat, j: nat, clients: nat, last: int, maxfd: int)
    requires GoodTable(t, clients, last, maxfd) && GoodTable(now, clients, last, maxfd)
    requires forall k :: 0 <= k < |t| ==> now[k] == t[k] || now[k] == FREE
    requires clients <= |t| && i < |t| && j < |t| && Taken(t[j])
    ensures (exists k :: 0 <= k < clients && k != i && Taken(now[k]) && now[k].fd == t[j].fd)
            <==> j != i && Taken(now[j])
  {
  }

  /** Slot i's events hold one read of its client if that is ready, and no other reads. */
  lemma ReadsAt(t: Table, i: nat, clients: nat, last: int, maxfd: int, rset: set<int>, read: int -> Answer, fd: int)
    requires GoodTable(t, clients, last, maxfd) && clients <= |t| && i < |t|
    ensures CountOf(DidRead(fd), EventsAt(t, i, clients, rset, read))
            == if Ready(t, i, rset) && t[i].fd == fd then 1 else 0
  {
    if Ready(t, i, rset) {
      match read(t[i].fd)
      case Data(bytes) =>
        SendsCount(t, i, clients, clients, last, maxfd, bytes, DidRead(fd));
        CountOfConcat(DidRead(fd), [DidRead(t[i].fd)], Sends(t, i, clients, bytes));
      case _ =>
        assert [DidRead(t[i].fd), Closed(t[i].fd)] == [DidRead(t[i].fd)] + [Closed(t[i].fd)];
        CountOfConcat(DidRead(fd), [DidRead(t[i].fd)], [Closed(t[i].fd)]);
    }
  }

  /** No ready client is skipped, none is read twice, and nobody else is read. */
  lemma {:induction false} ReadyClientsAreRead(t: Table, n: nat, clients: nat, last: int, maxfd: int, rset: set<int>,
                                               read: int -> Answer, fd: int)
    requires GoodTable(t, clients, last, maxfd) && n <= |t| && clients <= |t|
    ensures CountOf(DidRead(fd), PassEvents(t, n, clients, rset, read))
            == if exists i :: 0 <= i < n && Ready(t, i, rset) && t[i].fd == fd then 1 else 0
  {
    hide GoodTable, TableBefore, EventsAt, TableAfter;
    if n > 0 {
      var before := TableBefore(t, n - 1, rset, read);
      ReadyClientsAreRead(t, n - 1, clients, last, maxfd, rset, read, fd);
      TableBeforeKeepsGood(t, n - 1, clients, last, maxfd, rset, read);
      ReadsAt(before, n - 1, clients, last, maxfd, rset, read, fd);
      assert before[n - 1] == t[n - 1];
      PassStep(t, n - 1, clients, rset, read);
      hide PassEvents, CountOf;
      CountOfConcat(DidRead(fd), PassEvents(t, n - 1, clients, rset, read),
                    EventsAt(before, n - 1, clients, rset, read));
      OnlySlot(t, n - 1, clients, last, maxfd, rset, fd);
    }
  }

  /** Whether a descriptor is ready among the first slots, one slot more. */
  lemma OnlySlot(t: Table, i: nat, clients: nat, last: int, maxfd: int, rset: set<int>, fd: int)
    requires GoodTable(t, clients, last, maxfd) && i < |t|
    ensures Ready(t, i, rset) && t[i].fd == fd ==> !exists j :: 0 <= j < i && Ready(t, j, rset) && t[j].fd == fd
    ensures (exists j :: 0 <= j < i + 1 && Ready(t, j, rset) && t[j].fd == fd)
            <==> (exists j :: 0 <= j < i && Ready(t, j, rset) && t[j].fd == fd) || (Ready(t, i, rset) && t[i].fd == fd)
  {
  }

  // ---------- every admitted client is connected or has been closed ----------

  function TakenCount(t: Table): nat {
    if t == [] then 0 else (if Taken(t[0]) then 1 else 0) + TakenCount(t[1..])
  }

  function ClosedCount(es: seq<Event>): nat {
    if es == [] then 0 else (if es[0].Closed? then 1 else 0) + ClosedCount(es[1..])
  }

  lemma {:induction false} TakenCountUpdate(t: Table, i: nat, x: Slot)
    requires i < |t|
    ensures TakenCount(t[i := x]) + (if Taken(t[i]) then 1 else 0) == TakenCount(t) + (if Taken(x) then 1 else 0)
  {
    if i == 0 {
      assert t[i := x][1..] == t[1..];
    } else {
      assert t[i := x][1..] == t[1..][i - 1 := x];
      TakenCountUpdate(t[1..], i - 1, x);
    }
  }

  lemma {:induction false} NoneTaken(t: Table)
    requires forall i :: 0 <= i < |t| ==> !Taken(t[i])
    ensures TakenCount(t) == 0
  {
    if t != [] { NoneTaken(t[1..]); }
  }

  lemma {:induction false} ClosedCountConcat(a: seq<Event>, b: seq<Event>)
    ensures ClosedCount(a + b) == ClosedCount(a) + ClosedCount(b)
  {
    if a == [] {
      assert a + b == b;
    } else {
      assert (a + b)[1..] == a[1..] + b;
      ClosedCountConcat(a[1..], b);
    }
  }

  lemma RefusedClosesNobody(es: seq<Event>, fd: int)
    ensures ClosedCount(es + [Refused(fd)]) == ClosedCount(es)
  {
    ClosedCountConcat(es, [Refused(fd)]);
  }

  lemma {:induction false} SendsCloseNobody(t: Table, i: nat, clients: nat, bytes: Bytes)
    requires i < |t| && clients <= |t|
    ensures ClosedCount(Sends(t, i, clients, bytes)) == 0
  {
    if clients > 0 {
      SendsCloseNobody(t, i, clients - 1, bytes);
      var more := if t[clients - 1].id != t[i].id then [Wrote(t[clients - 1].fd, bytes)] else [];
      ClosedCountConcat(Sends(t, i, clients - 1, bytes), more);
    }
  }

  lemma SlotBooks(t: Table, i: nat, clients: nat, rset: set<int>, read: int -> Answer)
    requires i < |t| && clients <= |t|
    ensures ClosedCount(EventsAt(t, i, clients, rset, read)) + TakenCount(TableAfter(t, i, rset, read)) == TakenCount(t)
  {
    EventsOf(t, i, clients, rset, read);
    hide EventsAt, TableAfter, Sends, TakenCount;
    if Ready(t, i, rset) {
      match read(t[i].fd)
      case Data(bytes) =>
        SendsCloseNobody(t, i, clients, bytes);
        ClosedCountConcat([DidRead(t[i].fd)], Sends(t, i, clients, bytes));
      case _ =>
        TakenCountUpdate(t, i, FREE);
        ClosedCountConcat([DidRead(t[i].fd)], [Closed(t[i].fd)]);
    }
  }

  /** A pass closes exactly the clients that are no longer in the table behind it. */
  lemma {:induction false} PassBooks(t: Table, n: nat, clients: nat, rset: set<int>, read: int -> Answer)
    requires n <= |t| && clients <= |t|
    ensures ClosedCount(PassEvents(t, n, clients, rset, read)) + TakenCount(TableBefore(t, n, rset, read))
            == TakenCount(t)
  {
    hide EventsAt, TableAfter, TakenCount;
    if n > 0 {
      PassBooks(t, n - 1, clients, rset, read);
      PassStep(t, n - 1, clients, rset, read);
      hide PassEvents, TableBefore;
      SlotBooks(TableBefore(t, n - 1, rset, read), n - 1, clients, rset, read);
      ClosedCountConcat(PassEvents(t, n - 1, clients, rset, read),
                        EventsAt(TableBefore(t, n - 1, rset, read), n - 1, clients, rset, read));
    }
  }

  // ---------- the server ----------

  function FirstFree(t: Table): (i: nat)
    ensures i <= |t| && (i < |t| ==> !Taken(t[i])) && forall j :: 0 <= j < i ==> Taken(t[j])
  {
    if t == [] || !Taken(t[0]) then 0 else 1 + FirstFree(t[1..])
  }

  lemma FirstFreeIs(t: Table, i: nat)
    requires i <= |t| && (i < |t| ==> !Taken(t[i])) && forall j :: 0 <= j < i ==> Taken(t[j])
    ensures FirstFree(t) == i
  {
    hide FirstFree;
    var k := FirstFree(t);
    assert k < |t| ==> !Taken(t[k]);
  }

  lemma FdsAreNotNegative(t: Table, clients: nat, last: int, maxfd: int)
    requires GoodTable(t, clients, last, maxfd)
    ensures forall i :: 0 <= i < |t| ==> (Taken(t[i]) <==> t[i].fd >= 0)
  {
  }

  lemma FreshDescriptor(t: Table, allset: set<int>, listenfd: int, connfd: int)
    requires GoodSet(t, allset, listenfd) && connfd !in allset
    ensures connfd != listenfd
    ensures forall j :: 0 <= j < |t| && Taken(t[j]) ==> t[j].fd != connfd && t[j].fd != listenfd
  {
  }

  class Server {
    const slots: array<Slot>
    const listenfd: int
    var currentClients: nat
    var clientIndex: int
    var maxfd: int
    var allset: set<int>
    ghost var log: seq<Event>

    ghost predicate Valid()
      reads this, slots
    {
      && slots.Length == FD_SETSIZE
      && STDIN < listenfd <= maxfd < FD_SETSIZE && clientIndex == currentClients - 1
      && GoodTable(slots[..], currentClients, clientIndex, maxfd)
      && GoodSet(slots[..], allset, listenfd)
    }

    constructor (listenfd: int)
      requires STDIN < listenfd < FD_SETSIZE
      ensures Valid() && Books() && this.listenfd == listenfd && currentClients == 0 && log == []
      ensures allset == {listenfd, STDIN} && forall i :: 0 <= i < slots.Length ==> slots[i] == FREE
    {
      slots := new Slot[FD_SETSIZE](_ => FREE);
      this.listenfd, currentClients, clientIndex, maxfd := listenfd, 0, -1, listenfd;
      allset, log := {listenfd, STDIN}, [];
      new;
      NoneTaken(slots[..]);
    }

    /** The clients ever admitted are those connected and those closed. */
    ghost predicate Books()
      reads this, slots
    {
      currentClients == TakenCount(slots[..]) + ClosedCount(log)
    }

    /** A new client goes to the first free slot, or is turned away when there is none. Clients that leave are not
        counted back: the count is the number of clients ever admitted. */
    method Accept(connfd: int) returns (accepted: bool)
      requires Valid() && 0 <= connfd < FD_SETSIZE && connfd !in allset
      modifies this, slots
      ensures Valid()
      ensures accepted <==> FirstFree(old(slots[..])) != FD_SETSIZE
      ensures accepted ==> FirstFree(old(slots[..])) < FD_SETSIZE
      ensures accepted ==> slots[..] == old(slots[..])[FirstFree(old(slots[..])) := Slot(old(currentClients), connfd)]
      ensures accepted ==> currentClients == old(currentClients) + 1
      ensures accepted ==> allset == old(allset) + {connfd} && log == old(log)
      ensures !accepted ==> slots[..] == old(slots[..]) && currentClients == old(currentClients)
      ensures !accepted ==> allset == old(allset) && log == old(log) + [Refused(connfd)]
      ensures old(Books()) ==> Books()
    {
      hide GoodTable, GoodSet, FirstFree, TakenCount, ClosedCount;
      ghost var t := slots[..];
      FdsAreNotNegative(t, currentClients, clientIndex, maxfd);
      var i := 0;
      while i < FD_SETSIZE && slots[i].fd >= 0
        invariant 0 <= i <= FD_SETSIZE
        invariant forall j :: 0 <= j < i ==> Taken(t[j])
      {
        i := i + 1;
      }
      FirstFreeIs(t, i);
      if i == FD_SETSIZE {
        RefusedClosesNobody(log, connfd);
        log := log + [Refused(connfd)];
        return false;
      }
      var maxfd' := if connfd > maxfd then connfd else maxfd;
      FreshDescriptor(t, allset, listenfd, connfd);
      FirstFreeIsBelowMaxfd(t, i, currentClients, clientIndex, maxfd, listenfd, connfd, maxfd');
      TakenCountUpdate(t, i, Slot(clientIndex + 1, connfd));
      AddKeepsGood(t, i, currentClients, clientIndex, maxfd, connfd, maxfd');
      AddKeepsSet(t, i, allset, listenfd, clientIndex + 1, connfd);
      clientIndex := clientIndex + 1;
      slots[i] := Slot(clientIndex, connfd);
      currentClients := currentClients + 1;
      maxfd := maxfd';
      allset := allset + {connfd};
      assert slots[..] == t[i := Slot(clientIndex, connfd)];
      return true;
    }

    method Record(e: Event)
      modifies this`log
      ensures old(Valid()) ==> Valid()
      ensures log == old(log) + [e]
    {
      log := log + [e];
    }

    /** The writes to the others. */
    method SendToOthers(i: nat, bytes: Bytes)
      requires slots.Length == FD_SETSIZE && i < FD_SETSIZE && currentClients <= FD_SETSIZE
      modifies this`log
      ensures old(Valid()) ==> Valid()
      ensures log == old(log) + Sends(slots[..], i, currentClients, bytes)
    {
      var j := 0;
      while j < currentClients
        invariant 0 <= j <= currentClients
        invariant log == old(log) + Sends(slots[..], i, j, bytes)
      {
        if slots[j].id != slots[i].id { log := log + [Wrote(slots[j].fd, bytes)]; }
        j := j + 1;
      }
    }

    /** A client that failed or is gone frees its slot; the count stays. */
    method CloseSlot(i: nat)
      requires Valid() && i < FD_SETSIZE && Taken(slots[i])
      modifies this`allset, this`log, slots
      ensures Valid() && slots[..] == old(slots[..])[i := FREE] && log == old(log) + [Closed(old(slots[i].fd))]
    {
      ghost var t := slots[..];
      RemoveKeepsTable(t, i, currentClients, clientIndex, maxfd);
      RemoveKeepsSet(t, i, allset, listenfd, currentClients, clientIndex, maxfd);
      hide GoodTable, GoodSet;
      log := log + [Closed(slots[i].fd)];
      allset := allset - {slots[i].fd};
      slots[i] := FREE;
      assert slots[..] == t[i := FREE];
    }

    lemma ValidFacts()
      requires Valid()
      ensures slots.Length == FD_SETSIZE && 0 <= maxfd < FD_SETSIZE
      ensures GoodTable(slots[..], currentClients, clientIndex, maxfd)
    {
    }

    /** handle at one slot. */
    method HandleSlot(i: nat, rset: set<int>, read: int -> Answer)
      requires Valid() && i < maxfd && currentClients <= FD_SETSIZE
      modifies this`allset, this`log, slots
      ensures slots.Length == FD_SETSIZE && currentClients <= FD_SETSIZE && i < FD_SETSIZE
      ensures Valid() && slots[..] == TableAfter(old(slots[..]), i, rset, read)
      ensures log == old(log) + EventsAt(old(slots[..]), i, currentClients, rset, read)
    {
      ValidFacts();
      hide Valid, GoodTable, Sends, TableAfter, EventsAt;
      EventsOf(slots[..], i, currentClients, rset, read);
      ghost var start, t := log, slots[..];
      if slots[i].fd != -1 && slots[i].fd in rset {
        var fd := slots[i].fd;
        Record(DidRead(fd));
        match read(fd) {
          case Data(bytes) =>
            Assoc(start, [DidRead(fd)], Sends(t, i, currentClients, bytes));
            SendToOthers(i, bytes);
          case _ =>
            Assoc(start, [DidRead(fd)], [Closed(fd)]);
            CloseSlot(i);
        }
      }
    }

    /** handle: one pass over the slots below maxfd. What is said is written to the slots below the count, so the
        count must not have passed the table. */
    method Handle(rset: set<int>, read: int -> Answer)
      requires Valid() && currentClients <= FD_SETSIZE
      modifies this`allset, this`log, slots
      ensures slots.Length == FD_SETSIZE && currentClients <= FD_SETSIZE
      ensures Valid() && slots[..] == TableBefore(old(slots[..]), FD_SETSIZE, rset, read)
      ensures log == old(log) + PassEvents(old(slots[..]), FD_SETSIZE, currentClients, rset, read)
    {
      ValidFacts();
      hide Valid, GoodTable, TableAfter, EventsAt, TableBefore, PassEvents;
      ghost var t, start := slots[..], log;
      PassStart(t, currentClients, rset, read);
      var i := 0;
      while i < maxfd
        invariant 0 <= i <= maxfd && Valid()
        invariant slots[..] == TableBefore(t, i, rset, read)
        invariant log == start + PassEvents(t, i, currentClients, rset, read)
        modifies this`allset, this`log, slots
      {
        ghost var now := slots[..];
        PassStep(t, i, currentClients, rset, read);
        Assoc(start, PassEvents(t, i, currentClients, rset, read), EventsAt(now, i, currentClients, rset, read));
        HandleSlot(i, rset, read);
        i := i + 1;
      }
      NothingAboveMaxfd(t, maxfd, FD_SETSIZE, currentClients, clientIndex, maxfd, rset, read);
    }

    /** Says whether a client is left, against its name. */
    method IsAllClientsClosed() returns (left: bool)
      requires Valid() && currentClients <= FD_SETSIZE
      ensures left <==> exists i :: 0 <= i < slots.Length && Taken(slots[i])
    {
      var i := 0;
      while i < currentClients
        invariant 0 <= i <= currentClients
        invariant forall j :: 0 <= j < i ==> !Taken(slots[j])
      {
        if slots[i].fd != -1 { return true; }
        i := i + 1;
      }
      assert forall j :: 0 <= j < slots.Length && Taken(slots[..][j]) ==> j < currentClients;
      return false;
    }

    /** handle and the test behind it. */
    method Pass(ready: set<int>, read: int -> Answer) returns (running: bool)
      requires Valid() && currentClients <= FD_SETSIZE && ready <= allset
      modifies this`allset, this`log, slots
      ensures Valid() && (old(Books()) ==> Books())
      ensures old(log) <= log
      ensures Served(old(slots[..]), log[|old(log)|..], slots[..], currentClients, listenfd, ready, read, running)
    {
      hide GoodTable, GoodSet, CountOf, TableBefore, PassEvents, Speakers, TakenCount, ClosedCount;
      ghost var t, start := slots[..], log;
      ghost var now := PassEvents(t, FD_SETSIZE, currentClients, ready, read);
      PassFacts(t, currentClients, clientIndex, maxfd, allset, listenfd, ready, read);
      PassBooks(t, FD_SETSIZE, currentClients, ready, read);
      ClosedCountConcat(start, now);
      Handle(ready, read);
      assert log[|start|..] == now;
      running := IsAllClientsClosed();
    }

    /** One turn of main's loop: what select found ready, the accepted descriptor or -1, the key typed, what read
        finds. A failed accept or a full table postpones the clients to the next turn; else each ready one is read
        once, and every client, the new one too, gets what the others say. */
    method Turn(ready: set<int>, connfd: int, key: int, read: int -> Answer) returns (running: bool)
      requires Valid() && currentClients <= FD_SETSIZE && ready <= allset
      requires listenfd in ready && connfd >= 0 ==>
        connfd < FD_SETSIZE && connfd !in allset && (currentClients < FD_SETSIZE || FirstFree(slots[..]) == FD_SETSIZE)
      modifies this, slots
      ensures Valid() && old(log) <= log && (old(Books()) ==> Books())
      ensures currentClients <= FD_SETSIZE
      ensures Took(listenfd, ready, connfd, key, read,
                   Moment(old(slots[..]), old(currentClients), old(allset), log[|old(log)|..], slots[..],
                          currentClients, running))
    {
      hide GoodTable, GoodSet, FirstFree, Books, Served, TableBefore, PassEvents;
      ghost var start, t0 := log, slots[..];
      var nready := |ready|;
      if listenfd in ready {
        if connfd < 0 {
          assert log[|start|..] == [];
          return true;
        }
        var accepted := Accept(connfd);
        if !accepted {
          assert log[|start|..] == [Refused(connfd)];
          return true;
        }
        nready := nready - 1;
        assert log[|start|..] == [];
        if nready <= 0 {
          OnlyOne(ready, listenfd);
          assert Taken(slots[..][FirstFree(t0)]);
          NobodyServed(slots[..], currentClients, clientIndex, maxfd, allset, listenfd, ready, read, FirstFree(t0));
          return true;
        }
      }
      assert log[|start|..] == [];
      if STDIN in ready && (key == 113 || key == 81) { return false; }
      ValidFacts();
      running := Pass(ready, read);
    }

    /** One more client would be admitted than the count can hold. */
    predicate Overflows(input: Input)
      reads this, slots
    {
      listenfd in input.ready * allset && Accepted(input, allset) >= 0 && currentClients == FD_SETSIZE
      && FirstFree(slots[..]) < FD_SETSIZE
    }

    /** A turn with what the outside has for it. */
    method TakeTurn(input: Input) returns (running: bool, ghost m: Moment)
      requires Valid() && currentClients <= FD_SETSIZE && !Overflows(input)
      modifies this, slots
      ensures Valid() && currentClients <= FD_SETSIZE && (old(Books()) ==> Books())
      ensures log == old(log) + m.segment && TookInput(listenfd, input, m)
      ensures m.before == old(slots[..]) && m.clients == old(currentClients) && m.watched == old(allset)
      ensures m.after == slots[..] && m.clientsAfter == currentClients && m.running == running
    {
      hide GoodTable, GoodSet, FirstFree, Books, Took;
      ValidFacts();
      ghost var t, clients, watched, start := slots[..], currentClients, allset, log;
      running := Turn(input.ready * allset, Accepted(input, allset), input.key, input.read);
      m := Moment(t, clients, watched, log[|start|..], slots[..], currentClients, running);
    }

    /** Any number of turns, with whatever the outside does: select reports watched descriptors, and accept gives a
        new one or fails. The new part of the log is what the turns did, one by one, each with its own input. The loop
        runs until it ends, the inputs are used up, or a client more than FD_SETSIZE in all would be admitted, because
        one that left has freed a slot. */
    method Serve(inputs: seq<Input>) returns (turns: nat, running: bool, ghost ms: seq<Moment>)
      requires Valid() && currentClients <= FD_SETSIZE
      modifies this, slots
      ensures Valid() && currentClients <= FD_SETSIZE && turns <= |inputs|
      ensures old(Books()) ==> Books()
      ensures |ms| == turns && log == old(log) + Flat(ms) && Linked(ms)
      ensures forall i :: 0 <= i < turns ==> TookInput(listenfd, inputs[i], ms[i])
      ensures turns > 0 ==> ms[0].before == old(slots[..]) && ms[0].clients == old(currentClients)
      ensures turns > 0 ==> ms[turns - 1].after == slots[..] && ms[turns - 1].running == running
      ensures turns == 0 ==> running && slots[..] == old(slots[..])
      ensures running && turns < |inputs| ==> Overflows(inputs[turns])
      ensures !running ==> turns > 0
      ensures !running ==>
        || Quits(inputs[turns - 1].ready, inputs[turns - 1].key)
        || forall i :: 0 <= i < |slots[..]| ==> !Taken(slots[..][i])
    {
      hide Valid, Books, TookInput, Flat, Accepted, FirstFree, Linked;
      EmptyRun();
      turns, running, ms := 0, true, [];
      assert log + [] == log;
      while turns < |inputs| && running
        invariant turns <= |inputs| && Valid() && currentClients <= FD_SETSIZE
        invariant old(Books()) ==> Books()
        invariant |ms| == turns && log == old(log) + Flat(ms) && Linked(ms)
        invariant forall i :: 0 <= i < turns ==> TookInput(listenfd, inputs[i], ms[i])
        invariant turns > 0 ==> ms[0].before == old(slots[..]) && ms[0].clients == old(currentClients)
        invariant turns > 0 ==> ms[turns - 1].after == slots[..] && ms[turns - 1].running == running
        invariant turns > 0 ==> ms[turns - 1].clientsAfter == currentClients
        invariant turns == 0 ==> running && slots[..] == old(slots[..]) && currentClients == old(currentClients)
        modifies this, slots
      {
        if Overflows(inputs[turns]) { return; }
        ghost var m;
        running, m := TakeTurn(inputs[turns]);
        Assoc(old(log), Flat(ms), m.segment);
        FlatSnoc(ms, m);
        LinkedSnoc(ms, m);
        ms := ms + [m];
        turns := turns + 1;
      }
      if !running { StopsBecause(listenfd, inputs[turns - 1], ms[turns - 1]); }
    }
  }

  /** What select, accept, fgetc and read have for one turn. */
  datatype Input = Input(ready: set<int>, connfd: int, key: int, read: int -> Answer)

  /** accept gives a descriptor that is not in use, and that select can watch, or fails. */
  function Accepted(input: Input, allset: set<int>): int {
    if 0 <= input.connfd < FD_SETSIZE && input.connfd !in allset then input.connfd else -1
  }

  /** One turn: the table, the count and the watched descriptors it starts with, what it logs, what it leaves. */
  datatype Moment = Moment(before: Table, clients: nat, watched: set<int>, segment: seq<Event>, after: Table,
                           clientsAfter: nat, running: bool)

  /** What the turns logged, in order. */
  ghost function Flat(ms: seq<Moment>): seq<Event> {
    if ms == [] then [] else Flat(ms[..|ms| - 1]) + ms[|ms| - 1].segment
  }

  lemma EmptyRun()
    ensures Flat([]) == [] && Linked([])
  {
  }

  lemma FlatSnoc(ms: seq<Moment>, m: Moment)
    ensures Flat(ms + [m]) == Flat(ms) + m.segment
  {
    assert (ms + [m])[..|ms|] == ms;
  }

  /** Each turn starts where the one before ended. */
  ghost predicate Linked(ms: seq<Moment>) {
    forall i, j :: 0 <= i && i + 1 == j < |ms| ==>
      ms[j].before == ms[i].after && ms[j].clients == ms[i].clientsAfter && ms[i].running
  }

  lemma LinkedSnoc(ms: seq<Moment>, m: Moment)
    requires Linked(ms)
    requires ms != [] ==>
      var p := ms[|ms| - 1]; m.before == p.after && m.clients == p.clientsAfter && p.running
    ensures Linked(ms + [m])
  {
  }

  /** The table a pass of this turn starts with, with the new client in it; None when the turn is postponed. */
  ghost function AtPass(listenfd: int, ready: set<int>, connfd: int, m: Moment): Option<Table> {
    if !(listenfd in ready) then Some(m.before)
    else if connfd < 0 || FirstFree(m.before) == |m.before| then None
    else Some(m.before[FirstFree(m.before) := Slot(m.clients, connfd)])
  }

  /** A turn that is neither postponed nor quit serves its table with its ready descriptors and their answers. */
  ghost predicate Took(listenfd: int, ready: set<int>, connfd: int, key: int, read: int -> Answer, m: Moment) {
    && |m.before| == FD_SETSIZE
    && match AtPass(listenfd, ready, connfd, m)
       case None =>
         && m.running && m.after == m.before && m.clientsAfter == m.clients
         && m.segment == if connfd < 0 then [] else [Refused(connfd)]
       case Some(t) =>
         && m.clientsAfter == m.clients + (if listenfd in ready then 1 else 0)
         && if QuitsNow(listenfd, ready, key) then !m.running && m.after == t && m.segment == []
            else Served(t, m.segment, m.after, m.clientsAfter, listenfd, ready, read, m.running)
  }

  ghost predicate TookInput(listenfd: int, input: Input, m: Moment) {
    Took(listenfd, input.ready * m.watched, Accepted(input, m.watched), input.key, input.read, m)
  }

  /** The key is looked at unless nothing but the listening socket was ready. */
  predicate QuitsNow(listenfd: int, ready: set<int>, key: int) {
    Quits(ready, key) && !(listenfd in ready && |ready| == 1)
  }

  lemma StopsBecause(listenfd: int, input: Input, m: Moment)
    requires TookInput(listenfd, input, m) && !m.running
    ensures Quits(input.ready, input.key) || forall i :: 0 <= i < |m.after| ==> !Taken(m.after[i])
  {
    hide Speakers, FirstFree, PassEvents, TableBefore, CountOf;
  }

  // ---------- over the run ----------

  /** How often descriptor fd is told these bytes in a pass over table t. */
  ghost function ToldIn(t: Table, ready: set<int>, read: int -> Answer, fd: int, bytes: Bytes): nat
    requires |t| == FD_SETSIZE
  {
    if j: nat :| j < |t| && Taken(t[j]) && t[j].fd == fd then Speakers(t, FD_SETSIZE, j, ready, read, bytes) else 0
  }

  /** ... and over the turns. */
  ghost function Told(listenfd: int, inputs: seq<Input>, ms: seq<Moment>, fd: int, bytes: Bytes): nat
    requires |ms| <= |inputs| && forall i :: 0 <= i < |ms| ==> TookInput(listenfd, inputs[i], ms[i])
  {
    if ms == [] then 0
    else
      var i := |ms| - 1;
      var ready := inputs[i].ready * ms[i].watched;
      assert TookInput(listenfd, inputs[i], ms[i]);
      Told(listenfd, inputs, ms[..i], fd, bytes)
      + match AtPass(listenfd, ready, Accepted(inputs[i], ms[i].watched), ms[i])
        case None => 0
        case Some(t) =>
          if QuitsNow(listenfd, ready, inputs[i].key) then 0 else ToldIn(t, ready, inputs[i].read, fd, bytes)
  }

  /** Over any run of the loop, whoever holds a descriptor gets each message exactly as often as the other clients
      said it while it was held, and no closed descriptor gets anything. */
  lemma {:induction false} EveryMessageReachesEveryone(listenfd: int, inputs: seq<Input>, ms: seq<Moment>, fd: int,
      bytes: Bytes)
    requires |ms| <= |inputs| && forall i :: 0 <= i < |ms| ==> TookInput(listenfd, inputs[i], ms[i])
    requires fd >= 0
    ensures CountOf(Wrote(fd, bytes), Flat(ms)) == Told(listenfd, inputs, ms, fd, bytes)
  {
    hide Speakers, ToldIn;
    if ms != [] {
      var i := |ms| - 1;
      EveryMessageReachesEveryone(listenfd, inputs, ms[..i], fd, bytes);
      CountOfConcat(Wrote(fd, bytes), Flat(ms[..i]), ms[i].segment);
      assert TookInput(listenfd, inputs[i], ms[i]);
      SegmentTells(listenfd, inputs[i], ms[i], fd, bytes);
    }
  }

  lemma SegmentTells(listenfd: int, input: Input, m: Moment, fd: int, bytes: Bytes)
    requires TookInput(listenfd, input, m) && fd >= 0
    ensures var ready := input.ready * m.watched;
      CountOf(Wrote(fd, bytes), m.segment) ==
        match AtPass(listenfd, ready, Accepted(input, m.watched), m)
        case None => 0
        case Some(t) => if QuitsNow(listenfd, ready, input.key) then 0 else ToldIn(t, ready, input.read, fd, bytes)
  {
    hide Speakers, FirstFree, QuitsNow, PassEvents, TableBefore;
  }

  predicate Quits(ready: set<int>, key: int) { STDIN in ready && (key == 113 || key == 81) }

  /** What a pass over all slots does: the table behind it, the events, each ready client read once, each message
      written to every client as often as the others say it, and whether a client is left. */
  ghost predicate Served(t: Table, now: seq<Event>, t': Table, clients: nat, listenfd: int, ready: set<int>,
                         read: int -> Answer, running: bool) {
    && |t| == FD_SETSIZE && clients <= FD_SETSIZE
    && t' == TableBefore(t, FD_SETSIZE, ready, read)
    && now == PassEvents(t, FD_SETSIZE, clients, ready, read)
    && (running <==> exists i :: 0 <= i < |t'| && Taken(t'[i]))
    && (forall fd :: fd in ready && fd != listenfd && fd != STDIN ==> CountOf(DidRead(fd), now) == 1)
    && (forall j, bytes :: 0 <= j < |t| && Taken(t[j]) ==>
          CountOf(Wrote(t[j].fd, bytes), now) == Speakers(t, FD_SETSIZE, j, ready, read, bytes))
    && (forall fd, bytes :: fd >= 0 && (forall j :: 0 <= j < |t| && Taken(t[j]) ==> t[j].fd != fd) ==>
          CountOf(Wrote(fd, bytes), now) == 0)
  }

  /** With nothing ready but the listening socket, a pass would do nothing. */
  lemma NobodyServed(t: Table, clients: nat, last: int, maxfd: int, allset: set<int>, listenfd: int, ready: set<int>,
      read: int -> Answer, i: nat)
    requires GoodTable(t, clients, last, maxfd) && GoodSet(t, allset, listenfd) && clients <= FD_SETSIZE
    requires (forall fd :: fd in ready ==> fd == listenfd) && i < |t| && Taken(t[i])
    ensures Served(t, [], t, clients, listenfd, ready, read, true)
  {
    ListenerIsNoClient(t, allset, listenfd);
    assert |t| == FD_SETSIZE && listenfd in allset;
    hide GoodTable, GoodSet, CountOf, PassEvents, TableBefore, Speakers;
    NobodyReady(t, FD_SETSIZE, clients, ready, read);
    PassFacts(t, clients, last, maxfd, allset, listenfd, ready, read);
  }

  /** What a pass over all slots does to the clients watched. */
  lemma PassFacts(t: Table, clients: nat, last: int, maxfd: int, allset: set<int>, listenfd: int, ready: set<int>,
      read: int -> Answer)
    requires GoodTable(t, clients, last, maxfd) && GoodSet(t, allset, listenfd)
    requires |t| == FD_SETSIZE && clients <= FD_SETSIZE && forall fd :: fd in ready ==> fd in allset
    ensures var now := PassEvents(t, FD_SETSIZE, clients, ready, read);
      && (forall fd :: fd in ready && fd != listenfd && fd != STDIN ==> CountOf(DidRead(fd), now) == 1)
      && (forall j, bytes :: 0 <= j < |t| && Taken(t[j]) ==>
            CountOf(Wrote(t[j].fd, bytes), now) == Speakers(t, FD_SETSIZE, j, ready, read, bytes))
      && (forall fd, bytes :: fd >= 0 && (forall j :: 0 <= j < |t| && Taken(t[j]) ==> t[j].fd != fd) ==>
            CountOf(Wrote(fd, bytes), now) == 0)
  {
    hide GoodTable, GoodSet, CountOf, PassEvents, Speakers;
    var now := PassEvents(t, FD_SETSIZE, clients, ready, read);
    forall fd | fd in ready && fd != listenfd && fd != STDIN
      ensures CountOf(DidRead(fd), now) == 1
    {
      WatchedIsTaken(t, allset, listenfd, fd);
      ReadyClientsAreRead(t, FD_SETSIZE, clients, last, maxfd, ready, read, fd);
    }
    forall j, bytes | 0 <= j < |t| && Taken(t[j])
      ensures CountOf(Wrote(t[j].fd, bytes), now) == Speakers(t, FD_SETSIZE, j, ready, read, bytes)
    {
      EveryMessageIsDelivered(t, FD_SETSIZE, j, clients, last, maxfd, ready, read, bytes);
    }
    forall fd, bytes | fd >= 0 && (forall j :: 0 <= j < |t| && Taken(t[j]) ==> t[j].fd != fd)
      ensures CountOf(Wrote(fd, bytes), now) == 0
    {
      NobodyElseIsTold(t, FD_SETSIZE, clients, last, maxfd, ready, read, fd, bytes);
    }
  }

  lemma ListenerIsNoClient(t: Table, allset: set<int>, listenfd: int)
    requires GoodSet(t, allset, listenfd)
    ensures forall i :: 0 <= i < |t| && Taken(t[i]) ==> t[i].fd != listenfd
  {
  }

  lemma OnlyOne(s: set<int>, x: int)
    requires x in s && |s| <= 1
    ensures forall y :: y in s ==> y == x
  {
    assert |s - {x}| == 0;
  }

  lemma WatchedIsTaken(t: Table, allset: set<int>, listenfd: int, fd: int)
    requires GoodSet(t, allset, listenfd) && fd in allset && fd != listenfd && fd != STDIN
    ensures exists i :: 0 <= i < |t| && Taken(t[i]) && t[i].fd == fd
  {
  }

  /** The events at one slot, case by case. */
  lemma EventsOf(t: Table, i: nat, clients: nat, rset: set<int>, read: int -> Answer)
    requires i < |t| && clients <= |t|
    ensures !Ready(t, i, rset) ==> EventsAt(t, i, clients, rset, read) == [] && TableAfter(t, i, rset, read) == t
    ensures Ready(t, i, rset) && !read(t[i].fd).Data? ==>
              EventsAt(t, i, clients, rset, read) == [DidRead(t[i].fd)] + [Closed(t[i].fd)]
              && TableAfter(t, i, rset, read) == t[i := FREE]
    ensures Ready(t, i, rset) && read(t[i].fd).Data? ==>
              EventsAt(t, i, clients, rset, read) == [DidRead(t[i].fd)] + Sends(t, i, clients, read(t[i].fd).bytes)
              && TableAfter(t, i, rset, read) == t
  {
  }

  lemma PassStart(t: Table, clients: nat, rset: set<int>, read: int -> Answer)
    requires clients <= |t|
    ensures TableBefore(t, 0, rset, read) == t && PassEvents(t, 0, clients, rset, read) == []
  {
  }

  lemma PassStep(t: Table, i: nat, clients: nat, rset: set<int>, read: int -> Answer)
    requires i < |t| && clients <= |t|
    ensures var now := TableBefore(t, i, rset, read);
      && TableBefore(t, i + 1, rset, read) == TableAfter(now, i, rset, read)
      && PassEvents(t, i + 1, clients, rset, read)
         == PassEvents(t, i, clients, rset, read) + EventsAt(now, i, clients, rset, read)
  {
  }

  lemma AddKeepsSet(t: Table, i: nat, allset: set<int>, listenfd: int, id: int, connfd: int)
    requires GoodSet(t, allset, listenfd) && i < |t| && !Taken(t[i]) && connfd !in allset && connfd >= 0
    ensures GoodSet(t[i := Slot(id, connfd)], allset + {connfd}, listenfd)
  {
    var t' := t[i := Slot(id, connfd)];
    forall f | f in allset + {connfd}
      ensures f == listenfd || f == STDIN || exists k :: 0 <= k < |t'| && Taken(t'[k]) && t'[k].fd == f
    {
      if f == connfd {
        assert t'[i].fd == f;
      } else if f != listenfd && f != STDIN {
        var k :| 0 <= k < |t| && Taken(t[k]) && t[k].fd == f;
        assert t'[k] == t[k];
      }
    }
  }

  lemma RemoveKeepsTable(t: Table, i: nat, clients: nat, last: int, maxfd: int)
    requires GoodTable(t, clients, last, maxfd) && i < |t|
    ensures GoodTable(t[i := FREE], clients, last, maxfd)
  {
  }

  lemma RemoveKeepsSet(t: Table, i: nat, allset: set<int>, listenfd: int, clients: nat, last: int, maxfd: int)
    requires GoodTable(t, clients, last, maxfd) && GoodSet(t, allset, listenfd) && i < |t| && Taken(t[i])
    ensures GoodSet(t[i := FREE], allset - {t[i].fd}, listenfd)
  {
    var t' := t[i := FREE];
    forall f | f in allset - {t[i].fd}
      ensures f == listenfd || f == STDIN || exists k :: 0 <= k < |t'| && Taken(t'[k]) && t'[k].fd == f
    {
      if f != listenfd && f != STDIN {
        var k :| 0 <= k < |t| && Taken(t[k]) && t[k].fd == f;
        assert t'[k] == t[k];
      }
    }
  }

  /** Stopping at maxfd misses nothing. */
  lemma {:induction false} NothingAboveMaxfd(t: Table, m: nat, n: nat, clients: nat, last: int, maxfd: int,
      rset: set<int>, read: int -> Answer)
    requires GoodTable(t, clients, last, maxfd) && 0 <= maxfd <= m <= n <= |t| && clients <= |t|
    ensures TableBefore(t, n, rset, read) == TableBefore(t, m, rset, read)
    ensures PassEvents(t, n, clients, rset, read) == PassEvents(t, m, clients, rset, read)
    decreases n
  {
    hide GoodTable, TableBefore, TableAfter, PassEvents, EventsAt;
    if m < n {
      NothingAboveMaxfd(t, m, n - 1, clients, last, maxfd, rset, read);
      TableBeforeKeepsGood(t, n - 1, clients, last, maxfd, rset, read);
      AboveMaxfdIsFree(TableBefore(t, n - 1, rset, read), n - 1, clients, last, maxfd);
      PassStep(t, n - 1, clients, rset, read);
      EventsOf(TableBefore(t, n - 1, rset, read), n - 1, clients, rset, read);
    }
  }

  lemma AboveMaxfdIsFree(t: Table, i: nat, clients: nat, last: int, maxfd: int)
    requires GoodTable(t, clients, last, maxfd) && maxfd <= i < |t|
    ensures !Taken(t[i])
  {
  }
}
