/** The intrusive circular list of headers, and the loop that handles and unlinks them. */
module HeaderList {
  import opened Shared

  /** A list node with the header it is embedded in; the list's head is a node whose header is not used. */
  class Node {
    var prev: Node
    var next: Node
    const key: string
    const value: string

    /** INIT_LIST_HEAD */
    constructor (key: string, value: string)
      ensures prev == this && next == this && this.key == key && this.value == value
    {
      prev, next := this, this;
      this.key, this.value := key, value;
    }
  }

  function Succ(n: nat, i: nat): nat { if i + 1 == n then 0 else i + 1 }

  ghost predicate Linked(ring: seq<Node>, i: nat)
    requires i < |ring|
    reads ring
  {
    var j := Succ(|ring|, i);
    ring[i].next == ring[j] && ring[j].prev == ring[i]
  }

  ghost predicate Distinct(ring: seq<Node>) {
    forall i, j :: 0 <= i < j < |ring| ==> ring[i] != ring[j]
  }

  /** ring[0] is the head; following next from it passes every node once and comes back, prev the other way. */
  ghost predicate Ring(ring: seq<Node>)
    reads ring
  {
    |ring| >= 1 && Distinct(ring) && forall i :: 0 <= i < |ring| ==> Linked(ring, i)
  }

  ghost function Inserted(ring: seq<Node>, k: nat, node: Node): seq<Node>
    requires k < |ring|
  {
    ring[..k + 1] + [node] + ring[k + 1..]
  }

  ghost function Without(ring: seq<Node>, k: nat): seq<Node>
    requires k < |ring|
  {
    ring[..k] + ring[k + 1..]
  }

  /** __list_add: between the neighbours prev and next, number k and its successor. */
  method AddBetween(node: Node, prev: Node, next: Node, ghost ring: seq<Node>, ghost k: nat)
    requires Ring(ring) && node !in ring && k < |ring| && prev == ring[k] && next == ring[Succ(|ring|, k)]
    modifies node, prev, next
    ensures Ring(Inserted(ring, k, node))
  {
    ghost var n, r := |ring|, Inserted(ring, k, node);
    assert forall i :: 0 <= i < n ==> Linked(ring, i);
    node.next := next;
    next.prev := node;
    prev.next := node;
    node.prev := prev;
    forall i | 0 <= i < |r| ensures Linked(r, i) {
      if i < k {
        assert old(Linked(ring, i));
      } else if i > k + 1 {
        assert old(Linked(ring, i - 1));
      }
    }
  }

  method ListAdd(node: Node, head: Node, ghost ring: seq<Node>)
    requires Ring(ring) && head == ring[0] && node !in ring
    modifies node, ring
    ensures Ring([head, node] + ring[1..])
  {
    assert Linked(ring, 0);
    AddBetween(node, head, head.next, ring, 0);
    assert Inserted(ring, 0, node) == [head, node] + ring[1..];
  }

  method ListAddTail(node: Node, head: Node, ghost ring: seq<Node>)
    requires Ring(ring) && head == ring[0] && node !in ring
    modifies node, ring
    ensures Ring(ring + [node])
  {
    assert Linked(ring, |ring| - 1);
    AddBetween(node, head.prev, head, ring, |ring| - 1);
    assert Inserted(ring, |ring| - 1, node) == ring + [node];
  }

  /** list_del: the neighbours are joined; the removed node keeps its own links. */
  method ListDel(entry: Node, ghost ring: seq<Node>, ghost k: nat)
    requires Ring(ring) && 1 <= k < |ring| && entry == ring[k]
    modifies Without(ring, k)
    ensures Ring(Without(ring, k))
    ensures entry.next == old(entry.next) && entry.prev == old(entry.prev)
  {
    ghost var n, r := |ring|, Without(ring, k);
    assert Linked(ring, k) && Linked(ring, k - 1);
    var prev, next := entry.prev, entry.next;
    assert prev == r[k - 1] && next == r[if k + 1 == n then 0 else k];
    prev.next := next;
    next.prev := prev;
    forall i | 0 <= i < |r| ensures Linked(r, i) {
      if i < k - 1 {
        assert old(Linked(ring, i));
      } else if i > k - 1 {
        assert old(Linked(ring, i + 1));
      }
    }
  }

  method ListEmpty(head: Node, ghost ring: seq<Node>) returns (empty: bool)
    requires Ring(ring) && head == ring[0]
    ensures empty <==> |ring| == 1
  {
    assert Linked(ring, 0) && Linked(ring, |ring| - 1);
    empty := head.next == head && head.prev == head;
  }

  // ---------- handling the headers ----------

  const ST_HTTP_NOT_MODIFIED := 304

  /** keep_alive, modified and status of the reply; modified is 1 until a date says otherwise. */
  datatype Reply = Reply(keepAlive: int, modified: int, status: int)

  datatype Handler = Ignore | Connection | IfModifiedSince

  /** The first entry of st_http_headers_in that the key matches: strncmp over the key's length, so a key
      matches every name it is a prefix of. */
  function HandlerFor(key: string): (r: Option<Handler>) {
    if key <= "Host" then Some(Ignore)
    else if key <= "Connection" then Some(Connection)
    else if key <= "If-Modified-Since" then Some(IfModifiedSince)
    else None
  }

  /** strncasecmp("keep-alive", value, |value|) == 0 */
  predicate SaysKeepAlive(value: string) {
    |value| <= 10 && forall i :: 0 <= i < |value| ==> Lower(value[i]) == "keep-alive"[i]
  }

  /** "keep-alive" in any letters, or any beginning of it, the empty one too. */
  lemma KeepAliveWords(n: nat)
    requires n <= 10
    ensures SaysKeepAlive("keep-alive"[..n]) && SaysKeepAlive("Keep-Alive"[..n]) && SaysKeepAlive("KEEP-ALIVE"[..n])
    ensures !SaysKeepAlive("close") && !SaysKeepAlive("keep-alive,")
  {
    assert Lower("close"[0]) != "keep-alive"[0];
  }

  /** What one header does to the reply. unmodified(date) tells whether the file has exactly that time. */
  function Handled(key: string, value: string, unmodified: string -> bool, r: Reply): Reply {
    match HandlerFor(key)
    case None => r
    case Some(Ignore) => r
    case Some(Connection) => if SaysKeepAlive(value) then r.(keepAlive := 1) else r
    case Some(IfModifiedSince) =>
      if unmodified(value) then r.(modified := 0, status := ST_HTTP_NOT_MODIFIED) else r
  }

  /** All headers handled, the first of the sequence first. */
  function AllHandled(headers: seq<(string, string)>, unmodified: string -> bool, r: Reply): Reply
    decreases |headers|
  {
    if headers == [] then r
    else AllHandled(headers[1..], unmodified, Handled(headers[0].0, headers[0].1, unmodified, r))
  }

  /** Which names the handlers answer to: a key that begins the name is enough, and the empty key is Host's. */
  lemma HandlersByName(key: string)
    ensures HandlerFor(key) == Some(Connection) <==> key != "" && key <= "Connection"
    ensures HandlerFor(key) == Some(IfModifiedSince) <==> key != "" && key <= "If-Modified-Since"
  {
    if key != "" && key <= "Connection" { assert key[0] == "Connection"[0]; }
    if key != "" && key <= "If-Modified-Since" { assert key[0] == "If-Modified-Since"[0]; }
    if key != "" && key <= "Host" { assert key[0] == "Host"[0]; }
  }

  /** The reply keeps the connection exactly when some Connection header asks for it, and is 304 exactly when
      some If-Modified-Since header has the file's time; the order of the headers is of no account. */
  lemma {:induction false} ReplyDependsOnContents(headers: seq<(string, string)>, unmodified: string -> bool, r: Reply)
    ensures var s := AllHandled(headers, unmodified, r);
      && s.keepAlive == (if exists h :: h in headers && h.0 != "" && h.0 <= "Connection" && SaysKeepAlive(h.1)
                         then 1 else r.keepAlive)
      && (if exists h :: h in headers && h.0 != "" && h.0 <= "If-Modified-Since" && unmodified(h.1)
          then s.modified == 0 && s.status == 304
          else s.modified == r.modified && s.status == r.status)
    decreases |headers|
  {
    if headers != [] {
      var h := headers[0];
      ReplyDependsOnContents(headers[1..], unmodified, Handled(h.0, h.1, unmodified, r));
      HandlersByName(h.0);
      assert headers == [h] + headers[1..];
      assert forall x :: x in headers <==> x == h || x in headers[1..];
      hide SaysKeepAlive, AllHandled, HandlerFor;
    }
  }

  ghost function Contents(nodes: seq<Node>): seq<(string, string)> {
    if nodes == [] then [] else [(nodes[0].key, nodes[0].value)] + Contents(nodes[1..])
  }

  lemma FirstHandled(nodes: seq<Node>, unmodified: string -> bool, r: Reply)
    requires nodes != []
    ensures AllHandled(Contents(nodes), unmodified, r)
         == AllHandled(Contents(nodes[1..]), unmodified, Handled(nodes[0].key, nodes[0].value, unmodified, r))
  {
    assert Contents(nodes)[1..] == Contents(nodes[1..]);
  }

  lemma NoneHandled(nodes: seq<Node>, unmodified: string -> bool, r: Reply)
    requires nodes == []
    ensures AllHandled(Contents(nodes), unmodified, r) == r
  {
  }

  /** What is left of the ring when the nodes below j are unlinked. */
  ghost function Left(ring: seq<Node>, j: nat): seq<Node>
    requires 1 <= j <= |ring|
  {
    [ring[0]] + ring[j..]
  }

  lemma LeftIsInRing(ring: seq<Node>, j: nat)
    requires 1 <= j <= |ring|
    ensures forall x :: x in Left(ring, j) ==> x in ring
  {
  }

  lemma LeftShrinks(ring: seq<Node>, j: nat)
    requires 1 <= j < |ring|
    ensures Without(Left(ring, j), 1) == Left(ring, j + 1)
    ensures forall x :: x in Without(Left(ring, j), 1) ==> x in ring
  {
    LeftIsInRing(ring, j + 1);
  }

  /** Unlinks and frees the node the loop stands on, the first of the list, and goes on through its own next pointer:
      a link of a freed node, which still holds what it held. */
  method UnlinkAndGoOn(pos: Node, ghost r: seq<Node>, ghost freed: set<Node>)
      returns (next: Node, ghost free: set<Node>, ghost late: bool)
    requires Ring(r) && |r| > 1 && pos == r[1]
    modifies Without(r, 1)
    ensures var w := Without(r, 1);
      Ring(w) && next == w[Succ(|w|, 0)]
    ensures free == freed + {pos} && late
  {
    assert Linked(r, 1);
    ListDel(pos, r, 1);
    free := freed + {pos};
    late := pos in free;
    next := pos.next;
  }

  /** st_http_handle_header: every header once, in list order, each unlinked and freed while the loop stands on it.
      The link of each is read once after that: `late` counts these reads. */
  method HandleHeaders(head: Node, unmodified: string -> bool, out: Reply, ghost ring: seq<Node>)
    returns (reply: Reply, ghost visited: seq<Node>, ghost freed: set<Node>, ghost late: nat)
    requires Ring(ring) && head == ring[0]
    modifies ring
    ensures visited == ring[1..] && freed == (set x | x in ring[1..]) && late == |ring| - 1
    ensures Ring([head])
    ensures reply == AllHandled(Contents(ring[1..]), unmodified, out)
  {
    hide Handled, SaysKeepAlive, Contents, AllHandled, Linked;
    reply, visited, freed, late := out, [], {}, 0;
    ghost var j := 1;
    assert Left(ring, 1) == ring;
    var pos := FirstNode(head, ring);
    while pos != head
      invariant 1 <= j <= |ring| && visited == ring[1..j] && freed == (set x | x in ring[1..j]) && late == j - 1
      invariant Ring(Left(ring, j)) && pos == Left(ring, j)[Succ(|Left(ring, j)|, 0)]
      invariant AllHandled(Contents(ring[j..]), unmodified, reply) == AllHandled(Contents(ring[1..]), unmodified, out)
      decreases |ring| - j
    {
      assert pos == ring[j];
      FirstHandled(ring[j..], unmodified, reply);
      reply := Handled(pos.key, pos.value, unmodified, reply);
      LeftShrinks(ring, j);
      visited := visited + [pos];
      ghost var stale;
      pos, freed, stale := UnlinkAndGoOn(pos, Left(ring, j), freed);
      assert ring[1..j + 1] == ring[1..j] + [ring[j]];
      if stale { late := late + 1; }
      assert ring[j..][1..] == ring[j + 1..];
      j := j + 1;
    }
    assert j == |ring|;
    NoneHandled(ring[j..], unmodified, reply);
    assert Left(ring, j) == [head];
  }

  method FirstNode(head: Node, ghost ring: seq<Node>) returns (pos: Node)
    requires Ring(ring) && head == ring[0]
    ensures pos == ring[Succ(|ring|, 0)]
  {
    assert Linked(ring, 0);
    pos := head.next;
  }

  // ---------- a run: headers come in one by one, then they are handled ----------

  /** The ring after i headers have come in. */
  lemma RingMembers(head: Node, nodes: seq<Node>, i: nat)
    requires i <= |nodes|
    ensures var ring := [head] + Reversed(nodes[..i]);
      |ring| == i + 1 && forall j :: 0 <= j < |ring| ==> ring[j] == if j == 0 then head else nodes[i - j]
  {
    forall j | 0 <= j < i ensures Reversed(nodes[..i])[j] == nodes[i - 1 - j] { ReversedAt(nodes[..i], j); }
  }

  lemma {:induction false} ReversedSnoc(nodes: seq<Node>, node: Node)
    ensures Reversed(nodes + [node]) == [node] + Reversed(nodes)
  {
    if nodes != [] {
      assert (nodes + [node])[1..] == nodes[1..] + [node];
      ReversedSnoc(nodes[1..], node);
    }
  }

  /** The header machine's list_add calls, in the order the headers arrive. */
  method AddAll(nodes: seq<Node>, head: Node)
    requires Ring([head]) && Distinct(nodes) && head !in nodes
    modifies nodes, head
    ensures Ring([head] + Reversed(nodes))
  {
    hide Ring, Reversed;
    var i := 0;
    NothingAdded(head);
    while i < |nodes|
      invariant 0 <= i <= |nodes| && Ring([head] + Reversed(nodes[..i]))
      modifies nodes, head
    {
      ghost var ring := [head] + Reversed(nodes[..i]);
      RingMembers(head, nodes, i);
      assert nodes[..i + 1] == nodes[..i] + [nodes[i]];
      ReversedSnoc(nodes[..i], nodes[i]);
      ListAdd(nodes[i], head, ring);
      assert [head, nodes[i]] + ring[1..] == [head] + ([nodes[i]] + Reversed(nodes[..i]));
      i := i + 1;
    }
    assert nodes[..|nodes|] == nodes;
  }

  lemma NothingAdded(head: Node)
    ensures [head] + Reversed([]) == [head]
  {
  }

  /** Headers added as they arrive are handled newest first, each exactly once, and the list is empty again. */
  method AddThenHandle(nodes: seq<Node>, head: Node, unmodified: string -> bool, out: Reply)
    returns (reply: Reply, ghost visited: seq<Node>, ghost late: nat)
    requires Ring([head]) && Distinct(nodes) && head !in nodes
    modifies nodes, head
    ensures visited == Reversed(nodes) && Ring([head]) && late == |nodes|
    ensures reply == AllHandled(Contents(Reversed(nodes)), unmodified, out)
  {
    hide Ring, AllHandled, Contents, Reversed;
    AddAll(nodes, head);
    RingMembers(head, nodes, |nodes|);
    assert nodes[..|nodes|] == nodes;
    ghost var ring := [head] + Reversed(nodes);
    assert ring[1..] == Reversed(nodes);
    ghost var freed;
    reply, visited, freed, late := HandleHeaders(head, unmodified, out, ring);
  }
}
