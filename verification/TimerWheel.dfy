/** The timer of skynet/skynet-src/skynet_timer.c over linked lists of nodes. Every method is
    one region under the lock, or is called in one. */
module TimerWheel {
  import opened TimerPlace

  datatype Event = Event(handle: nat, session: int)

  /** `timer_node` with its event. `deadline` is the expiry without the wrap at 2^32. */
  class Node {
    var next: Node?
    const isHead: bool
    const expire: nat
    const event: Event
    ghost const deadline: nat

    constructor (isHead: bool, expire: nat, event: Event, ghost deadline: nat)
      ensures next == null && this.isHead == isHead && this.expire == expire
      ensures this.event == event && this.deadline == deadline
    {
      this.isHead, this.expire, this.event, this.deadline := isHead, expire, event, deadline;
      next := null;
    }
  }

  /** `nodes` hangs together through `next`, and ends. */
  ghost predicate Chained(nodes: seq<Node>)
    reads nodes
  {
    && (forall i, j :: 0 <= i < j < |nodes| ==> nodes[i] != nodes[j])
    && (forall i :: 0 <= i < |nodes| - 1 ==> nodes[i].next == nodes[i + 1])
    && (nodes != [] ==> nodes[|nodes| - 1].next == null)
  }

  /** `link_list`: the head is a node of its own, and `tail` points to it when the list is
      empty. */
  class LinkList {
    const head: Node
    var tail: Node
    ghost var nodes: seq<Node>

    ghost predicate Valid()
      reads this, head, nodes
    {
      && head.isHead
      && (forall n :: n in nodes ==> !n.isHead)
      && Chained([head] + nodes)
      && tail == ([head] + nodes)[|nodes|]
    }

    constructor ()
      ensures Valid() && nodes == [] && fresh(head)
    {
      var h := new Node(true, 0, Event(0, 0), 0);
      head, tail, nodes := h, h, [];
    }

    /** `link_clear`: the first node of what was in the list */
    method Clear() returns (first: Node?)
      requires Valid()
      modifies this, head
      ensures Valid() && nodes == []
      ensures old(nodes) == [] ==> first == null
      ensures old(nodes) != [] ==> first == old(nodes)[0]
      ensures Chained(old(nodes))
    {
      ghost var all := [head] + nodes;
      first := head.next;
      assert nodes != [] ==> all[0].next == all[1];
      head.next := null;
      tail := head;
      forall i | 0 <= i < |nodes|
        ensures nodes[i] == all[i + 1]
      {
      }
      nodes := [];
    }

    /** `link` */
    method Link(node: Node)
      requires Valid() && !node.isHead && node !in nodes
      modifies this, head, nodes, node
      ensures Valid() && nodes == old(nodes) + [node]
      ensures forall n: Node :: n in old(nodes) && n != old(tail) ==> n.next == old(n.next)
    {
      ghost var all := [head] + nodes;
      tail.next := node;
      tail := node;
      node.next := null;
      nodes := nodes + [node];
      assert [head] + nodes == all + [node];
    }
  }

  /** The nodes due at deadline `d`, in order. */
  ghost function Select(nodes: seq<Node>, d: nat): seq<Node> {
    if nodes == [] then []
    else (if nodes[0].deadline == d then [nodes[0]] else []) + Select(nodes[1..], d)
  }

  lemma {:induction false} SelectConcat(a: seq<Node>, b: seq<Node>, d: nat)
    ensures Select(a + b, d) == Select(a, d) + Select(b, d)
  {
    if a == [] {
      assert a + b == b;
    } else {
      SelectConcat(a[1..], b, d);
      assert (a + b)[1..] == a[1..] + b && (a + b)[0] == a[0];
      var first := if a[0].deadline == d then [a[0]] else [];
      assert first + (Select(a[1..], d) + Select(b, d)) == (first + Select(a[1..], d)) + Select(b, d);
    }
  }

  lemma {:induction false} SelectNone(a: seq<Node>, d: nat)
    requires forall n :: n in a ==> n.deadline != d
    ensures Select(a, d) == []
  {
    if a != [] {
      SelectNone(a[1..], d);
    }
  }

  lemma {:induction false} SelectAll(a: seq<Node>, d: nat)
    requires forall n :: n in a ==> n.deadline == d
    ensures Select(a, d) == a
  {
    if a != [] {
      SelectAll(a[1..], d);
    }
  }

  /** The nodes not due at deadline `d`, in order. */
  ghost function Without(nodes: seq<Node>, d: nat): seq<Node> {
    if nodes == [] then []
    else (if nodes[0].deadline != d then [nodes[0]] else []) + Without(nodes[1..], d)
  }

  lemma {:induction false} SelectWithout(nodes: seq<Node>, d: nat, e: nat)
    ensures Select(Without(nodes, d), e) == if e == d then [] else Select(nodes, e)
  {
    if nodes != [] {
      SelectWithout(nodes[1..], d, e);
      SelectConcat(if nodes[0].deadline != d then [nodes[0]] else [], Without(nodes[1..], d), e);
    }
  }

  // ---- the wheel as values ----------------------------------------------------------

  /** A node that may be in the wheel when `now` ticks have passed. */
  ghost predicate NodeOk(n: Node, now: nat) {
    !n.isHead && n.expire == n.deadline % WRAP && now <= n.deadline < now + MAXDELAY
  }

  /** Every node in the lists is where `add_node` would put it now. The nodes of `rest` are on
      their way from one list to others. For each deadline, lists and `rest` together have the
      nodes in the order in which they were added. */
  ghost predicate Placed(lists: seq<seq<Node>>, rest: seq<Node>, pending: seq<Node>, now: nat) {
    && |lists| == LISTS
    && (forall k :: 0 <= k < LISTS ==> ListPlaced(lists[k], k, now))
    && (forall n :: n in rest ==> NodeOk(n, now))
    && (forall d: nat :: InOrder(lists, rest, pending, now, d))
  }

  ghost predicate ListPlaced(nodes: seq<Node>, k: nat, now: nat) {
    forall n :: n in nodes ==> NodeOk(n, now) && Place(n.expire, now % WRAP) == k
  }

  ghost predicate InOrder(lists: seq<seq<Node>>, rest: seq<Node>, pending: seq<Node>, now: nat, d: nat)
    requires |lists| == LISTS
  {
    Select(lists[Place(d % WRAP, now % WRAP)] + rest, d) == Select(pending, d)
  }

  ghost predicate After(nodes: seq<Node>, now: nat) {
    forall n :: n in nodes ==> n.deadline > now
  }

  ghost predicate AllAfter(lists: seq<seq<Node>>, now: nat) {
    forall k :: 0 <= k < |lists| ==> After(lists[k], now)
  }

  /** `add_node` puts the next node of `rest` in its place. */
  lemma PlaceOne(lists: seq<seq<Node>>, node: Node, rest: seq<Node>, pending: seq<Node>, now: nat)
    requires Placed(lists, [node] + rest, pending, now)
    ensures NodeOk(node, now) && |lists| == LISTS
    ensures var k := Place(node.expire, now % WRAP);
            Placed(lists[k := lists[k] + [node]], rest, pending, now)
  {
    assert ([node] + rest)[0] == node && node in [node] + rest && NodeOk(node, now);
    var k := Place(node.expire, now % WRAP);
    var lists1 := lists[k := lists[k] + [node]];
    forall n | n in rest
      ensures NodeOk(n, now)
    {
      assert n in [node] + rest;
    }
    assert ListPlaced(lists[k], k, now);
    forall d: nat
      ensures InOrder(lists1, rest, pending, now, d)
    {
      assert InOrder(lists, [node] + rest, pending, now, d);
      var p := Place(d % WRAP, now % WRAP);
      if p == k {
        assert lists[p] + ([node] + rest) == (lists[p] + [node]) + rest;
      } else {
        SelectConcat(lists[p], [node] + rest, d);
        SelectConcat([node], rest, d);
        SelectConcat(lists[p], rest, d);
      }
    }
  }

  /** The clock goes on, and the nodes of one list are taken out to be placed again. */
  lemma TickPlaced(lists: seq<seq<Node>>, pending: seq<Node>, now: nat)
    requires Placed(lists, [], pending, now) && AllAfter(lists, now)
    ensures var m := MovedList((now + 1) % WRAP);
            if m < 0 then Placed(lists, [], pending, now + 1)
            else Placed(lists[m := []], lists[m], pending, now + 1)
  {
    hide Place, MovedList;
    var m := MovedList((now + 1) % WRAP);
    var lists1 := if m < 0 then lists else lists[m := []];
    var rest := if m < 0 then [] else lists[m];
    forall k | 0 <= k < LISTS
      ensures k != m ==> ListPlaced(lists[k], k, now + 1)
      ensures forall n :: n in lists[k] ==> NodeOk(n, now + 1)
    {
      assert ListPlaced(lists[k], k, now) && After(lists[k], now);
      forall n | n in lists[k]
        ensures NodeOk(n, now + 1) && (k != m ==> Place(n.expire, (now + 1) % WRAP) == k)
      {
        PlaceKept(now, n.deadline);
      }
    }
    assert m >= 0 ==> ListPlaced([], m, now + 1);
    var next := now + 1;
    forall d: nat
      ensures InOrder(lists1, rest, pending, next, d)
    {
      TickInOrder(lists, pending, now, d);
    }
  }

  lemma TickInOrder(lists: seq<seq<Node>>, pending: seq<Node>, now: nat, d: nat)
    requires Placed(lists, [], pending, now) && AllAfter(lists, now)
    ensures var m := MovedList((now + 1) % WRAP);
            if m < 0 then InOrder(lists, [], pending, now + 1, d)
            else InOrder(lists[m := []], lists[m], pending, now + 1, d)
  {
    hide Place, MovedList, ListPlaced, AllAfter, Select;
    var m := MovedList((now + 1) % WRAP);
    var lists1 := if m < 0 then lists else lists[m := []];
    var rest := if m < 0 then [] else lists[m];
    var p, p1 := Place(d % WRAP, now % WRAP), Place(d % WRAP, (now + 1) % WRAP);
    Ordered(lists, pending, now, d);
    SelectConcat(lists1[p1], rest, d);
    SelectNone([], d);
    OnlyThere(lists, pending, now, d, p1);
    if m >= 0 {
      OnlyThere(lists, pending, now, d, m);
    }
    if Pending(now, d) {
      PlaceKept(now, d);
    } else {
      OnlyThere(lists, pending, now, d, p);
    }
  }

  lemma Ordered(lists: seq<seq<Node>>, pending: seq<Node>, now: nat, d: nat)
    requires Placed(lists, [], pending, now)
    ensures Select(lists[Place(d % WRAP, now % WRAP)], d) == Select(pending, d)
  {
    var p := Place(d % WRAP, now % WRAP);
    assert InOrder(lists, [], pending, now, d);
    assert lists[p] + [] == lists[p];
  }

  /** Nodes with deadline `d` are in no list but one, and in none when `d` is out of reach. */
  lemma OnlyThere(lists: seq<seq<Node>>, pending: seq<Node>, now: nat, d: nat, k: nat)
    requires Placed(lists, [], pending, now) && AllAfter(lists, now) && k < LISTS
    ensures k != Place(d % WRAP, now % WRAP) || !Pending(now, d) ==> Select(lists[k], d) == []
  {
    assert ListPlaced(lists[k], k, now) && After(lists[k], now);
    if k != Place(d % WRAP, now % WRAP) || !Pending(now, d) {
      SelectNone(lists[k], d);
    }
  }

  /** The near list of the clock has just the timers that are due, and taking them leaves
      those that are due later. */
  lemma FirePlaced(lists: seq<seq<Node>>, pending: seq<Node>, now: nat)
    requires Placed(lists, [], pending, now)
    ensures var idx := now % WRAP % TIME_NEAR;
            && lists[idx] == Select(pending, now)
            && Placed(lists[idx := []], [], Without(pending, now), now)
            && AllAfter(lists[idx := []], now)
  {
    hide Place;
    var idx := now % WRAP % TIME_NEAR;
    var lists1 := lists[idx := []];
    forall k | 0 <= k < LISTS
      ensures k != idx ==> After(lists[k], now)
      ensures k == idx ==> forall n :: n in lists[k] ==> n.deadline == now
    {
      assert ListPlaced(lists[k], k, now);
      forall n | n in lists[k]
        ensures k == idx <==> n.deadline == now
      {
        DueNow(now, n.deadline);
      }
    }
    assert ListPlaced([], idx, now) && After([], now);
    DueNow(now, now);
    assert InOrder(lists, [], pending, now, now);
    assert lists[idx] + [] == lists[idx];
    SelectAll(lists[idx], now);
    forall d: nat
      ensures InOrder(lists1, [], Without(pending, now), now, d)
    {
      SelectWithout(pending, now, d);
      var p := Place(d % WRAP, now % WRAP);
      assert InOrder(lists, [], pending, now, d);
      assert lists[p] + [] == lists[p] && lists1[p] + [] == lists1[p];
      if p == idx && d != now {
        SelectNone(lists[idx], d);
      }
    }
  }

  /** A new timer waits for its place at the end. */
  lemma NewPlaced(lists: seq<seq<Node>>, pending: seq<Node>, now: nat, node: Node)
    requires Placed(lists, [], pending, now) && NodeOk(node, now)
    ensures Placed(lists, [node], pending + [node], now)
  {
    forall d: nat
      ensures InOrder(lists, [node], pending + [node], now, d)
    {
      assert InOrder(lists, [], pending, now, d);
      var p := Place(d % WRAP, now % WRAP);
      assert lists[p] + [] == lists[p];
      SelectConcat(lists[p], [node], d);
      SelectConcat(pending, [node], d);
    }
  }

  function Events(nodes: seq<Node>): (r: seq<Event>)
    ensures |r| == |nodes|
  {
    seq(|nodes|, k requires 0 <= k < |nodes| => nodes[k].event)
  }

  /** `dispatch_list`: the events of a list that has been taken out, in order. */
  method Dispatch(first: Node, ghost nodes: seq<Node>) returns (events: seq<Event>)
    requires Chained(nodes) && nodes != [] && first == nodes[0]
    ensures events == Events(nodes)
  {
    events := [];
    var current: Node? := first;
    ghost var i := 0;
    while current != null
      invariant 0 <= i <= |nodes| && events == Events(nodes[..i])
      invariant current == if i < |nodes| then nodes[i] else null
      decreases |nodes| - i
    {
      events := events + [current.event];
      current := current.next;
      assert i < |nodes| - 1 ==> nodes[i].next == nodes[i + 1];
      i := i + 1;
    }
  }

  lemma {:induction false} WithoutNone(nodes: seq<Node>, d: nat)
    requires Select(nodes, d) == []
    ensures Without(nodes, d) == nodes
  {
    if nodes != [] {
      WithoutNone(nodes[1..], d);
    }
  }

  /** A timer as its user sees it: the tick at which it is due, and its event. */
  datatype Timeout = Timeout(deadline: nat, event: Event)

  ghost function Timeouts(nodes: seq<Node>): (r: seq<Timeout>)
    ensures |r| == |nodes|
  {
    seq(|nodes|, k requires 0 <= k < |nodes| => Timeout(nodes[k].deadline, nodes[k].event))
  }

  /** The events of the timers due at `d`, in order, and the timers that are not. */
  function Due(q: seq<Timeout>, d: nat): seq<Event> {
    if q == [] then [] else (if q[0].deadline == d then [q[0].event] else []) + Due(q[1..], d)
  }

  function NotDue(q: seq<Timeout>, d: nat): seq<Timeout> {
    if q == [] then [] else (if q[0].deadline != d then [q[0]] else []) + NotDue(q[1..], d)
  }

  lemma {:induction false} SeenByUser(nodes: seq<Node>, d: nat)
    ensures Events(Select(nodes, d)) == Due(Timeouts(nodes), d)
    ensures Timeouts(Without(nodes, d)) == NotDue(Timeouts(nodes), d)
  {
    if nodes != [] {
      SeenByUser(nodes[1..], d);
      assert Timeouts(nodes)[1..] == Timeouts(nodes[1..]);
      var n := nodes[0];
      assert Select(nodes, d) == (if n.deadline == d then [n] else []) + Select(nodes[1..], d);
      assert Without(nodes, d) == (if n.deadline != d then [n] else []) + Without(nodes[1..], d);
    }
  }

  // ---- the timer --------------------------------------------------------------------

  class Timer {
    /** `near`, then the four levels of `t` */
    const lists: seq<LinkList>
    var time: nat
    /** ticks since the start, and the timers not yet fired, in the order they were added */
    ghost var now: nat
    ghost var pending: seq<Node>

    ghost function Heads(): set<Node> {
      set l | l in lists :: l.head
    }

    ghost function Nodes(): set<Node>
      reads lists
    {
      set l, n | l in lists && n in l.nodes :: n
    }

    ghost function Contents(): (r: seq<seq<Node>>)
      reads lists
      ensures |r| == |lists|
    {
      seq(|lists|, k requires 0 <= k < |lists| reads lists => lists[k].nodes)
    }

    ghost predicate Apart(i: nat, j: nat)
      requires i < |lists| && j < |lists|
      reads lists
    {
      && lists[i] != lists[j] && lists[i].head != lists[j].head
      && forall n :: n in lists[i].nodes ==> n !in lists[j].nodes
    }

    ghost predicate ListOk(k: nat)
      requires k < |lists|
      reads lists, Heads(), Nodes()
    {
      && lists[k] in lists && lists[k].head in Heads()
      && (forall n :: n in lists[k].nodes ==> n in Nodes())
      && lists[k].Valid()
    }

    ghost predicate ListsOk()
      reads lists, Heads(), Nodes()
    {
      && |lists| == LISTS
      && (forall k :: 0 <= k < LISTS ==> ListOk(k))
      && (forall i, j :: 0 <= i < LISTS && 0 <= j < LISTS && i != j ==> Apart(i, j))
    }

    ghost predicate Wheel(rest: seq<Node>)
      reads this, lists, Heads(), Nodes()
    {
      && ListsOk()
      && time == now % WRAP
      && Placed(Contents(), rest, pending, now)
    }

    ghost predicate Valid()
      reads this, lists, Heads(), Nodes()
    {
      Wheel([]) && AllAfter(Contents(), now)
    }

    /** A change of list `k` and its nodes alone. */
    twostate predicate Only(k: nat)
      requires k < |lists|
      reads lists
    {
      forall j :: 0 <= j < |lists| && j != k ==> lists[j].nodes == old(lists[j].nodes) && lists[j].tail == old(lists[j].tail)
    }

    /** The lists stay apart when list `k` takes up a new node or gives up nodes. */
    twostate lemma StillOk(k: nat)
      requires old(ListsOk()) && k < LISTS && Only(k) && lists[k].Valid()
      requires forall j :: 0 <= j < LISTS && j != k ==> lists[j].Valid()
      requires forall n :: n in lists[k].nodes ==> n in old(lists[k].nodes) || n !in old(Nodes())
      ensures ListsOk()
      ensures Contents() == old(Contents())[k := lists[k].nodes]
    {
      forall j | 0 <= j < LISTS
        ensures ListOk(j)
      {
        assert old(ListOk(j));
      }
      forall i, j | 0 <= i < LISTS && 0 <= j < LISTS && i != j
        ensures Apart(i, j)
      {
        assert old(Apart(i, j)) && old(Apart(j, i));
        assert old(ListOk(i)) && old(ListOk(j));
      }
    }

    /** List `j` has nothing that linking `node` to list `k` changes. */
    ghost predicate Beside(j: nat, k: nat, node: Node)
      requires j < |lists| && k < |lists|
      reads lists
    {
      && lists[j].head != lists[k].head && lists[j].head != node && lists[j].head !in lists[k].nodes
      && forall n :: n in lists[j].nodes ==> n != lists[k].head && n != node && n !in lists[k].nodes
    }

    /** `link` on list `k` */
    method LinkAt(k: nat, node: Node)
      requires k < LISTS && ListsOk() && !node.isHead && node !in Nodes()
      modifies lists[k], lists[k].head, lists[k].nodes, node
      ensures ListsOk()
      ensures Contents() == old(Contents())[k := old(Contents())[k] + [node]]
    {
      assert ListOk(k);
      forall j | 0 <= j < LISTS && j != k
        ensures lists[j] != lists[k] && lists[j].Valid()
        ensures Beside(j, k, node)
      {
        assert ListOk(j) && Apart(j, k) && Apart(k, j);
      }
      lists[k].Link(node);
      forall j | 0 <= j < LISTS && j != k
        ensures lists[j].Valid()
      {
        assert old(Beside(j, k, node)) && old(lists[j].Valid());
        ghost var all := [lists[j].head] + lists[j].nodes;
        assert all[|all| - 1] == lists[j].tail && (lists[j].nodes != [] ==> lists[j].tail in lists[j].nodes);
      }
      StillOk(k);
    }
  
    /** `link_clear` on list `k` */
    method ClearAt(k: nat) returns (first: Node?)
      requires k < LISTS && ListsOk()
      modifies lists[k], lists[k].head
      ensures ListsOk() && Contents() == old(Contents())[k := []]
      ensures Chained(old(lists[k].nodes))
      ensures old(lists[k].nodes) == [] ==> first == null
      ensures old(lists[k].nodes) != [] ==> first == old(lists[k].nodes)[0]
      ensures forall n :: n in old(lists[k].nodes) ==> n !in Nodes() && !n.isHead
    {
      assert ListOk(k);
      forall j | 0 <= j < LISTS && j != k
        ensures lists[j] != lists[k] && lists[j].Valid()
        ensures Beside(j, k, lists[k].head)
      {
        assert ListOk(j) && Apart(j, k) && Apart(k, j);
      }
      first := lists[k].Clear();
      forall j | 0 <= j < LISTS && j != k
        ensures lists[j].Valid()
      {
        assert old(Beside(j, k, lists[k].head)) && old(lists[j].Valid());
        ghost var all := [lists[j].head] + lists[j].nodes;
        assert all[|all| - 1] == lists[j].tail && (lists[j].nodes != [] ==> lists[j].tail in lists[j].nodes);
      }
      StillOk(k);
    }
  
    /** Nodes on their way: they hang together, and are in no list. */
    ghost predicate Loose(rest: seq<Node>)
      reads lists, rest
    {
      Chained(rest) && forall n :: n in rest ==> n !in Nodes() && !n.isHead
    }

    lemma FirstLoose(node: Node, rest: seq<Node>)
      requires Loose([node] + rest)
      ensures node !in Nodes() && !node.isHead && Loose(rest)
      ensures forall n :: n in rest ==> n != node
      ensures rest != [] ==> node.next == rest[0]
      ensures rest == [] ==> node.next == null
    {
      var all := [node] + rest;
      assert all[0] == node && forall i :: 0 <= i < |rest| ==> all[i + 1] == rest[i];
    }

    /** The other loose nodes keep their links. */
    method LinkLoose(k: nat, node: Node, ghost rest: seq<Node>)
      requires k < LISTS && ListsOk() && Loose([node] + rest)
      modifies lists[k], lists[k].head, lists[k].nodes, node
      ensures ListsOk() && Loose(rest)
      ensures Contents() == old(Contents())[k := old(Contents())[k] + [node]]
      ensures forall n :: n in Nodes() ==> n in old(Nodes()) || n == node
    {
      hide Chained, ListsOk, Contents;
      FirstLoose(node, rest);
      ListInside(k);
      ListsHeads(k);
      LinkAt(k, node);
      NodesGrow(k, node);
      StillLoose(rest, node);
    }

    lemma ListsHeads(k: nat)
      requires k < LISTS && ListsOk()
      ensures k < |lists| && lists[k].head.isHead
    {
      assert ListOk(k);
    }

    twostate lemma StillLoose(rest: seq<Node>, new node: Node)
      requires old(Loose(rest)) && node !in rest
      requires forall n :: n in rest ==> n.next == old(n.next)
      requires forall n :: n in Nodes() ==> n in old(Nodes()) || n == node
      ensures Loose(rest)
    {
    }

    /** `add_node` for the first of the loose nodes */
    method AddNode(node: Node, ghost rest: seq<Node>)
      requires ListsOk() && Loose([node] + rest)
      requires time == now % WRAP && Placed(Contents(), [node] + rest, pending, now)
      modifies lists, Heads(), Nodes(), node
      ensures ListsOk() && Loose(rest)
      ensures Placed(Contents(), rest, pending, now)
      ensures forall n :: n in Nodes() ==> n in old(Nodes()) || n == node
      ensures exists k :: 0 <= k < LISTS && Contents() == old(Contents())[k := old(Contents())[k] + [node]]
    {
      hide Placed, Chained, ListsOk;
      PlaceOne(Contents(), node, rest, pending, now);
      var k := Place(node.expire, time);
      ListInside(k);
      LinkLoose(k, node, rest);
    }

    lemma ListInside(k: nat)
      requires k < LISTS && ListsOk()
      ensures k < |lists| && lists[k] in lists && lists[k].head in Heads()
      ensures forall n :: n in lists[k].nodes ==> n in Nodes()
    {
      assert ListOk(k);
    }

    twostate lemma NodesShrink(k: nat)
      requires k < |lists| && Contents() == old(Contents())[k := []]
      ensures forall n :: n in Nodes() ==> n in old(Nodes())
    {
      forall n | n in Nodes()
        ensures n in old(Nodes())
      {
        var l :| l in lists && n in l.nodes;
        var j :| 0 <= j < |lists| && lists[j] == l;
        assert Contents()[j] == l.nodes && old(Contents())[j] == old(l.nodes);
      }
    }

    twostate lemma NodesGrow(k: nat, new node: Node)
      requires k < |lists| && Contents() == old(Contents())[k := old(Contents())[k] + [node]]
      ensures forall n :: n in Nodes() ==> n in old(Nodes()) || n == node
    {
      forall n | n in Nodes()
        ensures n in old(Nodes()) || n == node
      {
        var l :| l in lists && n in l.nodes;
        var j :| 0 <= j < |lists| && lists[j] == l;
        assert Contents()[j] == l.nodes && old(Contents())[j] == old(l.nodes);
        assert n in old(l.nodes) || n == node;
      }
    }

    /** `link_clear`, with the nodes it leaves loose. */
    method Detach(k: nat) returns (first: Node?)
      requires k < LISTS && ListsOk()
      modifies lists[k], lists[k].head
      ensures ListsOk() && Contents() == old(Contents())[k := []]
      ensures Loose(old(lists[k].nodes))
      ensures if old(lists[k].nodes) == [] then first == null else first == old(lists[k].nodes)[0]
      ensures forall n :: n in Nodes() ==> n in old(Nodes())
    {
      hide Chained, ListsOk;
      first := ClearAt(k);
      NodesShrink(k);
    }

    /** `move_list`: `current` goes through the nodes, each of which gets a new `next`. */
    method MoveList(k: nat)
      requires k < LISTS && ListsOk() && time == now % WRAP
      requires Placed(Contents()[k := []], Contents()[k], pending, now)
      modifies lists, Heads(), Nodes()
      ensures Wheel([]) && Nodes() <= old(Nodes())
    {
      hide Placed, Chained, ListsOk, ListPlaced;
      ListInside(k);
      ghost var rest := lists[k].nodes;
      ghost var before := Nodes();
      var current := Detach(k);
      while current != null
        invariant ListsOk() && Loose(rest)
        invariant forall n :: n in rest || n in Nodes() ==> n in before
        invariant Placed(Contents(), rest, pending, now)
        invariant if rest == [] then current == null else current == rest[0]
        decreases |rest|
      {
        ghost var node, others := rest[0], rest[1..];
        assert rest == [node] + others;
        FirstLoose(node, others);
        var temp := current.next;
        AddNode(current, others);
        current, rest := temp, others;
      }
    }
  
    /** The clock has gone on, and list `m`, if it is one, is still to be moved. */
    ghost predicate ToMove(m: int)
      requires m < LISTS
      reads this, lists, Heads(), Nodes()
    {
      && ListsOk() && time == now % WRAP
      && if m < 0 then Placed(Contents(), [], pending, now) else Placed(Contents()[m := []], Contents()[m], pending, now)
    }

    /** `timer_shift` */
    method Shift()
      requires Valid()
      modifies this`time, this`now, lists, Heads(), Nodes()
      ensures Wheel([]) && now == old(now) + 1 && Nodes() <= old(Nodes())
    {
      hide Placed, AllAfter, ListsOk, Place, MovedList, Chained;
      TickPlaced(Contents(), pending, now);
      now := now + 1;
      time := (time + 1) % WRAP;
      assert time == now % WRAP;
      var ct := time;
      assert ToMove(MovedList(ct));
      if ct == 0 {
        ZeroMoves();
        MoveList(LevelList(3, 0));
      } else {
        ShiftLevels(ct);
      }
    }

    /** The loop of `timer_shift`: the lowest digit that is not 0 gives the list to move. */
    method ShiftLevels(ct: nat)
      requires 0 < ct < WRAP && ToMove(MovedList(ct))
      modifies lists, Heads(), Nodes()
      ensures Wheel([]) && Nodes() <= old(Nodes())
    {
      hide Placed, AllAfter, ListsOk, Place, MovedList, Chained;
      var mask, t, i := TIME_NEAR, ct / TIME_NEAR, 0;
      MovedFrom(ct, 0);
      while ct % mask == 0
        invariant 0 <= i < 4 && mask == Block(i) && t == ct / Block(i)
        invariant i > 0 ==> ct % mask == 0
        invariant ToMove(MovedList(ct)) && Nodes() == old(Nodes())
        decreases 4 - i
      {
        MovedFrom(ct, i);
        var idx := t % TIME_LEVEL;
        if idx != 0 {
          MoveList(LevelList(i, idx));
          return;
        }
        mask := mask * TIME_LEVEL;
        t := t / TIME_LEVEL;
        i := i + 1;
      }
      MovedFrom(ct, i);
    }

    lemma ZeroMoves()
      ensures MovedList(0) == LevelList(3, 0)
    {
    }
  
    /** Allocation and ghost state do not matter to the lists. */
    twostate lemma NothingMoved()
      requires old(ListsOk())
      requires forall j :: 0 <= j < |lists| ==> unchanged(lists[j], lists[j].head)
      requires forall n :: n in old(Nodes()) ==> unchanged(n)
      ensures ListsOk() && Contents() == old(Contents()) && Nodes() == old(Nodes())
    {
      forall j | 0 <= j < LISTS
        ensures lists[j].Valid()
      {
        assert old(ListOk(j));
        var all := [lists[j].head] + lists[j].nodes;
        forall i | 0 <= i < |all|
          ensures unchanged(all[i])
        {
          if i > 0 {
            assert all[i] == old(lists[j].nodes)[i - 1] && all[i] in old(Nodes());
          }
        }
      }
      StillOk(0);
    }

    /** `timer_execute`: the timers that are due fire. The lock is given up while the list is
        dispatched, and no timer added then is due, so the loop runs at most once. */
    method Execute() returns (fired: seq<Event>)
      requires Wheel([])
      modifies this`pending, lists, Heads()
      ensures Valid() && now == old(now)
      ensures fired == Events(Select(old(pending), now))
      ensures pending == Without(old(pending), now)
      ensures Nodes() <= old(Nodes())
    {
      hide Placed, AllAfter, ListsOk, Place, Chained;
      var idx := time % TIME_NEAR;
      ListInside(idx);
      FirePlaced(Contents(), pending, now);
      ghost var due := lists[idx].nodes;
      assert due == Contents()[idx];
      fired := [];
      var current := Detach(idx);
      label Cleared:
      if current != null {
        fired := Dispatch(current, due);
      }
      pending := Without(pending, now);
      NothingMoved@Cleared();
    }
  
    /** `timer_create_timer` */
    constructor ()
      ensures Valid() && now == 0 && pending == []
      ensures fresh(lists) && fresh(Heads()) && Nodes() == {}
    {
      var all: seq<LinkList> := [];
      for i := 0 to LISTS
        invariant |all| == i
        invariant forall j :: 0 <= j < i ==> fresh(all[j]) && fresh(all[j].head) && all[j].Valid() && all[j].nodes == []
        invariant forall j, k :: 0 <= j < k < i ==> all[j] != all[k] && all[j].head != all[k].head
      {
        var l := new LinkList();
        all := all + [l];
      }
      lists, time, now, pending := all, 0, 0, [];
      new;
      EmptyPlaced(Contents());
      assert forall k :: 0 <= k < LISTS ==> ListOk(k);
    }

    /** `timer_add`: `delay` is a positive `int` of the source. */
    method Add(delay: nat, event: Event)
      requires Valid() && 0 < delay < MAXDELAY
      modifies this`pending, lists, Heads(), Nodes()
      ensures Valid() && now == old(now)
      ensures Timeouts(pending) == old(Timeouts(pending)) + [Timeout(now + delay, event)]
      ensures fresh(Nodes() - old(Nodes()))
    {
      hide Placed, ListsOk, AllAfter, Chained;
      WrappedSum(now, delay);
      var node := new Node(false, (time + delay) % WRAP, event, now + delay);
      NothingMoved();
      Enter(node);
    }

    method Enter(node: Node)
      requires Valid() && NodeOk(node, now) && node.deadline > now
      requires node.next == null && node !in Nodes()
      modifies this`pending, lists, Heads(), Nodes(), node
      ensures Valid() && now == old(now) && pending == old(pending) + [node]
      ensures forall n :: n in Nodes() ==> n in old(Nodes()) || n == node
    {
      hide Placed, ListsOk, Place, Chained, AllAfter;
      ghost var before := Contents();
      NewPlaced(before, pending, now, node);
      pending := pending + [node];
      NothingMoved();
      AloneLoose(node);
      assert [node] + [] == [node];
      AddNode(node, []);
      AddedAfter(before, Contents(), node, now);
    }

    lemma AloneLoose(node: Node)
      requires node.next == null && !node.isHead && node !in Nodes()
      ensures Loose([node] + [])
    {
    }

    /** `timer_update`: one tick. */
    method Update() returns (fired: seq<Event>)
      requires Valid()
      modifies this`pending, this`time, this`now, lists, Heads(), Nodes()
      ensures Valid() && now == old(now) + 1
      ensures fired == Due(old(Timeouts(pending)), now)
      ensures Timeouts(pending) == NotDue(old(Timeouts(pending)), now)
      ensures Nodes() <= old(Nodes())
    {
      hide Placed, ListsOk, AllAfter, ListPlaced, Place, Chained;
      NoneDue(Contents(), pending, now);
      var early := Execute();
      assert early == [];
      Shift();
      fired := Execute();
      SeenByUser(old(pending), now);
    }
  }

  /** Before the clock goes on, nothing is due. */
  lemma NoneDue(lists: seq<seq<Node>>, pending: seq<Node>, now: nat)
    requires Placed(lists, [], pending, now) && AllAfter(lists, now)
    ensures Select(pending, now) == [] && Without(pending, now) == pending
  {
    Ordered(lists, pending, now, now);
    OnlyThere(lists, pending, now, now, Place(now % WRAP, now % WRAP));
    WithoutNone(pending, now);
  }

  lemma AddedAfter(before: seq<seq<Node>>, lists: seq<seq<Node>>, node: Node, now: nat)
    requires AllAfter(before, now) && node.deadline > now && |before| == LISTS
    requires exists k :: 0 <= k < LISTS && lists == before[k := before[k] + [node]]
    ensures AllAfter(lists, now)
  {
    forall j | 0 <= j < |lists|
      ensures After(lists[j], now)
    {
      assert After(before[j], now);
    }
  }

  lemma WrappedSum(now: nat, delay: nat)
    ensures (now % WRAP + delay) % WRAP == (now + delay) % WRAP
  {
  }

  lemma EmptyPlaced(lists: seq<seq<Node>>)
    requires |lists| == LISTS && forall k :: 0 <= k < LISTS ==> lists[k] == []
    ensures Placed(lists, [], [], 0) && AllAfter(lists, 0)
  {
    forall d: nat
      ensures InOrder(lists, [], [], 0, d)
    {
      assert lists[Place(d % WRAP, 0)] + [] == [];
    }
  }
}
