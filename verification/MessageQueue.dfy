/** The queues of skynet/skynet-src/skynet_mq.c: a ring buffer for each service, and the
    global list of queues that have work. */
module MessageQueue {
  const DEFAULT_QUEUE_SIZE := 64
  const MQ_OVERLOAD := 1024

  type pos = x: nat | 0 < x witness 1

  datatype Message = Message(source: nat, session: int, data: nat, size: nat)

  /** A queue as its lock protects it. */
  datatype Mq = Mq(msgs: seq<Message>, inGlobal: bool, release: bool, overload: nat, threshold: pos)

  /** `skynet_mq_create` */
  function Created(): Mq {
    Mq([], true, false, 0, MQ_OVERLOAD)
  }

  /** The threshold after it has doubled until the length no longer exceeds it. */
  function Doubled(threshold: pos, length: nat): (r: pos)
    ensures r >= threshold && r >= length
    decreases length - threshold
  {
    if length > threshold then Doubled(2 * threshold, length) else threshold
  }

  /** What `skynet_mq_push` does to the queue; it also puts a queue that was not in the global
      list into it. */
  function Pushed(q: Mq, m: Message): Mq {
    q.(msgs := q.msgs + [m], inGlobal := true)
  }

  /** What `skynet_mq_pop` does to the queue. */
  function Popped(q: Mq): Mq {
    if q.msgs == [] then q.(inGlobal := false, threshold := MQ_OVERLOAD)
    else
      var length := |q.msgs| - 1;
      q.(msgs := q.msgs[1..],
         overload := if length > q.threshold then length else q.overload,
         threshold := Doubled(q.threshold, length))
  }

  class Queue {
    const handle: nat
    var cap: nat
    var head: nat
    var tail: nat
    var release: bool
    var inGlobal: bool
    var overload: nat
    var threshold: pos
    var buffer: array<Message>
    var next: Queue?

    ghost predicate Valid()
      reads this, buffer
    {
      0 < cap == buffer.Length && head < cap && tail < cap
    }

    function Length(): (n: nat)
      requires head < cap && tail < cap
      reads this
      ensures n < cap
    {
      if head <= tail then tail - head else tail + cap - head
    }

    /** The waiting messages, oldest first. */
    ghost function Waiting(): (r: seq<Message>)
      requires Valid()
      reads this, buffer
      ensures |r| == Length()
    {
      if head <= tail then buffer[head..tail] else buffer[head..] + buffer[..tail]
    }

    ghost function State(): Mq
      requires Valid()
      reads this, buffer
    {
      Mq(Waiting(), inGlobal, release, overload, threshold)
    }

    /** `skynet_mq_create` */
    constructor (handle: nat)
      ensures Valid() && fresh(buffer) && State() == Created() && next == null && this.handle == handle
    {
      this.handle := handle;
      cap, head, tail := DEFAULT_QUEUE_SIZE, 0, 0;
      inGlobal, release := true, false;
      overload, threshold := 0, MQ_OVERLOAD;
      buffer := new Message[DEFAULT_QUEUE_SIZE];
      next := null;
    }

    /** `expand_queue`: the ring is full, so `head == tail` means `cap` messages. */
    method Expand()
      requires Valid() && head == tail
      modifies this
      ensures Valid() && fresh(buffer)
      ensures Waiting() == old(buffer[head..] + buffer[..head])
      ensures inGlobal == old(inGlobal) && release == old(release)
      ensures overload == old(overload) && threshold == old(threshold) && next == old(next)
    {
      var grown := new Message[cap * 2];
      CopyRing(buffer, head, grown);
      assert grown[0..cap] == grown[..cap];
      head, tail := 0, cap;
      cap := cap * 2;
      buffer := grown;
    }

    /** The part of `skynet_mq_push` before the queue is linked into the global list. */
    method Enqueue(m: Message)
      requires Valid()
      modifies this, buffer
      ensures Valid() && (buffer == old(buffer) || fresh(buffer))
      ensures Waiting() == old(Waiting()) + [m]
      ensures inGlobal == old(inGlobal) && release == old(release)
      ensures overload == old(overload) && threshold == old(threshold) && next == old(next)
    {
      ghost var waiting := Waiting();
      buffer[tail] := m;
      tail := tail + 1;
      if tail >= cap {
        tail := 0;
      }
      if head == tail {
        assert buffer[head..] + buffer[..head] == waiting + [m];
        Expand();
      }
    }

    /** `skynet_mq_pop` */
    method Pop() returns (empty: bool, m: Message)
      requires Valid()
      modifies this
      ensures Valid() && buffer == old(buffer) && next == old(next)
      ensures State() == Popped(old(State()))
      ensures empty <==> old(Waiting()) == []
      ensures Waiting() == if empty then [] else old(Waiting())[1..]
      ensures !empty ==> m == old(Waiting())[0]
    {
      empty, m := true, Message(0, 0, 0, 0);
      if head != tail {
        m := TakeFirst();
        empty := false;
        NoteOverload();
      } else {
        threshold := MQ_OVERLOAD;
        inGlobal := false;
      }
    }

    method TakeFirst() returns (m: Message)
      requires Valid() && head != tail
      modifies this`head
      ensures Valid() && old(Waiting()) != [] && m == old(Waiting())[0] && Waiting() == old(Waiting())[1..]
    {
      m := buffer[head];
      head := head + 1;
      if head >= cap {
        head := 0;
      }
    }

    method NoteOverload()
      requires Valid()
      modifies this`overload, this`threshold
      ensures threshold == Doubled(old(threshold), Length())
      ensures overload == if Length() > old(threshold) then Length() else old(overload)
    {
      var length := Length();
      while length > threshold
        invariant Doubled(threshold, length) == Doubled(old(threshold), length)
        invariant threshold >= old(threshold)
        invariant overload == if threshold > old(threshold) then length else old(overload)
        invariant threshold > old(threshold) ==> length > old(threshold)
        decreases length - threshold
      {
        overload := length;
        threshold := threshold * 2;
      }
    }
  }

  lemma DroppedOne(dropped: seq<Message>, m: Message, rest: seq<Message>)
    ensures dropped + ([m] + rest) == (dropped + [m]) + rest
    ensures rest == [] ==> dropped + ([m] + rest) == dropped + [m]
    ensures rest != [] ==> dropped + ([m] + rest) == (dropped + [m]) + ([rest[0]] + rest[1..])
  {
  }

  lemma RingIndex(from: nat, i: nat, cap: nat)
    requires from < cap && i < cap
    ensures (from + i) % cap == if from + i < cap then from + i else from + i - cap
  {
  }

  /** The loop of `expand_queue`: the ring from index `from` on, laid out flat. */
  method CopyRing(ring: array<Message>, from: nat, flat: array<Message>)
    requires from < ring.Length < flat.Length && ring != flat
    modifies flat
    ensures flat[..ring.Length] == ring[from..] + ring[..from]
  {
    var cap := ring.Length;
    ghost var all := ring[from..] + ring[..from];
    for i := 0 to cap
      modifies flat
      invariant flat[..i] == all[..i]
    {
      RingIndex(from, i, cap);
      assert all[i] == ring[(from + i) % cap];
      flat[i] := ring[(from + i) % cap];
      assert all[..i + 1] == all[..i] + [all[i]];
    }
  }

  /** The list of queues with work, linked through `next`. */
  class GlobalQueue {
    var head: Queue?
    var tail: Queue?
    ghost var nodes: seq<Queue>

    ghost predicate Valid()
      reads this, nodes
    {
      && (forall i, j :: 0 <= i < j < |nodes| ==> nodes[i] != nodes[j])
      && (forall i :: 0 <= i < |nodes| - 1 ==> nodes[i].next == nodes[i + 1])
      && (if nodes == [] then head == null && tail == null
          else head == nodes[0] && tail == nodes[|nodes| - 1] && tail.next == null)
    }

    /** `skynet_mq_init` */
    constructor ()
      ensures Valid() && nodes == []
    {
      head, tail, nodes := null, null, [];
    }

    /** `skynet_globalmq_push` */
    method Push(q: Queue)
      requires Valid() && q !in nodes && q.next == null
      modifies this, nodes`next
      ensures Valid() && nodes == old(nodes) + [q]
    {
      if tail != null {
        tail.next := q;
        tail := q;
      } else {
        head, tail := q, q;
      }
      nodes := nodes + [q];
    }

    /** `skynet_globalmq_pop` */
    method Pop() returns (q: Queue?)
      requires Valid()
      modifies this, nodes`next
      ensures Valid()
      ensures old(nodes) == [] ==> q == null && nodes == []
      ensures old(nodes) != [] ==> q == old(nodes)[0] && nodes == old(nodes)[1..] && q.next == null
    {
      q := head;
      if q != null {
        head := q.next;
        if head == null {
          tail := null;
        }
        q.next := null;
        nodes := nodes[1..];
      }
    }

    /** `skynet_mq_push` */
    method SendTo(q: Queue, m: Message)
      requires Valid() && q.Valid()
      requires !q.inGlobal ==> q !in nodes && q.next == null
      modifies this, nodes`next, q, q.buffer
      ensures Valid() && q.Valid() && (q.buffer == old(q.buffer) || fresh(q.buffer))
      ensures q.State() == Pushed(old(q.State()), m)
      ensures nodes == if old(q.inGlobal) then old(nodes) else old(nodes) + [q]
    {
      q.Enqueue(m);
      if !q.inGlobal {
        q.inGlobal := true;
        Push(q);
      }
    }

    /** `skynet_mq_mark_release` */
    method MarkRelease(q: Queue)
      requires Valid() && q.Valid() && !q.release
      requires !q.inGlobal ==> q !in nodes && q.next == null
      modifies this, nodes`next, q
      ensures Valid() && q.Valid() && q.buffer == old(q.buffer)
      ensures q.State() == old(q.State()).(release := true)
      ensures nodes == if old(q.inGlobal) then old(nodes) else old(nodes) + [q]
    {
      q.release := true;
      if !q.inGlobal {
        Push(q);
      }
    }

    /** `_drop_queue`: the messages are handed to the drop function in order. */
    method DropAll(q: Queue) returns (dropped: seq<Message>)
      requires q.Valid()
      modifies q
      ensures q.Valid() && q.buffer == old(q.buffer) && q.next == old(q.next)
      ensures dropped == old(q.Waiting()) && q.Waiting() == []
    {
      hide Popped, Doubled, Queue.Waiting;
      ghost var all := q.Waiting();
      dropped := [];
      var empty, m := q.Pop();
      while !empty
        invariant q.Valid() && q.buffer == old(q.buffer) && q.next == old(q.next)
        invariant empty ==> dropped == all && q.Waiting() == []
        invariant !empty ==> dropped + ([m] + q.Waiting()) == all
        decreases !empty, |q.Waiting()|
      {
        DroppedOne(dropped, m, q.Waiting());
        dropped := dropped + [m];
        empty, m := q.Pop();
      }
    }

    /** `skynet_mq_release`: a queue marked for release is emptied, any other goes back into
        the list. */
    method Release(q: Queue) returns (drop: bool, dropped: seq<Message>)
      requires Valid() && q.Valid() && q !in nodes && q.next == null
      modifies this, nodes`next, q
      ensures Valid() && q.Valid() && drop == old(q.release)
      ensures drop ==> dropped == old(q.Waiting()) && q.Waiting() == [] && nodes == old(nodes)
      ensures !drop ==> dropped == [] && q.State() == old(q.State()) && nodes == old(nodes) + [q]
    {
      dropped := [];
      drop := q.release;
      if drop {
        dropped := DropAll(q);
      } else {
        Push(q);
      }
    }
  }
}
