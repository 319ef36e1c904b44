/** The write path of a TCP socket (skynet/skynet-src/socket_server.c): two linked lists of
    buffers, written as far as the connection takes them. */
module SocketWrite {
  import opened Bytes
  import opened SendQueue

  /** What `write` may do; `Wrote(n)` stands for at most n bytes. */
  datatype Outcome = Wrote(n: nat) | Interrupted | WouldBlock | Failed

  /** A connection: what it will do when it is written to, and the bytes it took. When nothing
      more is known of what it will do, it would block. */
  class Connection {
    var script: seq<Outcome>
    ghost var bytes: seq<byte>
    ghost var failed: bool
    /** Whether it took less than it was offered the last time. */
    ghost var short: bool

    ghost predicate CanFail()
      reads this
    {
      failed || Failed in script
    }

    constructor (script: seq<Outcome>)
      ensures this.script == script && bytes == [] && !failed
    {
      this.script, bytes, failed, short := script, [], false, false;
    }

    method Write(data: seq<byte>) returns (r: Outcome)
      modifies this
      ensures r.Wrote? ==> r.n <= |data| && bytes == old(bytes) + data[..r.n]
      ensures !r.Wrote? ==> bytes == old(bytes)
      ensures r.Interrupted? ==> |script| < |old(script)|
      ensures |script| <= |old(script)|
      ensures failed <==> old(failed) || r == Failed
      ensures CanFail() ==> old(CanFail())
      ensures short <==> r != Wrote(|data|)
    {
      short := true;
      if script == [] {
        return WouldBlock;
      }
      r := script[0];
      script := script[1..];
      if r.Wrote? {
        r := Wrote(if r.n <= |data| then r.n else |data|);
        bytes := bytes + data[..r.n];
        short := r.n < |data|;
      }
      failed := failed || r == Failed;
    }
  }

  class WriteBuffer {
    const pack: Package
    var ptr: nat
    var sz: nat
    var next: WriteBuffer?
    /** The list it is in, and its place there. */
    ghost var owner: BufferList?
    ghost var place: int

    constructor (pack: Package, n: nat)
      requires n <= |pack.data|
      ensures this.pack == pack && ptr == n && sz == |pack.data| - n && next == null && owner == null
    {
      this.pack := pack;
      ptr, sz, next, owner := n, |pack.data| - n, null, null;
    }

    ghost predicate Valid()
      reads this
    {
      ptr + sz == |pack.data|
    }
  }

  ghost function NextOf(items: seq<WriteBuffer>, i: nat): WriteBuffer? {
    if i + 1 < |items| then items[i + 1] else null
  }

  ghost predicate Suffix(s: seq<WriteBuffer>, all: seq<WriteBuffer>) {
    |s| <= |all| && s == all[|all| - |s|..]
  }

  lemma SuffixNext(s: seq<WriteBuffer>, all: seq<WriteBuffer>)
    requires s != [] && Suffix(s, all)
    ensures Suffix(s[1..], all)
  {
  }

  class BufferList {
    var head: WriteBuffer?
    var tail: WriteBuffer?
    ghost var items: seq<WriteBuffer>
    ghost var start: int

    ghost predicate Valid()
      reads this, items
    {
      && (forall i :: 0 <= i < |items| ==> items[i].Valid() && items[i].owner == this && items[i].place == start + i)
      && head == (if items == [] then null else items[0])
      && tail == (if items == [] then null else items[|items| - 1])
      && (forall i {:trigger items[i].next} :: 0 <= i < |items| ==> items[i].next == NextOf(items, i))
    }

    /** What waits in the list. */
    ghost function Queue(): (q: seq<Pending>)
      reads this, items
      ensures |q| == |items| && forall i :: 0 <= i < |q| ==> q[i] == Pending(items[i].pack, items[i].ptr)
    {
      seq(|items|, i requires 0 <= i < |items| reads this, items => Pending(items[i].pack, items[i].ptr))
    }

    constructor ()
      ensures Valid() && items == []
    {
      head, tail, items := null, null, [];
    }

    /** The list part of `append_sendbuffer_` */
    method Append(buf: WriteBuffer)
      requires Valid() && buf.Valid() && buf.owner == null && buf.next == null
      modifies this, tail, buf
      ensures Valid() && items == old(items) + [buf] && buf.Valid()
      ensures Queue() == old(Queue()) + [Pending(buf.pack, old(buf.ptr))]
    {
      if head == null {
        head, tail := buf, buf;
      } else {
        tail.next := buf;
        tail := buf;
      }
      buf.owner, buf.place := this, start + |items|;
      items := items + [buf];
    }

    /** `append_sendbuffer_` for a package of which `n` bytes are written */
    method AppendPackage(pack: Package, n: nat) returns (left: nat)
      requires Valid() && n <= |pack.data|
      modifies this, tail
      ensures Valid() && |items| == |old(items)| + 1 && items[..|old(items)|] == old(items)
      ensures items[|old(items)|].pack == pack && left == |pack.data| - n
      ensures Queue() == old(Queue()) + [Pending(pack, n)]
    {
      var buf := new WriteBuffer(pack, n);
      Append(buf);
      left := buf.sz;
    }

    /** Takes the first buffer out; the list may still have a tail when it is empty. */
    method DropHead()
      requires Valid() && items != []
      modifies this`head, this`items, this`start
      ensures items == old(items)[1..] && (head == null) == (items == [])
      ensures items != [] ==> Valid()
    {
      ghost var was := items;
      head := head.next;
      items, start := items[1..], start + 1;
      forall i | 0 <= i < |items|
        ensures items[i].next == NextOf(items, i)
      {
        assert items[i] == was[i + 1] && NextOf(items, i) == NextOf(was, i + 1);
      }
    }

    twostate lemma QueueDropped()
      requires old(items) != [] && items == old(items)[1..]
      requires forall i :: 0 <= i < |items| ==> unchanged(items[i])
      ensures Queue() == old(Queue())[1..]
    {
    }

    /** Takes the first buffer out for good. */
    method TakeHead() returns (tmp: WriteBuffer)
      requires Valid() && items != []
      modifies this, items[0]
      ensures Valid() && items == old(items)[1..] && Queue() == old(Queue())[1..]
      ensures tmp == old(items[0]) && tmp.Valid() && tmp.owner == null && tmp.next == null && tmp.ptr == old(items[0].ptr)
    {
      tmp := head;
      DropHead();
      if head == null {
        tail := null;
      }
      QueueDropped();
      tmp.next, tmp.owner := null, null;
    }

    /** `clear_wb_list` and `free_wb_list` */
    method Clear()
      modifies this
      ensures Valid() && items == []
    {
      head, tail, items := null, null, [];
    }
  }

  datatype Kind = Invalid | PListen | Listen | Connecting | Connected | HalfClose | PAccept

  /** What a call reports: nothing, a closed socket, an error, or an open socket. */
  datatype Report = Nothing | Close | Error | Open

  /** The bytes are whole packages and, of one more package, which heads the queue, a part. */
  ghost predicate WholePackages(bytes: seq<byte>, log: seq<Package>, q: seq<Pending>) {
    || bytes == Flat(log)
    || (q != [] && log != [] && q[0].pack == log[|log| - 1] && q[0].ptr < |q[0].pack.data|
        && bytes == Flat(log[..|log| - 1]) + q[0].pack.data[..q[0].ptr])
  }

  class Socket {
    const id: int
    const high: BufferList
    const low: BufferList
    const wire: Connection
    var kind: Kind
    var wbSize: int
    /** Whether the poll reports that the socket can be written to. */
    var writing: bool
    /** The packages that were started, those that were accepted, and what was thrown away when
        the socket was closed. */
    ghost var log: seq<Package>
    ghost var accepted: seq<Package>
    ghost var dropped: seq<Pending>

    ghost function Queue(): seq<Pending>
      reads high, low, high.items, low.items
    {
      high.Queue() + low.Queue()
    }

    ghost predicate Linked()
      reads high, low, high.items, low.items
    {
      && high.Valid() && low.Valid() && high != low
      && (forall i :: 0 <= i < |low.items| ==> low.items[i].pack.low)
      && (forall i :: 1 <= i < |high.items| ==> !high.items[i].pack.low)
    }

    /** The parts of the invariant that are about single fields. */
    ghost predicate Flags()
      reads this, high, low, wire, high.items, low.items
    {
      && (low.items != [] ==> low.items[0].ptr == 0)
      && (kind != Invalid ==> dropped == [])
      && (Queue() != [] ==> writing)
      && (writing ==> kind in {Connecting, Connected, HalfClose})
      && (kind == HalfClose ==> writing)
      && (wire.failed ==> kind == Invalid)
    }

    /** Holds between calls. */
    ghost predicate Valid()
      reads this, high, low, wire, high.items, low.items
    {
      Nearly() && (kind == Connecting ==> writing)
    }

    /** All but that a connection that is not yet established is waited for. */
    ghost predicate Nearly()
      reads this, high, low, wire, high.items, low.items
    {
      Linked() && Flow(log, accepted, Queue() + dropped, wire.bytes, wbSize) && Flags()
    }

    constructor (id: int, script: seq<Outcome>, kind: Kind)
      requires kind in {PListen, Connecting, Connected, PAccept}
      ensures Valid() && this.id == id && this.kind == kind && accepted == [] && dropped == []
      ensures wire.script == script && !wire.failed && WaitsOf(this) == Waits(false, false)
      ensures fresh(high) && fresh(low) && fresh(wire)
    {
      this.id := id;
      high := new BufferList();
      low := new BufferList();
      wire := new Connection(script);
      this.kind := kind;
      writing := kind == Connecting;
      wbSize := 0;
      log, accepted, dropped := [], [], [];
      new;
      hide Flow;
      NothingFlows();
      EmptyValid();
    }

    lemma EmptyValid()
      requires high.Valid() && low.Valid() && high != low && high.items == [] && low.items == []
      requires Flow(log, accepted, dropped, wire.bytes, wbSize)
      requires (kind != Invalid ==> dropped == []) && (kind == Connecting <==> writing)
      requires kind != HalfClose && (wire.failed ==> kind == Invalid)
      ensures Valid() && Queue() == []
    {
      hide Flow;
      assert Queue() + dropped == dropped;
    }

    /** `force_close` */
    method ForceClose()
      requires Linked() && Flow(log, accepted, Queue() + dropped, wire.bytes, wbSize)
      requires if kind == Invalid then Queue() == [] && !writing else dropped == []
      modifies this`kind, this`writing, this`dropped, high, low
      ensures Valid() && kind == Invalid && Queue() == []
      ensures dropped == if old(kind) == Invalid then old(dropped) else old(Queue())
    {
      hide Flow;
      if kind == Invalid {
        return;
      }
      assert Queue() + [] == Queue();
      dropped := Queue();
      high.Clear();
      low.Clear();
      kind, writing := Invalid, false;
      EmptyValid();
    }

    /** Writes what is left of a buffer, again and again while it is interrupted. */
    method WriteRest(buf: WriteBuffer) returns (r: Outcome)
      requires buf.Valid()
      modifies wire
      ensures !r.Interrupted?
      ensures r.Wrote? ==> r.n <= buf.sz && wire.bytes == old(wire.bytes) + buf.pack.data[buf.ptr..buf.ptr + r.n]
      ensures !r.Wrote? ==> wire.bytes == old(wire.bytes)
      ensures (wire.failed <==> old(wire.failed) || r == Failed) && (wire.CanFail() ==> old(wire.CanFail()))
      ensures wire.short <==> r != Wrote(buf.sz)
    {
      var rest := buf.pack.data[buf.ptr..];
      r := wire.Write(rest);
      while r.Interrupted?
        invariant r.Wrote? ==> r.n <= buf.sz && wire.bytes == old(wire.bytes) + rest[..r.n]
        invariant !r.Wrote? ==> wire.bytes == old(wire.bytes)
        invariant (wire.failed <==> old(wire.failed) || r == Failed) && (wire.CanFail() ==> old(wire.CanFail()))
        invariant wire.short <==> r != Wrote(buf.sz)
        decreases |wire.script| + if r.Interrupted? then 1 else 0
      {
        r := wire.Write(rest);
      }
      if r.Wrote? {
        assert rest[..r.n] == buf.pack.data[buf.ptr..buf.ptr + r.n];
      }
    }

    /** A part of the first buffer was written. */
    method Advanced(list: BufferList, n: nat, ghost rest: seq<Pending>, ghost bytes: seq<byte>)
      requires list.Valid() && list.items != [] && n < list.items[0].sz
      requires Flow(log, accepted, list.Queue() + rest, bytes, wbSize)
      requires wire.bytes == bytes + list.Queue()[0].pack.data[list.Queue()[0].ptr..list.Queue()[0].ptr + n]
      modifies this`log, this`wbSize, list.items[0]
      ensures list.Valid()
      ensures Flow(log, accepted, list.Queue() + rest, wire.bytes, wbSize)
    {
      hide Flow;
      ghost var q := list.Queue();
      HeadAdvanced(log, accepted, q, rest, bytes, wbSize, n);
      log := if n > 0 then LogStarted(log, q + rest) else log;
      wbSize := wbSize - n;
      var tmp := list.head;
      tmp.ptr := tmp.ptr + n;
      tmp.sz := tmp.sz - n;
      assert list.Queue() == q[0 := Pending(tmp.pack, tmp.ptr)];
    }

    /** The first buffer was written to its end. */
    method Finished(list: BufferList, ghost rest: seq<Pending>, ghost bytes: seq<byte>)
      requires list.Valid() && list.items != []
      requires Flow(log, accepted, list.Queue() + rest, bytes, wbSize)
      requires wire.bytes == bytes + list.Queue()[0].pack.data[list.Queue()[0].ptr..]
      modifies this`log, this`wbSize, list
      ensures (list.head == null) == (list.items == [])
      ensures list.items == old(list.items)[1..] && (list.items != [] ==> list.Valid())
      ensures Flow(log, accepted, list.Queue() + rest, wire.bytes, wbSize)
    {
      hide Flow;
      ghost var q := list.Queue();
      HeadFinished(log, accepted, q, rest, bytes, wbSize);
      log := LogStarted(log, q + rest);
      wbSize := wbSize - list.head.sz;
      list.DropHead();
      list.QueueDropped();
    }

    /** Writes to the first buffer of a list. */
    method WriteHead(list: BufferList, ghost rest: seq<Pending>) returns (r: Outcome, whole: bool)
      requires list.Valid() && list.items != []
      requires Flow(log, accepted, list.Queue() + rest, wire.bytes, wbSize)
      modifies this`log, this`wbSize, list, list.items[0], wire
      ensures !r.Interrupted? && (whole ==> r.Wrote?)
      ensures (wire.failed <==> old(wire.failed) || r == Failed) && (wire.CanFail() ==> old(wire.CanFail()))
      ensures !whole ==> wire.short
      ensures Flow(log, accepted, list.Queue() + rest, wire.bytes, wbSize)
      ensures (list.head == null) == (list.items == [])
      ensures whole ==> list.items == old(list.items)[1..] && (list.items != [] ==> list.Valid())
      ensures !whole ==> list.items == old(list.items) && list.Valid()
    {
      hide Flow;
      var tmp := list.head;
      ghost var bytes := wire.bytes;
      r := WriteRest(tmp);
      whole := r.Wrote? && r.n == tmp.sz;
      if whole {
        assert tmp.pack.data[tmp.ptr..tmp.ptr + r.n] == tmp.pack.data[tmp.ptr..];
        Finished(list, rest, bytes);
      } else if r.Wrote? {
        Advanced(list, r.n, rest, bytes);
      }
    }

    /** `send_list_tcp`: writes buffer after buffer until one is not written whole; the caller closes
        the socket when it is told of an error. */
    method SendLoop(list: BufferList, ghost rest: seq<Pending>) returns (ok: bool)
      requires list.Valid()
      requires Flow(log, accepted, list.Queue() + rest, wire.bytes, wbSize)
      modifies this`log, this`wbSize, list, list.items, wire
      ensures list.Valid() && Suffix(list.items, old(list.items)) && (list.items != [] ==> wire.short)
      ensures (wire.failed <==> old(wire.failed) || !ok) && (wire.CanFail() ==> old(wire.CanFail()))
      ensures Flow(log, accepted, list.Queue() + rest, wire.bytes, wbSize)
    {
      hide Flow;
      ok := true;
      while list.head != null
        invariant (list.head == null) == (list.items == []) && (list.items != [] ==> list.Valid())
        invariant Suffix(list.items, old(list.items)) && wire.failed == old(wire.failed)
        invariant wire.CanFail() ==> old(wire.CanFail())
        invariant Flow(log, accepted, list.Queue() + rest, wire.bytes, wbSize)
        decreases |list.items|
      {
        ghost var was := list.items;
        var r, whole := WriteHead(list, rest);
        if !whole {
          return r != Failed;
        }
        SuffixNext(was, old(list.items));
      }
      list.tail := null;
    }

    /** A list stays as it is when none of its buffers changes. */
    twostate lemma Aside(other: BufferList)
      requires old(other.Valid()) && unchanged(other)
      requires forall i :: 0 <= i < |old(other.items)| ==> unchanged(old(other.items)[i])
      ensures other.Valid() && other.Queue() == old(other.Queue())
    {
    }

    method SendHigh() returns (ok: bool)
      requires Linked() && Flow(log, accepted, Queue(), wire.bytes, wbSize)
      modifies this`log, this`wbSize, high, high.items, wire
      ensures Linked() && Flow(log, accepted, Queue(), wire.bytes, wbSize)
      ensures low.items == old(low.items) && low.Queue() == old(low.Queue())
      ensures Suffix(high.items, old(high.items)) && (high.items != [] ==> wire.short)
      ensures (wire.failed <==> old(wire.failed) || !ok) && (wire.CanFail() ==> old(wire.CanFail()))
    {
      hide Flow;
      ok := SendLoop(high, low.Queue());
      Aside(low);
    }

    method SendLow() returns (ok: bool)
      requires Linked() && high.items == [] && Flow(log, accepted, Queue(), wire.bytes, wbSize)
      modifies this`log, this`wbSize, low, low.items, wire
      ensures Linked() && Flow(log, accepted, Queue(), wire.bytes, wbSize)
      ensures high.items == [] && Suffix(low.items, old(low.items)) && (low.items != [] ==> wire.short)
      ensures (wire.failed <==> old(wire.failed) || !ok) && (wire.CanFail() ==> old(wire.CanFail()))
    {
      hide Flow;
      assert Queue() == low.Queue() + [];
      ok := SendLoop(low, []);
      assert Queue() == low.Queue() + [];
    }

    /** `raise_uncomplete`: the first package of low priority, which was started, becomes the only
        one of the other list. */
    method RaiseUncomplete()
      requires Linked() && high.items == [] && low.items != []
      modifies high, low, low.items[0]
      ensures Linked() && Queue() == old(Queue())
      ensures high.items == [old(low.items[0])] && low.items == old(low.items)[1..]
    {
      hide Flow;
      var tmp := low.TakeHead();
      high.Append(tmp);
    }

    lemma Heads()
      requires Linked()
      ensures (high.head == null) == (high.items == []) && (low.head == null) == (low.items == [])
      ensures high != low && (low.items != [] ==> low.head == low.items[0])
      ensures Queue() == [] <==> high.items == [] && low.items == []
      ensures low.items != [] ==> low.Queue() != [] && low.items[0].ptr == low.Queue()[0].ptr
      ensures (high.tail != null ==> high.tail in high.items) && (low.tail != null ==> low.tail in low.items)
    {
    }

    /** The third step of `send_buffer`: a package of low priority that was started is no longer one
        of them. */
    method RaiseIfStarted()
      requires Linked() && high.items == [] && low.items != [] && Flow(log, accepted, Queue(), wire.bytes, wbSize)
      modifies high, low, low.items
      ensures Linked() && Queue() == old(Queue())
      ensures low.items != [] ==> low.items[0].ptr == 0
      ensures if old(low.items[0].ptr) == 0 then high.items == [] && low.items == old(low.items)
              else high.items == [old(low.items[0])] && low.items == old(low.items)[1..]
      ensures forall b :: b in high.items ==> b.ptr > 0
    {
      if low.head.ptr != 0 {
        AfterFirst(log, accepted, Queue(), wire.bytes, wbSize);
        assert Queue() == low.Queue();
        assert |low.items| > 1 ==> low.Queue()[1].ptr == 0;
        ghost var q := Queue();
        RaiseUncomplete();
        assert Queue()[0] == q[0];
      }
    }

    /** The second and the third step of `send_buffer`: packages of low priority are written when
        no others wait. */
    method SendLowest() returns (ok: bool)
      requires Linked() && high.items == [] && low.items != [] && Flow(log, accepted, Queue(), wire.bytes, wbSize)
      modifies this`log, this`wbSize, high, low, low.items, wire
      ensures Linked() && Flow(log, accepted, Queue(), wire.bytes, wbSize)
      ensures ok && low.items != [] ==> low.items[0].ptr == 0
      ensures ok ==> forall b :: b in high.items ==> b.ptr > 0
      ensures Queue() != [] ==> wire.short
      ensures (wire.failed <==> old(wire.failed) || !ok) && (wire.CanFail() ==> old(wire.CanFail()))
    {
      hide Flow, Linked;
      ok := SendLow();
      Heads();
      if ok && low.head != null {
        RaiseIfStarted();
      }
    }

    /** The steps of `send_buffer` when no package of high priority waits: it goes on with the others;
        if there is none, write events are turned off, and a half closed socket is to be closed. */
    method SendOthers() returns (ok: bool)
      requires Linked() && high.items == [] && Flow(log, accepted, Queue(), wire.bytes, wbSize)
      modifies this`log, this`wbSize, this`writing, high, low, low.items, wire
      ensures Linked() && Flow(log, accepted, Queue(), wire.bytes, wbSize)
      ensures ok && low.items != [] ==> low.items[0].ptr == 0
      ensures ok ==> forall b :: b in high.items ==> b.ptr > 0
      ensures Queue() != [] ==> wire.short
      ensures old(low.items) == [] ==>
        Queue() == [] && low.items == [] && !writing && (ok <==> kind != HalfClose) && wire.failed == old(wire.failed)
      ensures old(low.items) != [] ==> writing == old(writing) && (wire.failed <==> old(wire.failed) || !ok)
      ensures wire.CanFail() ==> old(wire.CanFail())
    {
      hide Flow, Linked;
      Heads();
      ok := true;
      if low.head != null {
        ok := SendLowest();
      } else {
        writing := false;
        if kind == HalfClose {
          ok := false;
        }
      }
    }

    /** `send_buffer`: what can be written is written, packages of high priority first. */
    method SendBuffer() returns (r: Report)
      requires Valid() && kind in {Connecting, Connected, HalfClose}
      modifies this, high, low, high.items, low.items, wire
      ensures Nearly() && accepted == old(accepted)
      ensures Valid() || (kind == Connecting && Queue() == [])
      ensures r == Close ==> wire.failed || (old(kind) == HalfClose && old(low.items) == [] && dropped == [])
      ensures r == Nothing && old(low.items) == [] ==> (writing <==> Queue() != []) && (old(kind) == HalfClose ==> Queue() != [])
      ensures r == Nothing && old(low.items) != [] ==> writing
      ensures r == Nothing ==> forall b :: b in high.items ==> b in old(high.items) || b.ptr > 0
      ensures (old(Queue()) == [] ==> Queue() == []) && (old(low.items) == [] ==> low.items == [])
      ensures Queue() != [] ==> wire.short
      ensures wire.CanFail() ==> old(wire.CanFail())
      ensures if r == Nothing then kind == old(kind) else r == Close && kind == Invalid
    {
      hide Flow, Linked;
      Heads();
      assert Queue() + [] == Queue();
      var ok := SendHigh();
      Heads();
      if ok && high.head == null {
        ok := SendOthers();
      }
      assert Queue() + [] == Queue();
      if !ok {
        ForceClose();
        return Close;
      }
      Heads();
      r := Nothing;
    }

    /** `append_sendbuffer`, for a package of which `n` bytes are written */
    method AppendHigh(pack: Package, n: nat)
      requires Linked() && n <= |pack.data| && (pack.low ==> high.items == [])
      modifies this`wbSize, high, high.tail
      ensures Linked() && wbSize == old(wbSize) + |pack.data| - n
      ensures high.Queue() == old(high.Queue()) + [Pending(pack, n)] && low.Queue() == old(low.Queue())
    {
      var left := high.AppendPackage(pack, n);
      wbSize := wbSize + left;
      Aside(low);
    }

    /** `append_sendbuffer_low` */
    method AppendLow(pack: Package)
      requires Linked() && pack.low
      modifies this`wbSize, low, low.tail
      ensures Linked() && wbSize == old(wbSize) + |pack.data|
      ensures low.Queue() == old(low.Queue()) + [Pending(pack, 0)] && high.Queue() == old(high.Queue())
    {
      var left := low.AppendPackage(pack, 0);
      wbSize := wbSize + left;
      Aside(high);
    }

    /** `send_socket` when nothing waits: the package is written at once, as far as possible. */
    method SendDirect(pack: Package) returns (r: Report)
      requires Valid() && kind == Connected && Queue() == []
      modifies this, high, low, high.tail, wire
      ensures Valid()
      ensures if r == Nothing then kind == Connected && accepted == old(accepted) + [pack] && dropped == []
              else r == Close && kind == Invalid && accepted == old(accepted) && wire.failed
      ensures Queue() != [] ==> wire.short
      ensures wire.CanFail() ==> old(wire.CanFail())
    {
      hide Flow, Linked;
      Heads();
      ghost var bytes := wire.bytes;
      assert Queue() + dropped == [];
      var w := wire.Write(pack.data);
      if w == Failed {
        ForceClose();
        return Close;
      }
      var n := if w.Wrote? then w.n else 0;
      assert wire.bytes == bytes + pack.data[..n];
      Direct(log, accepted, bytes, wbSize, pack, n);
      accepted := accepted + [pack];
      if n > 0 || n == |pack.data| {
        log := log + [pack];
      }
      if n == |pack.data| {
        assert wbSize + |pack.data| - n == wbSize;
        return Nothing;
      }
      WaitForRest(pack, n);
      r := Nothing;
    }

    /** The rest of a package waits alone. */
    method WaitForRest(pack: Package, n: nat)
      requires Linked() && Queue() == [] && dropped == [] && kind == Connected && !wire.failed && n <= |pack.data|
      requires Flow(log, accepted, [Pending(pack, n)], wire.bytes, wbSize + |pack.data| - n)
      modifies this`wbSize, this`writing, high, high.tail
      ensures Valid()
    {
      hide Flow, Linked;
      Heads();
      AppendHigh(pack, n);
      Heads();
      writing := true;
      assert Queue() + dropped == [Pending(pack, n)];
    }

    /** `send_socket` when something waits or the connection is not established: the package waits
        behind those of its priority. */
    method SendLater(pack: Package)
      requires Valid() && kind in {Connecting, Connected} && !(kind == Connected && Queue() == [])
      modifies this, high, low, high.tail, low.tail
      ensures Valid() && kind == old(kind) && accepted == old(accepted) + [pack] && dropped == []
    {
      hide Flow, Linked;
      Heads();
      ghost var h, l := high.Queue(), low.Queue();
      assert Queue() + dropped == h + l;
      if pack.low {
        assert h + l == h + l + [];
        Insert(log, accepted, h + l, [], wire.bytes, wbSize, pack);
        AppendLow(pack);
        assert Queue() + dropped == h + l + [Pending(pack, 0)] + [];
      } else {
        LowWaits();
        Insert(log, accepted, h, l, wire.bytes, wbSize, pack);
        AppendHigh(pack, 0);
        assert Queue() + dropped == h + [Pending(pack, 0)] + l;
      }
      accepted := accepted + [pack];
      Heads();
    }

    /** Packages of low priority wait whole. */
    lemma LowWaits()
      requires Nearly()
      ensures forall i :: 0 <= i < |low.Queue()| ==> low.Queue()[i].pack.low && low.Queue()[i].ptr == 0
    {
      AfterFirst(log, accepted, Queue() + dropped, wire.bytes, wbSize);
      forall i | 0 <= i < |low.Queue()| ensures low.Queue()[i].pack.low && low.Queue()[i].ptr == 0 {
        assert low.Queue()[i] == (Queue() + dropped)[|high.Queue()| + i];
      }
    }

    /** Whether packages for `id` are taken. */
    predicate Takes(id: int)
      reads this
    {
      this.id == id && kind in {Connecting, Connected}
    }

    /** `send_socket` */
    method Send(id: int, pack: Package) returns (r: Report)
      requires Valid()
      modifies this, high, low, high.tail, low.tail, wire
      ensures Valid()
      ensures !old(Takes(id)) ==> r == Nothing && kind == old(kind) && accepted == old(accepted)
      ensures old(Takes(id)) && r == Nothing ==> kind == old(kind) && accepted == old(accepted) + [pack]
      ensures old(Takes(id)) && r != Nothing ==> r == Close && kind == Invalid && accepted == old(accepted) && wire.failed
      ensures dropped == old(dropped) || wire.failed
      ensures old(Takes(id)) && old(kind) == Connected && old(Queue()) == [] && Queue() != [] ==> wire.short
      ensures wire.CanFail() ==> old(wire.CanFail())
    {
      hide Flow, Linked;
      Heads();
      if kind == Invalid || this.id != id || kind == HalfClose || kind == PAccept {
        return Nothing;
      }
      if kind == PListen || kind == Listen {
        return Nothing;
      }
      if high.head == null && low.head == null && kind == Connected {
        r := SendDirect(pack);
      } else {
        SendLater(pack);
        r := Nothing;
      }
    }

    /** `close_socket`: unless it is to be shut down, the socket stays until all that waits is
        written; nothing is thrown away then, unless the connection failed. */
    method CloseSocket(id: int, shutdown: bool) returns (r: Report)
      requires Valid()
      modifies this, high, low, high.items, low.items, wire
      ensures Valid() && accepted == old(accepted)
      ensures old(kind) == Invalid || this.id != id ==> r == Close && kind == old(kind) && dropped == old(dropped)
      ensures old(kind) != Invalid && this.id == id ==>
        if r == Nothing then kind == HalfClose && Queue() != [] && !shutdown
        else r == Close && kind == Invalid && (shutdown || dropped == [] || wire.failed)
      ensures Queue() != [] && kind == HalfClose && old(kind) != Invalid && this.id == id ==> wire.short
      ensures wire.CanFail() ==> old(wire.CanFail())
    {
      hide Flow, Linked;
      Heads();
      if kind == Invalid || this.id != id {
        return Close;
      }
      if !(high.head == null && low.head == null) {
        r := SendBuffer();
        if r != Nothing {
          return;
        }
      }
      Heads();
      assert Queue() + [] == Queue();
      if shutdown || (high.head == null && low.head == null) {
        ForceClose();
        return Close;
      }
      kind := HalfClose;
      r := Nothing;
    }

    /** `start_socket`; `added` says whether the socket could be added to the poll. */
    method Start(id: int, added: bool) returns (r: Report)
      requires Valid()
      modifies this, high, low
      ensures Valid() && accepted == old(accepted)
      ensures kind == (
          if this.id != id || old(kind) !in {PAccept, PListen} then old(kind)
          else if !added then Invalid
          else if old(kind) == PAccept then Connected
          else Listen)
      ensures dropped == old(dropped) || !added
      ensures r == (
          if this.id != id || old(kind) == Invalid || kind == Invalid then Error
          else if old(kind) in {PAccept, PListen, Connected} then Open
          else Nothing)
    {
      hide Flow, Linked;
      Heads();
      assert Queue() + [] == Queue();
      if kind == Invalid || this.id != id {
        return Error;
      }
      if kind == PAccept || kind == PListen {
        if !added {
          ForceClose();
          return Error;
        }
        kind := if kind == PAccept then Connected else Listen;
        return Open;
      } else if kind == Connected {
        return Open;
      }
      r := Nothing;
    }

    /** `report_connect` */
    method ReportConnect(ok: bool) returns (r: Report)
      requires Valid() && kind == Connecting
      modifies this, high, low
      ensures Valid() && accepted == old(accepted)
      ensures if ok then r == Open && kind == Connected && Queue() == old(Queue()) else r == Error && kind == Invalid
      ensures ok ==> (writing <==> Queue() != [])
      ensures dropped == old(dropped) || !ok
    {
      hide Flow, Linked;
      Heads();
      assert Queue() + [] == Queue();
      if !ok {
        ForceClose();
        return Error;
      }
      kind := Connected;
      if high.head == null && low.head == null {
        writing := false;
      }
      r := Open;
    }

    /** The poll found that the socket can be written to. */
    method WriteEvent(connected: bool) returns (r: Report)
      requires Valid() && writing
      modifies this, high, low, high.items, low.items, wire
      ensures Valid() && accepted == old(accepted)
      ensures kind == (
          if old(kind) == Connecting then (if connected then Connected else Invalid)
          else if r == Nothing then old(kind)
          else Invalid)
      ensures if old(kind) == Connecting then r == (if connected then Open else Error) else r in {Nothing, Close}
      ensures r != Nothing ==> old(kind) in {Connecting, HalfClose} || wire.failed
      ensures dropped == old(dropped) || wire.failed || !connected
      ensures old(kind) == HalfClose && old(Queue()) == [] ==> r == Close
      ensures old(kind) == HalfClose && old(low.items) == [] && r == Nothing ==> high.items != []
      ensures kind == Connected && old(low.items) == [] ==> (writing <==> Queue() != [])
      ensures old(kind) in {Connected, HalfClose} && Queue() != [] ==> wire.short
      ensures wire.CanFail() ==> old(wire.CanFail())
    {
      if kind == Connecting {
        r := ReportConnect(connected);
      } else {
        r := SendBuffer();
      }
    }

    /** What a valid socket has on the wire: whole packages, and of one more package, which heads
        the queue, a part. Of each priority it wrote a first part of what it accepted, in order;
        it wrote all of it when nothing waits and nothing was thrown away. */
    lemma OnTheWire(low: bool)
      requires Valid()
      ensures WholePackages(wire.bytes, log, Queue() + dropped)
      ensures Of(log, low) <= Of(accepted, low)
      ensures Queue() + dropped == [] ==> wire.bytes == Flat(log) && Of(log, low) == Of(accepted, low)
      ensures wbSize == Left(Queue() + dropped)
    {
      FirstStarted(log, accepted, Queue() + dropped, wire.bytes, wbSize, low);
    }
  }

  /** What can happen to a socket. */
  datatype Event =
    | Sent(id: int, pack: Package)
    | Closed(id: int, shutdown: bool)
    | Started(id: int, added: bool)
    | CanWrite(connected: bool)
    | Lost

  /** The kind of a socket after an event and its report. */
  function KindAfter(id: int, kind: Kind, e: Event, r: Report): Kind {
    if kind == Invalid then Invalid
    else
      match e
      case Sent(_, _) => if r == Nothing then kind else Invalid
      case Closed(to, _) => if to != id then kind else if r == Nothing then HalfClose else Invalid
      case Started(to, added) =>
        if to != id || kind !in {PAccept, PListen} then kind
        else if !added then Invalid
        else if kind == PAccept then Connected
        else Listen
      case CanWrite(connected) =>
        if kind == Connecting then (if connected then Connected else Invalid)
        else if r == Nothing then kind
        else Invalid
      case Lost => Invalid
  }

  /** A package is accepted by a socket that is connected or connecting, unless writing it at once
      failed. */
  predicate Accepts(id: int, kind: Kind, e: Event, r: Report) {
    e.Sent? && e.id == id && kind in {Connecting, Connected} && r == Nothing
  }

  /** What may make packages get lost. */
  predicate Breaks(e: Event) {
    e.Lost? || (e.Closed? && e.shutdown) || (e.Started? && !e.added) || (e.CanWrite? && !e.connected)
  }

  function KindOf(id: int, kind: Kind, events: seq<Event>, reports: seq<Report>): Kind
    requires |events| == |reports|
  {
    if events == [] then kind
    else
      var n := |events| - 1;
      KindAfter(id, KindOf(id, kind, events[..n], reports[..n]), events[n], reports[n])
  }

  /** The packages that were accepted. */
  function AcceptedOf(id: int, kind: Kind, events: seq<Event>, reports: seq<Report>): seq<Package>
    requires |events| == |reports|
  {
    if events == [] then []
    else
      var n := |events| - 1;
      var before := KindOf(id, kind, events[..n], reports[..n]);
      AcceptedOf(id, kind, events[..n], reports[..n])
      + if Accepts(id, before, events[n], reports[n]) then [events[n].pack] else []
  }

  /** A send, or writing to a connected socket, ended with an error. */
  predicate FailsAt(kind: Kind, e: Event, r: Report) {
    (e.Sent? || (e.CanWrite? && kind == Connected)) && r != Nothing
  }

  predicate FailsIn(id: int, kind: Kind, events: seq<Event>, reports: seq<Report>)
    requires |events| == |reports|
  {
    if events == [] then false
    else
      var n := |events| - 1;
      || FailsIn(id, kind, events[..n], reports[..n])
      || FailsAt(KindOf(id, kind, events[..n], reports[..n]), events[n], reports[n])
  }

  /** In which lists something waits. */
  datatype Waits = Waits(high: bool, low: bool)

  /** A half closed socket on which nothing waits is closed when it can be written to; one on which
      only packages of high priority wait is closed at once when all of them are written. */
  predicate ClosesAt(kind: Kind, e: Event, r: Report, was: Waits, now: Waits) {
    kind == HalfClose && e.CanWrite? && !was.low ==> r == Close || (was.high && now.high)
  }

  predicate ClosesInTime(id: int, kind: Kind, events: seq<Event>, reports: seq<Report>, waits: seq<Waits>)
    requires |events| == |reports| == |waits|
  {
    if events == [] then true
    else
      var n := |events| - 1;
      && ClosesInTime(id, kind, events[..n], reports[..n], waits[..n])
      && ClosesAt(KindOf(id, kind, events[..n], reports[..n]), events[n], reports[n], LastOf(waits[..n]), waits[n])
  }

  /** At first nothing waits. */
  function LastOf(waits: seq<Waits>): Waits {
    if waits == [] then Waits(false, false) else waits[|waits| - 1]
  }

  ghost function WaitsOf(s: Socket): Waits
    reads s, s.high, s.low
  {
    Waits(s.high.items != [], s.low.items != [])
  }

  method Happen(s: Socket, e: Event) returns (r: Report)
    requires s.Valid()
    modifies s, s.high, s.low, s.high.items, s.low.items, s.wire
    ensures s.Valid() && s.kind == KindAfter(s.id, old(s.kind), e, r)
    ensures e.Lost? ==> r == Close
    ensures s.accepted == old(s.accepted) + if Accepts(s.id, old(s.kind), e, r) then [e.pack] else []
    ensures FailsAt(old(s.kind), e, r) ==> s.wire.failed
    ensures ClosesAt(old(s.kind), e, r, old(WaitsOf(s)), WaitsOf(s))
    ensures s.dropped == old(s.dropped) || s.dropped == [] || s.wire.failed || Breaks(e)
    ensures s.wire.CanFail() ==> old(s.wire.CanFail())
  {
    hide Flow, Socket.Linked;
    s.Heads();
    r := Nothing;
    match e {
      case Sent(to, pack) =>
        r := s.Send(to, pack);
      case Closed(to, shutdown) =>
        r := s.CloseSocket(to, shutdown);
      case Started(to, added) =>
        r := s.Start(to, added);
      case CanWrite(connected) =>
        if s.writing {
          r := s.WriteEvent(connected);
        }
      case Lost =>
        assert s.Queue() + [] == s.Queue();
        s.ForceClose();
        r := Close;
    }
  }

  /** What was so at a time is so after a run, as the events and the reports tell. */
  ghost predicate Ran(s: Socket, id: int, script: seq<Outcome>, kind: Kind, events: seq<Event>, reports: seq<Report>, waits: seq<Waits>)
    reads s, s.high, s.low, s.wire, s.high.items, s.low.items
  {
    && s.Valid() && s.id == id && |reports| == |events| == |waits|
    && LastOf(waits) == WaitsOf(s) && ClosesInTime(id, kind, events, reports, waits)
    && s.kind == KindOf(id, kind, events, reports) && s.accepted == AcceptedOf(id, kind, events, reports)
    && (s.wire.CanFail() ==> Failed in script)
    && (s.dropped != [] ==> Failed in script || exists e :: e in events && Breaks(e))
    && (FailsIn(id, kind, events, reports) ==> Failed in script)
  }

  method HappenNext(s: Socket, ghost id: int, ghost script: seq<Outcome>, ghost kind: Kind, ghost events: seq<Event>, ghost reports: seq<Report>, ghost waits: seq<Waits>, e: Event) returns (r: Report)
    requires Ran(s, id, script, kind, events, reports, waits)
    modifies s, s.high, s.low, s.high.items, s.low.items, s.wire
    ensures Ran(s, id, script, kind, events + [e], reports + [r], waits + [WaitsOf(s)])
  {
    hide Flow, Socket.Linked, Socket.Valid, KindAfter, Accepts, Breaks, KindOf, AcceptedOf, FailsAt, FailsIn, ClosesAt, ClosesInTime;
    r := Happen(s, e);
    NextReport(id, kind, events, reports, e, r);
    NextWaits(id, kind, events, reports, waits, e, r, WaitsOf(s));
    assert e in events + [e];
    assert forall d :: d in events ==> d in events + [e];
  }

  /** Buffers that belong to a new list are new. */
  twostate lemma NewItems(new list: BufferList)
    requires list.Valid() && fresh(list)
    requires forall b: WriteBuffer {:trigger b.owner} :: !fresh(b) ==> b.owner == old(b.owner)
    ensures fresh(list.items)
  {
  }

  lemma RanLists(s: Socket, id: int, script: seq<Outcome>, kind: Kind, events: seq<Event>, reports: seq<Report>, waits: seq<Waits>)
    requires Ran(s, id, script, kind, events, reports, waits)
    ensures s.high.Valid() && s.low.Valid()
  {
  }

  lemma NothingRan(s: Socket, script: seq<Outcome>)
    requires s.Valid() && s.accepted == [] && s.dropped == [] && s.wire.script == script && !s.wire.failed
    requires WaitsOf(s) == Waits(false, false)
    ensures Ran(s, s.id, script, s.kind, [], [], [])
  {
  }

  method RunAll(events: seq<Event>, id: int, script: seq<Outcome>, kind: Kind) returns (s: Socket, reports: seq<Report>, ghost waits: seq<Waits>)
    requires kind in {PListen, Connecting, Connected, PAccept}
    ensures Ran(s, id, script, kind, events, reports, waits)
  {
    hide *;
    s := new Socket(id, script, kind);
    reports, waits := [], [];
    NothingRan(s, script);
    ghost var done: seq<Event> := [];
    for i := 0 to |events|
      invariant fresh(s) && fresh(s.high) && fresh(s.low) && fresh(s.wire)
      invariant Ran(s, id, script, kind, done, reports, waits) && done == events[..i]
    {
      RanLists(s, id, script, kind, done, reports, waits);
      NewItems(s.high);
      NewItems(s.low);
      var r := HappenNext(s, id, script, kind, done, reports, waits, events[i]);
      reports, waits := reports + [r], waits + [WaitsOf(s)];
      done := done + [events[i]];
    }
    assert done == events;
  }

  /** For every sequence of sends, partial writes, write events, closes and losses: the accepted
      packages are those that were sent while the socket was connected or connecting; of each
      priority the wire has a first part of them, in order, and all of them when nothing waits and
      nothing was thrown away; that happens only when the connection fails or on the events that
      break it; while something waits, or the socket is half closed, it is told when it can be written
      to; and a half closed socket is closed in time. */
  method Run(events: seq<Event>, id: int, script: seq<Outcome>, kind: Kind) returns (s: Socket, reports: seq<Report>, ghost waits: seq<Waits>)
    requires kind in {PListen, Connecting, Connected, PAccept}
    ensures s.Valid() && |reports| == |events| == |waits|
    ensures LastOf(waits) == WaitsOf(s) && ClosesInTime(id, kind, events, reports, waits)
    ensures s.kind == KindOf(id, kind, events, reports) && s.accepted == AcceptedOf(id, kind, events, reports)
    ensures FailsIn(id, kind, events, reports) ==> Failed in script
    ensures WholePackages(s.wire.bytes, s.log, s.Queue() + s.dropped)
    ensures forall low: bool :: Of(s.log, low) <= Of(s.accepted, low)
    ensures s.Queue() == [] && s.dropped == [] ==>
      s.wire.bytes == Flat(s.log) && forall low: bool :: Of(s.log, low) == Of(s.accepted, low)
    ensures s.dropped != [] ==> Failed in script || exists e :: e in events && Breaks(e)
    ensures s.Queue() != [] ==> s.writing && s.kind in {Connecting, Connected, HalfClose}
    ensures s.kind == HalfClose ==> s.writing
  {
    s, reports, waits := RunAll(events, id, script, kind);
    forall low: bool
      ensures Of(s.log, low) <= Of(s.accepted, low)
      ensures s.Queue() + s.dropped == [] ==> s.wire.bytes == Flat(s.log) && Of(s.log, low) == Of(s.accepted, low)
    {
      s.OnTheWire(low);
    }
    s.OnTheWire(false);
  }

  lemma NextWaits(id: int, kind: Kind, events: seq<Event>, reports: seq<Report>, waits: seq<Waits>, e: Event, r: Report, now: Waits)
    requires |events| == |reports| == |waits|
    ensures ClosesInTime(id, kind, events + [e], reports + [r], waits + [now]) <==>
      ClosesInTime(id, kind, events, reports, waits) && ClosesAt(KindOf(id, kind, events, reports), e, r, LastOf(waits), now)
  {
    assert (events + [e])[..|events|] == events && (reports + [r])[..|reports|] == reports && (waits + [now])[..|waits|] == waits;
  }

  lemma NextReport(id: int, kind: Kind, events: seq<Event>, reports: seq<Report>, e: Event, r: Report)
    requires |events| == |reports|
    ensures KindOf(id, kind, events + [e], reports + [r]) == KindAfter(id, KindOf(id, kind, events, reports), e, r)
    ensures AcceptedOf(id, kind, events + [e], reports + [r]) == AcceptedOf(id, kind, events, reports)
      + if Accepts(id, KindOf(id, kind, events, reports), e, r) then [e.pack] else []
    ensures FailsIn(id, kind, events + [e], reports + [r]) <==>
      FailsIn(id, kind, events, reports) || FailsAt(KindOf(id, kind, events, reports), e, r)
  {
    assert (events + [e])[..|events|] == events && (reports + [r])[..|reports|] == reports;
  }
}
