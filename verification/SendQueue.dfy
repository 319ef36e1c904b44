/** What waits to be written to a socket of skynet/skynet-src/socket_server.c, and what has been
    written: an order of packages of two priorities. */
module SendQueue {
  import opened Bytes

  datatype Package = Package(data: seq<byte>, low: bool)

  /** A package whose first `ptr` bytes are written. */
  datatype Pending = Pending(pack: Package, ptr: nat)

  ghost function Flat(ps: seq<Package>): seq<byte> {
    if ps == [] then [] else Flat(ps[..|ps| - 1]) + ps[|ps| - 1].data
  }

  /** The packages of one priority, in order. */
  ghost function Of(ps: seq<Package>, low: bool): seq<Package> {
    if ps == [] then []
    else Of(ps[..|ps| - 1], low) + if ps[|ps| - 1].low == low then [ps[|ps| - 1]] else []
  }

  ghost function Packs(q: seq<Pending>): (r: seq<Package>)
    ensures |r| == |q| && forall i :: 0 <= i < |q| ==> r[i] == q[i].pack
  {
    if q == [] then [] else [q[0].pack] + Packs(q[1..])
  }

  /** The number of bytes still to be written. */
  ghost function Left(q: seq<Pending>): int {
    if q == [] then 0 else |q[0].pack.data| - q[0].ptr + Left(q[1..])
  }

  ghost predicate Started(q: seq<Pending>) {
    q != [] && q[0].ptr > 0
  }

  /** The packages of which nothing is written. */
  ghost function Waiting(q: seq<Pending>): seq<Package> {
    Packs(if Started(q) then q[1..] else q)
  }

  /** Only the first package may be partly written. */
  ghost predicate Fronted(q: seq<Pending>) {
    && (forall i :: 0 <= i < |q| ==> q[i].ptr <= |q[i].pack.data|)
    && (forall i :: 0 < i < |q| ==> q[i].ptr == 0)
  }

  /** The packages that were started are on the wire, whole but for the last one, if its rest
      heads the queue. */
  ghost predicate Written(log: seq<Package>, q: seq<Pending>, wire: seq<byte>) {
    if Started(q) then
      && q[0].ptr < |q[0].pack.data| && log != [] && log[|log| - 1] == q[0].pack
      && wire == Flat(log[..|log| - 1]) + q[0].pack.data[..q[0].ptr]
    else wire == Flat(log)
  }

  /** For each priority the packages that were started and those that wait are, in order, all
      that were accepted. */
  ghost predicate InOrder(log: seq<Package>, accepted: seq<Package>, q: seq<Pending>) {
    forall low: bool :: Of(log, low) + Of(Waiting(q), low) == Of(accepted, low)
  }

  ghost predicate Flow(log: seq<Package>, accepted: seq<Package>, q: seq<Pending>, wire: seq<byte>, size: int) {
    Fronted(q) && Written(log, q, wire) && InOrder(log, accepted, q) && size == Left(q)
  }

  lemma {:induction false} OfPlus(a: seq<Package>, b: seq<Package>, low: bool)
    ensures Of(a + b, low) == Of(a, low) + Of(b, low)
  {
    if b == [] {
      assert a + b == a;
    } else {
      var c := b[..|b| - 1];
      assert (a + b)[..|a + b| - 1] == a + c;
      OfPlus(a, c, low);
    }
  }

  lemma {:induction false} LeftPlus(a: seq<Pending>, b: seq<Pending>)
    ensures Left(a + b) == Left(a) + Left(b)
  {
    if a == [] {
      assert a + b == b;
    } else {
      assert (a + b)[1..] == a[1..] + b;
      LeftPlus(a[1..], b);
    }
  }

  lemma {:induction false} NoneOf(ps: seq<Package>, low: bool)
    requires forall i :: 0 <= i < |ps| ==> ps[i].low != low
    ensures Of(ps, low) == []
  {
    if ps != [] {
      NoneOf(ps[..|ps| - 1], low);
    }
  }

  lemma OfOne(p: Package, low: bool)
    ensures Of([p], low) == if p.low == low then [p] else []
  {
    assert [p][..0] == [];
    assert Of([p], low) == Of([p][..0], low) + if p.low == low then [p] else [];
  }

  /** The log when the first package of the queue has been written to. */
  ghost function LogStarted(log: seq<Package>, q: seq<Pending>): seq<Package>
    requires q != []
  {
    if Started(q) then log else log + [q[0].pack]
  }

  /** The package at the front is started or goes on: the log and what waits are as they should be. */
  lemma {:induction false} StartedKeeps(log: seq<Package>, accepted: seq<Package>, q: seq<Pending>, low: bool)
    requires q != [] && Of(log, low) + Of(Waiting(q), low) == Of(accepted, low)
    ensures Of(LogStarted(log, q), low) + Of(Packs(q[1..]), low) == Of(accepted, low)
  {
    if !Started(q) {
      assert Packs(q) == [q[0].pack] + Packs(q[1..]);
      OfPlus([q[0].pack], Packs(q[1..]), low);
      OfPlus(log, [q[0].pack], low);
    }
  }

  /** Writing some bytes of the first package, but not all. */
  lemma {:induction false} Advance(log: seq<Package>, accepted: seq<Package>, q: seq<Pending>, wire: seq<byte>, size: int, n: nat)
    requires Flow(log, accepted, q, wire, size) && q != []
    requires 0 < n < |q[0].pack.data| - q[0].ptr
    ensures Flow(LogStarted(log, q), accepted, [Pending(q[0].pack, q[0].ptr + n)] + q[1..],
                 wire + q[0].pack.data[q[0].ptr..q[0].ptr + n], size - n)
  {
    var p, k := q[0].pack, q[0].ptr;
    var r := [Pending(p, k + n)] + q[1..];
    assert r[1..] == q[1..];
    assert InOrder(LogStarted(log, q), accepted, r) by {
      hide Of, Packs;
      forall low: bool ensures Of(LogStarted(log, q), low) + Of(Waiting(r), low) == Of(accepted, low) {
        StartedKeeps(log, accepted, q, low);
      }
    }
    hide Of, Packs, InOrder, Flat;
    WrittenMore(log, q, wire, n);
  }

  lemma {:induction false} WrittenMore(log: seq<Package>, q: seq<Pending>, wire: seq<byte>, n: nat)
    requires Written(log, q, wire) && q != []
    requires 0 < n < |q[0].pack.data| - q[0].ptr
    ensures Written(LogStarted(log, q), [Pending(q[0].pack, q[0].ptr + n)] + q[1..], wire + q[0].pack.data[q[0].ptr..q[0].ptr + n])
  {
    var p, k := q[0].pack, q[0].ptr;
    if Started(q) {
      assert p.data[..k] + p.data[k..k + n] == p.data[..k + n];
      assert Flat(log[..|log| - 1]) + p.data[..k] + p.data[k..k + n] == Flat(log[..|log| - 1]) + p.data[..k + n];
    } else {
      assert (log + [p])[..|log|] == log;
    }
  }

  /** Writing the rest of the first package. */
  lemma {:induction false} Finish(log: seq<Package>, accepted: seq<Package>, q: seq<Pending>, wire: seq<byte>, size: int)
    requires Flow(log, accepted, q, wire, size) && q != []
    ensures Flow(LogStarted(log, q), accepted, q[1..], wire + q[0].pack.data[q[0].ptr..], size - (|q[0].pack.data| - q[0].ptr))
  {
    assert InOrder(LogStarted(log, q), accepted, q[1..]) by {
      hide Of, Packs;
      forall low: bool ensures Of(LogStarted(log, q), low) + Of(Waiting(q[1..]), low) == Of(accepted, low) {
        StartedKeeps(log, accepted, q, low);
      }
    }
    hide Of, Packs, InOrder;
    WrittenAll(log, q, wire);
  }

  lemma {:induction false} WrittenAll(log: seq<Package>, q: seq<Pending>, wire: seq<byte>)
    requires Written(log, q, wire) && q != [] && Fronted(q)
    ensures Written(LogStarted(log, q), q[1..], wire + q[0].pack.data[q[0].ptr..])
  {
    var p, k := q[0].pack, q[0].ptr;
    assert p.data[..k] + p.data[k..] == p.data;
    if !Started(q) {
      assert (log + [p])[..|log|] == log;
      assert p.data[0..] == p.data;
    }
  }

  /** A package is put behind the first part of the queue, in front of packages of low priority
      only; or at the end. */
  lemma {:induction false} Insert(log: seq<Package>, accepted: seq<Package>, high: seq<Pending>, low: seq<Pending>, wire: seq<byte>, size: int, p: Package)
    requires Flow(log, accepted, high + low, wire, size)
    requires low != [] ==> !p.low
    requires forall i :: 0 <= i < |low| ==> low[i].pack.low && low[i].ptr == 0
    ensures Flow(log, accepted + [p], high + [Pending(p, 0)] + low, wire, size + |p.data|)
  {
    var q, r := high + low, high + [Pending(p, 0)] + low;
    assert Left(r) == Left(q) + |p.data| by {
      LeftPlus(high, low);
      LeftPlus(high + [Pending(p, 0)], low);
      LeftPlus(high, [Pending(p, 0)]);
      assert Left([Pending(p, 0)]) == |p.data| + Left([]);
    }
    assert InOrder(log, accepted + [p], r) by {
      hide Of, Packs, Waiting;
      forall b: bool ensures Of(log, b) + Of(Waiting(r), b) == Of(accepted + [p], b) {
        InsertOf(log, accepted, high, low, p, b);
      }
    }
    hide Of, Packs, Waiting, InOrder, Left, Flat;
    InsertFront(log, high, low, wire, p);
  }

  lemma {:induction false} InsertFront(log: seq<Package>, high: seq<Pending>, low: seq<Pending>, wire: seq<byte>, p: Package)
    requires Fronted(high + low) && Written(log, high + low, wire)
    requires forall i :: 0 <= i < |low| ==> low[i].ptr == 0
    ensures Fronted(high + [Pending(p, 0)] + low) && Written(log, high + [Pending(p, 0)] + low, wire)
  {
    hide Flat;
    var q, r := high + low, high + [Pending(p, 0)] + low;
    assert forall i :: 0 <= i < |high| ==> q[i] == r[i] == high[i];
    assert forall i :: 0 <= i < |low| ==> q[|high| + i] == r[|high| + 1 + i] == low[i];
  }

  lemma {:induction false} InsertOf(log: seq<Package>, accepted: seq<Package>, high: seq<Pending>, low: seq<Pending>, p: Package, b: bool)
    requires Of(log, b) + Of(Waiting(high + low), b) == Of(accepted, b)
    requires low != [] ==> !p.low
    requires forall i :: 0 <= i < |low| ==> low[i].pack.low && low[i].ptr == 0
    ensures Of(log, b) + Of(Waiting(high + [Pending(p, 0)] + low), b) == Of(accepted + [p], b)
  {
    hide Of, Packs, Waiting;
    var head, rest := Waiting(high), Packs(low);
    var one := [Pending(p, 0)];
    WaitingPlus(high, low);
    WaitingPlus(high, one);
    WaitingPlus(high + one, low);
    OnePack(p);
    OfPlus(head, rest, b);
    OfPlus(head + [p], rest, b);
    OfPlus(head, [p], b);
    OfPlus(accepted, [p], b);
    OfOne(p, b);
    if low != [] && !b {
      NoneOf(rest, b);
    } else if low == [] {
      NoneOf(rest, b);
    }
    Rearrange(Of(log, b), Of(head, b), Of([p], b), Of(rest, b), Of(accepted, b));
  }

  lemma Rearrange<T>(l: seq<T>, a: seq<T>, x: seq<T>, c: seq<T>, all: seq<T>)
    requires l + (a + c) == all && (x == [] || c == [])
    ensures l + (a + x + c) == all + x
  {
    if x == [] {
      assert a + x == a;
    } else {
      assert a + x + c == a + x && a + c == a;
      assert l + (a + x) == l + a + x;
    }
  }

  lemma {:induction false} PacksPlus(a: seq<Pending>, b: seq<Pending>)
    ensures Packs(a + b) == Packs(a) + Packs(b)
  {
    if a == [] {
      assert a + b == b;
    } else {
      assert (a + b)[1..] == a[1..] + b;
      PacksPlus(a[1..], b);
    }
  }

  lemma {:induction false} WaitingPlus(a: seq<Pending>, b: seq<Pending>)
    requires forall i :: 0 <= i < |b| ==> b[i].ptr == 0
    ensures Waiting(a + b) == Waiting(a) + Packs(b)
  {
    hide Packs;
    PacksPlus(a, b);
    if a == [] {
      assert a + b == b;
    } else if Started(a) {
      assert (a + b)[0] == a[0];
      assert (a + b)[1..] == a[1..] + b;
      PacksPlus(a[1..], b);
    } else {
      assert (a + b)[0] == a[0];
    }
  }

  lemma OnePack(p: Package)
    ensures Packs([Pending(p, 0)]) == [p]
  {
    assert [Pending(p, 0)][1..] == [];
  }

  /** The packages of a priority that were started are the first that were accepted. */
  lemma FirstStarted(log: seq<Package>, accepted: seq<Package>, q: seq<Pending>, wire: seq<byte>, size: int, low: bool)
    requires Flow(log, accepted, q, wire, size)
    ensures Of(log, low) <= Of(accepted, low)
    ensures q == [] ==> wire == Flat(log) && size == 0 && Of(log, low) == Of(accepted, low)
  {
    if q == [] {
      assert Waiting(q) == [];
    }
  }

  lemma NothingFlows()
    ensures Flow([], [], [], [], 0)
  {
  }

  /** The same for a queue in two parts, the first of which is not empty. */
  lemma {:induction false} HeadAdvanced(log: seq<Package>, accepted: seq<Package>, q: seq<Pending>, rest: seq<Pending>, wire: seq<byte>, size: int, n: nat)
    requires q != [] && Flow(log, accepted, q + rest, wire, size)
    requires n < |q[0].pack.data| - q[0].ptr
    ensures Flow(if n > 0 then LogStarted(log, q + rest) else log, accepted,
                 q[0 := Pending(q[0].pack, q[0].ptr + n)] + rest,
                 wire + q[0].pack.data[q[0].ptr..q[0].ptr + n], size - n)
  {
    hide Flow;
    var r := q[0 := Pending(q[0].pack, q[0].ptr + n)];
    if n > 0 {
      Advance(log, accepted, q + rest, wire, size, n);
      assert [Pending(q[0].pack, q[0].ptr + n)] + (q + rest)[1..] == r + rest;
    } else {
      assert r == q;
      assert wire + q[0].pack.data[q[0].ptr..q[0].ptr] == wire;
    }
  }

  lemma {:induction false} HeadFinished(log: seq<Package>, accepted: seq<Package>, q: seq<Pending>, rest: seq<Pending>, wire: seq<byte>, size: int)
    requires q != [] && Flow(log, accepted, q + rest, wire, size)
    ensures Flow(LogStarted(log, q + rest), accepted, q[1..] + rest, wire + q[0].pack.data[q[0].ptr..],
                 size - (|q[0].pack.data| - q[0].ptr))
  {
    hide Flow;
    Finish(log, accepted, q + rest, wire, size);
    assert (q + rest)[1..] == q[1..] + rest;
  }

  /** Nothing but the first package can have been started. */
  lemma AfterFirst(log: seq<Package>, accepted: seq<Package>, q: seq<Pending>, wire: seq<byte>, size: int)
    requires Flow(log, accepted, q, wire, size)
    ensures forall i :: 0 < i < |q| ==> q[i].ptr == 0
  {
  }

  /** A package is written to when nothing waits: what is not written of it waits. */
  lemma {:induction false} Direct(log: seq<Package>, accepted: seq<Package>, wire: seq<byte>, size: int, p: Package, n: nat)
    requires Flow(log, accepted, [], wire, size) && n <= |p.data|
    ensures Flow(if n > 0 || n == |p.data| then log + [p] else log, accepted + [p],
                 if n == |p.data| then [] else [Pending(p, n)], wire + p.data[..n], size + |p.data| - n)
  {
    hide Flow;
    var q := [Pending(p, 0)];
    var none: seq<Pending> := [];
    assert none + none == none && none + q + none == q && q[1..] == none;
    Insert(log, accepted, none, none, wire, size, p);
    assert LogStarted(log, q) == log + [p];
    if n == |p.data| {
      Finish(log, accepted + [p], q, wire, size + |p.data|);
      assert p.data[0..] == p.data[..n];
    } else if n > 0 {
      Advance(log, accepted + [p], q, wire, size + |p.data|, n);
      assert [Pending(p, 0 + n)] + q[1..] == [Pending(p, n)] && p.data[0..0 + n] == p.data[..n];
    } else {
      assert wire + p.data[..0] == wire;
    }
  }
}
