/** The filter of skynet/lualib-src/lua-netpack.c, which cuts the bytes that arrive for many
    sockets into packages. */
module Netpack {
  import opened Bytes
  import opened Framing

  const QUEUESIZE := 1024
  const HASHSIZE := 4096

  datatype Pack = Pack(id: int, buffer: Package)

  /** A package that is not yet whole; `read` is -1 while only the first byte of its length is
      known, which is `header`. */
  datatype Uncomplete = Uncomplete(id: int, size: nat, buffer: seq<byte>, read: int, header: byte)

  datatype Option<T> = None | Some(value: T)

  /** What the filter tells: nothing yet, one package, or that packages wait in the queue. */
  datatype Answer = Nothing | Data(pack: Pack) | More

  predicate Good(u: Uncomplete) {
    u.read == -1 || (u.read == |u.buffer| < u.size < 0x10000)
  }

  /** The bytes of the stream that an uncomplete package stands for. */
  function Seen(u: Uncomplete): seq<byte>
    requires Good(u)
  {
    if u.read < 0 then [u.header] else [(u.size / 0x100) as byte, (u.size % 0x100) as byte] + u.buffer
  }

  lemma SeenUnfinished(u: Uncomplete)
    requires Good(u)
    ensures Packages(Seen(u)) == [] && Remainder(Seen(u)) == Seen(u) && Seen(u) != []
  {
  }

  function HashFd(fd: int): (h: nat)
    ensures h < HASHSIZE
  {
    (fd / 0x100_0000 + fd / 0x1000 + fd) % 0x1_0000_0000 % HASHSIZE
  }

  /** The place of a socket in a chain, or -1. */
  function Place(chain: seq<Uncomplete>, fd: int): (k: int)
    ensures -1 <= k < |chain|
    ensures k >= 0 ==> chain[k].id == fd
    ensures k < 0 ==> forall i :: 0 <= i < |chain| ==> chain[i].id != fd
  {
    if chain == [] then -1
    else if chain[0].id == fd then 0
    else
      var k := Place(chain[1..], fd);
      assert forall i :: 0 < i < |chain| ==> chain[i] == chain[1..][i - 1];
      if k < 0 then -1 else k + 1
  }

  predicate ChainOk(chain: seq<Uncomplete>, h: nat) {
    && (forall i :: 0 <= i < |chain| ==> Good(chain[i]) && HashFd(chain[i].id) == h)
    && (forall i, j :: 0 <= i < j < |chain| ==> chain[i].id != chain[j].id)
  }

  /** The bytes a chain keeps for a socket. */
  function Kept(chain: seq<Uncomplete>, h: nat, fd: int): seq<byte>
    requires ChainOk(chain, h)
  {
    var k := Place(chain, fd);
    if k < 0 then [] else Seen(chain[k])
  }

  lemma KeptAt(chain: seq<Uncomplete>, h: nat, k: nat)
    requires ChainOk(chain, h) && k < |chain|
    ensures Kept(chain, h, chain[k].id) == Seen(chain[k])
  {
  }

  /** Taking an uncomplete package out of its chain. */
  lemma Removed(chain: seq<Uncomplete>, h: nat, k: nat, fd: int)
    requires ChainOk(chain, h) && k < |chain|
    ensures ChainOk(chain[..k] + chain[k + 1..], h)
    ensures Kept(chain[..k] + chain[k + 1..], h, fd) == if fd == chain[k].id then [] else Kept(chain, h, fd)
  {
    var rest := chain[..k] + chain[k + 1..];
    assert forall i :: 0 <= i < |rest| ==> rest[i] == chain[if i < k then i else i + 1];
    var p, q := Place(chain, fd), Place(rest, fd);
    if fd != chain[k].id && p >= 0 {
      assert rest[if p < k then p else p - 1] == chain[p];
    }
  }

  lemma Added(chain: seq<Uncomplete>, h: nat, u: Uncomplete, fd: int)
    requires ChainOk(chain, h) && Good(u) && HashFd(u.id) == h && Kept(chain, h, u.id) == []
    ensures ChainOk([u] + chain, h)
    ensures Kept([u] + chain, h, fd) == if fd == u.id then Seen(u) else Kept(chain, h, fd)
  {
    if Place(chain, u.id) >= 0 {
      SeenUnfinished(chain[Place(chain, u.id)]);
    }
    assert ([u] + chain)[1..] == chain;
  }

  /** Packages of one socket. */
  function Tagged(fd: int, ps: seq<Package>): (r: seq<Pack>)
    ensures |r| == |ps|
  {
    if ps == [] then [] else [Pack(fd, ps[0])] + Tagged(fd, ps[1..])
  }

  lemma {:induction false} TaggedPlus(fd: int, a: seq<Package>, b: seq<Package>)
    ensures Tagged(fd, a + b) == Tagged(fd, a) + Tagged(fd, b)
  {
    if a == [] {
      assert a + b == b;
    } else {
      assert (a + b)[1..] == a[1..] + b;
      TaggedPlus(fd, a[1..], b);
    }
  }

  lemma RingIndex(from: nat, i: nat, cap: nat)
    requires from < cap && i < cap
    ensures (from + i) % cap == if from + i < cap then from + i else from + i - cap
  {
  }

  class Queue {
    var cap: nat
    var head: nat
    var tail: nat
    var hash: array<seq<Uncomplete>>
    var ring: array<Pack>

    ghost predicate Valid()
      reads this, hash, ring
    {
      && hash.Length == HASHSIZE && 0 < cap == ring.Length && head < cap && tail < cap
      && forall h :: 0 <= h < HASHSIZE ==> ChainOk(hash[h], h)
    }

    /** The packages in the queue, the oldest first. */
    ghost function Waiting(): seq<Pack>
      requires Valid()
      reads this, hash, ring
    {
      if head <= tail then ring[head..tail] else ring[head..] + ring[..tail]
    }

    /** The bytes kept for a socket: those behind its last whole package. */
    ghost function Rest(fd: int): seq<byte>
      requires Valid()
      reads this, hash, ring
    {
      Kept(hash[HashFd(fd)], HashFd(fd), fd)
    }

    /** `get_queue`, when there is none */
    constructor ()
      ensures Valid() && fresh(hash) && fresh(ring)
      ensures Waiting() == [] && forall fd :: Rest(fd) == []
    {
      cap, head, tail := QUEUESIZE, 0, 0;
      hash := new seq<Uncomplete>[HASHSIZE](_ => []);
      ring := new Pack[QUEUESIZE](_ => Pack(0, []));
    }

    /** `find_uncomplete`: takes out what is kept for a socket. */
    method FindUncomplete(fd: int) returns (r: Option<Uncomplete>)
      requires Valid()
      modifies hash
      ensures Valid() && Waiting() == old(Waiting())
      ensures r.None? ==> old(Rest(fd)) == []
      ensures r.Some? ==> r.value.id == fd && Good(r.value) && Seen(r.value) == old(Rest(fd))
      ensures forall f :: Rest(f) == if f == fd then [] else old(Rest(f))
    {
      var h := HashFd(fd);
      var chain := hash[h];
      for i := 0 to |chain|
        invariant forall j :: 0 <= j < i ==> chain[j].id != fd
      {
        if chain[i].id == fd {
          KeptAt(chain, h, i);
          forall f ensures Kept(chain[..i] + chain[i + 1..], h, f) == if f == fd then [] else Kept(chain, h, f) {
            Removed(chain, h, i, f);
          }
          Removed(chain, h, i, fd);
          hash[h] := chain[..i] + chain[i + 1..];
          return Some(chain[i]);
        }
      }
      r := None;
    }

    /** `save_uncomplete`, with the values its callers put in. */
    method SaveUncomplete(u: Uncomplete)
      requires Valid() && Good(u) && Rest(u.id) == []
      modifies hash
      ensures Valid() && Waiting() == old(Waiting())
      ensures forall f :: Rest(f) == if f == u.id then Seen(u) else old(Rest(f))
    {
      var h := HashFd(u.id);
      var chain := hash[h];
      forall f ensures Kept([u] + chain, h, f) == if f == u.id then Seen(u) else Kept(chain, h, f) {
        Added(chain, h, u, f);
      }
      Added(chain, h, u, u.id);
      hash[h] := [u] + chain;
    }

    /** `expand_queue`: the full ring is copied into a larger one, from its head on. */
    method ExpandQueue()
      requires hash.Length == HASHSIZE && 0 < cap == ring.Length && head < cap && head == tail
      modifies this`cap, this`head, this`tail, this`ring
      ensures hash == old(hash) && fresh(ring) && 0 < cap == ring.Length && head < cap && tail < cap
      ensures head <= tail && ring[head..tail] == old(ring[head..] + ring[..head])
    {
      var larger := new Pack[cap + QUEUESIZE](_ => Pack(0, []));
      ghost var all := ring[head..] + ring[..head];
      for i := 0 to cap
        modifies larger
        invariant larger[..i] == all[..i]
      {
        RingIndex(head, i, cap);
        assert all[i] == ring[(head + i) % cap];
        larger[i] := ring[(head + i) % cap];
        assert all[..i + 1] == all[..i] + [all[i]];
      }
      assert all[..cap] == all;
      head, tail, cap := 0, cap, cap + QUEUESIZE;
      ring := larger;
    }

    /** `push_data` */
    method PushData(fd: int, buffer: Package)
      requires Valid()
      modifies this`cap, this`head, this`tail, this`ring, ring
      ensures Valid() && hash == old(hash) && (ring == old(ring) || fresh(ring))
      ensures Waiting() == old(Waiting()) + [Pack(fd, buffer)]
      ensures forall f :: Rest(f) == old(Rest(f))
    {
      ghost var before := Waiting();
      ring[tail] := Pack(fd, buffer);
      tail := tail + 1;
      if tail >= cap {
        tail := tail - cap;
      }
      if head == tail {
        assert ring[head..] + ring[..head] == before + [Pack(fd, buffer)];
        ExpandQueue();
      } else {
        assert Waiting() == before + [Pack(fd, buffer)];
      }
    }

    /** `lpop` */
    method Pop() returns (r: Option<Pack>)
      requires Valid()
      modifies this`head
      ensures Valid() && forall f :: Rest(f) == old(Rest(f))
      ensures old(Waiting()) == [] ==> r == None && Waiting() == []
      ensures old(Waiting()) != [] ==> r == Some(old(Waiting())[0]) && Waiting() == old(Waiting())[1..]
    {
      if head == tail {
        return None;
      }
      r := Some(ring[head]);
      head := head + 1;
      if head >= cap {
        head := 0;
      }
      assert Waiting() == old(Waiting())[1..];
    }

    /** What `push_more` and `filter_data_` do with bytes that are not a whole package. */
    method KeepStart(fd: int, data: seq<byte>)
      requires Valid() && data != [] && !Whole(data) && Rest(fd) == []
      modifies hash
      ensures Valid() && Waiting() == old(Waiting())
      ensures forall f :: Rest(f) == if f == fd then data else old(Rest(f))
    {
      if |data| == 1 {
        SaveUncomplete(Uncomplete(fd, 0, [], -1, data[0]));
      } else {
        var size := data[0] as nat * 0x100 + data[1] as nat;
        assert data == [(size / 0x100) as byte, (size % 0x100) as byte] + data[2..];
        SaveUncomplete(Uncomplete(fd, size, data[2..], |data| - 2, 0));
      }
    }

    /** `push_more`: bytes that start a package, after the last one that was cut. */
    method PushMore(fd: int, data: seq<byte>)
      requires Valid() && data != [] && Rest(fd) == []
      modifies this`cap, this`head, this`tail, this`ring, ring, hash
      ensures Valid() && hash == old(hash) && (ring == old(ring) || fresh(ring))
      ensures Waiting() == old(Waiting()) + Tagged(fd, Packages(data))
      ensures forall f :: Rest(f) == if f == fd then Remainder(data) else old(Rest(f))
      decreases |data|
    {
      hide Seen, Good, HashFd, Kept, Packages, Remainder, Tagged, AnswerTo, QueuedBy;
      if |data| == 1 || |data| - 2 < data[0] as nat * 0x100 + data[1] as nat {
        NothingWhole(fd, data);
        KeepStart(fd, data);
        return;
      }
      var size := data[0] as nat * 0x100 + data[1] as nat;
      var package, tail := data[2..2 + size], data[2 + size..];
      FirstCut(fd, data, package, tail);
      ghost var before := Waiting();
      PushData(fd, package);
      Behind(before, Pack(fd, package), Tagged(fd, Packages(tail)));
      if |tail| > 0 {
        PushMore(fd, tail);
      } else {
        NothingWhole(fd, tail);
      }
    }

    /** The end of both parts of `filter_data_`: a package is whole; alone, it is the answer, else it
        goes to the queue with those behind it. */
    method Cut(fd: int, package: Package, tail: seq<byte>) returns (r: Answer)
      requires Valid() && Rest(fd) == []
      modifies this`cap, this`head, this`tail, this`ring, ring, hash
      ensures Valid() && hash == old(hash) && (ring == old(ring) || fresh(ring))
      ensures forall f :: Rest(f) == if f == fd then Remainder(tail) else old(Rest(f))
      ensures r == if tail == [] then Data(Pack(fd, package)) else More
      ensures Waiting() == old(Waiting()) + if tail == [] then [] else [Pack(fd, package)] + Tagged(fd, Packages(tail))
    {
      hide Seen, Good, HashFd, Kept, Packages, Remainder, Tagged, AnswerTo, QueuedBy;
      if |tail| == 0 {
        NothingWhole(fd, tail);
        return Data(Pack(fd, package));
      }
      Behind(Waiting(), Pack(fd, package), Tagged(fd, Packages(tail)));
      PushData(fd, package);
      PushMore(fd, tail);
      r := More;
    }

    /** `filter_data_`, for bytes that arrived for a socket (not none): they are cut together with
        those kept from before. */
    method Filter(fd: int, arrived: seq<byte>) returns (r: Answer)
      requires Valid() && arrived != []
      modifies this`cap, this`head, this`tail, this`ring, ring, hash
      ensures Valid() && hash == old(hash) && (ring == old(ring) || fresh(ring))
      ensures forall f :: Rest(f) == if f == fd then Remainder(old(Rest(fd)) + arrived) else old(Rest(f))
      ensures r == AnswerTo(fd, old(Rest(fd)) + arrived)
      ensures Waiting() == old(Waiting()) + QueuedBy(fd, old(Rest(fd)) + arrived)
    {
      hide Seen, Good, HashFd, Kept, Packages, Remainder, Tagged, AnswerTo, QueuedBy;
      var uc := FindUncomplete(fd);
      if uc.Some? {
        r := FillUncomplete(uc.value, arrived);
        return;
      }
      assert [] + arrived == arrived;
      if |arrived| == 1 || |arrived| - 2 < arrived[0] as nat * 0x100 + arrived[1] as nat {
        NothingWhole(fd, arrived);
        KeepStart(fd, arrived);
        return Nothing;
      }
      var size := arrived[0] as nat * 0x100 + arrived[1] as nat;
      var package, tail := arrived[2..2 + size], arrived[2 + size..];
      FirstCut(fd, arrived, package, tail);
      r := Cut(fd, package, tail);
    }

    /** The part of `filter_data_` for a socket for which something was kept, which was taken out. */
    method FillUncomplete(u0: Uncomplete, arrived: seq<byte>) returns (r: Answer)
      requires Valid() && arrived != [] && Good(u0) && Rest(u0.id) == []
      modifies this`cap, this`head, this`tail, this`ring, ring, hash
      ensures Valid() && hash == old(hash) && (ring == old(ring) || fresh(ring))
      ensures forall f :: Rest(f) == if f == u0.id then Remainder(Seen(u0) + arrived) else old(Rest(f))
      ensures r == AnswerTo(u0.id, Seen(u0) + arrived)
      ensures Waiting() == old(Waiting()) + QueuedBy(u0.id, Seen(u0) + arrived)
    {
      hide HashFd, Kept, Packages, Remainder, Tagged, Seen, Begun, Size, AnswerTo, QueuedBy;
      var u, data := u0, arrived;
      LengthKnown(u0, arrived);
      if u.read < 0 {
        u := u.(size := u.header as nat * 0x100 + data[0] as nat, buffer := [], read := 0);
        data := data[1..];
      }
      ghost var s := Seen(u0) + arrived;
      var need := u.size - u.read;
      if |data| < need {
        MoreBegun(u, data);
        u := u.(buffer := u.buffer + data, read := u.read + |data|);
        SeenUnfinished(u);
        NothingWhole(u.id, s);
        SaveUncomplete(u);
        return Nothing;
      }
      var package, tail := u.buffer + data[..need], data[need..];
      BegunWhole(u, data, need);
      FirstCut(u.id, s, package, tail);
      r := Cut(u.id, package, tail);
    }

    /** `close_uncomplete` */
    method CloseUncomplete(fd: int)
      requires Valid()
      modifies hash
      ensures Valid() && Waiting() == old(Waiting())
      ensures forall f :: Rest(f) == if f == fd then [] else old(Rest(f))
    {
      var uc := FindUncomplete(fd);
    }
  }

  /** The bytes of a package whose length is known, as far as they arrived. */
  function Begun(u: Uncomplete): (s: seq<byte>)
    requires u.size < 0x10000
    ensures |s| >= 2 && Size(s) == u.size && s[2..] == u.buffer
  {
    [(u.size / 0x100) as byte, (u.size % 0x100) as byte] + u.buffer
  }

  /** When the second byte of the length arrives, the length is known. */
  lemma LengthKnown(u: Uncomplete, arrived: seq<byte>)
    requires Good(u) && arrived != []
    ensures u.read >= 0 ==> Seen(u) + arrived == Begun(u) + arrived
    ensures u.read < 0 ==>
      var v := u.(size := u.header as nat * 0x100 + arrived[0] as nat, buffer := [], read := 0);
      Seen(u) + arrived == Begun(v) + arrived[1..]
  {
  }

  lemma MoreBegun(u: Uncomplete, data: seq<byte>)
    requires u.size < 0x10000 && u.read == |u.buffer| && u.read + |data| < u.size
    ensures Begun(u) + data == Seen(u.(buffer := u.buffer + data, read := u.read + |data|))
  {
  }

  lemma BegunWhole(u: Uncomplete, data: seq<byte>, need: nat)
    requires u.size < 0x10000 && need <= |data|
    ensures (Begun(u) + data)[2..] == u.buffer + data[..need] + data[need..]
    ensures |Begun(u) + data| >= 2 && Size(Begun(u) + data) == u.size
  {
    var b := Begun(u);
    assert (b + data)[2..] == b[2..] + data;
    assert data == data[..need] + data[need..];
    assert u.buffer + (data[..need] + data[need..]) == u.buffer + data[..need] + data[need..];
  }

  /** What the filter answers to the bytes of a socket, those kept from before included: one
      package alone is told, with nothing behind it; more is queued. */
  function AnswerTo(fd: int, s: seq<byte>): Answer {
    var ps := Packages(s);
    if ps == [] then Nothing
    else if |ps| == 1 && Remainder(s) == [] then Data(Pack(fd, ps[0]))
    else More
  }

  /** The packages that go to the queue then. */
  function QueuedBy(fd: int, s: seq<byte>): seq<Pack> {
    if AnswerTo(fd, s).More? then Tagged(fd, Packages(s)) else []
  }

  /** The bytes start with a package. */
  lemma AnswerToFirst(fd: int, s: seq<byte>, p: Package, tail: seq<byte>)
    requires Packages(s) == [p] + Packages(tail) && Remainder(s) == Remainder(tail)
    ensures AnswerTo(fd, s) == if tail == [] then Data(Pack(fd, p)) else More
    ensures tail != [] ==> QueuedBy(fd, s) == [Pack(fd, p)] + Tagged(fd, Packages(tail))
  {
    if tail != [] && Packages(tail) == [] {
      assert Remainder(tail) == tail;
    }
    assert ([p] + Packages(tail))[1..] == Packages(tail);
  }

  lemma Behind(before: seq<Pack>, p: Pack, more: seq<Pack>)
    ensures before + [p] + more == before + ([p] + more)
    ensures more == [] ==> before + [p] == before + ([p] + more)
  {
  }

  lemma NothingWhole(fd: int, s: seq<byte>)
    requires !Whole(s)
    ensures Tagged(fd, Packages(s)) == [] && Remainder(s) == s
    ensures AnswerTo(fd, s) == Nothing && QueuedBy(fd, s) == []
  {
  }

  lemma FirstCut(fd: int, s: seq<byte>, p: Package, tail: seq<byte>)
    requires |s| >= 2 && Size(s) == |p| && s[2..] == p + tail
    ensures Tagged(fd, Packages(s)) == [Pack(fd, p)] + Tagged(fd, Packages(tail))
    ensures Remainder(s) == Remainder(tail)
    ensures AnswerTo(fd, s) == if tail == [] then Data(Pack(fd, p)) else More
    ensures QueuedBy(fd, s) == if tail == [] then [] else [Pack(fd, p)] + Tagged(fd, Packages(tail))
  {
    First(s, p, tail);
    AnswerToFirst(fd, s, p, tail);
    assert ([p] + Packages(tail))[1..] == Packages(tail);
  }

  // Runs

  /** Bytes arrive for a socket, a socket is closed, or a package is taken from the queue. */
  datatype Event = Arrived(fd: int, bytes: seq<byte>) | Closed(fd: int) | Popped

  /** All bytes that arrived for a socket since it was last closed, however they were cut up. */
  function StreamOf(events: seq<Event>, fd: int): seq<byte> {
    if events == [] then []
    else
      var before, e := StreamOf(events[..|events| - 1], fd), events[|events| - 1];
      if e.Arrived? && e.fd == fd then before + e.bytes
      else if e.Closed? && e.fd == fd then []
      else before
  }

  /** The packages of the streams that were closed. */
  function ClosedPackages(events: seq<Event>, fd: int): seq<Package> {
    if events == [] then []
    else
      var start, e := events[..|events| - 1], events[|events| - 1];
      ClosedPackages(start, fd) + if e.Closed? && e.fd == fd then Packages(StreamOf(start, fd)) else []
  }

  function PackagesOf(packs: seq<Pack>, fd: int): seq<Package> {
    if packs == [] then []
    else
      PackagesOf(packs[..|packs| - 1], fd)
      + if packs[|packs| - 1].id == fd then [packs[|packs| - 1].buffer] else []
  }

  lemma {:induction false} PackagesOfPlus(a: seq<Pack>, b: seq<Pack>, fd: int)
    ensures PackagesOf(a + b, fd) == PackagesOf(a, fd) + PackagesOf(b, fd)
  {
    if b == [] {
      assert a + b == a;
    } else {
      assert (a + b)[..|a + b| - 1] == a + b[..|b| - 1];
      PackagesOfPlus(a, b[..|b| - 1], fd);
    }
  }

  lemma {:induction false} PackagesOfTagged(f: int, ps: seq<Package>, fd: int)
    ensures PackagesOf(Tagged(f, ps), fd) == if f == fd then ps else []
  {
    if ps != [] {
      var one := [Pack(f, ps[0])];
      PackagesOfPlus(one, Tagged(f, ps[1..]), fd);
      assert one[..0] == [];
      PackagesOfTagged(f, ps[1..], fd);
    }
  }

  // What a run tells, queues and takes, as a function of what happened

  datatype Outcome = Told(answer: Answer) | Took(pack: Option<Pack>) | Done

  /** The bytes kept for a socket. */
  function KeptOf(events: seq<Event>, fd: int): seq<byte> {
    Remainder(StreamOf(events, fd))
  }

  /** The packages that are cut when `e` happens after `events`. */
  function CutIn(events: seq<Event>, e: Event): seq<Pack> {
    if e.Arrived? then Tagged(e.fd, Packages(KeptOf(events, e.fd) + e.bytes)) else []
  }

  /** The queue, after `events`. */
  function QueueOf(events: seq<Event>): seq<Pack> {
    if events == [] then []
    else
      var start, e := events[..|events| - 1], events[|events| - 1];
      match e
      case Arrived(fd, bytes) => QueueOf(start) + QueuedBy(fd, KeptOf(start, fd) + bytes)
      case Closed(_) => QueueOf(start)
      case Popped => if QueueOf(start) == [] then [] else QueueOf(start)[1..]
  }

  /** What comes out when `e` happens after `events`. */
  function OutcomeIn(events: seq<Event>, e: Event): Outcome {
    match e
    case Arrived(fd, bytes) => Told(AnswerTo(fd, KeptOf(events, fd) + bytes))
    case Closed(_) => Done
    case Popped => Took(if QueueOf(events) == [] then None else Some(QueueOf(events)[0]))
  }

  function Outcomes(events: seq<Event>): seq<Outcome> {
    if events == [] then []
    else
      var start := events[..|events| - 1];
      Outcomes(start) + [OutcomeIn(start, events[|events| - 1])]
  }

  /** All packages that are told or queued, in order. */
  function Emitted(events: seq<Event>): seq<Pack> {
    if events == [] then []
    else
      var start, e := events[..|events| - 1], events[|events| - 1];
      Emitted(start) + CutIn(start, e)
  }

  /** Those that are queued. */
  function AllQueued(events: seq<Event>): seq<Pack> {
    if events == [] then []
    else
      var start, e := events[..|events| - 1], events[|events| - 1];
      AllQueued(start) + if e.Arrived? then QueuedBy(e.fd, KeptOf(start, e.fd) + e.bytes) else []
  }

  /** Those that are taken from the queue. */
  function AllTaken(outcomes: seq<Outcome>): seq<Pack> {
    if outcomes == [] then []
    else
      var last := outcomes[|outcomes| - 1];
      AllTaken(outcomes[..|outcomes| - 1]) + if last.Took? && last.pack.Some? then [last.pack.value] else []
  }

  /** The packages told or queued for a socket are those of its whole stream (and of the streams
      closed before), in order, however the bytes were cut up and mixed with those of others. */
  lemma {:induction false} EmittedExactly(events: seq<Event>, fd: int)
    ensures PackagesOf(Emitted(events), fd) == ClosedPackages(events, fd) + Packages(StreamOf(events, fd))
  {
    if events != [] {
      var start, e := events[..|events| - 1], events[|events| - 1];
      EmittedExactly(start, fd);
      PackagesOfPlus(Emitted(start), CutIn(start, e), fd);
      CutExactly(start, e, fd);
      assert start + [e] == events;
    }
  }

  /** What an event adds to the packages of a socket. */
  lemma CutExactly(events: seq<Event>, e: Event, fd: int)
    ensures ClosedPackages(events, fd) + Packages(StreamOf(events, fd)) + PackagesOf(CutIn(events, e), fd)
         == ClosedPackages(events + [e], fd) + Packages(StreamOf(events + [e], fd))
  {
    hide Packages, Remainder, Tagged, PackagesOf;
    assert (events + [e])[..|events|] == events;
    NoPackages(fd);
    match e {
      case Arrived(f, bytes) =>
        PackagesOfTagged(f, Packages(KeptOf(events, f) + bytes), fd);
        Continue(StreamOf(events, fd), bytes);
      case Closed(_) =>
      case Popped =>
    }
  }

  lemma NoPackages(fd: int)
    ensures Packages([]) == [] && PackagesOf([], fd) == []
  {
  }

  /** Every package that is cut is told at once or goes to the queue; nothing else is told. */
  lemma ToldOrQueued(events: seq<Event>, e: Event)
    ensures match OutcomeIn(events, e)
      case Told(Nothing) => CutIn(events, e) == []
      case Told(Data(pack)) => CutIn(events, e) == [pack]
      case Told(More) => CutIn(events, e) != [] && QueueOf(events + [e]) == QueueOf(events) + CutIn(events, e)
      case _ => CutIn(events, e) == []
  {
    assert (events + [e])[..|events|] == events;
    if e.Arrived? {
      var ps := Packages(KeptOf(events, e.fd) + e.bytes);
      assert |ps| == 1 ==> ps == [ps[0]] && ps[1..] == [];
    }
  }

  /** What is queued is taken, in order, or still waits. */
  lemma {:induction false} TakenOrWaiting(events: seq<Event>)
    ensures AllTaken(Outcomes(events)) + QueueOf(events) == AllQueued(events)
  {
    if events != [] {
      var start, e := events[..|events| - 1], events[|events| - 1];
      TakenOrWaiting(start);
      hide QueuedBy, AnswerTo, KeptOf;
      assert Outcomes(events)[..|Outcomes(events)| - 1] == Outcomes(start);
      TakenStep(AllTaken(Outcomes(start)), QueueOf(start),
                if e.Arrived? then QueuedBy(e.fd, KeptOf(start, e.fd) + e.bytes) else []);
    }
  }

  lemma TakenStep(taken: seq<Pack>, queue: seq<Pack>, more: seq<Pack>)
    ensures taken + (queue + more) == taken + queue + more
    ensures taken + [] + queue == taken + queue && taken + queue + [] == taken + queue
    ensures queue != [] ==> taken + [queue[0]] + queue[1..] == taken + queue
    ensures queue == [] ==> taken + [] + [] == taken + queue
  {
  }

  lemma Arriving(events: seq<Event>, f: int, bytes: seq<byte>, fd: int)
    ensures KeptOf(events + [Arrived(f, bytes)], fd) == if f == fd then Remainder(KeptOf(events, fd) + bytes) else KeptOf(events, fd)
  {
    assert (events + [Arrived(f, bytes)])[..|events|] == events;
    Continue(StreamOf(events, fd), bytes);
  }

  lemma Closing(events: seq<Event>, f: int, fd: int)
    ensures KeptOf(events + [Closed(f)], fd) == if f == fd then [] else KeptOf(events, fd)
  {
    assert (events + [Closed(f)])[..|events|] == events;
  }

  lemma Popping(events: seq<Event>, fd: int)
    ensures KeptOf(events + [Popped], fd) == KeptOf(events, fd)
  {
    assert (events + [Popped])[..|events|] == events;
  }

  /** The filter is where `events` lead. */
  ghost predicate After(q: Queue, events: seq<Event>)
    reads q, q.hash, q.ring
  {
    q.Valid() && q.Waiting() == QueueOf(events) && forall fd :: q.Rest(fd) == KeptOf(events, fd)
  }

  method Happen(q: Queue, e: Event, ghost events: seq<Event>) returns (out: Outcome)
    requires After(q, events) && (e.Arrived? ==> e.bytes != [])
    modifies q`cap, q`head, q`tail, q`ring, q.ring, q.hash
    ensures q.hash == old(q.hash) && (q.ring == old(q.ring) || fresh(q.ring))
    ensures After(q, events + [e]) && out == OutcomeIn(events, e)
  {
    hide KeptOf, AnswerTo, QueuedBy;
    assert (events + [e])[..|events|] == events;
    match e {
      case Arrived(f, bytes) =>
        var r := q.Filter(f, bytes);
        out := Told(r);
        forall fd ensures q.Rest(fd) == KeptOf(events + [e], fd) {
          Arriving(events, f, bytes, fd);
        }
      case Closed(f) =>
        q.CloseUncomplete(f);
        out := Done;
        forall fd ensures q.Rest(fd) == KeptOf(events + [e], fd) {
          Closing(events, f, fd);
        }
      case Popped =>
        var popped := q.Pop();
        out := Took(popped);
        forall fd ensures q.Rest(fd) == KeptOf(events + [e], fd) {
          Popping(events, fd);
        }
    }
  }

  lemma NextOutcome(events: seq<Event>, e: Event)
    ensures Outcomes(events + [e]) == Outcomes(events) + [OutcomeIn(events, e)]
  {
    assert (events + [e])[..|events|] == events;
  }

  lemma NothingYet(q: Queue)
    requires q.Valid() && q.Waiting() == [] && forall fd :: q.Rest(fd) == []
    ensures After(q, []) && Outcomes([]) == []
  {
  }

  method RunAll(events: seq<Event>) returns (q: Queue, outcomes: seq<Outcome>)
    requires forall i :: 0 <= i < |events| && events[i].Arrived? ==> events[i].bytes != []
    ensures After(q, events) && outcomes == Outcomes(events)
  {
    q := new Queue();
    outcomes := [];
    NothingYet(q);
    hide After, OutcomeIn, Outcomes;
    ghost var done: seq<Event> := [];
    for i := 0 to |events|
      invariant fresh(q) && fresh(q.hash) && fresh(q.ring)
      invariant After(q, done) && outcomes == Outcomes(done) && done == events[..i]
    {
      var out := Happen(q, events[i], done);
      NextOutcome(done, events[i]);
      outcomes := outcomes + [out];
      done := done + [events[i]];
    }
    assert done == events;
  }

  /** For every run with any number of sockets: what comes out, event by event, what waits in the
      queue and what is kept is what the events determine (see `ToldOrQueued`). The packages that
      are told or queued for a socket are those of its whole stream, in order, and what is queued
      is taken in order or waits. */
  method Run(events: seq<Event>) returns (q: Queue, outcomes: seq<Outcome>)
    requires forall i :: 0 <= i < |events| && events[i].Arrived? ==> events[i].bytes != []
    ensures outcomes == Outcomes(events)
    ensures q.Valid() && q.Waiting() == QueueOf(events) && forall fd :: q.Rest(fd) == KeptOf(events, fd)
    ensures AllTaken(outcomes) + q.Waiting() == AllQueued(events)
    ensures forall fd :: PackagesOf(Emitted(events), fd) == ClosedPackages(events, fd) + Packages(StreamOf(events, fd))
  {
    q, outcomes := RunAll(events);
    TakenOrWaiting(events);
    forall fd ensures PackagesOf(Emitted(events), fd) == ClosedPackages(events, fd) + Packages(StreamOf(events, fd)) {
      EmittedExactly(events, fd);
    }
  }
}
