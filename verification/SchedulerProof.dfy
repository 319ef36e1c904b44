/** What every step of the scheduler keeps, and what follows for every run. */
module SchedulerProof {
  import opened MessageQueue
  import opened Scheduler

  /** What a thread can be to a service. */
  datatype Role =
    | Holder      // it has the queue, and nobody else has
    | Referrer    // it has a reference to the context
    | Deleter     // it is about to mark the queue for release
    | Creator     // it has created the service and not yet given it up
    | Carrier     // it has a message that was popped and not yet handled

  function One(b: bool): nat {
    if b then 1 else 0
  }

  function AfterHolds(a: After, h: Handle): nat {
    match a
    case ToIdle => 0
    case ToHas(q) => One(q == h)
    case ToPublish(k) => One(k == h)
    case ToRetire(k) => One(k == h)
    case ToRelease(k) => One(k == h)
  }

  function Holds(x: Thread, h: Handle): nat {
    match x
    case Idle => 0
    case Has(q) => One(q == h)
    case Loop(q, _, _) => One(q == h)
    case Got(q, _, _, _) => One(q == h)
    case Calling(q, _, _, _) => One(q == h)
    case Swap(q) => One(q == h)
    case PushBack(q, nq) => One(q == h) + One(nq == h)
    case Unref(_, a) => AfterHolds(a, h)
    case Delete(_, a) => AfterHolds(a, h)
    case Releasing(q) => One(q == h)
    case Dropping(q) => One(q == h)
    case Pushing(_, _) => 0
    case Initing(k) => One(k == h)
    case Launching(k) => One(k == h)
    case Publishing(k, _) => One(k == h)
    case Reporting(_) => 0
    case Retiring(k) => One(k == h)
  }

  function Refers(x: Thread, h: Handle): nat {
    match x
    case Loop(q, _, _) => One(q == h)
    case Got(q, _, _, _) => One(q == h)
    case Calling(q, _, _, _) => One(q == h)
    case Swap(q) => One(q == h)
    case PushBack(q, _) => One(q == h)
    case Unref(c, _) => One(c == h)
    case Pushing(k, _) => One(k == h)
    case Initing(k) => One(k == h)
    case _ => 0
  }

  function Creates(x: Thread, h: Handle): nat {
    match x
    case Initing(k) => One(k == h)
    case Launching(k) => One(k == h)
    case Retiring(k) => One(k == h)
    case Unref(_, a) => One(a == ToPublish(h) || a == ToRetire(h))
    case Delete(_, a) => One(a == ToPublish(h) || a == ToRetire(h))
    case _ => 0
  }

  function Weight(x: Thread, role: Role, h: Handle): nat {
    match role
    case Holder => Holds(x, h)
    case Referrer => Refers(x, h)
    case Deleter => One(x.Delete? && x.c == h)
    case Creator => Creates(x, h)
    case Carrier => One((x.Got? || x.Calling?) && x.q == h)
  }

  /** How many threads are in a role for `h`. */
  function Total(threads: seq<Thread>, role: Role, h: Handle): nat {
    if threads == [] then 0 else Weight(threads[0], role, h) + Total(threads[1..], role, h)
  }

  /** How often `h` is in the global list. */
  function Listed(global: seq<Handle>, h: Handle): nat {
    if global == [] then 0 else One(global[0] == h) + Listed(global[1..], h)
  }

  /** A queue that nobody has: the next push puts it into the global list. */
  function Waits(v: Service): nat {
    One(!v.mq.inGlobal && !v.mq.release)
  }

  // ---- the invariant ----------------------------------------------------------------

  /** The queue is in one place: global list, a thread, or waiting -- until it is freed. */
  predicate OnePlace(st: State, h: Handle, v: Service) {
    Listed(st.global, h) + Total(st.threads, Holder, h) + Waits(v) == One(!v.freed)
  }

  /** The count of references is right; when it reaches 0 the queue is marked once. */
  predicate Counted(st: State, h: Handle, v: Service) {
    && v.refs == Total(st.threads, Referrer, h) + One(v.registered)
    && Total(st.threads, Deleter, h) + One(v.mq.release) == One(v.refs == 0)
  }

  /** Every message that arrived is handled, in hand, dropped or waiting, in that order. */
  predicate Conserved(st: State, h: Handle, v: Service) {
    && v.arrived == v.delivered + v.current + v.dropped + v.mq.msgs
    && |v.current| == Total(st.threads, Carrier, h)
    && (v.dropped != [] ==> v.mq.release)
    && (v.freed ==> v.mq.release && v.mq.msgs == [])
    && (Waits(v) == 1 ==> v.mq.msgs == [])
  }

  predicate ServiceOk(st: State, h: Handle, v: Service) {
    && OnePlace(st, h, v)
    && Counted(st, h, v)
    && Conserved(st, h, v)
    && (v.registered && !v.init ==> Total(st.threads, Creator, h) > 0)
  }

  /** Nothing mentions a service that does not exist. */
  predicate Absent(st: State, h: Handle) {
    && Listed(st.global, h) == 0
    && forall role :: Total(st.threads, role, h) == 0
  }

  predicate ThreadOk(st: State, x: Thread) {
    match x
    case Loop(q, _, _) => q in st.services && st.services[q].init
    case Got(q, _, _, m) => q in st.services && st.services[q].init && st.services[q].current == [m]
    case Calling(q, _, _, m) => q in st.services && st.services[q].init && st.services[q].current == [m]
    case Dropping(q) => q in st.services && st.services[q].mq.release
    case Unref(c, a) => AfterOk(c, a)
    case Delete(c, a) => AfterOk(c, a)
    case _ => true
  }

  /** A creator drops references only of the service it creates. */
  predicate AfterOk(c: Handle, a: After) {
    a.ToIdle? || a.ToHas? || a.h == c
  }

  ghost predicate Inv(st: State) {
    && (forall h :: h in st.services ==> ServiceOk(st, h, st.services[h]))
    && (forall h :: h !in st.services ==> Absent(st, h))
    && (forall t :: 0 <= t < |st.threads| ==> ThreadOk(st, st.threads[t]))
  }

  // ---- counting ---------------------------------------------------------------------

  lemma {:induction false} TotalUpdate(threads: seq<Thread>, t: nat, x: Thread, role: Role, h: Handle)
    requires t < |threads|
    ensures Total(threads[t := x], role, h) == Total(threads, role, h) - Weight(threads[t], role, h) + Weight(x, role, h)
    ensures Weight(threads[t], role, h) <= Total(threads, role, h)
  {
    if t > 0 {
      TotalUpdate(threads[1..], t - 1, x, role, h);
      assert threads[t := x][1..] == threads[1..][t - 1 := x];
    } else {
      assert threads[t := x][1..] == threads[1..];
    }
  }

  lemma {:induction false} TwoThreads(threads: seq<Thread>, t1: nat, t2: nat, role: Role, h: Handle)
    requires t1 < t2 < |threads|
    ensures Weight(threads[t1], role, h) + Weight(threads[t2], role, h) <= Total(threads, role, h)
  {
    if t1 == 0 {
      TotalUpdate(threads[1..], t2 - 1, Idle, role, h);
    } else {
      TwoThreads(threads[1..], t1 - 1, t2 - 1, role, h);
    }
  }

  /** Carriers and creators hold the queue as well; `t` may be left out of the count. */
  lemma {:induction false} HoldersBeside(threads: seq<Thread>, t: nat, h: Handle)
    requires t < |threads|
    ensures Total(threads, Carrier, h) - Weight(threads[t], Carrier, h) <= Total(threads, Holder, h) - Weight(threads[t], Holder, h)
    ensures Total(threads, Creator, h) - Weight(threads[t], Creator, h) <= Total(threads, Holder, h) - Weight(threads[t], Holder, h)
  {
    if t == 0 {
      CarriersHold(threads[1..], h);
    } else {
      HoldersBeside(threads[1..], t - 1, h);
    }
  }

  lemma {:induction false} CarriersHold(threads: seq<Thread>, h: Handle)
    ensures Total(threads, Carrier, h) <= Total(threads, Holder, h)
    ensures Total(threads, Creator, h) <= Total(threads, Holder, h)
  {
    if threads != [] {
      CarriersHold(threads[1..], h);
    }
  }

  lemma {:induction false} ListedMore(global: seq<Handle>, q: Handle, h: Handle)
    ensures Listed(global + [q], h) == Listed(global, h) + One(q == h)
  {
    if global == [] {
      assert global + [q] == [q];
    } else {
      ListedMore(global[1..], q, h);
      assert (global + [q])[1..] == global[1..] + [q];
    }
  }

  lemma {:induction false} ListedIn(global: seq<Handle>, h: Handle)
    ensures Listed(global, h) > 0 <==> h in global
  {
    if global != [] {
      ListedIn(global[1..], h);
    }
  }

  /** The totals after thread `t` has become `x`. */
  lemma Totals(st: State, t: nat, x: Thread, h: Handle)
    requires t < |st.threads|
    ensures forall role :: Total(st.threads[t := x], role, h)
                           == Total(st.threads, role, h) - Weight(st.threads[t], role, h) + Weight(x, role, h)
    ensures forall role :: Weight(st.threads[t], role, h) <= Total(st.threads, role, h)
  {
    forall role
      ensures Total(st.threads[t := x], role, h)
              == Total(st.threads, role, h) - Weight(st.threads[t], role, h) + Weight(x, role, h)
      ensures Weight(st.threads[t], role, h) <= Total(st.threads, role, h)
    {
      TotalUpdate(st.threads, t, x, role, h);
    }
  }

  // ---- steps ------------------------------------------------------------------------

  /** Becoming `x` in place of `was`, with the list of global queues now `global`, changes
      nothing about service `h`. */
  predicate Same(was: Thread, x: Thread, global0: seq<Handle>, global1: seq<Handle>, h: Handle) {
    && Listed(global1, h) + Holds(x, h) == Listed(global0, h) + Holds(was, h)
    && Refers(x, h) == Refers(was, h)
    && Weight(x, Deleter, h) == Weight(was, Deleter, h)
    && Weight(x, Carrier, h) == Weight(was, Carrier, h)
    && Creates(x, h) >= Creates(was, h)
  }

  /** A service only gains `init` and `release`, and only its carrier changes what is in hand. */
  predicate Grows(st: State, t: nat, c: Handle, v: Service)
    requires t < |st.threads| && c in st.services
  {
    var u := st.services[c];
    && (u.init ==> v.init)
    && (u.mq.release ==> v.mq.release)
    && (v.current == u.current || Total(st.threads, Carrier, c) == Weight(st.threads[t], Carrier, c))
  }

  /** A step of thread `t` that concerns service `c` alone. */
  ghost predicate StepOn(st: State, st1: State, t: nat, c: Handle) {
    && t < |st.threads| == |st1.threads| && c in st.services && c in st1.services
    && st1.threads == st.threads[t := st1.threads[t]]
    && st1.services == st.services[c := st1.services[c]]
    && (forall h :: h != c ==> Same(st.threads[t], st1.threads[t], st.global, st1.global, h))
    && Grows(st, t, c, st1.services[c])
    && ThreadOk(st1, st1.threads[t])
  }

  lemma OthersOk(st: State, st1: State, t: nat, c: Handle, h: Handle)
    requires StepOn(st, st1, t, c) && h != c
    ensures h in st.services && ServiceOk(st, h, st.services[h]) ==> ServiceOk(st1, h, st.services[h])
    ensures h !in st.services && Absent(st, h) ==> Absent(st1, h)
  {
    hide Total, Listed, Weight, Holds, Refers, Creates;
    Totals(st, t, st1.threads[t], h);
    WeightOf(st.threads[t], h);
    WeightOf(st1.threads[t], h);
    assert Same(st.threads[t], st1.threads[t], st.global, st1.global, h);
    if h !in st.services && Absent(st, h) {
      forall role
        ensures Total(st1.threads, role, h) == 0
      {
        AbsentRole(st, st1, t, h, role);
      }
    }
  }

  lemma WeightOf(x: Thread, h: Handle)
    ensures Weight(x, Holder, h) == Holds(x, h)
    ensures Weight(x, Referrer, h) == Refers(x, h)
    ensures Weight(x, Creator, h) == Creates(x, h)
    ensures Creates(x, h) <= Holds(x, h)
  {
  }

  lemma AbsentRole(st: State, st1: State, t: nat, h: Handle, role: Role)
    requires t < |st.threads| == |st1.threads| && st1.threads == st.threads[t := st1.threads[t]]
    requires Same(st.threads[t], st1.threads[t], st.global, st1.global, h)
    requires Absent(st, h)
    ensures Total(st1.threads, role, h) == 0
  {
    hide Total, Listed;
    WeightOf(st.threads[t], h);
    WeightOf(st1.threads[t], h);
    TotalUpdate(st.threads, t, st1.threads[t], Holder, h);
    TotalUpdate(st.threads, t, st1.threads[t], role, h);
  }

  lemma StepKeeps(st: State, st1: State, t: nat, c: Handle)
    requires Inv(st) && StepOn(st, st1, t, c) && ServiceOk(st1, c, st1.services[c])
    ensures Inv(st1)
  {
    hide Total, Listed, ServiceOk, Absent, StepOn;
    forall h | h != c
      ensures h in st.services ==> ServiceOk(st1, h, st.services[h])
      ensures h !in st.services ==> Absent(st1, h)
    {
      OthersOk(st, st1, t, c, h);
    }
    forall t2 | 0 <= t2 < |st1.threads|
      ensures ThreadOk(st1, st1.threads[t2])
    {
      OtherThread(st, st1, t, c, t2);
    }
    StepParts(st, st1, t, c);
  }

  lemma StepParts(st: State, st1: State, t: nat, c: Handle)
    requires StepOn(st, st1, t, c)
    ensures c in st.services && c in st1.services && t < |st.threads| == |st1.threads|
    ensures st1.services == st.services[c := st1.services[c]]
    ensures ThreadOk(st1, st1.threads[t])
  {
  }

  lemma OtherThread(st: State, st1: State, t: nat, c: Handle, t2: nat)
    requires Inv(st) && StepOn(st, st1, t, c) && t2 < |st1.threads|
    ensures ThreadOk(st1, st1.threads[t2])
  {
    hide Total, Listed, ServiceOk, Absent;
    if t2 != t {
      var x := st.threads[t2];
      assert st1.threads[t2] == x && ThreadOk(st, x);
      if (x.Got? || x.Calling?) && x.q == c && st1.services[c].current != st.services[c].current {
        if t < t2 {
          TwoThreads(st.threads, t, t2, Carrier, c);
        } else {
          TwoThreads(st.threads, t2, t, Carrier, c);
        }
        assert false;
      }
    }
  }

  lemma ListedEach(global: seq<Handle>, q: Handle)
    ensures forall h :: Listed(global + [q], h) == Listed(global, h) + One(q == h)
  {
    forall h
      ensures Listed(global + [q], h) == Listed(global, h) + One(q == h)
    {
      ListedMore(global, q, h);
    }
  }

  lemma ListedTail(global: seq<Handle>)
    requires global != []
    ensures forall h :: Listed(global, h) == One(global[0] == h) + Listed(global[1..], h)
  {
  }

  /** The handles that threads and the global list name are those of services. */
  lemma Named(st: State, t: nat, role: Role, h: Handle)
    requires Inv(st) && t < |st.threads| && Weight(st.threads[t], role, h) > 0
    ensures h in st.services
  {
    TotalUpdate(st.threads, t, Idle, role, h);
  }

  lemma ListedNamed(st: State, h: Handle)
    requires Inv(st) && Listed(st.global, h) > 0
    ensures h in st.services
  {
  }

  /** What the invariant says of the service `c` that thread `t` has or refers to. */
  lemma Counts(st: State, t: nat, x: Thread, c: Handle)
    requires Inv(st) && t < |st.threads| && c in st.services
    ensures ServiceOk(st, c, st.services[c]) && ThreadOk(st, st.threads[t])
    ensures var th := st.threads;
            && Total(th[t := x], Holder, c) == Total(th, Holder, c) - Holds(th[t], c) + Holds(x, c)
            && Total(th[t := x], Referrer, c) == Total(th, Referrer, c) - Refers(th[t], c) + Refers(x, c)
            && Total(th[t := x], Creator, c) == Total(th, Creator, c) - Creates(th[t], c) + Creates(x, c)
            && Total(th[t := x], Deleter, c) == Total(th, Deleter, c) - Weight(th[t], Deleter, c) + Weight(x, Deleter, c)
            && Total(th[t := x], Carrier, c) == Total(th, Carrier, c) - Weight(th[t], Carrier, c) + Weight(x, Carrier, c)
    ensures Holds(st.threads[t], c) <= Total(st.threads, Holder, c)
    ensures Refers(st.threads[t], c) <= Total(st.threads, Referrer, c)
    ensures Weight(st.threads[t], Deleter, c) <= Total(st.threads, Deleter, c)
    ensures Weight(st.threads[t], Carrier, c) <= Total(st.threads, Carrier, c)
    ensures Total(st.threads, Carrier, c) - Weight(st.threads[t], Carrier, c) <= Total(st.threads, Holder, c) - Holds(st.threads[t], c)
    ensures Total(st.threads, Creator, c) - Creates(st.threads[t], c) <= Total(st.threads, Holder, c) - Holds(st.threads[t], c)
  {
    hide Total, Listed, ServiceOk, Absent, ThreadOk, Holds, Refers, Creates, Weight;
    Totals(st, t, x, c);
    HoldersBeside(st.threads, t, c);
    WeightOf(st.threads[t], c);
    WeightOf(x, c);
  }

  lemma TakeKeeps(st: State, t: nat)
    requires Inv(st) && t < |st.threads| && st.threads[t] == Idle && st.global != []
    ensures Inv(Begin(st, t, Take))
  {
    hide Total, Inv;
    var q := st.global[0];
    ListedTail(st.global);
    ListedNamed(st, q);
    var st1 := Begin(st, t, Take);
    Counts(st, t, Has(q), q);
    StepKeeps(st, st1, t, q);
  }

  lemma SendKeeps(st: State, t: nat, h: Handle, m: Message)
    requires Inv(st) && t < |st.threads| && st.threads[t] == Idle && h in st.services && st.services[h].registered
    ensures Inv(Begin(st, t, Send(h, m)))
  {
    hide Total, Listed, Inv;
    Counts(st, t, Pushing(h, m), h);
    StepKeeps(st, Begin(st, t, Send(h, m)), t, h);
  }

  lemma RetireKeeps(st: State, t: nat, h: Handle, after: After)
    requires Inv(st) && t < |st.threads| && h in st.services
    requires (st.threads[t] == Idle && after == ToIdle) || (st.threads[t] == Retiring(h) && after == ToRelease(h))
    ensures Inv(RetireHandle(st, t, h, after))
  {
    hide Total, Listed, Inv;
    var st1 := RetireHandle(st, t, h, after);
    Counts(st, t, st1.threads[t], h);
    StepKeeps(st, st1, t, h);
  }

  lemma InitKeeps(st: State, t: nat, h: Handle, ok: bool)
    requires Inv(st) && t < |st.threads| && st.threads[t] == Initing(h)
    ensures Inv(Step(st, t, InitDone(ok)))
  {
    hide Total, Listed, Inv;
    Named(st, t, Holder, h);
    var st1 := Step(st, t, InitDone(ok));
    Counts(st, t, st1.threads[t], h);
    StepKeeps(st, st1, t, h);
  }

  lemma GrabKeeps(st: State, t: nat, q: Handle)
    requires Inv(st) && t < |st.threads| && st.threads[t] == Has(q) && q in st.services
    ensures Inv(GrabQueue(st, t, q))
  {
    hide Total, Listed, Inv;
    var st1 := GrabQueue(st, t, q);
    Counts(st, t, st1.threads[t], q);
    StepKeeps(st, st1, t, q);
  }

  lemma PopKeeps(st: State, t: nat, q: Handle, i: nat, n: nat)
    requires Inv(st) && t < |st.threads| && st.threads[t] == Loop(q, i, n) && q in st.services
    ensures Inv(PopNext(st, t, q, i, n))
  {
    hide Total, Listed, Inv, Doubled;
    var st1 := PopNext(st, t, q, i, n);
    Counts(st, t, st1.threads[t], q);
    StepKeeps(st, st1, t, q);
  }

  lemma CallKeeps(st: State, t: nat, q: Handle, i: nat, n: nat, m: Message, weight: int)
    requires Inv(st) && t < |st.threads| && q in st.services
    ensures st.threads[t] == Got(q, i, n, m) ==> Inv(StartCall(st, t, q, i, n, m, weight))
    ensures st.threads[t] == Calling(q, i, n, m) ==> Inv(EndCall(st, t, q, i, n, m))
  {
    hide Total, Listed, Inv, Shift;
    if st.threads[t] == Got(q, i, n, m) {
      var st1 := StartCall(st, t, q, i, n, m, weight);
      Counts(st, t, st1.threads[t], q);
      StepKeeps(st, st1, t, q);
    } else if st.threads[t] == Calling(q, i, n, m) {
      var st1 := EndCall(st, t, q, i, n, m);
      Counts(st, t, st1.threads[t], q);
      StepKeeps(st, st1, t, q);
    }
  }

  lemma SwapKeeps(st: State, t: nat, q: Handle)
    requires Inv(st) && t < |st.threads| && st.threads[t] == Swap(q)
    ensures Inv(SwapQueue(st, t, q))
  {
    hide Total, Inv;
    var st1 := SwapQueue(st, t, q);
    if st.global == [] {
      Named(st, t, Holder, q);
      Counts(st, t, st1.threads[t], q);
      StepKeeps(st, st1, t, q);
    } else {
      var nq := st.global[0];
      ListedTail(st.global);
      ListedNamed(st, nq);
      Counts(st, t, st1.threads[t], nq);
      StepKeeps(st, st1, t, nq);
    }
  }

  lemma PushBackKeeps(st: State, t: nat, q: Handle, nq: Handle)
    requires Inv(st) && t < |st.threads| && st.threads[t] == PushBack(q, nq)
    ensures Inv(Proceed(st, t, 0))
  {
    hide Total, Listed, Inv;
    var st1 := Proceed(st, t, 0);
    Named(st, t, Referrer, q);
    ListedEach(st.global, q);
    Counts(st, t, st1.threads[t], q);
    StepKeeps(st, st1, t, q);
  }

  lemma DropRefKeeps(st: State, t: nat, c: Handle, after: After)
    requires Inv(st) && t < |st.threads| && st.threads[t] == Unref(c, after) && c in st.services
    ensures Inv(DropRef(st, t, c, after))
  {
    hide Total, Listed, Inv;
    var st1 := DropRef(st, t, c, after);
    Counts(st, t, st1.threads[t], c);
    StepKeeps(st, st1, t, c);
  }

  lemma MarkKeeps(st: State, t: nat, c: Handle, after: After)
    requires Inv(st) && t < |st.threads| && st.threads[t] == Delete(c, after) && c in st.services
    ensures Inv(MarkRelease(st, t, c, after))
  {
    hide Total, Listed, Inv;
    var st1 := MarkRelease(st, t, c, after);
    ListedEach(st.global, c);
    Counts(st, t, st1.threads[t], c);
    StepKeeps(st, st1, t, c);
  }

  lemma ReleaseKeeps(st: State, t: nat, q: Handle)
    requires Inv(st) && t < |st.threads| && st.threads[t] == Releasing(q) && q in st.services
    ensures Inv(ReleaseQueue(st, t, q))
  {
    hide Total, Listed, Inv;
    var st1 := ReleaseQueue(st, t, q);
    ListedEach(st.global, q);
    Counts(st, t, st1.threads[t], q);
    StepKeeps(st, st1, t, q);
  }

  lemma DropKeeps(st: State, t: nat, q: Handle)
    requires Inv(st) && t < |st.threads| && st.threads[t] == Dropping(q) && q in st.services
    ensures Inv(DropNext(st, t, q))
  {
    hide Total, Listed, Inv, Doubled;
    var st1 := DropNext(st, t, q);
    Counts(st, t, st1.threads[t], q);
    assert st.threads[t := Dropping(q)] == st.threads;
    StepKeeps(st, st1, t, q);
  }

  lemma PushKeeps(st: State, t: nat, h: Handle, m: Message)
    requires Inv(st) && t < |st.threads| && st.threads[t] == Pushing(h, m) && h in st.services
    ensures Inv(PushMessage(st, t, h, m))
  {
    hide Total, Listed, Inv;
    var st1 := PushMessage(st, t, h, m);
    ListedEach(st.global, h);
    Counts(st, t, st1.threads[t], h);
    StepKeeps(st, st1, t, h);
  }

  lemma LaunchKeeps(st: State, t: nat, h: Handle)
    requires Inv(st) && t < |st.threads| && st.threads[t] == Launching(h) && h in st.services
    ensures Inv(SetInit(st, t, h))
  {
    hide Total, Listed, Inv;
    var st1 := SetInit(st, t, h);
    Counts(st, t, st1.threads[t], h);
    StepKeeps(st, st1, t, h);
  }

  lemma PublishKeeps(st: State, t: nat, h: Handle, kept: bool)
    requires Inv(st) && t < |st.threads| && st.threads[t] == Publishing(h, kept)
    ensures Inv(Proceed(st, t, 0))
  {
    hide Total, Listed, Inv;
    var st1 := Proceed(st, t, 0);
    Named(st, t, Holder, h);
    ListedEach(st.global, h);
    Counts(st, t, st1.threads[t], h);
    StepKeeps(st, st1, t, h);
  }

  /** A thread that reports counts for nothing. */
  lemma ReportKeeps(st: State, t: nat, h: Handle)
    requires Inv(st) && t < |st.threads| && st.threads[t] == Reporting(h)
    ensures Inv(Become(st, t, Idle))
  {
    var st1 := Become(st, t, Idle);
    forall k
      ensures k in st1.services ==> ServiceOk(st1, k, st1.services[k])
      ensures k !in st1.services ==> Absent(st1, k)
    {
      hide Total, Listed, Weight;
      Totals(st, t, Idle, k);
      ReportingWeight(h, k);
      if k in st.services {
        assert ServiceOk(st, k, st.services[k]);
      } else {
        assert Absent(st, k);
        assert forall role :: Total(st1.threads, role, k) == Total(st.threads, role, k);
      }
    }
  }

  lemma ReportingWeight(h: Handle, k: Handle)
    ensures forall role :: Weight(Idle, role, k) == 0 && Weight(Reporting(h), role, k) == 0
  {
  }

  /** A handle that is not in use: the new service is in one place, with its creator. */
  lemma CreateKeeps(st: State, t: nat, h: Handle)
    requires Inv(st) && t < |st.threads| && st.threads[t] == Idle && h !in st.services
    ensures Inv(Begin(st, t, Create(h)))
  {
    hide Total, Listed, Weight;
    var st1 := Begin(st, t, Create(h));
    forall k
      ensures k in st1.services ==> ServiceOk(st1, k, st1.services[k])
      ensures k !in st1.services ==> Absent(st1, k)
    {
      CreatedTotals(st, t, h, k);
      if k == h {
        assert Absent(st, k);
        assert ServiceOk(st1, h, NewService());
      } else if k in st.services {
        assert ServiceOk(st, k, st.services[k]);
      } else {
        assert Absent(st, k);
      }
    }
    forall t2 | 0 <= t2 < |st1.threads|
      ensures ThreadOk(st1, st1.threads[t2])
    {
      assert t2 != t ==> ThreadOk(st, st.threads[t2]);
    }
  }

  lemma CreatedTotals(st: State, t: nat, h: Handle, k: Handle)
    requires t < |st.threads| && st.threads[t] == Idle
    ensures forall role :: Total(Begin(st, t, Create(h)).threads, role, k)
                           == if h in st.services then Total(st.threads, role, k)
                              else Total(st.threads, role, k)
                                   + One(k == h && (role.Holder? || role.Referrer? || role.Creator?))
  {
    hide Total, Listed, Weight;
    Totals(st, t, Initing(h), k);
    InitingWeight(h, k);
  }

  lemma InitingWeight(h: Handle, k: Handle)
    ensures forall role :: Weight(Idle, role, k) == 0
    ensures forall role :: Weight(Initing(h), role, k) == One(k == h && (role.Holder? || role.Referrer? || role.Creator?))
  {
  }

  lemma ProceedKeeps(st: State, t: nat, weight: int)
    requires Inv(st) && t < |st.threads|
    ensures Inv(Proceed(st, t, weight))
  {
    hide Inv, GrabQueue, PopNext, StartCall, EndCall, SwapQueue, DropRef, MarkRelease, ReleaseQueue, Scheduler.DropNext,
      PushMessage, SetInit;
    match st.threads[t]
    case Has(q) => if q in st.services { GrabKeeps(st, t, q); }
    case Loop(q, i, n) => if q in st.services { PopKeeps(st, t, q, i, n); }
    case Got(q, i, n, m) => if q in st.services { CallKeeps(st, t, q, i, n, m, weight); }
    case Calling(q, i, n, m) => if q in st.services { CallKeeps(st, t, q, i, n, m, weight); }
    case Swap(q) => SwapKeeps(st, t, q);
    case PushBack(q, nq) => PushBackKeeps(st, t, q, nq);
    case Unref(c, after) => if c in st.services { DropRefKeeps(st, t, c, after); }
    case Delete(c, after) => if c in st.services { MarkKeeps(st, t, c, after); }
    case Releasing(q) => if q in st.services { ReleaseKeeps(st, t, q); }
    case Dropping(q) => if q in st.services { DropKeeps(st, t, q); }
    case Pushing(h, m) => if h in st.services { PushKeeps(st, t, h, m); }
    case Launching(h) => if h in st.services { LaunchKeeps(st, t, h); }
    case Publishing(h, kept) => PublishKeeps(st, t, h, kept);
    case Reporting(h) => ReportKeeps(st, t, h);
    case Retiring(h) => if h in st.services { RetireKeeps(st, t, h, ToRelease(h)); }
    case _ =>
  }

  /** Every step of every thread keeps the invariant. */
  lemma StepInv(st: State, t: nat, a: Action)
    requires Inv(st)
    ensures Inv(Step(st, t, a))
  {
    hide Inv, Proceed, RetireHandle;
    if t < |st.threads| {
      match st.threads[t]
      case Idle =>
        match a {
          case Take =>
            if st.global != [] {
              TakeKeeps(st, t);
            }
          case Send(h, m) =>
            if h in st.services && st.services[h].registered {
              SendKeeps(st, t, h, m);
            }
          case Retire(h) =>
            if h in st.services {
              RetireKeeps(st, t, h, ToIdle);
            }
          case Create(h) =>
            if h !in st.services {
              CreateKeeps(st, t, h);
            }
          case _ =>
        }
      case Initing(h) =>
        if a.InitDone? {
          InitKeeps(st, t, h, a.ok);
        }
      case _ =>
        if a.Go? {
          ProceedKeeps(st, t, a.weight);
        }
    }
  }

  lemma {:induction false} IdleTotals(threads: seq<Thread>, role: Role, h: Handle)
    requires forall t :: 0 <= t < |threads| ==> threads[t] == Idle
    ensures Total(threads, role, h) == 0
  {
    if threads != [] {
      IdleTotals(threads[1..], role, h);
    }
  }

  lemma StartInv(n: nat)
    ensures Inv(Scheduler.Start(n))
  {
    var st := Scheduler.Start(n);
    forall h
      ensures Absent(st, h)
    {
      forall role
        ensures Total(st.threads, role, h) == 0
      {
        IdleTotals(st.threads, role, h);
      }
    }
  }

  lemma {:induction false} RunKeeps(st: State, events: seq<Event>)
    requires Inv(st)
    ensures Inv(Run(st, events))
    decreases |events|
  {
    hide Inv, Step;
    if events != [] {
      StepInv(st, events[0].thread, events[0].action);
      RunKeeps(Step(st, events[0].thread, events[0].action), events[1..]);
    }
  }

  // ---- what holds in every run ------------------------------------------------------

  /** A state that some run of `n` threads reaches. */
  ghost predicate Reachable(st: State, n: nat) {
    exists events: seq<Event> :: st == Run(Scheduler.Start(n), events)
  }

  lemma ReachableInv(st: State, n: nat)
    requires Reachable(st, n)
    ensures Inv(st)
  {
    hide Inv, Run;
    var events: seq<Event> :| st == Run(Scheduler.Start(n), events);
    StartInv(n);
    RunKeeps(Scheduler.Start(n), events);
  }

  /** Each queue that is not freed is in exactly one place: once in the global list, with one
      thread, or waiting with no message and no thread. A freed queue is nowhere. */
  lemma InOnePlace(st: State, n: nat, h: Handle)
    requires Reachable(st, n) && h in st.services
    ensures var v := st.services[h];
            && Listed(st.global, h) + Total(st.threads, Holder, h) + Waits(v) == One(!v.freed)
            && (Waits(v) == 1 ==> v.mq.msgs == [])
  {
    hide Total, Listed;
    ReachableInv(st, n);
    assert ServiceOk(st, h, st.services[h]);
  }

  /** Does thread `x` run the callback or the init function of `h`? */
  predicate Runs(x: Thread, h: Handle) {
    x == Initing(h) || (x.Calling? && x.q == h)
  }

  /** No two threads run the code of one service at once, and the callback runs only after
      the init function has succeeded. */
  lemma MutualExclusion(st: State, n: nat, h: Handle, t1: nat, t2: nat)
    requires Reachable(st, n) && t1 < |st.threads| && t2 < |st.threads|
    requires Runs(st.threads[t1], h) && Runs(st.threads[t2], h)
    ensures t1 == t2
    ensures st.threads[t1].Calling? ==> h in st.services && st.services[h].init
  {
    hide Total, Listed;
    ReachableInv(st, n);
    Named(st, t1, Holder, h);
    assert ServiceOk(st, h, st.services[h]);
    if t1 < t2 {
      TwoThreads(st.threads, t1, t2, Holder, h);
    } else if t2 < t1 {
      TwoThreads(st.threads, t2, t1, Holder, h);
    }
    assert ThreadOk(st, st.threads[t1]);
  }

  lemma {:induction false} SomeThread(threads: seq<Thread>, role: Role, h: Handle) returns (t: nat)
    requires Total(threads, role, h) > 0
    ensures t < |threads| && Weight(threads[t], role, h) > 0
  {
    if Weight(threads[0], role, h) > 0 {
      t := 0;
    } else {
      t := SomeThread(threads[1..], role, h);
      t := t + 1;
    }
  }

  /** A queue with messages is in the global list, or a thread has it: it is never stranded. */
  lemma NeverStranded(st: State, n: nat, h: Handle)
    requires Reachable(st, n) && h in st.services && st.services[h].mq.msgs != []
    ensures h in st.global || exists t :: 0 <= t < |st.threads| && Holds(st.threads[t], h) > 0
  {
    hide Total, Listed;
    InOnePlace(st, n, h);
    ReachableInv(st, n);
    assert ServiceOk(st, h, st.services[h]);
    ListedIn(st.global, h);
    if h !in st.global {
      var t := SomeThread(st.threads, Holder, h);
      WeightOf(st.threads[t], h);
    }
  }

  /** Every message that arrived is delivered, then in hand, then dropped, or still waits, in
      the order of arrival; when the queue is freed all have been delivered or dropped, and
      messages are dropped only once nobody can reach the service any more. */
  lemma ExactlyOnce(st: State, n: nat, h: Handle)
    requires Reachable(st, n) && h in st.services
    ensures var v := st.services[h];
            && v.arrived == v.delivered + v.current + v.dropped + v.mq.msgs
            && |v.current| <= 1
            && (v.dropped != [] ==> v.refs == 0 && !v.registered)
            && (v.freed ==> v.arrived == v.delivered + v.dropped)
  {
    hide Total, Listed;
    ReachableInv(st, n);
    var v := st.services[h];
    assert ServiceOk(st, h, v);
    CarriersHold(st.threads, h);
  }

  /** The queue whose lock or list entry the next step of a thread touches. */
  predicate Touches(x: Thread, h: Handle) {
    match x
    case Idle => false
    case Unref(_, _) => false
    case Retiring(_) => false
    case Initing(_) => false
    case Launching(_) => false
    case Reporting(_) => false
    case Delete(c, _) => c == h
    case Pushing(k, _) => k == h
    case Publishing(k, _) => k == h
    case PushBack(q, _) => q == h
    case _ => x.q == h
  }

  /** `delete_context` has marked the queue for release, and frees the context. */
  predicate ContextFreed(st: State, h: Handle)
    requires h in st.services
  {
    st.services[h].mq.release
  }

  /** No thread touches a freed queue, or a context to which it has a reference and that is freed;
      the queue is marked for release at most once, and linked into the global list only when it
      is not there already. The creator, which uses the context without a reference, is the matter
      of `LaunchSafe`. */
  lemma NeverTouchedWhenFreed(st: State, n: nat, h: Handle, t: nat)
    requires Reachable(st, n) && t < |st.threads|
    ensures Touches(st.threads[t], h) ==> h in st.services && !st.services[h].freed
    ensures Refers(st.threads[t], h) > 0 ==> h in st.services && st.services[h].refs > 0 && !ContextFreed(st, h)
    ensures st.threads[t].Delete? && st.threads[t].c == h ==> !ContextFreed(st, h)
    ensures Touches(st.threads[t], h) && (Holds(st.threads[t], h) > 0 || !st.services[h].mq.inGlobal) ==> h !in st.global
  {
    hide Total, Listed;
    ReachableInv(st, n);
    var x := st.threads[t];
    WeightOf(x, h);
    if Holds(x, h) > 0 {
      Named(st, t, Holder, h);
    }
    if Refers(x, h) > 0 {
      Named(st, t, Referrer, h);
    }
    if x.Delete? && x.c == h {
      Named(st, t, Deleter, h);
    }
    if h in st.services {
      assert ServiceOk(st, h, st.services[h]);
      Counts(st, t, Idle, h);
      ListedIn(st.global, h);
    }
  }

  /** The creator sets `init` and logs after it has dropped its reference. The context is there
      then if and only if another reference is held (the handle is still registered, or a thread
      refers to it), or the thread that dropped the last one has not deleted it yet. */
  lemma LaunchSafe(st: State, n: nat, h: Handle)
    requires Reachable(st, n) && h in st.services
    ensures !ContextFreed(st, h) <==>
      st.services[h].registered || Total(st.threads, Referrer, h) > 0 || Total(st.threads, Deleter, h) > 0
  {
    hide Total, Listed;
    ReachableInv(st, n);
    assert ServiceOk(st, h, st.services[h]);
  }

  /** A run in which the creator sets `init` in a context that is freed: the handle is retired just
      before. */
  const RetiredAtOnce: seq<Event> := [
    Event(0, Create(1)), Event(0, InitDone(true)), Event(0, Go(0)),
    Event(1, Retire(1)), Event(1, Go(0)), Event(1, Go(0))]

  lemma LaunchUnsafe()
    ensures var st := Run(Scheduler.Start(2), RetiredAtOnce);
      && 1 in st.services && st.threads == [Launching(1), Idle] && ContextFreed(st, 1)
  {
    var st0 := Scheduler.Start(2);
    var st1 := Step(st0, 0, Create(1));
    assert st1.threads == [Initing(1), Idle] && 1 in st1.services;
    var st2 := Step(st1, 0, InitDone(true));
    assert st2.threads == [Unref(1, ToPublish(1)), Idle];
    var st3 := Step(st2, 0, Go(0));
    assert st3.threads == [Launching(1), Idle] && st3.services[1].refs == 1;
    var st4 := Step(st3, 1, Retire(1));
    assert st4.threads == [Launching(1), Unref(1, ToIdle)];
    var st5 := Step(st4, 1, Go(0));
    assert st5.threads == [Launching(1), Delete(1, ToIdle)];
    var st6 := Step(st5, 1, Go(0));
    assert st6.threads == [Launching(1), Idle] && st6.services[1].mq.release;
    hide Step;
    RunSix(st0, RetiredAtOnce);
  }

  lemma RunSix(st: State, e: seq<Event>)
    requires |e| == 6
    ensures var st1 := Step(st, e[0].thread, e[0].action);
      var st2 := Step(st1, e[1].thread, e[1].action);
      var st3 := Step(st2, e[2].thread, e[2].action);
      var st4 := Step(st3, e[3].thread, e[3].action);
      var st5 := Step(st4, e[4].thread, e[4].action);
      Run(st, e) == Step(st5, e[5].thread, e[5].action)
  {
    hide Step;
    var st1 := Step(st, e[0].thread, e[0].action);
    var st2 := Step(st1, e[1].thread, e[1].action);
    var st3 := Step(st2, e[2].thread, e[2].action);
    var st4 := Step(st3, e[3].thread, e[3].action);
    var st5 := Step(st4, e[4].thread, e[4].action);
    assert Run(st, e) == Run(st1, e[1..]);
    assert Run(st1, e[1..]) == Run(st2, e[1..][1..]);
    assert Run(st2, e[2..]) == Run(st3, e[2..][1..]);
    assert Run(st3, e[3..]) == Run(st4, e[3..][1..]);
    assert Run(st4, e[4..]) == Run(st5, e[4..][1..]);
    assert Run(st5, e[5..]) == Run(Step(st5, e[5].thread, e[5].action), e[5..][1..]);
    assert e[1..][1..] == e[2..] && e[2..][1..] == e[3..] && e[3..][1..] == e[4..] && e[4..][1..] == e[5..] && e[5..][1..] == [];
  }

  /** When all threads are idle and the global list is empty, nothing is left over: a retired
      service is freed with every message delivered or dropped, any other has delivered all
      that arrived and is referred to by the handle table alone. */
  lemma Quiescent(st: State, n: nat, h: Handle)
    requires Reachable(st, n) && h in st.services
    requires st.global == [] && forall t :: 0 <= t < |st.threads| ==> st.threads[t] == Idle
    ensures var v := st.services[h];
            if v.registered then v.refs == 1 && !v.freed && v.init && v.arrived == v.delivered
            else v.freed && v.arrived == v.delivered + v.dropped
  {
    hide Total;
    ReachableInv(st, n);
    assert ServiceOk(st, h, st.services[h]);
    forall role
      ensures Total(st.threads, role, h) == 0
    {
      IdleTotals(st.threads, role, h);
    }
  }
}
