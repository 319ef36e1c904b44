/** Services, their queues and the threads that run them (skynet/skynet-src/skynet_server.c,
    skynet_mq.c and skynet_handle.c). A state holds any number of services and of threads;
    each region that the source protects by a lock, and each atomic count, is one step.

    A thread that is `Idle` may become a worker, send a message, retire a handle or create a
    service. The callback of a service runs while its thread is `Calling`; what the callback
    sends or creates is done by other threads of the model. */
module Scheduler {
  import opened MessageQueue

  type Handle = nat

  /** What a thread does after it has dropped a reference. */
  datatype After =
    | ToIdle
    | ToHas(q: Handle)
    | ToPublish(h: Handle)
    | ToRetire(h: Handle)
    | ToRelease(h: Handle)

  datatype Thread =
    | Idle
    | Has(q: Handle)                                      // a worker about to dispatch q
    | Loop(q: Handle, i: nat, n: nat)                     // about to pop message i of n
    | Got(q: Handle, i: nat, n: nat, m: Message)          // about to read the length
    | Calling(q: Handle, i: nat, n: nat, m: Message)      // in the callback
    | Swap(q: Handle)                                     // about to take the next queue
    | PushBack(q: Handle, nq: Handle)                     // has taken nq, about to return q
    | Unref(c: Handle, after: After)                      // about to drop a reference
    | Delete(c: Handle, after: After)                     // in delete_context
    | Releasing(q: Handle)                                // in skynet_mq_release
    | Dropping(q: Handle)                                 // in _drop_queue
    | Pushing(h: Handle, m: Message)                      // has grabbed h, about to push
    | Initing(h: Handle)                                  // in the init function
    | Launching(h: Handle)                                // about to set init, without a reference
    | Publishing(h: Handle, kept: bool)                   // about to make the queue global
    | Reporting(h: Handle)                                // about to log, without a reference
    | Retiring(h: Handle)                                 // init has failed

  /** A service: its context, its queue, and ghost records of the messages that arrived, were
      handed to the callback, are being handled, and were dropped. */
  datatype Service = Service(
    mq: Mq, registered: bool, refs: int, init: bool, freed: bool,
    arrived: seq<Message>, delivered: seq<Message>, current: seq<Message>, dropped: seq<Message>)

  datatype State = State(services: map<Handle, Service>, global: seq<Handle>, threads: seq<Thread>)

  datatype Action =
    | Take
    | Send(h: Handle, m: Message)
    | Retire(h: Handle)
    | Create(h: Handle)
    | InitDone(ok: bool)
    | Go(weight: int)

  /** `skynet_context_new`, up to the call of the init function. */
  function NewService(): Service {
    Service(Created(), true, 2, false, false, [], [], [], [])
  }

  /** `kept` says whether the context is still there, as far as the thread knows. */
  function Resume(after: After, kept: bool): Thread {
    match after
    case ToIdle => Idle
    case ToHas(q) => Has(q)
    case ToPublish(h) => if kept then Launching(h) else Publishing(h, false)
    case ToRetire(h) => Retiring(h)
    case ToRelease(h) => Releasing(h)
  }

  /** Thread `t` becomes `x`. */
  function Become(st: State, t: nat, x: Thread): State
    requires t < |st.threads|
  {
    st.(threads := st.threads[t := x])
  }

  function Update(st: State, h: Handle, v: Service): State {
    st.(services := st.services[h := v])
  }

  function Enlist(st: State, h: Handle): State {
    st.(global := st.global + [h])
  }

  function Shift(n: nat, weight: nat): nat
    decreases weight
  {
    if weight == 0 then n else Shift(n / 2, weight - 1)
  }

  /** A step of a thread that is not idle. Threads name only services that exist. */
  function Proceed(st: State, t: nat, weight: int): State
    requires t < |st.threads|
  {
    match st.threads[t]
    case Has(q) => if q in st.services then GrabQueue(st, t, q) else st
    case Loop(q, i, n) => if q in st.services then PopNext(st, t, q, i, n) else st
    case Got(q, i, n, m) => if q in st.services then StartCall(st, t, q, i, n, m, weight) else st
    case Calling(q, i, n, m) => if q in st.services then EndCall(st, t, q, i, n, m) else st
    case Swap(q) => SwapQueue(st, t, q)
    case PushBack(q, nq) => Become(Enlist(st, q), t, Unref(q, ToHas(nq)))
    case Unref(c, after) => if c in st.services then DropRef(st, t, c, after) else st
    case Delete(c, after) => if c in st.services then MarkRelease(st, t, c, after) else st
    case Releasing(q) => if q in st.services then ReleaseQueue(st, t, q) else st
    case Dropping(q) => if q in st.services then DropNext(st, t, q) else st
    case Pushing(h, m) => if h in st.services then PushMessage(st, t, h, m) else st
    case Launching(h) => if h in st.services then SetInit(st, t, h) else st
    case Publishing(h, kept) => Become(Enlist(st, h), t, if kept then Reporting(h) else Idle)
    case Reporting(_) => Become(st, t, Idle)
    case Retiring(h) => if h in st.services then RetireOwn(st, t, h) else st
    case _ => st
  }

  /** `skynet_handle_grab` at the start of `skynet_context_message_dispatch` */
  function GrabQueue(st: State, t: nat, q: Handle): State
    requires t < |st.threads| && q in st.services
  {
    var v := st.services[q];
    if v.registered then Become(Update(st, q, v.(refs := v.refs + 1)), t, Loop(q, 0, 1))
    else Become(st, t, Releasing(q))
  }

  /** The head of the dispatch loop, with `skynet_mq_pop`. */
  function PopNext(st: State, t: nat, q: Handle, i: nat, n: nat): State
    requires t < |st.threads| && q in st.services
  {
    var v := st.services[q];
    if i >= n then Become(st, t, Swap(q))
    else if v.mq.msgs == [] then Become(Update(st, q, v.(mq := Popped(v.mq))), t, Unref(q, ToIdle))
    else
      var m := v.mq.msgs[0];
      Become(Update(st, q, v.(mq := Popped(v.mq), current := [m])), t, Got(q, i, n, m))
  }

  /** `skynet_mq_length` after the first message, and `skynet_mq_overload` */
  function StartCall(st: State, t: nat, q: Handle, i: nat, n: nat, m: Message, weight: int): State
    requires t < |st.threads| && q in st.services
  {
    var v := st.services[q];
    var limit := if i == 0 && weight >= 0 then Shift(|v.mq.msgs|, weight) else n;
    Become(Update(st, q, v.(mq := v.mq.(overload := 0))), t, Calling(q, i, limit, m))
  }

  function EndCall(st: State, t: nat, q: Handle, i: nat, n: nat, m: Message): State
    requires t < |st.threads| && q in st.services
  {
    var v := st.services[q];
    Become(Update(st, q, v.(delivered := v.delivered + [m], current := [])), t, Loop(q, i + 1, n))
  }

  /** `skynet_globalmq_pop` after the dispatch loop: without another queue the worker keeps q. */
  function SwapQueue(st: State, t: nat, q: Handle): State
    requires t < |st.threads|
  {
    if st.global == [] then Become(st, t, Unref(q, ToHas(q)))
    else Become(st.(global := st.global[1..]), t, PushBack(q, st.global[0]))
  }

  /** `ctx->init = true`, after the creator has dropped its reference. */
  function SetInit(st: State, t: nat, h: Handle): State
    requires t < |st.threads| && h in st.services
  {
    Become(Update(st, h, st.services[h].(init := true)), t, Publishing(h, true))
  }

  /** `skynet_context_release` */
  function DropRef(st: State, t: nat, c: Handle, after: After): State
    requires t < |st.threads| && c in st.services
  {
    var v := st.services[c].(refs := st.services[c].refs - 1);
    if v.refs == 0 then Become(Update(st, c, v), t, Delete(c, after))
    else Become(Update(st, c, v), t, Resume(after, true))
  }

  /** `skynet_mq_mark_release`: a queue that is not global becomes global, but its flag stays. */
  function MarkRelease(st: State, t: nat, c: Handle, after: After): State
    requires t < |st.threads| && c in st.services
  {
    var v := st.services[c];
    var st1 := Update(st, c, v.(mq := v.mq.(release := true)));
    Become(if v.mq.inGlobal then st1 else Enlist(st1, c), t, Resume(after, false))
  }

  /** `skynet_mq_release` */
  function ReleaseQueue(st: State, t: nat, q: Handle): State
    requires t < |st.threads| && q in st.services
  {
    if st.services[q].mq.release then Become(st, t, Dropping(q)) else Become(Enlist(st, q), t, Idle)
  }

  /** One round of `_drop_queue`; the queue is freed when it is empty. */
  function DropNext(st: State, t: nat, q: Handle): State
    requires t < |st.threads| && q in st.services
  {
    var v := st.services[q];
    if v.mq.msgs == [] then Become(Update(st, q, v.(mq := Popped(v.mq), freed := true)), t, Idle)
    else Update(st, q, v.(mq := Popped(v.mq), dropped := v.dropped + [v.mq.msgs[0]]))
  }

  /** `skynet_mq_push` */
  function PushMessage(st: State, t: nat, h: Handle, m: Message): State
    requires t < |st.threads| && h in st.services
  {
    var v := st.services[h];
    var st1 := Update(st, h, v.(mq := Pushed(v.mq, m), arrived := v.arrived + [m]));
    Become(if v.mq.inGlobal then st1 else Enlist(st1, h), t, Unref(h, ToIdle))
  }

  /** `skynet_handle_retire`; the reference of the handle table is dropped afterwards. */
  function RetireHandle(st: State, t: nat, h: Handle, after: After): State
    requires t < |st.threads| && h in st.services
  {
    var v := st.services[h];
    if v.registered then Become(Update(st, h, v.(registered := false)), t, Unref(h, after))
    else Become(st, t, Resume(after, false))
  }

  function RetireOwn(st: State, t: nat, h: Handle): State
    requires t < |st.threads| && h in st.services
  {
    RetireHandle(st, t, h, ToRelease(h))
  }

  /** What an idle thread may begin. */
  function Begin(st: State, t: nat, a: Action): State
    requires t < |st.threads|
  {
    match a
    case Take =>
      if st.global == [] then st
      else Become(st.(global := st.global[1..]), t, Has(st.global[0]))
    case Send(h, m) =>
      if h in st.services && st.services[h].registered then
        Become(Update(st, h, st.services[h].(refs := st.services[h].refs + 1)), t, Pushing(h, m))
      else st
    case Retire(h) => if h in st.services then RetireHandle(st, t, h, ToIdle) else st
    case Create(h) =>
      if h in st.services then st else Become(Update(st, h, NewService()), t, Initing(h))
    case _ => st
  }

  /** One step of thread `t`; an action that the thread cannot do changes nothing. */
  function Step(st: State, t: nat, a: Action): State {
    if t >= |st.threads| then st
    else
      match st.threads[t]
      case Idle => Begin(st, t, a)
      case Initing(h) =>
        if !a.InitDone? then st
        else Become(st, t, Unref(h, if a.ok then ToPublish(h) else ToRetire(h)))
      case _ => if a.Go? then Proceed(st, t, a.weight) else st
  }

  datatype Event = Event(thread: nat, action: Action)

  /** `n` threads and no service. */
  function Start(n: nat): State {
    State(map[], [], seq(n, _ => Idle))
  }

  function Run(st: State, events: seq<Event>): State
    decreases |events|
  {
    if events == [] then st
    else Run(Step(st, events[0].thread, events[0].action), events[1..])
  }
}
