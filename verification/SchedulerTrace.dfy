/** What the services of the scheduler record is what the threads have done, read off the events of
    a run and the places of the threads alone. */
module SchedulerTrace {
  import opened MessageQueue
  import opened Scheduler
  import opened SchedulerProof

  /** Does the thread of an event go on from where it is? */
  predicate GoesOn(st: State, e: Event) {
    e.thread < |st.threads| && e.action.Go?
  }

  /** The message that an event sends to `h`, if the service can be reached. */
  function SentBy(st: State, e: Event, h: Handle): seq<Message> {
    if e.thread < |st.threads| && st.threads[e.thread] == Idle && e.action.Send? && e.action.h == h
       && h in st.services && st.services[h].registered
    then [e.action.m] else []
  }

  /** The message that a thread pushes to the queue of `h`. */
  function PushedBy(st: State, e: Event, h: Handle): seq<Message> {
    if GoesOn(st, e) && st.threads[e.thread].Pushing? && st.threads[e.thread].h == h then [st.threads[e.thread].m] else []
  }

  /** The message for which the callback of `h` comes to its end. */
  function HandledBy(st: State, e: Event, h: Handle): seq<Message> {
    if GoesOn(st, e) && st.threads[e.thread].Calling? && st.threads[e.thread].q == h then [st.threads[e.thread].m] else []
  }

  /** The message that is dropped with the queue of `h`: the first that waits. */
  function DroppedBy(st: State, e: Event, h: Handle): seq<Message> {
    if GoesOn(st, e) && st.threads[e.thread] == Dropping(h) && h in st.services && st.services[h].mq.msgs != []
    then [st.services[h].mq.msgs[0]] else []
  }

  datatype What = WasSent | WasPushed | WasHandled | WasDropped

  function By(what: What, st: State, e: Event, h: Handle): seq<Message> {
    match what
    case WasSent => SentBy(st, e, h)
    case WasPushed => PushedBy(st, e, h)
    case WasHandled => HandledBy(st, e, h)
    case WasDropped => DroppedBy(st, e, h)
  }

  /** The messages in the order of the events. */
  function All(what: What, st: State, events: seq<Event>, h: Handle): seq<Message>
    decreases |events|
  {
    if events == [] then []
    else By(what, st, events[0], h) + All(what, Step(st, events[0].thread, events[0].action), events[1..], h)
  }

  function Carries(x: Thread, h: Handle, m: Message): nat {
    One(x == Pushing(h, m))
  }

  /** How many threads are about to push the message to the queue of `h`. */
  function Carried(threads: seq<Thread>, h: Handle, m: Message): nat {
    if threads == [] then 0 else Carries(threads[0], h, m) + Carried(threads[1..], h, m)
  }

  lemma {:induction false} CarriedUpdate(threads: seq<Thread>, t: nat, x: Thread, h: Handle, m: Message)
    requires t < |threads|
    ensures Carried(threads[t := x], h, m) + Carries(threads[t], h, m) == Carried(threads, h, m) + Carries(x, h, m)
  {
    if t == 0 {
      assert threads[t := x][1..] == threads[1..];
    } else {
      assert threads[t := x][1..] == threads[1..][t - 1 := x];
      CarriedUpdate(threads[1..], t - 1, x, h, m);
    }
  }

  lemma {:induction false} NothingCarried(threads: seq<Thread>, h: Handle, m: Message)
    requires forall t :: 0 <= t < |threads| ==> threads[t] == Idle
    ensures Carried(threads, h, m) == 0
  {
    if threads != [] {
      NothingCarried(threads[1..], h, m);
    }
  }

  function Count(ms: seq<Message>, m: Message): nat {
    multiset(ms)[m]
  }

  // ---- one step ---------------------------------------------------------------------

  /** The records of a service before and after a step. */
  predicate Records(st: State, e: Event, h: Handle, v: Service, w: Service) {
    && w.arrived == v.arrived + PushedBy(st, e, h)
    && w.delivered == v.delivered + HandledBy(st, e, h)
    && w.dropped == v.dropped + DroppedBy(st, e, h)
  }

  /** The steps that record something. */
  lemma RecordingSteps(st: State, t: nat, weight: int, h: Handle)
    requires t < |st.threads| && h in st.services
    requires st.threads[t].Calling? || st.threads[t].Pushing? || st.threads[t].Dropping?
    ensures h in Proceed(st, t, weight).services
    ensures Records(st, Event(t, Go(weight)), h, st.services[h], Proceed(st, t, weight).services[h])
  {
    hide Popped, MessageQueue.Pushed;
  }

  lemma WorkerSteps(st: State, t: nat, weight: int, h: Handle)
    requires t < |st.threads| && h in st.services
    requires var x := st.threads[t]; x.Has? || x.Loop? || x.Got? || x.Swap? || x.PushBack?
    ensures h in Proceed(st, t, weight).services
    ensures Records(st, Event(t, Go(weight)), h, st.services[h], Proceed(st, t, weight).services[h])
  {
    hide Popped, Shift;
  }

  lemma OtherSteps(st: State, t: nat, weight: int, h: Handle)
    requires t < |st.threads| && h in st.services
    requires var x := st.threads[t];
      x.Unref? || x.Delete? || x.Releasing? || x.Launching? || x.Publishing? || x.Reporting? || x.Retiring?
    ensures h in Proceed(st, t, weight).services
    ensures Records(st, Event(t, Go(weight)), h, st.services[h], Proceed(st, t, weight).services[h])
  {
  }

  lemma ProceedRecords(st: State, t: nat, weight: int, h: Handle)
    requires t < |st.threads| && h in st.services && !st.threads[t].Idle? && !st.threads[t].Initing?
    ensures h in Proceed(st, t, weight).services
    ensures Records(st, Event(t, Go(weight)), h, st.services[h], Proceed(st, t, weight).services[h])
  {
    hide Proceed, Records;
    var x := st.threads[t];
    if x.Calling? || x.Pushing? || x.Dropping? {
      RecordingSteps(st, t, weight, h);
    } else if x.Has? || x.Loop? || x.Got? || x.Swap? || x.PushBack? {
      WorkerSteps(st, t, weight, h);
    } else {
      OtherSteps(st, t, weight, h);
    }
  }

  lemma StepRecords(st: State, e: Event, h: Handle)
    requires h in st.services
    ensures h in Step(st, e.thread, e.action).services
    ensures Records(st, e, h, st.services[h], Step(st, e.thread, e.action).services[h])
  {
    hide Proceed, Records;
    if e.thread < |st.threads| && e.action.Go? && !st.threads[e.thread].Idle? && !st.threads[e.thread].Initing? {
      ProceedRecords(st, e.thread, e.action.weight, h);
      assert Step(st, e.thread, e.action) == Proceed(st, e.thread, e.action.weight);
    } else {
      OtherRecords(st, e, h);
    }
  }

  lemma OtherRecords(st: State, e: Event, h: Handle)
    requires h in st.services
    requires e.thread < |st.threads| && e.action.Go? ==> st.threads[e.thread].Idle? || st.threads[e.thread].Initing?
    ensures h in Step(st, e.thread, e.action).services
    ensures Records(st, e, h, st.services[h], Step(st, e.thread, e.action).services[h])
  {
  }

  /** A new service has no records, and nobody has done anything for it. */
  lemma NewRecords(st: State, e: Event, h: Handle)
    requires Inv(st) && h !in st.services
    ensures forall what :: By(what, st, e, h) == []
    ensures var st1 := Step(st, e.thread, e.action); h in st1.services ==>
      st1.services[h].arrived == [] && st1.services[h].delivered == [] && st1.services[h].dropped == []
  {
    hide Total, Listed;
    assert Absent(st, h);
    if GoesOn(st, e) {
      var x := st.threads[e.thread];
      if x.Pushing? && x.h == h {
        Named(st, e.thread, Referrer, h);
      }
      if (x.Calling? && x.q == h) || x == Dropping(h) {
        Named(st, e.thread, Holder, h);
      }
    }
    NotCreated(st, e, h);
  }

  lemma NotCreated(st: State, e: Event, h: Handle)
    requires h !in st.services
    ensures var st1 := Step(st, e.thread, e.action); h in st1.services ==> st1.services[h] == NewService()
  {
    hide Doubled, Popped, Pushed, Shift;
  }

  /** What threads carry to a queue changes by what is sent and pushed. */
  lemma StepCarries(st: State, e: Event, h: Handle, m: Message)
    requires Inv(st)
    ensures Carried(Step(st, e.thread, e.action).threads, h, m) + Count(PushedBy(st, e, h), m)
         == Carried(st.threads, h, m) + Count(SentBy(st, e, h), m)
  {
    hide Inv, Step, Carries, SentBy, PushedBy, Count;
    if e.thread < |st.threads| {
      OneMoves(st, e.thread, e.action);
      CarriedUpdate(st.threads, e.thread, Step(st, e.thread, e.action).threads[e.thread], h, m);
      CarriesMoves(st, e, h, m);
    } else {
      NobodyMoves(st, e, h);
    }
  }

  lemma NobodyMoves(st: State, e: Event, h: Handle)
    requires e.thread >= |st.threads|
    ensures Step(st, e.thread, e.action) == st && PushedBy(st, e, h) == SentBy(st, e, h) == []
  {
  }

  lemma OneMoves(st: State, t: nat, a: Action)
    requires t < |st.threads|
    ensures var st1 := Step(st, t, a); |st1.threads| == |st.threads| && st1.threads == st.threads[t := st1.threads[t]]
  {
    hide Proceed;
    if a.Go? {
      ProceedMoves(st, t, a.weight);
    }
  }

  /** A thread moves alone, and from nowhere else to a push. */
  lemma ProceedMoves(st: State, t: nat, weight: int)
    requires t < |st.threads|
    ensures var st1 := Proceed(st, t, weight);
      && |st1.threads| == |st.threads| && st1.threads == st.threads[t := st1.threads[t]]
      && (st1.threads[t].Pushing? ==> st1.threads[t] == st.threads[t])
      && (st.threads[t].Pushing? && st.threads[t].h in st.services ==> !st1.threads[t].Pushing?)
  {
    hide Popped, MessageQueue.Pushed, Shift;
  }

  lemma PushedThere(st: State, t: nat)
    requires Inv(st) && t < |st.threads| && st.threads[t].Pushing?
    ensures st.threads[t].h in st.services
  {
    hide Inv;
    Named(st, t, Referrer, st.threads[t].h);
  }

  lemma CarriesMoves(st: State, e: Event, h: Handle, m: Message)
    requires Inv(st) && e.thread < |st.threads| && |Step(st, e.thread, e.action).threads| == |st.threads|
    ensures Carries(Step(st, e.thread, e.action).threads[e.thread], h, m) + Count(PushedBy(st, e, h), m)
         == Carries(st.threads[e.thread], h, m) + Count(SentBy(st, e, h), m)
  {
    hide Inv, Proceed;
    var x := st.threads[e.thread];
    if x.Pushing? {
      PushedThere(st, e.thread);
    }
    if e.action.Go? {
      ProceedMoves(st, e.thread, e.action.weight);
    }
  }

  // ---- whole runs -------------------------------------------------------------------

  /** What a service that exists from the start of a run on records in it. */
  lemma {:induction false} RunRecords(st: State, events: seq<Event>, h: Handle)
    requires h in st.services
    ensures h in Run(st, events).services
    ensures var v, w := st.services[h], Run(st, events).services[h];
      && w.arrived == v.arrived + All(WasPushed, st, events, h)
      && w.delivered == v.delivered + All(WasHandled, st, events, h)
      && w.dropped == v.dropped + All(WasDropped, st, events, h)
    decreases |events|
  {
    hide Step, PushedBy, HandledBy, DroppedBy;
    if events != [] {
      StepRecords(st, events[0], h);
      RunRecords(Step(st, events[0].thread, events[0].action), events[1..], h);
    }
  }

  /** The same for a service that is created in the run. */
  lemma {:induction false} NewRunRecords(st: State, events: seq<Event>, h: Handle)
    requires Inv(st) && h !in st.services && h in Run(st, events).services
    ensures var w := Run(st, events).services[h];
      && w.arrived == All(WasPushed, st, events, h)
      && w.delivered == All(WasHandled, st, events, h)
      && w.dropped == All(WasDropped, st, events, h)
    decreases |events|
  {
    hide Inv, Step, By;
    var e := events[0];
    var st1 := Step(st, e.thread, e.action);
    NewRecords(st, e, h);
    StepInv(st, e.thread, e.action);
    if h in st1.services {
      RunRecords(st1, events[1..], h);
    } else {
      NewRunRecords(st1, events[1..], h);
    }
  }

  lemma {:induction false} RunCarries(st: State, events: seq<Event>, h: Handle, m: Message)
    requires Inv(st)
    ensures Carried(Run(st, events).threads, h, m) + Count(All(WasPushed, st, events, h), m)
         == Carried(st.threads, h, m) + Count(All(WasSent, st, events, h), m)
    decreases |events|
  {
    hide Inv, Step, PushedBy, SentBy, Carried;
    if events != [] {
      var e := events[0];
      StepInv(st, e.thread, e.action);
      StepCarries(st, e, h, m);
      RunCarries(Step(st, e.thread, e.action), events[1..], h, m);
    }
  }

  /** In every run: what is in the queue of a service, in hand, delivered and dropped is what was
      pushed to it, in order; delivered are the messages for which the callback has ended, dropped
      those of the queue that were dropped; and what was pushed, and what threads are about to
      push, is what was sent while the service could be reached. */
  lemma SentExactlyOnce(n: nat, events: seq<Event>, h: Handle)
    requires h in Run(Scheduler.Start(n), events).services
    ensures var st0 := Scheduler.Start(n); var st := Run(st0, events); var v := st.services[h];
      && All(WasPushed, st0, events, h)
         == All(WasHandled, st0, events, h) + v.current + All(WasDropped, st0, events, h) + v.mq.msgs
      && v.arrived == All(WasPushed, st0, events, h)
      && v.delivered == All(WasHandled, st0, events, h)
      && v.dropped == All(WasDropped, st0, events, h)
      && forall m :: Count(All(WasPushed, st0, events, h), m) + Carried(st.threads, h, m)
                     == Count(All(WasSent, st0, events, h), m)
  {
    hide Inv, Run, All, Count;
    var st0 := Scheduler.Start(n);
    StartInv(n);
    NewRunRecords(st0, events, h);
    assert Reachable(Run(st0, events), n);
    ExactlyOnce(Run(st0, events), n, h);
    forall m
      ensures Count(All(WasPushed, st0, events, h), m) + Carried(Run(st0, events).threads, h, m)
           == Count(All(WasSent, st0, events, h), m)
    {
      NothingCarried(st0.threads, h, m);
      RunCarries(st0, events, h, m);
    }
  }

  /** When all is quiet, a service that was not retired has handled all that was sent to it while
      it could be reached. */
  lemma AllHandled(n: nat, events: seq<Event>, h: Handle)
    requires var st := Run(Scheduler.Start(n), events);
      && h in st.services && st.services[h].registered
      && st.global == [] && forall t :: 0 <= t < |st.threads| ==> st.threads[t] == Idle
    ensures var st0 := Scheduler.Start(n);
      multiset(All(WasHandled, st0, events, h)) == multiset(All(WasSent, st0, events, h))
  {
    hide Inv, Run, All;
    var st0 := Scheduler.Start(n);
    var st := Run(st0, events);
    assert Reachable(st, n);
    SentExactlyOnce(n, events, h);
    Quiescent(st, n, h);
    var handled, sent := All(WasHandled, st0, events, h), All(WasSent, st0, events, h);
    forall m
      ensures multiset(handled)[m] == multiset(sent)[m]
    {
      NothingCarried(st.threads, h, m);
      assert Count(handled, m) == Count(sent, m);
    }
  }

  // ---- services that can be reached, and that are ready -----------------------------

  /** A thread takes the handle of `h` out of the table. */
  predicate RetiredBy(st: State, e: Event, h: Handle) {
    && e.thread < |st.threads| && h in st.services
    && ((st.threads[e.thread] == Idle && e.action == Retire(h)) || (e.action.Go? && st.threads[e.thread] == Retiring(h)))
  }

  predicate CreatedBy(st: State, e: Event, h: Handle) {
    e.thread < |st.threads| && h !in st.services && st.threads[e.thread] == Idle && e.action == Create(h)
  }

  /** The init function of `h` succeeds. */
  predicate InitBy(st: State, e: Event, h: Handle) {
    e.thread < |st.threads| && st.threads[e.thread] == Initing(h) && e.action == InitDone(true)
  }

  /** The creator of `h` drops its reference, and it is not the last one. */
  predicate KeptBy(st: State, e: Event, h: Handle) {
    GoesOn(st, e) && KeepsGoing(st, e.thread, h)
  }

  predicate KeepsGoing(st: State, t: nat, h: Handle)
    requires t < |st.threads|
  {
    var x := st.threads[t];
    x.Unref? && x.after == ToPublish(h) && x.c in st.services && st.services[x.c].refs != 1
  }

  /** That reference is the last one. */
  predicate LostBy(st: State, e: Event, h: Handle) {
    GoesOn(st, e) && LosesIt(st, e.thread, h)
  }

  predicate LosesIt(st: State, t: nat, h: Handle)
    requires t < |st.threads|
  {
    var x := st.threads[t];
    x.Unref? && x.after == ToPublish(h) && x.c in st.services && st.services[x.c].refs == 1
  }

  datatype Deed = HasCreated | HasRetired | HasStarted | HasKept | HasLost

  predicate DoneBy(d: Deed, st: State, e: Event, h: Handle) {
    match d
    case HasCreated => CreatedBy(st, e, h)
    case HasRetired => RetiredBy(st, e, h)
    case HasStarted => InitBy(st, e, h)
    case HasKept => KeptBy(st, e, h)
    case HasLost => LostBy(st, e, h)
  }

  /** Does it happen in a run? */
  predicate Ever(d: Deed, st: State, events: seq<Event>, h: Handle)
    decreases |events|
  {
    events != []
    && (DoneBy(d, st, events[0], h) || Ever(d, Step(st, events[0].thread, events[0].action), events[1..], h))
  }

  /** The creator of `h` knows that the init function has succeeded. */
  predicate Succeeded(x: Thread, h: Handle) {
    x == Launching(h) || ((x.Unref? || x.Delete?) && x.after == ToPublish(h))
  }

  /** A service is ready, or its creator is about to make it so. */
  predicate Launched(st: State, h: Handle) {
    (h in st.services && st.services[h].init) || exists t :: 0 <= t < |st.threads| && st.threads[t] == Launching(h)
  }

  /** The creator of `h` goes on to tell that it was launched. */
  predicate Announces(x: Thread, h: Handle) {
    x == Launching(h) || x == Publishing(h, true) || x == Reporting(h)
  }

  predicate Announced(st: State, h: Handle) {
    exists t :: 0 <= t < |st.threads| && Announces(st.threads[t], h)
  }

  /** The creator of `h` knows that the context is gone. */
  predicate Misses(x: Thread, h: Handle) {
    x == Publishing(h, false) || (x.Delete? && x.after == ToPublish(h))
  }

  predicate Missed(st: State, h: Handle) {
    exists t :: 0 <= t < |st.threads| && Misses(st.threads[t], h)
  }

  /** A service is ready, or may come to be. */
  predicate Ready(st: State, h: Handle) {
    (h in st.services && st.services[h].init) || exists t :: 0 <= t < |st.threads| && Succeeded(st.threads[t], h)
  }

  /** What a step of a thread does to the state of a service. */
  predicate StatusKept(st: State, st1: State, t: nat, h: Handle)
    requires t < |st.threads|
  {
    && st1.services.Keys == st.services.Keys
    && (h in st.services ==>
          && st1.services[h].registered == (st.services[h].registered && st.threads[t] != Retiring(h))
          && st1.services[h].init == (st.services[h].init || st.threads[t] == Launching(h)))
    && |st1.threads| == |st.threads| && st1.threads == st.threads[t := st1.threads[t]]
    && (Succeeded(st1.threads[t], h) ==> Succeeded(st.threads[t], h))
    && (Announces(st1.threads[t], h) ==> Announces(st.threads[t], h) || KeepsGoing(st, t, h))
    && (Misses(st1.threads[t], h) ==> Misses(st.threads[t], h) || LosesIt(st, t, h))
    && (KeepsGoing(st, t, h) ==> st1.threads[t] == Launching(h))
    && (st1.threads[t] == Launching(h) ==> st.threads[t] == Launching(h) || KeepsGoing(st, t, h))
    && (st.threads[t] == Launching(h) && h !in st.services ==> st1.threads[t] == Launching(h))
  }

  lemma WorkerStatus(st: State, t: nat, weight: int, h: Handle)
    requires t < |st.threads|
    requires var x := st.threads[t]; x.Has? || x.Loop? || x.Got? || x.Calling? || x.Swap? || x.PushBack?
    ensures StatusKept(st, Proceed(st, t, weight), t, h)
  {
    hide Popped, Shift;
  }

  lemma MessageStatus(st: State, t: nat, weight: int, h: Handle)
    requires t < |st.threads|
    requires var x := st.threads[t]; x.Releasing? || x.Dropping? || x.Pushing? || x.Publishing? || x.Reporting?
    ensures StatusKept(st, Proceed(st, t, weight), t, h)
  {
    hide Popped, MessageQueue.Pushed;
  }

  lemma OtherStatus(st: State, t: nat, weight: int, h: Handle)
    requires t < |st.threads|
    requires var x := st.threads[t];
      x.Idle? || x.Initing? || x.Unref? || x.Delete? || x.Launching? || x.Retiring?
    ensures StatusKept(st, Proceed(st, t, weight), t, h)
  {
  }

  lemma ProceedStatus(st: State, t: nat, weight: int, h: Handle)
    requires t < |st.threads|
    ensures StatusKept(st, Proceed(st, t, weight), t, h)
  {
    hide Proceed, StatusKept;
    var x := st.threads[t];
    if x.Has? || x.Loop? || x.Got? || x.Calling? || x.Swap? || x.PushBack? {
      WorkerStatus(st, t, weight, h);
    } else if x.Releasing? || x.Dropping? || x.Pushing? || x.Publishing? || x.Reporting? {
      MessageStatus(st, t, weight, h);
    } else {
      OtherStatus(st, t, weight, h);
    }
  }

  lemma StepStatus(st: State, e: Event, h: Handle)
    ensures var st1 := Step(st, e.thread, e.action);
      && (h in st1.services <==> h in st.services || CreatedBy(st, e, h))
      && (CreatedBy(st, e, h) ==> st1.services[h].registered)
      && (h in st.services ==> (st1.services[h].registered <==> st.services[h].registered && !RetiredBy(st, e, h)))
      && (Ready(st1, h) ==> Ready(st, h) || InitBy(st, e, h))
  {
    hide Proceed;
    var st1 := Step(st, e.thread, e.action);
    if e.thread < |st.threads| && e.action.Go? && !st.threads[e.thread].Idle? && !st.threads[e.thread].Initing? {
      ProceedStatus(st, e.thread, e.action.weight, h);
      assert st1 == Proceed(st, e.thread, e.action.weight);
    }
    if Ready(st1, h) && !(h in st1.services && st1.services[h].init) {
      var t :| 0 <= t < |st1.threads| && Succeeded(st1.threads[t], h);
      if t != e.thread {
        assert st1.threads[t] == st.threads[t];
      }
    }
  }

  lemma StepLaunches(st: State, e: Event, h: Handle)
    ensures var st1 := Step(st, e.thread, e.action);
      && (Launched(st1, h) <==> Launched(st, h) || KeptBy(st, e, h))
      && (Announced(st1, h) ==> Announced(st, h) || KeptBy(st, e, h))
      && (Missed(st1, h) ==> Missed(st, h) || LostBy(st, e, h))
  {
    hide Proceed;
    var t, st1 := e.thread, Step(st, e.thread, e.action);
    if t < |st.threads| && e.action.Go? && !st.threads[t].Idle? && !st.threads[t].Initing? {
      hide Step;
      ProceedStatus(st, t, e.action.weight, h);
      GoesBy(st, t, e.action);
      assert forall s :: 0 <= s < |st.threads| && s != t ==> st1.threads[s] == st.threads[s];
      if KeptBy(st, e, h) {
        assert st1.threads[t] == Launching(h);
      }
    } else {
      OtherLaunches(st, e, h);
    }
  }

  lemma GoesBy(st: State, t: nat, a: Action)
    requires t < |st.threads| && a.Go? && !st.threads[t].Idle? && !st.threads[t].Initing?
    ensures Step(st, t, a) == Proceed(st, t, a.weight)
  {
    hide Proceed;
  }

  lemma OtherLaunches(st: State, e: Event, h: Handle)
    requires e.thread < |st.threads| && e.action.Go? ==> st.threads[e.thread].Idle? || st.threads[e.thread].Initing?
    ensures var st1 := Step(st, e.thread, e.action);
      !KeptBy(st, e, h) && (Launched(st1, h) <==> Launched(st, h)) && (Announced(st1, h) ==> Announced(st, h)) && (Missed(st1, h) ==> Missed(st, h))
  {
    var t, st1 := e.thread, Step(st, e.thread, e.action);
    if t < |st.threads| {
      assert |st1.threads| == |st.threads| && forall s :: 0 <= s < |st.threads| && s != t ==> st1.threads[s] == st.threads[s];
      assert !(Announces(st1.threads[t], h) || Misses(st1.threads[t], h)) || st1.threads[t] == st.threads[t];
    }
  }

  lemma {:induction false} RunStatus(st: State, events: seq<Event>, h: Handle)
    ensures var st1 := Run(st, events);
      && (h in st1.services <==> h in st.services || Ever(HasCreated, st, events, h))
      && (h in st.services ==> (st1.services[h].registered <==> st.services[h].registered && !Ever(HasRetired, st, events, h)))
      && (h !in st.services && h in st1.services ==>
            (st1.services[h].registered <==> !Ever(HasRetired, st, events, h)))
      && (Ready(st1, h) ==> Ready(st, h) || Ever(HasStarted, st, events, h))
      && (Launched(st1, h) <==> Launched(st, h) || Ever(HasKept, st, events, h))
      && (Announced(st1, h) ==> Announced(st, h) || Ever(HasKept, st, events, h))
      && (Missed(st1, h) ==> Missed(st, h) || Ever(HasLost, st, events, h))
    decreases |events|
  {
    hide Step, Ready, CreatedBy, InitBy, KeptBy, LostBy, Launched, Announced, Missed;
    if events != [] {
      StepLaunches(st, events[0], h);
      StepStatus(st, events[0], h);
      RunStatus(Step(st, events[0].thread, events[0].action), events[1..], h);
    }
  }

  /** In every run: a service exists if and only if it was created; it can be reached if and only
      if it was not retired since; it is ready only when its init function has succeeded; and its
      creator has launched it, or is about to, if and only if the reference that the creator then
      dropped was not the last one. */
  lemma Status(n: nat, events: seq<Event>, h: Handle)
    ensures var st0 := Scheduler.Start(n); var st := Run(st0, events);
      && (h in st.services <==> Ever(HasCreated, st0, events, h))
      && (h in st.services ==> (st.services[h].registered <==> !Ever(HasRetired, st0, events, h)))
      && (h in st.services && st.services[h].init ==> Ever(HasStarted, st0, events, h))
      && (Launched(st, h) <==> Ever(HasKept, st0, events, h))
      && (Announced(st, h) ==> Ever(HasKept, st0, events, h))
      && (Missed(st, h) ==> Ever(HasLost, st0, events, h))
  {
    hide Run, Ever;
    RunStatus(Scheduler.Start(n), events, h);
  }
}
