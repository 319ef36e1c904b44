/** No thread of the scheduler is ever stuck: from every reachable state the threads come to rest
    with all messages handled, and every step of a thread at work brings that nearer. */
module SchedulerProgress {
  import opened MessageQueue
  import opened Scheduler
  import opened SchedulerProof
  import opened SchedulerTrace
  import opened Remainders

  // ---- how far a state is from rest -------------------------------------------------

  /** What is left to do for a service: messages, and to mark its queue for release. */
  function Load(v: Service): nat {
    |v.mq.msgs| + One(!v.mq.release)
  }

  function Loads(services: map<Handle, Service>, keys: seq<Handle>): nat
    requires forall k :: k in keys ==> k in services
  {
    if keys == [] then 0 else Load(services[keys[0]]) + Loads(services, keys[1..])
  }

  function AfterRank(a: After): nat {
    match a
    case ToIdle => 0
    case ToHas(_) => 3
    case ToPublish(_) => 3
    case ToRetire(_) => 5
    case ToRelease(_) => 2
  }

  /** How many steps a thread may take before it pops, drops or gives up a queue. */
  function Rank(x: Thread): nat {
    match x
    case Idle => 0
    case Has(_) => 3
    case Loop(_, i, n) => if i < n then 1 else 8
    case Got(_, _, _, _) => 10
    case Calling(_, _, _, _) => 9
    case Swap(_) => 7
    case PushBack(_, _) => 6
    case Unref(_, a) => AfterRank(a) + 2
    case Delete(_, a) => AfterRank(a) + 1
    case Releasing(_) => 2
    case Dropping(_) => 1
    case Pushing(_, _) => 3
    case Initing(_) => 6
    case Launching(_) => 3
    case Publishing(_, _) => 2
    case Reporting(_) => 1
    case Retiring(_) => 5
  }

  /** How many queues a thread has. */
  function Queues(x: Thread): nat {
    match x
    case Idle => 0
    case PushBack(_, _) => 2
    case Unref(_, a) => One(!a.ToIdle?)
    case Delete(_, a) => One(!a.ToIdle?)
    case Pushing(_, _) => 0
    case Reporting(_) => 0
    case _ => 1
  }

  datatype Measure = Pushers | Keepers | Ranks

  function PartOf(p: Measure, x: Thread): nat {
    match p
    case Pushers => One(x.Pushing?)
    case Keepers => Queues(x)
    case Ranks => Rank(x)
  }

  function Parts(p: Measure, threads: seq<Thread>): nat {
    if threads == [] then 0 else PartOf(p, threads[0]) + Parts(p, threads[1..])
  }

  lemma {:induction false} PartsUpdate(p: Measure, threads: seq<Thread>, t: nat, x: Thread)
    requires t < |threads|
    ensures Parts(p, threads[t := x]) == Parts(p, threads) - PartOf(p, threads[t]) + PartOf(p, x)
  {
    if t == 0 {
      assert threads[t := x][1..] == threads[1..];
    } else {
      assert threads[t := x][1..] == threads[1..][t - 1 := x];
      PartsUpdate(p, threads[1..], t - 1, x);
    }
  }

  lemma {:induction false} LoadsSame(services: map<Handle, Service>, keys: seq<Handle>, h: Handle, v: Service)
    requires (forall k :: k in keys ==> k in services) && h !in keys
    ensures Loads(services[h := v], keys) == Loads(services, keys)
  {
    if keys != [] {
      LoadsSame(services, keys[1..], h, v);
    }
  }

  lemma {:induction false} LoadsUpdate(services: map<Handle, Service>, keys: seq<Handle>, h: Handle, v: Service)
    requires (forall k :: k in keys ==> k in services) && h in keys
    requires forall i, j :: 0 <= i < j < |keys| ==> keys[i] != keys[j]
    ensures Loads(services[h := v], keys) == Loads(services, keys) - Load(services[h]) + Load(v)
  {
    if keys[0] == h {
      assert h !in keys[1..];
      LoadsSame(services, keys[1..], h, v);
    } else {
      LoadsUpdate(services, keys[1..], h, v);
    }
  }

  /** The services of a state, each once. */
  ghost predicate Keys(st: State, keys: seq<Handle>) {
    && (forall k :: k in keys <==> k in st.services)
    && forall i, j :: 0 <= i < j < |keys| ==> keys[i] != keys[j]
  }

  lemma {:induction false} Enumerated(s: set<Handle>) returns (keys: seq<Handle>)
    ensures (forall k :: k in keys <==> k in s) && forall i, j :: 0 <= i < j < |keys| ==> keys[i] != keys[j]
    decreases s
  {
    keys := [];
    if s != {} {
      var h :| h in s;
      keys := Enumerated(s - {h});
      keys := [h] + keys;
    }
  }

  ghost function Open(st: State, keys: seq<Handle>): nat
    requires Keys(st, keys)
  {
    Loads(st.services, keys) + 2 * Parts(Pushers, st.threads)
  }

  ghost function Places(st: State): nat {
    |st.global| + Parts(Keepers, st.threads)
  }

  /** The second state is nearer to rest than the first. */
  ghost predicate Nearer(st: State, st1: State, keys: seq<Handle>)
    requires Keys(st, keys) && Keys(st1, keys)
  {
    || Open(st1, keys) < Open(st, keys)
    || (Open(st1, keys) == Open(st, keys) && Places(st1) < Places(st))
    || (Open(st1, keys) == Open(st, keys) && Places(st1) == Places(st) && Parts(Ranks, st1.threads) < Parts(Ranks, st.threads))
  }

  // ---- one step ---------------------------------------------------------------------

  /** A step of thread `t` that concerns service `c`. */
  predicate Moves(st: State, st1: State, t: nat, c: Handle) {
    && t < |st.threads| == |st1.threads| && c in st.services && c in st1.services
    && st1.threads == st.threads[t := st1.threads[t]] && st1.services == st.services[c := st1.services[c]]
  }

  predicate Brings(st: State, st1: State, t: nat, c: Handle)
    requires Moves(st, st1, t, c)
  {
    var x, y := st.threads[t], st1.threads[t];
    var open := Load(st1.services[c]) - Load(st.services[c]) + 2 * (One(y.Pushing?) - One(x.Pushing?));
    var places := |st1.global| - |st.global| + Queues(y) - Queues(x);
    open < 0 || (open == 0 && places < 0) || (open == 0 && places == 0 && Rank(y) < Rank(x))
  }

  lemma BringsNearer(st: State, st1: State, t: nat, c: Handle, keys: seq<Handle>)
    requires Moves(st, st1, t, c) && Brings(st, st1, t, c) && Keys(st, keys)
    ensures Keys(st1, keys) && Nearer(st, st1, keys)
  {
    PartsUpdate(Pushers, st.threads, t, st1.threads[t]);
    PartsUpdate(Keepers, st.threads, t, st1.threads[t]);
    PartsUpdate(Ranks, st.threads, t, st1.threads[t]);
    LoadsUpdate(st.services, keys, c, st1.services[c]);
  }

  /** The service that the next step of a thread is about. */
  function About(x: Thread): Handle {
    match x
    case Idle => 0
    case Unref(c, _) => c
    case Delete(c, _) => c
    case Pushing(h, _) => h
    case Initing(h) => h
    case Launching(h) => h
    case Publishing(h, _) => h
    case Reporting(h) => h
    case Retiring(h) => h
    case PushBack(q, _) => q
    case _ => x.q
  }

  lemma AboutService(st: State, t: nat)
    requires Inv(st) && t < |st.threads| && !st.threads[t].Idle? && !st.threads[t].Reporting?
    ensures About(st.threads[t]) in st.services
  {
    hide Inv, Total;
    var x := st.threads[t];
    var role := if x.Delete? then Deleter else if x.Unref? || x.Pushing? then Referrer else Holder;
    WeightOf(x, About(x));
    Named(st, t, role, About(x));
  }

  lemma WorkerBrings(st: State, t: nat, weight: int)
    requires t < |st.threads| && About(st.threads[t]) in st.services
    requires var x := st.threads[t]; x.Has? || x.Loop? || x.Got? || x.Calling? || x.Swap? || x.PushBack?
    ensures Moves(st, Proceed(st, t, weight), t, About(st.threads[t]))
    ensures Brings(st, Proceed(st, t, weight), t, About(st.threads[t]))
  {
    hide Doubled, Shift;
  }

  lemma OtherBrings(st: State, t: nat, weight: int)
    requires t < |st.threads| && About(st.threads[t]) in st.services
    requires var x := st.threads[t]; x.Releasing? || x.Dropping? || x.Pushing? || x.Launching? || x.Publishing? || x.Retiring?
    ensures Moves(st, Proceed(st, t, weight), t, About(st.threads[t]))
    ensures Brings(st, Proceed(st, t, weight), t, About(st.threads[t]))
  {
    hide Doubled;
  }

  lemma DropBrings(st: State, t: nat, weight: int)
    requires t < |st.threads| && About(st.threads[t]) in st.services
    requires var x := st.threads[t]; x.Unref? || (x.Delete? && !st.services[x.c].mq.release)
    ensures Moves(st, Proceed(st, t, weight), t, About(st.threads[t]))
    ensures Brings(st, Proceed(st, t, weight), t, About(st.threads[t]))
  {
  }

  lemma ReportBrings(st: State, t: nat, weight: int, keys: seq<Handle>)
    requires t < |st.threads| && st.threads[t].Reporting? && Keys(st, keys)
    ensures var st1 := Proceed(st, t, weight); Keys(st1, keys) && Nearer(st, st1, keys)
  {
    PartsUpdate(Pushers, st.threads, t, Idle);
    PartsUpdate(Keepers, st.threads, t, Idle);
    PartsUpdate(Ranks, st.threads, t, Idle);
  }

  /** The one thread that is about to mark a queue finds it unmarked. */
  lemma NotMarked(st: State, t: nat)
    requires Inv(st) && t < |st.threads| && st.threads[t].Delete? && st.threads[t].c in st.services
    ensures !st.services[st.threads[t].c].mq.release
  {
    hide Total;
    var c := st.threads[t].c;
    Counts(st, t, Idle, c);
    assert ServiceOk(st, c, st.services[c]);
  }

  /** Every step of a thread that is not idle and does not run an init function brings the state
      nearer to rest. */
  lemma WorkBrings(st: State, t: nat, weight: int, keys: seq<Handle>)
    requires Inv(st) && t < |st.threads| && !st.threads[t].Idle? && !st.threads[t].Initing? && Keys(st, keys)
    ensures var st1 := Step(st, t, Go(weight)); Keys(st1, keys) && Nearer(st, st1, keys)
  {
    hide Proceed, Inv, Nearer;
    var x := st.threads[t];
    if x.Reporting? {
      ReportBrings(st, t, weight, keys);
    } else {
      AboutService(st, t);
      if x.Has? || x.Loop? || x.Got? || x.Calling? || x.Swap? || x.PushBack? {
        WorkerBrings(st, t, weight);
      } else if x.Unref? || x.Delete? {
        if x.Delete? {
          NotMarked(st, t);
        }
        DropBrings(st, t, weight);
      } else {
        OtherBrings(st, t, weight);
      }
      BringsNearer(st, Proceed(st, t, weight), t, About(x), keys);
    }
  }

  /** So does the end of an init function. */
  lemma InitBrings(st: State, t: nat, ok: bool, keys: seq<Handle>)
    requires t < |st.threads| && st.threads[t].Initing? && Keys(st, keys)
    ensures var st1 := Step(st, t, InitDone(ok)); ok ==> Keys(st1, keys) && Nearer(st, st1, keys)
  {
    var st1 := Step(st, t, InitDone(ok));
    PartsUpdate(Pushers, st.threads, t, st1.threads[t]);
    PartsUpdate(Keepers, st.threads, t, st1.threads[t]);
    PartsUpdate(Ranks, st.threads, t, st1.threads[t]);
  }

  // ---- rest -------------------------------------------------------------------------

  predicate AllIdle(st: State) {
    forall t :: 0 <= t < |st.threads| ==> st.threads[t] == Idle
  }

  predicate AtRest(st: State) {
    st.global == [] && AllIdle(st)
  }

  /** What threads do by themselves: they take queues, go on, and end init functions. */
  predicate OwnWork(events: seq<Event>) {
    forall i :: 0 <= i < |events| ==> events[i].action.Take? || events[i].action.Go? || events[i].action == InitDone(true)
  }

  /** When all are idle, the first queue of the global list loses a message, or leaves the list. */
  lemma TakeBrings(st: State, keys: seq<Handle>) returns (events: seq<Event>)
    requires Inv(st) && AllIdle(st) && st.global != [] && |st.threads| > 0 && Keys(st, keys)
    ensures OwnWork(events) && |events| > 0
    ensures var st1 := Run(st, events);
      Keys(st1, keys) && (Open(st1, keys) < Open(st, keys) || (Open(st1, keys) == Open(st, keys) && Places(st1) < Places(st)))
  {
    hide Inv, Doubled, Loads, Parts;
    var q := st.global[0];
    TakenQueue(st);
    var st1 := Step(st, 0, Take);
    var st2 := Step(st1, 0, Go(0));
    var st3 := Step(st2, 0, Go(0));
    if st.services[q].registered {
      events := [Event(0, Take), Event(0, Go(0)), Event(0, Go(0))];
      RunThree(st, events);
      TurnBrings(st, st3, q, keys);
    } else {
      var st4 := Step(st3, 0, Go(0));
      events := [Event(0, Take), Event(0, Go(0)), Event(0, Go(0)), Event(0, Go(0))];
      RunThree(st, events[..3]);
      RunOne(st, events);
      TurnBrings(st, st4, q, keys);
    }
  }

  /** A queue in the global list is that of a service; when that was retired and all are idle, the
      queue is marked for release. */
  lemma TakenQueue(st: State)
    requires Inv(st) && AllIdle(st) && st.global != []
    ensures st.global[0] in st.services
    ensures !st.services[st.global[0]].registered ==> st.services[st.global[0]].mq.release
  {
    hide Total;
    ListedNamed(st, st.global[0]);
    var h := st.global[0];
    assert ServiceOk(st, h, st.services[h]);
    IdleTotals(st.threads, Referrer, h);
    IdleTotals(st.threads, Deleter, h);
  }

  lemma TurnBrings(st: State, st1: State, q: Handle, keys: seq<Handle>)
    requires Keys(st, keys) && q in st.services && |st.threads| > 0 && st.threads[0] == Idle && st.global != []
    requires Moves(st, st1, 0, q) && !st1.threads[0].Pushing? && st1.global == st.global[1..]
    requires Load(st1.services[q]) < Load(st.services[q])
             || (Load(st1.services[q]) == Load(st.services[q]) && Queues(st1.threads[0]) == 0)
    ensures Keys(st1, keys)
    ensures Open(st1, keys) < Open(st, keys) || (Open(st1, keys) == Open(st, keys) && Places(st1) < Places(st))
  {
    PartsUpdate(Pushers, st.threads, 0, st1.threads[0]);
    PartsUpdate(Keepers, st.threads, 0, st1.threads[0]);
    LoadsUpdate(st.services, keys, q, st1.services[q]);
  }

  lemma RunThree(st: State, e: seq<Event>)
    requires |e| == 3
    ensures var st1 := Step(st, e[0].thread, e[0].action);
      var st2 := Step(st1, e[1].thread, e[1].action);
      Run(st, e) == Step(st2, e[2].thread, e[2].action)
  {
    hide Step;
    var st1 := Step(st, e[0].thread, e[0].action);
    var st2 := Step(st1, e[1].thread, e[1].action);
    assert Run(st, e) == Run(st1, e[1..]) == Run(st2, e[1..][1..]);
    assert e[1..][1..] == e[2..] && Run(st2, e[2..]) == Run(Step(st2, e[2].thread, e[2].action), e[2..][1..]);
  }

  lemma {:induction false} RunOne(st: State, events: seq<Event>)
    requires events != []
    ensures var n := |events| - 1;
      Run(st, events) == Step(Run(st, events[..n]), events[n].thread, events[n].action)
    decreases |events|
  {
    hide Step;
    if |events| > 1 {
      RunOne(Step(st, events[0].thread, events[0].action), events[1..]);
      var n := |events| - 1;
      assert events[1..][..n - 1] == events[..n][1..];
    }
  }

  lemma {:induction false} RunBoth(st: State, a: seq<Event>, b: seq<Event>)
    ensures Run(st, a + b) == Run(Run(st, a), b)
    decreases |a|
  {
    hide Step;
    if a == [] {
      assert a + b == b;
    } else {
      assert (a + b)[1..] == a[1..] + b;
      RunBoth(Step(st, a[0].thread, a[0].action), a[1..], b);
    }
  }

  lemma {:induction false} Drain(st: State, keys: seq<Handle>) returns (events: seq<Event>)
    requires Inv(st) && |st.threads| > 0 && Keys(st, keys)
    ensures OwnWork(events) && AtRest(Run(st, events))
    decreases Open(st, keys), Places(st), Parts(Ranks, st.threads)
  {
    hide Inv, Run, Step, Loads, Parts, Rank, Queues;
    if !AllIdle(st) {
      var t: nat :| t < |st.threads| && st.threads[t] != Idle;
      var a := if st.threads[t].Initing? then InitDone(true) else Go(0);
      if st.threads[t].Initing? {
        InitBrings(st, t, true, keys);
      } else {
        WorkBrings(st, t, 0, keys);
      }
      StepInv(st, t, a);
      OneMoves(st, t, a);
      var rest := Drain(Step(st, t, a), keys);
      events := [Event(t, a)] + rest;
      RunFirst(st, t, a);
      RunBoth(st, [Event(t, a)], rest);
    } else if st.global != [] {
      var turn := TakeBrings(st, keys);
      RunKeeps(st, turn);
      ThreadsStay(st, turn);
      var rest := Drain(Run(st, turn), keys);
      events := turn + rest;
      RunBoth(st, turn, rest);
    } else {
      events := [];
      RunNone(st);
    }
  }

  lemma RunNone(st: State)
    ensures Run(st, []) == st
  {
  }

  lemma RunFirst(st: State, t: nat, a: Action)
    ensures Run(st, [Event(t, a)]) == Step(st, t, a)
  {
    hide Step;
    assert [Event(t, a)][1..] == [];
  }

  lemma {:induction false} ThreadsStay(st: State, events: seq<Event>)
    ensures |Run(st, events).threads| == |st.threads|
    decreases |events|
  {
    hide Step;
    if events != [] {
      var e := events[0];
      if e.thread < |st.threads| {
        OneMoves(st, e.thread, e.action);
      } else {
        NobodyMoves(st, e, 0);
      }
      ThreadsStay(Step(st, e.thread, e.action), events[1..]);
    }
  }

  /** From every state that a run reaches, the threads come to rest by their own work. */
  lemma ComesToRest(n: nat, events: seq<Event>) returns (more: seq<Event>)
    requires n > 0
    ensures OwnWork(more) && AtRest(Run(Scheduler.Start(n), events + more))
  {
    hide Inv, Run, Step;
    var st0 := Scheduler.Start(n);
    StartInv(n);
    RunKeeps(st0, events);
    ThreadsStay(st0, events);
    var keys := Enumerated(Run(st0, events).services.Keys);
    more := Drain(Run(st0, events), keys);
    RunBoth(st0, events, more);
  }

  /** And then all that was sent to a service that was not retired has been handled. */
  lemma AllComesToBeHandled(n: nat, events: seq<Event>, h: Handle) returns (more: seq<Event>)
    requires n > 0 && h in Run(Scheduler.Start(n), events).services
    ensures OwnWork(more)
    ensures var st0 := Scheduler.Start(n); var st := Run(st0, events + more);
      h in st.services && (st.services[h].registered ==>
        multiset(All(WasHandled, st0, events + more, h)) == multiset(All(WasSent, st0, events + more, h)))
  {
    hide Inv, Run, Step, All;
    more := ComesToRest(n, events);
    var st0 := Scheduler.Start(n);
    RunBoth(st0, events, more);
    RunRecords(Run(st0, events), more, h);
    if Run(st0, events + more).services[h].registered {
      AllHandled(n, events + more, h);
    }
  }

  // ---- one turn of a worker ---------------------------------------------------------

  function PowerOfTwo(n: nat): (p: nat)
    ensures p > 0
  {
    if n == 0 then 1 else 2 * PowerOfTwo(n - 1)
  }

  function Part(n: nat, weight: nat): int {
    n / PowerOfTwo(weight)
  }

  /** How many messages a worker handles in one turn, of `k` that wait: one at least, and with
      weight 0 all but one if there are more. */
  function TurnLength(k: nat, weight: int): int
    requires k > 0
  {
    if weight < 0 || Part(k - 1, weight) < 1 then 1 else Part(k - 1, weight)
  }

  lemma {:induction false} ShiftDivides(n: nat, weight: nat)
    ensures Shift(n, weight) == Part(n, weight) <= n
    decreases weight
  {
    if weight > 0 {
      ShiftDivides(n / 2, weight - 1);
      DivDiv(n, 2, PowerOfTwo(weight - 1));
    }
  }

  function Gos(t: nat, weight: int, n: nat): (events: seq<Event>)
    ensures |events| == n
  {
    seq(n, _ => Event(t, Go(weight)))
  }

  lemma PopFirst(st: State, t: nat, weight: int, q: Handle)
    requires t < |st.threads| && q in st.services && st.services[q].mq.msgs != []
    requires var x := st.threads[t]; x.Loop? && x.q == q && x.i < x.n
    ensures var x, v, st1 := st.threads[t], st.services[q], Step(st, t, Go(weight));
      && q in st1.services && |st1.threads| == |st.threads|
      && st1.threads[t] == Got(q, x.i, x.n, v.mq.msgs[0])
      && st1.services[q].mq.msgs == v.mq.msgs[1..] && st1.services[q].delivered == v.delivered
  {
    hide Doubled;
  }

  lemma CallFirst(st: State, t: nat, weight: int, q: Handle)
    requires t < |st.threads| && q in st.services && st.threads[t].Got? && st.threads[t].q == q
    ensures var x, v, st1 := st.threads[t], st.services[q], Step(st, t, Go(weight));
      && q in st1.services && |st1.threads| == |st.threads|
      && st1.threads[t] == Calling(q, x.i, if x.i == 0 && weight >= 0 then Shift(|v.mq.msgs|, weight) else x.n, x.m)
      && st1.services[q].mq.msgs == v.mq.msgs && st1.services[q].delivered == v.delivered
  {
    hide Shift;
  }

  lemma EndFirst(st: State, t: nat, weight: int, q: Handle)
    requires t < |st.threads| && q in st.services && st.threads[t].Calling? && st.threads[t].q == q
    ensures var x, v, st1 := st.threads[t], st.services[q], Step(st, t, Go(weight));
      && q in st1.services && |st1.threads| == |st.threads| && st1.threads[t] == Loop(q, x.i + 1, x.n)
      && st1.services[q].mq.msgs == v.mq.msgs && st1.services[q].delivered == v.delivered + [x.m]
  {
  }

  lemma OneMessage(st: State, t: nat, weight: int, q: Handle)
    requires t < |st.threads| && q in st.services && st.services[q].mq.msgs != []
    requires var x := st.threads[t]; x.Loop? && x.q == q && x.i < x.n
    ensures var st1 := Run(st, Gos(t, weight, 3)); var x, k := st.threads[t], |st.services[q].mq.msgs|;
      && q in st1.services && |st1.threads| == |st.threads|
      && st1.services[q].mq.msgs == st.services[q].mq.msgs[1..]
      && st1.services[q].delivered == st.services[q].delivered + [st.services[q].mq.msgs[0]]
      && st1.threads[t] == Loop(q, x.i + 1, if x.i == 0 && weight >= 0 then Shift(k - 1, weight) else x.n)
  {
    hide Step, Run, Shift;
    RunThree(st, Gos(t, weight, 3));
    PopFirst(st, t, weight, q);
    var st1 := Step(st, t, Go(weight));
    CallFirst(st1, t, weight, q);
    EndFirst(Step(st1, t, Go(weight)), t, weight, q);
  }

  lemma {:induction false} RestOfTurn(st: State, t: nat, weight: int, q: Handle)
    requires t < |st.threads| && q in st.services
    requires var x := st.threads[t]; x.Loop? && x.q == q && x.i > 0 && x.n - x.i <= |st.services[q].mq.msgs|
    ensures var x := st.threads[t]; var left := if x.i < x.n then x.n - x.i else 0;
      var st1 := Run(st, Gos(t, weight, 3 * left + 1));
      && q in st1.services && t < |st1.threads| && st1.threads[t] == Swap(q)
      && st1.services[q].mq.msgs == st.services[q].mq.msgs[left..]
      && st1.services[q].delivered == st.services[q].delivered + st.services[q].mq.msgs[..left]
    decreases st.threads[t].n - st.threads[t].i
  {
    hide Run, Doubled, Step;
    var x := st.threads[t];
    if x.i < x.n {
      OneMessage(st, t, weight, q);
      var st1, left := Run(st, Gos(t, weight, 3)), x.n - x.i;
      RestOfTurn(st1, t, weight, q);
      RunBoth(st, Gos(t, weight, 3), Gos(t, weight, 3 * (left - 1) + 1));
      assert Gos(t, weight, 3 * left + 1) == Gos(t, weight, 3) + Gos(t, weight, 3 * (left - 1) + 1);
      assert st.services[q].mq.msgs[..left] == [st.services[q].mq.msgs[0]] + st.services[q].mq.msgs[1..][..left - 1];
    } else {
      LastOfTurn(st, t, weight, q);
      assert Gos(t, weight, 1) == [Event(t, Go(weight))];
      RunFirst(st, t, Go(weight));
    }
  }

  lemma LastOfTurn(st: State, t: nat, weight: int, q: Handle)
    requires t < |st.threads| && q in st.services
    requires var x := st.threads[t]; x.Loop? && x.q == q && x.i >= x.n
    ensures Step(st, t, Go(weight)) == Become(st, t, Swap(q))
  {
  }

  lemma TurnLoop(st: State, t: nat, weight: int, q: Handle)
    requires t < |st.threads| && q in st.services && st.services[q].mq.msgs != []
    requires st.threads[t] == Loop(q, 0, 1)
    ensures var n := TurnLength(|st.services[q].mq.msgs|, weight);
      0 <= n <= |st.services[q].mq.msgs| &&
      var st1 := Run(st, Gos(t, weight, 3 * n + 1));
      && q in st1.services && t < |st1.threads| && st1.threads[t] == Swap(q)
      && st1.services[q].mq.msgs == st.services[q].mq.msgs[n..]
      && st1.services[q].delivered == st.services[q].delivered + st.services[q].mq.msgs[..n]
  {
    hide Run, Doubled, Step, Part, Shift;
    var msgs := st.services[q].mq.msgs;
    var n := TurnLength(|msgs|, weight);
    OneMessage(st, t, weight, q);
    var st1 := Run(st, Gos(t, weight, 3));
    if weight >= 0 {
      ShiftDivides(|msgs| - 1, weight);
    }
    RestOfTurn(st1, t, weight, q);
    RunBoth(st, Gos(t, weight, 3), Gos(t, weight, 3 * (n - 1) + 1));
    assert Gos(t, weight, 3 * n + 1) == Gos(t, weight, 3) + Gos(t, weight, 3 * (n - 1) + 1);
    assert msgs[..n] == [msgs[0]] + msgs[1..][..n - 1];
  }

  /** A worker that goes on alone with the queue of a service handles as many messages as its weight
      says, the first ones that wait, and then looks for another queue. */
  lemma Turn(st: State, t: nat, weight: int, q: Handle)
    requires t < |st.threads| && q in st.services && st.services[q].registered && st.services[q].mq.msgs != []
    requires st.threads[t] == Has(q)
    ensures var n := TurnLength(|st.services[q].mq.msgs|, weight);
      0 <= n <= |st.services[q].mq.msgs| &&
      var st1 := Run(st, Gos(t, weight, 3 * n + 2));
      && q in st1.services && t < |st1.threads| && st1.threads[t] == Swap(q)
      && st1.services[q].mq.msgs == st.services[q].mq.msgs[n..]
      && st1.services[q].delivered == st.services[q].delivered + st.services[q].mq.msgs[..n]
  {
    hide Run, Doubled, TurnLength;
    var st1 := Step(st, t, Go(weight));
    assert st1.threads[t] == Loop(q, 0, 1) && st1.services[q] == st.services[q].(refs := st.services[q].refs + 1);
    hide Step;
    TurnLoop(st1, t, weight, q);
    var n := TurnLength(|st.services[q].mq.msgs|, weight);
    RunFirst(st, t, Go(weight));
    RunBoth(st, [Event(t, Go(weight))], Gos(t, weight, 3 * n + 1));
    assert Gos(t, weight, 3 * n + 2) == [Event(t, Go(weight))] + Gos(t, weight, 3 * n + 1);
  }

  /** And then it takes the first queue of the global list, and its own goes to the end; it goes on
      with its own if there is no other. */
  lemma NextQueue(st: State, t: nat, weight: int, q: Handle)
    requires t < |st.threads| && q in st.services && st.services[q].refs > 1
    requires st.threads[t] == Swap(q)
    ensures var st1 := Run(st, Gos(t, weight, if st.global == [] then 2 else 3));
      && t < |st1.threads| && st1.threads[t] == Has((st.global + [q])[0]) && st1.global == (st.global + [q])[1..]
  {
    var st1 := Step(st, t, Go(weight));
    var st2 := Step(st1, t, Go(weight));
    if st.global == [] {
      RunFirst(st, t, Go(weight));
      RunFirst(st1, t, Go(weight));
      RunBoth(st, [Event(t, Go(weight))], [Event(t, Go(weight))]);
      assert Gos(t, weight, 2) == [Event(t, Go(weight))] + [Event(t, Go(weight))];
    } else {
      RunThree(st, Gos(t, weight, 3));
    }
  }
}
