/** Whole runs of the timer: any order of added timers and ticks of the clock. A timer added
    while the events of a tick are dispatched counts as added after that tick. */
module TimerRuns {
  import opened TimerPlace
  import opened TimerWheel

  datatype Op = AddTimer(delay: nat, event: Event) | Tick

  /** `skynet_timeout` calls `timer_add` with positive `int` delays only. */
  predicate Delays(ops: seq<Op>) {
    forall op :: op in ops && op.AddTimer? ==> 0 < op.delay < MAXDELAY
  }

  /** What fires in each tick of a run, for a plain list of timers in place of the wheel. */
  function Log(ops: seq<Op>, now: nat, q: seq<Timeout>): seq<seq<Event>> {
    if ops == [] then []
    else if ops[0].AddTimer? then
      Log(ops[1..], now, q + [Timeout(now + ops[0].delay, ops[0].event)])
    else [Due(q, now + 1)] + Log(ops[1..], now + 1, NotDue(q, now + 1))
  }

  /** The events of the timers that are added during a run with deadline `d`, in order. */
  function AddedFor(ops: seq<Op>, now: nat, d: nat): seq<Event> {
    if ops == [] then []
    else if ops[0].AddTimer? then
      (if now + ops[0].delay == d then [ops[0].event] else []) + AddedFor(ops[1..], now, d)
    else AddedFor(ops[1..], now + 1, d)
  }

  lemma {:induction false} DueMore(q: seq<Timeout>, t: Timeout, d: nat)
    ensures Due(q + [t], d) == Due(q, d) + if t.deadline == d then [t.event] else []
  {
    if q == [] {
      assert q + [t] == [t];
    } else {
      DueMore(q[1..], t, d);
      assert (q + [t])[1..] == q[1..] + [t];
    }
  }

  lemma {:induction false} DueOthers(q: seq<Timeout>, e: nat, d: nat)
    requires d != e
    ensures Due(NotDue(q, e), d) == Due(q, d)
  {
    if q != [] {
      DueOthers(q[1..], e, d);
      var first := if q[0].deadline != e then [q[0]] else [];
      assert first != [] ==> (first + NotDue(q[1..], e))[1..] == NotDue(q[1..], e);
      assert first == [] ==> first + NotDue(q[1..], e) == NotDue(q[1..], e);
    }
  }

  lemma {:induction false} NeverLate(ops: seq<Op>, now: nat, d: nat)
    requires Delays(ops) && d <= now
    ensures AddedFor(ops, now, d) == []
  {
    if ops != [] {
      NeverLate(ops[1..], if ops[0].AddTimer? then now else now + 1, d);
    }
  }

  /** In the tick that brings the count to `d`, exactly the timers with deadline `d` fire: those
      waiting at the start, then those added since, each in the order they were added. */
  lemma {:induction false} FiresOnTime(ops: seq<Op>, now: nat, q: seq<Timeout>, d: nat)
    requires Delays(ops) && now < d <= now + |Log(ops, now, q)|
    ensures Log(ops, now, q)[d - now - 1] == Due(q, d) + AddedFor(ops, now, d)
    decreases |ops|
  {
    if ops[0].AddTimer? {
      var t := Timeout(now + ops[0].delay, ops[0].event);
      FiresOnTime(ops[1..], now, q + [t], d);
      DueMore(q, t, d);
    } else if d == now + 1 {
      NeverLate(ops[1..], now + 1, d);
    } else {
      FiresOnTime(ops[1..], now + 1, NotDue(q, now + 1), d);
      DueOthers(q, now + 1, d);
    }
  }

  /** From the start, a timer added at tick `n` with delay `d` fires in tick `n + d` and in no
      other: what fires in a tick is exactly what was added for it. */
  lemma FiresExactlyOnce(ops: seq<Op>, tick: nat)
    requires Delays(ops) && 0 < tick <= |Log(ops, 0, [])|
    ensures Log(ops, 0, [])[tick - 1] == AddedFor(ops, 0, tick)
  {
    FiresOnTime(ops, 0, [], tick);
  }

  /** The wheel does in every run what the plain list does. */
  method Drive(ops: seq<Op>) returns (log: seq<seq<Event>>)
    requires Delays(ops)
    ensures log == Log(ops, 0, [])
  {
    hide Log, Timer.Valid;
    var timer := new Timer();
    log := [];
    var i := 0;
    while i < |ops|
      invariant 0 <= i <= |ops| && timer.Valid()
      invariant fresh(timer) && fresh(timer.lists) && fresh(timer.Heads()) && fresh(timer.Nodes())
      invariant log + Log(ops[i..], timer.now, Timeouts(timer.pending)) == Log(ops, 0, [])
    {
      RunOne(ops[i..], timer.now, Timeouts(timer.pending), log);
      assert ops[i] in ops && ops[i..][1..] == ops[i + 1..];
      if ops[i].AddTimer? {
        timer.Add(ops[i].delay, ops[i].event);
      } else {
        var fired := timer.Update();
        log := log + [fired];
      }
      i := i + 1;
    }
    LogEnds(timer.now, Timeouts(timer.pending));
    assert ops[i..] == [] && log + [] == log;
  }

  lemma LogEnds(now: nat, q: seq<Timeout>)
    ensures Log([], now, q) == []
  {
  }

  lemma RunOne(ops: seq<Op>, now: nat, q: seq<Timeout>, log: seq<seq<Event>>)
    requires ops != []
    ensures ops[0].Tick? ==>
      log + Log(ops, now, q) == (log + [Due(q, now + 1)]) + Log(ops[1..], now + 1, NotDue(q, now + 1))
    ensures ops[0].AddTimer? ==>
      Log(ops, now, q) == Log(ops[1..], now, q + [Timeout(now + ops[0].delay, ops[0].event)])
  {
  }
}
