/** No reader and no writer of an object waits for ever: from every state that a run reaches all
    calls come to their end, and every step of a thread that does not spin brings that nearer. */
module SharedVersionsProgress {
  import opened SharedVersions
  import opened SharedVersionsProof
  import opened SharedVersionsTrace

  /** How many steps a writer may take until it lets go of the lock. */
  function WriterRank(p: Place): nat {
    match p
    case WriteSpin(_) => 7
    case WriteWait(_) => 6
    case WriteIn(_) => 5
    case WriteLoaded(_, _) => 2
    case Drop(_, after) => if after.ToClear? then 4 else 0
    case Free(_, after) => if after.ToClear? then 3 else 0
    case WriteClear => 2
    case WriteUnlock(_) => 1
    case _ => 0
  }

  /** How many steps a thread may take while no writer takes or lets go of the lock. */
  function ReaderRank(p: Place, write: bool): nat {
    match p
    case ReadSpin => 10
    case ReadBack => 11
    case ReadCheck => if write then 12 else 9
    case ReadIn => 8
    case ReadGot(_) => 7
    case ReadUnlock(_) => 6
    case Compare(_) => 5
    case Drop(_, after) => if after.ToKeep? then 4 else 2
    case Free(_, after) => if after.ToKeep? then 3 else 1
    case Using(_) => 2
    case _ => 0
  }

  datatype Kind = OfWriters | OfReaders(write: bool)

  function RankOf(k: Kind, p: Place): nat {
    match k
    case OfWriters => WriterRank(p)
    case OfReaders(write) => ReaderRank(p, write)
  }

  function Ranks(k: Kind, threads: seq<Thread>): nat {
    if threads == [] then 0 else RankOf(k, threads[0].at) + Ranks(k, threads[1..])
  }

  lemma {:induction false} RanksUpdate(k: Kind, threads: seq<Thread>, t: nat, x: Thread)
    requires t < |threads|
    ensures Ranks(k, threads[t := x]) == Ranks(k, threads) - RankOf(k, threads[t].at) + RankOf(k, x.at)
  {
    if t == 0 {
      assert threads[t := x][1..] == threads[1..];
    } else {
      assert threads[t := x][1..] == threads[1..][t - 1 := x];
      RanksUpdate(k, threads[1..], t - 1, x);
    }
  }

  /** The second state is nearer to rest than the first. */
  ghost predicate Nearer(st: State, st1: State) {
    || Ranks(OfWriters, st1.threads) < Ranks(OfWriters, st.threads)
    || (Ranks(OfWriters, st1.threads) == Ranks(OfWriters, st.threads)
        && Ranks(OfReaders(st1.write), st1.threads) < Ranks(OfReaders(st.write), st.threads))
  }

  /** A thread that waits for another one. */
  predicate Spins(st: State, p: Place) {
    || (p.ReadSpin? && st.write)
    || (p.WriteSpin? && st.write)
    || (p.WriteWait? && st.read != 0)
  }

  predicate Lowers(st: State, st1: State, t: nat)
    requires t < |st.threads|
  {
    && |st1.threads| == |st.threads| && st1.threads == st.threads[t := st1.threads[t]]
    && var p, q := st.threads[t].at, st1.threads[t].at;
       || WriterRank(q) < WriterRank(p)
       || (WriterRank(q) == WriterRank(p) && st1.write == st.write && ReaderRank(q, st.write) < ReaderRank(p, st.write))
  }

  lemma LockLowers(st: State, t: nat)
    requires t < |st.threads| && !st.threads[t].at.Idle? && !Spins(st, st.threads[t].at)
    requires !st.threads[t].at.Drop? && !st.threads[t].at.Free?
    ensures Lowers(st, Step(st, t, Go), t)
  {
    hide DropRef, Resume;
  }

  lemma DropLowers(st: State, t: nat)
    requires t < |st.threads| && (st.threads[t].at.Drop? || st.threads[t].at.Free?)
    requires st.threads[t].at.Free? ==> st.threads[t].at.copy < |st.copies|
    ensures Lowers(st, Step(st, t, Go), t)
  {
  }

  /** Every step of a thread that has something to do, and does not wait for another one. */
  lemma StepNearer(st: State, t: nat)
    requires Inv(st) && t < |st.threads| && !st.threads[t].at.Idle? && !Spins(st, st.threads[t].at)
    ensures Nearer(st, Step(st, t, Go))
  {
    hide Step, Inv, WriterRank, ReaderRank;
    var st1 := Step(st, t, Go);
    if st.threads[t].at.Drop? || st.threads[t].at.Free? {
      if st.threads[t].at.Free? {
        FreeOnce(st, t);
      }
      DropLowers(st, t);
    } else {
      LockLowers(st, t);
    }
    RanksUpdate(OfWriters, st.threads, t, st1.threads[t]);
    RanksUpdate(OfReaders(st.write), st.threads, t, st1.threads[t]);
  }

  predicate AllIdle(st: State) {
    forall t :: 0 <= t < |st.threads| ==> st.threads[t].at == Idle
  }

  lemma {:induction false} SomeCounted(k: Count, threads: seq<Thread>) returns (t: nat)
    requires Total(k, threads) > 0
    ensures t < |threads| && Weight(k, threads[t]) > 0
  {
    if Weight(k, threads[0]) > 0 {
      t := 0;
    } else {
      t := SomeCounted(k, threads[1..]);
      t := t + 1;
    }
  }

  /** While some thread is in a call, some thread in a call does not wait. */
  lemma NoDeadlock(st: State) returns (t: nat)
    requires Inv(st) && !AllIdle(st)
    ensures t < |st.threads| && !st.threads[t].at.Idle? && !Spins(st, st.threads[t].at)
  {
    hide CountsOk, Apart, GiveOk, ThreadOk;
    if st.write {
      t := SomeCounted(Writers, st.threads);
      if st.threads[t].at.WriteWait? && st.read != 0 {
        t := SomeCounted(Readers, st.threads);
      }
    } else {
      NoWriters(st);
      t :| t < |st.threads| && st.threads[t].at != Idle;
    }
  }

  predicate OnlyGo(events: seq<Event>) {
    forall i :: 0 <= i < |events| ==> events[i].action == Go
  }

  lemma {:induction false} Settles(st: State) returns (events: seq<Event>)
    requires Inv(st)
    ensures OnlyGo(events) && AllIdle(Run(st, events))
    decreases Ranks(OfWriters, st.threads), Ranks(OfReaders(st.write), st.threads)
  {
    hide Inv, Step, Ranks;
    events := [];
    if !AllIdle(st) {
      var t := NoDeadlock(st);
      StepNearer(st, t);
      StepInv(st, t, Go);
      var rest := Settles(Step(st, t, Go));
      events := [Event(t, Go)] + rest;
    }
  }

  lemma {:induction false} RunBoth(st: State, a: seq<Event>, b: seq<Event>)
    ensures Run(st, a + b) == Run(Run(st, a), b)
    decreases |a|
  {
    hide Step;
    if a == [] {
      assert a + b == b;
    } else {
      assert (a + b)[1..] == a[1..] + b;
      RunBoth(Step(st, a[0].thread, a[0].action), a[1..], b);
    }
  }

  /** Every run can be continued until all calls are over; then the object has the version of the
      last writer. */
  lemma AllEnd(n: nat, events: seq<Event>) returns (more: seq<Event>)
    ensures OnlyGo(more)
    ensures var st, story := Run(Start(n), events + more), Told(First(n), Start(n), events + more);
      AllIdle(st) && st.copy == story.latest
  {
    hide Inv, Run, Told;
    StartInv(n);
    RunInv(Start(n), events);
    more := Settles(Run(Start(n), events));
    RunBoth(Start(n), events, more);
    LatestVersion(n, events + more);
  }
}
