/** Versions of an object that many threads read while it is replaced (skynet/lualib-src/lua-stm.c),
    and the lock that protects it (skynet/skynet-src/rwlock.h). Each atomic operation, and each
    access to shared memory, is one step of one of any number of threads.

    A thread has the box of one reader, which keeps the version it saw last; and it may also act
    for the writer. */
module SharedVersions {
  /** A version: how many hold it, and whether it and its message were freed. */
  datatype Copy = Copy(refs: int, freed: bool)

  type Id = nat

  datatype Option<T> = None | Some(value: T)

  /** What a writer is about to do: to put in a new version, or to give the object up. */
  datatype Work = Update(copy: Id) | Release

  /** What a thread does after it has dropped a reference. */
  datatype After = ToIdle | ToKeep(copy: Option<Id>) | ToClear

  datatype Place =
    | Idle
    // rwlock_rlock
    | ReadSpin                              // waits until no writer is there
    | ReadCheck                             // has counted itself, looks for a writer
    | ReadBack                              // has seen one, is about to uncount itself
    // stm_copy
    | ReadIn
    | ReadGot(got: Option<Id>)              // has loaded the version
    | ReadUnlock(got: Option<Id>)           // has counted its reference
    // lread
    | Compare(got: Option<Id>)
    | Using(copy: Id)                       // the callback sees the message
    // stm_releasecopy
    | Drop(ref: Option<Id>, after: After)
    | Free(copy: Id, after: After)
    // rwlock_wlock
    | WriteSpin(work: Work)
    | WriteWait(work: Work)                 // waits until no reader is there
    // stm_update and stm_release
    | WriteIn(work: Work)
    | WriteLoaded(was: Option<Id>, copy: Id)
    | WriteClear
    | WriteUnlock(was: Option<Id>)

  datatype Thread = Thread(at: Place, last: Option<Id>)

  /** `counted` is a ghost record of whether the reference of the object to its version is counted:
      not while it is being given up. */
  datatype State = State(write: bool, read: int, copy: Option<Id>, counted: bool, copies: seq<Copy>, threads: seq<Thread>)

  datatype Action = Read | DeleteReader | Write | GiveUp | Go

  /** `stm_newcopy` */
  function NewCopy(): Copy {
    Copy(1, false)
  }

  function Become(st: State, t: nat, x: Thread): State
    requires t < |st.threads|
  {
    st.(threads := st.threads[t := x])
  }

  function GoTo(st: State, t: nat, p: Place): State
    requires t < |st.threads|
  {
    Become(st, t, st.threads[t].(at := p))
  }

  function AddRefs(st: State, c: Id, d: int): State
    requires c < |st.copies|
  {
    st.(copies := st.copies[c := st.copies[c].(refs := st.copies[c].refs + d)])
  }

  /** Where a thread goes on after a reference was dropped. */
  function Resume(st: State, t: nat, after: After): State
    requires t < |st.threads|
  {
    match after
    case ToIdle => GoTo(st, t, Idle)
    case ToKeep(c) => Become(st, t, Thread(if c.Some? then Using(c.value) else Idle, c))
    case ToClear => GoTo(st, t, WriteClear)
  }

  /** `stm_releasecopy`: the step that uncounts */
  function DropRef(st: State, t: nat, ref: Option<Id>, after: After): State
    requires t < |st.threads|
  {
    if ref.None? || ref.value >= |st.copies| then Resume(st, t, after)
    else
      var st1 := AddRefs(st, ref.value, -1);
      if st1.copies[ref.value].refs == 0 then GoTo(st1, t, Free(ref.value, after)) else Resume(st1, t, after)
  }

  function Begin(st: State, t: nat, a: Action): State
    requires t < |st.threads|
  {
    match a
    case Read => GoTo(st, t, ReadSpin)
    case DeleteReader => Become(st, t, Thread(Drop(st.threads[t].last, ToIdle), None))
    case Write => GoTo(st.(copies := st.copies + [NewCopy()]), t, WriteSpin(Update(|st.copies|)))
    case GiveUp => GoTo(st, t, WriteSpin(Release))
    case Go => st
  }

  /** One step of a thread; a thread that spins may change nothing. */
  function Step(st: State, t: nat, a: Action): State {
    if t >= |st.threads| then st
    else
      match st.threads[t].at
      case Idle => Begin(st, t, a)
      case ReadSpin => if st.write then st else GoTo(st.(read := st.read + 1), t, ReadCheck)
      case ReadCheck => GoTo(st, t, if st.write then ReadBack else ReadIn)
      case ReadBack => GoTo(st.(read := st.read - 1), t, ReadSpin)
      case ReadIn => GoTo(st, t, ReadGot(st.copy))
      case ReadGot(got) =>
        if got.Some? && got.value < |st.copies| then GoTo(AddRefs(st, got.value, 1), t, ReadUnlock(got))
        else GoTo(st, t, ReadUnlock(got))
      case ReadUnlock(got) => GoTo(st.(read := st.read - 1), t, Compare(got))
      case Compare(got) =>
        if got == st.threads[t].last then GoTo(st, t, Drop(got, ToIdle))
        else Become(st, t, Thread(Drop(st.threads[t].last, ToKeep(got)), None))
      case Using(_) => GoTo(st, t, Idle)
      case Drop(ref, after) => DropRef(st, t, ref, after)
      case Free(copy, after) =>
        if copy < |st.copies| then Resume(st.(copies := st.copies[copy := st.copies[copy].(freed := true)]), t, after)
        else st
      case WriteSpin(work) => if st.write then st else GoTo(st.(write := true), t, WriteWait(work))
      case WriteWait(work) => if st.read != 0 then st else GoTo(st, t, WriteIn(work))
      case WriteIn(Update(copy)) => GoTo(st, t, WriteLoaded(st.copy, copy))
      case WriteIn(Release) => GoTo(st.(counted := false), t, Drop(st.copy, ToClear))
      case WriteLoaded(was, copy) => GoTo(st.(copy := Some(copy), counted := true), t, WriteUnlock(was))
      case WriteClear => GoTo(st.(copy := None), t, WriteUnlock(None))
      case WriteUnlock(was) => GoTo(st.(write := false), t, Drop(was, ToIdle))
  }

  /** `stm_new`: one version, and `n` threads. */
  function Start(n: nat): State {
    State(false, 0, Some(0), true, [NewCopy()], seq(n, _ => Thread(Idle, None)))
  }

  datatype Event = Event(thread: nat, action: Action)

  function Run(st: State, events: seq<Event>): State
    decreases |events|
  {
    if events == [] then st else Run(Step(st, events[0].thread, events[0].action), events[1..])
  }

  // Where threads are

  /** Counted by `read` */
  predicate Reading(p: Place) {
    p.ReadCheck? || p.ReadBack? || ReadingIn(p)
  }

  /** Past `rwlock_rlock` */
  predicate ReadingIn(p: Place) {
    p.ReadIn? || p.ReadGot? || p.ReadUnlock?
  }

  /** Has set `write` */
  predicate Writing(p: Place) {
    p.WriteWait? || WritingIn(p)
  }

  /** Past `rwlock_wlock` */
  predicate WritingIn(p: Place) {
    p.WriteIn? || p.WriteLoaded? || p.WriteUnlock? || GivingUp(p)
  }

  /** Gives the object up, after its reference has ceased to count. */
  predicate GivingUp(p: Place) {
    p.WriteClear? || (p.Drop? && p.after.ToClear?) || (p.Free? && p.after.ToClear?)
  }

  function One(b: bool): nat {
    if b then 1 else 0
  }

  /** How many references to a version a thread holds, but for its box. */
  function HeldAt(p: Place, c: Id): nat {
    match p
    case ReadUnlock(got) => One(got == Some(c))
    case Compare(got) => One(got == Some(c))
    case Drop(ref, after) => One(ref == Some(c)) + HeldAfter(after, c)
    case Free(copy, after) => HeldAfter(after, c)
    case WriteSpin(work) => One(work == Update(c))
    case WriteWait(work) => One(work == Update(c))
    case WriteIn(work) => One(work == Update(c))
    case WriteLoaded(_, copy) => One(copy == c)
    case WriteUnlock(was) => One(was == Some(c))
    case _ => 0
  }

  function HeldAfter(after: After, c: Id): nat {
    One(after == ToKeep(Some(c)))
  }

  /** What is counted of threads. */
  datatype Count = Readers | Writers | Givers | Held(c: Id) | Freeing(c: Id)

  function Weight(k: Count, x: Thread): nat {
    match k
    case Readers => One(Reading(x.at))
    case Writers => One(Writing(x.at))
    case Givers => One(GivingUp(x.at))
    case Held(c) => HeldAt(x.at, c) + One(x.last == Some(c))
    case Freeing(c) => One(x.at.Free? && x.at.copy == c)
  }

  function Total(k: Count, threads: seq<Thread>): nat {
    if threads == [] then 0 else Weight(k, threads[0]) + Total(k, threads[1..])
  }

  lemma {:induction false} TotalUpdate(k: Count, threads: seq<Thread>, t: nat, x: Thread)
    requires t < |threads|
    ensures Total(k, threads[t := x]) == Total(k, threads) - Weight(k, threads[t]) + Weight(k, x)
    ensures Weight(k, threads[t]) <= Total(k, threads)
  {
    if t == 0 {
      assert threads[t := x][1..] == threads[1..];
    } else {
      assert threads[t := x][1..] == threads[1..][t - 1 := x];
      TotalUpdate(k, threads[1..], t - 1, x);
    }
  }

  lemma {:induction false} TotalTwo(k: Count, threads: seq<Thread>, s: nat, t: nat)
    requires s < |threads| && t < |threads| && s != t
    ensures Weight(k, threads[s]) + Weight(k, threads[t]) <= Total(k, threads)
  {
    TotalUpdate(k, threads, s, Thread(Idle, None));
    TotalUpdate(k, threads[s := Thread(Idle, None)], t, Thread(Idle, None));
  }

  lemma {:induction false} TotalZero(k: Count, threads: seq<Thread>)
    requires forall t :: 0 <= t < |threads| ==> Weight(k, threads[t]) == 0
    ensures Total(k, threads) == 0
  {
    if threads != [] {
      TotalZero(k, threads[1..]);
    }
  }
}
