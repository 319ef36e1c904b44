/** Which version an object has, which one a reader gets, and when the callback of the reader runs,
    told from the events of a run alone; and that no thread waits for ever. */
module SharedVersionsTrace {
  import opened SharedVersions
  import opened SharedVersionsProof

  /** What a thread was last called to do. A read knows the version that the box had before and, once
      it has let go of the lock, the latest version at that time, and whether the callback ran. A write
      is done when it has let go of the lock. */
  datatype Call =
    | Nothing
    | Reads(had: Option<Id>, took: Option<Option<Id>>, ran: bool)
    | Deletes
    | Writes(had: Option<Id>, work: Work, done: bool)

  /** How many versions were made, which one was put in by the last writer that let go of the lock,
      and the calls. */
  datatype Story = Story(made: nat, latest: Option<Id>, calls: seq<Call>)

  function Result(work: Work): Option<Id> {
    match work
    case Update(c) => Some(c)
    case Release => None
  }

  function Begun(made: nat, last: Option<Id>, call: Call, a: Action): Call {
    match a
    case Read => Reads(last, None, false)
    case DeleteReader => Deletes
    case Write => Writes(last, Update(made), false)
    case GiveUp => Writes(last, Release, false)
    case Go => call
  }

  /** What an event tells, from the place of its thread. */
  function Tell(story: Story, st: State, e: Event): Story {
    if e.thread >= |st.threads| || e.thread >= |story.calls| then story
    else
      var t, x, call := e.thread, st.threads[e.thread], story.calls[e.thread];
      match x.at
      case Idle =>
        story.(made := story.made + One(e.action.Write?), calls := story.calls[t := Begun(story.made, x.last, call, e.action)])
      case ReadUnlock(_) => if call.Reads? then story.(calls := story.calls[t := call.(took := Some(story.latest))]) else story
      case Using(_) => if call.Reads? then story.(calls := story.calls[t := call.(ran := true)]) else story
      case WriteUnlock(_) => 
        if call.Writes? then story.(latest := Result(call.work), calls := story.calls[t := call.(done := true)]) else story
      case _ => story
  }

  function Told(story: Story, st: State, events: seq<Event>): Story
    decreases |events|
  {
    if events == [] then story
    else Told(Tell(story, st, events[0]), Step(st, events[0].thread, events[0].action), events[1..])
  }

  /** `stm_new` makes version 0. */
  function First(n: nat): Story {
    Story(1, Some(0), seq(n, _ => Nothing))
  }

  /** A call is over, but for what it still drops. */
  predicate Over(x: Thread, call: Call) {
    match call
    case Nothing => x.last == None
    case Reads(had, took, ran) => took == Some(x.last) && (ran <==> x.last.Some? && x.last != had)
    case Deletes => x.last == None
    case Writes(had, _, done) => x.last == had && done
  }

  /** A read before the box is compared. */
  predicate Looks(x: Thread, call: Call) {
    call.Reads? && x.last == call.had && !call.ran
  }

  /** A read that finds another version than that of the box. */
  predicate Changes(call: Call, c: Option<Id>) {
    call.Reads? && call.took == Some(c) && c != call.had && !call.ran
  }

  /** Where a thread is and what it has, while it does a call on an object of version `copy`. */
  predicate DoesCall(x: Thread, call: Call, copy: Option<Id>) {
    match x.at
    case Idle => Over(x, call)
    case ReadSpin => Looks(x, call)
    case ReadCheck => Looks(x, call)
    case ReadBack => Looks(x, call)
    case ReadIn => Looks(x, call)
    case ReadGot(got) => Looks(x, call) && got == copy
    case ReadUnlock(got) => Looks(x, call) && got == copy
    case Compare(got) => Looks(x, call) && call.took == Some(got)
    case Using(c) => Changes(call, Some(c)) && x.last == Some(c)
    case Drop(_, after) => Goes(x, after, call)
    case Free(_, after) => Goes(x, after, call)
    case WriteSpin(work) => call == Writes(x.last, work, false)
    case WriteWait(work) => call == Writes(x.last, work, false)
    case WriteIn(work) => call == Writes(x.last, work, false)
    case WriteLoaded(_, c) => call == Writes(x.last, Update(c), false)
    case WriteClear => call == Writes(x.last, Release, false)
    case WriteUnlock(_) => call.Writes? && x.last == call.had && copy == Result(call.work)
  }

  predicate Goes(x: Thread, after: After, call: Call) {
    match after
    case ToIdle => Over(x, call)
    case ToKeep(c) => Changes(call, c)
    case ToClear => call == Writes(x.last, Release, false)
  }

  /** The story tells the truth. */
  ghost predicate True(st: State, story: Story) {
    && |story.calls| == |st.threads| && story.made == |st.copies|
    && (forall t :: 0 <= t < |st.threads| ==> DoesCall(st.threads[t], story.calls[t], st.copy))
    && (st.copy == story.latest || exists t :: 0 <= t < |st.threads| && st.threads[t].at.WriteUnlock?)
  }

  // ---- one step ---------------------------------------------------------------------

  /** A step moves one thread, and the version of the object is changed by a writer past the lock
      that then lets go of it. */
  predicate CopyKept(st: State, st1: State, t: nat, made: nat)
    requires t < |st.threads|
  {
    && |st1.threads| == |st.threads| && st1.threads == st.threads[t := st1.threads[t]]
    && |st1.copies| == |st.copies| + made
    && (st1.copy != st.copy ==> WritingIn(st.threads[t].at) && st1.threads[t].at.WriteUnlock?)
  }

  lemma DropSteps(st: State, t: nat)
    requires t < |st.threads| && (st.threads[t].at.Drop? || st.threads[t].at.Free?)
    ensures var st1 := Step(st, t, Go);
      && CopyKept(st, st1, t, 0)
      && (st1.threads[t] == st.threads[t] || st1.threads[t] == Resume(st, t, st.threads[t].at.after).threads[t]
          || (st.threads[t].at.Drop? && st1.threads[t].at.Free?
              && st1.threads[t] == st.threads[t].(at := Free(st1.threads[t].at.copy, st.threads[t].at.after))))
  {
  }

  lemma CopySteps(st: State, t: nat, a: Action)
    requires t < |st.threads|
    ensures CopyKept(st, Step(st, t, a), t, One(st.threads[t].at == Idle && a.Write?))
  {
    hide DropRef, Resume;
    if st.threads[t].at.Drop? || st.threads[t].at.Free? {
      DropSteps(st, t);
      assert Step(st, t, a) == Step(st, t, Go);
    } else {
      OtherCopySteps(st, t, a);
    }
  }

  lemma OtherCopySteps(st: State, t: nat, a: Action)
    requires t < |st.threads| && !st.threads[t].at.Drop? && !st.threads[t].at.Free?
    ensures CopyKept(st, Step(st, t, a), t, One(st.threads[t].at == Idle && a.Write?))
  {
    hide DropRef, Resume;
  }

  /** What the thread of a step then does. */
  predicate StillDoes(st: State, story: Story, t: nat, a: Action)
    requires t < |st.threads| == |story.calls|
  {
    var st1 := Step(st, t, a);
    |st1.threads| == |st.threads| && DoesCall(st1.threads[t], Tell(story, st, Event(t, a)).calls[t], st1.copy)
  }

  lemma OwnDrops(st: State, story: Story, t: nat, a: Action)
    requires t < |st.threads| == |story.calls| && (st.threads[t].at.Drop? || st.threads[t].at.Free?)
    requires DoesCall(st.threads[t], story.calls[t], st.copy)
    ensures StillDoes(st, story, t, a)
  {
    hide Step;
    DropSteps(st, t);
    SameStep(st, t, a);
    assert Tell(story, st, Event(t, a)) == story;
    assert Step(st, t, a).copy == st.copy;
  }

  lemma SameStep(st: State, t: nat, a: Action)
    requires t < |st.threads| && !st.threads[t].at.Idle?
    ensures Step(st, t, a) == Step(st, t, Go)
  {
    hide Resume, DropRef;
  }

  lemma OwnReads(st: State, story: Story, t: nat, a: Action)
    requires t < |st.threads| == |story.calls| && story.made == |st.copies|
    requires DoesCall(st.threads[t], story.calls[t], st.copy)
    requires st.threads[t].at.ReadUnlock? ==> st.copy == story.latest
    requires var at := st.threads[t].at; Reading(at) || at.ReadSpin? || at.Compare? || at.Using? || at.Idle?
    ensures StillDoes(st, story, t, a)
  {
    hide Resume, DropRef;
  }

  lemma OwnWrites(st: State, story: Story, t: nat, a: Action)
    requires t < |st.threads| == |story.calls|
    requires DoesCall(st.threads[t], story.calls[t], st.copy)
    requires var at := st.threads[t].at; at.WriteSpin? || at.WriteWait? || at.WriteIn? || at.WriteLoaded? || at.WriteClear? || at.WriteUnlock?
    ensures StillDoes(st, story, t, a)
  {
    hide Resume, DropRef, AddRefs;
  }

  lemma OwnStep(st: State, story: Story, t: nat, a: Action)
    requires t < |st.threads| == |story.calls| && story.made == |st.copies|
    requires DoesCall(st.threads[t], story.calls[t], st.copy)
    requires st.threads[t].at.ReadUnlock? ==> st.copy == story.latest
    ensures StillDoes(st, story, t, a)
  {
    hide Step, Tell, DoesCall, StillDoes;
    var at := st.threads[t].at;
    if at.Drop? || at.Free? {
      OwnDrops(st, story, t, a);
    } else if Reading(at) || at.ReadSpin? || at.Compare? || at.Using? || at.Idle? {
      OwnReads(st, story, t, a);
    } else {
      OwnWrites(st, story, t, a);
    }
  }

  /** A reader past the lock sees the latest version. */
  lemma ReaderSeesLatest(st: State, story: Story, t: nat)
    requires Inv(st) && True(st, story) && t < |st.threads| && ReadingIn(st.threads[t].at)
    ensures st.copy == story.latest
  {
    hide LockOk, CountsOk, GiveOk;
    forall s | 0 <= s < |st.threads| ensures !st.threads[s].at.WriteUnlock? {
      assert !WritingIn(st.threads[s].at);
    }
  }

  /** Of a thread that is not the writer past the lock, the call does not depend on the version. */
  lemma OthersAway(st: State, t: nat, s: nat, call: Call, copy: Option<Id>)
    requires Inv(st) && t < |st.threads| && s < |st.threads| && s != t && WritingIn(st.threads[t].at)
    ensures DoesCall(st.threads[s], call, st.copy) <==> DoesCall(st.threads[s], call, copy)
  {
    Alone(st, t);
  }

  lemma LatestStep(st: State, story: Story, e: Event)
    requires Inv(st) && True(st, story) && e.thread < |st.threads|
    ensures var st1 := Step(st, e.thread, e.action);
      st1.copy == Tell(story, st, e).latest || exists t :: 0 <= t < |st1.threads| && st1.threads[t].at.WriteUnlock?
  {
    hide Step;
    hide LockOk, CountsOk, GiveOk, Apart;
    var t := e.thread;
    CopySteps(st, t, e.action);
    var st1 := Step(st, t, e.action);
    if st1.copy != st.copy {
      assert st1.threads[t].at.WriteUnlock?;
    } else if st.threads[t].at.WriteUnlock? {
      assert DoesCall(st.threads[t], story.calls[t], st.copy);
    } else if st.copy != story.latest {
      var s :| 0 <= s < |st.threads| && st.threads[s].at.WriteUnlock?;
      assert st1.threads[s] == st.threads[s];
    }
  }

  lemma StepTrue(st: State, story: Story, e: Event)
    requires Inv(st) && True(st, story)
    ensures True(Step(st, e.thread, e.action), Tell(story, st, e))
  {
    var t := e.thread;
    if t < |st.threads| {
      hide Step, Inv, DoesCall, Tell;
      var st1, story1 := Step(st, t, e.action), Tell(story, st, e);
      CopySteps(st, t, e.action);
      if ReadingIn(st.threads[t].at) {
        ReaderSeesLatest(st, story, t);
      }
      OwnStep(st, story, t, e.action);
      forall s | 0 <= s < |st1.threads| && s != t
        ensures DoesCall(st1.threads[s], story1.calls[s], st1.copy)
      {
        assert DoesCall(st.threads[s], story.calls[s], st.copy);
        if st1.copy != st.copy {
          OthersAway(st, t, s, story.calls[s], st1.copy);
        }
      }
      LatestStep(st, story, e);
    } else {
      assert Step(st, t, e.action) == st && Tell(story, st, e) == story;
    }
  }

  // ---- whole runs -------------------------------------------------------------------

  lemma {:induction false} RunTrue(st: State, story: Story, events: seq<Event>)
    requires Inv(st) && True(st, story)
    ensures Inv(Run(st, events)) && True(Run(st, events), Told(story, st, events))
    decreases |events|
  {
    hide Inv, True, Step, Tell;
    if events != [] {
      var e := events[0];
      StepInv(st, e.thread, e.action);
      StepTrue(st, story, e);
      RunTrue(Step(st, e.thread, e.action), Tell(story, st, e), events[1..]);
    }
  }

  lemma StartTrue(n: nat, events: seq<Event>)
    ensures Inv(Run(Start(n), events)) && True(Run(Start(n), events), Told(First(n), Start(n), events))
  {
    hide Inv, Run, Told;
    StartInv(n);
    RunTrue(Start(n), First(n), events);
  }

  /** In every run, as many versions exist as were made; the object has the version of the last
      writer that let go of the lock, none if that gave the object up, or that of the writer that
      is about to let go. */
  lemma LatestVersion(n: nat, events: seq<Event>)
    ensures var st, story := Run(Start(n), events), Told(First(n), Start(n), events);
      && |st.copies| == story.made && |st.threads| == |story.calls|
      && (forall t :: 0 <= t < |st.threads| && st.threads[t].at.WriteUnlock? ==>
            story.calls[t].Writes? && st.copy == Result(story.calls[t].work))
      && ((forall t :: 0 <= t < |st.threads| ==> !st.threads[t].at.WriteUnlock?) ==> st.copy == story.latest)
  {
    hide Inv, Run, Told;
    StartTrue(n, events);
    var st, story := Run(Start(n), events), Told(First(n), Start(n), events);
    forall t | 0 <= t < |st.threads| && st.threads[t].at.WriteUnlock?
      ensures story.calls[t].Writes? && st.copy == Result(story.calls[t].work)
    {
      assert DoesCall(st.threads[t], story.calls[t], st.copy);
    }
  }

  /** In every run, a reader past the lock gets the latest version. Its callback runs only with that
      version; and when the read is over, the box has it, and the callback has run if and only if it
      is there and is not the one that the box had before. */
  lemma ReaderGets(n: nat, events: seq<Event>, t: nat)
    requires t < |Run(Start(n), events).threads|
    ensures var st, story := Run(Start(n), events), Told(First(n), Start(n), events); var x := st.threads[t];
      && t < |story.calls|
      && (x.at.ReadGot? || x.at.ReadUnlock? ==> x.at.got == story.latest)
      && (x.at.Using? ==> story.calls[t].Reads? && story.calls[t].took == Some(Some(x.at.copy)) && Some(x.at.copy) != story.calls[t].had)
      && (x.at == Idle ==> Over(x, story.calls[t]))
  {
    hide Inv, Run, Told;
    StartTrue(n, events);
    var st, story := Run(Start(n), events), Told(First(n), Start(n), events);
    assert DoesCall(st.threads[t], story.calls[t], st.copy);
    if ReadingIn(st.threads[t].at) {
      ReaderSeesLatest(st, story, t);
    }
  }
}
