/** What holds in every run of readers and writers of an object. */
module SharedVersionsProof {
  import opened SharedVersions

  /** The lock counts the readers, and there is at most one writer. */
  ghost predicate LockOk(st: State) {
    st.read == Total(Readers, st.threads) && Total(Writers, st.threads) == One(st.write)
  }

  /** No reader is past the lock while a writer is. */
  ghost predicate Apart(threads: seq<Thread>) {
    forall s, t :: 0 <= s < |threads| && 0 <= t < |threads| && WritingIn(threads[s].at) ==> !ReadingIn(threads[t].at)
  }

  /** The references to a version are those of the object, of the boxes and of the calls under
      way; when there is none, the version is freed or one thread is about to free it. */
  ghost predicate CountOk(st: State, c: Id)
    requires c < |st.copies|
  {
    && st.copies[c].refs == One(st.counted && st.copy == Some(c)) + Total(Held(c), st.threads)
    && (st.copies[c].freed ==> st.copies[c].refs == 0)
    && Total(Freeing(c), st.threads) == One(st.copies[c].refs == 0 && !st.copies[c].freed)
  }

  /** Nobody knows a version before it exists. */
  ghost predicate Unknown(st: State, c: Id) {
    Total(Held(c), st.threads) == 0 && Total(Freeing(c), st.threads) == 0 && st.copy != Some(c)
  }

  ghost predicate CountsOk(st: State) {
    && (forall c :: 0 <= c < |st.copies| ==> CountOk(st, c))
    && (forall c :: c >= |st.copies| ==> Unknown(st, c))
  }

  /** The reference of the object counts, except while it is given up. */
  ghost predicate GiveOk(st: State) {
    if Total(Givers, st.threads) == 0 then st.copy.Some? ==> st.counted else !st.counted
  }

  /** What was loaded under the lock is still the version of the object; a box that is about to
      keep a version has none. */
  ghost predicate ThreadOk(copy: Option<Id>, x: Thread) {
    && (x.at.ReadGot? ==> x.at.got == copy)
    && (x.at.WriteLoaded? ==> x.at.was == copy)
    && (x.at.Using? ==> x.last == Some(x.at.copy))
    && ((x.at.Drop? || x.at.Free?) && x.at.after.ToKeep? ==> x.last == None)
  }

  ghost predicate Inv(st: State) {
    && LockOk(st) && Apart(st.threads) && CountsOk(st) && GiveOk(st)
    && forall t :: 0 <= t < |st.threads| ==> ThreadOk(st.copy, st.threads[t])
  }

  lemma StartInv(n: nat)
    ensures Inv(Start(n))
  {
    var st := Start(n);
    assert forall t :: 0 <= t < n ==> st.threads[t] == Thread(Idle, None);
    forall k: Count ensures Total(k, st.threads) == 0 {
      TotalZero(k, st.threads);
    }
    assert CountOk(st, 0);
  }

  /** There is one writer only. */
  lemma OneWriter(st: State, s: nat, t: nat)
    requires LockOk(st) && s < |st.threads| && t < |st.threads| && s != t && Writing(st.threads[s].at)
    ensures !Writing(st.threads[t].at)
  {
    TotalTwo(Writers, st.threads, s, t);
  }

  /** While another writer is past the lock, nobody gives the object up. */
  lemma NoGivers(st: State, t: nat)
    requires LockOk(st) && t < |st.threads| && Writing(st.threads[t].at) && !GivingUp(st.threads[t].at)
    ensures Total(Givers, st.threads) == 0
  {
    forall s | 0 <= s < |st.threads| ensures Weight(Givers, st.threads[s]) == 0 {
      if s != t {
        OneWriter(st, t, s);
      }
    }
    TotalZero(Givers, st.threads);
  }

  /** Nobody is counted as a reader when the count is 0. */
  lemma NoReaders(st: State)
    requires LockOk(st) && st.read == 0
    ensures forall t :: 0 <= t < |st.threads| ==> !Reading(st.threads[t].at)
  {
    forall t | 0 <= t < |st.threads| ensures !Reading(st.threads[t].at) {
      TotalUpdate(Readers, st.threads, t, st.threads[t]);
    }
  }

  lemma NoWriters(st: State)
    requires LockOk(st) && !st.write
    ensures forall t :: 0 <= t < |st.threads| ==> !Writing(st.threads[t].at)
  {
    forall t | 0 <= t < |st.threads| ensures !Writing(st.threads[t].at) {
      TotalUpdate(Writers, st.threads, t, st.threads[t]);
    }
  }

  /** What a step of thread `t` to `x` may do to the counts of the lock. */
  ghost predicate LockMoves(st: State, st2: State, t: nat, x: Thread)
    requires t < |st.threads|
  {
    && st2.read - st.read == Weight(Readers, x) - Weight(Readers, st.threads[t])
    && One(st2.write) - One(st.write) == Weight(Writers, x) - Weight(Writers, st.threads[t])
  }

  /** And to a version. */
  ghost predicate CopyMoves(st: State, st2: State, t: nat, x: Thread, c: Id)
    requires t < |st.threads| && c < |st.copies| == |st2.copies|
  {
    var a, b := st.copies[c], st2.copies[c];
    && b.refs - a.refs == One(st2.counted && st2.copy == Some(c)) - One(st.counted && st.copy == Some(c))
                          + Weight(Held(c), x) - Weight(Held(c), st.threads[t])
    && (b.freed ==> b.refs == 0)
    && One(b.refs == 0 && !b.freed) - One(a.refs == 0 && !a.freed) == Weight(Freeing(c), x) - Weight(Freeing(c), st.threads[t])
  }

  /** A step that keeps all counts right. */
  lemma Moved(st: State, st2: State, t: nat, x: Thread)
    requires Inv(st) && t < |st.threads| && st2.threads == st.threads[t := x] && |st2.copies| == |st.copies|
    requires LockMoves(st, st2, t, x) && forall c :: 0 <= c < |st.copies| ==> CopyMoves(st, st2, t, x, c)
    requires forall c :: c >= |st.copies| ==> Weight(Held(c), x) == 0 && Weight(Freeing(c), x) == 0 && st2.copy != Some(c)
    ensures LockOk(st2) && CountsOk(st2)
  {
    TotalUpdate(Readers, st.threads, t, x);
    TotalUpdate(Writers, st.threads, t, x);
    forall c | 0 <= c < |st2.copies| ensures CountOk(st2, c) {
      assert CountOk(st, c) && CopyMoves(st, st2, t, x, c);
      TotalUpdate(Held(c), st.threads, t, x);
      TotalUpdate(Freeing(c), st.threads, t, x);
    }
    forall c | c >= |st2.copies| ensures Unknown(st2, c) {
      assert Unknown(st, c);
      TotalUpdate(Held(c), st.threads, t, x);
      TotalUpdate(Freeing(c), st.threads, t, x);
    }
  }

  /** A thread knows only versions that exist. */
  lemma Known(st: State, t: nat, c: Id)
    requires CountsOk(st) && t < |st.threads| && (Weight(Held(c), st.threads[t]) > 0 || Weight(Freeing(c), st.threads[t]) > 0)
    ensures c < |st.copies|
    ensures Weight(Held(c), st.threads[t]) > 0 ==> st.copies[c].refs > 0 && !st.copies[c].freed
  {
    TotalUpdate(Held(c), st.threads, t, st.threads[t]);
    TotalUpdate(Freeing(c), st.threads, t, st.threads[t]);
    assert c >= |st.copies| ==> Unknown(st, c);
    assert CountOk(st, c);
  }

  /** The rest of the invariant, for a step that does not change the version of the object. */
  lemma MovedRest(st: State, st2: State, t: nat, x: Thread)
    requires Inv(st) && t < |st.threads| && st2.threads == st.threads[t := x] && st2.copy == st.copy
    requires ThreadOk(st.copy, x)
    requires WritingIn(x.at) ==> WritingIn(st.threads[t].at) || st.read == 0
    requires ReadingIn(x.at) ==> ReadingIn(st.threads[t].at) || !st.write
    requires !(WritingIn(x.at) && ReadingIn(x.at))
    requires st2.counted == st.counted && GivingUp(x.at) == GivingUp(st.threads[t].at)
    ensures Apart(st2.threads) && GiveOk(st2)
    ensures forall s :: 0 <= s < |st2.threads| ==> ThreadOk(st2.copy, st2.threads[s])
  {
    TotalUpdate(Givers, st.threads, t, x);
    if st.read == 0 {
      NoReaders(st);
    }
    if !st.write {
      NoWriters(st);
    }
  }

  lemma Kept(st: State, st2: State, t: nat, x: Thread)
    requires Inv(st) && t < |st.threads| && st2.threads == st.threads[t := x] && st2.copy == st.copy && st2.counted == st.counted
    requires |st2.copies| == |st.copies|
    requires LockMoves(st, st2, t, x) && forall c :: 0 <= c < |st.copies| ==> CopyMoves(st, st2, t, x, c)
    requires forall c :: c >= |st.copies| ==> Weight(Held(c), x) == 0 && Weight(Freeing(c), x) == 0
    requires ThreadOk(st.copy, x) && GivingUp(x.at) == GivingUp(st.threads[t].at)
    requires WritingIn(x.at) ==> WritingIn(st.threads[t].at) || st.read == 0
    requires ReadingIn(x.at) ==> ReadingIn(st.threads[t].at) || !st.write
    ensures Inv(st2)
  {
    forall c | c >= |st.copies| ensures st2.copy != Some(c) {
      assert Unknown(st, c);
    }
    Moved(st, st2, t, x);
    MovedRest(st, st2, t, x);
  }

  /** Nothing about versions changes. */
  lemma KeptCopies(st: State, st2: State, t: nat, x: Thread)
    requires Inv(st) && t < |st.threads| && st2.threads == st.threads[t := x] && st2.copy == st.copy && st2.counted == st.counted
    requires st2.copies == st.copies && LockMoves(st, st2, t, x)
    requires forall c :: c >= 0 ==> Weight(Held(c), x) == Weight(Held(c), st.threads[t])
    requires !x.at.Free? && !st.threads[t].at.Free?
    requires ThreadOk(st.copy, x) && GivingUp(x.at) == GivingUp(st.threads[t].at)
    requires WritingIn(x.at) ==> WritingIn(st.threads[t].at) || st.read == 0
    requires ReadingIn(x.at) ==> ReadingIn(st.threads[t].at) || !st.write
    ensures Inv(st2)
  {
    forall c | 0 <= c < |st.copies| ensures CopyMoves(st, st2, t, x, c) {
      assert CountOk(st, c);
    }
    forall c | c >= |st.copies| ensures Weight(Held(c), x) == 0 {
      assert Unknown(st, c);
      TotalUpdate(Held(c), st.threads, t, x);
    }
    Kept(st, st2, t, x);
  }

  /** A thread holds nothing that does not exist. */
  lemma HoldsNothingNew(st: State, t: nat)
    requires CountsOk(st) && t < |st.threads|
    ensures forall c :: c >= |st.copies| ==> Weight(Held(c), st.threads[t]) == 0 && Weight(Freeing(c), st.threads[t]) == 0
  {
    forall c | c >= |st.copies| ensures Weight(Held(c), st.threads[t]) == 0 && Weight(Freeing(c), st.threads[t]) == 0 {
      assert Unknown(st, c);
      TotalUpdate(Held(c), st.threads, t, st.threads[t]);
      TotalUpdate(Freeing(c), st.threads, t, st.threads[t]);
    }
  }

  lemma LockSteps(st: State, t: nat)
    requires Inv(st) && t < |st.threads|
    requires var at := st.threads[t].at; at.ReadSpin? || at.ReadCheck? || at.ReadBack? || at.ReadIn? || at.ReadUnlock?
    ensures Inv(Step(st, t, Go))
  {
    hide CountsOk, LockOk, Apart, GiveOk;
    var st2 := Step(st, t, Go);
    if st.threads[t].at.ReadSpin? && st.write {
      assert st2 == st;
    } else {
      KeptCopies(st, st2, t, st2.threads[t]);
    }
  }

  lemma CompareSteps(st: State, t: nat)
    requires Inv(st) && t < |st.threads|
    requires st.threads[t].at.Compare?
    ensures Inv(Step(st, t, Go))
  {
    hide CountsOk, LockOk, Apart, GiveOk;
    var st2 := Step(st, t, Go);
    KeptCopies(st, st2, t, st2.threads[t]);
  }

  lemma OtherSteps(st: State, t: nat)
    requires Inv(st) && t < |st.threads| && (st.threads[t].at.Using? || st.threads[t].at == ReadGot(None))
    ensures Inv(Step(st, t, Go))
  {
    hide CountsOk, LockOk, Apart, GiveOk;
    var st2 := Step(st, t, Go);
    KeptCopies(st, st2, t, st2.threads[t]);
  }

  lemma GotStep(st: State, t: nat)
    requires Inv(st) && t < |st.threads| && st.threads[t].at.ReadGot? && st.threads[t].at.got.Some?
    ensures Inv(Step(st, t, Go))
  {
    var st2 := Step(st, t, Go);
    var x := st2.threads[t];
    var c0 := st.threads[t].at.got.value;
    GotVersion(st, t, c0);
    HoldsNothingNew(st, t);
    assert CountOk(st, c0) && !st.copies[c0].freed;
    hide CountsOk, LockOk, Apart, GiveOk;
    forall c | 0 <= c < |st.copies| ensures CopyMoves(st, st2, t, x, c) {
      CopiesKept(st, c);
    }
    Kept(st, st2, t, x);
  }

  lemma CopiesKept(st: State, c: Id)
    requires CountsOk(st) && c < |st.copies|
    ensures st.copies[c].freed ==> st.copies[c].refs == 0
  {
    assert CountOk(st, c);
  }

  /** A version that a reader has loaded under the lock is still the one of the object, whose
      reference counts: the assertion of `stm_copy` holds. */
  lemma GotVersion(st: State, t: nat, c: Id)
    requires Inv(st) && t < |st.threads| && st.threads[t].at == ReadGot(Some(c))
    ensures c < |st.copies| && st.copy == Some(c) && st.counted && st.copies[c].refs > 0
  {
    assert ThreadOk(st.copy, st.threads[t]);
    assert c >= |st.copies| ==> Unknown(st, c);
    forall s | 0 <= s < |st.threads| ensures Weight(Givers, st.threads[s]) == 0 {
      assert WritingIn(st.threads[s].at) ==> !ReadingIn(st.threads[t].at);
    }
    TotalZero(Givers, st.threads);
    assert CountOk(st, c);
  }

  lemma BeginSteps(st: State, t: nat, a: Action)
    requires Inv(st) && t < |st.threads| && st.threads[t].at.Idle? && !a.Write?
    ensures Inv(Step(st, t, a))
  {
    var st2 := Step(st, t, a);
    if a.Go? {
      assert st2 == st;
    } else {
      KeptCopies(st, st2, t, st2.threads[t]);
    }
  }

  lemma BeginWrite(st: State, t: nat)
    requires Inv(st) && t < |st.threads| && st.threads[t].at.Idle?
    ensures Inv(Step(st, t, Write))
  {
    var st2 := Step(st, t, Write);
    var x := st2.threads[t];
    TotalUpdate(Readers, st.threads, t, x);
    TotalUpdate(Writers, st.threads, t, x);
    TotalUpdate(Givers, st.threads, t, x);
    forall c | 0 <= c < |st2.copies| ensures CountOk(st2, c) {
      NewCounted(st, t, c);
    }
    forall c | c >= |st2.copies| ensures Unknown(st2, c) {
      NewCounted(st, t, c);
    }
  }

  lemma NewCounted(st: State, t: nat, c: nat)
    requires CountsOk(st) && t < |st.threads| && st.threads[t].at.Idle?
    ensures if c < |st.copies| + 1 then CountOk(Step(st, t, Write), c) else Unknown(Step(st, t, Write), c)
  {
    var x := Step(st, t, Write).threads[t];
    TotalUpdate(Held(c), st.threads, t, x);
    TotalUpdate(Freeing(c), st.threads, t, x);
    assert if c < |st.copies| then CountOk(st, c) else Unknown(st, c);
  }

  /** Where a thread goes on, it holds what it was to keep. */
  lemma Resumed(st: State, t: nat, after: After)
    requires t < |st.threads| && (after.ToKeep? ==> st.threads[t].last == None)
    ensures var x := Resume(st, t, after).threads[t];
      && Resume(st, t, after) == st.(threads := st.threads[t := x])
      && (forall c :: c >= 0 ==> Weight(Held(c), x) == HeldAfter(after, c) + One(st.threads[t].last == Some(c)))
      && !x.at.Free? && !Reading(x.at) && ThreadOk(st.copy, x)
      && Writing(x.at) == WritingIn(x.at) == GivingUp(x.at) == after.ToClear?
  {
  }

  /** Dropping nothing. */
  lemma DropNothing(st: State, t: nat)
    requires Inv(st) && t < |st.threads| && st.threads[t].at.Drop? && st.threads[t].at.ref.None?
    ensures Inv(Step(st, t, Go))
  {
    var st2 := Step(st, t, Go);
    Resumed(st, t, st.threads[t].at.after);
    hide CountsOk, LockOk, Apart, GiveOk, Resume;
    KeptCopies(st, st2, t, st2.threads[t]);
  }

  /** Dropping a reference. */
  lemma DropSteps(st: State, t: nat)
    requires Inv(st) && t < |st.threads| && st.threads[t].at.Drop? && st.threads[t].at.ref.Some?
    ensures Inv(Step(st, t, Go))
  {
    var st2 := Step(st, t, Go);
    var x := st2.threads[t];
    var c0, after := st.threads[t].at.ref.value, st.threads[t].at.after;
    HoldsNothingNew(st, t);
    Known(st, t, c0);
    Resumed(AddRefs(st, c0, -1), t, after);
    hide CountsOk, LockOk, Apart, GiveOk, Resume;
    forall c | 0 <= c < |st.copies| ensures CopyMoves(st, st2, t, x, c) {
      CopiesKept(st, c);
      DropMoves(st, t, c);
    }
    Kept(st, st2, t, x);
  }

  lemma DropMoves(st: State, t: nat, c: Id)
    requires t < |st.threads| && st.threads[t].at.Drop? && st.threads[t].at.ref.Some?
    requires var c0 := st.threads[t].at.ref.value; c0 < |st.copies| && st.copies[c0].refs > 0 && !st.copies[c0].freed
    requires ThreadOk(st.copy, st.threads[t])
    requires c < |st.copies| && (st.copies[c].freed ==> st.copies[c].refs == 0)
    ensures CopyMoves(st, Step(st, t, Go), t, Step(st, t, Go).threads[t], c)
  {
    var c0, after := st.threads[t].at.ref.value, st.threads[t].at.after;
    Resumed(AddRefs(st, c0, -1), t, after);
    hide Resume;
  }

  /** Freeing what has no references. */
  lemma FreeSteps(st: State, t: nat)
    requires Inv(st) && t < |st.threads| && st.threads[t].at.Free?
    ensures Inv(Step(st, t, Go))
  {
    var st2 := Step(st, t, Go);
    var x := st2.threads[t];
    var c0 := st.threads[t].at.copy;
    HoldsNothingNew(st, t);
    FreeOnce(st, t);
    Resumed(st.(copies := st.copies[c0 := st.copies[c0].(freed := true)]), t, st.threads[t].at.after);
    hide CountsOk, LockOk, Apart, GiveOk, Resume;
    forall c | 0 <= c < |st.copies| ensures CopyMoves(st, st2, t, x, c) {
      CopiesKept(st, c);
    }
    Kept(st, st2, t, x);
  }

  /** What a thread is about to free has no references and was not freed. */
  lemma FreeOnce(st: State, t: nat)
    requires Inv(st) && t < |st.threads| && st.threads[t].at.Free?
    ensures st.threads[t].at.copy < |st.copies|
    ensures st.copies[st.threads[t].at.copy].refs == 0 && !st.copies[st.threads[t].at.copy].freed
  {
    var c := st.threads[t].at.copy;
    Known(st, t, c);
    TotalUpdate(Freeing(c), st.threads, t, st.threads[t]);
    assert CountOk(st, c);
  }

  // The steps of writers

  lemma WriteSteps(st: State, t: nat)
    requires Inv(st) && t < |st.threads|
    requires var at := st.threads[t].at; at.WriteSpin? || at.WriteWait? || (at.WriteIn? && at.work.Update?)
    ensures Inv(Step(st, t, Go))
  {
    hide CountsOk, LockOk, Apart, GiveOk;
    var st2 := Step(st, t, Go);
    if st2 != st {
      KeptCopies(st, st2, t, st2.threads[t]);
    }
  }

  lemma UnlockStep(st: State, t: nat)
    requires Inv(st) && t < |st.threads| && st.threads[t].at.WriteUnlock?
    ensures Inv(Step(st, t, Go))
  {
    TotalUpdate(Writers, st.threads, t, st.threads[t]);
    assert st.write;
    hide CountsOk, LockOk, Apart, GiveOk;
    var st2 := Step(st, t, Go);
    KeptCopies(st, st2, t, st2.threads[t]);
  }

  /** While a writer is past the lock, nobody has loaded the version, and nobody else writes. */
  lemma Alone(st: State, t: nat)
    requires Inv(st) && t < |st.threads| && WritingIn(st.threads[t].at)
    ensures forall s :: 0 <= s < |st.threads| && s != t ==>
      !Writing(st.threads[s].at) && !ReadingIn(st.threads[s].at)
  {
    forall s | 0 <= s < |st.threads| && s != t ensures !Writing(st.threads[s].at) && !ReadingIn(st.threads[s].at) {
      OneWriter(st, t, s);
    }
  }

  /** A writer alone changes the version of the object. */
  lemma Changed(st: State, st2: State, t: nat, x: Thread)
    requires Inv(st) && t < |st.threads| && st2.threads == st.threads[t := x] && st2.copies == st.copies
    requires WritingIn(st.threads[t].at) && WritingIn(x.at) && st2.read == st.read && st2.write == st.write
    requires !st.threads[t].at.Free? && !x.at.Free? && ThreadOk(st2.copy, x)
    requires forall c :: 0 <= c < |st.copies| ==>
      One(st2.counted && st2.copy == Some(c)) + Weight(Held(c), x) == One(st.counted && st.copy == Some(c)) + Weight(Held(c), st.threads[t])
    requires forall c :: c >= |st.copies| ==> Weight(Held(c), x) == 0 && st2.copy != Some(c)
    requires if GivingUp(x.at) then !st2.counted else st2.copy.Some? ==> st2.counted
    ensures Inv(st2)
  {
    forall c | 0 <= c < |st.copies| ensures CopyMoves(st, st2, t, x, c) {
      assert CountOk(st, c);
    }
    Moved(st, st2, t, x);
    Alone(st, t);
    TotalUpdate(Givers, st.threads, t, x);
    ChangedRest(st, st2, t, x);
  }

  lemma ChangedRest(st: State, st2: State, t: nat, x: Thread)
    requires Inv(st) && LockOk(st2) && t < |st.threads| && st2.threads == st.threads[t := x]
    requires WritingIn(st.threads[t].at) && WritingIn(x.at) && ThreadOk(st2.copy, x)
    requires if GivingUp(x.at) then !st2.counted else st2.copy.Some? ==> st2.counted
    ensures Apart(st2.threads) && GiveOk(st2)
    ensures forall s :: 0 <= s < |st2.threads| ==> ThreadOk(st2.copy, st2.threads[s])
  {
    Alone(st, t);
    forall s | 0 <= s < |st2.threads| ensures ThreadOk(st2.copy, st2.threads[s]) {
      if s != t {
        assert ThreadOk(st.copy, st.threads[s]);
      }
    }
    if GivingUp(x.at) {
      TotalUpdate(Givers, st2.threads, t, x);
    } else {
      NoGivers(st2, t);
    }
  }

  lemma StoreStep(st: State, t: nat)
    requires Inv(st) && t < |st.threads| && st.threads[t].at.WriteLoaded?
    ensures Inv(Step(st, t, Go))
  {
    var st2 := Step(st, t, Go);
    HoldsNothingNew(st, t);
    assert ThreadOk(st.copy, st.threads[t]);
    NoGivers(st, t);
    assert Weight(Held(st.threads[t].at.copy), st.threads[t]) > 0;
    forall c | c >= |st.copies| ensures st.copy != Some(c) {
      assert Unknown(st, c);
    }
    hide CountsOk, LockOk, Apart;
    Changed(st, st2, t, st2.threads[t]);
  }

  lemma GiveUpSteps(st: State, t: nat)
    requires Inv(st) && t < |st.threads| && (st.threads[t].at.WriteClear? || st.threads[t].at == WriteIn(Release))
    ensures Inv(Step(st, t, Go))
  {
    var st2 := Step(st, t, Go);
    HoldsNothingNew(st, t);
    if st.threads[t].at.WriteClear? {
      TotalUpdate(Givers, st.threads, t, st.threads[t]);
    } else {
      NoGivers(st, t);
    }
    forall c | c >= |st.copies| ensures st.copy != Some(c) {
      assert Unknown(st, c);
    }
    hide CountsOk, LockOk, Apart;
    Changed(st, st2, t, st2.threads[t]);
  }

  /** Every step of every thread keeps the invariant. */
  lemma StepInv(st: State, t: nat, a: Action)
    requires Inv(st)
    ensures Inv(Step(st, t, a))
  {
    if t < |st.threads| {
      assert !st.threads[t].at.Idle? ==> Step(st, t, a) == Step(st, t, Go);
      hide Inv, Step;
      match st.threads[t].at {
        case Idle =>
          if a.Write? {
            BeginWrite(st, t);
          } else {
            BeginSteps(st, t, a);
          }
        case ReadGot(got) =>
          if got.Some? {
            GotStep(st, t);
          } else {
            OtherSteps(st, t);
          }
        case Compare(_) => CompareSteps(st, t);
        case Using(_) => OtherSteps(st, t);
        case Drop(ref, _) =>
          if ref.Some? {
            DropSteps(st, t);
          } else {
            DropNothing(st, t);
          }
        case Free(_, _) => FreeSteps(st, t);
        case WriteIn(work) =>
          if work.Update? {
            WriteSteps(st, t);
          } else {
            GiveUpSteps(st, t);
          }
        case WriteLoaded(_, _) => StoreStep(st, t);
        case WriteClear => GiveUpSteps(st, t);
        case WriteSpin(_) => WriteSteps(st, t);
        case WriteWait(_) => WriteSteps(st, t);
        case WriteUnlock(_) => UnlockStep(st, t);
        case _ => LockSteps(st, t);
      }
    } else {
      assert Step(st, t, a) == st;
    }
  }

  lemma {:induction false} RunInv(st: State, events: seq<Event>)
    requires Inv(st)
    ensures Inv(Run(st, events))
    decreases |events|
  {
    if events != [] {
      StepInv(st, events[0].thread, events[0].action);
      RunInv(Step(st, events[0].thread, events[0].action), events[1..]);
    }
  }

  // What this means, for every run of every number of threads

  /** A writer past the lock is alone there: no other writer and no reader is. */
  lemma Exclusive(n: nat, events: seq<Event>, s: nat, t: nat)
    requires var st := Run(Start(n), events); s < |st.threads| && t < |st.threads| && s != t && WritingIn(st.threads[s].at)
    ensures var x := Run(Start(n), events).threads[t].at; !WritingIn(x) && !ReadingIn(x)
  {
    StartInv(n);
    RunInv(Start(n), events);
    Alone(Run(Start(n), events), s);
  }

  /** How many hold a version: the object, boxes, and calls under way. */
  ghost function Holders(st: State, c: Id): nat {
    One(st.counted && st.copy == Some(c)) + Total(Held(c), st.threads)
  }

  /** The count of a version is the number of those who hold it. It is freed only when there are
      none, and then it is freed, or exactly one thread is about to free it. */
  lemma Counted(n: nat, events: seq<Event>, c: Id)
    requires c < |Run(Start(n), events).copies|
    ensures var st := Run(Start(n), events);
      && st.copies[c].refs == Holders(st, c)
      && (st.copies[c].freed ==> Holders(st, c) == 0)
      && (Holders(st, c) == 0 ==> st.copies[c].freed || Total(Freeing(c), st.threads) == 1)
  {
    StartInv(n);
    RunInv(Start(n), events);
    assert CountOk(Run(Start(n), events), c);
  }

  /** No version is freed twice, and none that a callback sees, that a box keeps, or that a reader
      has loaded is freed. */
  lemma NeverFreedEarly(n: nat, events: seq<Event>, t: nat)
    requires t < |Run(Start(n), events).threads|
    ensures var st := Run(Start(n), events); var x := st.threads[t];
      && (x.at.Using? ==> x.at.copy < |st.copies| && !st.copies[x.at.copy].freed)
      && (x.last.Some? ==> x.last.value < |st.copies| && !st.copies[x.last.value].freed)
      && (x.at.ReadGot? && x.at.got.Some? ==>
            x.at.got.value < |st.copies| && !st.copies[x.at.got.value].freed && st.copies[x.at.got.value].refs > 0)
      && (x.at.Free? ==> x.at.copy < |st.copies| && !st.copies[x.at.copy].freed)
  {
    StartInv(n);
    RunInv(Start(n), events);
    var st := Run(Start(n), events);
    var x := st.threads[t];
    assert ThreadOk(st.copy, x);
    if x.last.Some? {
      assert Weight(Held(x.last.value), x) > 0;
      Known(st, t, x.last.value);
    }
    if x.at.ReadGot? && x.at.got.Some? {
      GotVersion(st, t, x.at.got.value);
      assert CountOk(st, x.at.got.value);
    }
    if x.at.Free? {
      FreeOnce(st, t);
    }
  }

  /** When all threads rest, exactly the versions that the object or a box has are not freed. */
  lemma NothingLeaks(n: nat, events: seq<Event>, c: Id)
    requires var st := Run(Start(n), events); c < |st.copies| && forall t :: 0 <= t < |st.threads| ==> st.threads[t].at == Idle
    ensures var st := Run(Start(n), events);
      !st.copies[c].freed <==> st.copy == Some(c) || exists t :: 0 <= t < |st.threads| && st.threads[t].last == Some(c)
  {
    StartInv(n);
    RunInv(Start(n), events);
    var st := Run(Start(n), events);
    TotalZero(Freeing(c), st.threads);
    TotalZero(Givers, st.threads);
    assert CountOk(st, c);
    if forall t :: 0 <= t < |st.threads| ==> st.threads[t].last != Some(c) {
      TotalZero(Held(c), st.threads);
    } else {
      var t :| 0 <= t < |st.threads| && st.threads[t].last == Some(c);
      TotalUpdate(Held(c), st.threads, t, st.threads[t]);
    }
  }
}
