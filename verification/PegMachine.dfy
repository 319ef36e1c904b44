/** The loop of `match` in skynet/3rd/lpeg/lpvm.c, with its backtrack array. The array grows
    by doubling up to a configured maximum; the states of PegVm.dfy have no such bound. The
    main method says when the bound makes a difference. */
module PegMachine {
  import opened Charset
  import opened Peg
  import opened PegVm

  const INITBACK := 400

  datatype Answer = Position(pos: nat) | NoMatch | StackOverflow

  /** The entries of the array from the bottom up, as a stack. */
  function ToStack(frames: seq<Frame>): (r: Stack)
    ensures Depth(r) == |frames|
  {
    if frames == [] then Empty else Push(frames[|frames| - 1], ToStack(frames[..|frames| - 1]))
  }

  function Depth(stack: Stack): nat {
    if stack.Empty? then 0 else 1 + Depth(stack.rest)
  }

  function StateDepth(st: State): nat {
    if st.Run? then Depth(st.stack) else 0
  }

  /** The largest stack the machine gets: `setmaxstack` cannot go below the initial size. */
  function Limit(max: int): nat {
    if max > INITBACK then max else INITBACK
  }

  function AnswerOf(st: State): Answer
    requires Halted(st)
  {
    if st.Matched? then Position(st.pos) else NoMatch
  }

  /** Some state of the run of `n` steps needs more than `limit` entries. */
  ghost predicate Overflows(code: Code, s: Subject, st: State, n: nat, limit: nat) {
    exists k: nat :: k < n && StateDepth(Steps(code, s, st, k)) > limit
  }

  lemma ToStackPush(frames: seq<Frame>, f: Frame)
    ensures ToStack(frames + [f]) == Push(f, ToStack(frames))
  {
    assert (frames + [f])[..|frames|] == frames;
  }

  /** What the next round does in a run that will halt: it ends the loop of `match`, or
      leads to a state that is still running. */
  lemma NextRound(code: Code, s: Subject, st: State, n: nat)
    requires st.Run? && Halted(Steps(code, s, st, n))
    ensures n > 0
    ensures st.pc == GIVEUP ==> Step(code, s, st) == GaveUp
    ensures st.pc != GIVEUP ==> 0 <= st.pc < |code|
    ensures st.pc != GIVEUP && code[st.pc].IEnd? ==> Step(code, s, st) == Matched(st.pos)
    ensures st.pc != GIVEUP && !code[st.pc].IEnd? ==>
              && Step(code, s, st) == Exec(s, code[st.pc], st.pc, st.pos, st.stack)
              && Step(code, s, st).Run?
              && Halted(Steps(code, s, Step(code, s, st), n - 1))
  {
    if Step(code, s, st).Stuck? {
      StuckStays(code, s, n - 1);
    }
  }

  lemma OneMore(code: Code, s: Subject, st: State, k: nat)
    ensures Steps(code, s, st, k + 1) == Step(code, s, Steps(code, s, st, k))
  {
    StepsAdd(code, s, st, k, 1);
    assert Steps(code, s, Step(code, s, Steps(code, s, st, k)), 0) == Step(code, s, Steps(code, s, st, k));
  }

  lemma StepsZero(code: Code, s: Subject, st: State)
    ensures Steps(code, s, st, 0) == st
  {
  }

  lemma StillRunning(code: Code, s: Subject, st: State, k: nat, n: nat)
    requires k <= n && Halted(Steps(code, s, st, n)) && Steps(code, s, st, k).Run?
    ensures k < n
  {
  }

  /** A run that has halted within the limit never exceeds it. */
  lemma NoOverflow(code: Code, s: Subject, st: State, k: nat, n: nat, limit: nat)
    requires k <= n && Halted(Steps(code, s, st, k))
    requires forall j: nat :: j < k ==> StateDepth(Steps(code, s, st, j)) <= limit
    ensures !Overflows(code, s, st, n, limit)
    ensures Steps(code, s, st, n) == Steps(code, s, st, k)
  {
    forall j: nat | k <= j
      ensures Steps(code, s, st, j) == Steps(code, s, st, k)
    {
      StepsAdd(code, s, st, k, j - k);
      HaltedStays(code, s, Steps(code, s, st, k), j - k);
    }
  }

  class Machine {
    const code: Code
    const subject: Subject
    /** `maxstack` of the registry */
    const max: int
    var pc: int
    var pos: nat
    var entries: array<Frame>
    /** the first empty slot of `entries` */
    var top: nat

    ghost predicate Valid()
      reads this, entries
    {
      && top <= entries.Length <= Limit(max)
      && INITBACK <= entries.Length
    }

    ghost function View(): Stack
      requires Valid()
      reads this, entries
    {
      ToStack(entries[..top])
    }

    ghost function Now(): State
      requires Valid()
      reads this, entries
    {
      Run(pc, pos, View())
    }

    constructor (code: Code, subject: Subject, start: nat, max: int)
      ensures Valid() && fresh(entries) && Now() == Start(start)
      ensures this.code == code && this.subject == subject && this.max == max
    {
      this.code, this.subject, this.max := code, subject, max;
      pc, pos, top := 0, start, 1;
      entries := new Frame[INITBACK];
      new;
      entries[0] := Choice(GIVEUP, start);
      ToStackPush([], Choice(GIVEUP, start));
      assert entries[..1] == [] + [Choice(GIVEUP, start)];
    }

    /** `doublestack`, or the error "backtrack stack overflow" */
    method DoubleStack() returns (ok: bool)
      requires Valid() && top == entries.Length
      modifies this
      ensures Valid() && (entries == old(entries) || fresh(entries))
      ensures pc == old(pc) && pos == old(pos) && top == old(top)
      ensures entries[..top] == old(entries[..top])
      ensures ok <==> top < Limit(max)
      ensures ok ==> top < entries.Length
    {
      var n := entries.Length;
      if n >= max {
        ok := false;
      } else {
        var newn := if 2 * n > max then max else 2 * n;
        var grown := new Frame[newn];
        forall k | 0 <= k < n {
          grown[k] := entries[k];
        }
        entries, ok := grown, true;
      }
    }

    method PushFrame(f: Frame) returns (ok: bool)
      requires Valid()
      modifies this, entries
      ensures Valid() && (entries == old(entries) || fresh(entries))
      ensures pc == old(pc) && pos == old(pos)
      ensures ok <==> old(top) < Limit(max)
      ensures ok ==> View() == Push(f, old(View()))
    {
      ghost var frames := entries[..top];
      ok := true;
      if top == entries.Length {
        ok := DoubleStack();
      }
      if ok {
        entries[top] := f;
        top := top + 1;
        ToStackPush(frames, f);
        assert entries[..top] == frames + [f];
      }
    }

    /** Label `fail`: drop pending calls and return to the last choice. */
    method Fail()
      requires Valid() && Backtrack(View()).Run?
      modifies this
      ensures Valid() && entries == old(entries)
      ensures Now() == Backtrack(old(View()))
    {
      ghost var goal := Backtrack(View());
      top := top - 1;
      assert entries[..top + 1][..top] == entries[..top];
      while entries[top].Ret?
        invariant Valid() && top < entries.Length && entries == old(entries)
        invariant Backtrack(Push(entries[top], View())) == goal
        decreases top
      {
        top := top - 1;
        assert entries[..top + 1][..top] == entries[..top];
      }
      pos := entries[top].pos;
      pc := entries[top].pc;
    }

    /** The instructions that only look at the subject. */
    method Look(x: Instr)
      requires Valid() && Exec(subject, x, pc, pos, View()).Run?
      requires x.IAny? || x.IChar? || x.ISet? || x.IBehind? || x.IFail?
               || x.ITestAny? || x.ITestChar? || x.ITestSet? || x.ISpan? || x.IJmp?
      modifies this
      ensures Valid() && entries == old(entries)
      ensures Now() == Exec(subject, x, old(pc), old(pos), old(View()))
    {
      var there := pos < |subject|;
      match x
      case IAny =>
        if there { pc, pos := pc + 1, pos + 1; } else { Fail(); }
      case IChar(c) =>
        if there && subject[pos] == c { pc, pos := pc + 1, pos + 1; } else { Fail(); }
      case ISet(cs) =>
        if there && subject[pos] in cs { pc, pos := pc + CHARSETINSTSIZE, pos + 1; } else { Fail(); }
      case IBehind(n) =>
        if n > pos { Fail(); } else { pc, pos := pc + 1, pos - n; }
      case IFail => Fail();
      case ITestAny(off) =>
        if there { pc := pc + 2; } else { pc := pc + off; }
      case ITestChar(c, off) =>
        if there && subject[pos] == c { pc := pc + 2; } else { pc := pc + off; }
      case ITestSet(cs, off) =>
        if there && subject[pos] in cs { pc := pc + 1 + CHARSETINSTSIZE; } else { pc := pc + off; }
      case ISpan(cs) => SkipSet(cs);
      case IJmp(off) => pc := pc + off;
    }

    method SkipSet(cs: Charset)
      requires Valid()
      modifies this
      ensures Valid() && entries == old(entries)
      ensures Now() == Run(old(pc) + CHARSETINSTSIZE, SpanEnd(subject, old(pos), cs), old(View()))
    {
      while pos < |subject| && subject[pos] in cs
        invariant Valid() && entries == old(entries) && top == old(top) && pc == old(pc)
        invariant SpanEnd(subject, pos, cs) == SpanEnd(subject, old(pos), cs)
        decreases |subject| - pos
      {
        pos := pos + 1;
      }
      pc := pc + CHARSETINSTSIZE;
    }

    /** The choice on top of the stack now returns to the current position. */
    method MoveTop()
      requires Valid() && View().Push? && View().top.Choice?
      modifies entries
      ensures Valid()
      ensures View() == Push(Choice(old(View()).top.pc, pos), old(View()).rest)
    {
      ghost var rest := entries[..top - 1];
      assert entries[..top][..top - 1] == rest;
      entries[top - 1] := Choice(entries[top - 1].pc, pos);
      ToStackPush(rest, entries[top - 1]);
      assert entries[..top] == rest + [entries[top - 1]];
    }

    /** The instructions that take an entry off the stack or change the top one. */
    method Unstack(x: Instr)
      requires Valid() && Exec(subject, x, pc, pos, View()).Run?
      requires x.IRet? || x.ICommit? || x.IPartialCommit? || x.IBackCommit? || x.IFailTwice?
      modifies this, entries
      ensures Valid() && entries == old(entries)
      ensures Now() == Exec(subject, x, old(pc), old(pos), old(View()))
    {
      assert entries[..top][..top - 1] == entries[..top - 1];
      match x
      case IRet =>
        top := top - 1;
        pc := entries[top].pc;
      case ICommit(off) =>
        top := top - 1;
        pc := pc + off;
      case IPartialCommit(off) =>
        MoveTop();
        pc := pc + off;
      case IBackCommit(off) =>
        top := top - 1;
        pos := entries[top].pos;
        pc := pc + off;
      case IFailTwice =>
        top := top - 1;
        Fail();
    }

    /** One round of the loop; `false` when the stack cannot take another entry. */
    method Round() returns (ok: bool)
      requires Valid() && 0 <= pc < |code| && Exec(subject, code[pc], pc, pos, View()).Run?
      modifies this, entries
      ensures Valid() && (entries == old(entries) || fresh(entries))
      ensures ok <==> StateDepth(Exec(subject, code[old(pc)], old(pc), old(pos), old(View()))) <= Limit(max)
      ensures ok ==> Now() == Exec(subject, code[old(pc)], old(pc), old(pos), old(View()))
    {
      var x := code[pc];
      ok := true;
      if x.IChoice? {
        ok := PushFrame(Choice(pc + x.off, pos));
        pc := pc + 2;
      } else if x.ICall? {
        ok := PushFrame(Ret(pc + 2));
        pc := pc + x.off;
      } else if x.IRet? || x.ICommit? || x.IPartialCommit? || x.IBackCommit? || x.IFailTwice? {
        Unstack(x);
      } else {
        Look(x);
      }
    }

    /** `match`. The run of the unbounded machine ends after at most `n` steps; the loop gives
        its answer, unless one of its states needs more than the largest stack allowed. */
    method Match(ghost n: nat) returns (r: Answer)
      requires Valid() && Halted(Steps(code, subject, Now(), n))
      modifies this, entries
      ensures r == StackOverflow <==> old(Overflows(code, subject, Now(), n, Limit(max)))
      ensures r != StackOverflow ==> r == old(AnswerOf(Steps(code, subject, Now(), n)))
    {
      hide Exec, Step, Steps;
      ghost var st, limit := Now(), Limit(max);
      ghost var k := 0;
      assert Steps(code, subject, st, 0) == st by {
        StepsZero(code, subject, st);
      }
      NextRound(code, subject, st, n);
      while pc != GIVEUP && !code[pc].IEnd?
        invariant k <= n && Valid() && (entries == old(entries) || fresh(entries))
        invariant Now() == Steps(code, subject, st, k)
        invariant forall j: nat :: j <= k ==> StateDepth(Steps(code, subject, st, j)) <= limit
        invariant Halted(Steps(code, subject, Now(), n - k))
        invariant pc == GIVEUP || 0 <= pc < |code|
        decreases n - k
      {
        NextRound(code, subject, Now(), n - k);
        OneMore(code, subject, st, k);
        var ok := Round();
        k := k + 1;
        if !ok {
          StillRunning(code, subject, st, k, n);
          assert StateDepth(Steps(code, subject, st, k)) > limit;
          return StackOverflow;
        }
        NextRound(code, subject, Now(), n - k);
      }
      NextRound(code, subject, Now(), n - k);
      OneMore(code, subject, st, k);
      NoOverflow(code, subject, st, k + 1, n, limit);
      r := if pc == GIVEUP then NoMatch else Position(pos);
    }
  }
}
