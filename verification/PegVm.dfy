/** Instructions and the opcode interpreter of skynet/3rd/lpeg/lpvm.c.

    Code is a sequence of slots: an instruction sits in its first slot, and the slots that
    the source uses for an offset or a charset are `Pad`. Offsets are relative to the slot
    of their instruction, as in the source. */
module PegVm {
  import opened Charset
  import opened Peg

  datatype Instr =
    | IAny
    | IChar(c: Byte)
    | ISet(cs: Charset)
    | ITestAny(off: int)
    | ITestChar(c: Byte, off: int)
    | ITestSet(cs: Charset, off: int)
    | ISpan(cs: Charset)
    | IBehind(n: nat)
    | IRet
    | IEnd
    | IChoice(off: int)
    | IJmp(off: int)
    | ICall(off: int)
    | IOpenCall(key: nat, off: int)
    | ICommit(off: int)
    | IPartialCommit(off: int)
    | IBackCommit(off: int)
    | IFailTwice
    | IFail
    | Pad

  type Code = seq<Instr>

  const CHARSETINSTSIZE := 9

  /** `sizei` */
  function SizeI(x: Instr): (size: nat)
    ensures size >= 1
  {
    match x
    case ISet(_) => CHARSETINSTSIZE
    case ISpan(_) => CHARSETINSTSIZE
    case ITestSet(_, _) => CHARSETINSTSIZE + 1
    case ITestChar(_, _) => 2
    case ITestAny(_) => 2
    case IChoice(_) => 2
    case IJmp(_) => 2
    case ICall(_) => 2
    case IOpenCall(_, _) => 2
    case ICommit(_) => 2
    case IPartialCommit(_) => 2
    case IBackCommit(_) => 2
    case _ => 1
  }

  /** An entry of the backtrack stack: a choice with its saved position, or a return
      address (the source marks it with a null position). */
  datatype Frame = Choice(pc: int, pos: nat) | Ret(pc: int)

  datatype Stack = Empty | Push(top: Frame, rest: Stack)

  /** `Stuck` stands for everything the source rules out by assertion. */
  datatype State = Run(pc: int, pos: nat, stack: Stack) | Matched(pos: nat) | GaveUp | Stuck

  /** The address of the `giveup` instruction, outside the code. */
  const GIVEUP := -1

  predicate Halted(st: State) {
    st.Matched? || st.GaveUp?
  }

  /** The code after label `fail`: drop pending calls and return to the last choice. */
  function Backtrack(stack: Stack): (st: State)
    ensures st.Run? || st.Stuck?
  {
    match stack
    case Empty => Stuck
    case Push(Ret(_), rest) => Backtrack(rest)
    case Push(Choice(pc, pos), rest) => Run(pc, pos, rest)
  }

  /** The first position from `i` on whose character is not in `cs`. */
  function SpanEnd(s: Subject, i: nat, cs: Charset): (j: nat)
    ensures i <= j
    decreases |s| - i
  {
    if i < |s| && s[i] in cs then SpanEnd(s, i + 1, cs) else i
  }

  predicate At(s: Subject, i: nat, cs: Charset) {
    i < |s| && s[i] in cs
  }

  /** What `match` does for instruction `x` at address `pc`. */
  function Exec(s: Subject, x: Instr, pc: int, i: nat, stack: Stack): State {
    match x
    case IEnd => if stack.Push? && stack.rest.Empty? then Matched(i) else Stuck
    case IRet => if stack.Push? && stack.top.Ret? then Run(stack.top.pc, i, stack.rest) else Stuck
    case IAny => if i < |s| then Run(pc + 1, i + 1, stack) else Backtrack(stack)
    case ITestAny(off) => if i < |s| then Run(pc + 2, i, stack) else Run(pc + off, i, stack)
    case IChar(c) => if i < |s| && s[i] == c then Run(pc + 1, i + 1, stack) else Backtrack(stack)
    case ITestChar(c, off) => if i < |s| && s[i] == c then Run(pc + 2, i, stack) else Run(pc + off, i, stack)
    case ISet(cs) => if At(s, i, cs) then Run(pc + CHARSETINSTSIZE, i + 1, stack) else Backtrack(stack)
    case ITestSet(cs, off) =>
      if At(s, i, cs) then Run(pc + 1 + CHARSETINSTSIZE, i, stack) else Run(pc + off, i, stack)
    case IBehind(n) => if n > i then Backtrack(stack) else Run(pc + 1, i - n, stack)
    case ISpan(cs) => Run(pc + CHARSETINSTSIZE, SpanEnd(s, i, cs), stack)
    case IJmp(off) => Run(pc + off, i, stack)
    case IChoice(off) => Run(pc + 2, i, Push(Choice(pc + off, i), stack))
    case ICall(off) => Run(pc + off, i, Push(Ret(pc + 2), stack))
    case ICommit(off) =>
      if stack.Push? && stack.top.Choice? then Run(pc + off, i, stack.rest) else Stuck
    case IPartialCommit(off) =>
      if stack.Push? && stack.top.Choice? then Run(pc + off, i, Push(Choice(stack.top.pc, i), stack.rest))
      else Stuck
    case IBackCommit(off) =>
      if stack.Push? && stack.top.Choice? then Run(pc + off, stack.top.pos, stack.rest) else Stuck
    case IFailTwice => if stack.Push? then Backtrack(stack.rest) else Stuck
    case IFail => Backtrack(stack)
    case IOpenCall(_, _) => Stuck
    case Pad => Stuck
  }

  /** One round of the loop of `match`. */
  function Step(code: Code, s: Subject, st: State): State {
    match st
    case Run(pc, i, stack) =>
      if pc == GIVEUP then (if stack.Empty? then GaveUp else Stuck)
      else if 0 <= pc < |code| then Exec(s, code[pc], pc, i, stack)
      else Stuck
    case _ => st
  }

  function Steps(code: Code, s: Subject, st: State, n: nat): State
    decreases n
  {
    if n == 0 then st else Steps(code, s, Step(code, s, st), n - 1)
  }

  /** The state in which `match` starts: one choice, whose instruction gives up. */
  function Start(i: nat): State {
    Run(0, i, Push(Choice(GIVEUP, i), Empty))
  }

  lemma {:induction false} StepsAdd(code: Code, s: Subject, st: State, m: nat, n: nat)
    ensures Steps(code, s, st, m + n) == Steps(code, s, Steps(code, s, st, m), n)
    decreases m
  {
    if m > 0 {
      StepsAdd(code, s, Step(code, s, st), m - 1, n);
    }
  }

  lemma {:induction false} HaltedStays(code: Code, s: Subject, st: State, n: nat)
    requires Halted(st)
    ensures Steps(code, s, st, n) == st
  {
    if n > 0 {
      HaltedStays(code, s, st, n - 1);
    }
  }

  lemma {:induction false} StuckStays(code: Code, s: Subject, n: nat)
    ensures Steps(code, s, Stuck, n) == Stuck
  {
    if n > 0 {
      StuckStays(code, s, n - 1);
    }
  }

  /** Two states that run into a common state. As the machine is deterministic this is an
      equivalence, and joining a halted state means reaching it. */
  ghost predicate Join(code: Code, s: Subject, a: State, b: State) {
    exists m: nat, n: nat :: Steps(code, s, a, m) == Steps(code, s, b, n)
  }

  lemma JoinRefl(code: Code, s: Subject, a: State)
    ensures Join(code, s, a, a)
  {
    assert Steps(code, s, a, 0) == Steps(code, s, a, 0);
  }

  lemma JoinSym(code: Code, s: Subject, a: State, b: State)
    requires Join(code, s, a, b)
    ensures Join(code, s, b, a)
  {
    var m: nat, n: nat :| Steps(code, s, a, m) == Steps(code, s, b, n);
    assert Steps(code, s, b, n) == Steps(code, s, a, m);
  }

  lemma JoinTrans(code: Code, s: Subject, a: State, b: State, c: State)
    requires Join(code, s, a, b) && Join(code, s, b, c)
    ensures Join(code, s, a, c)
  {
    var m1: nat, n1: nat :| Steps(code, s, a, m1) == Steps(code, s, b, n1);
    var m2: nat, n2: nat :| Steps(code, s, b, m2) == Steps(code, s, c, n2);
    if n1 <= m2 {
      StepsAdd(code, s, a, m1, m2 - n1);
      StepsAdd(code, s, b, n1, m2 - n1);
      assert Steps(code, s, a, m1 + (m2 - n1)) == Steps(code, s, c, n2);
    } else {
      StepsAdd(code, s, c, n2, n1 - m2);
      StepsAdd(code, s, b, m2, n1 - m2);
      assert Steps(code, s, a, m1) == Steps(code, s, c, n2 + (n1 - m2));
    }
  }

  /** A state joins its successor. */
  lemma JoinStep(code: Code, s: Subject, a: State)
    ensures Join(code, s, a, Step(code, s, a))
  {
    assert Steps(code, s, a, 1) == Steps(code, s, Step(code, s, a), 0);
  }

  /** If the successor of `a` joins `c`, so does `a`. */
  lemma JoinFrom(code: Code, s: Subject, a: State, c: State)
    requires Join(code, s, Step(code, s, a), c)
    ensures Join(code, s, a, c)
  {
    JoinStep(code, s, a);
    JoinTrans(code, s, a, Step(code, s, a), c);
  }

  /** If `a` joins `b`, it joins the successor of `b`. */
  lemma JoinTo(code: Code, s: Subject, a: State, b: State)
    requires Join(code, s, a, b)
    ensures Join(code, s, a, Step(code, s, b))
  {
    JoinStep(code, s, b);
    JoinTrans(code, s, a, b, Step(code, s, b));
  }

  lemma JoinHalted(code: Code, s: Subject, a: State, h: State)
    requires Join(code, s, a, h) && Halted(h)
    ensures exists n: nat :: Steps(code, s, a, n) == h
  {
    var m: nat, n: nat :| Steps(code, s, a, m) == Steps(code, s, h, n);
    HaltedStays(code, s, h, n);
  }

  /** Two halted states reached from one state are the same. */
  lemma HaltUnique(code: Code, s: Subject, a: State, m: nat, n: nat)
    requires Halted(Steps(code, s, a, m)) && Halted(Steps(code, s, a, n))
    ensures Steps(code, s, a, m) == Steps(code, s, a, n)
  {
    StepsAdd(code, s, a, m, n);
    StepsAdd(code, s, a, n, m);
    assert m + n == n + m;
    HaltedStays(code, s, Steps(code, s, a, m), n);
    HaltedStays(code, s, Steps(code, s, a, n), m);
  }
}
