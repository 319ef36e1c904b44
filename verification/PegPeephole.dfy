/** `peephole` of skynet/3rd/lpeg/lpcode.c keeps the outcome of every run. */
module PegPeephole {
  import opened Peg
  import opened PegVm
  import opened PegCode

  /** Instructions whose label is replaced by its final destination. */
  predicate HasLabel(x: Instr) {
    x.IChoice? || x.ICall? || x.ICommit? || x.IPartialCommit? || x.IBackCommit?
    || x.ITestChar? || x.ITestSet? || x.ITestAny?
  }

  /** Instructions with an unconditional explicit jump. */
  predicate IsCommit(x: Instr) {
    x.ICommit? || x.IPartialCommit? || x.IBackCommit?
  }

  /** Instructions with an unconditional implicit jump. */
  predicate EndsBlock(x: Instr) {
    x.IRet? || x.IFail? || x.IFailTwice? || x.IEnd?
  }

  function WithOffset(x: Instr, off: int): (r: Instr)
    requires HasLabel(x)
    ensures HasLabel(r) && SizeI(r) == SizeI(x)
  {
    match x
    case IChoice(_) => IChoice(off)
    case ICall(_) => ICall(off)
    case ICommit(_) => ICommit(off)
    case IPartialCommit(_) => IPartialCommit(off)
    case IBackCommit(_) => IBackCommit(off)
    case ITestChar(c, _) => ITestChar(c, off)
    case ITestSet(cs, _) => ITestSet(cs, off)
    case ITestAny(_) => ITestAny(off)
  }

  /** `finallabel` */
  function FinalLabel(code: Code, i: nat): int
    requires i < |code| && HasLabel(code[i])
  {
    FinalTarget(code, i + code[i].off, |code|)
  }

  function Relabel(code: Code, i: nat): (r: Code)
    requires i < |code| && HasLabel(code[i])
    ensures |r| == |code|
  {
    code[i := WithOffset(code[i], FinalLabel(code, i) - i)]
  }

  /** One round of the loop of `peephole`, at instruction `i`. */
  function PeepAt(code: Code, i: nat): (r: Code)
    requires i < |code|
    ensures |r| == |code|
  {
    if HasLabel(code[i]) then Relabel(code, i)
    else if code[i].IJmp? then
      var ft := FinalTarget(code, i, |code|);
      if 0 <= ft < |code| && EndsBlock(code[ft]) then
        var copied := code[i := code[ft]];
        if i + 1 < |code| then copied[i + 1 := IAny] else copied
      else if 0 <= ft < |code| && IsCommit(code[ft]) then
        Relabel(code[i := WithOffset(code[ft], FinalLabel(code, ft) - i)], i)
      else code[i := IJmp(ft - i)]
    else code
  }

  function Peephole(code: Code, i: nat): (r: Code)
    ensures |r| == |code|
    decreases |code| - i
  {
    if i >= |code| then code
    else
      var next := PeepAt(code, i);
      Peephole(next, i + SizeI(next[i]))
  }

  // ---- jump chains ------------------------------------------------------------------

  /** Following jumps from `a` passes `b`. */
  ghost predicate Chain(code: Code, a: int, b: int) {
    exists k: nat :: FinalTarget(code, a, k) == b
  }

  lemma ChainRefl(code: Code, a: int)
    ensures Chain(code, a, a)
  {
    assert FinalTarget(code, a, 0) == a;
  }

  lemma {:induction false} FinalTargetAdd(code: Code, a: int, j: nat, k: nat)
    ensures FinalTarget(code, a, j + k) == FinalTarget(code, FinalTarget(code, a, j), k)
    decreases j
  {
    if 0 <= a < |code| && code[a].IJmp? {
      if j > 0 {
        FinalTargetAdd(code, a + code[a].off, j - 1, k);
      }
    } else {
      assert FinalTarget(code, a, j) == a && FinalTarget(code, a, j + k) == a;
    }
  }

  lemma ChainNext(code: Code, a: int, b: int)
    requires Chain(code, a, b) && a != b
    ensures 0 <= a < |code| && code[a].IJmp? && Chain(code, a + code[a].off, b)
  {
    var k: nat :| FinalTarget(code, a, k) == b;
    assert k > 0 && FinalTarget(code, a + code[a].off, k - 1) == b;
  }

  /** The machine runs along a jump chain. */
  lemma {:induction false} ChainSteps(code: Code, s: Subject, a: int, pos: nat, st: Stack, k: nat) returns (n: nat)
    ensures Steps(code, s, Run(a, pos, st), n) == Run(FinalTarget(code, a, k), pos, st)
    decreases k
  {
    n := 0;
    if k > 0 && 0 <= a < |code| && code[a].IJmp? {
      var n' := ChainSteps(code, s, a + code[a].off, pos, st, k - 1);
      assert Step(code, s, Run(a, pos, st)) == Run(a + code[a].off, pos, st);
      n := n' + 1;
    }
  }

  // ---- the simulation ---------------------------------------------------------------

  ghost predicate FrameRel(code: Code, f: Frame, f': Frame) {
    Chain(code, f.pc, f'.pc)
    && (f.Choice? <==> f'.Choice?)
    && (f.Choice? ==> f'.pos == f.pos)
  }

  /** The stacks hold the same entries, up to jumps already taken. */
  ghost predicate StackRel(code: Code, st: Stack, st': Stack) {
    match st
    case Empty => st'.Empty?
    case Push(f, rest) => st'.Push? && FrameRel(code, f, st'.top) && StackRel(code, rest, st'.rest)
  }

  ghost predicate StateRel(code: Code, a: State, b: State) {
    match a
    case Run(pc, pos, st) => b.Run? && b.pos == pos && Chain(code, pc, b.pc) && StackRel(code, st, b.stack)
    case _ => a == b
  }

  lemma {:induction false} BacktrackRel(code: Code, st: Stack, st': Stack)
    requires StackRel(code, st, st')
    ensures StateRel(code, Backtrack(st), Backtrack(st'))
  {
    match st
    case Empty =>
    case Push(Ret(_), rest) => BacktrackRel(code, rest, st'.rest);
    case Push(Choice(_, _), rest) =>
  }

  lemma {:induction false} StackRelRefl(code: Code, st: Stack)
    ensures StackRel(code, st, st)
  {
    match st
    case Empty =>
    case Push(f, rest) =>
      ChainRefl(code, f.pc);
      StackRelRefl(code, rest);
  }

  /** The same instruction at the same address keeps the states related. */
  lemma ExecSame(code: Code, s: Subject, x: Instr, pc: int, pos: nat, st: Stack, st': Stack)
    requires StackRel(code, st, st')
    ensures StateRel(code, Exec(s, x, pc, pos, st), Exec(s, x, pc, pos, st'))
  {
    hide Chain;
    BacktrackRel(code, st, st');
    if st.Push? {
      BacktrackRel(code, st.rest, st'.rest);
    }
    var a, b := Exec(s, x, pc, pos, st), Exec(s, x, pc, pos, st');
    if a.Run? && b.Run? {
      ChainRefl(code, b.pc);
      ChainRefl(code, pc + 2);
      if x.IChoice? {
        ChainRefl(code, pc + x.off);
      }
    }
  }

  /** The same instruction with a label further down the jump chain. At another address this
      is right for instructions that never fall through. */
  lemma ExecRelabelled(code: Code, s: Subject, x: Instr, pc: int, x': Instr, pc': int, pos: nat, st: Stack, st': Stack)
    requires HasLabel(x) && HasLabel(x') && x' == WithOffset(x, x'.off)
    requires pc == pc' || IsCommit(x)
    requires Chain(code, pc + x.off, pc' + x'.off)
    requires StackRel(code, st, st')
    ensures StateRel(code, Exec(s, x, pc, pos, st), Exec(s, x', pc', pos, st'))
  {
    hide Chain;
    BacktrackRel(code, st, st');
    ChainRefl(code, pc + 2);
    ChainRefl(code, pc + 1 + CHARSETINSTSIZE);
  }

  /** `b` is `a` with the instruction at `i` replaced by one that acts like `a[ft]`, which
      jumps lead to from `i`; the operand slot of a replaced jump may be lost. */
  ghost predicate Acts(a: Code, b: Code, i: nat, ft: nat) {
    |a| == |b| && i < |a| && ft < |a|
    && Chain(a, i, ft) && !a[ft].IJmp?
    && (forall j {:trigger a[j]} {:trigger b[j]} :: 0 <= j < |a| && j != i ==> b[j] == a[j] || (j == i + 1 && a[j].Pad?))
    && (|| (EndsBlock(a[ft]) && b[i] == a[ft])
        || (&& HasLabel(a[ft]) && HasLabel(b[i]) && b[i] == WithOffset(a[ft], b[i].off)
            && (i == ft || IsCommit(a[ft]))
            && Chain(a, ft + a[ft].off, i + b[i].off)))
  }

  /** `b` is `a` with the jump at `i` shortened. */
  ghost predicate Shortens(a: Code, b: Code, i: nat) {
    |a| == |b| && i < |a| && a[i].IJmp? && b[i].IJmp?
    && Chain(a, i + a[i].off, i + b[i].off)
    && forall j {:trigger a[j]} {:trigger b[j]} :: 0 <= j < |a| && j != i ==> b[j] == a[j]
  }

  /** Where `a` takes the instruction at `ft` after some jumps, `b` acts at once. */
  lemma ActsStep(a: Code, b: Code, i: nat, ft: nat, s: Subject, pos: nat, st: Stack, st': Stack, n: nat) returns (k: nat)
    requires Acts(a, b, i, ft) && StackRel(a, st, st')
    requires Halted(Steps(a, s, Run(i, pos, st), n))
    ensures k < n
    ensures StateRel(a, Steps(a, s, Run(i, pos, st), k + 1), Step(b, s, Run(i, pos, st')))
  {
    var j: nat :| FinalTarget(a, i, j) == ft;
    var st0, at := Run(i, pos, st), Run(ft, pos, st);
    k := ChainSteps(a, s, i, pos, st, j);
    if n <= k {
      StepsAdd(a, s, st0, n, k - n);
      HaltedStays(a, s, Steps(a, s, st0, n), k - n);
      assert false;
    }
    StepsAdd(a, s, st0, k, 1);
    assert Steps(a, s, at, 1) == Steps(a, s, Step(a, s, at), 0) == Step(a, s, at);
    if EndsBlock(a[ft]) && b[i] == a[ft] {
      EndsBlockRel(a, s, a[ft], ft, i, pos, st, st');
    } else {
      ExecRelabelled(a, s, a[ft], ft, b[i], i, pos, st, st');
    }
  }

  lemma EndsBlockRel(code: Code, s: Subject, x: Instr, pc: int, pc': int, pos: nat, st: Stack, st': Stack)
    requires EndsBlock(x) && StackRel(code, st, st')
    ensures StateRel(code, Exec(s, x, pc, pos, st), Exec(s, x, pc', pos, st'))
  {
    BacktrackRel(code, st, st');
    if st.Push? {
      BacktrackRel(code, st.rest, st'.rest);
    }
  }

  ghost predicate Rewrites(a: Code, b: Code, i: nat) {
    Shortens(a, b, i) || exists ft: nat :: Acts(a, b, i, ft)
  }

  lemma {:induction false} Simulates(a: Code, b: Code, i: nat, s: Subject, x: State, y: State, n: nat) returns (m: nat)
    requires Rewrites(a, b, i) && StateRel(a, x, y) && Halted(Steps(a, s, x, n))
    ensures Steps(b, s, y, m) == Steps(a, s, x, n)
    decreases n
  {
    if Halted(x) {
      HaltedStays(a, s, x, n);
      m := 0;
      return;
    }
    if x.Stuck? {
      StuckStays(a, s, n);
      assert false;
    } else {
      var Run(pc, pos, st) := x;
      if pc != y.pc {
        ChainNext(a, pc, y.pc);
        m := Simulates(a, b, i, s, Step(a, s, x), y, n - 1);
      } else if pc == i && !Shortens(a, b, i) {
        var ft: nat :| Acts(a, b, i, ft);
        var k := ActsStep(a, b, i, ft, s, pos, st, y.stack, n);
        StepsAdd(a, s, x, k + 1, n - k - 1);
        m := Simulates(a, b, i, s, Steps(a, s, x, k + 1), Step(b, s, y), n - k - 1);
        m := m + 1;
      } else {
        SameStep(a, b, i, s, x, y, n);
        m := Simulates(a, b, i, s, Step(a, s, x), Step(b, s, y), n - 1);
        m := m + 1;
      }
    }
  }

  /** Away from the rewritten instruction, and at a shortened jump, both codes take one step. */
  lemma SameStep(a: Code, b: Code, i: nat, s: Subject, x: State, y: State, n: nat)
    requires Rewrites(a, b, i) && StateRel(a, x, y) && x.Run? && x.pc == y.pc
    requires x.pc == i ==> Shortens(a, b, i)
    requires n > 0 && Halted(Steps(a, s, x, n))
    ensures StateRel(a, Step(a, s, x), Step(b, s, y))
  {
    var Run(pc, pos, st) := x;
    if 0 <= pc < |a| {
      if pc == i {
      } else if b[pc] == a[pc] {
        ExecSame(a, s, a[pc], pc, pos, st, y.stack);
      } else {
        assert a[pc].Pad?;
        StuckStays(a, s, n - 1);
        assert false;
      }
    }
  }

  /** A rewrite keeps the outcome of every run that ends. */
  lemma RewriteOk(a: Code, b: Code, i: nat, s: Subject, p: nat, n: nat) returns (m: nat)
    requires Rewrites(a, b, i) && Halted(Steps(a, s, Start(p), n))
    ensures Steps(b, s, Start(p), m) == Steps(a, s, Start(p), n)
  {
    ChainRefl(a, 0);
    StackRelRefl(a, Start(p).stack);
    m := Simulates(a, b, i, s, Start(p), Start(p), n);
  }

  /** Every jump has its operand slot. */
  predicate JumpsPadded(code: Code) {
    forall j :: 0 <= j < |code| && code[j].IJmp? ==> j + 1 < |code| && code[j + 1].Pad?
  }

  lemma RelabelActs(code: Code, i: nat)
    requires i < |code| && HasLabel(code[i])
    ensures Rewrites(code, Relabel(code, i), i)
  {
    ChainRefl(code, i);
    assert FinalTarget(code, i + code[i].off, |code|) == i + Relabel(code, i)[i].off;
    assert Acts(code, Relabel(code, i), i, i);
  }

  lemma {:induction false} PeepAtOk(code: Code, i: nat, s: Subject, p: nat, n: nat) returns (m: nat)
    requires i < |code| && JumpsPadded(code) && Halted(Steps(code, s, Start(p), n))
    ensures Steps(PeepAt(code, i), s, Start(p), m) == Steps(code, s, Start(p), n)
  {
    hide Steps, FinalTarget;
    if HasLabel(code[i]) {
      RelabelActs(code, i);
      m := RewriteOk(code, PeepAt(code, i), i, s, p, n);
    } else if code[i].IJmp? {
      var ft := FinalTarget(code, i, |code|);
      assert Chain(code, i, ft);
      if 0 <= ft < |code| && EndsBlock(code[ft]) {
        assert Acts(code, PeepAt(code, i), i, ft);
        m := RewriteOk(code, PeepAt(code, i), i, s, p, n);
      } else if 0 <= ft < |code| && IsCommit(code[ft]) {
        var mid := code[i := WithOffset(code[ft], FinalLabel(code, ft) - i)];
        assert Chain(code, ft + code[ft].off, FinalLabel(code, ft));
        assert Acts(code, mid, i, ft);
        var k := RewriteOk(code, mid, i, s, p, n);
        RelabelActs(mid, i);
        m := RewriteOk(mid, PeepAt(code, i), i, s, p, k);
      } else {
        ShortenJump(code, i);
        m := RewriteOk(code, PeepAt(code, i), i, s, p, n);
      }
    } else {
      m := n;
    }
  }

  lemma ShortenJump(code: Code, i: nat)
    requires i < |code| && code[i].IJmp?
    ensures Rewrites(code, code[i := IJmp(FinalTarget(code, i, |code|) - i)], i)
  {
    var ft := FinalTarget(code, i, |code|);
    assert FinalTarget(code, i + code[i].off, |code| - 1) == ft;
    assert Shortens(code, code[i := IJmp(ft - i)], i);
  }

  lemma PeepAtPadded(code: Code, i: nat)
    requires i < |code| && JumpsPadded(code)
    ensures JumpsPadded(PeepAt(code, i))
  {
  }

  /** `peephole` keeps the outcome of every run that ends. */
  lemma {:induction false} PeepholeOk(code: Code, i: nat, s: Subject, p: nat, n: nat) returns (m: nat)
    requires JumpsPadded(code) && Halted(Steps(code, s, Start(p), n))
    ensures Steps(Peephole(code, i), s, Start(p), m) == Steps(code, s, Start(p), n)
    decreases |code| - i
  {
    hide Steps, PeepAt, JumpsPadded;
    if i >= |code| {
      m := n;
    } else {
      var next := PeepAt(code, i);
      var k := PeepAtOk(code, i, s, p, n);
      PeepAtPadded(code, i);
      m := PeepholeOk(next, i + SizeI(next[i]), s, p, k);
    }
  }
}
