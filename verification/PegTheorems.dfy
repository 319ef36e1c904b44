/** Compiling and matching together: what `lpeg.match` answers for a pattern. */
module PegTheorems {
  import opened Charset
  import opened Peg
  import opened PegVm
  import opened PegCode
  import opened PegCodeProof
  import opened PegLayout
  import opened PegPeephole
  import opened PegCompiler
  import opened PegGrammar
  import opened PegJumps
  import opened PegMachine

  /** The machine started at `i` ends in state `h`. */
  ghost predicate EndsIn(code: Code, s: Subject, i: nat, h: State) {
    Halted(h) && exists k: nat :: Steps(code, s, Start(i), k) == h
  }

  lemma EndsInOne(code: Code, s: Subject, i: nat, h1: State, h2: State)
    requires EndsIn(code, s, i, h1) && EndsIn(code, s, i, h2)
    ensures h1 == h2
  {
    var k1: nat :| Steps(code, s, Start(i), k1) == h1;
    var k2: nat :| Steps(code, s, Start(i), k2) == h2;
    HaltUnique(code, s, Start(i), k1, k2);
  }

  /** Whenever the meaning of a pattern is known, the compiled code computes it. This needs
      no check of loops or of left recursion. */
  lemma CompiledComputes(t: Tree, n: nat, s: Subject, i: nat, m: nat)
    requires WellFormed([], t) && i <= |s| && !Match([], t, s, i, m).Unknown?
    ensures EndsIn(Compiled(t, n), s, i, Outcome(Match([], t, s, i, m)))
  {
    hide Gen, Match, WellFormed, Steps, Tidy, JumpsPadded, Peephole;
    var c := Gen([], t, false, NoTest, FullSet(), n);
    ProgramOk(t, n, s, i, m);
    var k: nat :| Steps(c + [IEnd], s, Start(i), k) == Outcome(Match([], t, s, i, m));
    assert JumpsPadded(c + [IEnd]) by {
      GenTidy([], t, false, NoTest, FullSet(), n);
      TidyOne(IEnd);
      TidyConcat(c, [IEnd]);
      TidyPadded(c + [IEnd]);
    }
    var _ := PeepholeOk(c + [IEnd], 0, s, i, k);
  }

  lemma TidyPadded(c: Code)
    requires Tidy(c)
    ensures JumpsPadded(c)
  {
    LaidPadded(c);
  }

  /** No chain of jumps in the code of an accepted pattern is a cycle, before `peephole`, while
      it runs (`PeepAtSettled`), and in the end. */
  lemma JumpsEnd(t: Tree, d: nat, n: nat)
    requires WellFormed([], t) && Closed(t, d)
    ensures AllSettle(Gen([], t, false, NoTest, FullSet(), n) + [IEnd]) && AllSettle(Compiled(t, n))
  {
    hide Gen, WellFormed, Closed, AllSettle, Peephole;
    CodeSettled(t, d, n);
    PeepholeSettled(Gen([], t, false, NoTest, FullSet(), n) + [IEnd], 0);
  }

  /** For every pattern the constructors accept, with rule numbers that fit a byte, on every
      subject and from every start: the compiled code ends at `j` exactly when the pattern
      matches up to `j`, gives up exactly when it fails, and always does one of them. */
  lemma CompiledCorrect(t: Tree, d: nat, n: nat, s: Subject, i: nat)
    requires WellFormed([], t) && Closed(t, d) && i <= |s|
    ensures forall j: nat :: EndsIn(Compiled(t, n), s, i, Matched(j)) <==> Matches([], t, s, i, j)
    ensures EndsIn(Compiled(t, n), s, i, GaveUp) <==> Fails([], t, s, i)
    ensures Fails([], t, s, i) || exists j: nat :: Matches([], t, s, i, j)
  {
    hide Match, WellFormed, Closed, Compiled, EndsIn;
    var m := AcceptedEnds(t, d, s, i);
    var r := Match([], t, s, i, m);
    CompiledComputes(t, n, s, i, m);
    forall h | EndsIn(Compiled(t, n), s, i, h)
      ensures h == Outcome(r)
    {
      EndsInOne(Compiled(t, n), s, i, h, Outcome(r));
    }
    forall k: nat | !Match([], t, s, i, k).Unknown?
      ensures Match([], t, s, i, k) == r
    {
      OutcomeUnique([], t, s, i, k, m);
    }
  }

  /** The rounds the machine needs. */
  lemma RoundsNeeded(t: Tree, d: nat, n: nat, s: Subject, i: nat) returns (k: nat)
    requires WellFormed([], t) && Closed(t, d) && i <= |s|
    ensures Halted(Steps(Compiled(t, n), s, Start(i), k))
  {
    hide Match, WellFormed, Closed, Compiled, Steps;
    var m := AcceptedEnds(t, d, s, i);
    CompiledComputes(t, n, s, i, m);
    k :| Steps(Compiled(t, n), s, Start(i), k) == Outcome(Match([], t, s, i, m));
  }

  /** `lpeg.match`, with the code compiled and the machine run: the answer is the meaning of
      the pattern, unless the backtrack stack overflows. */
  method MatchPattern(t: Tree, ghost d: nat, n: nat, s: Subject, i: nat, max: int) returns (r: Answer)
    requires WellFormed([], t) && Closed(t, d) && i <= |s|
    ensures r.Position? ==> Matches([], t, s, i, r.pos)
    ensures r.NoMatch? ==> Fails([], t, s, i)
    ensures r.StackOverflow? <==>
              exists k: nat :: StateDepth(Steps(Compiled(t, n), s, Start(i), k)) > Limit(max)
  {
    hide Match, WellFormed, Closed, Compiled, Steps;
    var compst := new CompileState();
    compst.Compile(t, n);
    var code := compst.code;
    ghost var k := RoundsNeeded(t, d, n, s, i);
    var machine := new Machine(code, s, i, max);
    r := machine.Match(k);
    assert r.StackOverflow? <==> Overflows(code, s, Start(i), k, Limit(max));
    OverflowsAtAll(code, s, Start(i), k, Limit(max));
    CompiledCorrect(t, d, n, s, i);
    assert EndsIn(code, s, i, Steps(code, s, Start(i), k));
  }

  lemma OverflowsAtAll(code: Code, s: Subject, st: State, k: nat, limit: nat)
    requires Halted(Steps(code, s, st, k))
    ensures Overflows(code, s, st, k, limit) <==> exists j: nat :: StateDepth(Steps(code, s, st, j)) > limit
  {
    if Overflows(code, s, st, k, limit) {
      var j: nat :| j < k && StateDepth(Steps(code, s, st, j)) > limit;
      assert exists j: nat :: StateDepth(Steps(code, s, st, j)) > limit;
    } else if exists j: nat :: StateDepth(Steps(code, s, st, j)) > limit {
      var j: nat :| StateDepth(Steps(code, s, st, j)) > limit;
      BeforeHalt(code, s, st, j, k);
    }
  }

  lemma BeforeHalt(code: Code, s: Subject, st: State, j: nat, k: nat)
    requires Halted(Steps(code, s, st, k)) && Steps(code, s, st, j).Run?
    ensures j < k
  {
    if k <= j {
      StepsAdd(code, s, st, k, j - k);
      HaltedStays(code, s, Steps(code, s, st, k), j - k);
    }
  }
}
