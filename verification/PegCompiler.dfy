/** `compile` of skynet/3rd/lpeg/lpcode.c in the form of the source: instructions are
    appended to `code`, and offsets are patched when the target is known. Every method is
    proved to append the block that PegCode.dfy gives for its pattern. */
module PegCompiler {
  import opened Charset
  import opened Peg
  import opened PegAnalysis
  import opened PegVm
  import opened PegCode
  import opened PegLink
  import opened PegPeephole
  import opened PegLayout
  import opened PegPatch

  const NOINST := -1

  /** The whole of `compile`, as a function. */
  function Compiled(t: Tree, n: nat): Code {
    Peephole(Gen([], t, false, NoTest, FullSet(), n) + [IEnd], 0)
  }

  /** What the instruction at `tt` says about the character after it. */
  function TestAt(code: Code, tt: int): Test {
    if !(0 <= tt < |code|) then NoTest
    else
      match code[tt]
      case ITestAny(_) => TestAny
      case ITestChar(c, _) => TestChar(c)
      case ITestSet(cs, _) => TestSet(cs)
      case IJmp(_) => TestNever
      case _ => NoTest
  }

  /** A call is resolved the same way in the block of the rules and in all of the code. */
  lemma SameTailCall(code: Code, blk: Code, from: nat, i: nat)
    requires from + |blk| == |code| && code[from..] == blk
    requires JumpsInside(blk) && i <= |blk|
    ensures IsRet(code, FinalTarget(code, from + i, |code|)) == IsRet(blk, FinalTarget(blk, i, |blk|))
  {
    ShiftedTarget(code, blk, from, i, |code|);
    var f := FinalTarget(blk, i, |code|);
    if IsRet(blk, f) {
      FinalTargetExact(blk, i, |code|, |blk|);
    }
    if IsRet(blk, FinalTarget(blk, i, |blk|)) {
      FinalTargetExact(blk, i, |blk|, |code|);
    }
  }

  lemma {:induction false} ShiftedTarget(code: Code, blk: Code, from: nat, i: nat, k: nat)
    requires from + |blk| == |code| && code[from..] == blk
    requires JumpsInside(blk) && i <= |blk|
    ensures FinalTarget(code, from + i, k) == from + FinalTarget(blk, i, k)
    ensures 0 <= FinalTarget(blk, i, k) <= |blk|
    decreases k
  {
    if k > 0 && i < |blk| && blk[i].IJmp? {
      assert code[from + i] == blk[i];
      ShiftedTarget(code, blk, from, i + blk[i].off, k - 1);
    }
  }

  function Relative(positions: seq<nat>, from: nat): seq<int> {
    seq(|positions|, k requires 0 <= k < |positions| => positions[k] - from)
  }

  /** Slots that hold operands are not calls. */
  lemma {:induction false} CorrectSkips(code: Code, positions: seq<int>, i: nat, j: nat)
    requires i <= j <= |code| && forall k :: i <= k < j ==> code[k].Pad?
    ensures CorrectFrom(code, positions, i) == CorrectFrom(code, positions, j)
    decreases j - i
  {
    if i < j {
      CorrectSkips(code, positions, i + 1, j);
    }
  }

  class CompileState {
    /** `p->code`, up to `ncode` */
    var code: Code

    constructor ()
      ensures code == []
    {
      code := [];
    }

    method AddInstruction(x: Instr) returns (i: nat)
      modifies this
      ensures code == old(code) + [x] && i == |old(code)|
    {
      i := |code|;
      code := code + [x];
    }

    /** An instruction and space for its offset. */
    method AddOffsetInst(x: Instr) returns (i: nat)
      modifies this
      ensures code == old(code) + [x, Pad] && i == |old(code)|
      ensures SizeI(x) == 2 ==> code == old(code) + Ins(x)
    {
      i := AddInstruction(x);
      var _ := AddInstruction(Pad);
      assert SizeI(x) == 2 ==> Ins(x) == [x, Pad];
    }

    /** Space for the charset of the last instruction. */
    method AddCharset()
      modifies this
      ensures code == old(code) + Pads(CHARSETINSTSIZE - 1)
    {
      for i := 0 to CHARSETINSTSIZE - 1
        invariant code == old(code) + Pads(i)
      {
        var _ := AddInstruction(Pad);
      }
    }

    method JumpToThere(instruction: int, target: int)
      requires instruction < |code|
      requires instruction >= 0 ==> HasTarget(code[instruction])
      modifies this
      ensures code == Patched(old(code), instruction, target)
    {
      if instruction >= 0 {
        code := code[instruction := SetTarget(code[instruction], target - instruction)];
      }
    }

    method JumpToHere(instruction: int)
      requires instruction < |code|
      requires instruction >= 0 ==> HasTarget(code[instruction])
      modifies this
      ensures code == Patched(old(code), instruction, |old(code)|)
    {
      JumpToThere(instruction, |code|);
    }

    method EmitChar(c: Byte, tt: int)
      requires tt < |code|
      modifies this
      ensures code == old(code) + CodeChar(c, TestAt(old(code), tt))
    {
      if tt >= 0 && code[tt].ITestChar? && code[tt].c == c {
        var _ := AddInstruction(IAny);
      } else {
        var _ := AddInstruction(IChar(c));
      }
    }

    method EmitCharset(cs: Charset, tt: int)
      requires tt < |code|
      modifies this
      ensures code == old(code) + CodeCharset(cs, TestAt(old(code), tt))
    {
      match KindOf(cs)
      case Singleton(c) => EmitChar(c, tt);
      case General =>
        if tt >= 0 && code[tt].ITestSet? && code[tt].cs == cs {
          var _ := AddInstruction(IAny);
        } else {
          var _ := AddInstruction(ISet(cs));
          AddCharset();
        }
      case EmptySet => var _ := AddInstruction(IFail);
      case Full => var _ := AddInstruction(IAny);
    }

    /** `codetestset` */
    method EmitTestSet(f: First) returns (i: int)
      modifies this
      ensures code == old(code) + OptTest(f, 0)
      ensures i == if f.empty then NOINST else |old(code)|
      ensures TestAt(code, i) == if f.empty then NoTest else TestOf(f.cs)
    {
      if f.empty {
        i := NOINST;
      } else {
        match KindOf(f.cs)
        case EmptySet => i := AddOffsetInst(IJmp(0));
        case Full => i := AddOffsetInst(ITestAny(0));
        case Singleton(c) => i := AddOffsetInst(ITestChar(c, 0));
        case General =>
          i := AddOffsetInst(ITestSet(f.cs, 0));
          AddCharset();
      }
    }

    /** The branch of `codechoice` for patterns that a test decides. */
    method EmitTestChoice(g: seq<Tree>, p1: Tree, p2: Tree, cs: Charset, opt: bool, fl: Charset, n: nat)
      modifies this
      ensures code == old(code) + TestChoice(cs, Gen(g, p1, false, TestOf(cs), fl, n), p2.TTrue?,
                                             Gen(g, p2, opt, NoTest, fl, n))
      decreases TChoice(p1, p2), 0
    {
      hide Gen, Patched, TestInstr, TestChoice;
      ghost var base := code;
      ghost var c1, c2 := Gen(g, p1, false, TestOf(cs), fl, n), Gen(g, p2, opt, NoTest, fl, n);
      var jmp := EmitTestedFirst(g, p1, p2.TTrue?, cs, fl, n);
      EmitCode(g, p2, opt, NOINST, fl, n);
      if p2.TTrue? {
        TestChoiceAssembled(base, cs, c1, true, c2);
        Assoc(base + Ins(TestInstr(cs, TestSize(cs) + |c1|)) + c1, [], c2);
        NothingPatched(code);
      } else {
        TestChoicePatched(base, cs, c1, c2);
      }
      JumpToHere(jmp);
    }

    /** The first part of `TestChoice`, with the target of the jump still open. */
    method EmitTestedFirst(g: seq<Tree>, p1: Tree, emptyp2: bool, cs: Charset, fl: Charset, n: nat)
      returns (jmp: int)
      modifies this
      ensures var c1 := Gen(g, p1, false, TestOf(cs), fl, n);
              var j := if emptyp2 then [] else Ins(IJmp(0));
              && code == old(code) + Ins(TestInstr(cs, TestSize(cs) + |c1| + |j|)) + c1 + j
              && jmp == if emptyp2 then NOINST else |old(code)| + TestSize(cs) + |c1|
      decreases p1, 3
    {
      hide Gen, Patched, TestInstr;
      ghost var base, f, c1 := code, First(cs, false), Gen(g, p1, false, TestOf(cs), fl, n);
      ghost var j := if emptyp2 then [] else Ins(IJmp(0));
      var test := EmitTestSet(First(cs, false));
      EmitCode(g, p1, false, test, fl, n);
      jmp := NOINST;
      if !emptyp2 {
        jmp := AddOffsetInst(IJmp(0));
      }
      assert code == base + OptTest(f, 0) + c1 + j;
      Assoc(base + OptTest(f, 0), c1, j);
      PatchedTest(base, f, c1 + j);
      JumpToHere(test);
      Assoc(base + Ins(TestInstr(cs, TestSize(cs) + |c1| + |j|)), c1, j);
    }

    /** The first part of `FullChoice` behind its test, with the target of the commit still open. */
    method EmitGuardedFirst(g: seq<Tree>, p1: Tree, opt1: bool, test: int, n: nat) returns (pcommit: int)
      requires test < |code|
      modifies this
      ensures var c1 := Gen(g, p1, opt1, TestAt(old(code), test), FullSet(), n);
              && code == old(code) + (Ins(IChoice(2 + |c1| + 2)) + (c1 + Ins(ICommit(0))))
              && pcommit == |old(code)| + 2 + |c1|
      decreases p1, 3
    {
      hide Gen, Patched;
      ghost var base, c1 := code, Gen(g, p1, opt1, TestAt(code, test), FullSet(), n);
      var pchoice := AddOffsetInst(IChoice(0));
      EmitCode(g, p1, opt1, test, FullSet(), n);
      pcommit := AddOffsetInst(ICommit(0));
      Assoc(base + Ins(IChoice(0)), c1, Ins(ICommit(0)));
      PatchedAt(base, IChoice(0), c1 + Ins(ICommit(0)), |code|);
      JumpToHere(pchoice);
      Assoc(base, Ins(IChoice(2 + |c1| + 2)), c1 + Ins(ICommit(0)));
    }

    /** The general branch of `codechoice`. */
    method EmitFullChoice(g: seq<Tree>, p1: Tree, p2: Tree, f: First, opt: bool, fl: Charset, n: nat)
      modifies this
      ensures code == old(code) + FullChoice(f,
                Gen(g, p1, p2.TTrue?, if f.empty then NoTest else TestOf(f.cs), FullSet(), n),
                Gen(g, p2, opt, NoTest, fl, n))
      decreases TChoice(p1, p2), 0
    {
      hide Gen, Patched, OptTest, FullChoice;
      ghost var base := code;
      ghost var c1 := Gen(g, p1, p2.TTrue?, if f.empty then NoTest else TestOf(f.cs), FullSet(), n);
      ghost var c2 := Gen(g, p2, opt, NoTest, fl, n);
      ghost var body := Ins(IChoice(2 + |c1| + 2)) + (c1 + Ins(ICommit(0)));
      var test := EmitTestSet(f);
      var pcommit := EmitGuardedFirst(g, p1, p2.TTrue?, test, n);
      PatchedTest(base, f, body);
      JumpToHere(test);
      assert code == base + OptTest(f, OptTestSize(f) + |body|) + body;
      EmitCode(g, p2, opt, NOINST, fl, n);
      FullChoicePatched(base, f, c1, c2);
      JumpToHere(pcommit);
    }

    /** `codechoice` */
    method EmitChoice(g: seq<Tree>, p1: Tree, p2: Tree, opt: bool, fl: Charset, n: nat)
      modifies this
      ensures code == old(code) + Gen(g, TChoice(p1, p2), opt, NoTest, fl, n)
      decreases TChoice(p1, p2), 1
    {
      hide Gen, GetFirst, HeadFail, CheckAux, FixedLenX, Patched, FullChoice, TestChoice;
      GenChoice(g, p1, p2, opt, NoTest, fl, n);
      ghost var base := code;
      var f1 := GetFirst(g, p1, FullSet(), n);
      if HeadFail(g, p1, n) || (!f1.empty && f1.cs !! GetFirst(g, p2, fl, n).cs) {
        EmitTestChoice(g, p1, p2, f1.cs, opt, fl, n);
      } else if opt && p2.TTrue? {
        EmitPartialCommit();
        EmitCode(g, p1, true, NOINST, FullSet(), n);
        Assoc(base, Ins(IPartialCommit(2)), Gen(g, p1, true, NoTest, FullSet(), n));
      } else {
        EmitFullChoice(g, p1, p2, f1, opt, fl, n);
      }
    }

    /** The branch of `coderep` for loops that a test decides. */
    method EmitTestRep(g: seq<Tree>, p: Tree, cs: Charset, n: nat)
      modifies this
      ensures code == old(code) + TestRep(cs, Gen(g, p, false, TestOf(cs), FullSet(), n))
      decreases TRep(p), 0
    {
      hide Gen, GetFirst, HeadFail, CheckAux, FixedLenX, Patched, TestInstr, TestRep;
      ghost var base, f := code, First(cs, false);
      ghost var c := Gen(g, p, false, TestOf(cs), FullSet(), n);
      var test := EmitTestSet(First(cs, false));
      EmitCode(g, p, false, test, FullSet(), n);
      var jmp := AddOffsetInst(IJmp(0));
      Assoc(base + OptTest(f, 0), c, Ins(IJmp(0)));
      PatchedTest(base, f, c + Ins(IJmp(0)));
      JumpToHere(test);
      assert code == base + OptTest(f, TestSize(cs) + |c| + 2) + (c + Ins(IJmp(0)));
      TestRepPatched(base, cs, c);
      JumpToThere(jmp, test);
    }

    /** The part of `FullRep` behind its test. */
    method EmitLoop(g: seq<Tree>, p: Tree, opt: bool, n: nat)
      modifies this
      ensures var c := Gen(g, p, false, NoTest, FullSet(), n);
              code == old(code) + (Ins(if opt then IPartialCommit(2) else IChoice(2 + |c| + 2))
                                   + (c + Ins(IPartialCommit(-|c|))))
      decreases p, 3
    {
      hide Gen, Patched;
      ghost var base, c := code, Gen(g, p, false, NoTest, FullSet(), n);
      ghost var loop := c + Ins(IPartialCommit(-|c|));
      ghost var enter0 := if opt then IPartialCommit(2) else IChoice(0);
      ghost var enter := if opt then IPartialCommit(2) else IChoice(2 + |c| + 2);
      var pchoice := NOINST;
      if opt {
        EmitPartialCommit();
      } else {
        pchoice := AddOffsetInst(IChoice(0));
      }
      var l2 := |code|;
      EmitCode(g, p, false, NOINST, FullSet(), n);
      var commit := AddOffsetInst(IPartialCommit(0));
      LoopPatched(base + Ins(enter0), c);
      JumpToThere(commit, l2);
      assert code == base + Ins(enter0) + loop;
      PatchedAt(base, enter0, loop, |code|);
      NothingPatched(code);
      JumpToHere(pchoice);
      Assoc(base, Ins(enter), loop);
    }

    /** A partial commit that leads to the next instruction. */
    method EmitPartialCommit()
      modifies this
      ensures code == old(code) + Ins(IPartialCommit(2))
    {
      hide Patched;
      ghost var base := code;
      var i := AddOffsetInst(IPartialCommit(0));
      PatchedAt(base, IPartialCommit(0), [], |code|);
      assert code == base + Ins(IPartialCommit(0)) + [];
      JumpToHere(i);
    }

    /** The general branch of `coderep`. */
    method EmitFullRep(g: seq<Tree>, p: Tree, f: First, opt: bool, n: nat)
      modifies this
      ensures code == old(code) + FullRep(f, opt, Gen(g, p, false, NoTest, FullSet(), n))
      decreases TRep(p), 0
    {
      hide Gen, Patched, OptTest, FullRep;
      ghost var base, c := code, Gen(g, p, false, NoTest, FullSet(), n);
      var test := EmitTestSet(f);
      EmitLoop(g, p, opt, n);
      FullRepPatched(base, f, opt, c);
      JumpToHere(test);
    }

    /** `coderep` */
    method EmitRep(g: seq<Tree>, p: Tree, opt: bool, fl: Charset, n: nat)
      modifies this
      ensures code == old(code) + Gen(g, TRep(p), opt, NoTest, fl, n)
      decreases TRep(p), 1
    {
      hide Gen, GetFirst, HeadFail, CheckAux, FixedLenX, TestRep, FullRep;
      GenRep(g, p, opt, NoTest, fl, n);
      if IsCharset(p) {
        var _ := AddInstruction(ISpan(CharsetOf(p)));
        AddCharset();
      } else {
        var f := GetFirst(g, p, FullSet(), n);
        if HeadFail(g, p, n) || (!f.empty && f.cs !! fl) {
          EmitTestRep(g, p, f.cs, n);
        } else {
          EmitFullRep(g, p, f, opt, n);
        }
      }
    }

    /** `codenot` */
    method EmitNot(g: seq<Tree>, p: Tree, n: nat)
      modifies this
      ensures code == old(code) + Gen(g, TNot(p), false, NoTest, FullSet(), n)
      decreases TNot(p), 0
    {
      hide Gen, GetFirst, HeadFail, CheckAux, FixedLenX, Patched, OptTest, TestNot, FullNot;
      GenNot(g, p, false, NoTest, FullSet(), n);
      ghost var base := code;
      var f := GetFirst(g, p, FullSet(), n);
      var test := EmitTestSet(f);
      if HeadFail(g, p, n) {
        var _ := AddInstruction(IFail);
        TestNotPatched(base, f);
      } else {
        EmitGuardedNot(g, p, n);
        FullNotPatched(base, f, Gen(g, p, false, NoTest, FullSet(), n));
      }
      JumpToHere(test);
    }

    /** The part of `FullNot` behind its test. */
    method EmitGuardedNot(g: seq<Tree>, p: Tree, n: nat)
      modifies this
      ensures var c := Gen(g, p, false, NoTest, FullSet(), n);
              code == old(code) + (Ins(IChoice(2 + |c| + 1)) + (c + [IFailTwice]))
      decreases p, 3
    {
      hide Gen, Patched;
      ghost var base, c := code, Gen(g, p, false, NoTest, FullSet(), n);
      var pchoice := AddOffsetInst(IChoice(0));
      EmitCode(g, p, false, NOINST, FullSet(), n);
      var _ := AddInstruction(IFailTwice);
      Assoc(base + Ins(IChoice(0)), c, [IFailTwice]);
      PatchedAt(base, IChoice(0), c + [IFailTwice], |code|);
      JumpToHere(pchoice);
      Assoc(base, Ins(IChoice(2 + |c| + 1)), c + [IFailTwice]);
    }

    /** The general branch of `codeand`. */
    method EmitFullAnd(g: seq<Tree>, p: Tree, tt: int, n: nat)
      requires tt < |code|
      modifies this
      ensures code == old(code) + FullAnd(Gen(g, p, false, TestAt(old(code), tt), FullSet(), n))
      decreases p, 3
    {
      hide Gen, Patched, FullAnd;
      ghost var base, c := code, Gen(g, p, false, TestAt(code, tt), FullSet(), n);
      var pchoice := AddOffsetInst(IChoice(0));
      EmitCode(g, p, false, tt, FullSet(), n);
      var pcommit := AddOffsetInst(IBackCommit(0));
      Assoc(base + Ins(IChoice(0)), c, Ins(IBackCommit(0)));
      PatchedAt(base, IChoice(0), c + Ins(IBackCommit(0)), |code|);
      JumpToHere(pchoice);
      var _ := AddInstruction(IFail);
      FullAndPatched(base, c);
      JumpToHere(pcommit);
    }

    /** `codeand` */
    method EmitAnd(g: seq<Tree>, p: Tree, tt: int, n: nat)
      requires tt < |code|
      modifies this
      ensures code == old(code) + Gen(g, TAnd(p), false, TestAt(old(code), tt), FullSet(), n)
      decreases TAnd(p), 1
    {
      hide Gen, CheckAux, FixedLenX, FullAnd;
      ghost var base, test := code, TestAt(code, tt);
      GenAnd(g, p, false, test, FullSet(), n);
      var len := FixedLen(g, p);
      if 0 <= len <= MAXBEHIND {
        EmitCode(g, p, false, tt, FullSet(), n);
        if len > 0 {
          var _ := AddInstruction(IBehind(len));
        }
        Assoc(base, Gen(g, p, false, test, FullSet(), n), if len > 0 then [IBehind(len)] else []);
      } else {
        EmitFullAnd(g, p, tt, n);
      }
    }

    /** `finaltarget`. The source follows jumps until there is none. When that loop ends, this
        one ends at the same place: as many jumps as there are slots suffice. */
    method FollowJumps(start: int) returns (i: int)
      ensures i == FinalTarget(code, start, |code|)
      ensures Settles(code, start) ==> Rests(code, i)
    {
      i := start;
      var k := |code|;
      while k > 0 && 0 <= i < |code| && code[i].IJmp?
        invariant k >= 0
        invariant FinalTarget(code, i, k) == FinalTarget(code, start, |code|)
      {
        i := i + code[i].off;
        k := k - 1;
      }
      if Settles(code, start) {
        ghost var m: nat :| Rests(code, FinalTarget(code, start, m));
        FinalTargetExact(code, start, m, |code|);
      }
    }

    /** One call of `correctcalls`. */
    method CorrectCall(positions: seq<nat>, from: nat, i: nat)
      requires from <= i < |code| && JumpsInside(code[from..]) && i + 2 <= |code|
      requires code[i].IOpenCall? && code[i].key < |positions|
      requires forall k :: 0 <= k < |positions| ==> from <= positions[k] <= |code|
      modifies this
      ensures |code| == |old(code)| && code[..from] == old(code)[..from]
      ensures code[from..] == CorrectAt(old(code)[from..], Relative(positions, from), i - from)
      ensures JumpsInside(code[from..])
    {
      hide FinalTarget;
      ghost var blk := code[from..];
      var rule := positions[code[i].key];
      var ft := FollowJumps(i + 2);
      SameTailCall(code, blk, from, i + 2 - from);
      var op := if 0 <= ft < |code| && code[ft].IRet? then IJmp(rule - i) else ICall(rule - i);
      code := code[i := op];
      assert code[from..] == blk[i - from := op];
      ResolvedInside(blk, i - from, op);
    }

    /** `correctcalls`, over the code from `from` to the end. */
    method CorrectCalls(positions: seq<nat>, from: nat)
      requires from <= |code| && Tidy(code[from..])
      requires forall k :: 0 <= k < |positions| ==> from <= positions[k] <= |code|
      modifies this
      ensures |code| == |old(code)|
      ensures code[..from] == old(code)[..from]
      ensures code[from..] == CorrectFrom(old(code)[from..], Relative(positions, from), 0)
    {
      hide CorrectFrom, FinalTarget, Laid, JumpsInside;
      ghost var pre, goal, rel := code[..from], code[from..], Relative(positions, from);
      var i := from;
      assert goal[i - from..] == goal;
      while i < |code|
        invariant from <= i <= |code| == |old(code)|
        invariant code[..from] == pre
        invariant JumpsInside(code[from..]) && Laid(code[from..][i - from..])
        invariant CorrectFrom(code[from..], rel, i - from) == CorrectFrom(goal, rel, 0)
      {
        ghost var blk, b := code[from..], i - from;
        OperandSlots(blk, b);
        if code[i].IOpenCall? && code[i].key < |positions| {
          CorrectCall(positions, from, i);
        }
        assert code[from..] == CorrectAt(blk, rel, b);
        CorrectStep(blk, rel, b);
        assert code[from..][b] == code[i];
        i := i + SizeI(code[i]);
      }
      CorrectDone(code[from..], rel, |code| - from);
    }

    /** The rules of a grammar, each followed by a return; returns where they are. */
    method EmitRules(rules: seq<Tree>, n: nat) returns (positions: seq<nat>)
      modifies this
      ensures code == old(code) + Flatten(RuleBlocks(rules, n))
      ensures |positions| == |rules|
      ensures forall k :: 0 <= k < |rules| ==> positions[k] == |old(code)| + RuleOffset(RuleBlocks(rules, n), k)
      decreases rules, 3
    {
      hide Gen, Flatten;
      ghost var base, blocks := code, RuleBlocks(rules, n);
      positions := [];
      FlattenEmpty(blocks);
      for i := 0 to |rules|
        invariant |positions| == i
        invariant code == base + Flatten(blocks[..i])
        invariant forall k :: 0 <= k < i ==> positions[k] == |base| + RuleOffset(blocks, k)
      {
        positions := positions + [|code|];
        EmitCode(rules, rules[i], false, NOINST, FullSet(), n);
        var _ := AddInstruction(IRet);
        FlattenOneMore(blocks, i);
        ghost var c := Gen(rules, rules[i], false, NoTest, FullSet(), n);
        assert base + Flatten(blocks[..i]) + c + [IRet] == base + (Flatten(blocks[..i]) + (c + [IRet]));
      }
      assert blocks[..|rules|] == blocks;
    }

    /** `codegrammar` */
    method EmitGrammar(g: seq<Tree>, rules: seq<Tree>, n: nat)
      modifies this
      ensures code == old(code) + GrammarCode(RuleBlocks(rules, n))
      decreases TGrammar(rules), 0
    {
      hide Gen, CorrectFrom, Flatten, Tidy, Patched, GrammarCode;
      ghost var base, blocks := code, RuleBlocks(rules, n);
      ghost var body := Flatten(blocks);
      var firstcall := AddOffsetInst(ICall(0));
      var jumptoend := AddOffsetInst(IJmp(0));
      var start := |code|;
      PatchedAt(base, ICall(0), Ins(IJmp(0)), |code|);
      JumpToHere(firstcall);
      var positions := EmitRules(rules, n);
      PatchedAt(base + Ins(ICall(4)), IJmp(0), body, |code|);
      JumpToHere(jumptoend);
      ghost var pre := base + Ins(ICall(4)) + Ins(IJmp(2 + |body|));
      assert code == pre + body;
      assert code[start..] == body && code[..start] == pre;
      BodyTidy(rules, n);
      PositionsRelative(blocks, positions, start);
      CorrectCalls(positions, start);
      GrammarAssembled(base, blocks, code, start);
    }

    /** `codegen` for the patterns without parts. */
    method EmitLeaf(g: seq<Tree>, t: Tree, opt: bool, tt: int, fl: Charset, n: nat)
      requires t.TChar? || t.TAny? || t.TSet? || t.TTrue? || t.TFalse? || t.TCall?
      requires tt < |code|
      modifies this
      ensures code == old(code) + Gen(g, t, opt, TestAt(old(code), tt), fl, n)
    {
      match t
      case TChar(c) => EmitChar(c, tt);
      case TAny => var _ := AddInstruction(IAny);
      case TSet(cs) => EmitCharset(cs, tt);
      case TTrue =>
      case TFalse => var _ := AddInstruction(IFail);
      case TCall(k) => var _ := AddOffsetInst(IOpenCall(k % RULENUMBERS, 0));
    }

    /** `codegen` */
    method EmitCode(g: seq<Tree>, t: Tree, opt: bool, tt: int, fl: Charset, n: nat)
      requires tt < |code|
      modifies this
      ensures code == old(code) + Gen(g, t, opt, TestAt(old(code), tt), fl, n)
      decreases t, 2
    {
      hide Gen, GrammarCode;
      ghost var test := TestAt(code, tt);
      match t
      case TChoice(p1, p2) =>
        EmitChoice(g, p1, p2, opt, fl, n);
        GenIgnoresTest(g, t, opt, test, fl, n);
      case TRep(p) =>
        EmitRep(g, p, opt, fl, n);
        GenIgnoresTest(g, t, opt, test, fl, n);
      case TBehind(k, p) =>
        EmitBehind(g, k, p, n);
        GenBehind(g, k, p, opt, test, fl, n);
      case TNot(p) =>
        EmitNot(g, p, n);
        GenIgnoresMode(g, t, opt, test, fl, n);
      case TAnd(p) =>
        EmitAnd(g, p, tt, n);
        GenIgnoresMode(g, t, opt, test, fl, n);
      case TGrammar(rules) =>
        EmitGrammar(g, rules, n);
        GenGrammar(g, rules, opt, test, fl, n);
      case TSeq(p1, p2) => EmitSequence(g, p1, p2, opt, tt, fl, n);
      case _ => EmitLeaf(g, t, opt, tt, fl, n);
    }

    /** `codebehind` */
    method EmitBehind(g: seq<Tree>, k: nat, p: Tree, n: nat)
      modifies this
      ensures code == old(code) + BehindCode(k, Gen(g, p, false, NoTest, FullSet(), n))
      decreases p, 3
    {
      hide Gen;
      if k > 0 {
        var _ := AddInstruction(IBehind(k));
      }
      EmitCode(g, p, false, NOINST, FullSet(), n);
    }

    /** `codeseq1` and the second half of a sequence */
    method EmitSequence(g: seq<Tree>, p1: Tree, p2: Tree, opt: bool, tt: int, fl: Charset, n: nat)
      requires tt < |code|
      modifies this
      ensures code == old(code) + Gen(g, TSeq(p1, p2), opt, TestAt(old(code), tt), fl, n)
      decreases TSeq(p1, p2), 0
    {
      hide Gen, GetFirst, HeadFail, CheckAux, FixedLenX;
      GenSeq(g, p1, p2, opt, TestAt(code, tt), fl, n);
      EmitCode(g, p1, false, tt, FollowOf(g, p1, p2, fl, n), n);
      var tt2 := if FixedLen(g, p1) != 0 then NOINST else tt;
      EmitCode(g, p2, opt, tt2, fl, n);
    }

    /** One round of `peephole`. */
    method PeepholeStep(i: nat)
      requires i < |code|
      modifies this
      ensures code == PeepAt(old(code), i)
    {
      hide FinalTarget, Settles;
      if HasLabel(code[i]) {
        OptimizeLabel(i);
      } else if code[i].IJmp? {
        var ft := FollowJumps(i);
        if 0 <= ft < |code| && EndsBlock(code[ft]) {
          code := code[i := code[ft]];
          if i + 1 < |code| {
            code := code[i + 1 := IAny];
          }
        } else if 0 <= ft < |code| && IsCommit(code[ft]) {
          var fft := FollowJumps(ft + code[ft].off);
          code := code[i := code[ft]];
          JumpToThere(i, fft);
          assert code == old(code)[i := WithOffset(old(code)[ft], FinalLabel(old(code), ft) - i)];
          OptimizeLabel(i);
        } else {
          JumpToThere(i, ft);
        }
      }
    }

    /** `peephole`. Where no chain of jumps is a cycle none becomes one, so all its calls of
        `finaltarget` end. */
    method PeepholeInPlace()
      modifies this
      ensures code == Peephole(old(code), 0)
      ensures old(AllSettle(code)) ==> AllSettle(code)
    {
      hide PeepAt, AllSettle;
      var i := 0;
      while i < |code|
        invariant 0 <= i && |code| == |old(code)|
        invariant Peephole(code, i) == Peephole(old(code), 0)
        invariant old(AllSettle(code)) ==> AllSettle(code)
        decreases |code| - i
      {
        if AllSettle(code) {
          PeepAtSettled(code, i);
        }
        PeepholeStep(i);
        i := i + SizeI(code[i]);
      }
    }

    method OptimizeLabel(i: nat)
      requires i < |code| && HasLabel(code[i])
      modifies this
      ensures code == Relabel(old(code), i)
    {
      var ft := FollowJumps(i + code[i].off);
      JumpToThere(i, ft);
    }

    /** `compile` */
    method Compile(t: Tree, n: nat)
      modifies this
      ensures code == Compiled(t, n)
    {
      hide Gen, Peephole;
      code := [];
      EmitCode([], t, false, NOINST, FullSet(), n);
      assert code == Gen([], t, false, NoTest, FullSet(), n);
      var _ := AddInstruction(IEnd);
      PeepholeInPlace();
    }
  }

  // ---- lemmas for the methods -------------------------------------------------------

  lemma NothingPatched(code: Code)
    ensures Patched(code, NOINST, |code|) == code
  {
  }

  lemma OperandSlots(c: Code, b: nat)
    requires b < |c| && Laid(c[b..])
    ensures b + SizeI(c[b]) <= |c| && Laid(c[b..][SizeI(c[b])..])
    ensures forall k :: b + 1 <= k < b + SizeI(c[b]) ==> c[k].Pad?
  {
    forall k | b + 1 <= k < b + SizeI(c[b])
      ensures c[k].Pad?
    {
      assert c[b..][k - b] == c[k];
    }
  }

  lemma CorrectAtLaid(c: Code, positions: seq<int>, b: nat)
    requires b < |c| && Laid(c[b..])
    ensures Laid(CorrectAt(c, positions, b)[b..])
  {
    var d := CorrectAt(c, positions, b);
    if d != c {
      assert d[b..][2..] == c[b..][2..];
    }
  }

  /** A round of `correctcalls` may skip the operands of its instruction. */
  lemma CorrectStep(c: Code, positions: seq<int>, b: nat)
    requires b < |c| && Laid(c[b..])
    ensures var d := CorrectAt(c, positions, b);
            && b + SizeI(d[b]) <= |d|
            && Laid(d[b + SizeI(d[b])..])
            && CorrectFrom(d, positions, b + SizeI(d[b])) == CorrectFrom(c, positions, b)
  {
    hide Laid, CorrectFrom;
    var d := CorrectAt(c, positions, b);
    CorrectUnfold(c, positions, b);
    CorrectAtLaid(c, positions, b);
    OperandSlots(d, b);
    CorrectSkips(d, positions, b + 1, b + SizeI(d[b]));
    assert d[b..][SizeI(d[b])..] == d[b + SizeI(d[b])..];
  }

  lemma PositionsRelative(blocks: seq<Code>, positions: seq<nat>, start: nat)
    requires |positions| == |blocks|
    requires forall k :: 0 <= k < |blocks| ==> positions[k] == start + RuleOffset(blocks, k)
    ensures Relative(positions, start) == RuleOffsets(blocks)
    ensures forall k :: 0 <= k < |positions| ==> start <= positions[k] <= start + |Flatten(blocks)|
  {
    forall k | 0 <= k < |positions|
      ensures start <= positions[k] <= start + |Flatten(blocks)|
    {
      OffsetsInside(blocks, k);
    }
  }

  lemma GrammarAssembled(base: Code, blocks: seq<Code>, code: Code, start: nat)
    requires start <= |code|
    requires code[..start] == base + Ins(ICall(4)) + Ins(IJmp(2 + |Flatten(blocks)|))
    requires code[start..] == CorrectFrom(Flatten(blocks), RuleOffsets(blocks), 0)
    ensures code == base + GrammarCode(blocks)
  {
    hide CorrectFrom, Flatten;
    assert code == code[..start] + code[start..];
    assert code == base + (Ins(ICall(4)) + (Ins(IJmp(2 + |Flatten(blocks)|)) + code[start..]));
  }

  lemma ResolvedInside(c: Code, b: nat, op: Instr)
    requires b < |c| && JumpsInside(c) && (op.IJmp? ==> 0 <= b + op.off <= |c|)
    ensures JumpsInside(c[b := op])
  {
  }

  lemma CorrectUnfold(c: Code, positions: seq<int>, b: nat)
    requires b < |c|
    ensures CorrectFrom(c, positions, b) == CorrectFrom(CorrectAt(c, positions, b), positions, b + 1)
  {
  }

  lemma CorrectDone(c: Code, positions: seq<int>, b: nat)
    requires b >= |c|
    ensures CorrectFrom(c, positions, b) == c
  {
  }

  lemma FlattenEmpty(blocks: seq<Code>)
    ensures Flatten(blocks[..0]) == []
  {
  }

  lemma BodyTidy(rules: seq<Tree>, n: nat)
    ensures Tidy(Flatten(RuleBlocks(rules, n)))
  {
    hide Gen, Tidy, Flatten;
    forall k | 0 <= k < |rules|
      ensures Tidy(RuleBlocks(rules, n)[k])
    {
      GenTidy(rules, rules[k], false, NoTest, FullSet(), n);
      TidyOne(IRet);
      TidyConcat(Gen(rules, rules[k], false, NoTest, FullSet(), n), [IRet]);
    }
    FlattenTidy(RuleBlocks(rules, n));
  }

  /** Choices and repetitions do not use a dominating test. */
  lemma GenIgnoresTest(g: seq<Tree>, t: Tree, opt: bool, tt: Test, fl: Charset, n: nat)
    requires t.TChoice? || t.TRep?
    ensures Gen(g, t, opt, tt, fl, n) == Gen(g, t, opt, NoTest, fl, n)
  {
    hide Gen, GetFirst, HeadFail, CheckAux, FixedLenX;
    match t
    case TChoice(p1, p2) =>
      GenChoice(g, p1, p2, opt, tt, fl, n);
      GenChoice(g, p1, p2, opt, NoTest, fl, n);
    case TRep(p) =>
      GenRep(g, p, opt, tt, fl, n);
      GenRep(g, p, opt, NoTest, fl, n);
  }

  /** Predicates do not use the option around them or what follows. */
  lemma GenIgnoresMode(g: seq<Tree>, t: Tree, opt: bool, tt: Test, fl: Charset, n: nat)
    requires t.TNot? || t.TAnd?
    ensures Gen(g, t, opt, tt, fl, n) == Gen(g, t, false, if t.TAnd? then tt else NoTest, FullSet(), n)
  {
    hide GetFirst, HeadFail, CheckAux, FixedLenX;
  }
}
