/** What patching offsets in emitted code amounts to. */
module PegPatch {
  import opened Charset
  import opened PegAnalysis
  import opened PegVm
  import opened PegCode
  import opened PegPeephole

  predicate HasTarget(x: Instr) {
    HasLabel(x) || x.IJmp? || x.IOpenCall?
  }

  function SetTarget(x: Instr, off: int): (r: Instr)
    requires HasTarget(x)
    ensures SizeI(r) == SizeI(x)
  {
    if HasLabel(x) then WithOffset(x, off)
    else if x.IJmp? then IJmp(off)
    else IOpenCall(x.key, off)
  }

  /** `setoffset`: the instruction at `i` now leads to `target`; `NOINST` changes nothing. */
  function Patched(code: Code, i: int, target: int): (r: Code)
    requires i < |code| && (i >= 0 ==> HasTarget(code[i]))
    ensures |r| == |code|
  {
    if i >= 0 then code[i := SetTarget(code[i], target - i)] else code
  }

  /** Patching the instruction between `pre` and `post`. */
  lemma PatchedAt(pre: Code, x: Instr, post: Code, target: int)
    requires HasTarget(x)
    ensures (pre + Ins(x) + post)[|pre|] == x
    ensures Patched(pre + Ins(x) + post, |pre|, target) == pre + Ins(SetTarget(x, target - |pre|)) + post
  {
  }

  /** Patching a test, if there is one, to lead behind `body`. */
  lemma PatchedTest(base: Code, f: First, body: Code)
    ensures var code := base + OptTest(f, 0) + body;
            var test := if f.empty then -1 else |base|;
            && test < |code| && (test >= 0 ==> HasTarget(code[test]))
            && Patched(code, test, |code|) == base + OptTest(f, OptTestSize(f) + |body|) + body
  {
    if !f.empty {
      PatchedAt(base, TestInstr(f.cs, 0), body, |base| + OptTestSize(f) + |body|);
    }
  }

  lemma Assoc(a: Code, b: Code, c: Code)
    ensures a + b + c == a + (b + c)
  {
  }

  lemma TestChoiceAssembled(base: Code, cs: Charset, c1: Code, emptyp2: bool, c2: Code)
    ensures var jmp := if emptyp2 then [] else Ins(IJmp(2 + |c2|));
            base + Ins(TestInstr(cs, TestSize(cs) + |c1| + |jmp|)) + c1 + jmp + c2
            == base + TestChoice(cs, c1, emptyp2, c2)
  {
    var jmp := if emptyp2 then [] else Ins(IJmp(2 + |c2|));
    var test := Ins(TestInstr(cs, TestSize(cs) + |c1| + |jmp|));
    assert base + test + c1 + jmp + c2 == base + (test + (c1 + (jmp + c2)));
  }

  /** The last patch of `test; p1; jmp; p2`: the jump over `p2`. */
  lemma TestChoicePatched(base: Code, cs: Charset, c1: Code, c2: Code)
    ensures var pre := base + Ins(TestInstr(cs, TestSize(cs) + |c1| + 2)) + c1;
            var code := pre + Ins(IJmp(0)) + c2;
            && code[|pre|].IJmp?
            && Patched(code, |pre|, |code|) == base + TestChoice(cs, c1, false, c2)
  {
    var pre := base + Ins(TestInstr(cs, TestSize(cs) + |c1| + 2)) + c1;
    PatchedAt(pre, IJmp(0), c2, |pre| + 2 + |c2|);
    TestChoiceAssembled(base, cs, c1, false, c2);
  }

  /** The last patch of `test; choice; p1; commit; p2`: the commit over `p2`. */
  lemma FullChoicePatched(base: Code, f: First, c1: Code, c2: Code)
    ensures var test := OptTest(f, OptTestSize(f) + 2 + |c1| + 2);
            var body := Ins(IChoice(2 + |c1| + 2)) + (c1 + Ins(ICommit(0)));
            var code := base + test + body + c2;
            var at := |base| + |test| + 2 + |c1|;
            && code[at].ICommit?
            && Patched(code, at, |code|) == base + FullChoice(f, c1, c2)
  {
    hide OptTest, Patched;
    var test := OptTest(f, OptTestSize(f) + 2 + |c1| + 2);
    var choice := Ins(IChoice(2 + |c1| + 2));
    var pre := base + test + choice + c1;
    assert base + test + (choice + (c1 + Ins(ICommit(0)))) + c2 == pre + Ins(ICommit(0)) + c2;
    PatchedAt(pre, ICommit(0), c2, |pre| + 2 + |c2|);
    assert pre + Ins(ICommit(2 + |c2|)) + c2 == base + (test + (choice + (c1 + (Ins(ICommit(2 + |c2|)) + c2))));
  }

  /** The last patch of `test; p; jmp`: the jump back to the test. */
  lemma TestRepPatched(base: Code, cs: Charset, c: Code)
    ensures var test := Ins(TestInstr(cs, TestSize(cs) + |c| + 2));
            var code := base + test + (c + Ins(IJmp(0)));
            var at := |base| + |test| + |c|;
            && code[at].IJmp?
            && Patched(code, at, |base|) == base + TestRep(cs, c)
  {
    var test := Ins(TestInstr(cs, TestSize(cs) + |c| + 2));
    var pre := base + test + c;
    assert base + test + (c + Ins(IJmp(0))) == pre + Ins(IJmp(0)) + [];
    PatchedAt(pre, IJmp(0), [], |base|);
    assert pre + Ins(IJmp(-(TestSize(cs) + |c|))) + [] == base + (test + (c + Ins(IJmp(-(TestSize(cs) + |c|)))));
  }

  /** The partial commit that closes a loop. */
  lemma LoopPatched(pre: Code, c: Code)
    ensures var code := pre + c + Ins(IPartialCommit(0));
            && code[|pre| + |c|].IPartialCommit?
            && Patched(code, |pre| + |c|, |pre|) == pre + (c + Ins(IPartialCommit(-|c|)))
  {
    assert pre + c + Ins(IPartialCommit(0)) == (pre + c) + Ins(IPartialCommit(0)) + [];
    PatchedAt(pre + c, IPartialCommit(0), [], |pre|);
    assert (pre + c) + Ins(IPartialCommit(-|c|)) + [] == pre + (c + Ins(IPartialCommit(-|c|)));
  }

  /** The patch of the test in front of a loop. */
  lemma FullRepPatched(base: Code, f: First, opt: bool, c: Code)
    ensures var code := base + OptTest(f, 0)
                        + (Ins(if opt then IPartialCommit(2) else IChoice(2 + |c| + 2)) + (c + Ins(IPartialCommit(-|c|))));
            var test := if f.empty then -1 else |base|;
            && test < |code| && (test >= 0 ==> HasTarget(code[test]))
            && Patched(code, test, |code|) == base + FullRep(f, opt, c)
  {
    var body := Ins(if opt then IPartialCommit(2) else IChoice(2 + |c| + 2)) + (c + Ins(IPartialCommit(-|c|)));
    PatchedTest(base, f, body);
    Assoc(base, OptTest(f, OptTestSize(f) + |body|), body);
  }

  /** The patch of the test in front of a not-predicate, without and with a choice. */
  lemma TestNotPatched(base: Code, f: First)
    ensures var code := base + OptTest(f, 0) + [IFail];
            var test := if f.empty then -1 else |base|;
            && test < |code| && (test >= 0 ==> HasTarget(code[test]))
            && Patched(code, test, |code|) == base + TestNot(f)
  {
    PatchedTest(base, f, [IFail]);
    Assoc(base, OptTest(f, OptTestSize(f) + 1), [IFail]);
  }

  lemma FullNotPatched(base: Code, f: First, c: Code)
    ensures var code := base + OptTest(f, 0) + (Ins(IChoice(2 + |c| + 1)) + (c + [IFailTwice]));
            var test := if f.empty then -1 else |base|;
            && test < |code| && (test >= 0 ==> HasTarget(code[test]))
            && Patched(code, test, |code|) == base + FullNot(f, c)
  {
    var body := Ins(IChoice(2 + |c| + 1)) + (c + [IFailTwice]);
    PatchedTest(base, f, body);
    Assoc(base, OptTest(f, OptTestSize(f) + |body|), body);
  }

  /** The back commit over the fail of an and-predicate. */
  lemma FullAndPatched(base: Code, c: Code)
    ensures var code := base + Ins(IChoice(2 + |c| + 2)) + (c + Ins(IBackCommit(0))) + [IFail];
            var at := |base| + 2 + |c|;
            && code[at].IBackCommit?
            && Patched(code, at, |code|) == base + FullAnd(c)
  {
    var choice := Ins(IChoice(2 + |c| + 2));
    var pre := base + choice + c;
    assert base + choice + (c + Ins(IBackCommit(0))) + [IFail] == pre + Ins(IBackCommit(0)) + [IFail];
    PatchedAt(pre, IBackCommit(0), [IFail], |pre| + 3);
    assert pre + Ins(IBackCommit(3)) + [IFail] == base + (choice + (c + (Ins(IBackCommit(3)) + [IFail])));
  }
}
