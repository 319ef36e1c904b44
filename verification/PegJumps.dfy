/** The loops of `finaltarget` in skynet/3rd/lpeg/lpcode.c end: in the code of an accepted
    pattern no chain of jumps is a cycle, neither while calls are resolved nor during
    `peephole`. */
module PegJumps {
  import opened Charset
  import opened Peg
  import opened PegAnalysis
  import opened PegVm
  import opened PegCode
  import opened PegLink
  import opened PegPeephole
  import opened PegLayout
  import opened PegGrammar
  import opened PegSettled

  /** Jumps from `i` end, or lead to `e`, which they may do only when `ok` holds. */
  ghost predicate Falls(code: Code, i: int, e: int, ok: bool) {
    Settles(code, i) || (ok && Chain(code, i, e))
  }

  ghost predicate Out(code: Code, at: int, len: nat, e: int) {
    forall i :: at <= i < at + len ==> Falls(code, i, e, true)
  }

  lemma SettlesAlong(code: Code, i: int, j: int)
    requires Chain(code, i, j) && Settles(code, j)
    ensures Settles(code, i)
  {
    var a: nat :| FinalTarget(code, i, a) == j;
    var b: nat :| Rests(code, FinalTarget(code, j, b));
    FinalTargetAdd(code, i, a, b);
    assert Rests(code, FinalTarget(code, i, a + b));
  }

  lemma ChainAlong(code: Code, i: int, j: int, e: int)
    requires Chain(code, i, j) && Chain(code, j, e)
    ensures Chain(code, i, e)
  {
    var a: nat :| FinalTarget(code, i, a) == j;
    var b: nat :| FinalTarget(code, j, b) == e;
    FinalTargetAdd(code, i, a, b);
    assert FinalTarget(code, i, a + b) == e;
  }

  lemma FallsOn(code: Code, i: int, mid: int, e: int, ok1: bool, ok2: bool)
    requires Falls(code, i, mid, ok1) && (ok1 ==> Falls(code, mid, e, ok2))
    ensures Falls(code, i, e, ok1 && ok2)
  {
    hide Chain, Settles;
    if !Settles(code, i) {
      if Settles(code, mid) {
        SettlesAlong(code, i, mid);
      } else {
        ChainAlong(code, i, mid, e);
      }
    }
  }

  lemma FallsJump(code: Code, i: int, e: int, ok: bool)
    requires 0 <= i < |code| && code[i].IJmp? && Falls(code, i + code[i].off, e, ok)
    ensures Falls(code, i, e, ok)
  {
    assert FinalTarget(code, i, 1) == FinalTarget(code, i + code[i].off, 0) == i + code[i].off;
    FallsOn(code, i, i + code[i].off, e, true, ok);
  }

  lemma FallsEnd(code: Code, e: int)
    ensures Falls(code, e, e, true)
  {
    ChainRefl(code, e);
  }

  lemma OutFirst(code: Code, at: int, len: nat)
    requires Out(code, at, len, at + len)
    ensures Falls(code, at, at + len, true)
  {
    FallsEnd(code, at);
  }

  lemma OutOn(code: Code, at: int, len: nat, mid: int, e: int)
    requires Out(code, at, len, mid) && Falls(code, mid, e, true)
    ensures Out(code, at, len, e)
  {
    hide Falls;
    forall i | at <= i < at + len
      ensures Falls(code, i, e, true)
    {
      FallsOn(code, i, mid, e, true, true);
    }
  }

  lemma OutBoth(code: Code, at: int, la: nat, lb: nat, e: int)
    requires Out(code, at, la, e) && Out(code, at + la, lb, e)
    ensures Out(code, at, la + lb, e)
  {
  }

  lemma SlotHere(code: Code, at: int, blk: Code, k: nat, rp: seq<int>)
    requires Linked(code, at, blk, rp) && k < |blk| && !blk[k].IOpenCall?
    ensures 0 <= at + k < |code| && code[at + k] == blk[k]
  {
    assert LinkSlot(code, at + k, blk[k], rp);
  }

  lemma OutIns(code: Code, at: int, x: Instr, rp: seq<int>, e: int)
    requires Linked(code, at, Ins(x), rp) && !x.IOpenCall?
    requires x.IJmp? ==> Falls(code, at + x.off, e, true)
    ensures Out(code, at, SizeI(x), e)
  {
    forall i | at <= i < at + SizeI(x)
      ensures Falls(code, i, e, true)
    {
      SlotHere(code, at, Ins(x), i - at, rp);
      if i == at && x.IJmp? {
        FallsJump(code, at, e, true);
      } else {
        SettlesHere(code, i);
      }
    }
  }

  lemma OutOne(code: Code, at: int, x: Instr, rp: seq<int>, e: int)
    requires Linked(code, at, [x], rp) && !x.IOpenCall? && !x.IJmp?
    ensures Out(code, at, 1, e)
  {
    SlotHere(code, at, [x], 0, rp);
    SettlesHere(code, at);
  }

  lemma StartIns(code: Code, at: int, x: Instr, rp: seq<int>, e: int, ok: bool)
    requires Linked(code, at, Ins(x), rp) && !x.IOpenCall?
    requires x.IJmp? ==> Falls(code, at + x.off, e, ok)
    ensures Falls(code, at, e, ok)
  {
    SlotHere(code, at, Ins(x), 0, rp);
    if x.IJmp? {
      FallsJump(code, at, e, ok);
    } else {
      SettlesHere(code, at);
    }
  }

  lemma OptTestFalls(code: Code, at: int, f: First, off: int, rp: seq<int>, e: int, ok: bool)
    requires Linked(code, at, OptTest(f, off), rp) && Falls(code, at + off, e, ok)
    requires Falls(code, at + OptTestSize(f), e, ok)
    ensures Falls(code, at, e, ok)
    ensures ok ==> Out(code, at, OptTestSize(f), e)
  {
    if !f.empty {
      StartIns(code, at, TestInstr(f.cs, off), rp, e, ok);
      if ok {
        OutIns(code, at, TestInstr(f.cs, off), rp, e);
      }
    }
  }

  // ---- the shapes of code -----------------------------------------------------------

  lemma TestChoiceParts(code: Code, at: int, cs: Charset, c1: Code, emptyp2: bool, c2: Code, rp: seq<int>)
    requires Linked(code, at, TestChoice(cs, c1, emptyp2, c2), rp)
    ensures var l1, lj := TestSize(cs), if emptyp2 then 0 else 2;
            && Linked(code, at, Ins(TestInstr(cs, l1 + |c1| + lj)), rp) && Linked(code, at + l1, c1, rp)
            && Linked(code, at + l1 + |c1|, if emptyp2 then [] else Ins(IJmp(2 + |c2|)), rp)
            && Linked(code, at + l1 + |c1| + lj, c2, rp)
            && |TestChoice(cs, c1, emptyp2, c2)| == l1 + |c1| + lj + |c2|
  {
    hide Linked;
    var jmp := if emptyp2 then [] else Ins(IJmp(2 + |c2|));
    var test := Ins(TestInstr(cs, TestSize(cs) + |c1| + |jmp|));
    LinkedSplit(code, at, test, c1 + (jmp + c2), rp);
    LinkedSplit(code, at + |test|, c1, jmp + c2, rp);
    LinkedSplit(code, at + |test| + |c1|, jmp, c2, rp);
  }

  lemma TestChoiceOut(code: Code, at: int, cs: Charset, c1: Code, emptyp2: bool, c2: Code, rp: seq<int>)
    requires Linked(code, at, TestChoice(cs, c1, emptyp2, c2), rp) && (emptyp2 ==> c2 == [])
    requires Out(code, at + TestSize(cs), |c1|, at + TestSize(cs) + |c1|)
    requires var a2 := at + TestSize(cs) + |c1| + if emptyp2 then 0 else 2; Out(code, a2, |c2|, a2 + |c2|)
    ensures var len := |TestChoice(cs, c1, emptyp2, c2)|; Out(code, at, len, at + len)
  {
    hide Linked, Out, Falls;
    TestChoiceParts(code, at, cs, c1, emptyp2, c2, rp);
    var l1, lj := TestSize(cs), if emptyp2 then 0 else 2;
    var a1 := at + l1;
    var aj := a1 + |c1|;
    var a2 := aj + lj;
    var e := a2 + |c2|;
    FallsEnd(code, e);
    OutFirst(code, a2, |c2|);
    OutIns(code, at, TestInstr(cs, l1 + |c1| + lj), rp, e);
    if emptyp2 {
      OutOn(code, a1, |c1|, aj, e);
      OutBoth(code, at, l1, |c1|, e);
    } else {
      OutIns(code, aj, IJmp(2 + |c2|), rp, e);
      StartIns(code, aj, IJmp(2 + |c2|), rp, e, true);
      OutOn(code, a1, |c1|, aj, e);
      OutBoth(code, aj, 2, |c2|, e);
      OutBoth(code, a1, |c1|, 2 + |c2|, e);
      OutBoth(code, at, l1, |c1| + (2 + |c2|), e);
    }
  }

  lemma FullChoiceParts(code: Code, at: int, f: First, c1: Code, c2: Code, rp: seq<int>)
    requires Linked(code, at, FullChoice(f, c1, c2), rp)
    ensures var l := OptTestSize(f);
            && Linked(code, at, OptTest(f, l + 2 + |c1| + 2), rp) && Linked(code, at + l, Ins(IChoice(2 + |c1| + 2)), rp)
            && Linked(code, at + l + 2, c1, rp) && Linked(code, at + l + 2 + |c1|, Ins(ICommit(2 + |c2|)), rp)
            && Linked(code, at + l + 4 + |c1|, c2, rp)
            && |FullChoice(f, c1, c2)| == l + 4 + |c1| + |c2|
  {
    hide Linked;
    var l := OptTestSize(f);
    var tail := Ins(ICommit(2 + |c2|)) + c2;
    LinkedSplit(code, at, OptTest(f, l + 2 + |c1| + 2), Ins(IChoice(2 + |c1| + 2)) + (c1 + tail), rp);
    LinkedSplit(code, at + l, Ins(IChoice(2 + |c1| + 2)), c1 + tail, rp);
    LinkedSplit(code, at + l + 2, c1, tail, rp);
    LinkedSplit(code, at + l + 2 + |c1|, Ins(ICommit(2 + |c2|)), c2, rp);
  }

  lemma FullChoiceOut(code: Code, at: int, f: First, c1: Code, c2: Code, rp: seq<int>)
    requires Linked(code, at, FullChoice(f, c1, c2), rp)
    requires var a1 := at + OptTestSize(f) + 2; Out(code, a1, |c1|, a1 + |c1|)
    requires var a2 := at + OptTestSize(f) + 4 + |c1|; Out(code, a2, |c2|, a2 + |c2|)
    ensures var len := |FullChoice(f, c1, c2)|; Out(code, at, len, at + len)
  {
    hide Linked, Out, Falls;
    FullChoiceParts(code, at, f, c1, c2, rp);
    var l := OptTestSize(f);
    var a1 := at + l + 2;
    var a2 := a1 + |c1| + 2;
    var e := a2 + |c2|;
    OutFirst(code, a2, |c2|);
    StartIns(code, at + l, IChoice(2 + |c1| + 2), rp, e, true);
    OutIns(code, at + l, IChoice(2 + |c1| + 2), rp, e);
    OptTestFalls(code, at, f, l + 2 + |c1| + 2, rp, e, true);
    StartIns(code, a1 + |c1|, ICommit(2 + |c2|), rp, e, true);
    OutIns(code, a1 + |c1|, ICommit(2 + |c2|), rp, e);
    OutOn(code, a1, |c1|, a1 + |c1|, e);
    OutBoth(code, a1 + |c1|, 2, |c2|, e);
    OutBoth(code, a1, |c1|, 2 + |c2|, e);
    OutBoth(code, at + l, 2, |c1| + (2 + |c2|), e);
    OutBoth(code, at, l, 2 + (|c1| + (2 + |c2|)), e);
  }

  lemma TestRepParts(code: Code, at: int, cs: Charset, c: Code, rp: seq<int>)
    requires Linked(code, at, TestRep(cs, c), rp)
    ensures var l := TestSize(cs);
            && Linked(code, at, Ins(TestInstr(cs, l + |c| + 2)), rp) && Linked(code, at + l, c, rp)
            && Linked(code, at + l + |c|, Ins(IJmp(-(l + |c|))), rp) && |TestRep(cs, c)| == l + |c| + 2
  {
    hide Linked;
    var l := TestSize(cs);
    LinkedSplit(code, at, Ins(TestInstr(cs, l + |c| + 2)), c + Ins(IJmp(-(l + |c|))), rp);
    LinkedSplit(code, at + l, c, Ins(IJmp(-(l + |c|))), rp);
  }

  lemma TestRepOut(code: Code, at: int, cs: Charset, c: Code, rp: seq<int>)
    requires Linked(code, at, TestRep(cs, c), rp)
    requires Out(code, at + TestSize(cs), |c|, at + TestSize(cs) + |c|)
    ensures var len := |TestRep(cs, c)|; Falls(code, at, at + len, true) && Out(code, at, len, at + len)
  {
    hide Linked, Out, Falls;
    TestRepParts(code, at, cs, c, rp);
    var l := TestSize(cs);
    var back, e := at + l + |c|, at + l + |c| + 2;
    FallsEnd(code, e);
    StartIns(code, at, TestInstr(cs, l + |c| + 2), rp, e, true);
    OutIns(code, at, TestInstr(cs, l + |c| + 2), rp, e);
    StartIns(code, back, IJmp(-(l + |c|)), rp, e, true);
    OutIns(code, back, IJmp(-(l + |c|)), rp, e);
    OutOn(code, at + l, |c|, back, e);
    OutBoth(code, at + l, |c|, 2, e);
    OutBoth(code, at, l, |c| + 2, e);
  }

  lemma FullRepParts(code: Code, at: int, f: First, opt: bool, c: Code, rp: seq<int>)
    requires Linked(code, at, FullRep(f, opt, c), rp)
    ensures var l, enter := OptTestSize(f), if opt then IPartialCommit(2) else IChoice(2 + |c| + 2);
            && Linked(code, at, OptTest(f, l + 2 + |c| + 2), rp) && Linked(code, at + l, Ins(enter), rp)
            && Linked(code, at + l + 2, c, rp) && Linked(code, at + l + 2 + |c|, Ins(IPartialCommit(-|c|)), rp)
            && |FullRep(f, opt, c)| == l + 4 + |c|
  {
    hide Linked;
    var l, enter := OptTestSize(f), if opt then IPartialCommit(2) else IChoice(2 + |c| + 2);
    LinkedSplit(code, at, OptTest(f, l + 2 + |c| + 2), Ins(enter) + (c + Ins(IPartialCommit(-|c|))), rp);
    LinkedSplit(code, at + l, Ins(enter), c + Ins(IPartialCommit(-|c|)), rp);
    LinkedSplit(code, at + l + 2, c, Ins(IPartialCommit(-|c|)), rp);
  }

  lemma FullRepStart(code: Code, at: int, f: First, opt: bool, c: Code, rp: seq<int>)
    requires Linked(code, at, FullRep(f, opt, c), rp)
    ensures Falls(code, at, at + |FullRep(f, opt, c)|, true)
    ensures Out(code, at, OptTestSize(f) + 2, at + |FullRep(f, opt, c)|)
  {
    hide Linked, Out, Falls;
    FullRepParts(code, at, f, opt, c, rp);
    var l, enter := OptTestSize(f), if opt then IPartialCommit(2) else IChoice(2 + |c| + 2);
    var e := at + l + 4 + |c|;
    FallsEnd(code, e);
    StartIns(code, at + l, enter, rp, e, true);
    OutIns(code, at + l, enter, rp, e);
    OptTestFalls(code, at, f, l + 2 + |c| + 2, rp, e, true);
    OutBoth(code, at, l, 2, e);
  }

  lemma FullRepOut(code: Code, at: int, f: First, opt: bool, c: Code, rp: seq<int>)
    requires Linked(code, at, FullRep(f, opt, c), rp)
    requires var a := at + OptTestSize(f) + 2; Out(code, a, |c|, a + |c|)
    ensures var len := |FullRep(f, opt, c)|; Out(code, at, len, at + len)
  {
    hide Linked, Out, Falls;
    FullRepStart(code, at, f, opt, c, rp);
    FullRepParts(code, at, f, opt, c, rp);
    var l := OptTestSize(f);
    var a, e := at + l + 2, at + l + 4 + |c|;
    StartIns(code, a + |c|, IPartialCommit(-|c|), rp, e, true);
    OutIns(code, a + |c|, IPartialCommit(-|c|), rp, e);
    OutOn(code, a, |c|, a + |c|, e);
    OutBoth(code, a, |c|, 2, e);
    OutBoth(code, at, l + 2, |c| + 2, e);
  }

  lemma TestNotOut(code: Code, at: int, f: First, rp: seq<int>)
    requires Linked(code, at, TestNot(f), rp)
    ensures var len := |TestNot(f)|; Falls(code, at, at + len, true) && Out(code, at, len, at + len)
  {
    hide Linked, Out, Falls;
    var l := OptTestSize(f);
    var e := at + l + 1;
    LinkedSplit(code, at, OptTest(f, l + 1), [IFail], rp);
    FallsEnd(code, e);
    OutOne(code, at + l, IFail, rp, e);
    OutFirst(code, at + l, 1);
    OptTestFalls(code, at, f, l + 1, rp, e, true);
    OutBoth(code, at, l, 1, e);
  }

  lemma FullNotParts(code: Code, at: int, f: First, c: Code, rp: seq<int>)
    requires Linked(code, at, FullNot(f, c), rp)
    ensures var l := OptTestSize(f);
            && Linked(code, at, OptTest(f, l + 2 + |c| + 1), rp) && Linked(code, at + l, Ins(IChoice(2 + |c| + 1)), rp)
            && Linked(code, at + l + 2, c, rp) && Linked(code, at + l + 2 + |c|, [IFailTwice], rp)
            && |FullNot(f, c)| == l + 3 + |c|
  {
    hide Linked;
    var l := OptTestSize(f);
    LinkedSplit(code, at, OptTest(f, l + 2 + |c| + 1), Ins(IChoice(2 + |c| + 1)) + (c + [IFailTwice]), rp);
    LinkedSplit(code, at + l, Ins(IChoice(2 + |c| + 1)), c + [IFailTwice], rp);
    LinkedSplit(code, at + l + 2, c, [IFailTwice], rp);
  }

  lemma FullNotStart(code: Code, at: int, f: First, c: Code, rp: seq<int>)
    requires Linked(code, at, FullNot(f, c), rp)
    ensures Falls(code, at, at + |FullNot(f, c)|, true)
    ensures Out(code, at, OptTestSize(f) + 2, at + |FullNot(f, c)|)
  {
    hide Linked, Out, Falls;
    FullNotParts(code, at, f, c, rp);
    var l := OptTestSize(f);
    var e := at + l + 3 + |c|;
    FallsEnd(code, e);
    StartIns(code, at + l, IChoice(2 + |c| + 1), rp, e, true);
    OutIns(code, at + l, IChoice(2 + |c| + 1), rp, e);
    OptTestFalls(code, at, f, l + 2 + |c| + 1, rp, e, true);
    OutBoth(code, at, l, 2, e);
  }

  lemma FullNotOut(code: Code, at: int, f: First, c: Code, rp: seq<int>)
    requires Linked(code, at, FullNot(f, c), rp)
    requires var a := at + OptTestSize(f) + 2; Out(code, a, |c|, a + |c|)
    ensures var len := |FullNot(f, c)|; Out(code, at, len, at + len)
  {
    hide Linked, Out, Falls;
    FullNotStart(code, at, f, c, rp);
    FullNotParts(code, at, f, c, rp);
    var l := OptTestSize(f);
    var a, e := at + l + 2, at + l + 3 + |c|;
    OutOne(code, a + |c|, IFailTwice, rp, e);
    OutFirst(code, a + |c|, 1);
    OutOn(code, a, |c|, a + |c|, e);
    OutBoth(code, a, |c|, 1, e);
    OutBoth(code, at, l + 2, |c| + 1, e);
  }

  lemma FixedAndFalls(code: Code, at: int, len: nat, c: Code, rp: seq<int>)
    requires Linked(code, at, FixedAnd(len, c), rp)
    ensures Linked(code, at, c, rp)
    ensures Falls(code, at + |c|, at + |FixedAnd(len, c)|, true)
    ensures Out(code, at, |c|, at + |c|) ==> Out(code, at, |FixedAnd(len, c)|, at + |FixedAnd(len, c)|)
  {
    hide Linked, Out, Falls;
    var head := if len > 0 then [IBehind(len)] else [];
    LinkedSplit(code, at, c, head, rp);
    var e := at + |c| + |head|;
    FallsEnd(code, e);
    if len > 0 {
      OutOne(code, at + |c|, IBehind(len), rp, e);
      OutFirst(code, at + |c|, 1);
    }
    if Out(code, at, |c|, at + |c|) {
      OutOn(code, at, |c|, at + |c|, e);
      if len > 0 {
        OutBoth(code, at, |c|, 1, e);
      }
    }
  }

  lemma FullAndFalls(code: Code, at: int, c: Code, rp: seq<int>)
    requires Linked(code, at, FullAnd(c), rp)
    ensures Linked(code, at + 2, c, rp) && Falls(code, at, at + |FullAnd(c)|, true)
    ensures Out(code, at + 2, |c|, at + 2 + |c|) ==> Out(code, at, |FullAnd(c)|, at + |FullAnd(c)|)
  {
    hide Linked, Out, Falls;
    var tail := Ins(IBackCommit(3)) + [IFail];
    LinkedSplit(code, at, Ins(IChoice(2 + |c| + 2)), c + tail, rp);
    LinkedSplit(code, at + 2, c, tail, rp);
    LinkedSplit(code, at + 2 + |c|, Ins(IBackCommit(3)), [IFail], rp);
    var back, e := at + 2 + |c|, at + 2 + |c| + 3;
    StartIns(code, at, IChoice(2 + |c| + 2), rp, e, true);
    OutIns(code, at, IChoice(2 + |c| + 2), rp, e);
    StartIns(code, back, IBackCommit(3), rp, e, true);
    OutIns(code, back, IBackCommit(3), rp, e);
    OutOne(code, back + 2, IFail, rp, e);
    if Out(code, at + 2, |c|, at + 2 + |c|) {
      OutOn(code, at + 2, |c|, back, e);
      OutBoth(code, back, 2, 1, e);
      OutBoth(code, at + 2, |c|, 3, e);
      OutBoth(code, at, 2, |c| + 3, e);
    }
  }

  lemma BehindFalls(code: Code, at: int, k: nat, c: Code, rp: seq<int>)
    requires Linked(code, at, BehindCode(k, c), rp)
    ensures Linked(code, at + if k > 0 then 1 else 0, c, rp)
    ensures var a := at + if k > 0 then 1 else 0;
            Out(code, a, |c|, a + |c|) ==> Out(code, at, |BehindCode(k, c)|, at + |BehindCode(k, c)|)
  {
    hide Linked, Out, Falls;
    var head := if k > 0 then [IBehind(k)] else [];
    LinkedSplit(code, at, head, c, rp);
    if k > 0 {
      OutOne(code, at, IBehind(k), rp, at + 1 + |c|);
      if Out(code, at + 1, |c|, at + 1 + |c|) {
        OutBoth(code, at, 1, |c|, at + 1 + |c|);
      }
    }
  }

  // ---- jumps out of any place of a pattern ------------------------------------------

  /** Chains from the rules in `u` come to an end. */
  ghost predicate RulesSettle(code: Code, u: set<nat>, rp: seq<int>) {
    forall k {:trigger k in u} :: k in u ==> k < |rp| && Settles(code, rp[k])
  }

  lemma CallFalls(code: Code, at: int, k: nat, rp: seq<int>, e: int)
    requires Linked(code, at, Ins(IOpenCall(k, 0)), rp) && k < |rp| && Settles(code, rp[k])
    ensures Settles(code, at) && Out(code, at, 2, e)
  {
    var blk := Ins(IOpenCall(k, 0));
    assert LinkSlot(code, at + 0, blk[0], rp);
    SlotHere(code, at, blk, 1, rp);
    SettlesHere(code, at + 1);
    if code[at].IJmp? {
      FallsJump(code, at, e, false);
    } else {
      SettlesHere(code, at);
    }
  }

  lemma LeafOut(code: Code, at: int, g: seq<Tree>, t: Tree, opt: bool, tt: Test, fl: Charset, n: nat, rp: seq<int>, u: set<nat>)
    requires t.TChar? || t.TAny? || t.TSet? || t.TTrue? || t.TFalse? || t.TCall?
    requires Linked(code, at, Gen(g, t, opt, tt, fl, n), rp) && WellFormed(g, t)
    requires Calls(t) <= u && RulesSettle(code, u, rp)
    ensures var len := |Gen(g, t, opt, tt, fl, n)|; Out(code, at, len, at + len)
  {
    hide Linked, Out;
    var c := Gen(g, t, opt, tt, fl, n);
    if t.TCall? {
      assert t.rule in u;
      CallFalls(code, at, t.rule, rp, at + 2);
    } else if t.TTrue? {
      NothingOut(code, at);
    } else if |c| == 1 {
      assert c == [c[0]];
      OutOne(code, at, c[0], rp, at + 1);
    } else {
      OutIns(code, at, ISet(t.cs), rp, at + |c|);
    }
  }

  lemma NothingOut(code: Code, at: int)
    ensures Out(code, at, 0, at)
  {
  }

  // ---- jumps from the start of a pattern --------------------------------------------

  lemma NullableParts(g: seq<Tree>, t: Tree, b: nat)
    ensures t.TChoice? ==> (Nullable(g, t, b) <==> Nullable(g, t.p1, b) || Nullable(g, t.p2, b))
    ensures t.TSeq? ==> (Nullable(g, t, b) <==> Nullable(g, t.p1, b) && Nullable(g, t.p2, b))
    ensures t.TRep? || t.TNot? || t.TAnd? || t.TBehind? || t.TTrue? ==> Nullable(g, t, b)
  {
  }

  lemma FallsIf(code: Code, i: int, e: int, ok1: bool, ok2: bool)
    requires Falls(code, i, e, ok1) && (ok1 ==> ok2)
    ensures Falls(code, i, e, ok2)
  {
  }

  /** Jumps from the start of a pattern lead to its end only when it is nullable. `size`
      bounds the pattern and the rules `u` it may enter, `r` the left calls of those rules,
      `b` the left calls of the pattern here, `l` its level. */
  lemma {:induction false} StartFalls(size: nat, code: Code, at: int, g: seq<Tree>, t: Tree, opt: bool, tt: Test, fl: Charset,
                                      n: nat, rp: seq<int>, u: set<nat>, r: nat, b: nat, d: nat, level: seq<nat>, l: nat)
    requires Size(t) < size && RulesReady(g, u, size, r, d) && RulesLevelled(g, u, level) && Calls(t) <= u
    requires BuiltFrom(g, t, d) && LeftDeep(g, t, b) && WellFormed(g, t) && Levelled(t, level, l)
    requires RulesLinked(code, g, rp, n) && Linked(code, at, Gen(g, t, opt, tt, fl, n), rp)
    ensures Falls(code, at, at + |Gen(g, t, opt, tt, fl, n)|, Nullable(g, t, b))
    decreases 2 * size, l, b, t, 1
  {
    hide Gen, GetFirst, HeadFail, FixedLenX, CheckAux, Linked, RulesLinked, RulesReady, Falls, BuiltFrom, Out, Nullable, TestChoice, FullChoice, TestRep, FullRep, TestNot, FullNot, FixedAnd, FullAnd, BehindCode, GrammarCode, Ins, SizeI;
    BuiltParts(g, t, d);
    NullableParts(g, t, b);
    var e := at + |Gen(g, t, opt, tt, fl, n)|;
    match t
    case TChoice(p1, p2) => ChoiceStart(size, code, at, g, p1, p2, opt, tt, fl, n, rp, u, r, b, d, level, l);
    case TRep(p) => RepStart(code, at, g, p, opt, tt, fl, n, rp);
    case TBehind(k, p) =>
      GenBehind(g, k, p, opt, tt, fl, n);
      var c := Gen(g, p, false, NoTest, FullSet(), n);
      BehindFalls(code, at, k, c, rp);
      if k == 0 {
        var b2 := DeepExists(g, p, u, size, r, d);
        StartFalls(size, code, at, g, p, false, NoTest, FullSet(), n, rp, u, r, b2, d, level, l - 1);
        FallsIf(code, at, at + |c|, Nullable(g, p, b2), true);
      }
      BehindStart(code, at, k, c, rp);
    case TNot(p) =>
      GenNot(g, p, opt, tt, fl, n);
      var f := GetFirst(g, p, FullSet(), n);
      if HeadFail(g, p, n) {
        TestNotOut(code, at, f, rp);
      } else {
        FullNotStart(code, at, f, Gen(g, p, false, NoTest, FullSet(), n), rp);
      }
    case TAnd(p) =>
      GenAnd(g, p, opt, tt, fl, n);
      var c := Gen(g, p, false, tt, FullSet(), n);
      if 0 <= FixedLen(g, p) <= MAXBEHIND {
        FixedAndFalls(code, at, FixedLen(g, p), c, rp);
        StartFalls(size, code, at, g, p, false, tt, FullSet(), n, rp, u, r, b, d, level, l);
        FallsIf(code, at, at + |c|, Nullable(g, p, b), true);
        FallsOn(code, at, at + |c|, e, true, true);
      } else {
        FullAndFalls(code, at, c, rp);
      }
    case TSeq(p1, p2) =>
      GenSeq(g, p1, p2, opt, tt, fl, n);
      var fl1, tt2 := FollowOf(g, p1, p2, fl, n), if FixedLen(g, p1) != 0 then NoTest else tt;
      var c1, c2 := Gen(g, p1, false, tt, fl1, n), Gen(g, p2, opt, tt2, fl, n);
      LinkedSplit(code, at, c1, c2, rp);
      StartFalls(size, code, at, g, p1, false, tt, fl1, n, rp, u, r, b, d, level, l);
      if Nullable(g, p1, b) {
        StartFalls(size, code, at + |c1|, g, p2, opt, tt2, fl, n, rp, u, r, b, d, level, l);
      }
      FallsOn(code, at, at + |c1|, e, Nullable(g, p1, b), Nullable(g, p2, b));
    case TGrammar(rules) =>
      assert Gen(g, t, opt, tt, fl, n) == GrammarCode(RuleBlocks(rules, n)) by {
        GenGrammar(g, rules, opt, tt, fl, n);
      }
      GrammarStart(code, at, RuleBlocks(rules, n), rp, e, Nullable(g, t, b));
    case TCall(k) =>
      RuleSettles(size, code, k, g, n, rp, u, r, b - 1, d, level);
      assert Settles(code, at) by {
        CallHere(code, at, g, k, opt, tt, fl, n, rp);
      }
      FallsSettled(code, at, e, Nullable(g, t, b));
    case _ => LeafStart(code, at, g, t, opt, tt, fl, n, rp, b);
  }

  lemma BehindStart(code: Code, at: int, k: nat, c: Code, rp: seq<int>)
    requires Linked(code, at, BehindCode(k, c), rp)
    requires k == 0 ==> Falls(code, at, at + |c|, true)
    ensures Falls(code, at, at + |BehindCode(k, c)|, true)
  {
    hide Linked, Falls;
    if k > 0 {
      LinkedSplit(code, at, [IBehind(k)], c, rp);
      OutOne(code, at, IBehind(k), rp, at + 1 + |c|);
      assert Out(code, at, 1, at + 1 + |c|);
    } else {
      assert [] + c == c;
    }
  }

  lemma GrammarStart(code: Code, at: int, blocks: seq<Code>, rp: seq<int>, e: int, ok: bool)
    requires Linked(code, at, GrammarCode(blocks), rp)
    ensures Falls(code, at, e, ok)
  {
    hide CorrectFrom, Flatten;
    var body := Flatten(blocks);
    LinkedSplit(code, at, Ins(ICall(4)), Ins(IJmp(2 + |body|)) + CorrectFrom(body, RuleOffsets(blocks), 0), rp);
    StartIns(code, at, ICall(4), rp, e, ok);
  }

  lemma LeafStart(code: Code, at: int, g: seq<Tree>, t: Tree, opt: bool, tt: Test, fl: Charset, n: nat, rp: seq<int>, b: nat)
    requires t.TChar? || t.TAny? || t.TSet? || t.TTrue? || t.TFalse?
    requires Linked(code, at, Gen(g, t, opt, tt, fl, n), rp)
    ensures Falls(code, at, at + |Gen(g, t, opt, tt, fl, n)|, Nullable(g, t, b))
  {
    var c := Gen(g, t, opt, tt, fl, n);
    if t.TTrue? {
      FallsEnd(code, at);
    } else {
      SlotHere(code, at, c, 0, rp);
      SettlesHere(code, at);
    }
  }

  lemma FallsSettled(code: Code, i: int, e: int, ok: bool)
    requires Settles(code, i)
    ensures Falls(code, i, e, ok)
  {
  }

  lemma CallHere(code: Code, at: int, g: seq<Tree>, k: nat, opt: bool, tt: Test, fl: Charset, n: nat, rp: seq<int>)
    requires Linked(code, at, Gen(g, TCall(k), opt, tt, fl, n), rp) && k < RULENUMBERS
    requires k < |rp| && Settles(code, rp[k])
    ensures Settles(code, at)
  {
    hide Linked;
    CallFalls(code, at, k, rp, at);
  }

  lemma {:induction false} ChoiceStart(size: nat, code: Code, at: int, g: seq<Tree>, p1: Tree, p2: Tree, opt: bool, tt: Test,
                                       fl: Charset, n: nat, rp: seq<int>, u: set<nat>, r: nat, b: nat, d: nat, level: seq<nat>,
                                       l: nat)
    requires Size(TChoice(p1, p2)) < size && RulesReady(g, u, size, r, d) && RulesLevelled(g, u, level) && Calls(p2) <= u
    requires BuiltFrom(g, p2, d) && LeftDeep(g, p2, b) && WellFormed(g, p2) && Levelled(p2, level, l)
    requires RulesLinked(code, g, rp, n) && Linked(code, at, Gen(g, TChoice(p1, p2), opt, tt, fl, n), rp)
    ensures Falls(code, at, at + |Gen(g, TChoice(p1, p2), opt, tt, fl, n)|, Nullable(g, TChoice(p1, p2), b))
    decreases 2 * size, l, b, TChoice(p1, p2), 0
  {
    hide Gen, GetFirst, HeadFail, FixedLenX, CheckAux, Linked, RulesLinked, RulesReady, Falls, BuiltFrom, Out, Nullable, TestChoice, FullChoice, TestRep, FullRep, TestNot, FullNot, FixedAnd, FullAnd, BehindCode, GrammarCode, Ins, SizeI;
    NullableParts(g, TChoice(p1, p2), b);
    GenChoice(g, p1, p2, opt, tt, fl, n);
    GenChoice(g, p1, p2, opt, NoTest, fl, n);
    var f1, ok := GetFirst(g, p1, FullSet(), n), Nullable(g, TChoice(p1, p2), b);
    var c2 := Gen(g, p2, opt, NoTest, fl, n);
    var e := at + |Gen(g, TChoice(p1, p2), opt, tt, fl, n)|;
    if HeadFail(g, p1, n) || (!f1.empty && f1.cs !! GetFirst(g, p2, fl, n).cs) {
      var c1 := Gen(g, p1, false, TestOf(f1.cs), fl, n);
      TestChoiceParts(code, at, f1.cs, c1, p2.TTrue?, c2, rp);
      var off := TestSize(f1.cs) + |c1| + if p2.TTrue? then 0 else 2;
      StartFalls(size, code, at + off, g, p2, opt, NoTest, fl, n, rp, u, r, b, d, level, l);
      FallsIf(code, at + off, e, Nullable(g, p2, b), ok);
      StartIns(code, at, TestInstr(f1.cs, off), rp, e, ok);
    } else if opt && p2.TTrue? {
      LinkedSplit(code, at, Ins(IPartialCommit(2)), Gen(g, p1, true, NoTest, FullSet(), n), rp);
      StartIns(code, at, IPartialCommit(2), rp, e, ok);
    } else {
      var c1 := Gen(g, p1, p2.TTrue?, if f1.empty then NoTest else TestOf(f1.cs), FullSet(), n);
      FullChoiceParts(code, at, f1, c1, c2, rp);
      var off := OptTestSize(f1) + 2 + |c1| + 2;
      StartFalls(size, code, at + off, g, p2, opt, NoTest, fl, n, rp, u, r, b, d, level, l);
      FallsIf(code, at + off, e, Nullable(g, p2, b), ok);
      StartIns(code, at + OptTestSize(f1), IChoice(2 + |c1| + 2), rp, e, ok);
      OptTestFalls(code, at, f1, off, rp, e, ok);
    }
  }

  lemma RepStart(code: Code, at: int, g: seq<Tree>, p: Tree, opt: bool, tt: Test, fl: Charset, n: nat, rp: seq<int>)
    requires Linked(code, at, Gen(g, TRep(p), opt, tt, fl, n), rp)
    ensures Falls(code, at, at + |Gen(g, TRep(p), opt, tt, fl, n)|, true)
  {
    hide Gen, GetFirst, HeadFail, FixedLenX, CheckAux, Linked, Falls, Out, TestChoice, FullChoice, TestRep, FullRep, TestNot, FullNot, FixedAnd, FullAnd, BehindCode, GrammarCode, Ins, SizeI;
    GenRep(g, p, opt, tt, fl, n);
    var e := at + |Gen(g, TRep(p), opt, tt, fl, n)|;
    if IsCharset(p) {
      StartIns(code, at, ISpan(CharsetOf(p)), rp, e, true);
    } else {
      var f := GetFirst(g, p, FullSet(), n);
      if HeadFail(g, p, n) || (!f.empty && f.cs !! fl) {
        var c := Gen(g, p, false, TestOf(f.cs), FullSet(), n);
        TestRepParts(code, at, f.cs, c, rp);
        FallsEnd(code, e);
        StartIns(code, at, TestInstr(f.cs, TestSize(f.cs) + |c| + 2), rp, e, true);
      } else {
        FullRepStart(code, at, f, opt, Gen(g, p, false, NoTest, FullSet(), n), rp);
      }
    }
  }

  /** The chain from the code of a rule comes to an end. */
  lemma {:induction false} RuleSettles(size: nat, code: Code, k: nat, g: seq<Tree>, n: nat, rp: seq<int>, u: set<nat>, r: nat,
                                       b: nat, d: nat, level: seq<nat>)
    requires RulesReady(g, u, size, r, d) && k in u && LeftDeep(g, g[k], b) && RulesLinked(code, g, rp, n)
    requires RulesLevelled(g, u, level)
    ensures k < |rp| && Settles(code, rp[k])
    decreases 2 * size, level[k], b, g[k], 2
  {
    hide Gen, Linked, LeftDeep, BuiltFrom, CheckLoops, WellFormed, Falls, Levelled, NoBehindLoops;
    var c := Gen(g, g[k], false, NoTest, FullSet(), n);
    LinkedSplit(code, rp[k], c, [IRet], rp);
    StartFalls(size, code, rp[k], g, g[k], false, NoTest, FullSet(), n, rp, u, r, b, d, level, level[k]);
    EndsAtReturn(code, rp[k], rp[k] + |c|, Nullable(g, g[k], b), rp);
  }

  lemma EndsAtReturn(code: Code, i: int, e: int, ok: bool, rp: seq<int>)
    requires Falls(code, i, e, ok) && Linked(code, e, [IRet], rp)
    ensures Settles(code, i)
  {
    hide Linked, Chain;
    LinkedOne(code, e, IRet, rp);
    SettlesHere(code, e);
    if Chain(code, i, e) {
      SettlesAlong(code, i, e);
    }
  }

  // ---- jumps from any place of a pattern --------------------------------------------

  lemma {:induction false} PlaceOut(size: nat, code: Code, at: int, g: seq<Tree>, t: Tree, opt: bool, tt: Test, fl: Charset,
                                    n: nat, rp: seq<int>, u: set<nat>, d: nat)
    requires Size(t) < size && BuiltFrom(g, t, d) && WellFormed(g, t) && Calls(t) <= u && RulesSettle(code, u, rp)
    requires NoBehindLoops(t)
    requires Linked(code, at, Gen(g, t, opt, tt, fl, n), rp)
    ensures var len := |Gen(g, t, opt, tt, fl, n)|; Out(code, at, len, at + len)
    decreases 2 * size, 0, t, 1
  {
    hide Gen, GetFirst, HeadFail, FixedLenX, CheckAux, Linked, Falls, BuiltFrom, Out, RulesSettle, TestChoice, FullChoice, TestRep, FullRep, TestNot, FullNot, FixedAnd, FullAnd, BehindCode, GrammarCode, Ins, SizeI;
    BuiltParts(g, t, d);
    var e := at + |Gen(g, t, opt, tt, fl, n)|;
    match t
    case TChoice(p1, p2) => ChoiceOut(size, code, at, g, p1, p2, opt, tt, fl, n, rp, u, d);
    case TRep(p) => RepOut(size, code, at, g, p, opt, tt, fl, n, rp, u, d);
    case TBehind(k, p) =>
      GenBehind(g, k, p, opt, tt, fl, n);
      BehindFalls(code, at, k, Gen(g, p, false, NoTest, FullSet(), n), rp);
      PlaceOut(size, code, at + if k > 0 then 1 else 0, g, p, false, NoTest, FullSet(), n, rp, u, d);
    case TNot(p) =>
      GenNot(g, p, opt, tt, fl, n);
      var f, c := GetFirst(g, p, FullSet(), n), Gen(g, p, false, NoTest, FullSet(), n);
      if HeadFail(g, p, n) {
        TestNotOut(code, at, f, rp);
      } else {
        FullNotParts(code, at, f, c, rp);
        PlaceOut(size, code, at + OptTestSize(f) + 2, g, p, false, NoTest, FullSet(), n, rp, u, d);
        FullNotOut(code, at, f, c, rp);
      }
    case TAnd(p) =>
      GenAnd(g, p, opt, tt, fl, n);
      var c := Gen(g, p, false, tt, FullSet(), n);
      if 0 <= FixedLen(g, p) <= MAXBEHIND {
        FixedAndFalls(code, at, FixedLen(g, p), c, rp);
        PlaceOut(size, code, at, g, p, false, tt, FullSet(), n, rp, u, d);
      } else {
        FullAndFalls(code, at, c, rp);
        PlaceOut(size, code, at + 2, g, p, false, tt, FullSet(), n, rp, u, d);
      }
    case TSeq(p1, p2) =>
      GenSeq(g, p1, p2, opt, tt, fl, n);
      var fl1, tt2 := FollowOf(g, p1, p2, fl, n), if FixedLen(g, p1) != 0 then NoTest else tt;
      var c1, c2 := Gen(g, p1, false, tt, fl1, n), Gen(g, p2, opt, tt2, fl, n);
      LinkedSplit(code, at, c1, c2, rp);
      PlaceOut(size, code, at, g, p1, false, tt, fl1, n, rp, u, d);
      PlaceOut(size, code, at + |c1|, g, p2, opt, tt2, fl, n, rp, u, d);
      OutFirst(code, at + |c1|, |c2|);
      OutOn(code, at, |c1|, at + |c1|, e);
      OutBoth(code, at, |c1|, |c2|, e);
    case TGrammar(rules) =>
      assert Gen(g, t, opt, tt, fl, n) == GrammarCode(RuleBlocks(rules, n)) by {
        GenGrammar(g, rules, opt, tt, fl, n);
      }
      var rp' := GrammarLinked(code, at, rules, n, rp);
      BodySettles(Size(t), code, at + 4, g, rules, n, rp', d);
      GrammarOut(code, at, RuleBlocks(rules, n), rp);
    case _ => LeafOut(code, at, g, t, opt, tt, fl, n, rp, u);
  }

  lemma GrammarOut(code: Code, at: int, blocks: seq<Code>, rp: seq<int>)
    requires Linked(code, at, GrammarCode(blocks), rp)
    requires forall i :: at + 4 <= i < at + 4 + |Flatten(blocks)| ==> Settles(code, i)
    ensures Out(code, at, |GrammarCode(blocks)|, at + |GrammarCode(blocks)|)
  {
    hide CorrectFrom, Flatten, Linked, Falls;
    var body := Flatten(blocks);
    var done := CorrectFrom(body, RuleOffsets(blocks), 0);
    var e := at + 4 + |body|;
    LinkedSplit(code, at, Ins(ICall(4)), Ins(IJmp(2 + |body|)) + done, rp);
    LinkedSplit(code, at + 2, Ins(IJmp(2 + |body|)), done, rp);
    FallsEnd(code, e);
    OutIns(code, at, ICall(4), rp, e);
    OutIns(code, at + 2, IJmp(2 + |body|), rp, e);
    forall i | at + 4 <= i < e
      ensures Falls(code, i, e, true)
    {
      FallsSettled(code, i, e, true);
    }
  }

  lemma {:induction false} ChoiceOut(size: nat, code: Code, at: int, g: seq<Tree>, p1: Tree, p2: Tree, opt: bool, tt: Test,
                                     fl: Charset, n: nat, rp: seq<int>, u: set<nat>, d: nat)
    requires Size(TChoice(p1, p2)) < size && BuiltFrom(g, p1, d) && BuiltFrom(g, p2, d)
    requires NoBehindLoops(p1) && NoBehindLoops(p2)
    requires WellFormed(g, p1) && WellFormed(g, p2) && Calls(p1) + Calls(p2) <= u && RulesSettle(code, u, rp)
    requires Linked(code, at, Gen(g, TChoice(p1, p2), opt, tt, fl, n), rp)
    ensures var len := |Gen(g, TChoice(p1, p2), opt, tt, fl, n)|; Out(code, at, len, at + len)
    decreases 2 * size, 0, TChoice(p1, p2), 0
  {
    hide Gen, GetFirst, HeadFail, FixedLenX, CheckAux, Linked, Falls, BuiltFrom, Out, RulesSettle, WellFormed, TestChoice, FullChoice, TestRep, FullRep, TestNot, FullNot, FixedAnd, FullAnd, BehindCode, GrammarCode, Ins;
    GenChoice(g, p1, p2, opt, tt, fl, n);
    GenChoice(g, p1, p2, opt, NoTest, fl, n);
    var f1 := GetFirst(g, p1, FullSet(), n);
    var c2 := Gen(g, p2, opt, NoTest, fl, n);
    if HeadFail(g, p1, n) || (!f1.empty && f1.cs !! GetFirst(g, p2, fl, n).cs) {
      var c1 := Gen(g, p1, false, TestOf(f1.cs), fl, n);
      TestChoiceParts(code, at, f1.cs, c1, p2.TTrue?, c2, rp);
      var off := TestSize(f1.cs) + |c1| + if p2.TTrue? then 0 else 2;
      PlaceOut(size, code, at + TestSize(f1.cs), g, p1, false, TestOf(f1.cs), fl, n, rp, u, d);
      PlaceOut(size, code, at + off, g, p2, opt, NoTest, fl, n, rp, u, d);
      TestChoiceOut(code, at, f1.cs, c1, p2.TTrue?, c2, rp);
    } else if opt && p2.TTrue? {
      var c1 := Gen(g, p1, true, NoTest, FullSet(), n);
      LinkedSplit(code, at, Ins(IPartialCommit(2)), c1, rp);
      PlaceOut(size, code, at + 2, g, p1, true, NoTest, FullSet(), n, rp, u, d);
      OutIns(code, at, IPartialCommit(2), rp, at + 2 + |c1|);
      OutBoth(code, at, 2, |c1|, at + 2 + |c1|);
    } else {
      var tt1 := if f1.empty then NoTest else TestOf(f1.cs);
      var c1 := Gen(g, p1, p2.TTrue?, tt1, FullSet(), n);
      FullChoiceParts(code, at, f1, c1, c2, rp);
      var off := OptTestSize(f1) + 2 + |c1| + 2;
      PlaceOut(size, code, at + OptTestSize(f1) + 2, g, p1, p2.TTrue?, tt1, FullSet(), n, rp, u, d);
      PlaceOut(size, code, at + off, g, p2, opt, NoTest, fl, n, rp, u, d);
      FullChoiceOut(code, at, f1, c1, c2, rp);
    }
  }

  lemma {:induction false} RepOut(size: nat, code: Code, at: int, g: seq<Tree>, p: Tree, opt: bool, tt: Test, fl: Charset,
                                  n: nat, rp: seq<int>, u: set<nat>, d: nat)
    requires Size(TRep(p)) < size && BuiltFrom(g, p, d) && WellFormed(g, p) && Calls(p) <= u && RulesSettle(code, u, rp)
    requires NoBehindLoops(p)
    requires Linked(code, at, Gen(g, TRep(p), opt, tt, fl, n), rp)
    ensures var len := |Gen(g, TRep(p), opt, tt, fl, n)|; Out(code, at, len, at + len)
    decreases 2 * size, 0, TRep(p), 0
  {
    hide Gen, GetFirst, HeadFail, FixedLenX, CheckAux, Linked, Falls, BuiltFrom, Out, RulesSettle, WellFormed, TestChoice, FullChoice, TestRep, FullRep, TestNot, FullNot, FixedAnd, FullAnd, BehindCode, GrammarCode, Ins;
    GenRep(g, p, opt, tt, fl, n);
    if IsCharset(p) {
      OutIns(code, at, ISpan(CharsetOf(p)), rp, at + CHARSETINSTSIZE);
    } else {
      var f := GetFirst(g, p, FullSet(), n);
      if HeadFail(g, p, n) || (!f.empty && f.cs !! fl) {
        var c := Gen(g, p, false, TestOf(f.cs), FullSet(), n);
        TestRepParts(code, at, f.cs, c, rp);
        PlaceOut(size, code, at + TestSize(f.cs), g, p, false, TestOf(f.cs), FullSet(), n, rp, u, d);
        TestRepOut(code, at, f.cs, c, rp);
      } else {
        var c := Gen(g, p, false, NoTest, FullSet(), n);
        FullRepParts(code, at, f, opt, c, rp);
        PlaceOut(size, code, at + OptTestSize(f) + 2, g, p, false, NoTest, FullSet(), n, rp, u, d);
        FullRepOut(code, at, f, opt, c, rp);
      }
    }
  }

  /** Chains from the code of all rules of a grammar come to an end. */
  lemma {:induction false} BodySettles(size: nat, code: Code, at: int, g: seq<Tree>, rules: seq<Tree>, n: nat, rp: seq<int>, d: nat)
    requires Size(TGrammar(rules)) == size && BuiltFrom(g, TGrammar(rules), d) && NoBehindLoops(TGrammar(rules))
    requires RulesLinked(code, rules, rp, n) && rp == Shift(at, RuleOffsets(RuleBlocks(rules, n)))
    ensures forall i :: at <= i < at + |Flatten(RuleBlocks(rules, n))| ==> Settles(code, i)
    decreases 2 * size + 1, 0, rules, 0
  {
    hide Gen, RuleCode, Linked, BuiltFrom, Flatten, Settles, LeftDeep, CheckLoops, Built, Falls, WellFormed;
    var blocks := RuleBlocks(rules, n);
    var u, b := GrammarReady(g, rules, d);
    GrammarBuilt(g, rules, d);
    RulesCallUsed(rules, d, u);
    var level := GrammarLevels(g, rules, d, u);
    forall k: nat | k in u
      ensures k < |rp| && Settles(code, rp[k])
    {
      RuleSettles(size, code, k, rules, n, rp, u, b, b, d, level);
    }
    FirstOffset(blocks);
    for j := 0 to |rules|
      invariant forall i :: at <= i < at + RuleOffset(blocks, j) ==> Settles(code, i)
    {
      RuleSmaller(rules, j);
      RuleOut(size, code, rules, j, n, rp, u, d);
      FlattenOneMore(blocks, j);
    }
    assert blocks[..|rules|] == blocks;
  }

  lemma {:induction false} RuleOut(size: nat, code: Code, rules: seq<Tree>, k: nat, n: nat, rp: seq<int>, u: set<nat>, d: nat)
    requires k < |rules| && Size(rules[k]) < size && BuiltFrom(rules, rules[k], d) && Calls(rules[k]) <= u
    requires NoBehindLoops(rules[k])
    requires RulesLinked(code, rules, rp, n) && RulesSettle(code, u, rp)
    ensures forall i :: rp[k] <= i < rp[k] + |RuleBlocks(rules, n)[k]| ==> Settles(code, i)
    decreases 2 * size, 1, rules, 0
  {
    hide Gen, Linked, BuiltFrom, Settles, RulesSettle, WellFormed, Falls;
    var c := Gen(rules, rules[k], false, NoTest, FullSet(), n);
    var e := rp[k] + |c|;
    LinkedSplit(code, rp[k], c, [IRet], rp);
    PlaceOut(size, code, rp[k], rules, rules[k], false, NoTest, FullSet(), n, rp, u, d);
    forall i | rp[k] <= i < e + 1
      ensures Settles(code, i)
    {
      if i == e {
        FallsEnd(code, e);
      }
      EndsAtReturn(code, i, e, true, rp);
    }
  }

  // ---- whole programs ---------------------------------------------------------------

  /** In the code of an accepted pattern no chain of jumps is a cycle. */
  lemma CodeSettled(t: Tree, d: nat, n: nat)
    requires Closed(t, d) && WellFormed([], t)
    ensures AllSettle(Gen([], t, false, NoTest, FullSet(), n) + [IEnd])
  {
    hide Gen, BuiltFrom, WellFormed, CheckLoops, Linked, Settles, Falls;
    var c := Gen([], t, false, NoTest, FullSet(), n);
    var code := c + [IEnd];
    CallsNothing(t, d);
    LinkedSelf(code, c, [IEnd]);
    PlaceOut(Size(t) + 1, code, 0, [], t, false, NoTest, FullSet(), n, [], {}, d);
    SettlesHere(code, |c|);
    forall i: int
      ensures Settles(code, i)
    {
      if 0 <= i < |c| {
        SettledAfter(code, i, |c|);
      } else {
        SettlesHere(code, i);
      }
    }
  }

  lemma SettledAfter(code: Code, i: int, e: int)
    requires Falls(code, i, e, true) && Settles(code, e)
    ensures Settles(code, i)
  {
    hide Settles, Chain;
    if Chain(code, i, e) {
      SettlesAlong(code, i, e);
    }
  }

  lemma {:induction false} CorrectFromCalls(code: Code, positions: seq<int>, i: nat)
    ensures OnlyCallsChanged(code, CorrectFrom(code, positions, i))
    decreases |code| - i
  {
    if i < |code| {
      CorrectFromCalls(CorrectAt(code, positions, i), positions, i + 1);
    }
  }

  /** Before calls are resolved chains are shorter. */
  lemma {:induction false} UnresolvedSettles(a: Code, b: Code, i: int, k: nat)
    requires OnlyCallsChanged(a, b) && Rests(b, FinalTarget(b, i, k))
    ensures Settles(a, i)
    decreases k
  {
    if Rests(a, i) {
      SettlesHere(a, i);
    } else {
      assert b[i] == a[i];
      UnresolvedSettles(a, b, i + a[i].off, k - 1);
      SettlesNext(a, i);
    }
  }

  /** While `correctcalls` works on the rules of an accepted grammar, no chain of jumps is a
      cycle: `code` is what it has made of them when it comes to slot `i`. */
  lemma ResolvingSettled(g: seq<Tree>, rules: seq<Tree>, d: nat, n: nat, code: Code, i: nat)
    requires BuiltFrom(g, TGrammar(rules), d) && WellFormed(g, TGrammar(rules)) && NoBehindLoops(TGrammar(rules))
    requires var body, positions := Flatten(RuleBlocks(rules, n)), RuleOffsets(RuleBlocks(rules, n));
             CorrectFrom(code, positions, i) == CorrectFrom(body, positions, 0)
    ensures AllSettle(code)
  {
    hide Gen, BuiltFrom, Settles, CorrectFrom, Flatten, RuleBlocks, RuleOffset;
    var blocks := RuleBlocks(rules, n);
    var body, positions := Flatten(blocks), RuleOffsets(blocks);
    var done := CorrectFrom(body, positions, 0);
    CorrectFromResolves(body, body, positions, 0);
    assert Shift(0, positions) == positions;
    assert Linked(done, 0, body, positions);
    RulesPlaced(done, 0, rules, n, positions);
    BodySettles(Size(TGrammar(rules)), done, 0, g, rules, n, positions, d);
    CorrectFromCalls(code, positions, i);
    forall j: int
      ensures Settles(code, j)
    {
      if 0 <= j < |done| {
        EarlierSettles(code, done, j);
      } else {
        SettlesHere(code, j);
      }
    }
  }

  lemma EarlierSettles(a: Code, b: Code, i: int)
    requires OnlyCallsChanged(a, b) && Settles(b, i)
    ensures Settles(a, i)
  {
    var k: nat :| Rests(b, FinalTarget(b, i, k));
    UnresolvedSettles(a, b, i, k);
  }
}
