/** The layout of generated code: instructions follow each other with their operand slots,
    jumps stay inside the block, and chains of jumps are short. */
module PegLayout {
  import opened Sets
  import opened Charset
  import opened Peg
  import opened PegAnalysis
  import opened PegVm
  import opened PegCode
  import opened PegLink
  import opened PegPeephole

  /** Walking by `SizeI` visits every instruction, and the slots skipped are operands. */
  predicate Laid(c: Code) {
    c == []
    || (&& !c[0].Pad?
        && SizeI(c[0]) <= |c|
        && (forall k :: 0 < k < SizeI(c[0]) ==> c[k].Pad?)
        && Laid(c[SizeI(c[0])..]))
  }

  /** Jumps of a block lead into the block or to its end. */
  predicate JumpsInside(c: Code) {
    forall j :: 0 <= j < |c| && c[j].IJmp? ==> 0 <= j + c[j].off <= |c|
  }

  predicate Tidy(c: Code) {
    Laid(c) && JumpsInside(c)
  }

  lemma {:induction false} LaidConcat(a: Code, b: Code)
    requires Laid(a) && Laid(b)
    ensures Laid(a + b)
    decreases |a|
  {
    if a == [] {
      assert a + b == b;
    } else {
      var k := SizeI(a[0]);
      LaidConcat(a[k..], b);
      assert (a + b)[k..] == a[k..] + b;
    }
  }

  lemma TidyConcat(a: Code, b: Code)
    requires Tidy(a) && Tidy(b)
    ensures Tidy(a + b)
  {
    LaidConcat(a, b);
    forall j | 0 <= j < |a + b| && (a + b)[j].IJmp?
      ensures 0 <= j + (a + b)[j].off <= |a + b|
    {
      if j >= |a| {
        assert (a + b)[j] == b[j - |a|];
      }
    }
  }

  lemma TidyIns(x: Instr)
    requires !x.Pad? && !x.IJmp?
    ensures Tidy(Ins(x))
  {
    assert Ins(x)[SizeI(x)..] == [];
  }

  lemma TidyOne(x: Instr)
    requires !x.Pad? && SizeI(x) == 1
    ensures Tidy([x])
  {
    assert [x][1..] == [];
  }

  /** A block that starts with a jump or test over all of it. */
  lemma TidyGuard(x: Instr, body: Code)
    requires !x.Pad? && (x.IJmp? ==> 0 <= x.off <= SizeI(x) + |body|)
    requires Tidy(body)
    ensures Tidy(Ins(x) + body)
  {
    var c := Ins(x) + body;
    assert Laid(Ins(x)) by {
      assert Ins(x)[SizeI(x)..] == [];
    }
    LaidConcat(Ins(x), body);
    forall j | 0 <= j < |c| && c[j].IJmp?
      ensures 0 <= j + c[j].off <= |c|
    {
      if j >= SizeI(x) {
        assert c[j] == body[j - SizeI(x)];
      } else {
        assert c[j] == Ins(x)[j];
      }
    }
  }

  lemma TidyOptTest(f: First, off: int, body: Code)
    requires off == OptTestSize(f) + |body| && Tidy(body)
    ensures Tidy(OptTest(f, off) + body)
  {
    if f.empty {
      assert OptTest(f, off) + body == body;
    } else {
      TidyGuard(TestInstr(f.cs, off), body);
    }
  }

  /** A block that ends with a jump back into it. */
  lemma TidyBack(body: Code, off: int)
    requires Tidy(body) && -|body| <= off <= 0
    ensures Tidy(body + Ins(IJmp(off)))
  {
    var c := body + Ins(IJmp(off));
    assert Laid(Ins(IJmp(off))) by {
      assert Ins(IJmp(off))[2..] == [];
    }
    LaidConcat(body, Ins(IJmp(off)));
    forall j | 0 <= j < |c| && c[j].IJmp?
      ensures 0 <= j + c[j].off <= |c|
    {
      if j >= |body| {
        assert c[j] == Ins(IJmp(off))[j - |body|];
      }
    }
  }

  lemma {:induction false} LaidSlots(c: Code, j: nat)
    requires Laid(c) && j < |c| && (c[j].IJmp? || c[j].IOpenCall?)
    ensures j + 1 < |c| && c[j + 1].Pad?
    decreases |c|
  {
    var k := SizeI(c[0]);
    if j >= k {
      LaidSlots(c[k..], j - k);
    }
  }

  lemma LaidPadded(c: Code)
    requires Laid(c)
    ensures JumpsPadded(c)
  {
    forall j | 0 <= j < |c| && c[j].IJmp?
      ensures j + 1 < |c| && c[j + 1].Pad?
    {
      LaidSlots(c, j);
    }
  }

  /** Resolving calls keeps the layout. */
  lemma {:induction false} LaidStable(a: Code, b: Code)
    requires Laid(a) && |a| == |b|
    requires forall k :: 0 <= k < |a| ==> SizeI(b[k]) == SizeI(a[k]) && (b[k].Pad? <==> a[k].Pad?)
    ensures Laid(b)
    decreases |a|
  {
    if a != [] {
      LaidStable(a[SizeI(a[0])..], b[SizeI(a[0])..]);
    }
  }

  predicate PositionsInside(positions: seq<int>, size: nat) {
    forall k :: 0 <= k < |positions| ==> 0 <= positions[k] <= size
  }

  lemma TidyCorrected(body: Code, done: Code, positions: seq<int>)
    requires Tidy(body) && PositionsInside(positions, |body|)
    requires ResolvedBelow(body, done, positions, |body|)
    requires forall k :: 0 <= k < |body| && body[k].IOpenCall? && body[k].key >= |positions| ==> done[k] == body[k]
    ensures Tidy(done)
  {
    forall k | 0 <= k < |body|
      ensures SizeI(done[k]) == SizeI(body[k]) && (done[k].Pad? <==> body[k].Pad?)
      ensures done[k].IJmp? ==> 0 <= k + done[k].off <= |done|
    {
      assert LinkSlot(done, k, body[k], positions);
    }
    LaidStable(body, done);
  }

  /** Calls of rules that do not exist stay as they are. */
  lemma {:induction false} CorrectFromKeeps(code: Code, positions: seq<int>, i: nat, k: nat)
    requires k < |code| && (code[k].IOpenCall? ==> code[k].key >= |positions|)
    ensures CorrectFrom(code, positions, i)[k] == code[k]
    decreases |code| - i
  {
    if i < |code| {
      CorrectFromKeeps(CorrectAt(code, positions, i), positions, i + 1, k);
    }
  }

  lemma {:induction false} OffsetsInside(blocks: seq<Code>, k: nat)
    requires k <= |blocks|
    ensures RuleOffset(blocks, k) <= |Flatten(blocks)|
  {
    if k < |blocks| {
      FlattenSplit(blocks, k);
    } else {
      assert blocks[..k] == blocks;
    }
  }

  lemma {:induction false} FlattenTidy(blocks: seq<Code>)
    requires forall k :: 0 <= k < |blocks| ==> Tidy(blocks[k])
    ensures Tidy(Flatten(blocks))
  {
    if blocks != [] {
      FlattenTidy(blocks[1..]);
      TidyConcat(blocks[0], Flatten(blocks[1..]));
    }
  }

  lemma GrammarTidy(blocks: seq<Code>)
    requires forall k :: 0 <= k < |blocks| ==> Tidy(blocks[k])
    ensures Tidy(GrammarCode(blocks))
  {
    hide Laid, JumpsInside, CorrectFrom;
    var body, positions := Flatten(blocks), RuleOffsets(blocks);
    FlattenTidy(blocks);
    forall k | 0 <= k < |positions|
      ensures 0 <= positions[k] <= |body|
    {
      OffsetsInside(blocks, k);
    }
    var done := CorrectFrom(body, positions, 0);
    assert ResolvedBelow(body, body, positions, 0);
    CorrectFromResolves(body, body, positions, 0);
    forall k | 0 <= k < |body| && body[k].IOpenCall? && body[k].key >= |positions|
      ensures done[k] == body[k]
    {
      CorrectFromKeeps(body, positions, 0, k);
    }
    TidyCorrected(body, done, positions);
    TidyGuard(IJmp(2 + |body|), done);
    TidyGuard(ICall(4), Ins(IJmp(2 + |body|)) + done);
  }

  lemma LeafTidy(g: seq<Tree>, t: Tree, opt: bool, tt: Test, fl: Charset, n: nat)
    requires t.TChar? || t.TAny? || t.TSet? || t.TTrue? || t.TFalse? || t.TCall?
    ensures Tidy(Gen(g, t, opt, tt, fl, n))
  {
    hide Laid, JumpsInside;
    match t
    case TChar(c) =>
      TidyOne(IChar(c));
      TidyOne(IAny);
    case TAny => TidyOne(IAny);
    case TSet(cs) =>
      TidyIns(ISet(cs));
      TidyOne(IAny);
      TidyOne(IFail);
      if KindOf(cs).Singleton? {
        TidyOne(IChar(KindOf(cs).c));
      }
    case TTrue => TidyEmpty();
    case TFalse => TidyOne(IFail);
    case TCall(k) => TidyIns(IOpenCall(k % RULENUMBERS, 0));
  }

  lemma TidyEmpty()
    ensures Tidy([])
  {
  }

  lemma FullChoiceTidy(f: First, c1: Code, c2: Code)
    requires Tidy(c1) && Tidy(c2)
    ensures Tidy(FullChoice(f, c1, c2))
  {
    hide Laid, JumpsInside;
    TidyIns(ICommit(2 + |c2|));
    TidyConcat(Ins(ICommit(2 + |c2|)), c2);
    TidyConcat(c1, Ins(ICommit(2 + |c2|)) + c2);
    var body := c1 + (Ins(ICommit(2 + |c2|)) + c2);
    TidyIns(IChoice(2 + |c1| + 2));
    TidyConcat(Ins(IChoice(2 + |c1| + 2)), body);
    var off := OptTestSize(f) + 2 + |c1| + 2;
    if f.empty {
      assert OptTest(f, off) + (Ins(IChoice(2 + |c1| + 2)) + body) == Ins(IChoice(2 + |c1| + 2)) + body;
    } else {
      TidyGuard(TestInstr(f.cs, off), Ins(IChoice(2 + |c1| + 2)) + body);
    }
  }

  lemma TestChoiceTidy(cs: Charset, c1: Code, emptyp2: bool, c2: Code)
    requires Tidy(c1) && Tidy(c2)
    ensures Tidy(TestChoice(cs, c1, emptyp2, c2))
  {
    hide Laid, JumpsInside;
    var jmp := if emptyp2 then [] else Ins(IJmp(2 + |c2|));
    if emptyp2 {
      assert jmp + c2 == c2;
    } else {
      TidyGuard(IJmp(2 + |c2|), c2);
    }
    TidyConcat(c1, jmp + c2);
    TidyGuard(TestInstr(cs, TestSize(cs) + |c1| + |jmp|), c1 + (jmp + c2));
  }

  lemma RepTidy(f: First, opt: bool, c: Code)
    requires Tidy(c)
    ensures Tidy(FullRep(f, opt, c))
  {
    hide Laid, JumpsInside;
    TidyIns(IPartialCommit(-|c|));
    TidyConcat(c, Ins(IPartialCommit(-|c|)));
    var enter := if opt then IPartialCommit(2) else IChoice(2 + |c| + 2);
    TidyIns(enter);
    TidyConcat(Ins(enter), c + Ins(IPartialCommit(-|c|)));
    TidyOptTest(f, OptTestSize(f) + 2 + |c| + 2, Ins(enter) + (c + Ins(IPartialCommit(-|c|))));
  }

  lemma TestRepTidy(cs: Charset, c: Code)
    requires Tidy(c)
    ensures Tidy(TestRep(cs, c))
  {
    hide Laid, JumpsInside;
    var test, back := TestInstr(cs, TestSize(cs) + |c| + 2), TestSize(cs) + |c|;
    if test.IJmp? {
      // the jump over the loop is only inside the block with the jump back in place
      TestRepJumps(test, c, back);
    } else {
      TidyIns(test);
      TidyConcat(Ins(test), c);
      TidyBack(Ins(test) + c, -back);
      assert Ins(test) + (c + Ins(IJmp(-back))) == (Ins(test) + c) + Ins(IJmp(-back));
    }
  }

  lemma TestRepJumps(test: Instr, c: Code, back: int)
    requires Tidy(c) && back == 2 + |c| && test == IJmp(back + 2)
    ensures Tidy(Ins(test) + (c + Ins(IJmp(-back))))
  {
    var d := Ins(test) + (c + Ins(IJmp(-back)));
    assert Laid(Ins(test)) by {
      assert Ins(test)[2..] == [];
    }
    assert Laid(Ins(IJmp(-back))) by {
      assert Ins(IJmp(-back))[2..] == [];
    }
    LaidConcat(c, Ins(IJmp(-back)));
    LaidConcat(Ins(test), c + Ins(IJmp(-back)));
    forall j | 0 <= j < |d| && d[j].IJmp?
      ensures 0 <= j + d[j].off <= |d|
    {
      if j < 2 {
        assert d[j] == Ins(test)[j];
      } else if j < 2 + |c| {
        assert d[j] == c[j - 2];
      } else {
        assert d[j] == Ins(IJmp(-back))[j - 2 - |c|];
      }
    }
  }

  lemma NotTidy(f: First, c: Code)
    requires Tidy(c)
    ensures Tidy(FullNot(f, c)) && Tidy(TestNot(f))
  {
    hide Laid, JumpsInside;
    TidyOne(IFail);
    TidyOptTest(f, OptTestSize(f) + 1, [IFail]);
    TidyOne(IFailTwice);
    TidyConcat(c, [IFailTwice]);
    TidyIns(IChoice(2 + |c| + 1));
    TidyConcat(Ins(IChoice(2 + |c| + 1)), c + [IFailTwice]);
    TidyOptTest(f, OptTestSize(f) + 2 + |c| + 1, Ins(IChoice(2 + |c| + 1)) + (c + [IFailTwice]));
  }

  lemma AndTidy(len: nat, c: Code)
    requires Tidy(c)
    ensures Tidy(FixedAnd(len, c)) && Tidy(FullAnd(c)) && Tidy(BehindCode(len, c))
  {
    hide Laid, JumpsInside;
    var head := if len > 0 then [IBehind(len)] else [];
    TidyEmpty();
    TidyOne(IBehind(len));
    TidyConcat(c, head);
    TidyConcat(head, c);
    TidyOne(IFail);
    TidyIns(IBackCommit(3));
    TidyConcat(Ins(IBackCommit(3)), [IFail]);
    TidyConcat(c, Ins(IBackCommit(3)) + [IFail]);
    TidyIns(IChoice(2 + |c| + 2));
    TidyConcat(Ins(IChoice(2 + |c| + 2)), c + (Ins(IBackCommit(3)) + [IFail]));
  }

  lemma ChoiceTidy(g: seq<Tree>, p1: Tree, p2: Tree, opt: bool, tt: Test, fl: Charset, n: nat)
    ensures Tidy(Gen(g, TChoice(p1, p2), opt, tt, fl, n))
    decreases TChoice(p1, p2), 0
  {
    hide Gen, Tidy, GetFirst, HeadFail, CheckAux, FixedLenX;
    GenChoice(g, p1, p2, opt, tt, fl, n);
    var f1 := GetFirst(g, p1, FullSet(), n);
    var tt1 := if f1.empty then NoTest else TestOf(f1.cs);
    var c2 := Gen(g, p2, opt, NoTest, fl, n);
    GenTidy(g, p2, opt, NoTest, fl, n);
    GenTidy(g, p1, false, TestOf(f1.cs), fl, n);
    GenTidy(g, p1, true, NoTest, FullSet(), n);
    GenTidy(g, p1, p2.TTrue?, tt1, FullSet(), n);
    TestChoiceTidy(f1.cs, Gen(g, p1, false, TestOf(f1.cs), fl, n), p2.TTrue?, c2);
    FullChoiceTidy(f1, Gen(g, p1, p2.TTrue?, tt1, FullSet(), n), c2);
    TidyIns(IPartialCommit(2));
    TidyConcat(Ins(IPartialCommit(2)), Gen(g, p1, true, NoTest, FullSet(), n));
  }

  lemma LoopTidy(g: seq<Tree>, p: Tree, opt: bool, tt: Test, fl: Charset, n: nat)
    ensures Tidy(Gen(g, TRep(p), opt, tt, fl, n))
    decreases TRep(p), 0
  {
    hide Gen, Tidy, GetFirst, HeadFail, CheckAux, FixedLenX;
    GenRep(g, p, opt, tt, fl, n);
    if IsCharset(p) {
      TidyIns(ISpan(CharsetOf(p)));
    } else {
      var f := GetFirst(g, p, FullSet(), n);
      GenTidy(g, p, false, TestOf(f.cs), FullSet(), n);
      GenTidy(g, p, false, NoTest, FullSet(), n);
      TestRepTidy(f.cs, Gen(g, p, false, TestOf(f.cs), FullSet(), n));
      RepTidy(f, opt, Gen(g, p, false, NoTest, FullSet(), n));
    }
  }

  lemma RulesTidy(g: seq<Tree>, rules: seq<Tree>, opt: bool, tt: Test, fl: Charset, n: nat)
    ensures Tidy(Gen(g, TGrammar(rules), opt, tt, fl, n))
    decreases TGrammar(rules), 0
  {
    hide Tidy, GetFirst, HeadFail, CheckAux, FixedLenX, GrammarCode;
    var blocks := RuleBlocks(rules, n);
    forall k | 0 <= k < |rules|
      ensures Tidy(blocks[k])
    {
      GenTidy(rules, rules[k], false, NoTest, FullSet(), n);
      TidyOne(IRet);
      TidyConcat(Gen(rules, rules[k], false, NoTest, FullSet(), n), [IRet]);
    }
    GrammarTidy(blocks);
    assert Gen(g, TGrammar(rules), opt, tt, fl, n) == GrammarCode(blocks);
  }

  lemma {:induction false} GenTidy(g: seq<Tree>, t: Tree, opt: bool, tt: Test, fl: Charset, n: nat)
    ensures Tidy(Gen(g, t, opt, tt, fl, n))
    decreases t, 1
  {
    hide Gen, Tidy, GetFirst, HeadFail, CheckAux, FixedLenX;
    match t
    case TChoice(p1, p2) => ChoiceTidy(g, p1, p2, opt, tt, fl, n);
    case TRep(p) => LoopTidy(g, p, opt, tt, fl, n);
    case TBehind(k, p) =>
      GenBehind(g, k, p, opt, tt, fl, n);
      GenTidy(g, p, false, NoTest, FullSet(), n);
      AndTidy(k, Gen(g, p, false, NoTest, FullSet(), n));
    case TNot(p) =>
      GenNot(g, p, opt, tt, fl, n);
      GenTidy(g, p, false, NoTest, FullSet(), n);
      NotTidy(GetFirst(g, p, FullSet(), n), Gen(g, p, false, NoTest, FullSet(), n));
    case TAnd(p) =>
      GenAnd(g, p, opt, tt, fl, n);
      GenTidy(g, p, false, tt, FullSet(), n);
      AndTidy(if FixedLen(g, p) >= 0 then FixedLen(g, p) else 0, Gen(g, p, false, tt, FullSet(), n));
    case TSeq(p1, p2) =>
      GenSeq(g, p1, p2, opt, tt, fl, n);
      var tt2 := if FixedLen(g, p1) != 0 then NoTest else tt;
      GenTidy(g, p1, false, tt, FollowOf(g, p1, p2, fl, n), n);
      GenTidy(g, p2, opt, tt2, fl, n);
      TidyConcat(Gen(g, p1, false, tt, FollowOf(g, p1, p2, fl, n), n), Gen(g, p2, opt, tt2, fl, n));
    case TGrammar(rules) => RulesTidy(g, rules, opt, tt, fl, n);
    case _ => LeafTidy(g, t, opt, tt, fl, n);
  }

  // ---- jump chains never need more jumps than there are slots -----------------------

  predicate Rests(code: Code, i: int) {
    !(0 <= i < |code| && code[i].IJmp?)
  }

  ghost function Visited(code: Code, i: int, k: nat): set<int> {
    set j: nat | j < k :: FinalTarget(code, i, j)
  }

  /** Before its end a chain that ends passes no slot twice. */
  lemma NoRepeat(code: Code, i: int, j1: nat, j2: nat, k: nat)
    requires j1 < j2 <= k && Rests(code, FinalTarget(code, i, k))
    requires forall j: nat :: j < k ==> !Rests(code, FinalTarget(code, i, j))
    ensures FinalTarget(code, i, j1) != FinalTarget(code, i, j2)
  {
    if FinalTarget(code, i, j1) == FinalTarget(code, i, j2) {
      FinalTargetAdd(code, i, j1, k - j2);
      FinalTargetAdd(code, i, j2, k - j2);
    }
  }

  lemma {:induction false} VisitedSize(code: Code, i: int, j: nat, k: nat)
    requires j <= k && Rests(code, FinalTarget(code, i, k))
    requires forall j: nat :: j < k ==> !Rests(code, FinalTarget(code, i, j))
    ensures |Visited(code, i, j)| == j
  {
    if j > 0 {
      VisitedSize(code, i, j - 1, k);
      assert Visited(code, i, j) == Visited(code, i, j - 1) + {FinalTarget(code, i, j - 1)};
      if FinalTarget(code, i, j - 1) in Visited(code, i, j - 1) {
        var j1: nat :| j1 < j - 1 && FinalTarget(code, i, j1) == FinalTarget(code, i, j - 1);
        NoRepeat(code, i, j1, j - 1, k);
      }
    }
  }

  lemma {:induction false} FirstRest(code: Code, i: int, k: nat) returns (k': nat)
    requires Rests(code, FinalTarget(code, i, k))
    ensures k' <= k && FinalTarget(code, i, k') == FinalTarget(code, i, k)
    ensures Rests(code, FinalTarget(code, i, k'))
    ensures forall j: nat :: j < k' ==> !Rests(code, FinalTarget(code, i, j))
  {
    k' := k;
    if exists j: nat :: j < k && Rests(code, FinalTarget(code, i, j)) {
      var j: nat :| j < k && Rests(code, FinalTarget(code, i, j));
      FinalTargetAdd(code, i, j, k - j);
      k' := FirstRest(code, i, j);
    }
  }

  /** If a chain of jumps ends at all, `|code|` jumps reach its end: there the bounded
      `FinalTarget` is the unbounded `finaltarget` of the source. */
  lemma FinalTargetExact(code: Code, i: int, k: nat, limit: nat)
    requires Rests(code, FinalTarget(code, i, k)) && limit >= |code|
    ensures FinalTarget(code, i, limit) == FinalTarget(code, i, k)
  {
    var k' := FirstRest(code, i, k);
    VisitedSize(code, i, k', k');
    assert Visited(code, i, k') <= Range(|code|);
    SubsetSize(Visited(code, i, k'), Range(|code|));
    FinalTargetAdd(code, i, k', limit - k');
  }

  /** The chain of jumps from `i` comes to an end. */
  ghost predicate Settles(code: Code, i: int) {
    exists k: nat :: Rests(code, FinalTarget(code, i, k))
  }

  /** No chain of jumps is a cycle. */
  ghost predicate AllSettle(code: Code) {
    forall i: int :: Settles(code, i)
  }

  lemma SettlesHere(code: Code, i: int)
    requires Rests(code, i)
    ensures Settles(code, i)
  {
    assert FinalTarget(code, i, 0) == i;
  }

  lemma SettlesNext(code: Code, i: int)
    requires 0 <= i < |code| && code[i].IJmp? && Settles(code, i + code[i].off)
    ensures Settles(code, i)
  {
    var k: nat :| Rests(code, FinalTarget(code, i + code[i].off, k));
    assert Rests(code, FinalTarget(code, i, k + 1));
  }

  /** Jumps that are left alone, or that lead at once to the end of a chain. */
  predicate JumpsShortened(a: Code, b: Code) {
    |a| == |b|
    && forall j :: 0 <= j < |b| && b[j].IJmp? ==> a[j].IJmp? && (b[j] == a[j] || Rests(a, j + b[j].off))
  }

  lemma {:induction false} ShortenedSettles(a: Code, b: Code, i: int, k: nat)
    requires JumpsShortened(a, b) && Rests(a, FinalTarget(a, i, k))
    ensures Settles(b, i)
    decreases k
  {
    if Rests(b, i) {
      SettlesHere(b, i);
    } else if b[i] == a[i] {
      ShortenedSettles(a, b, i + a[i].off, k - 1);
      SettlesNext(b, i);
    } else {
      SettlesHere(b, i + b[i].off);
      SettlesNext(b, i);
    }
  }

  /** A round of `peephole` makes no cycle of jumps. */
  lemma PeepAtSettled(code: Code, i: nat)
    requires i < |code| && AllSettle(code)
    ensures AllSettle(PeepAt(code, i))
  {
    hide FinalTarget;
    var b := PeepAt(code, i);
    assert Settles(code, i);
    var k: nat :| Rests(code, FinalTarget(code, i, k));
    FinalTargetExact(code, i, k, |code|);
    assert JumpsShortened(code, b);
    forall j: int
      ensures Settles(b, j)
    {
      assert Settles(code, j);
      var m: nat :| Rests(code, FinalTarget(code, j, m));
      ShortenedSettles(code, b, j, m);
    }
  }

  /** `peephole` makes no cycle of jumps. */
  lemma {:induction false} PeepholeSettled(code: Code, i: nat)
    requires AllSettle(code)
    ensures AllSettle(Peephole(code, i))
    decreases |code| - i
  {
    hide PeepAt, Settles;
    if i < |code| {
      PeepAtSettled(code, i);
      var next := PeepAt(code, i);
      PeepholeSettled(next, i + SizeI(next[i]));
    }
  }
}
