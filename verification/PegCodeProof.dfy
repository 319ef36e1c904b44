/** The code generated for a pattern does on the machine what the pattern means. */
module PegCodeProof {
  import opened Charset
  import opened Peg
  import opened PegAnalysis
  import opened PegVm
  import opened PegCode
  import opened PegLink

  /** A program with its subject, the grammar in scope and where its rules are. */
  datatype Cx = Cx(code: Code, s: Subject, g: seq<Tree>, rp: seq<int>, n: nat)

  ghost predicate Joins(cx: Cx, a: State, b: State) {
    Join(cx.code, cx.s, a, b)
  }

  predicate TopChoice(st: Stack) {
    st.Push? && st.top.Choice?
  }

  /** What a block may rely on: inside an option the option's choice is on top, and nothing
      is known about what follows. */
  predicate Entry(opt: bool, st: Stack, fl: Charset) {
    opt ==> TopChoice(st) && fl == FullSet()
  }

  /** The block ends at `end` with the subject at `j`; inside an option the saved position of
      the choice may have moved. */
  ghost predicate Arrives(cx: Cx, opt: bool, a: State, end: int, j: nat, st: Stack)
    requires opt ==> TopChoice(st)
  {
    if opt then exists k: nat :: Joins(cx, a, Run(end, j, Push(Choice(st.top.pc, k), st.rest)))
    else Joins(cx, a, Run(end, j, st))
  }

  /** The block fails where the pattern matches up to `j`, harmlessly: inside an option the
      failure resumes after the option at `j`; elsewhere what follows cannot match at `j`. */
  ghost predicate Harmless(cx: Cx, opt: bool, a: State, j: nat, st: Stack, fl: Charset)
    requires opt ==> TopChoice(st)
  {
    if opt then Joins(cx, a, Run(st.top.pc, j, st.rest))
    else Outside(cx.s, j, fl) && Joins(cx, a, Backtrack(st))
  }

  /** State `a` is right for a pattern whose meaning here is `r` and whose code ends at `end`. */
  ghost predicate Ok(cx: Cx, opt: bool, a: State, end: int, st: Stack, fl: Charset, r: Result)
    requires opt ==> TopChoice(st)
  {
    match r
    case Unknown => true
    case Fail => Joins(cx, a, Backtrack(st))
    case Succ(j) => Arrives(cx, opt, a, end, j, st) || Harmless(cx, opt, a, j, st, fl)
  }

  lemma OkUnknown(cx: Cx, opt: bool, a: State, end: int, st: Stack, fl: Charset)
    requires opt ==> TopChoice(st)
    ensures Ok(cx, opt, a, end, st, fl, Unknown)
  {
  }

  lemma OkJoin(cx: Cx, opt: bool, a: State, b: State, end: int, st: Stack, fl: Charset, r: Result)
    requires Entry(opt, st, fl) && Joins(cx, a, b) && Ok(cx, opt, b, end, st, fl, r)
    ensures Ok(cx, opt, a, end, st, fl, r)
  {
    match r
    case Unknown =>
    case Fail => JoinTrans(cx.code, cx.s, a, b, Backtrack(st));
    case Succ(j) =>
      if opt {
        if Arrives(cx, opt, b, end, j, st) {
          var k: nat :| Joins(cx, b, Run(end, j, Push(Choice(st.top.pc, k), st.rest)));
          JoinTrans(cx.code, cx.s, a, b, Run(end, j, Push(Choice(st.top.pc, k), st.rest)));
        } else {
          JoinTrans(cx.code, cx.s, a, b, Run(st.top.pc, j, st.rest));
        }
      } else {
        if Arrives(cx, opt, b, end, j, st) {
          JoinTrans(cx.code, cx.s, a, b, Run(end, j, st));
        } else {
          JoinTrans(cx.code, cx.s, a, b, Backtrack(st));
        }
      }
  }

  lemma OkStep(cx: Cx, opt: bool, a: State, b: State, end: int, st: Stack, fl: Charset, r: Result)
    requires Entry(opt, st, fl) && Step(cx.code, cx.s, a) == b && Ok(cx, opt, b, end, st, fl, r)
    ensures Ok(cx, opt, a, end, st, fl, r)
  {
    JoinStep(cx.code, cx.s, a);
    OkJoin(cx, opt, a, b, end, st, fl, r);
  }

  /** Reaching the end with the stack as it was is fine in every mode. */
  lemma OkEnd(cx: Cx, opt: bool, a: State, end: int, j: nat, st: Stack, fl: Charset)
    requires Entry(opt, st, fl) && Joins(cx, a, Run(end, j, st))
    ensures Ok(cx, opt, a, end, st, fl, Succ(j))
  {
    if opt {
      assert st == Push(Choice(st.top.pc, st.top.pos), st.rest);
      assert Joins(cx, a, Run(end, j, Push(Choice(st.top.pc, st.top.pos), st.rest)));
    }
  }

  /** A block that has to be exact, followed by instructions that take its end to `end`. */
  lemma OkContinue(cx: Cx, opt: bool, a: State, mid: State, end: int, j: nat, st: Stack, fl: Charset)
    requires Entry(opt, st, fl) && Joins(cx, a, mid) && Step(cx.code, cx.s, mid) == Run(end, j, st)
    ensures Ok(cx, opt, a, end, st, fl, Succ(j))
  {
    JoinTo(cx.code, cx.s, a, mid);
    OkEnd(cx, opt, a, end, j, st, fl);
  }

  /** The step that a linked instruction takes. */
  lemma InsStep(cx: Cx, at: int, x: Instr, i: nat, st: Stack)
    requires Linked(cx.code, at, Ins(x), cx.rp) && !x.IOpenCall?
    ensures Step(cx.code, cx.s, Run(at, i, st)) == Exec(cx.s, x, at, i, st)
  {
    LinkedIns(cx.code, at, x, cx.rp);
  }

  lemma OneStep(cx: Cx, at: int, x: Instr, i: nat, st: Stack)
    requires Linked(cx.code, at, [x], cx.rp) && !x.IOpenCall?
    ensures Step(cx.code, cx.s, Run(at, i, st)) == Exec(cx.s, x, at, i, st)
  {
    LinkedOne(cx.code, at, x, cx.rp);
  }

  /** A test instruction falls through exactly on the characters of its set. */
  lemma TestStep(cx: Cx, at: int, cs: Charset, off: int, i: nat, st: Stack)
    requires Linked(cx.code, at, Ins(TestInstr(cs, off)), cx.rp)
    ensures Step(cx.code, cx.s, Run(at, i, st))
         == if At(cx.s, i, cs) then Run(at + TestSize(cs), i, st) else Run(at + off, i, st)
    ensures At(cx.s, i, cs) ==> TestHolds(TestOf(cs), cx.s, i)
  {
    hide Linked, Step;
    InsStep(cx, at, TestInstr(cs, off), i, st);
  }

  /** A pattern fails where its first set does not hold the next character. */
  lemma OutsideFirstFails(g: seq<Tree>, p: Tree, n: nat, s: Subject, i: nat, m: nat)
    requires i <= |s| && !At(s, i, GetFirst(g, p, FullSet(), n).cs)
    requires i < |s| || !GetFirst(g, p, FullSet(), n).empty
    ensures !Match(g, p, s, i, m).Succ?
  {
    if i < |s| {
      FirstSound(g, p, FullSet(), n, s, i, m);
    } else {
      FirstEmptySound(g, p, FullSet(), n, s, m);
    }
  }

  lemma {:induction false} SpanSound(g: seq<Tree>, p: Tree, s: Subject, i: nat, m: nat)
    requires i <= |s| && IsCharset(p) && !Match(g, TRep(p), s, i, m).Unknown?
    ensures Match(g, TRep(p), s, i, m) == Succ(SpanEnd(s, i, CharsetOf(p)))
    decreases m
  {
    MatchCharset(g, p, s, i, m);
    if At(s, i, CharsetOf(p)) {
      SpanSound(g, p, s, i + 1, m - 1);
    }
  }

  lemma {:induction false} ChainJoin(code: Code, s: Subject, i: int, pos: nat, st: Stack, k: nat)
    ensures Join(code, s, Run(i, pos, st), Run(FinalTarget(code, i, k), pos, st))
    decreases k
  {
    JoinRefl(code, s, Run(i, pos, st));
    if k > 0 && 0 <= i < |code| && code[i].IJmp? {
      ChainJoin(code, s, i + code[i].off, pos, st, k - 1);
      assert Step(code, s, Run(i, pos, st)) == Run(i + code[i].off, pos, st);
      JoinFrom(code, s, Run(i, pos, st), Run(FinalTarget(code, i, k), pos, st));
    }
  }

  // ---- the meaning of each kind of pattern, unfolded once ----------------------------

  lemma MatchSeq(g: seq<Tree>, p1: Tree, p2: Tree, s: Subject, i: nat, m: nat)
    requires i <= |s|
    ensures var r := Match(g, p1, s, i, m);
            Match(g, TSeq(p1, p2), s, i, m) == if r.Succ? then Match(g, p2, s, r.pos, m) else r
  {
  }

  lemma MatchChoice(g: seq<Tree>, p1: Tree, p2: Tree, s: Subject, i: nat, m: nat)
    requires i <= |s|
    ensures var r := Match(g, p1, s, i, m);
            Match(g, TChoice(p1, p2), s, i, m) == if r.Fail? then Match(g, p2, s, i, m) else r
  {
  }

  lemma MatchRep(g: seq<Tree>, p: Tree, s: Subject, i: nat, m: nat)
    requires i <= |s|
    ensures var r := Match(g, p, s, i, m);
            Match(g, TRep(p), s, i, m)
            == if r.Fail? then Succ(i)
               else if r.Unknown? || m == 0 then Unknown
               else Match(g, TRep(p), s, r.pos, m - 1)
  {
  }

  lemma MatchPredicates(g: seq<Tree>, p: Tree, s: Subject, i: nat, m: nat)
    requires i <= |s|
    ensures var r := Match(g, p, s, i, m);
            && Match(g, TNot(p), s, i, m) == (if r.Fail? then Succ(i) else if r.Succ? then Fail else Unknown)
            && Match(g, TAnd(p), s, i, m) == (if r.Succ? then Succ(i) else r)
  {
  }

  lemma MatchCall(g: seq<Tree>, k: nat, s: Subject, i: nat, m: nat)
    requires i <= |s| && k < |g|
    ensures Match(g, TCall(k), s, i, m) == if m == 0 then Unknown else Match(g, g[k], s, i, m - 1)
  {
  }

  lemma MatchTrue(g: seq<Tree>, s: Subject, i: nat, m: nat)
    requires i <= |s|
    ensures Match(g, TTrue, s, i, m) == Succ(i)
  {
  }

  // ---- one lemma per kind of pattern ------------------------------------------------

  function Meaning(cx: Cx, t: Tree, i: nat, m: nat): Result
    requires i <= |cx.s|
  {
    Match(cx.g, t, cx.s, i, m)
  }

  lemma CharsetOk(cx: Cx, cs: Charset, opt: bool, tt: Test, fl: Charset, at: int, i: nat, st: Stack)
    requires Linked(cx.code, at, CodeCharset(cs, tt), cx.rp)
    requires i <= |cx.s| && TestHolds(tt, cx.s, i) && Entry(opt, st, fl)
    ensures Ok(cx, opt, Run(at, i, st), at + |CodeCharset(cs, tt)|, st, fl,
               if At(cx.s, i, cs) then Succ(i + 1) else Fail)
  {
    hide Join;
    assert LinkSlot(cx.code, at + 0, CodeCharset(cs, tt)[0], cx.rp);
    var next := Step(cx.code, cx.s, Run(at, i, st));
    JoinStep(cx.code, cx.s, Run(at, i, st));
    if At(cx.s, i, cs) {
      assert next == Run(at + |CodeCharset(cs, tt)|, i + 1, st);
      OkEnd(cx, opt, Run(at, i, st), at + |CodeCharset(cs, tt)|, i + 1, st, fl);
    } else {
      assert next == Backtrack(st);
    }
  }

  lemma LeafOk(cx: Cx, t: Tree, opt: bool, tt: Test, fl: Charset, at: int, i: nat, st: Stack, m: nat)
    requires t.TChar? || t.TAny? || t.TSet? || t.TTrue? || t.TFalse?
    requires Linked(cx.code, at, Gen(cx.g, t, opt, tt, fl, cx.n), cx.rp)
    requires i <= |cx.s| && TestHolds(tt, cx.s, i) && Entry(opt, st, fl)
    ensures Ok(cx, opt, Run(at, i, st), at + |Gen(cx.g, t, opt, tt, fl, cx.n)|, st, fl, Meaning(cx, t, i, m))
  {
    hide Join;
    match t
    case TChar(c) =>
      assert LinkSlot(cx.code, at + 0, CodeChar(c, tt)[0], cx.rp);
      JoinStep(cx.code, cx.s, Run(at, i, st));
      if i < |cx.s| && cx.s[i] == c {
        OkEnd(cx, opt, Run(at, i, st), at + 1, i + 1, st, fl);
      }
    case TAny =>
      LinkedOne(cx.code, at, IAny, cx.rp);
      JoinStep(cx.code, cx.s, Run(at, i, st));
      if i < |cx.s| {
        OkEnd(cx, opt, Run(at, i, st), at + 1, i + 1, st, fl);
      }
    case TSet(cs) =>
      CharsetOk(cx, cs, opt, tt, fl, at, i, st);
    case TTrue =>
      JoinRefl(cx.code, cx.s, Run(at, i, st));
      OkEnd(cx, opt, Run(at, i, st), at, i, st, fl);
    case TFalse =>
      LinkedOne(cx.code, at, IFail, cx.rp);
      JoinStep(cx.code, cx.s, Run(at, i, st));
  }

  lemma SeqOk(cx: Cx, p1: Tree, p2: Tree, c1: Code, c2: Code, opt: bool, tt: Test, fl: Charset,
              at: int, i: nat, st: Stack, m: nat)
    requires RulesLinked(cx.code, cx.g, cx.rp, cx.n) && WellFormed(cx.g, p1) && WellFormed(cx.g, p2)
    requires i <= |cx.s| && TestHolds(tt, cx.s, i) && Entry(opt, st, fl)
    requires c1 == Gen(cx.g, p1, false, tt, FollowOf(cx.g, p1, p2, fl, cx.n), cx.n)
    requires c2 == Gen(cx.g, p2, opt, if FixedLen(cx.g, p1) != 0 then NoTest else tt, fl, cx.n)
    requires Linked(cx.code, at, c1 + c2, cx.rp)
    ensures Ok(cx, opt, Run(at, i, st), at + |c1| + |c2|, st, fl, Meaning(cx, TSeq(p1, p2), i, m))
    decreases m, TSeq(p1, p2), 0
  {
    hide Gen, Match, GetFirst, HeadFail, CheckAux, FixedLenX, Linked, RulesLinked, Join, WellFormed, Step;
    var fl1 := FollowOf(cx.g, p1, p2, fl, cx.n);
    var tt2 := if FixedLen(cx.g, p1) != 0 then NoTest else tt;
    LinkedSplit(cx.code, at, c1, c2, cx.rp);
    MatchSeq(cx.g, p1, p2, cx.s, i, m);
    GenOk(cx, p1, c1, false, tt, fl1, at, i, st, m);
    var r1 := Meaning(cx, p1, i, m);
    if r1.Succ? {
      var j := r1.pos;
      if Joins(cx, Run(at, i, st), Run(at + |c1|, j, st)) {
        if FixedLen(cx.g, p1) == 0 {
          FixedLenSound(cx.g, p1, 0, 0, cx.s, i, m);
        }
        GenOk(cx, p2, c2, opt, tt2, fl, at + |c1|, j, st, m);
        OkJoin(cx, opt, Run(at, i, st), Run(at + |c1|, j, st), at + |c1| + |c2|, st, fl, Meaning(cx, p2, j, m));
      } else {
        FirstSound(cx.g, p2, fl, cx.n, cx.s, j, m);
      }
    }
  }

  /** `TestChoice` when the test has passed. */
  lemma TestedFirstOk(cx: Cx, p1: Tree, p2: Tree, c1: Code, jmp: Code, c2: Code, opt: bool, fl: Charset,
                      at: int, i: nat, st: Stack, m: nat)
    requires RulesLinked(cx.code, cx.g, cx.rp, cx.n) && WellFormed(cx.g, p1)
    requires i <= |cx.s| && Entry(opt, st, fl)
    requires var f1 := GetFirst(cx.g, p1, FullSet(), cx.n);
             && At(cx.s, i, f1.cs)
             && TestHolds(TestOf(f1.cs), cx.s, i)
             && (HeadFail(cx.g, p1, cx.n) || f1.cs !! GetFirst(cx.g, p2, fl, cx.n).cs)
             && c1 == Gen(cx.g, p1, false, TestOf(f1.cs), fl, cx.n)
    requires jmp == if p2.TTrue? then [] else Ins(IJmp(2 + |c2|))
    requires p2.TTrue? ==> c2 == []
    requires Linked(cx.code, at, c1, cx.rp) && Linked(cx.code, at + |c1|, jmp, cx.rp)
    ensures Ok(cx, opt, Run(at, i, st), at + |c1| + |jmp| + |c2|, st, fl, Meaning(cx, TChoice(p1, p2), i, m))
    decreases m, TChoice(p1, p2), 0
  {
    hide Gen, Match, GetFirst, HeadFail, CheckAux, FixedLenX, Linked, RulesLinked, Join, WellFormed, Step;
    var f1 := GetFirst(cx.g, p1, FullSet(), cx.n);
    var a, end := Run(at, i, st), at + |c1| + |jmp| + |c2|;
    MatchChoice(cx.g, p1, p2, cx.s, i, m);
    GenOk(cx, p1, c1, false, TestOf(f1.cs), fl, at, i, st, m);
    var r1 := Meaning(cx, p1, i, m);
    if r1.Succ? {
      if Joins(cx, a, Run(at + |c1|, r1.pos, st)) {
        if p2.TTrue? {
          OkEnd(cx, opt, a, end, r1.pos, st, fl);
        } else {
          InsStep(cx, at + |c1|, IJmp(2 + |c2|), r1.pos, st);
          OkContinue(cx, opt, a, Run(at + |c1|, r1.pos, st), end, r1.pos, st, fl);
        }
      }
    } else if r1.Fail? {
      if HeadFail(cx.g, p1, cx.n) {
        HeadFailSound(cx.g, p1, cx.n, cx.s, i, m);
      }
      FirstSound(cx.g, p2, fl, cx.n, cx.s, i, m);
    }
  }

  lemma TestChoiceOk(cx: Cx, p1: Tree, p2: Tree, c1: Code, c2: Code, opt: bool, fl: Charset,
                     at: int, i: nat, st: Stack, m: nat)
    requires RulesLinked(cx.code, cx.g, cx.rp, cx.n) && WellFormed(cx.g, p1) && WellFormed(cx.g, p2)
    requires i <= |cx.s| && Entry(opt, st, fl)
    requires var f1 := GetFirst(cx.g, p1, FullSet(), cx.n);
             && (HeadFail(cx.g, p1, cx.n) || (!f1.empty && f1.cs !! GetFirst(cx.g, p2, fl, cx.n).cs))
             && c1 == Gen(cx.g, p1, false, TestOf(f1.cs), fl, cx.n)
             && Linked(cx.code, at, TestChoice(f1.cs, c1, p2.TTrue?, c2), cx.rp)
    requires c2 == Gen(cx.g, p2, opt, NoTest, fl, cx.n) && (p2.TTrue? ==> c2 == [])
    ensures Ok(cx, opt, Run(at, i, st),
               at + |TestChoice(GetFirst(cx.g, p1, FullSet(), cx.n).cs, c1, p2.TTrue?, c2)|,
               st, fl, Meaning(cx, TChoice(p1, p2), i, m))
    decreases m, TChoice(p1, p2), 1
  {
    hide Gen, Match, GetFirst, HeadFail, CheckAux, FixedLenX, Linked, RulesLinked, Join, WellFormed, Step;
    var f1 := GetFirst(cx.g, p1, FullSet(), cx.n);
    var jmp := if p2.TTrue? then [] else Ins(IJmp(2 + |c2|));
    var ts, off := TestSize(f1.cs), TestSize(f1.cs) + |c1| + |jmp|;
    LinkedSplit(cx.code, at, Ins(TestInstr(f1.cs, off)), c1 + (jmp + c2), cx.rp);
    LinkedSplit(cx.code, at + ts, c1, jmp + c2, cx.rp);
    LinkedSplit(cx.code, at + ts + |c1|, jmp, c2, cx.rp);
    TestStep(cx, at, f1.cs, off, i, st);
    var r, end := Meaning(cx, TChoice(p1, p2), i, m), at + off + |c2|;
    if At(cx.s, i, f1.cs) {
      TestedFirstOk(cx, p1, p2, c1, jmp, c2, opt, fl, at + ts, i, st, m);
      OkStep(cx, opt, Run(at, i, st), Run(at + ts, i, st), end, st, fl, r);
    } else {
      if HeadFail(cx.g, p1, cx.n) {
        HeadFailNotEmpty(cx.g, p1, FullSet(), cx.n);
      }
      OutsideFirstFails(cx.g, p1, cx.n, cx.s, i, m);
      MatchChoice(cx.g, p1, p2, cx.s, i, m);
      GenOk(cx, p2, c2, opt, NoTest, fl, at + off, i, st, m);
      OkStep(cx, opt, Run(at, i, st), Run(at + off, i, st), end, st, fl, r);
    }
  }

  /** Inside an option, `p1 / true` reuses the choice of the option. */
  lemma PartialChoiceOk(cx: Cx, p1: Tree, c1: Code, at: int, i: nat, st: Stack, m: nat)
    requires RulesLinked(cx.code, cx.g, cx.rp, cx.n) && WellFormed(cx.g, p1)
    requires i <= |cx.s| && TopChoice(st)
    requires c1 == Gen(cx.g, p1, true, NoTest, FullSet(), cx.n)
    requires Linked(cx.code, at, Ins(IPartialCommit(2)) + c1, cx.rp)
    ensures Ok(cx, true, Run(at, i, st), at + 2 + |c1|, st, FullSet(), Meaning(cx, TChoice(p1, TTrue), i, m))
    decreases m, TChoice(p1, TTrue), 0
  {
    hide Gen, Match, GetFirst, HeadFail, CheckAux, FixedLenX, Linked, RulesLinked, Join, WellFormed, Step;
    LinkedSplit(cx.code, at, Ins(IPartialCommit(2)), c1, cx.rp);
    InsStep(cx, at, IPartialCommit(2), i, st);
    var st2 := Push(Choice(st.top.pc, i), st.rest);
    MatchChoice(cx.g, p1, TTrue, cx.s, i, m);
    MatchTrue(cx.g, cx.s, i, m);
    GenOk(cx, p1, c1, true, NoTest, FullSet(), at + 2, i, st2, m);
    var a, b, end := Run(at, i, st), Run(at + 2, i, st2), at + 2 + |c1|;
    var r1 := Meaning(cx, p1, i, m);
    if r1.Succ? && Arrives(cx, true, b, end, r1.pos, st2) {
      var k: nat :| Joins(cx, b, Run(end, r1.pos, Push(Choice(st2.top.pc, k), st2.rest)));
      assert Joins(cx, b, Run(end, r1.pos, Push(Choice(st.top.pc, k), st.rest)));
    } else if r1.Fail? {
      assert Backtrack(st2) == Run(st.top.pc, i, st.rest);
    }
    OkStep(cx, true, a, b, end, st, FullSet(), Meaning(cx, TChoice(p1, TTrue), i, m));
  }

  /** The part of `FullChoice` behind its test. */
  lemma GuardedChoiceOk(cx: Cx, p1: Tree, p2: Tree, tt1: Test, c1: Code, c2: Code, opt: bool, fl: Charset,
                        at: int, i: nat, st: Stack, m: nat)
    requires RulesLinked(cx.code, cx.g, cx.rp, cx.n) && WellFormed(cx.g, p1) && WellFormed(cx.g, p2)
    requires i <= |cx.s| && Entry(opt, st, fl) && TestHolds(tt1, cx.s, i)
    requires c1 == Gen(cx.g, p1, p2.TTrue?, tt1, FullSet(), cx.n)
    requires c2 == Gen(cx.g, p2, opt, NoTest, fl, cx.n) && (p2.TTrue? ==> c2 == [])
    requires Linked(cx.code, at, Ins(IChoice(2 + |c1| + 2)) + (c1 + (Ins(ICommit(2 + |c2|)) + c2)), cx.rp)
    ensures Ok(cx, opt, Run(at, i, st), at + 4 + |c1| + |c2|, st, fl, Meaning(cx, TChoice(p1, p2), i, m))
    decreases m, TChoice(p1, p2), 0
  {
    hide Gen, Match, GetFirst, HeadFail, CheckAux, FixedLenX, Linked, RulesLinked, Join, WellFormed, Step;
    var off, off2 := 2 + |c1| + 2, 2 + |c2|;
    LinkedSplit(cx.code, at, Ins(IChoice(off)), c1 + (Ins(ICommit(off2)) + c2), cx.rp);
    LinkedSplit(cx.code, at + 2, c1, Ins(ICommit(off2)) + c2, cx.rp);
    LinkedSplit(cx.code, at + 2 + |c1|, Ins(ICommit(off2)), c2, cx.rp);
    InsStep(cx, at, IChoice(off), i, st);
    var l1, commit, end := at + off, at + 2 + |c1|, at + 4 + |c1| + |c2|;
    var st2 := Push(Choice(l1, i), st);
    var a, b := Run(at, i, st), Run(at + 2, i, st2);
    MatchChoice(cx.g, p1, p2, cx.s, i, m);
    GenOk(cx, p1, c1, p2.TTrue?, tt1, FullSet(), at + 2, i, st2, m);
    var r1 := Meaning(cx, p1, i, m);
    if r1.Succ? {
      var j := r1.pos;
      if p2.TTrue? {
        if Arrives(cx, true, b, commit, j, st2) {
          var k: nat :| Joins(cx, b, Run(commit, j, Push(Choice(st2.top.pc, k), st2.rest)));
          var st3 := Push(Choice(l1, k), st);
          InsStep(cx, commit, ICommit(off2), j, st3);
          OkContinue(cx, opt, b, Run(commit, j, st3), end, j, st, fl);
        } else {
          OkEnd(cx, opt, b, end, j, st, fl);
        }
      } else {
        InsStep(cx, commit, ICommit(off2), j, st2);
        OkContinue(cx, opt, b, Run(commit, j, st2), end, j, st, fl);
      }
    } else if r1.Fail? {
      assert Backtrack(st2) == Run(l1, i, st);
      GenOk(cx, p2, c2, opt, NoTest, fl, l1, i, st, m);
      OkJoin(cx, opt, b, Run(l1, i, st), end, st, fl, Meaning(cx, p2, i, m));
    }
    OkStep(cx, opt, a, b, end, st, fl, Meaning(cx, TChoice(p1, p2), i, m));
  }

  lemma FullChoiceOk(cx: Cx, p1: Tree, p2: Tree, c1: Code, c2: Code, opt: bool, fl: Charset,
                     at: int, i: nat, st: Stack, m: nat)
    requires RulesLinked(cx.code, cx.g, cx.rp, cx.n) && WellFormed(cx.g, p1) && WellFormed(cx.g, p2)
    requires i <= |cx.s| && Entry(opt, st, fl)
    requires var f1 := GetFirst(cx.g, p1, FullSet(), cx.n);
             && c1 == Gen(cx.g, p1, p2.TTrue?, if f1.empty then NoTest else TestOf(f1.cs), FullSet(), cx.n)
             && Linked(cx.code, at, FullChoice(f1, c1, c2), cx.rp)
    requires c2 == Gen(cx.g, p2, opt, NoTest, fl, cx.n) && (p2.TTrue? ==> c2 == [])
    ensures Ok(cx, opt, Run(at, i, st), at + |FullChoice(GetFirst(cx.g, p1, FullSet(), cx.n), c1, c2)|, st, fl,
               Meaning(cx, TChoice(p1, p2), i, m))
    decreases m, TChoice(p1, p2), 1
  {
    hide Gen, Match, GetFirst, HeadFail, CheckAux, FixedLenX, Linked, RulesLinked, Join, WellFormed, Step, Ok;
    var f1 := GetFirst(cx.g, p1, FullSet(), cx.n);
    var ts := OptTestSize(f1);
    var off := ts + 2 + |c1| + 2;
    var rest := c1 + (Ins(ICommit(2 + |c2|)) + c2);
    LinkedSplit(cx.code, at, OptTest(f1, off), Ins(IChoice(2 + |c1| + 2)) + rest, cx.rp);
    var end, r := at + off + |c2|, Meaning(cx, TChoice(p1, p2), i, m);
    if f1.empty {
      GuardedChoiceOk(cx, p1, p2, NoTest, c1, c2, opt, fl, at, i, st, m);
    } else {
      TestStep(cx, at, f1.cs, off, i, st);
      if At(cx.s, i, f1.cs) {
        GuardedChoiceOk(cx, p1, p2, TestOf(f1.cs), c1, c2, opt, fl, at + ts, i, st, m);
        OkStep(cx, opt, Run(at, i, st), Run(at + ts, i, st), end, st, fl, r);
      } else {
        OutsideFirstFails(cx.g, p1, cx.n, cx.s, i, m);
        MatchChoice(cx.g, p1, p2, cx.s, i, m);
        LinkedSplit(cx.code, at + ts, Ins(IChoice(2 + |c1| + 2)), rest, cx.rp);
        LinkedSplit(cx.code, at + ts + 2, c1, Ins(ICommit(2 + |c2|)) + c2, cx.rp);
        LinkedSplit(cx.code, at + ts + 2 + |c1|, Ins(ICommit(2 + |c2|)), c2, cx.rp);
        GenOk(cx, p2, c2, opt, NoTest, fl, at + off, i, st, m);
        OkStep(cx, opt, Run(at, i, st), Run(at + off, i, st), end, st, fl, r);
      }
    }
  }

  lemma ChoiceOk(cx: Cx, p1: Tree, p2: Tree, opt: bool, tt: Test, fl: Charset, at: int, i: nat, st: Stack, m: nat)
    requires RulesLinked(cx.code, cx.g, cx.rp, cx.n) && WellFormed(cx.g, p1) && WellFormed(cx.g, p2)
    requires i <= |cx.s| && Entry(opt, st, fl)
    requires Linked(cx.code, at, Gen(cx.g, TChoice(p1, p2), opt, tt, fl, cx.n), cx.rp)
    ensures Ok(cx, opt, Run(at, i, st), at + |Gen(cx.g, TChoice(p1, p2), opt, tt, fl, cx.n)|, st, fl,
               Meaning(cx, TChoice(p1, p2), i, m))
    decreases m, TChoice(p1, p2), 2
  {
    hide Gen, Match, GetFirst, HeadFail, CheckAux, FixedLenX, Linked, RulesLinked, Join, WellFormed, Step, Ok;
    GenChoice(cx.g, p1, p2, opt, tt, fl, cx.n);
    GenChoice(cx.g, p1, p2, opt, NoTest, fl, cx.n);
    var f1 := GetFirst(cx.g, p1, FullSet(), cx.n);
    var c2 := Gen(cx.g, p2, opt, NoTest, fl, cx.n);
    if HeadFail(cx.g, p1, cx.n) || (!f1.empty && f1.cs !! GetFirst(cx.g, p2, fl, cx.n).cs) {
      TestChoiceOk(cx, p1, p2, Gen(cx.g, p1, false, TestOf(f1.cs), fl, cx.n), c2, opt, fl, at, i, st, m);
    } else if opt && p2.TTrue? {
      PartialChoiceOk(cx, p1, Gen(cx.g, p1, true, NoTest, FullSet(), cx.n), at, i, st, m);
    } else {
      var tt1 := if f1.empty then NoTest else TestOf(f1.cs);
      FullChoiceOk(cx, p1, p2, Gen(cx.g, p1, p2.TTrue?, tt1, FullSet(), cx.n), c2, opt, fl, at, i, st, m);
    }
  }

  /** The loop that needs only a test: the test passed, and its next round is right. */
  lemma TestedRoundOk(cx: Cx, p: Tree, c: Code, opt: bool, fl: Charset, at: int, back: int, i: nat, st: Stack, m: nat)
    requires RulesLinked(cx.code, cx.g, cx.rp, cx.n) && WellFormed(cx.g, p)
    requires i <= |cx.s| && Entry(opt, st, fl)
    requires var f := GetFirst(cx.g, p, FullSet(), cx.n);
             && At(cx.s, i, f.cs) && TestHolds(TestOf(f.cs), cx.s, i)
             && (HeadFail(cx.g, p, cx.n) || f.cs !! fl)
             && c == Gen(cx.g, p, false, TestOf(f.cs), FullSet(), cx.n)
    requires Linked(cx.code, at, c, cx.rp) && Linked(cx.code, at + |c|, Ins(IJmp(-back)), cx.rp)
    requires forall j: nat {:trigger Run(at + |c| - back, j, st)} ::
               j <= |cx.s| && m > 0 ==>
                 Ok(cx, opt, Run(at + |c| - back, j, st), at + |c| + 2, st, fl, Meaning(cx, TRep(p), j, m - 1))
    ensures Ok(cx, opt, Run(at, i, st), at + |c| + 2, st, fl, Meaning(cx, TRep(p), i, m))
    decreases m, TRep(p), 0
  {
    hide Gen, Match, GetFirst, HeadFail, CheckAux, FixedLenX, Linked, RulesLinked, Join, WellFormed, Step;
    var a, r, r1 := Run(at, i, st), Meaning(cx, TRep(p), i, m), Meaning(cx, p, i, m);
    MatchRep(cx.g, p, cx.s, i, m);
    GenOk(cx, p, c, false, TestOf(GetFirst(cx.g, p, FullSet(), cx.n).cs), FullSet(), at, i, st, m);
    if r1.Succ? && m > 0 {
      InsStep(cx, at + |c|, IJmp(-back), r1.pos, st);
      JoinTo(cx.code, cx.s, a, Run(at + |c|, r1.pos, st));
      OkJoin(cx, opt, a, Run(at + |c| - back, r1.pos, st), at + |c| + 2, st, fl, r);
    } else if r1.Fail? && HeadFail(cx.g, p, cx.n) {
      HeadFailSound(cx.g, p, cx.n, cx.s, i, m);
    }
  }

  /** The loop that needs only a test, from its head. */
  lemma TestRepOk(cx: Cx, p: Tree, c: Code, opt: bool, fl: Charset, at: int, i: nat, st: Stack, m: nat)
    requires RulesLinked(cx.code, cx.g, cx.rp, cx.n) && WellFormed(cx.g, p)
    requires i <= |cx.s| && Entry(opt, st, fl)
    requires var f := GetFirst(cx.g, p, FullSet(), cx.n);
             && (HeadFail(cx.g, p, cx.n) || (!f.empty && f.cs !! fl))
             && c == Gen(cx.g, p, false, TestOf(f.cs), FullSet(), cx.n)
             && Linked(cx.code, at, TestRep(f.cs, c), cx.rp)
    ensures Ok(cx, opt, Run(at, i, st), at + |TestRep(GetFirst(cx.g, p, FullSet(), cx.n).cs, c)|, st, fl,
               Meaning(cx, TRep(p), i, m))
    decreases m, TRep(p), 1
  {
    hide Gen, Match, GetFirst, HeadFail, CheckAux, FixedLenX, Linked, RulesLinked, Join, WellFormed, Step, Ok;
    var f := GetFirst(cx.g, p, FullSet(), cx.n);
    var ts := TestSize(f.cs);
    var back := ts + |c|;
    LinkedSplit(cx.code, at, Ins(TestInstr(f.cs, back + 2)), c + Ins(IJmp(-back)), cx.rp);
    LinkedSplit(cx.code, at + ts, c, Ins(IJmp(-back)), cx.rp);
    TestStep(cx, at, f.cs, back + 2, i, st);
    var end, r := at + back + 2, Meaning(cx, TRep(p), i, m);
    if At(cx.s, i, f.cs) {
      forall j: nat | j <= |cx.s| && m > 0
        ensures Ok(cx, opt, Run(at, j, st), end, st, fl, Meaning(cx, TRep(p), j, m - 1))
      {
        TestRepOk(cx, p, c, opt, fl, at, j, st, m - 1);
      }
      TestedRoundOk(cx, p, c, opt, fl, at + ts, back, i, st, m);
      OkStep(cx, opt, Run(at, i, st), Run(at + ts, i, st), end, st, fl, r);
    } else {
      if HeadFail(cx.g, p, cx.n) {
        HeadFailNotEmpty(cx.g, p, FullSet(), cx.n);
      }
      OutsideFirstFails(cx.g, p, cx.n, cx.s, i, m);
      MatchRep(cx.g, p, cx.s, i, m);
      SkipOk(cx, opt, Run(at, i, st), end, i, st, fl, r);
    }
  }

  /** A step to the end is right where the pattern matches the empty string. */
  lemma SkipOk(cx: Cx, opt: bool, a: State, end: int, i: nat, st: Stack, fl: Charset, r: Result)
    requires Entry(opt, st, fl) && Step(cx.code, cx.s, a) == Run(end, i, st)
    requires r == Succ(i) || r == Unknown
    ensures Ok(cx, opt, a, end, st, fl, r)
  {
    if r.Succ? {
      JoinStep(cx.code, cx.s, a);
      OkEnd(cx, opt, a, end, i, st, fl);
    }
  }

  /** The loop of a body and its partial commit under a choice that leads to `out`: it leaves at
      `out`, where the repetition ends. */
  lemma LoopOk(cx: Cx, p: Tree, c: Code, at: int, out: int, i: nat, rest: Stack, m: nat)
    requires RulesLinked(cx.code, cx.g, cx.rp, cx.n) && WellFormed(cx.g, p)
    requires i <= |cx.s|
    requires c == Gen(cx.g, p, false, NoTest, FullSet(), cx.n)
    requires Linked(cx.code, at, c + Ins(IPartialCommit(-|c|)), cx.rp)
    ensures !Meaning(cx, TRep(p), i, m).Fail?
    ensures Meaning(cx, TRep(p), i, m).Succ? ==>
              Joins(cx, Run(at, i, Push(Choice(out, i), rest)), Run(out, Meaning(cx, TRep(p), i, m).pos, rest))
    decreases m, TRep(p), 0
  {
    hide Gen, Match, GetFirst, HeadFail, CheckAux, FixedLenX, Linked, RulesLinked, Join, WellFormed, Step;
    LinkedSplit(cx.code, at, c, Ins(IPartialCommit(-|c|)), cx.rp);
    var st := Push(Choice(out, i), rest);
    var a := Run(at, i, st);
    MatchRep(cx.g, p, cx.s, i, m);
    GenOk(cx, p, c, false, NoTest, FullSet(), at, i, st, m);
    var r, r1 := Meaning(cx, TRep(p), i, m), Meaning(cx, p, i, m);
    if r1.Fail? {
      assert Backtrack(st) == Run(out, i, rest);
    } else if r1.Succ? && m > 0 {
      InsStep(cx, at + |c|, IPartialCommit(-|c|), r1.pos, st);
      JoinTo(cx.code, cx.s, a, Run(at + |c|, r1.pos, st));
      LoopOk(cx, p, c, at, out, r1.pos, rest, m - 1);
      if r.Succ? {
        JoinTrans(cx.code, cx.s, a, Run(at, r1.pos, Push(Choice(out, r1.pos), rest)), Run(out, r.pos, rest));
      }
    }
  }

  /** The part of a repetition behind its test. */
  lemma GuardedRepOk(cx: Cx, p: Tree, c: Code, opt: bool, fl: Charset, at: int, i: nat, st: Stack, m: nat)
    requires RulesLinked(cx.code, cx.g, cx.rp, cx.n) && WellFormed(cx.g, p)
    requires i <= |cx.s| && Entry(opt, st, fl)
    requires c == Gen(cx.g, p, false, NoTest, FullSet(), cx.n)
    requires Linked(cx.code, at,
               Ins(if opt then IPartialCommit(2) else IChoice(2 + |c| + 2)) + (c + Ins(IPartialCommit(-|c|))), cx.rp)
    ensures Ok(cx, opt, Run(at, i, st), at + 4 + |c|, st, fl, Meaning(cx, TRep(p), i, m))
    decreases m, TRep(p), 1
  {
    hide Gen, Match, GetFirst, HeadFail, CheckAux, FixedLenX, Linked, RulesLinked, Join, WellFormed, Step;
    var enter := if opt then IPartialCommit(2) else IChoice(2 + |c| + 2);
    LinkedSplit(cx.code, at, Ins(enter), c + Ins(IPartialCommit(-|c|)), cx.rp);
    InsStep(cx, at, enter, i, st);
    var end, r := at + 4 + |c|, Meaning(cx, TRep(p), i, m);
    var out, rest := if opt then st.top.pc else end, if opt then st.rest else st;
    var b := Run(at + 2, i, Push(Choice(out, i), rest));
    LoopOk(cx, p, c, at + 2, out, i, rest, m);
    if r.Succ? && !opt {
      OkEnd(cx, opt, b, end, r.pos, st, fl);
    }
    OkStep(cx, opt, Run(at, i, st), b, end, st, fl, r);
  }

  lemma FullRepOk(cx: Cx, p: Tree, c: Code, opt: bool, fl: Charset, at: int, i: nat, st: Stack, m: nat)
    requires RulesLinked(cx.code, cx.g, cx.rp, cx.n) && WellFormed(cx.g, p)
    requires i <= |cx.s| && Entry(opt, st, fl)
    requires c == Gen(cx.g, p, false, NoTest, FullSet(), cx.n)
    requires Linked(cx.code, at, FullRep(GetFirst(cx.g, p, FullSet(), cx.n), opt, c), cx.rp)
    ensures Ok(cx, opt, Run(at, i, st), at + |FullRep(GetFirst(cx.g, p, FullSet(), cx.n), opt, c)|, st, fl,
               Meaning(cx, TRep(p), i, m))
    decreases m, TRep(p), 2
  {
    hide Gen, Match, GetFirst, HeadFail, CheckAux, FixedLenX, Linked, RulesLinked, Join, WellFormed, Step, Ok;
    var f := GetFirst(cx.g, p, FullSet(), cx.n);
    var ts := OptTestSize(f);
    var off := ts + 2 + |c| + 2;
    var body := Ins(if opt then IPartialCommit(2) else IChoice(2 + |c| + 2)) + (c + Ins(IPartialCommit(-|c|)));
    LinkedSplit(cx.code, at, OptTest(f, off), body, cx.rp);
    var r := Meaning(cx, TRep(p), i, m);
    if f.empty {
      GuardedRepOk(cx, p, c, opt, fl, at, i, st, m);
    } else {
      TestStep(cx, at, f.cs, off, i, st);
      if At(cx.s, i, f.cs) {
        GuardedRepOk(cx, p, c, opt, fl, at + ts, i, st, m);
        OkStep(cx, opt, Run(at, i, st), Run(at + ts, i, st), at + off, st, fl, r);
      } else {
        OutsideFirstFails(cx.g, p, cx.n, cx.s, i, m);
        MatchRep(cx.g, p, cx.s, i, m);
        SkipOk(cx, opt, Run(at, i, st), at + off, i, st, fl, r);
      }
    }
  }

  lemma SpanOk(cx: Cx, p: Tree, opt: bool, fl: Charset, at: int, i: nat, st: Stack, m: nat)
    requires IsCharset(p) && Linked(cx.code, at, Ins(ISpan(CharsetOf(p))), cx.rp)
    requires i <= |cx.s| && Entry(opt, st, fl)
    ensures Ok(cx, opt, Run(at, i, st), at + CHARSETINSTSIZE, st, fl, Meaning(cx, TRep(p), i, m))
  {
    hide Linked, Join, Step;
    InsStep(cx, at, ISpan(CharsetOf(p)), i, st);
    if !Meaning(cx, TRep(p), i, m).Unknown? {
      SpanSound(cx.g, p, cx.s, i, m);
      JoinStep(cx.code, cx.s, Run(at, i, st));
      OkEnd(cx, opt, Run(at, i, st), at + CHARSETINSTSIZE, SpanEnd(cx.s, i, CharsetOf(p)), st, fl);
    }
  }

  lemma RepOk(cx: Cx, p: Tree, opt: bool, tt: Test, fl: Charset, at: int, i: nat, st: Stack, m: nat)
    requires RulesLinked(cx.code, cx.g, cx.rp, cx.n) && WellFormed(cx.g, p)
    requires i <= |cx.s| && Entry(opt, st, fl)
    requires Linked(cx.code, at, Gen(cx.g, TRep(p), opt, tt, fl, cx.n), cx.rp)
    ensures Ok(cx, opt, Run(at, i, st), at + |Gen(cx.g, TRep(p), opt, tt, fl, cx.n)|, st, fl,
               Meaning(cx, TRep(p), i, m))
    decreases m, TRep(p), 3
  {
    hide Gen, Match, GetFirst, HeadFail, CheckAux, FixedLenX, Linked, RulesLinked, Join, WellFormed, Step, Ok;
    GenRep(cx.g, p, opt, tt, fl, cx.n);
    if IsCharset(p) {
      SpanOk(cx, p, opt, fl, at, i, st, m);
    } else {
      var f := GetFirst(cx.g, p, FullSet(), cx.n);
      if HeadFail(cx.g, p, cx.n) || (!f.empty && f.cs !! fl) {
        TestRepOk(cx, p, Gen(cx.g, p, false, TestOf(f.cs), FullSet(), cx.n), opt, fl, at, i, st, m);
      } else {
        FullRepOk(cx, p, Gen(cx.g, p, false, NoTest, FullSet(), cx.n), opt, fl, at, i, st, m);
      }
    }
  }

  /** The part of `FullNot` behind its test. */
  lemma GuardedNotOk(cx: Cx, p: Tree, c: Code, opt: bool, fl: Charset, at: int, i: nat, st: Stack, m: nat)
    requires RulesLinked(cx.code, cx.g, cx.rp, cx.n) && WellFormed(cx.g, p)
    requires i <= |cx.s| && Entry(opt, st, fl)
    requires c == Gen(cx.g, p, false, NoTest, FullSet(), cx.n)
    requires Linked(cx.code, at, Ins(IChoice(2 + |c| + 1)) + (c + [IFailTwice]), cx.rp)
    ensures Ok(cx, opt, Run(at, i, st), at + 3 + |c|, st, fl, Meaning(cx, TNot(p), i, m))
    decreases m, TNot(p), 0
  {
    hide Gen, Match, GetFirst, HeadFail, CheckAux, FixedLenX, Linked, RulesLinked, Join, WellFormed, Step;
    var off := 2 + |c| + 1;
    LinkedSplit(cx.code, at, Ins(IChoice(off)), c + [IFailTwice], cx.rp);
    LinkedSplit(cx.code, at + 2, c, [IFailTwice], cx.rp);
    InsStep(cx, at, IChoice(off), i, st);
    var end := at + off;
    var st2 := Push(Choice(end, i), st);
    var b := Run(at + 2, i, st2);
    GenOk(cx, p, c, false, NoTest, FullSet(), at + 2, i, st2, m);
    MatchPredicates(cx.g, p, cx.s, i, m);
    var r1 := Meaning(cx, p, i, m);
    if r1.Succ? {
      OneStep(cx, at + 2 + |c|, IFailTwice, r1.pos, st2);
      JoinTo(cx.code, cx.s, b, Run(at + 2 + |c|, r1.pos, st2));
    } else if r1.Fail? {
      assert Backtrack(st2) == Run(end, i, st);
      OkEnd(cx, opt, b, end, i, st, fl);
    }
    OkStep(cx, opt, Run(at, i, st), b, end, st, fl, Meaning(cx, TNot(p), i, m));
  }

  lemma TestNotOk(cx: Cx, p: Tree, opt: bool, fl: Charset, at: int, i: nat, st: Stack, m: nat)
    requires HeadFail(cx.g, p, cx.n) && i <= |cx.s| && Entry(opt, st, fl)
    requires Linked(cx.code, at, TestNot(GetFirst(cx.g, p, FullSet(), cx.n)), cx.rp)
    ensures Ok(cx, opt, Run(at, i, st), at + |TestNot(GetFirst(cx.g, p, FullSet(), cx.n))|, st, fl,
               Meaning(cx, TNot(p), i, m))
  {
    hide Gen, Match, GetFirst, HeadFail, CheckAux, FixedLenX, Linked, RulesLinked, Join, WellFormed, Step;
    var f := GetFirst(cx.g, p, FullSet(), cx.n);
    HeadFailNotEmpty(cx.g, p, FullSet(), cx.n);
    var ts := TestSize(f.cs);
    LinkedSplit(cx.code, at, Ins(TestInstr(f.cs, ts + 1)), [IFail], cx.rp);
    TestStep(cx, at, f.cs, ts + 1, i, st);
    MatchPredicates(cx.g, p, cx.s, i, m);
    var r := Meaning(cx, TNot(p), i, m);
    if !r.Unknown? {
      HeadFailSound(cx.g, p, cx.n, cx.s, i, m);
    }
    if At(cx.s, i, f.cs) {
      OneStep(cx, at + ts, IFail, i, st);
      JoinStep(cx.code, cx.s, Run(at + ts, i, st));
      OkStep(cx, opt, Run(at, i, st), Run(at + ts, i, st), at + ts + 1, st, fl, r);
    } else {
      SkipOk(cx, opt, Run(at, i, st), at + ts + 1, i, st, fl, r);
    }
  }

  lemma FullNotOk(cx: Cx, p: Tree, c: Code, opt: bool, fl: Charset, at: int, i: nat, st: Stack, m: nat)
    requires RulesLinked(cx.code, cx.g, cx.rp, cx.n) && WellFormed(cx.g, p)
    requires i <= |cx.s| && Entry(opt, st, fl)
    requires c == Gen(cx.g, p, false, NoTest, FullSet(), cx.n)
    requires Linked(cx.code, at, FullNot(GetFirst(cx.g, p, FullSet(), cx.n), c), cx.rp)
    ensures Ok(cx, opt, Run(at, i, st), at + |FullNot(GetFirst(cx.g, p, FullSet(), cx.n), c)|, st, fl,
               Meaning(cx, TNot(p), i, m))
    decreases m, TNot(p), 1
  {
    hide Gen, Match, GetFirst, HeadFail, CheckAux, FixedLenX, Linked, RulesLinked, Join, WellFormed, Step;
    var f := GetFirst(cx.g, p, FullSet(), cx.n);
    var ts := OptTestSize(f);
    var off := ts + 2 + |c| + 1;
    LinkedSplit(cx.code, at, OptTest(f, off), Ins(IChoice(2 + |c| + 1)) + (c + [IFailTwice]), cx.rp);
    var r := Meaning(cx, TNot(p), i, m);
    if f.empty {
      GuardedNotOk(cx, p, c, opt, fl, at, i, st, m);
    } else {
      TestStep(cx, at, f.cs, off, i, st);
      if At(cx.s, i, f.cs) {
        GuardedNotOk(cx, p, c, opt, fl, at + ts, i, st, m);
        OkStep(cx, opt, Run(at, i, st), Run(at + ts, i, st), at + off, st, fl, r);
      } else {
        OutsideFirstFails(cx.g, p, cx.n, cx.s, i, m);
        MatchPredicates(cx.g, p, cx.s, i, m);
        SkipOk(cx, opt, Run(at, i, st), at + off, i, st, fl, r);
      }
    }
  }

  lemma FixedAndOk(cx: Cx, p: Tree, c: Code, opt: bool, tt: Test, fl: Charset, at: int, i: nat, st: Stack, m: nat)
    requires RulesLinked(cx.code, cx.g, cx.rp, cx.n) && WellFormed(cx.g, p)
    requires i <= |cx.s| && Entry(opt, st, fl) && TestHolds(tt, cx.s, i)
    requires c == Gen(cx.g, p, false, tt, FullSet(), cx.n) && FixedLen(cx.g, p) >= 0
    requires Linked(cx.code, at, FixedAnd(FixedLen(cx.g, p), c), cx.rp)
    ensures Ok(cx, opt, Run(at, i, st), at + |FixedAnd(FixedLen(cx.g, p), c)|, st, fl, Meaning(cx, TAnd(p), i, m))
    decreases m, TAnd(p), 0
  {
    hide Gen, Match, GetFirst, HeadFail, CheckAux, FixedLenX, Linked, RulesLinked, Join, WellFormed, Step;
    var len := FixedLen(cx.g, p);
    LinkedSplit(cx.code, at, c, if len > 0 then [IBehind(len)] else [], cx.rp);
    GenOk(cx, p, c, false, tt, FullSet(), at, i, st, m);
    MatchPredicates(cx.g, p, cx.s, i, m);
    var a, r1 := Run(at, i, st), Meaning(cx, p, i, m);
    if r1.Succ? {
      FixedLenSound(cx.g, p, 0, 0, cx.s, i, m);
      if len > 0 {
        OneStep(cx, at + |c|, IBehind(len), r1.pos, st);
        OkContinue(cx, opt, a, Run(at + |c|, r1.pos, st), at + |c| + 1, i, st, fl);
      } else {
        OkEnd(cx, opt, a, at + |c|, i, st, fl);
      }
    }
  }

  lemma FullAndOk(cx: Cx, p: Tree, c: Code, opt: bool, tt: Test, fl: Charset, at: int, i: nat, st: Stack, m: nat)
    requires RulesLinked(cx.code, cx.g, cx.rp, cx.n) && WellFormed(cx.g, p)
    requires i <= |cx.s| && Entry(opt, st, fl) && TestHolds(tt, cx.s, i)
    requires c == Gen(cx.g, p, false, tt, FullSet(), cx.n)
    requires Linked(cx.code, at, FullAnd(c), cx.rp)
    ensures Ok(cx, opt, Run(at, i, st), at + |FullAnd(c)|, st, fl, Meaning(cx, TAnd(p), i, m))
    decreases m, TAnd(p), 0
  {
    hide Gen, Match, GetFirst, HeadFail, CheckAux, FixedLenX, Linked, RulesLinked, Join, WellFormed, Step;
    var off, commit, end := 2 + |c| + 2, at + 2 + |c|, at + 5 + |c|;
    LinkedSplit(cx.code, at, Ins(IChoice(off)), c + (Ins(IBackCommit(3)) + [IFail]), cx.rp);
    LinkedSplit(cx.code, at + 2, c, Ins(IBackCommit(3)) + [IFail], cx.rp);
    LinkedSplit(cx.code, commit, Ins(IBackCommit(3)), [IFail], cx.rp);
    InsStep(cx, at, IChoice(off), i, st);
    var st2 := Push(Choice(at + off, i), st);
    var b := Run(at + 2, i, st2);
    GenOk(cx, p, c, false, tt, FullSet(), at + 2, i, st2, m);
    MatchPredicates(cx.g, p, cx.s, i, m);
    var r1 := Meaning(cx, p, i, m);
    if r1.Succ? {
      InsStep(cx, commit, IBackCommit(3), r1.pos, st2);
      OkContinue(cx, opt, b, Run(commit, r1.pos, st2), end, i, st, fl);
    } else if r1.Fail? {
      assert Backtrack(st2) == Run(at + off, i, st);
      OneStep(cx, at + off, IFail, i, st);
      JoinTo(cx.code, cx.s, b, Run(at + off, i, st));
    }
    OkStep(cx, opt, Run(at, i, st), b, end, st, fl, Meaning(cx, TAnd(p), i, m));
  }

  lemma BehindOk(cx: Cx, k: nat, p: Tree, c: Code, opt: bool, fl: Charset, at: int, i: nat, st: Stack, m: nat)
    requires RulesLinked(cx.code, cx.g, cx.rp, cx.n) && WellFormed(cx.g, p) && FixedLen(cx.g, p) == k
    requires i <= |cx.s| && Entry(opt, st, fl)
    requires c == Gen(cx.g, p, false, NoTest, FullSet(), cx.n)
    requires Linked(cx.code, at, BehindCode(k, c), cx.rp)
    ensures Ok(cx, opt, Run(at, i, st), at + |BehindCode(k, c)|, st, fl, Meaning(cx, TBehind(k, p), i, m))
    decreases m, TBehind(k, p), 0
  {
    hide Gen, GetFirst, HeadFail, CheckAux, FixedLenX, Linked, RulesLinked, Join, WellFormed, Step;
    var head := if k > 0 then [IBehind(k)] else [];
    LinkedSplit(cx.code, at, head, c, cx.rp);
    var a, end := Run(at, i, st), at + |head| + |c|;
    if k > 0 {
      OneStep(cx, at, IBehind(k), i, st);
    }
    if k > i {
      JoinStep(cx.code, cx.s, a);
    } else {
      var b := Run(at + |head|, i - k, st);
      GenOk(cx, p, c, false, NoTest, FullSet(), at + |head|, i - k, st, m);
      var r1 := Meaning(cx, p, i - k, m);
      if r1.Succ? {
        FixedLenSound(cx.g, p, 0, 0, cx.s, i - k, m);
        OkEnd(cx, opt, b, end, i, st, fl);
      }
      if k > 0 {
        OkStep(cx, opt, a, b, end, st, fl, Meaning(cx, TBehind(k, p), i, m));
      }
    }
  }

  /** Where rule `k` is, and that a return follows it. */
  lemma RuleAt(cx: Cx, k: nat) returns (c: Code)
    requires RulesLinked(cx.code, cx.g, cx.rp, cx.n) && k < |cx.g|
    ensures |cx.rp| == |cx.g| && WellFormed(cx.g, cx.g[k])
    ensures c == Gen(cx.g, cx.g[k], false, NoTest, FullSet(), cx.n)
    ensures Linked(cx.code, cx.rp[k], c, cx.rp) && Linked(cx.code, cx.rp[k] + |c|, [IRet], cx.rp)
  {
    hide Gen, Linked, WellFormed;
    c := Gen(cx.g, cx.g[k], false, NoTest, FullSet(), cx.n);
    LinkedSplit(cx.code, cx.rp[k], c, [IRet], cx.rp);
  }

  lemma GrammarOk(cx: Cx, rules: seq<Tree>, blk: Code, opt: bool, fl: Charset, at: int, i: nat, st: Stack, m: nat)
    requires WellFormed([], TGrammar(rules)) && rules != []
    requires i <= |cx.s| && Entry(opt, st, fl)
    requires blk == GrammarCode(RuleBlocks(rules, cx.n)) && Linked(cx.code, at, blk, cx.rp)
    ensures Ok(cx, opt, Run(at, i, st), at + |blk|, st, fl, Meaning(cx, TGrammar(rules), i, m))
    decreases m, TGrammar(rules), 0
  {
    hide Gen, GetFirst, HeadFail, CheckAux, FixedLenX, Linked, RulesLinked, Join, WellFormed, GrammarCode;
    var rp' := GrammarLinked(cx.code, at, rules, cx.n, cx.rp);
    var cx' := Cx(cx.code, cx.s, rules, rp', cx.n);
    var c := RuleAt(cx', 0);
    var st2 := Push(Ret(at + 2), st);
    var a, b := Run(at, i, st), Run(at + 4, i, st2);
    GenOk(cx', rules[0], c, false, NoTest, FullSet(), at + 4, i, st2, m);
    assert Step(cx.code, cx.s, a) == b;
    var r := Meaning(cx', rules[0], i, m);
    if r.Succ? {
      OneStep(cx', at + 4 + |c|, IRet, r.pos, st2);
      assert Joins(cx, b, Run(at + 4 + |c|, r.pos, st2));
      JoinTo(cx.code, cx.s, b, Run(at + 4 + |c|, r.pos, st2));
      OkContinue(cx, opt, b, Run(at + 2, r.pos, st), at + |blk|, r.pos, st, fl);
    } else if r.Fail? {
      assert Joins(cx, b, Backtrack(st));
    }
    OkStep(cx, opt, a, b, at + |blk|, st, fl, r);
  }

  /** A rule that was jumped to returns to where the caller would have returned. */
  lemma TailCallReturns(cx: Cx, b: State, ret: int, next: int, j: nat, st: Stack)
    requires Joins(cx, b, Run(ret, j, st)) && IsRet(cx.code, ret) && ReachesRet(cx.code, next)
    ensures Joins(cx, b, Run(next, j, st))
  {
    hide Join;
    var k: nat :| IsRet(cx.code, FinalTarget(cx.code, next, k));
    var f := Run(FinalTarget(cx.code, next, k), j, st);
    ChainJoin(cx.code, cx.s, next, j, st, k);
    JoinTo(cx.code, cx.s, Run(next, j, st), f);
    JoinTo(cx.code, cx.s, b, Run(ret, j, st));
    assert Step(cx.code, cx.s, f) == Step(cx.code, cx.s, Run(ret, j, st));
    JoinSym(cx.code, cx.s, Run(next, j, st), Step(cx.code, cx.s, f));
    JoinTrans(cx.code, cx.s, b, Step(cx.code, cx.s, f), Run(next, j, st));
  }

  /** How the call of rule `k` was resolved. */
  lemma CallAt(cx: Cx, k: nat, at: int)
    requires k < |cx.rp| && k < RULENUMBERS
    requires Linked(cx.code, at, Ins(IOpenCall(k % RULENUMBERS, 0)), cx.rp)
    ensures 0 <= at < |cx.code|
    ensures cx.code[at] == ICall(cx.rp[k] - at)
         || (cx.code[at] == IJmp(cx.rp[k] - at) && ReachesRet(cx.code, at + 2))
  {
    assert LinkSlot(cx.code, at + 0, Ins(IOpenCall(k % RULENUMBERS, 0))[0], cx.rp);
  }

  lemma CallOk(cx: Cx, k: nat, opt: bool, fl: Charset, at: int, i: nat, st: Stack, m: nat)
    requires RulesLinked(cx.code, cx.g, cx.rp, cx.n) && k < |cx.g| && k < RULENUMBERS && m > 0
    requires i <= |cx.s| && Entry(opt, st, fl)
    requires Linked(cx.code, at, Ins(IOpenCall(k % RULENUMBERS, 0)), cx.rp)
    ensures Ok(cx, opt, Run(at, i, st), at + 2, st, fl, Meaning(cx, cx.g[k], i, m - 1))
    decreases m, TCall(k), 0
  {
    hide Gen, Match, GetFirst, HeadFail, CheckAux, FixedLenX, Linked, RulesLinked, Join, WellFormed;
    var c := RuleAt(cx, k);
    CallAt(cx, k, at);
    var start, ret := cx.rp[k], cx.rp[k] + |c|;
    var a, r := Run(at, i, st), Meaning(cx, cx.g[k], i, m - 1);
    var st2 := if cx.code[at].ICall? then Push(Ret(at + 2), st) else st;
    var b := Run(start, i, st2);
    GenOk(cx, cx.g[k], c, false, NoTest, FullSet(), start, i, st2, m - 1);
    assert Step(cx.code, cx.s, a) == b;
    if r.Succ? {
      OneStep(cx, ret, IRet, r.pos, st2);
      if cx.code[at].ICall? {
        OkContinue(cx, opt, b, Run(ret, r.pos, st2), at + 2, r.pos, st, fl);
      } else {
        LinkedOne(cx.code, ret, IRet, cx.rp);
        TailCallReturns(cx, b, ret, at + 2, r.pos, st);
        OkEnd(cx, opt, b, at + 2, r.pos, st, fl);
      }
    }
    OkStep(cx, opt, a, b, at + 2, st, fl, r);
  }

  lemma NotOk(cx: Cx, p: Tree, opt: bool, tt: Test, fl: Charset, at: int, i: nat, st: Stack, m: nat)
    requires RulesLinked(cx.code, cx.g, cx.rp, cx.n) && WellFormed(cx.g, p)
    requires i <= |cx.s| && TestHolds(tt, cx.s, i) && Entry(opt, st, fl)
    requires Linked(cx.code, at, Gen(cx.g, TNot(p), opt, tt, fl, cx.n), cx.rp)
    ensures Ok(cx, opt, Run(at, i, st), at + |Gen(cx.g, TNot(p), opt, tt, fl, cx.n)|, st, fl,
               Meaning(cx, TNot(p), i, m))
    decreases m, TNot(p), 8
  {
    hide Gen, Match, GetFirst, HeadFail, CheckAux, FixedLenX, Linked, RulesLinked, Join, WellFormed, Step, Ok;
    GenNot(cx.g, p, opt, tt, fl, cx.n);
    if HeadFail(cx.g, p, cx.n) {
      TestNotOk(cx, p, opt, fl, at, i, st, m);
    } else {
      FullNotOk(cx, p, Gen(cx.g, p, false, NoTest, FullSet(), cx.n), opt, fl, at, i, st, m);
    }
  }

  lemma AndOk(cx: Cx, p: Tree, opt: bool, tt: Test, fl: Charset, at: int, i: nat, st: Stack, m: nat)
    requires RulesLinked(cx.code, cx.g, cx.rp, cx.n) && WellFormed(cx.g, p)
    requires i <= |cx.s| && TestHolds(tt, cx.s, i) && Entry(opt, st, fl)
    requires Linked(cx.code, at, Gen(cx.g, TAnd(p), opt, tt, fl, cx.n), cx.rp)
    ensures Ok(cx, opt, Run(at, i, st), at + |Gen(cx.g, TAnd(p), opt, tt, fl, cx.n)|, st, fl,
               Meaning(cx, TAnd(p), i, m))
    decreases m, TAnd(p), 8
  {
    hide Gen, Match, GetFirst, HeadFail, CheckAux, FixedLenX, Linked, RulesLinked, Join, WellFormed, Step, Ok;
    GenAnd(cx.g, p, opt, tt, fl, cx.n);
    var c := Gen(cx.g, p, false, tt, FullSet(), cx.n);
    if 0 <= FixedLen(cx.g, p) <= MAXBEHIND {
      FixedAndOk(cx, p, c, opt, tt, fl, at, i, st, m);
    } else {
      FullAndOk(cx, p, c, opt, tt, fl, at, i, st, m);
    }
  }

  lemma LookBehindOk(cx: Cx, k: nat, p: Tree, opt: bool, tt: Test, fl: Charset, at: int, i: nat, st: Stack, m: nat)
    requires RulesLinked(cx.code, cx.g, cx.rp, cx.n) && WellFormed(cx.g, p) && FixedLen(cx.g, p) == k
    requires i <= |cx.s| && TestHolds(tt, cx.s, i) && Entry(opt, st, fl)
    requires Linked(cx.code, at, Gen(cx.g, TBehind(k, p), opt, tt, fl, cx.n), cx.rp)
    ensures Ok(cx, opt, Run(at, i, st), at + |Gen(cx.g, TBehind(k, p), opt, tt, fl, cx.n)|, st, fl,
               Meaning(cx, TBehind(k, p), i, m))
    decreases m, TBehind(k, p), 8
  {
    hide Gen, Match, GetFirst, HeadFail, CheckAux, FixedLenX, Linked, RulesLinked, Join, WellFormed, Step, Ok;
    GenBehind(cx.g, k, p, opt, tt, fl, cx.n);
    BehindOk(cx, k, p, Gen(cx.g, p, false, NoTest, FullSet(), cx.n), opt, fl, at, i, st, m);
  }

  lemma SequenceOk(cx: Cx, p1: Tree, p2: Tree, opt: bool, tt: Test, fl: Charset, at: int, i: nat, st: Stack, m: nat)
    requires RulesLinked(cx.code, cx.g, cx.rp, cx.n) && WellFormed(cx.g, p1) && WellFormed(cx.g, p2)
    requires i <= |cx.s| && TestHolds(tt, cx.s, i) && Entry(opt, st, fl)
    requires Linked(cx.code, at, Gen(cx.g, TSeq(p1, p2), opt, tt, fl, cx.n), cx.rp)
    ensures Ok(cx, opt, Run(at, i, st), at + |Gen(cx.g, TSeq(p1, p2), opt, tt, fl, cx.n)|, st, fl,
               Meaning(cx, TSeq(p1, p2), i, m))
    decreases m, TSeq(p1, p2), 8
  {
    hide Gen, Match, GetFirst, HeadFail, CheckAux, FixedLenX, Linked, RulesLinked, Join, WellFormed, Step, Ok;
    GenSeq(cx.g, p1, p2, opt, tt, fl, cx.n);
    var c1 := Gen(cx.g, p1, false, tt, FollowOf(cx.g, p1, p2, fl, cx.n), cx.n);
    var c2 := Gen(cx.g, p2, opt, if FixedLen(cx.g, p1) != 0 then NoTest else tt, fl, cx.n);
    SeqOk(cx, p1, p2, c1, c2, opt, tt, fl, at, i, st, m);
    assert at + |c1 + c2| == at + |c1| + |c2|;
  }

  lemma NonterminalOk(cx: Cx, t: Tree, opt: bool, tt: Test, fl: Charset, at: int, i: nat, st: Stack, m: nat)
    requires t.TGrammar? || t.TCall?
    requires RulesLinked(cx.code, cx.g, cx.rp, cx.n) && WellFormed(cx.g, t)
    requires i <= |cx.s| && Entry(opt, st, fl)
    requires Linked(cx.code, at, Gen(cx.g, t, opt, tt, fl, cx.n), cx.rp)
    ensures Ok(cx, opt, Run(at, i, st), at + |Gen(cx.g, t, opt, tt, fl, cx.n)|, st, fl, Meaning(cx, t, i, m))
    decreases m, t, 8
  {
    hide Match, GetFirst, HeadFail, CheckAux, FixedLenX, Linked, RulesLinked, Join, Step, Ok, GrammarCode;
    match t
    case TGrammar(rules) =>
      assert Gen(cx.g, t, opt, tt, fl, cx.n) == GrammarCode(RuleBlocks(rules, cx.n));
      GrammarOk(cx, rules, Gen(cx.g, t, opt, tt, fl, cx.n), opt, fl, at, i, st, m);
    case TCall(k) =>
      MatchCall(cx.g, k, cx.s, i, m);
      if m > 0 {
        CallOk(cx, k, opt, fl, at, i, st, m);
      } else {
        OkUnknown(cx, opt, Run(at, i, st), at + 2, st, fl);
      }
  }

  /** The code of every pattern does what the pattern means, in every mode of `codegen`. */
  lemma GenOk(cx: Cx, t: Tree, c: Code, opt: bool, tt: Test, fl: Charset, at: int, i: nat, st: Stack, m: nat)
    requires RulesLinked(cx.code, cx.g, cx.rp, cx.n) && WellFormed(cx.g, t)
    requires c == Gen(cx.g, t, opt, tt, fl, cx.n) && Linked(cx.code, at, c, cx.rp)
    requires i <= |cx.s| && TestHolds(tt, cx.s, i) && Entry(opt, st, fl)
    ensures Ok(cx, opt, Run(at, i, st), at + |c|, st, fl, Meaning(cx, t, i, m))
    decreases m, t, 9
  {
    hide Gen, Match, GetFirst, HeadFail, CheckAux, FixedLenX, Linked, RulesLinked, Join, Step, Ok;
    match t
    case TSeq(p1, p2) => SequenceOk(cx, p1, p2, opt, tt, fl, at, i, st, m);
    case TChoice(p1, p2) => ChoiceOk(cx, p1, p2, opt, tt, fl, at, i, st, m);
    case TRep(p) => RepOk(cx, p, opt, tt, fl, at, i, st, m);
    case TNot(p) => NotOk(cx, p, opt, tt, fl, at, i, st, m);
    case TAnd(p) => AndOk(cx, p, opt, tt, fl, at, i, st, m);
    case TBehind(k, p) => LookBehindOk(cx, k, p, opt, tt, fl, at, i, st, m);
    case TGrammar(_) => NonterminalOk(cx, t, opt, tt, fl, at, i, st, m);
    case TCall(_) => NonterminalOk(cx, t, opt, tt, fl, at, i, st, m);
    case _ => LeafOk(cx, t, opt, tt, fl, at, i, st, m);
  }

  function Outcome(r: Result): (st: State)
    requires !r.Unknown?
    ensures Halted(st)
  {
    if r.Succ? then Matched(r.pos) else GaveUp
  }

  /** A closed pattern followed by `IEnd`: the machine ends at `j` when the pattern matches
      up to `j`, and gives up when it fails. */
  lemma ProgramOk(t: Tree, n: nat, s: Subject, i: nat, m: nat)
    requires i <= |s| && WellFormed([], t) && !Match([], t, s, i, m).Unknown?
    ensures exists k: nat ::
              Steps(Gen([], t, false, NoTest, FullSet(), n) + [IEnd], s, Start(i), k)
              == Outcome(Match([], t, s, i, m))
  {
    hide Gen, Match, WellFormed, Join, Steps;
    var c := Gen([], t, false, NoTest, FullSet(), n);
    var code := c + [IEnd];
    var cx := Cx(code, s, [], [], n);
    LinkedSelf(code, c, [IEnd]);
    var st := Push(Choice(GIVEUP, i), Empty);
    GenOk(cx, t, c, false, NoTest, FullSet(), 0, i, st, m);
    var r := Match([], t, s, i, m);
    if r.Succ? {
      JoinTo(code, s, Start(i), Run(|c|, r.pos, st));
    } else {
      assert Backtrack(st) == Run(GIVEUP, i, Empty);
      JoinTo(code, s, Start(i), Run(GIVEUP, i, Empty));
    }
    JoinHalted(code, s, Start(i), Outcome(r));
  }
}
