/** For accepted patterns the budget of the analyses is not a limit: from some budget on the
    generated code is the same, so it is the code of the source, whose analyses have none. */
module PegSettled {
  import opened Charset
  import opened Peg
  import opened PegAnalysis
  import opened PegCode
  import opened PegGrammar

  /** Left calls nest less than `c` deep from every place of `t`. */
  ghost predicate DeepAll(g: seq<Tree>, t: Tree, c: nat)
    decreases t
  {
    LeftDeep(g, t, c)
    && match t
       case TRep(p) => DeepAll(g, p, c)
       case TNot(p) => DeepAll(g, p, c)
       case TAnd(p) => DeepAll(g, p, c)
       case TBehind(_, p) => DeepAll(g, p, c)
       case TSeq(p1, p2) => DeepAll(g, p1, c) && DeepAll(g, p2, c)
       case TChoice(p1, p2) => DeepAll(g, p1, c) && DeepAll(g, p2, c)
       case TGrammar(rules) => forall k :: 0 <= k < |rules| ==> DeepAll(rules, rules[k], c)
       case _ => true
  }

  ghost predicate RulesDeep(g: seq<Tree>, c: nat) {
    forall k :: 0 <= k < |g| ==> DeepAll(g, g[k], c)
  }

  lemma {:induction false} GetFirstStable(g: seq<Tree>, t: Tree, follow: Charset, b: nat, n: nat)
    requires LeftDeep(g, t, b) && n >= b
    ensures GetFirst(g, t, follow, n) == GetFirst(g, t, follow, b)
    decreases b, t
  {
    match t
    case TRep(p) => GetFirstStable(g, p, follow, b, n);
    case TAnd(p) => GetFirstStable(g, p, follow, b, n);
    case TSeq(p1, p2) =>
      CheckAuxStable(g, p1, PEnullable, b, n);
      if Nullable(g, p1, b) {
        GetFirstStable(g, p2, follow, b, n);
        GetFirstStable(g, p1, GetFirst(g, p2, follow, b).cs, b, n);
      } else {
        GetFirstStable(g, p1, FullSet(), b, n);
      }
    case TChoice(p1, p2) =>
      GetFirstStable(g, p1, follow, b, n);
      GetFirstStable(g, p2, follow, b, n);
    case TGrammar(rules) =>
      if rules != [] {
        GetFirstStable(rules, rules[0], follow, b, n);
      }
    case TCall(k) => GetFirstStable(g, g[k], follow, b - 1, n - 1);
    case _ =>
  }

  lemma {:induction false} HeadFailStable(g: seq<Tree>, t: Tree, b: nat, c: nat, n: nat)
    requires RulesDeep(g, c) && DeepAll(g, t, c) && LeftDeep(g, t, b) && n >= b + c
    ensures HeadFail(g, t, n) == HeadFail(g, t, b + c)
    decreases b, t
  {
    match t
    case TAnd(p) => HeadFailStable(g, p, b, c, n);
    case TSeq(p1, p2) =>
      CheckAuxStable(g, p2, PEnofail, c, n);
      CheckAuxStable(g, p2, PEnofail, c, b + c);
      HeadFailStable(g, p1, b, c, n);
    case TChoice(p1, p2) =>
      HeadFailStable(g, p1, b, c, n);
      HeadFailStable(g, p2, b, c, n);
    case TGrammar(rules) =>
      if rules != [] {
        HeadFailStable(rules, rules[0], b, c, n);
      }
    case TCall(k) => HeadFailStable(g, g[k], b - 1, c, n - 1);
    case _ =>
  }

  /** The analyses of a pattern give the same answers for `n` as for `2 * c`. */
  lemma AnalysesStable(g: seq<Tree>, t: Tree, follow: Charset, c: nat, n: nat)
    requires RulesDeep(g, c) && DeepAll(g, t, c) && n >= 2 * c
    ensures GetFirst(g, t, follow, n) == GetFirst(g, t, follow, 2 * c)
    ensures HeadFail(g, t, n) == HeadFail(g, t, 2 * c)
  {
    GetFirstStable(g, t, follow, c, n);
    GetFirstStable(g, t, follow, c, 2 * c);
    HeadFailStable(g, t, c, c, n);
  }

  lemma ChoiceStable(g: seq<Tree>, p1: Tree, p2: Tree, opt: bool, tt: Test, fl: Charset, c: nat, n: nat)
    requires RulesDeep(g, c) && DeepAll(g, p1, c) && DeepAll(g, p2, c) && n >= 2 * c
    ensures Gen(g, TChoice(p1, p2), opt, tt, fl, n) == Gen(g, TChoice(p1, p2), opt, tt, fl, 2 * c)
    decreases TChoice(p1, p2), 0
  {
    hide Gen, GetFirst, HeadFail, RulesDeep, DeepAll;
    AnalysesStable(g, p1, FullSet(), c, n);
    AnalysesStable(g, p2, fl, c, n);
    GenChoice(g, p1, p2, opt, tt, fl, n);
    GenChoice(g, p1, p2, opt, tt, fl, 2 * c);
    var f1 := GetFirst(g, p1, FullSet(), n);
    GenStable(g, p1, false, TestOf(f1.cs), fl, c, n);
    GenStable(g, p1, true, NoTest, FullSet(), c, n);
    GenStable(g, p1, p2.TTrue?, if f1.empty then NoTest else TestOf(f1.cs), FullSet(), c, n);
    GenStable(g, p2, opt, NoTest, fl, c, n);
  }

  lemma RepStable(g: seq<Tree>, p: Tree, opt: bool, tt: Test, fl: Charset, c: nat, n: nat)
    requires RulesDeep(g, c) && DeepAll(g, p, c) && n >= 2 * c
    ensures Gen(g, TRep(p), opt, tt, fl, n) == Gen(g, TRep(p), opt, tt, fl, 2 * c)
    decreases TRep(p), 0
  {
    hide Gen, GetFirst, HeadFail, RulesDeep, DeepAll;
    AnalysesStable(g, p, FullSet(), c, n);
    GenRep(g, p, opt, tt, fl, n);
    GenRep(g, p, opt, tt, fl, 2 * c);
    GenStable(g, p, false, TestOf(GetFirst(g, p, FullSet(), n).cs), FullSet(), c, n);
    GenStable(g, p, false, NoTest, FullSet(), c, n);
  }

  lemma SeqStable(g: seq<Tree>, p1: Tree, p2: Tree, opt: bool, tt: Test, fl: Charset, c: nat, n: nat)
    requires RulesDeep(g, c) && DeepAll(g, p1, c) && DeepAll(g, p2, c) && n >= 2 * c
    ensures Gen(g, TSeq(p1, p2), opt, tt, fl, n) == Gen(g, TSeq(p1, p2), opt, tt, fl, 2 * c)
    decreases TSeq(p1, p2), 0
  {
    hide Gen, GetFirst, HeadFail, FixedLenX, RulesDeep, DeepAll;
    AnalysesStable(g, p2, fl, c, n);
    GenSeq(g, p1, p2, opt, tt, fl, n);
    GenSeq(g, p1, p2, opt, tt, fl, 2 * c);
    GenStable(g, p1, false, tt, FollowOf(g, p1, p2, fl, n), c, n);
    GenStable(g, p2, opt, if FixedLen(g, p1) != 0 then NoTest else tt, fl, c, n);
  }

  lemma GrammarStable(g: seq<Tree>, rules: seq<Tree>, opt: bool, tt: Test, fl: Charset, c: nat, n: nat)
    requires RulesDeep(rules, c) && n >= 2 * c
    ensures Gen(g, TGrammar(rules), opt, tt, fl, n) == Gen(g, TGrammar(rules), opt, tt, fl, 2 * c)
    decreases TGrammar(rules), 0
  {
    hide GetFirst, HeadFail, FixedLenX, DeepAll, GrammarCode, CheckAux;
    forall k | 0 <= k < |rules|
      ensures RuleBlocks(rules, n)[k] == RuleBlocks(rules, 2 * c)[k]
    {
      GenStable(rules, rules[k], false, NoTest, FullSet(), c, n);
    }
    assert RuleBlocks(rules, n) == RuleBlocks(rules, 2 * c);
    assert Gen(g, TGrammar(rules), opt, tt, fl, n) == GrammarCode(RuleBlocks(rules, n));
    assert Gen(g, TGrammar(rules), opt, tt, fl, 2 * c) == GrammarCode(RuleBlocks(rules, 2 * c));
  }

  lemma {:induction false} GenStable(g: seq<Tree>, t: Tree, opt: bool, tt: Test, fl: Charset, c: nat, n: nat)
    requires RulesDeep(g, c) && DeepAll(g, t, c) && n >= 2 * c
    ensures Gen(g, t, opt, tt, fl, n) == Gen(g, t, opt, tt, fl, 2 * c)
    decreases t, 1
  {
    hide Gen, GetFirst, HeadFail, LeftDeep, FixedLenX;
    match t
    case TChoice(p1, p2) => ChoiceStable(g, p1, p2, opt, tt, fl, c, n);
    case TRep(p) => RepStable(g, p, opt, tt, fl, c, n);
    case TSeq(p1, p2) => SeqStable(g, p1, p2, opt, tt, fl, c, n);
    case TGrammar(rules) => GrammarStable(g, rules, opt, tt, fl, c, n);
    case TNot(p) =>
      AnalysesStable(g, p, FullSet(), c, n);
      GenNot(g, p, opt, tt, fl, n);
      GenNot(g, p, opt, tt, fl, 2 * c);
      GenStable(g, p, false, NoTest, FullSet(), c, n);
    case TAnd(p) =>
      GenAnd(g, p, opt, tt, fl, n);
      GenAnd(g, p, opt, tt, fl, 2 * c);
      GenStable(g, p, false, tt, FullSet(), c, n);
    case TBehind(k, p) =>
      GenBehind(g, k, p, opt, tt, fl, n);
      GenBehind(g, k, p, opt, tt, fl, 2 * c);
      GenStable(g, p, false, NoTest, FullSet(), c, n);
    case _ => LeafStable(g, t, opt, tt, fl, c, n);
  }

  lemma LeafStable(g: seq<Tree>, t: Tree, opt: bool, tt: Test, fl: Charset, c: nat, n: nat)
    requires t.TChar? || t.TAny? || t.TSet? || t.TTrue? || t.TFalse? || t.TCall?
    ensures Gen(g, t, opt, tt, fl, n) == Gen(g, t, opt, tt, fl, 2 * c)
  {
  }

  // ---- a bound for every accepted pattern -------------------------------------------

  lemma {:induction false} DeepAllMonotone(g: seq<Tree>, t: Tree, c: nat, e: nat)
    requires DeepAll(g, t, c) && e >= c
    ensures DeepAll(g, t, e)
    decreases t
  {
    LeftDeepMonotone(g, t, c, e);
    match t
    case TRep(p) => DeepAllMonotone(g, p, c, e);
    case TNot(p) => DeepAllMonotone(g, p, c, e);
    case TAnd(p) => DeepAllMonotone(g, p, c, e);
    case TBehind(_, p) => DeepAllMonotone(g, p, c, e);
    case TSeq(p1, p2) =>
      DeepAllMonotone(g, p1, c, e);
      DeepAllMonotone(g, p2, c, e);
    case TChoice(p1, p2) =>
      DeepAllMonotone(g, p1, c, e);
      DeepAllMonotone(g, p2, c, e);
    case TGrammar(rules) =>
      forall k | 0 <= k < |rules|
        ensures DeepAll(rules, rules[k], e)
      {
        DeepAllMonotone(rules, rules[k], c, e);
      }
    case _ =>
  }

  lemma {:induction false} DeepAllExists(g: seq<Tree>, t: Tree, u: set<nat>, size: nat, b: nat, d: nat) returns (c: nat)
    requires Calls(t) <= u && RulesReady(g, u, size, b, d) && BuiltFrom(g, t, d)
    ensures DeepAll(g, t, c)
    decreases t, 0
  {
    c := DeepExists(g, t, u, size, b, d);
    BuiltParts(g, t, d);
    if t.TRep? || t.TNot? || t.TAnd? || t.TBehind? {
      var c1 := DeepAllExists(g, t.body, u, size, b, d);
      c := JoinBounds(g, t, c, t.body, c1, t.body, c1);
    } else if t.TSeq? || t.TChoice? {
      var c1 := DeepAllExists(g, t.p1, u, size, b, d);
      var c2 := DeepAllExists(g, t.p2, u, size, b, d);
      c := JoinBounds(g, t, c, t.p1, c1, t.p2, c2);
    } else if t.TGrammar? {
      var u2, b2 := GrammarReady(g, t.rules, d);
      GrammarBuilt(g, t.rules, d);
      RulesCallUsed(t.rules, d, u2);
      var c1 := RulesDeepExists(t.rules, t.rules, u2, Size(t), b2, d);
      var c2 := Max(c, c1);
      LeftDeepMonotone(g, t, c, c2);
      forall k | 0 <= k < |t.rules|
        ensures DeepAll(t.rules, t.rules[k], c2)
      {
        DeepAllMonotone(t.rules, t.rules[k], c1, c2);
      }
      c := c2;
    }
  }

  lemma JoinBounds(g: seq<Tree>, t: Tree, c: nat, p1: Tree, c1: nat, p2: Tree, c2: nat) returns (e: nat)
    requires LeftDeep(g, t, c) && DeepAll(g, p1, c1) && DeepAll(g, p2, c2)
    ensures LeftDeep(g, t, e) && DeepAll(g, p1, e) && DeepAll(g, p2, e)
  {
    e := Max(c, Max(c1, c2));
    LeftDeepMonotone(g, t, c, e);
    DeepAllMonotone(g, p1, c1, e);
    DeepAllMonotone(g, p2, c2, e);
  }

  lemma RulesCallUsed(rules: seq<Tree>, d: nat, u: set<nat>)
    requires forall k :: 0 <= k < |rules| ==> BuiltFrom(rules, rules[k], d)
    requires forall k: nat :: k < |rules| && Used(rules, k) ==> k in u
    ensures forall k :: 0 <= k < |rules| ==> Calls(rules[k]) <= u
  {
    forall k, c | 0 <= k < |rules| && c in Calls(rules[k])
      ensures c in u
    {
      assert Built(rules, rules[k], d);
      CallsBuilt(rules, rules[k], d, c);
      assert Used(rules, c);
    }
  }

  lemma {:induction false} RulesDeepExists(g: seq<Tree>, rules: seq<Tree>, u: set<nat>, size: nat, b: nat, d: nat)
    returns (c: nat)
    requires RulesReady(g, u, size, b, d)
    requires forall k :: 0 <= k < |rules| ==> Calls(rules[k]) <= u && BuiltFrom(g, rules[k], d)
    ensures forall k :: 0 <= k < |rules| ==> DeepAll(g, rules[k], c)
    decreases rules, 1
  {
    c := 0;
    if rules != [] {
      var c1 := DeepAllExists(g, rules[0], u, size, b, d);
      var c2 := RulesDeepExists(g, rules[1..], u, size, b, d);
      c := Max(c1, c2);
      DeepAllMonotone(g, rules[0], c1, c);
      forall k | 1 <= k < |rules|
        ensures DeepAll(g, rules[k], c)
      {
        assert rules[k] == rules[1..][k - 1];
        DeepAllMonotone(g, rules[k], c2, c);
      }
    }
  }

  /** From some budget on the code of an accepted pattern does not change. */
  lemma CodeSettles(t: Tree, d: nat) returns (c: nat)
    requires Constructed(t, d)
    ensures forall n: nat :: n >= c ==>
              Gen([], t, false, NoTest, FullSet(), n) == Gen([], t, false, NoTest, FullSet(), c)
  {
    hide Gen;
    CallsNothing(t, d);
    var b := DeepAllExists([], t, {}, 0, 0, d);
    c := 2 * b;
    forall n: nat | n >= c
      ensures Gen([], t, false, NoTest, FullSet(), n) == Gen([], t, false, NoTest, FullSet(), c)
    {
      GenStable([], t, false, NoTest, FullSet(), b, n);
    }
  }
}
