/** `codecall` of skynet/3rd/lpeg/lpcode.c takes the number of the called rule from a field of
    one byte, while grammars may have up to MAXRULES rules. Calls of rules beyond the first
    256 lead to another rule. */
module PegRuleNumbers {
  import opened Charset
  import opened Peg
  import opened PegVm
  import opened PegCode
  import opened PegCompiler
  import opened PegLink
  import opened PegGrammar
  import opened PegTheorems

  lemma {:induction false} OffsetsIncrease(blocks: seq<Code>, j: nat, k: nat)
    requires j < k <= |blocks| && forall b :: 0 <= b < |blocks| ==> blocks[b] != []
    ensures RuleOffset(blocks, j) < RuleOffset(blocks, k)
    decreases k
  {
    FlattenOneMore(blocks, k - 1);
    if j < k - 1 {
      OffsetsIncrease(blocks, j, k - 1);
    }
  }

  /** The call of rule `k` leads to the code of rule `k` exactly when `k` fits a byte. */
  lemma CallLeadsToRule(code: Code, blocks: seq<Code>, i: nat, k: nat)
    requires i < |code| && code[i] == IOpenCall(k % RULENUMBERS, 0)
    requires k < |blocks| && forall b :: 0 <= b < |blocks| ==> blocks[b] != []
    ensures var x := CorrectAt(code, RuleOffsets(blocks), i)[i];
            && (x.ICall? || x.IJmp?)
            && (i + x.off == RuleOffset(blocks, k) <==> k < RULENUMBERS)
  {
    if k >= RULENUMBERS {
      OffsetsIncrease(blocks, k % RULENUMBERS, k);
    }
  }

  /** `{ S <- 'a' R; ... }` with 257 rules, where `R` is rule `k` and all the others match
      empty. */
  function ManyRules(k: nat): (rules: seq<Tree>)
    ensures |rules| == RULENUMBERS + 1 && rules[0] == TSeq(TChar(97), TCall(k))
    ensures forall r :: 0 < r < |rules| ==> rules[r] == TTrue
  {
    [TSeq(TChar(97), TCall(k))] + seq(RULENUMBERS, _ => TTrue)
  }

  lemma ManyRulesAccepted(k: nat, n: nat)
    requires k <= RULENUMBERS
    ensures Closed(TGrammar(ManyRules(k)), n)
  {
    var rules := ManyRules(k);
    forall m | m >= n
      ensures Built([], TGrammar(rules), m)
    {
      forall r | 0 <= r < |rules|
        ensures Built(rules, rules[r], m) && RuleAccepted(rules, rules[r], m)
      {
        assert Built(rules, TChar(97), m) && Built(rules, TCall(k), m);
        assert Verify(rules, TChar(97), 0, false, m, false) == Accepted(false);
        assert Verify(rules, TChar(97), 0, false, m, true) == Accepted(false);
      }
    }
  }

  lemma SameBlocks(n: nat)
    ensures RuleBlocks(ManyRules(RULENUMBERS), n) == RuleBlocks(ManyRules(0), n)
  {
    var a, b := ManyRules(RULENUMBERS), ManyRules(0);
    forall r | 0 <= r < |a|
      ensures Gen(a, a[r], false, NoTest, FullSet(), n) == Gen(b, b[r], false, NoTest, FullSet(), n)
    {
      if r == 0 {
        GenSeq(a, TChar(97), TCall(RULENUMBERS), false, NoTest, FullSet(), n);
        GenSeq(b, TChar(97), TCall(0), false, NoTest, FullSet(), n);
      }
    }
  }

  /** A grammar that is accepted and matches "a", while its code gives up: the call of rule
      256 has become a call of rule 0. */
  lemma RuleNumberTruncated(n: nat)
    ensures Closed(TGrammar(ManyRules(RULENUMBERS)), n)
    ensures Matches([], TGrammar(ManyRules(RULENUMBERS)), [97], 0, 1)
    ensures EndsIn(Compiled(TGrammar(ManyRules(RULENUMBERS)), n), [97], 0, GaveUp)
  {
    hide Compiled, EndsIn, Gen, Closed;
    var a, b := ManyRules(RULENUMBERS), ManyRules(0);
    ManyRulesAccepted(RULENUMBERS, n);
    MeaningOfMany();
    CompiledComputes(TGrammar(b), n, [97], 0, 1);
    assert Compiled(TGrammar(a), n) == Compiled(TGrammar(b), n) by {
      SameCompiled(n);
    }
  }

  lemma SameCompiled(n: nat)
    ensures Compiled(TGrammar(ManyRules(RULENUMBERS)), n) == Compiled(TGrammar(ManyRules(0)), n)
  {
    hide Gen, GrammarCode;
    SameBlocks(n);
    GenGrammar([], ManyRules(RULENUMBERS), false, NoTest, FullSet(), n);
    GenGrammar([], ManyRules(0), false, NoTest, FullSet(), n);
  }

  lemma MeaningOfMany()
    ensures Match([], TGrammar(ManyRules(RULENUMBERS)), [97], 0, 1) == Succ(1)
    ensures Match([], TGrammar(ManyRules(0)), [97], 0, 1) == Fail
    ensures WellFormed([], TGrammar(ManyRules(0)))
  {
    var a, b := ManyRules(RULENUMBERS), ManyRules(0);
    assert Match(a, TCall(RULENUMBERS), [97], 1, 1) == Succ(1);
    assert Match(b, TChar(97), [97], 1, 0) == Fail;
    assert Match(b, TCall(0), [97], 1, 1) == Match(b, b[0], [97], 1, 0);
    forall r | 0 <= r < |b|
      ensures WellFormed(b, b[r])
    {
    }
  }
}
