/** The operators of skynet/3rd/lpeg/lptree.c that build patterns and simplify them on the
    way. Each is related to the rule for that operator over `Matches` and `Fails`. */
module PegOperators {
  import opened Peg
  import opened PegAnalysis
  import opened PegCode
  import opened PegGrammar
  import opened PegTree

  /** `lp_seq` */
  function LpSeq(t1: Tree, t2: Tree): Tree {
    if t1.TFalse? || t2.TTrue? then t1
    else if t1.TTrue? then t2
    else TSeq(t1, t2)
  }

  /** `lp_choice`; the calls of a pattern are still open then, and `nofail` is false of them. */
  function LpChoice(t1: Tree, t2: Tree, n: nat): Tree {
    if IsCharset(t1) && IsCharset(t2) then TSet(CharsetOf(t1) + CharsetOf(t2))
    else if NoFail([], t1, n) || t2.TFalse? then t1
    else if t1.TFalse? then t2
    else TChoice(t1, t2)
  }

  /** `lp_sub` */
  function LpSub(t1: Tree, t2: Tree): Tree {
    if IsCharset(t1) && IsCharset(t2) then TSet(CharsetOf(t1) - CharsetOf(t2))
    else TSeq(TNot(t2), t1)
  }

  /** What `lp_star` builds for n >= 0. */
  function AtLeast(p: Tree, n: nat): Tree {
    if n == 0 then TRep(p) else TSeq(p, AtLeast(p, n - 1))
  }

  /** What `lp_star` builds for -n. */
  function AtMost(p: Tree, n: nat): Tree
    requires n >= 1
  {
    if n == 1 then TChoice(p, TTrue) else TChoice(TSeq(p, AtMost(p, n - 1)), TTrue)
  }

  // ---- budgets, in and out ----------------------------------------------------------

  lemma Witness(g: seq<Tree>, t: Tree, s: Subject, i: nat, m: nat)
    requires i <= |s|
    ensures Match(g, t, s, i, m).Succ? ==> Matches(g, t, s, i, Match(g, t, s, i, m).pos)
    ensures Match(g, t, s, i, m).Fail? ==> Fails(g, t, s, i)
  {
  }

  lemma MatchesBudget(g: seq<Tree>, t: Tree, s: Subject, i: nat, j: nat) returns (m: nat)
    requires i <= |s| && Matches(g, t, s, i, j)
    ensures Match(g, t, s, i, m) == Succ(j) && i <= j <= |s|
  {
    m :| Match(g, t, s, i, m) == Succ(j);
  }

  lemma FailsBudget(g: seq<Tree>, t: Tree, s: Subject, i: nat) returns (m: nat)
    requires i <= |s| && Fails(g, t, s, i)
    ensures Match(g, t, s, i, m) == Fail
  {
    m :| Match(g, t, s, i, m) == Fail;
  }

  lemma MatchPair(g: seq<Tree>, t1: Tree, t2: Tree, s: Subject, i: nat, m: nat)
    requires i <= |s|
    ensures var r := Match(g, t1, s, i, m);
            && Match(g, TSeq(t1, t2), s, i, m) == (if r.Succ? then Match(g, t2, s, r.pos, m) else r)
            && Match(g, TChoice(t1, t2), s, i, m) == (if r.Fail? then Match(g, t2, s, i, m) else r)
            && Match(g, TNot(t1), s, i, m) == (if r.Fail? then Succ(i) else if r.Succ? then Fail else r)
  {
  }

  // ---- sequence ---------------------------------------------------------------------

  ghost predicate SeqMatches(g: seq<Tree>, t1: Tree, t2: Tree, s: Subject, i: nat, j: nat)
    requires i <= |s|
  {
    exists x: nat :: x <= |s| && Matches(g, t1, s, i, x) && Matches(g, t2, s, x, j)
  }

  ghost predicate SeqFails(g: seq<Tree>, t1: Tree, t2: Tree, s: Subject, i: nat)
    requires i <= |s|
  {
    Fails(g, t1, s, i) || exists x: nat :: x <= |s| && Matches(g, t1, s, i, x) && Fails(g, t2, s, x)
  }

  lemma SeqMatchesRule(g: seq<Tree>, t1: Tree, t2: Tree, s: Subject, i: nat, j: nat)
    requires i <= |s|
    ensures Matches(g, TSeq(t1, t2), s, i, j) <==> SeqMatches(g, t1, t2, s, i, j)
  {
    hide Match, Matches;
    if Matches(g, TSeq(t1, t2), s, i, j) {
      var m := MatchesBudget(g, TSeq(t1, t2), s, i, j);
      MatchPair(g, t1, t2, s, i, m);
      Witness(g, t1, s, i, m);
      Witness(g, t2, s, Match(g, t1, s, i, m).pos, m);
    }
    if SeqMatches(g, t1, t2, s, i, j) {
      var x: nat :| x <= |s| && Matches(g, t1, s, i, x) && Matches(g, t2, s, x, j);
      var m1 := MatchesBudget(g, t1, s, i, x);
      var m2 := MatchesBudget(g, t2, s, x, j);
      SeqTogether(g, t1, t2, s, i, x, m1, m2);
    }
  }

  lemma SeqFailsRule(g: seq<Tree>, t1: Tree, t2: Tree, s: Subject, i: nat)
    requires i <= |s|
    ensures Fails(g, TSeq(t1, t2), s, i) <==> SeqFails(g, t1, t2, s, i)
  {
    hide Match, Matches, Fails;
    if Fails(g, TSeq(t1, t2), s, i) {
      var m := FailsBudget(g, TSeq(t1, t2), s, i);
      MatchPair(g, t1, t2, s, i, m);
      Witness(g, t1, s, i, m);
      var r := Match(g, t1, s, i, m);
      if r.Succ? {
        Witness(g, t2, s, r.pos, m);
      }
    }
    if Fails(g, t1, s, i) {
      var m := FailsBudget(g, t1, s, i);
      MatchPair(g, t1, t2, s, i, m);
      Witness(g, TSeq(t1, t2), s, i, m);
    } else if SeqFails(g, t1, t2, s, i) {
      var x: nat :| x <= |s| && Matches(g, t1, s, i, x) && Fails(g, t2, s, x);
      var m1 := MatchesBudget(g, t1, s, i, x);
      var m2 := FailsBudget(g, t2, s, x);
      SeqTogether(g, t1, t2, s, i, x, m1, m2);
    }
  }

  lemma SeqTogether(g: seq<Tree>, t1: Tree, t2: Tree, s: Subject, i: nat, x: nat, m1: nat, m2: nat)
    requires i <= |s| && x <= |s|
    requires Match(g, t1, s, i, m1) == Succ(x) && !Match(g, t2, s, x, m2).Unknown?
    ensures Match(g, t2, s, x, m2).Succ? ==> Matches(g, TSeq(t1, t2), s, i, Match(g, t2, s, x, m2).pos)
    ensures Match(g, t2, s, x, m2).Fail? ==> Fails(g, TSeq(t1, t2), s, i)
  {
    hide Match, Matches, Fails;
    MatchMonotone(g, t1, s, i, m1, m1 + m2);
    MatchMonotone(g, t2, s, x, m2, m1 + m2);
    MatchPair(g, t1, t2, s, i, m1 + m2);
    Witness(g, TSeq(t1, t2), s, i, m1 + m2);
  }

  /** `lp_seq` builds a pattern for: first `t1`, then `t2` from where it ended. */
  lemma LpSeqMeaning(g: seq<Tree>, t1: Tree, t2: Tree, s: Subject, i: nat)
    requires i <= |s|
    ensures forall j: nat :: Matches(g, LpSeq(t1, t2), s, i, j) <==> SeqMatches(g, t1, t2, s, i, j)
    ensures Fails(g, LpSeq(t1, t2), s, i) <==> SeqFails(g, t1, t2, s, i)
  {
    hide SeqMatches, SeqFails;
    SameOutcomes(g, LpSeq(t1, t2), TSeq(t1, t2), s, i);
    forall j: nat
      ensures Matches(g, TSeq(t1, t2), s, i, j) <==> SeqMatches(g, t1, t2, s, i, j)
    {
      SeqMatchesRule(g, t1, t2, s, i, j);
    }
    SeqFailsRule(g, t1, t2, s, i);
  }

  /** Patterns with the same meaning for every budget have the same outcomes. */
  lemma SameOutcomes(g: seq<Tree>, t: Tree, u: Tree, s: Subject, i: nat)
    requires i <= |s| && forall m: nat :: Match(g, t, s, i, m) == Match(g, u, s, i, m)
    ensures forall j: nat :: Matches(g, t, s, i, j) <==> Matches(g, u, s, i, j)
    ensures Fails(g, t, s, i) <==> Fails(g, u, s, i)
  {
    hide Match, Matches, Fails;
    OutcomesCarry(g, t, u, s, i);
    OutcomesCarry(g, u, t, s, i);
  }

  lemma OutcomesCarry(g: seq<Tree>, t: Tree, u: Tree, s: Subject, i: nat)
    requires i <= |s| && forall m: nat :: Match(g, t, s, i, m) == Match(g, u, s, i, m)
    ensures forall j: nat :: Matches(g, t, s, i, j) ==> Matches(g, u, s, i, j)
    ensures Fails(g, t, s, i) ==> Fails(g, u, s, i)
  {
    hide Match, Matches, Fails;
    if Fails(g, t, s, i) {
      var m := FailsBudget(g, t, s, i);
      Witness(g, u, s, i, m);
    }
    forall j: nat | Matches(g, t, s, i, j)
      ensures Matches(g, u, s, i, j)
    {
      var m := MatchesBudget(g, t, s, i, j);
      Witness(g, u, s, i, m);
    }
  }

  // ---- ordered choice ---------------------------------------------------------------

  lemma ChoiceRule(g: seq<Tree>, t1: Tree, t2: Tree, s: Subject, i: nat, j: nat)
    requires i <= |s|
    ensures Matches(g, TChoice(t1, t2), s, i, j)
            <==> Matches(g, t1, s, i, j) || (Fails(g, t1, s, i) && Matches(g, t2, s, i, j))
    ensures Fails(g, TChoice(t1, t2), s, i) <==> Fails(g, t1, s, i) && Fails(g, t2, s, i)
  {
    hide Match, Matches, Fails;
    if Matches(g, TChoice(t1, t2), s, i, j) {
      var m := MatchesBudget(g, TChoice(t1, t2), s, i, j);
      MatchPair(g, t1, t2, s, i, m);
      Witness(g, t1, s, i, m);
      Witness(g, t2, s, i, m);
    }
    if Fails(g, TChoice(t1, t2), s, i) {
      var m := FailsBudget(g, TChoice(t1, t2), s, i);
      MatchPair(g, t1, t2, s, i, m);
      Witness(g, t1, s, i, m);
      Witness(g, t2, s, i, m);
    }
    if Matches(g, t1, s, i, j) {
      var m := MatchesBudget(g, t1, s, i, j);
      MatchPair(g, t1, t2, s, i, m);
      Witness(g, TChoice(t1, t2), s, i, m);
    }
    if Fails(g, t1, s, i) && Matches(g, t2, s, i, j) {
      var m := MatchesBudget(g, t2, s, i, j);
      ChoiceTogether(g, t1, t2, s, i, m);
    }
    if Fails(g, t1, s, i) && Fails(g, t2, s, i) {
      var m := FailsBudget(g, t2, s, i);
      ChoiceTogether(g, t1, t2, s, i, m);
    }
  }

  lemma ChoiceTogether(g: seq<Tree>, t1: Tree, t2: Tree, s: Subject, i: nat, m2: nat)
    requires i <= |s| && Fails(g, t1, s, i) && !Match(g, t2, s, i, m2).Unknown?
    ensures Match(g, t2, s, i, m2).Succ? ==> Matches(g, TChoice(t1, t2), s, i, Match(g, t2, s, i, m2).pos)
    ensures Match(g, t2, s, i, m2).Fail? ==> Fails(g, TChoice(t1, t2), s, i)
  {
    hide Match, Matches, Fails;
    var m1 := FailsBudget(g, t1, s, i);
    MatchMonotone(g, t1, s, i, m1, m1 + m2);
    MatchMonotone(g, t2, s, i, m2, m1 + m2);
    MatchPair(g, t1, t2, s, i, m1 + m2);
    Witness(g, TChoice(t1, t2), s, i, m1 + m2);
  }

  /** What `nofail` says of a pattern with open calls holds in every grammar. */
  lemma {:induction false} NoFailClosesLater(g: seq<Tree>, t: Tree, n: nat)
    requires NoFail([], t, n)
    ensures NoFail(g, t, n)
    decreases t
  {
    match t
    case TAnd(p) => NoFailClosesLater(g, p, n);
    case TSeq(p1, p2) =>
      NoFailClosesLater(g, p1, n);
      NoFailClosesLater(g, p2, n);
    case TChoice(p1, p2) =>
      if NoFail([], p2, n) {
        NoFailClosesLater(g, p2, n);
      } else {
        NoFailClosesLater(g, p1, n);
      }
    case _ =>
  }

  lemma LpChoiceSame(g: seq<Tree>, t1: Tree, t2: Tree, n: nat, s: Subject, i: nat, m: nat)
    requires i <= |s|
    ensures Match(g, LpChoice(t1, t2, n), s, i, m) == Match(g, TChoice(t1, t2), s, i, m)
  {
    if IsCharset(t1) && IsCharset(t2) {
      MatchCharset(g, t1, s, i, m);
      MatchCharset(g, t2, s, i, m);
    } else if NoFail([], t1, n) {
      NoFailClosesLater(g, t1, n);
      NoFailSound(g, t1, n, s, i, m);
    }
  }

  /** `lp_choice` builds a pattern for: `t1`, or `t2` if `t1` fails. */
  lemma LpChoiceMeaning(g: seq<Tree>, t1: Tree, t2: Tree, n: nat, s: Subject, i: nat, j: nat)
    requires i <= |s|
    ensures Matches(g, LpChoice(t1, t2, n), s, i, j)
            <==> Matches(g, t1, s, i, j) || (Fails(g, t1, s, i) && Matches(g, t2, s, i, j))
    ensures Fails(g, LpChoice(t1, t2, n), s, i) <==> Fails(g, t1, s, i) && Fails(g, t2, s, i)
  {
    forall m: nat
      ensures Match(g, LpChoice(t1, t2, n), s, i, m) == Match(g, TChoice(t1, t2), s, i, m)
    {
      LpChoiceSame(g, t1, t2, n, s, i, m);
    }
    SameOutcomes(g, LpChoice(t1, t2, n), TChoice(t1, t2), s, i);
    ChoiceRule(g, t1, t2, s, i, j);
  }

  // ---- difference -------------------------------------------------------------------

  lemma NotRule(g: seq<Tree>, t: Tree, s: Subject, i: nat)
    requires i <= |s|
    ensures forall j: nat :: Matches(g, TNot(t), s, i, j) <==> j == i && Fails(g, t, s, i)
    ensures Fails(g, TNot(t), s, i) <==> exists j: nat :: Matches(g, t, s, i, j)
  {
    hide Match, Matches, Fails;
    if Fails(g, t, s, i) {
      var m := FailsBudget(g, t, s, i);
      MatchPair(g, t, t, s, i, m);
      Witness(g, TNot(t), s, i, m);
    }
    forall j: nat | Matches(g, TNot(t), s, i, j)
      ensures j == i && Fails(g, t, s, i)
    {
      var m := MatchesBudget(g, TNot(t), s, i, j);
      MatchPair(g, t, t, s, i, m);
      Witness(g, t, s, i, m);
    }
    if Fails(g, TNot(t), s, i) {
      var m := FailsBudget(g, TNot(t), s, i);
      MatchPair(g, t, t, s, i, m);
      Witness(g, t, s, i, m);
    }
    forall j: nat | Matches(g, t, s, i, j)
      ensures Fails(g, TNot(t), s, i)
    {
      var m := MatchesBudget(g, t, s, i, j);
      MatchPair(g, t, t, s, i, m);
      Witness(g, TNot(t), s, i, m);
    }
  }

  /** `lp_sub` builds a pattern for: `t1`, where `t2` does not match. */
  lemma LpSubMeaning(g: seq<Tree>, t1: Tree, t2: Tree, s: Subject, i: nat, j: nat)
    requires i <= |s|
    ensures Matches(g, LpSub(t1, t2), s, i, j) <==> Fails(g, t2, s, i) && Matches(g, t1, s, i, j)
    ensures Fails(g, LpSub(t1, t2), s, i)
            <==> (exists x: nat :: Matches(g, t2, s, i, x)) || (Fails(g, t2, s, i) && Fails(g, t1, s, i))
  {
    var u := TSeq(TNot(t2), t1);
    forall m: nat
      ensures Match(g, LpSub(t1, t2), s, i, m) == Match(g, u, s, i, m)
    {
      if IsCharset(t1) && IsCharset(t2) {
        MatchCharset(g, t1, s, i, m);
        MatchCharset(g, t2, s, i, m);
        assert Match(g, TNot(t2), s, i, m) == if i < |s| && s[i] in CharsetOf(t2) then Fail else Succ(i);
      }
    }
    SameOutcomes(g, LpSub(t1, t2), u, s, i);
    NotRule(g, t2, s, i);
    SeqMatchesRule(g, TNot(t2), t1, s, i, j);
    SeqFailsRule(g, TNot(t2), t1, s, i);
  }

  // ---- repetition -------------------------------------------------------------------

  /** `k` matches of `p` in a row lead from `i` to `j`. */
  ghost predicate Times(g: seq<Tree>, p: Tree, s: Subject, i: nat, j: nat, k: nat)
    requires i <= |s|
    decreases k
  {
    if k == 0 then j == i
    else exists x: nat :: x <= |s| && Matches(g, p, s, i, x) && Times(g, p, s, x, j, k - 1)
  }

  lemma {:induction false} RepRounds(g: seq<Tree>, p: Tree, s: Subject, i: nat, m: nat) returns (k: nat)
    requires i <= |s| && Match(g, TRep(p), s, i, m).Succ?
    ensures Times(g, p, s, i, Match(g, TRep(p), s, i, m).pos, k)
    ensures Fails(g, p, s, Match(g, TRep(p), s, i, m).pos)
    decreases m
  {
    k := 0;
    var r := Match(g, p, s, i, m);
    if r.Succ? {
      var rest := RepRounds(g, p, s, r.pos, m - 1);
      assert Matches(g, p, s, i, r.pos);
      k := rest + 1;
    }
  }

  lemma {:induction false} RoundsRep(g: seq<Tree>, p: Tree, s: Subject, i: nat, j: nat, k: nat)
    requires i <= |s| && j <= |s| && Times(g, p, s, i, j, k) && Fails(g, p, s, j)
    ensures Matches(g, TRep(p), s, i, j)
    decreases k
  {
    if k == 0 {
      var m: nat :| Match(g, p, s, j, m) == Fail;
      assert Match(g, TRep(p), s, i, m) == Succ(j);
    } else {
      var x: nat :| x <= |s| && Matches(g, p, s, i, x) && Times(g, p, s, x, j, k - 1);
      RoundsRep(g, p, s, x, j, k - 1);
      var m1: nat :| Match(g, p, s, i, m1) == Succ(x);
      var m2: nat :| Match(g, TRep(p), s, x, m2) == Succ(j);
      MatchMonotone(g, p, s, i, m1, m1 + m2 + 1);
      MatchMonotone(g, TRep(p), s, x, m2, m1 + m2);
      assert Match(g, TRep(p), s, i, m1 + m2 + 1) == Succ(j);
    }
  }

  /** `p^n` with n >= 0: as many matches of `p` as there are, and at least `n`. */
  ghost predicate ManyMatches(g: seq<Tree>, p: Tree, s: Subject, i: nat, j: nat, n: nat)
    requires i <= |s|
  {
    j <= |s| && Fails(g, p, s, j) && exists k: nat :: k >= n && Times(g, p, s, i, j, k)
  }

  ghost predicate TooFew(g: seq<Tree>, p: Tree, s: Subject, i: nat, n: nat)
    requires i <= |s|
  {
    exists k: nat, j: nat :: k < n && j <= |s| && Times(g, p, s, i, j, k) && Fails(g, p, s, j)
  }

  lemma {:induction false} AtLeastMatches(g: seq<Tree>, p: Tree, n: nat, s: Subject, i: nat, j: nat)
    requires i <= |s|
    ensures Matches(g, AtLeast(p, n), s, i, j) <==> ManyMatches(g, p, s, i, j, n)
    decreases n
  {
    if n == 0 {
      if Matches(g, TRep(p), s, i, j) {
        var m: nat :| Match(g, TRep(p), s, i, m) == Succ(j);
        var k := RepRounds(g, p, s, i, m);
      }
      if ManyMatches(g, p, s, i, j, 0) {
        var k: nat :| Times(g, p, s, i, j, k);
        RoundsRep(g, p, s, i, j, k);
      }
    } else {
      SeqMatchesRule(g, p, AtLeast(p, n - 1), s, i, j);
      forall x: nat | x <= |s| && Matches(g, p, s, i, x)
        ensures Matches(g, AtLeast(p, n - 1), s, x, j) <==> ManyMatches(g, p, s, x, j, n - 1)
      {
        AtLeastMatches(g, p, n - 1, s, x, j);
      }
      OneMoreMatch(g, p, s, i, j, n);
    }
  }

  /** `n` rounds and more are one round and then `n - 1` and more. */
  lemma OneMoreMatch(g: seq<Tree>, p: Tree, s: Subject, i: nat, j: nat, n: nat)
    requires i <= |s| && n > 0
    ensures ManyMatches(g, p, s, i, j, n)
            <==> exists x: nat :: x <= |s| && Matches(g, p, s, i, x) && ManyMatches(g, p, s, x, j, n - 1)
  {
    if ManyMatches(g, p, s, i, j, n) {
      var k: nat :| k >= n && Times(g, p, s, i, j, k);
      var x: nat :| x <= |s| && Matches(g, p, s, i, x) && Times(g, p, s, x, j, k - 1);
      assert ManyMatches(g, p, s, x, j, n - 1);
    }
    if x: nat :| x <= |s| && Matches(g, p, s, i, x) && ManyMatches(g, p, s, x, j, n - 1) {
      var k: nat :| k >= n - 1 && Times(g, p, s, x, j, k);
      assert Times(g, p, s, i, j, k + 1);
    }
  }

  lemma {:induction false} AtLeastFails(g: seq<Tree>, p: Tree, n: nat, s: Subject, i: nat)
    requires i <= |s|
    ensures Fails(g, AtLeast(p, n), s, i) <==> TooFew(g, p, s, i, n)
    decreases n
  {
    if n == 0 {
      if Fails(g, TRep(p), s, i) {
        var m := FailsBudget(g, TRep(p), s, i);
        NoFailSound(g, TRep(p), 0, s, i, m);
      }
    } else {
      SeqFailsRule(g, p, AtLeast(p, n - 1), s, i);
      forall x: nat | x <= |s| && Matches(g, p, s, i, x)
        ensures Fails(g, AtLeast(p, n - 1), s, x) <==> TooFew(g, p, s, x, n - 1)
      {
        AtLeastFails(g, p, n - 1, s, x);
      }
      OneTooFew(g, p, s, i, n);
    }
  }

  lemma OneTooFew(g: seq<Tree>, p: Tree, s: Subject, i: nat, n: nat)
    requires i <= |s| && n > 0
    ensures TooFew(g, p, s, i, n)
            <==> Fails(g, p, s, i) || exists x: nat :: x <= |s| && Matches(g, p, s, i, x) && TooFew(g, p, s, x, n - 1)
  {
    if TooFew(g, p, s, i, n) {
      var k: nat, j: nat :| k < n && j <= |s| && Times(g, p, s, i, j, k) && Fails(g, p, s, j);
      if k > 0 {
        var x: nat :| x <= |s| && Matches(g, p, s, i, x) && Times(g, p, s, x, j, k - 1);
        assert TooFew(g, p, s, x, n - 1);
      }
    }
    if Fails(g, p, s, i) {
      assert Times(g, p, s, i, i, 0);
    }
    if x: nat :| x <= |s| && Matches(g, p, s, i, x) && TooFew(g, p, s, x, n - 1) {
      var k: nat, j: nat :| k < n - 1 && j <= |s| && Times(g, p, s, x, j, k) && Fails(g, p, s, j);
      assert Times(g, p, s, i, j, k + 1);
    }
  }

  /** `p^-n`: as many matches of `p` as there are, but at most `n`. */
  ghost predicate FewMatches(g: seq<Tree>, p: Tree, s: Subject, i: nat, j: nat, n: nat)
    requires i <= |s|
  {
    j <= |s| && exists k: nat :: k <= n && Times(g, p, s, i, j, k) && (k < n ==> Fails(g, p, s, j))
  }

  lemma {:induction false} AtMostMatches(g: seq<Tree>, p: Tree, n: nat, s: Subject, i: nat, j: nat)
    requires i <= |s| && n >= 1
    ensures Matches(g, AtMost(p, n), s, i, j) <==> FewMatches(g, p, s, i, j, n)
    decreases n
  {
    TrueRule(g, s, i);
    if n == 1 {
      ChoiceRule(g, p, TTrue, s, i, j);
      forall x: nat | x <= |s| && Matches(g, p, s, i, x)
        ensures FewMatches(g, p, s, x, j, 0) <==> x == j
      {
        FewNone(g, p, s, x, j);
      }
      if Matches(g, p, s, i, j) {
        MatchesInside(g, p, s, i, j);
      }
    } else {
      ChoiceRule(g, TSeq(p, AtMost(p, n - 1)), TTrue, s, i, j);
      SeqMatchesRule(g, p, AtMost(p, n - 1), s, i, j);
      SeqFailsRule(g, p, AtMost(p, n - 1), s, i);
      forall x: nat | x <= |s| && Matches(g, p, s, i, x)
        ensures Matches(g, AtMost(p, n - 1), s, x, j) <==> FewMatches(g, p, s, x, j, n - 1)
        ensures !Fails(g, AtMost(p, n - 1), s, x)
      {
        AtMostMatches(g, p, n - 1, s, x, j);
        AtMostNeverFails(g, p, n - 1, s, x);
      }
    }
    OneMoreOfFew(g, p, s, i, j, n);
  }

  lemma MatchesInside(g: seq<Tree>, t: Tree, s: Subject, i: nat, j: nat)
    requires i <= |s| && Matches(g, t, s, i, j)
    ensures i <= j <= |s|
  {
  }

  lemma TrueRule(g: seq<Tree>, s: Subject, i: nat)
    requires i <= |s|
    ensures forall j: nat :: Matches(g, TTrue, s, i, j) <==> j == i
    ensures !Fails(g, TTrue, s, i)
  {
    assert Match(g, TTrue, s, i, 0) == Succ(i);
  }

  lemma FewNone(g: seq<Tree>, p: Tree, s: Subject, i: nat, j: nat)
    requires i <= |s|
    ensures FewMatches(g, p, s, i, j, 0) <==> i == j
  {
    assert Times(g, p, s, i, j, 0) <==> i == j;
  }

  lemma OneMoreOfFew(g: seq<Tree>, p: Tree, s: Subject, i: nat, j: nat, n: nat)
    requires i <= |s| && n > 0
    ensures FewMatches(g, p, s, i, j, n)
            <==> (Fails(g, p, s, i) && j == i)
                 || exists x: nat :: x <= |s| && Matches(g, p, s, i, x) && FewMatches(g, p, s, x, j, n - 1)
  {
    hide Match, Matches, Fails;
    if FewMatches(g, p, s, i, j, n) {
      var k: nat :| k <= n && Times(g, p, s, i, j, k) && (k < n ==> Fails(g, p, s, j));
      if k > 0 {
        var x: nat :| x <= |s| && Matches(g, p, s, i, x) && Times(g, p, s, x, j, k - 1);
        assert FewMatches(g, p, s, x, j, n - 1);
      }
    }
    if Fails(g, p, s, i) {
      assert Times(g, p, s, i, i, 0);
    }
    if x: nat :| x <= |s| && Matches(g, p, s, i, x) && FewMatches(g, p, s, x, j, n - 1) {
      var k: nat :| k <= n - 1 && Times(g, p, s, x, j, k) && (k < n - 1 ==> Fails(g, p, s, j));
      assert Times(g, p, s, i, j, k + 1);
    }
  }

  lemma AtMostNeverFails(g: seq<Tree>, p: Tree, n: nat, s: Subject, i: nat)
    requires i <= |s| && n >= 1
    ensures !Fails(g, AtMost(p, n), s, i)
  {
    ChoiceRule(g, AtMost(p, n).p1, TTrue, s, i, i);
    TrueRule(g, s, i);
  }

  /** What the operators need not build: what comes before or behind the empty pattern, what comes
      behind a failure, an alternative that is never tried. Sets stay sets. */
  lemma Shortcuts(t: Tree, u: Tree, n: nat)
    ensures LpSeq(TTrue, t) == LpSeq(t, TTrue) == t && LpSeq(TFalse, t) == TFalse
    ensures LpChoice(t, TFalse, n) == LpChoice(TFalse, t, n) == t && (NoFail([], t, n) ==> LpChoice(t, u, n) == t)
    ensures IsCharset(t) && IsCharset(u) ==>
      && LpChoice(t, u, n) == TSet(CharsetOf(t) + CharsetOf(u))
      && LpSub(t, u) == TSet(CharsetOf(t) - CharsetOf(u))
  {
  }

  // ---- lp_star in the array ---------------------------------------------------------

  /** `nullable` while calls are still open: it is false of them. */
  function OpenNullable(t: Tree, n: nat): bool {
    match t
    case TCall(_) => false
    case TSeq(p1, p2) => OpenNullable(p1, n) && OpenNullable(p2, n)
    case TChoice(p1, p2) => OpenNullable(p1, n) || OpenNullable(p2, n)
    case _ => Nullable([], t, n)
  }

  datatype Star = StarTree(nodes: array<Node>) | EmptyLoopBody

  /** Copies `nodes` to index `at`; `seqaux` puts a sequence node in front. */
  method CopyTo(a: array<Node>, at: nat, nodes: seq<Node>)
    requires at + |nodes| <= a.Length
    modifies a
    ensures a[..at] == old(a[..at])
    ensures a[at..at + |nodes|] == nodes
    ensures a[at + |nodes|..] == old(a[at + |nodes|..])
  {
    forall k | 0 <= k < |nodes| {
      a[at + k] := nodes[k];
    }
  }

  method SeqAux(a: array<Node>, tree: nat, sib: seq<Node>) returns (second: nat)
    requires tree + 1 + |sib| <= a.Length
    modifies a
    ensures second == tree + 1 + |sib|
    ensures a[..second] == old(a[..tree]) + ([Node(KSeq, |sib| + 1)] + sib)
    ensures a[second..] == old(a[second..])
  {
    a[tree] := Node(KSeq, |sib| + 1);
    CopyTo(a, tree + 1, sib);
    second := tree + 1 + |sib|;
    assert a[..second] == a[..tree + 1] + a[tree + 1..second];
  }

  lemma {:induction false} AtMostSize(p: Tree, n: nat)
    requires n >= 1
    ensures |Layout(AtMost(p, n))| == n * (|Layout(p)| + 3) - 1
    decreases n
  {
    hide Layout;
    var size := |Layout(p)| + 3;
    if n > 1 {
      AtMostSize(p, n - 1);
      AtMostLayout(p, n);
      assert n * size == (n - 1) * size + size;
    } else {
      LastChoiceLayout(p);
    }
  }

  lemma LastChoiceLayout(p: Tree)
    ensures Layout(AtMost(p, 1)) == [Node(KChoice, 1 + |Layout(p)|)] + Layout(p) + [Node(KTrue, 0)]
  {
    LayoutPair(AtMost(p, 1));
  }

  lemma AtMostLayout(p: Tree, n: nat)
    requires n > 1
    ensures var rest := Layout(AtMost(p, n - 1));
            Layout(AtMost(p, n)) == [Node(KChoice, 2 + |Layout(p)| + |rest|)]
                                    + ([Node(KSeq, 1 + |Layout(p)|)] + Layout(p) + rest) + [Node(KTrue, 0)]
  {
    LayoutPair(AtMost(p, n));
    LayoutPair(TSeq(p, AtMost(p, n - 1)));
  }

  lemma AtLeastLayout(p: Tree, n: nat)
    requires n > 0
    ensures Layout(AtLeast(p, n)) == [Node(KSeq, |Layout(p)| + 1)] + Layout(p) + Layout(AtLeast(p, n - 1))
  {
    LayoutPair(AtLeast(p, n));
  }

  lemma {:induction false} AtLeastSize(p: Tree, n: nat)
    ensures |Layout(AtLeast(p, n))| == (n + 1) * (|Layout(p)| + 1)
    decreases n
  {
    hide Layout;
    if n == 0 {
      RepLayout(p);
    } else {
      AtLeastSize(p, n - 1);
      AtLeastLayout(p, n);
      var size := |Layout(p)| + 1;
      assert (n + 1) * size == n * size + size;
    }
  }

  /** `lp_star` for n >= 0 */
  method FillAtLeast(p: Tree, n: nat) returns (a: array<Node>)
    ensures fresh(a) && a[..] == Layout(AtLeast(p, n))
  {
    hide Layout, AtLeast;
    var tree1 := Layout(p);
    AtLeastSize(p, n);
    a := new Node[(n + 1) * (|tree1| + 1)];
    ghost var full := Layout(AtLeast(p, n));
    assert |full| == a.Length;
    var tree: nat, k := 0, n;
    while k > 0
      invariant 0 <= k <= n && tree <= a.Length
      invariant a[..tree] + Layout(AtLeast(p, k)) == full
    {
      tree := OneAtLeast(a, tree, tree1, p, k, full);
      k := k - 1;
    }
    LastRep(a, tree, tree1, p, full);
  }

  method OneAtLeast(a: array<Node>, tree: nat, tree1: seq<Node>, ghost p: Tree, ghost k: nat, ghost full: seq<Node>)
    returns (next: nat)
    requires k > 0 && tree <= a.Length == |full| && tree1 == Layout(p)
    requires a[..tree] + Layout(AtLeast(p, k)) == full
    modifies a
    ensures next <= a.Length && a[..next] + Layout(AtLeast(p, k - 1)) == full
  {
    hide Layout, AtLeast;
    ghost var done, rest := a[..tree], Layout(AtLeast(p, k - 1));
    ghost var root := [Node(KSeq, |tree1| + 1)];
    AtLeastLayout(p, k);
    assert done + (root + tree1 + rest) == done + (root + tree1) + rest;
    next := SeqAux(a, tree, tree1);
  }

  method LastRep(a: array<Node>, tree: nat, tree1: seq<Node>, ghost p: Tree, ghost full: seq<Node>)
    requires tree <= a.Length == |full| && tree1 == Layout(p)
    requires a[..tree] + Layout(AtLeast(p, 0)) == full
    modifies a
    ensures a[..] == full
  {
    hide Layout, AtLeast;
    RepLayout(p);
    a[tree] := Node(KRep, 0);
    CopyTo(a, tree + 1, tree1);
    assert a[..] == a[..tree] + [a[tree]] + a[tree + 1..];
  }

  lemma RepLayout(p: Tree)
    ensures Layout(AtLeast(p, 0)) == [Node(KRep, 0)] + Layout(p)
  {
  }

  /** A choice whose second pattern is `TTrue`; the first one is still to be filled in. */
  method OpenChoice(a: array<Node>, tree: nat, ps: nat, ghost post: seq<Node>)
    requires ps >= 1 && tree + ps < a.Length && tree + ps + 1 + |post| == a.Length
    requires a[tree + ps + 1..] == post
    modifies a
    ensures a[..tree + 1] == old(a[..tree]) + [Node(KChoice, ps)]
    ensures a[tree + ps..] == [Node(KTrue, 0)] + post
  {
    a[tree] := Node(KChoice, ps);
    a[tree + ps] := Node(KTrue, 0);
    assert a[tree + ps + 1..] == post;
  }

  /** `lp_star` for n < 0, with -n as `n`. `post` is what follows the choices still to come. */
  method FillAtMost(p: Tree, n: nat) returns (a: array<Node>)
    requires n >= 1
    ensures fresh(a) && a[..] == Layout(AtMost(p, n))
  {
    hide Layout, AtMost;
    var tree1 := Layout(p);
    AtMostSize(p, n);
    a := new Node[n * (|tree1| + 3) - 1];
    ghost var full := Layout(AtMost(p, n));
    assert |full| == a.Length;
    var tree: nat, k := 0, n;
    ghost var post: seq<Node> := [];
    while k > 1
      invariant 1 <= k <= n && tree + |post| <= a.Length
      invariant a[..tree] + Layout(AtMost(p, k)) + post == full
      invariant a[a.Length - |post|..] == post
    {
      AtMostSize(p, k);
      tree := OneAtMost(a, tree, k * (|tree1| + 3) - 2, tree1, p, k, post, full);
      post := [Node(KTrue, 0)] + post;
      k := k - 1;
    }
    LastAtMost(a, tree, tree1, p, post, full);
  }

  method OneAtMost(a: array<Node>, tree: nat, ps: nat, tree1: seq<Node>,
      ghost p: Tree, ghost k: nat, ghost post: seq<Node>, ghost full: seq<Node>) returns (next: nat)
    requires k > 1 && tree + |post| <= a.Length == |full| && tree1 == Layout(p)
    requires ps == |Layout(AtMost(p, k))| - 1
    requires a[..tree] + Layout(AtMost(p, k)) + post == full && a[a.Length - |post|..] == post
    modifies a
    ensures next + |post| + 1 <= a.Length
    ensures a[..next] + Layout(AtMost(p, k - 1)) + ([Node(KTrue, 0)] + post) == full
    ensures a[a.Length - (|post| + 1)..] == [Node(KTrue, 0)] + post
  {
    hide Layout, AtMost;
    ghost var done, rest := a[..tree], Layout(AtMost(p, k - 1));
    ghost var choice, sequence, last := [Node(KChoice, ps)], [Node(KSeq, |tree1| + 1)], [Node(KTrue, 0)];
    AtMostLayout(p, k);
    assert |full| == |done| + |Layout(AtMost(p, k))| + |post|;
    OpenChoice(a, tree, ps, post);
    next := SeqAux(a, tree + 1, tree1);
    AtMostNested(done, choice, sequence, tree1, rest, last, post);
    assert a[a.Length - (|post| + 1)..] == a[next..][|rest|..];
  }

  lemma AtMostNested(done: seq<Node>, choice: seq<Node>, sequence: seq<Node>, tree1: seq<Node>,
      rest: seq<Node>, last: seq<Node>, post: seq<Node>)
    ensures done + (choice + (sequence + tree1 + rest) + last) + post
         == (done + choice + (sequence + tree1)) + rest + (last + post)
  {
  }

  lemma ThreeParts(nodes: seq<Node>, i: nat, x: seq<Node>, y: seq<Node>, z: seq<Node>)
    requires i + |y| <= |nodes|
    requires nodes[..i] == x && nodes[i..i + |y|] == y && nodes[i + |y|..] == z
    ensures nodes == x + y + z
  {
    assert nodes == nodes[..i] + nodes[i..i + |y|] + nodes[i + |y|..];
  }

  lemma FiveParts(done: seq<Node>, choice: seq<Node>, tree1: seq<Node>, last: seq<Node>, post: seq<Node>)
    ensures done + (choice + tree1 + last) + post == (done + choice) + tree1 + (last + post)
  {
  }

  method LastAtMost(a: array<Node>, tree: nat, tree1: seq<Node>, ghost p: Tree, ghost post: seq<Node>,
      ghost full: seq<Node>)
    requires tree + |post| <= a.Length == |full| && tree1 == Layout(p)
    requires a[..tree] + Layout(AtMost(p, 1)) + post == full && a[a.Length - |post|..] == post
    modifies a
    ensures a[..] == full
  {
    hide Layout, AtMost;
    ghost var done := a[..tree];
    ghost var choice, last := [Node(KChoice, |tree1| + 1)], [Node(KTrue, 0)];
    LastChoiceLayout(p);
    assert |full| == |done| + |Layout(AtMost(p, 1))| + |post|;
    OpenChoice(a, tree, |tree1| + 1, post);
    CopyTo(a, tree + 1, tree1);
    ThreeParts(a[..], tree + 1, done + choice, tree1, last + post);
    FiveParts(done, choice, tree1, last, post);
  }

  /** `lp_star`: an error for p^n with n >= 0 and a nullable body, else the tree for at least
      `n` or at most `-n` matches. */
  method LpStar(p: Tree, n: int, budget: nat) returns (r: Star)
    ensures r.EmptyLoopBody? <==> n >= 0 && OpenNullable(p, budget)
    ensures r.StarTree? ==> r.nodes[..] == Layout(if n >= 0 then AtLeast(p, n) else AtMost(p, -n))
  {
    if n >= 0 {
      if OpenNullable(p, budget) {
        r := EmptyLoopBody;
      } else {
        var nodes := FillAtLeast(p, n);
        r := StarTree(nodes);
      }
    } else {
      var nodes := FillAtMost(p, -n);
      r := StarTree(nodes);
    }
  }

  // ---- what the operators accept stays accepted -------------------------------------

  lemma {:induction false} OpenNullableClosed(t: Tree, n: nat)
    requires Calls(t) == {}
    ensures OpenNullable(t, n) == Nullable([], t, n)
  {
    match t
    case TSeq(p1, p2) =>
      OpenNullableClosed(p1, n);
      OpenNullableClosed(p2, n);
    case TChoice(p1, p2) =>
      OpenNullableClosed(p1, n);
      OpenNullableClosed(p2, n);
    case _ =>
  }

  /** When the rules that `t` calls are there and not nullable, the answer while calls are open is
      the final one; `d` bounds the left calls of the grammars inside `t`. */
  lemma {:induction false} OpenNullableExact(g: seq<Tree>, t: Tree, n: nat, m: nat, d: nat)
    requires SubDeep(t, d) && n >= d && m >= d
    requires forall k :: k in Calls(t) ==> k < |g| && m > 0 && !Nullable(g, g[k], m - 1)
    ensures OpenNullable(t, n) <==> Nullable(g, t, m)
  {
    match t
    case TCall(k) => assert k in Calls(t);
    case TSeq(p1, p2) =>
      assert Calls(p1) <= Calls(t) && Calls(p2) <= Calls(t);
      OpenNullableExact(g, p1, n, m, d);
      OpenNullableExact(g, p2, n, m, d);
    case TChoice(p1, p2) =>
      assert Calls(p1) <= Calls(t) && Calls(p2) <= Calls(t);
      OpenNullableExact(g, p1, n, m, d);
      OpenNullableExact(g, p2, n, m, d);
    case TGrammar(rules) =>
      CheckAuxStable(rules, rules[0], PEnullable, d, n);
      CheckAuxStable(rules, rules[0], PEnullable, d, m);
    case _ =>
  }

  /** Whatever the rules will be, what is nullable while calls are open is so in the end. */
  lemma {:induction false} OpenNullableStays(g: seq<Tree>, t: Tree, n: nat, m: nat, d: nat)
    requires SubDeep(t, d) && n >= d && m >= d && OpenNullable(t, n)
    ensures Nullable(g, t, m)
  {
    match t
    case TSeq(p1, p2) =>
      OpenNullableStays(g, p1, n, m, d);
      OpenNullableStays(g, p2, n, m, d);
    case TChoice(p1, p2) => OpenNullableStays(g, if OpenNullable(p1, n) then p1 else p2, n, m, d);
    case TGrammar(rules) =>
      CheckAuxStable(rules, rules[0], PEnullable, d, n);
      CheckAuxStable(rules, rules[0], PEnullable, d, m);
    case _ =>
  }

  lemma {:induction false} CallsBelow(t: Tree) returns (n: nat)
    ensures forall k :: k in Calls(t) ==> k < n
  {
    n := 0;
    match t
    case TCall(k) => n := k + 1;
    case TRep(p) => n := CallsBelow(p);
    case TNot(p) => n := CallsBelow(p);
    case TAnd(p) => n := CallsBelow(p);
    case TBehind(_, p) => n := CallsBelow(p);
    case TSeq(p1, p2) =>
      var n1 := CallsBelow(p1);
      var n2 := CallsBelow(p2);
      n := Max(n1, n2);
    case TChoice(p1, p2) =>
      var n1 := CallsBelow(p1);
      var n2 := CallsBelow(p2);
      n := Max(n1, n2);
    case _ =>
  }

  /** `lp_star` refuses a body if and only if it is nullable for every choice of the rules that it
      calls, so that `checkloops` would refuse the loop in every grammar. */
  lemma StarRefuses(p: Tree, n: nat, d: nat)
    requires SubDeep(p, d) && n >= d
    ensures OpenNullable(p, n) <==> forall g: seq<Tree>, m: nat :: m >= d ==> Nullable(g, p, m)
    ensures OpenNullable(p, n) ==> forall g: seq<Tree>, m: nat :: m >= d ==> CheckLoops(g, TRep(p), m)
  {
    if OpenNullable(p, n) {
      forall g: seq<Tree>, m: nat | m >= d
        ensures Nullable(g, p, m) && CheckLoops(g, TRep(p), m)
      {
        OpenNullableStays(g, p, n, m, d);
      }
    } else {
      var size := CallsBelow(p);
      var g := seq(size, _ => TFalse);
      OpenNullableExact(g, p, n, d + 1, d);
      assert !Nullable(g, p, d + 1);
    }
  }

  lemma ClosedPairs(p1: Tree, p2: Tree, d: nat)
    requires Closed(p1, d) && Closed(p2, d)
    ensures Closed(TSeq(p1, p2), d) && Closed(TChoice(p1, p2), d) && Closed(TNot(p1), d)
  {
    forall n: nat | n >= d
      ensures Built([], TSeq(p1, p2), n) && Built([], TChoice(p1, p2), n) && Built([], TNot(p1), n)
    {
      assert Built([], p1, n) && Built([], p2, n);
    }
    assert !CheckLoops([], TSeq(p1, p2), d) && !CheckLoops([], TChoice(p1, p2), d) && !CheckLoops([], TNot(p1), d);
  }

  lemma ClosedLeaf(t: Tree, d: nat)
    requires t.TSet? || t.TTrue?
    ensures Closed(t, d)
  {
    assert !CheckLoops([], t, d);
  }

  lemma ClosedLoop(p: Tree, d: nat)
    requires Closed(p, d) && !Nullable([], p, d)
    ensures Closed(TRep(p), d)
  {
    forall n: nat | n >= d
      ensures Built([], TRep(p), n)
    {
      assert Built([], p, n);
    }
    assert !CheckLoops([], TRep(p), d);
  }

  /** Patterns built from accepted ones are accepted. */
  lemma OperatorsClosed(t1: Tree, t2: Tree, d: nat)
    requires Closed(t1, d) && Closed(t2, d)
    ensures Closed(LpSeq(t1, t2), d) && Closed(LpChoice(t1, t2, d), d) && Closed(LpSub(t1, t2), d)
  {
    hide Closed;
    ClosedPairs(t1, t2, d);
    ClosedPairs(t2, t1, d);
    ClosedPairs(TNot(t2), t1, d);
    if IsCharset(t1) && IsCharset(t2) {
      ClosedLeaf(TSet(CharsetOf(t1) + CharsetOf(t2)), d);
      ClosedLeaf(TSet(CharsetOf(t1) - CharsetOf(t2)), d);
    }
  }

  lemma {:induction false} AtLeastClosed(p: Tree, n: nat, d: nat)
    requires Closed(p, d) && !OpenNullable(p, d)
    ensures Closed(AtLeast(p, n), d)
    decreases n
  {
    if n == 0 {
      CallsNothing(p, d);
      OpenNullableClosed(p, d);
      ClosedLoop(p, d);
    } else {
      AtLeastClosed(p, n - 1, d);
      ClosedPairs(p, AtLeast(p, n - 1), d);
    }
  }

  lemma {:induction false} AtMostClosed(p: Tree, n: nat, d: nat)
    requires Closed(p, d) && n >= 1
    ensures Closed(AtMost(p, n), d)
    decreases n
  {
    hide Closed;
    ClosedLeaf(TTrue, d);
    ClosedPairs(p, TTrue, d);
    if n > 1 {
      AtMostClosed(p, n - 1, d);
      ClosedPairs(p, AtMost(p, n - 1), d);
      ClosedPairs(TSeq(p, AtMost(p, n - 1)), TTrue, d);
    }
  }

  lemma {:induction false} OperatorsWellFormed(t1: Tree, t2: Tree, n: nat, k: nat)
    requires WellFormed([], t1) && WellFormed([], t2)
    ensures WellFormed([], LpSeq(t1, t2)) && WellFormed([], LpChoice(t1, t2, k)) && WellFormed([], LpSub(t1, t2))
    ensures WellFormed([], AtLeast(t1, n)) && (n >= 1 ==> WellFormed([], AtMost(t1, n)))
    decreases n
  {
    if n > 0 {
      OperatorsWellFormed(t1, t2, n - 1, k);
    }
  }
}
