/** `hascaptures` of skynet/3rd/lpeg/lpcode.c, with which `codeand` makes sure that its body may be
    matched and then undone. A call is followed into its rule, and a rule into all rules behind it,
    so the search does not always come back. */
module PegCaptures {
  import opened Peg
  import opened PegAnalysis
  import opened PegCode
  import opened PegGrammar
  import opened PegLeftRecursion

  /** The search of a pattern without captures finds none, following at most `n` calls one from
      within another. */
  predicate SearchEnds(g: seq<Tree>, t: Tree, n: nat)
    decreases n, t
  {
    match t
    case TCall(k) => n > 0 && k < |g| && forall j :: k <= j < |g| ==> SearchEnds(g, g[j], n - 1)
    case TGrammar(rules) => forall j :: 0 <= j < |rules| ==> SearchEnds(rules, rules[j], n)
    case TRep(p) => SearchEnds(g, p, n)
    case TNot(p) => SearchEnds(g, p, n)
    case TAnd(p) => SearchEnds(g, p, n)
    case TBehind(_, p) => SearchEnds(g, p, n)
    case TSeq(p1, p2) => SearchEnds(g, p1, n) && SearchEnds(g, p2, n)
    case TChoice(p1, p2) => SearchEnds(g, p1, n) && SearchEnds(g, p2, n)
    case _ => true
  }

  /** From rule `k` on, every rule calls later rules only. */
  ghost predicate CallLater(g: seq<Tree>, k: nat)
    decreases g, 1
  {
    forall j :: k <= j < |g| ==> (forall c :: c in Calls(g[j]) ==> j < c < |g|) && GrammarsLater(g[j])
  }

  /** In the grammars inside `t` all rules call later rules only. */
  ghost predicate GrammarsLater(t: Tree)
    decreases t, 0
  {
    match t
    case TGrammar(rules) => CallLater(rules, 0)
    case TRep(p) => GrammarsLater(p)
    case TNot(p) => GrammarsLater(p)
    case TAnd(p) => GrammarsLater(p)
    case TBehind(_, p) => GrammarsLater(p)
    case TSeq(p1, p2) => GrammarsLater(p1) && GrammarsLater(p2)
    case TChoice(p1, p2) => GrammarsLater(p1) && GrammarsLater(p2)
    case _ => true
  }

  ghost predicate Searchable(g: seq<Tree>, t: Tree) {
    GrammarsLater(t) && forall c :: c in Calls(t) ==> c < |g| && CallLater(g, c)
  }

  lemma {:induction false} CallEntered(g: seq<Tree>, t: Tree, n: nat, c: nat)
    requires SearchEnds(g, t, n) && c in Calls(t)
    ensures n > 0 && c < |g| && forall j :: c <= j < |g| ==> SearchEnds(g, g[j], n - 1)
    decreases t
  {
    match t
    case TCall(k) =>
    case TRep(p) => CallEntered(g, p, n, c);
    case TNot(p) => CallEntered(g, p, n, c);
    case TAnd(p) => CallEntered(g, p, n, c);
    case TBehind(_, p) => CallEntered(g, p, n, c);
    case TSeq(p1, p2) => CallEntered(g, if c in Calls(p1) then p1 else p2, n, c);
    case TChoice(p1, p2) => CallEntered(g, if c in Calls(p1) then p1 else p2, n, c);
  }

  /** A rule that calls itself or an earlier rule is searched again from within. */
  lemma {:induction false} NoWayBack(g: seq<Tree>, j: nat, c: nat, n: nat)
    requires j < |g| && SearchEnds(g, g[j], n) && c in Calls(g[j])
    ensures j < c < |g|
    decreases n
  {
    CallEntered(g, g[j], n, c);
    if c <= j {
      NoWayBack(g, j, c, n - 1);
    }
  }

  lemma {:induction false} EndsOnlyLater(g: seq<Tree>, t: Tree, n: nat)
    requires SearchEnds(g, t, n)
    ensures GrammarsLater(t)
    decreases n, t
  {
    match t
    case TGrammar(rules) =>
      forall j | 0 <= j < |rules|
        ensures forall c :: c in Calls(rules[j]) ==> j < c < |rules|
        ensures GrammarsLater(rules[j])
      {
        forall c | c in Calls(rules[j])
          ensures j < c < |rules|
        {
          NoWayBack(rules, j, c, n);
        }
        EndsOnlyLater(rules, rules[j], n);
      }
    case TRep(p) => EndsOnlyLater(g, p, n);
    case TNot(p) => EndsOnlyLater(g, p, n);
    case TAnd(p) => EndsOnlyLater(g, p, n);
    case TBehind(_, p) => EndsOnlyLater(g, p, n);
    case TSeq(p1, p2) =>
      EndsOnlyLater(g, p1, n);
      EndsOnlyLater(g, p2, n);
    case TChoice(p1, p2) =>
      EndsOnlyLater(g, p1, n);
      EndsOnlyLater(g, p2, n);
    case _ =>
  }

  lemma {:induction false} RuleWithin(rules: seq<Tree>, k: nat)
    requires k < |rules|
    ensures |rules| - 1 + Size(rules[k]) <= SizeAll(rules)
  {
    if |rules| > 1 {
      RuleWithin(rules[1..], if k == 0 then 0 else k - 1);
    }
  }

  /** The calls of `t` are of rules behind `j`; `m` bounds the sizes of patterns, and `u` has
      the calls. */
  lemma {:induction false} LaterEnds(g: seq<Tree>, t: Tree, j: int, m: nat, n: nat, u: set<nat>)
    requires -1 <= j < |g| && GrammarsLater(t)
    requires Calls(t) <= u && forall c {:trigger c in u} :: c in u ==> j < c < |g| && CallLater(g, c)
    requires Size(t) <= m && forall i :: 0 <= i < |g| ==> Size(g[i]) <= m
    requires n >= |g| - 1 - j + m
    ensures SearchEnds(g, t, n)
    decreases m, n, t
  {
    match t
    case TCall(k) =>
      assert k in u;
      forall i | k <= i < |g|
        ensures SearchEnds(g, g[i], n - 1)
      {
        forall c | c in Calls(g[i])
          ensures i < c < |g| && CallLater(g, c)
        {
        }
        LaterEnds(g, g[i], i, m, n - 1, Calls(g[i]));
      }
    case TGrammar(rules) =>
      forall i | 0 <= i < |rules|
        ensures SearchEnds(rules, rules[i], n)
      {
        var m' := SizeAll(rules) - (|rules| - 1);
        forall k | 0 <= k < |rules|
          ensures Size(rules[k]) <= m'
        {
          RuleWithin(rules, k);
        }
        LaterEnds(rules, rules[i], i, m', n, Calls(rules[i]));
      }
    case TRep(p) => LaterEnds(g, p, j, m, n, u);
    case TNot(p) => LaterEnds(g, p, j, m, n, u);
    case TAnd(p) => LaterEnds(g, p, j, m, n, u);
    case TBehind(_, p) => LaterEnds(g, p, j, m, n, u);
    case TSeq(p1, p2) =>
      LaterEnds(g, p1, j, m, n, u);
      LaterEnds(g, p2, j, m, n, u);
    case TChoice(p1, p2) =>
      LaterEnds(g, p1, j, m, n, u);
      LaterEnds(g, p2, j, m, n, u);
    case _ =>
  }

  /** The search of a pattern ends if and only if, from each rule that it calls on, and in the
      grammars inside it from the first rule on, every rule calls later rules only. */
  lemma SearchEndsExactly(g: seq<Tree>, t: Tree)
    ensures (exists n: nat :: SearchEnds(g, t, n)) <==> Searchable(g, t)
  {
    if n: nat :| SearchEnds(g, t, n) {
      EndsOnlyLater(g, t, n);
      forall c | c in Calls(t)
        ensures c < |g| && CallLater(g, c)
      {
        CallEntered(g, t, n, c);
        forall j | c <= j < |g|
          ensures forall e :: e in Calls(g[j]) ==> j < e < |g|
          ensures GrammarsLater(g[j])
        {
          forall e | e in Calls(g[j])
            ensures j < e < |g|
          {
            NoWayBack(g, j, e, n - 1);
          }
          EndsOnlyLater(g, g[j], n - 1);
        }
      }
    }
    if Searchable(g, t) {
      var m := Size(t) + SizeAll(g);
      forall i | 0 <= i < |g|
        ensures Size(g[i]) <= m
      {
        RuleSmaller(g, i);
      }
      LaterEnds(g, t, -1, m, |g| + m, Calls(t));
      assert SearchEnds(g, t, |g| + m);
    }
  }

  /** `{ S <- 'a' &(!S 'b') 'b' / 'c' }`, with 97, 98 and 99 for the characters. */
  const LooksAhead: Tree := TSeq(TNot(TCall(0)), TChar(98))

  const SearchedForever: seq<Tree> :=
    [TChoice(TSeq(TChar(97), TSeq(TAnd(LooksAhead), TChar(98))), TChar(99))]

  /** An accepted grammar for which `codeand` never comes back from `hascaptures`. */
  lemma SearchNeverEnds(d: nat, n: nat)
    ensures Closed(TGrammar(SearchedForever), d) && WellFormed([], TGrammar(SearchedForever))
    ensures FixedLen(SearchedForever, LooksAhead) == 1 && !SearchEnds(SearchedForever, LooksAhead, n)
  {
    var g := SearchedForever;
    assert 0 in Calls(LooksAhead);
    SearchEndsExactly(g, LooksAhead);
    assert 0 in Calls(TNot(TCall(0)));
    assert 0 in Calls(TAnd(LooksAhead)) && 0 in Calls(TSeq(TAnd(LooksAhead), TChar(98))) && 0 in Calls(g[0]);
    ForeverAccepted(d);
  }

  lemma ForeverAccepted(d: nat)
    ensures Closed(TGrammar(SearchedForever), d) && WellFormed([], TGrammar(SearchedForever))
    ensures FixedLen(SearchedForever, LooksAhead) == 1
  {
    forall n | n >= d
      ensures Built([], TGrammar(SearchedForever), n)
    {
      ForeverBuilt(n);
      ForeverVerified(n);
    }
    ForeverPlain();
  }

  lemma ForeverBuilt(n: nat)
    ensures Built(SearchedForever, SearchedForever[0], n) && !CheckLoops(SearchedForever, SearchedForever[0], n)
  {
    var g := SearchedForever;
    var ahead := TSeq(TAnd(LooksAhead), TChar(98));
    var first := TSeq(TChar(97), ahead);
    assert Built(g, TNot(TCall(0)), n) && Built(g, LooksAhead, n) && Built(g, ahead, n) && Built(g, first, n);
    NoLoops(g, 0, TCall(0), TAny, n);
    NoLoops(g, 0, TNot(TCall(0)), TChar(98), n);
    NoLoops(g, 0, LooksAhead, TAny, n);
    NoLoops(g, 0, TAnd(LooksAhead), TChar(98), n);
    NoLoops(g, 0, TChar(97), ahead, n);
    NoLoops(g, 0, first, TChar(99), n);
  }

  lemma ForeverVerified(n: nat)
    ensures VerifyRule(SearchedForever, SearchedForever[0], n) && NotLeftRecursive(SearchedForever, SearchedForever[0], n)
  {
    var g := SearchedForever;
    forall keep: bool
      ensures Verify(g, g[0], 0, false, n, keep).Accepted?
    {
      assert Verify(g, TChar(97), 0, false, n, keep) == Accepted(false);
      assert Verify(g, g[0].p1, 0, false, n, keep) == Accepted(false);
      assert Verify(g, TChar(99), 0, false, n, keep) == Accepted(false);
    }
  }

  lemma ForeverPlain()
    ensures NoBehindLoops(TGrammar(SearchedForever)) && WellFormed([], TGrammar(SearchedForever))
    ensures FixedLen(SearchedForever, LooksAhead) == 1
  {
    var g := SearchedForever;
    var ahead := TSeq(TAnd(LooksAhead), TChar(98));
    assert CallsBehind(LooksAhead) == {} && CallsBehind(ahead) == {} && CallsBehind(g[0].p1) == {} && CallsBehind(g[0]) == {};
    assert NoBehindLoops(LooksAhead) && NoBehindLoops(ahead) && NoBehindLoops(g[0].p1);
    assert WellFormed(g, LooksAhead) && WellFormed(g, ahead) && WellFormed(g, g[0].p1);
  }
}
