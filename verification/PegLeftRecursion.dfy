/** What `verifyrule` (skynet/3rd/lpeg/lptree.c) finds out about left recursion: it forgets its
    accumulator at a sub-grammar, and so accepts some rules that are left recursive. With the
    accumulator kept it would accept exactly those that are not, look-behinds left aside: these it
    does not search at all. */
module PegLeftRecursion {
  import opened Peg
  import opened PegAnalysis
  import opened PegGrammar
  import opened PegCode
  import opened Sets

  /** Calls of rules of `g` that `t` can reach without consuming anything nest less than `j` deep;
      `n` is the budget of `nullable`. */
  ghost predicate OwnDeep(g: seq<Tree>, t: Tree, j: nat, n: nat)
    decreases j, t
  {
    match t
    case TCall(k) => j > 0 && k < |g| && OwnDeep(g, g[k], j - 1, n)
    case TRep(p) => OwnDeep(g, p, j, n)
    case TNot(p) => OwnDeep(g, p, j, n)
    case TAnd(p) => OwnDeep(g, p, j, n)
    case TSeq(p1, p2) => OwnDeep(g, p1, j, n) && (Nullable(g, p1, n) ==> OwnDeep(g, p2, j, n))
    case TChoice(p1, p2) => OwnDeep(g, p1, j, n) && OwnDeep(g, p2, j, n)
    case _ => true
  }

  lemma {:induction false} OwnFromLeft(g: seq<Tree>, t: Tree, b: nat, n: nat)
    requires LeftDeep(g, t, b) && n >= b
    ensures OwnDeep(g, t, b, n)
    decreases b, t
  {
    match t
    case TCall(k) => OwnFromLeft(g, g[k], b - 1, n);
    case TRep(p) => OwnFromLeft(g, p, b, n);
    case TNot(p) => OwnFromLeft(g, p, b, n);
    case TAnd(p) => OwnFromLeft(g, p, b, n);
    case TSeq(p1, p2) =>
      OwnFromLeft(g, p1, b, n);
      CheckAuxStable(g, p1, PEnullable, b, n);
      if Nullable(g, p1, b) {
        OwnFromLeft(g, p2, b, n);
      }
    case TChoice(p1, p2) =>
      OwnFromLeft(g, p1, b, n);
      OwnFromLeft(g, p2, b, n);
    case _ =>
  }

  /** The rules whose left calls nest less than `j` deep. */
  ghost function Shallow(g: seq<Tree>, j: nat, n: nat): set<nat> {
    set k: nat | k < |g| && OwnDeep(g, g[k], j, n)
  }

  /** With no fewer rules to call, left calls may nest as before. */
  lemma {:induction false} OwnDeepMore(g: seq<Tree>, t: Tree, i: nat, j: nat, n: nat)
    requires OwnDeep(g, t, i, n) && (i > 0 ==> j > 0 && Shallow(g, i - 1, n) <= Shallow(g, j - 1, n))
    ensures OwnDeep(g, t, j, n)
    decreases t
  {
    match t
    case TCall(k) =>
      assert k in Shallow(g, i - 1, n);
    case TRep(p) => OwnDeepMore(g, p, i, j, n);
    case TNot(p) => OwnDeepMore(g, p, i, j, n);
    case TAnd(p) => OwnDeepMore(g, p, i, j, n);
    case TSeq(p1, p2) =>
      OwnDeepMore(g, p1, i, j, n);
      if Nullable(g, p1, n) {
        OwnDeepMore(g, p2, i, j, n);
      }
    case TChoice(p1, p2) =>
      OwnDeepMore(g, p1, i, j, n);
      OwnDeepMore(g, p2, i, j, n);
    case _ =>
  }

  lemma {:induction false} ShallowGrows(g: seq<Tree>, j: nat, n: nat)
    ensures Shallow(g, j, n) <= Shallow(g, j + 1, n)
  {
    if j > 0 {
      ShallowGrows(g, j - 1, n);
    }
    forall k | k in Shallow(g, j, n) ensures k in Shallow(g, j + 1, n) {
      OwnDeepMore(g, g[k], j, j + 1, n);
    }
  }

  /** Once no rule is added, none ever is. */
  lemma {:induction false} ShallowStays(g: seq<Tree>, i: nat, j: nat, n: nat)
    requires Shallow(g, i, n) == Shallow(g, i + 1, n) && i <= j
    ensures Shallow(g, j, n) == Shallow(g, i, n)
    decreases j
  {
    if j > i {
      ShallowStays(g, i, j - 1, n);
      if j > i + 1 {
        ShallowStays(g, i, j - 2, n);
        forall k | k in Shallow(g, j, n) ensures k in Shallow(g, j - 1, n) {
          OwnDeepMore(g, g[k], j, j - 1, n);
        }
        ShallowGrows(g, j - 1, n);
      }
    }
  }

  /** Up to depth `j` rules are added, or none is any more. */
  lemma {:induction false} ShallowSize(g: seq<Tree>, j: nat, n: nat)
    ensures |Shallow(g, j, n)| > j || exists i :: 0 <= i <= j && Shallow(g, i, n) == Shallow(g, i + 1, n)
  {
    if Shallow(g, j, n) != Shallow(g, j + 1, n) && !(exists i :: 0 <= i <= j && Shallow(g, i, n) == Shallow(g, i + 1, n)) {
      if j > 0 {
        ShallowSize(g, j - 1, n);
        ShallowGrows(g, j - 1, n);
        assert Shallow(g, j - 1, n) != Shallow(g, j - 1 + 1, n);
        SubsetSize(Shallow(g, j - 1, n), Shallow(g, j, n));
      } else {
        EmptyStays(g, n);
      }
    }
  }

  /** When every rule calls another one first, that goes on. */
  lemma EmptyStays(g: seq<Tree>, n: nat)
    requires Shallow(g, 0, n) != Shallow(g, 1, n)
    ensures |Shallow(g, 0, n)| > 0
  {
    if Shallow(g, 0, n) == {} {
      forall k | k in Shallow(g, 1, n) ensures k in Shallow(g, 0, n) {
        NoCalls(g, g[k], n);
      }
    }
  }

  lemma {:induction false} NoCalls(g: seq<Tree>, t: Tree, n: nat)
    requires OwnDeep(g, t, 1, n) && Shallow(g, 0, n) == {}
    ensures OwnDeep(g, t, 0, n)
    decreases t
  {
    match t
    case TCall(k) =>
      assert k !in Shallow(g, 0, n);
    case TRep(p) => NoCalls(g, p, n);
    case TNot(p) => NoCalls(g, p, n);
    case TAnd(p) => NoCalls(g, p, n);
    case TSeq(p1, p2) =>
      NoCalls(g, p1, n);
      if Nullable(g, p1, n) {
        NoCalls(g, p2, n);
      }
    case TChoice(p1, p2) =>
      NoCalls(g, p1, n);
      NoCalls(g, p2, n);
    case _ =>
  }

  function Numbers(size: nat): (r: set<nat>)
    ensures |r| == size && forall k: nat :: k in r <==> k < size
  {
    if size == 0 then {} else Numbers(size - 1) + {size - 1}
  }

  /** Left calls that end nest no deeper than there are rules. */
  lemma OwnBounded(g: seq<Tree>, t: Tree, j: nat, n: nat)
    requires OwnDeep(g, t, j, n) && g != []
    ensures OwnDeep(g, t, |g|, n)
  {
    var m := |g| - 1;
    ShallowSize(g, m, n);
    SubsetSize(Shallow(g, m, n), Numbers(|g|));
    if j > 0 {
      if |Shallow(g, m, n)| > m {
        assert Shallow(g, m, n) == Numbers(|g|);
      } else {
        var i :| 0 <= i <= m && Shallow(g, i, n) == Shallow(g, i + 1, n);
        ShallowStays(g, i, m, n);
        if j - 1 >= i {
          ShallowStays(g, i, j - 1, n);
        } else {
          ShallowBelow(g, j - 1, i, n);
        }
      }
    }
    OwnDeepMore(g, t, j, |g|, n);
  }

  lemma {:induction false} ShallowBelow(g: seq<Tree>, i: nat, j: nat, n: nat)
    requires i <= j
    ensures Shallow(g, i, n) <= Shallow(g, j, n)
    decreases j
  {
    if i < j {
      ShallowBelow(g, i, j - 1, n);
      ShallowGrows(g, j - 1, n);
    }
  }

  lemma {:induction false} OwnDeepMonotone(g: seq<Tree>, t: Tree, i: nat, j: nat, n: nat)
    requires OwnDeep(g, t, i, n) && i <= j
    ensures OwnDeep(g, t, j, n)
  {
    if i > 0 {
      ShallowBelow(g, i - 1, j - 1, n);
    }
    OwnDeepMore(g, t, i, j, n);
  }

  /** Where left calls do not nest deeper than the check allows, it accepts, with the accumulator
      kept. */
  lemma {:induction false} VerifyComplete(g: seq<Tree>, t: Tree, npassed: nat, nb: bool, n: nat, d: nat, c: nat)
    requires npassed <= MAXRULES && n >= d && c >= d
    requires SubDeep(t, d) && forall k :: 0 <= k < |g| ==> SubDeep(g[k], d)
    requires OwnDeep(g, t, MAXRULES - npassed, c) && c >= MAXRULES - npassed + d
    ensures Verify(g, t, npassed, nb, n, true).Accepted?
    decreases MAXRULES - npassed, t
  {
    match t
    case TCall(k) => VerifyComplete(g, g[k], npassed + 1, nb, n, d, c);
    case TRep(p) => VerifyComplete(g, p, npassed, true, n, d, c);
    case TNot(p) => VerifyComplete(g, p, npassed, true, n, d, c);
    case TAnd(p) => VerifyComplete(g, p, npassed, true, n, d, c);
    case TSeq(p1, p2) =>
      VerifyComplete(g, p1, npassed, false, n, d, c);
      if Verify(g, p1, npassed, false, n, true).nullable {
        VerifySound(g, p1, npassed, false, n, d);
        CheckAuxStable(g, p1, PEnullable, MAXRULES - npassed + d, c);
        VerifyComplete(g, p2, npassed, nb, n, d, c);
      }
    case TChoice(p1, p2) =>
      VerifyComplete(g, p1, npassed, nb, n, d, c);
      VerifyComplete(g, p2, npassed, Verify(g, p1, npassed, nb, n, true).nullable, n, d, c);
    case _ =>
  }

  /** A rule is not left recursive (its left calls nest within some bound) if and only if it would
      be accepted with the accumulator kept; `d` is a bound for its sub-grammars. */
  lemma LeftRecursionExact(g: seq<Tree>, k: nat, n: nat, d: nat)
    requires k < |g| <= MAXRULES && n >= d && forall j :: 0 <= j < |g| ==> SubDeep(g[j], d)
    ensures NotLeftRecursive(g, g[k], n) <==> exists b: nat :: LeftDeep(g, g[k], b)
  {
    if NotLeftRecursive(g, g[k], n) {
      VerifySound(g, g[k], 0, false, n, d);
      var b := MAXRULES + d;
      assert LeftDeep(g, g[k], b);
      assert exists b: nat :: LeftDeep(g, g[k], b);
    } else if exists b: nat :: LeftDeep(g, g[k], b) {
      var b: nat :| LeftDeep(g, g[k], b);
      BoundedAccepted(g, k, n, d, b);
    }
  }

  lemma BoundedAccepted(g: seq<Tree>, k: nat, n: nat, d: nat, b: nat)
    requires k < |g| <= MAXRULES && n >= d && forall j :: 0 <= j < |g| ==> SubDeep(g[j], d)
    requires LeftDeep(g, g[k], b)
    ensures NotLeftRecursive(g, g[k], n)
  {
    var c := Max(b, MAXRULES + d);
    OwnFromLeft(g, g[k], b, c);
    OwnBounded(g, g[k], b, c);
    OwnDeepMonotone(g, g[k], |g|, MAXRULES, c);
    VerifyComplete(g, g[k], 0, false, n, d, c);
  }

  /** A set accumulator that is kept sets the answer. */
  lemma {:induction false} KeptNullable(g: seq<Tree>, t: Tree, npassed: nat, n: nat)
    requires npassed <= MAXRULES && Verify(g, t, npassed, true, n, true).Accepted?
    ensures Verify(g, t, npassed, true, n, true).nullable
    decreases MAXRULES - npassed, t
  {
    match t
    case TCall(k) => KeptNullable(g, g[k], npassed + 1, n);
    case TRep(p) => KeptNullable(g, p, npassed, n);
    case TNot(p) => KeptNullable(g, p, npassed, n);
    case TAnd(p) => KeptNullable(g, p, npassed, n);
    case TSeq(p1, p2) =>
      if Verify(g, p1, npassed, false, n, true).nullable {
        KeptNullable(g, p2, npassed, n);
      }
    case TChoice(p1, p2) =>
      KeptNullable(g, p1, npassed, n);
      KeptNullable(g, p2, npassed, n);
    case _ =>
  }

  /** Keeping the accumulator makes the check stricter. */
  lemma {:induction false} KeepingStricter(g: seq<Tree>, t: Tree, npassed: nat, nb: bool, kept: bool, n: nat)
    requires npassed <= MAXRULES && (nb ==> kept)
    requires Verify(g, t, npassed, kept, n, true).Accepted?
    ensures Verify(g, t, npassed, nb, n, false).Accepted?
    ensures Verify(g, t, npassed, nb, n, false).nullable ==> Verify(g, t, npassed, kept, n, true).nullable
    decreases MAXRULES - npassed, t
  {
    match t
    case TCall(k) => KeepingStricter(g, g[k], npassed + 1, nb, kept, n);
    case TRep(p) => KeepingStricter(g, p, npassed, true, true, n);
    case TNot(p) => KeepingStricter(g, p, npassed, true, true, n);
    case TAnd(p) => KeepingStricter(g, p, npassed, true, true, n);
    case TSeq(p1, p2) =>
      KeepingStricter(g, p1, npassed, false, false, n);
      if Verify(g, p1, npassed, false, n, false).nullable {
        KeepingStricter(g, p2, npassed, nb, kept, n);
      } else if nb && Verify(g, p1, npassed, false, n, true).nullable {
        KeptNullable(g, p2, npassed, n);
      }
    case TChoice(p1, p2) =>
      KeepingStricter(g, p1, npassed, nb, kept, n);
      KeepingStricter(g, p2, npassed, Verify(g, p1, npassed, nb, n, false).nullable,
                      Verify(g, p1, npassed, kept, n, true).nullable, n);
    case _ =>
  }

  /** `verifyrule` never rejects a rule that is not left recursive. */
  lemma VerifyRuleComplete(g: seq<Tree>, k: nat, n: nat, d: nat)
    requires k < |g| <= MAXRULES && n >= d && forall j :: 0 <= j < |g| ==> SubDeep(g[j], d)
    requires exists b: nat :: LeftDeep(g, g[k], b)
    ensures VerifyRule(g, g[k], n)
  {
    LeftRecursionExact(g, k, n, d);
    KeepingStricter(g, g[k], 0, false, false, n);
  }

  /** `{ A <- !B A }`, where `B` is a grammar for the one character 97. */
  const LeftRecursive: seq<Tree> := [TSeq(TNot(TGrammar([TChar(97)])), TCall(0))]

  lemma {:induction false} NeverEnds(m: nat)
    ensures Match(LeftRecursive, LeftRecursive[0], [98], 0, m).Unknown?
  {
    var a := TChar(97);
    var b := TGrammar([a]);
    assert Match([a], a, [98], 0, m).Fail?;
    assert Match(LeftRecursive, b, [98], 0, m).Fail?;
    assert Match(LeftRecursive, TNot(b), [98], 0, m) == Succ(0);
    if m > 0 {
      NeverEnds(m - 1);
    }
  }

  /** Forgetting the accumulator accepts left recursion: the grammar passes `verifygrammar`,
      and matching it never ends. */
  lemma VerifyRuleForgets(n: nat, m: nat)
    ensures VerifyRule(LeftRecursive, LeftRecursive[0], n)
    ensures !CheckLoops(LeftRecursive, LeftRecursive[0], n)
    ensures !NotLeftRecursive(LeftRecursive, LeftRecursive[0], n)
    ensures Match([], TGrammar(LeftRecursive), [98], 0, m).Unknown?
  {
    var a := TChar(97);
    var b := TGrammar([a]);
    assert !Nullable([a], a, n) && !Nullable(LeftRecursive, b, n);
    assert Verify(LeftRecursive, TNot(b), 0, false, n, false) == Accepted(false);
    assert !CheckLoops(LeftRecursive, b, n) && !CheckLoops(LeftRecursive, TNot(b), n);
    if NotLeftRecursive(LeftRecursive, LeftRecursive[0], n) {
      CallsItself(0, n);
    }
    NeverEnds(m);
  }

  lemma {:induction false} CallsItself(npassed: nat, n: nat)
    requires npassed <= MAXRULES
    ensures Verify(LeftRecursive, LeftRecursive[0], npassed, false, n, true).Rejected?
    decreases MAXRULES - npassed
  {
    var b := TGrammar([TChar(97)]);
    assert Verify(LeftRecursive, b, npassed, true, n, true) == Accepted(true);
    assert Verify(LeftRecursive, TNot(b), npassed, false, n, true) == Accepted(true);
    if npassed < MAXRULES {
      CallsItself(npassed + 1, n);
    }
  }

  /** `{ A <- !B 'b' }` and `{ A <- B^0 'b' }`, with the same `B`, are not left recursive, and they
      are accepted patterns. */
  lemma LoopsAndPredicates(d: nat)
    ensures Closed(TGrammar([TSeq(TNot(TGrammar([TChar(97)])), TChar(98))]), d)
    ensures Closed(TGrammar([TSeq(TRep(TGrammar([TChar(97)])), TChar(98))]), d)
  {
    SubGrammarFirst(TNot(TGrammar([TChar(97)])), d);
    SubGrammarFirst(TRep(TGrammar([TChar(97)])), d);
  }

  lemma SubGrammarFirst(first: Tree, d: nat)
    requires first == TNot(TGrammar([TChar(97)])) || first == TRep(TGrammar([TChar(97)]))
    ensures Closed(TGrammar([TSeq(first, TChar(98))]), d)
  {
    var a := [TChar(97)];
    var b := TGrammar(a);
    var g := [TSeq(first, TChar(98))];
    forall n | n >= d ensures Built([], TGrammar(g), n) {
      assert Built(a, a[0], n) && RuleAccepted(a, a[0], n);
      assert Built(g, b, n) && Built(g, first, n) && Built(g, g[0], n);
      assert !Nullable(a, a[0], n);
      assert !Nullable(g, b, n) && !CheckLoops(g, first, n);
      forall keep: bool ensures Verify(g, g[0], 0, false, n, keep).Accepted? {
        assert Verify(g, b, 0, true, n, keep).Accepted?;
        assert Verify(g, first, 0, false, n, keep).Accepted?;
        assert Verify(g, TChar(98), 0, false, n, keep).Accepted?;
      }
      assert VerifyRule(g, g[0], n) && NotLeftRecursive(g, g[0], n);
      assert !CheckLoops(g, TChar(98), n) && !CheckLoops(g, g[0], n);
    }
  }

  // ---- look-behinds that call rules -------------------------------------------------

  lemma {:induction false} LevelledCalls(t: Tree, level: seq<nat>, l: nat)
    requires Levelled(t, level, l)
    ensures forall c :: c in Calls(t) ==> c < |level| && level[c] <= l
    ensures forall c :: c in CallsBehind(t) ==> c < |level| && level[c] < l
  {
    match t
    case TRep(p) => LevelledCalls(p, level, l);
    case TNot(p) => LevelledCalls(p, level, l);
    case TAnd(p) => LevelledCalls(p, level, l);
    case TBehind(_, p) => LevelledCalls(p, level, l - 1);
    case TSeq(p1, p2) =>
      LevelledCalls(p1, level, l);
      LevelledCalls(p2, level, l);
    case TChoice(p1, p2) =>
      LevelledCalls(p1, level, l);
      LevelledCalls(p2, level, l);
    case _ =>
  }

  lemma {:induction false} LevelsFall(g: seq<Tree>, level: seq<nat>, path: seq<nat>)
    requires |level| == |g| && forall k :: 0 <= k < |g| ==> Levelled(g[k], level, level[k])
    requires CallPath(g, path)
    ensures level[path[|path| - 1]] <= level[path[0]]
    decreases |path|
  {
    if |path| > 1 {
      LevelledCalls(g[path[0]], level, level[path[0]]);
      assert path[1] in Calls(g[path[0]]);
      LevelsFall(g, level, path[1..]);
    }
  }

  /** Rules have levels if and only if no look-behind call leads back: that is how it can be
      checked. */
  lemma LevelsExactly(g: seq<Tree>)
    requires forall j :: 0 <= j < |g| ==> forall c :: c in Calls(g[j]) ==> c < |g|
    ensures BehindsLeadAway(g) <==>
      exists level: seq<nat> :: |level| == |g| && forall k :: 0 <= k < |g| ==> Levelled(g[k], level, level[k])
  {
    hide Levelled;
    if BehindsLeadAway(g) {
      var level := LevelsExist(g);
    }
    if level: seq<nat> :| |level| == |g| && forall k :: 0 <= k < |g| ==> Levelled(g[k], level, level[k]) {
      forall a: nat, c: nat | a < |g| && c in CallsBehind(g[a])
        ensures !LeadsTo(g, c, a)
      {
        LevelledCalls(g[a], level, level[a]);
        if LeadsTo(g, c, a) {
          var path: seq<nat> :| CallPath(g, path) && path[0] == c && path[|path| - 1] == a;
          LevelsFall(g, level, path);
        }
      }
    }
  }

  /** `{ A <- 'a' #(!A .) }`, where `#` looks behind: 'a' stands for the character 97. */
  const BehindItself: seq<Tree> := [TSeq(TChar(97), TBehind(1, TSeq(TNot(TCall(0)), TAny)))]

  lemma {:induction false} BehindNeverEnds(m: nat)
    ensures Match(BehindItself, BehindItself[0], [97], 0, m).Unknown?
  {
    var g := BehindItself;
    var body := TSeq(TNot(TCall(0)), TAny);
    if m > 0 {
      BehindNeverEnds(m - 1);
    }
    assert Match(g, TCall(0), [97], 0, m).Unknown?;
    assert Match(g, TNot(TCall(0)), [97], 0, m).Unknown?;
    assert Match(g, body, [97], 0, m).Unknown?;
    assert Match(g, TBehind(1, body), [97], 1, m).Unknown?;
  }

  lemma ItselfAccepted(n: nat)
    ensures Built(BehindItself, BehindItself[0], n) && RuleAccepted(BehindItself, BehindItself[0], n)
  {
    var g := BehindItself;
    var body := TSeq(TNot(TCall(0)), TAny);
    assert Built(g, TNot(TCall(0)), n) && Built(g, body, n) && Built(g, TBehind(1, body), n);
    CharacterFirst(g, TBehind(1, body), n);
    NoLoops(g, 1, TCall(0), TAny, n);
    NoLoops(g, 1, TNot(TCall(0)), TAny, n);
    NoLoops(g, 1, body, TAny, n);
    NoLoops(g, 1, TChar(97), TBehind(1, body), n);
  }

  lemma ItselfWellFormed()
    ensures WellFormed([], TGrammar(BehindItself))
  {
    var g := BehindItself;
    var body := TSeq(TNot(TCall(0)), TAny);
    assert WellFormed(g, body) && FixedLen(g, body) == 1 && WellFormed(g, TBehind(1, body));
  }

  lemma ItselfLeadsBack()
    ensures !BehindsLeadAway(BehindItself)
  {
    var g := BehindItself;
    var body := TSeq(TNot(TCall(0)), TAny);
    assert 0 in Calls(TNot(TCall(0))) && 0 in Calls(body) && 0 in CallsBehind(TBehind(1, body)) && 0 in CallsBehind(g[0]);
    LeadsHere(g, 0);
  }

  /** Look-behinds are not searched for left calls: the grammar is accepted, also with the
      accumulator kept, it is not left recursive, and matching it never ends. */
  lemma BehindForgotten(d: nat, m: nat)
    ensures Constructed(TGrammar(BehindItself), d) && WellFormed([], TGrammar(BehindItself))
    ensures LeftDeep(BehindItself, BehindItself[0], 0) && !NoBehindLoops(TGrammar(BehindItself))
    ensures Match([], TGrammar(BehindItself), [97], 0, m).Unknown?
  {
    hide RuleAccepted, WellFormed, BehindsLeadAway;
    forall n | n >= d
      ensures Built([], TGrammar(BehindItself), n)
    {
      ItselfAccepted(n);
    }
    ItselfWellFormed();
    ItselfLeadsBack();
    BehindNeverEnds(m);
  }

  lemma CharacterFirst(g: seq<Tree>, p: Tree, n: nat)
    ensures VerifyRule(g, TSeq(TChar(97), p), n) && NotLeftRecursive(g, TSeq(TChar(97), p), n)
  {
    assert Verify(g, TChar(97), 0, false, n, false) == Verify(g, TChar(97), 0, false, n, true) == Accepted(false);
  }

  lemma NoLoops(g: seq<Tree>, k: nat, p1: Tree, p2: Tree, n: nat)
    requires p1.TChar? || p1.TCall? || !CheckLoops(g, p1, n)
    requires p2.TChar? || p2.TAny? || !CheckLoops(g, p2, n)
    ensures !CheckLoops(g, TSeq(p1, p2), n) && !CheckLoops(g, TChoice(p1, p2), n)
    ensures !CheckLoops(g, TNot(p1), n) && !CheckLoops(g, TAnd(p1), n) && !CheckLoops(g, TBehind(k, p1), n)
  {
  }

  /** `{ A <- #(&B) 'a'; B <- 'a' }`. */
  const BehindOther: seq<Tree> := [TSeq(TBehind(0, TAnd(TCall(1))), TChar(97)), TChar(97)]

  /** Its look-behind calls a rule, and it is an accepted pattern. */
  lemma BehindAnother(d: nat)
    ensures Closed(TGrammar(BehindOther), d)
  {
    forall n | n >= d
      ensures Built([], TGrammar(BehindOther), n)
    {
      OtherBuilt(n);
      OtherAccepted(n);
    }
    OtherAway();
  }

  lemma OtherBuilt(n: nat)
    ensures Built(BehindOther, BehindOther[0], n) && Built(BehindOther, BehindOther[1], n)
  {
    var g := BehindOther;
    var look := TBehind(0, TAnd(TCall(1)));
    assert Built(g, TAnd(TCall(1)), n) && Built(g, look, n);
  }

  lemma OtherAccepted(n: nat)
    ensures RuleAccepted(BehindOther, BehindOther[0], n) && RuleAccepted(BehindOther, BehindOther[1], n)
  {
    hide Verify, VerifyRule, NotLeftRecursive, CheckAux;
    var g := BehindOther;
    var look := TBehind(0, TAnd(TCall(1)));
    BehindFirst(g, look, n);
    NoLoops(g, 0, TCall(1), TChar(97), n);
    NoLoops(g, 0, TAnd(TCall(1)), TChar(97), n);
    NoLoops(g, 0, look, TChar(97), n);
  }

  lemma BehindFirst(g: seq<Tree>, p: Tree, n: nat)
    requires p.TBehind?
    ensures VerifyRule(g, TSeq(p, TChar(97)), n) && NotLeftRecursive(g, TSeq(p, TChar(97)), n)
    ensures VerifyRule(g, TChar(97), n) && NotLeftRecursive(g, TChar(97), n)
  {
    assert Verify(g, p, 0, false, n, false) == Verify(g, p, 0, false, n, true) == Accepted(true);
  }

  lemma OtherAway()
    ensures NoBehindLoops(TGrammar(BehindOther))
  {
    var g := BehindOther;
    var look := TBehind(0, TAnd(TCall(1)));
    var level: seq<nat> := [1, 0];
    assert Calls(TAnd(TCall(1))) == {1} && Calls(g[0]) == {1} && Calls(g[1]) == {};
    assert Levelled(TAnd(TCall(1)), level, 0) && Levelled(look, level, 1) && Levelled(g[0], level, 1) && Levelled(g[1], level, 0);
    LevelsExactly(g);
    assert NoBehindLoops(look) && NoBehindLoops(g[0]);
  }
}
