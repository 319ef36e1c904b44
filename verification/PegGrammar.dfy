/** The checks of skynet/3rd/lpeg/lptree.c on a grammar, and what they guarantee: matching a
    pattern built from accepted grammars always ends. */
module PegGrammar {
  import opened Peg
  import opened PegAnalysis
  import opened Sets

  datatype Verdict = Rejected | Accepted(nullable: bool)

  /** `verifyrule`: rejects possible left recursion, else says whether the pattern may match
      without consuming anything. `npassed` counts the rules entered, `nb` is the
      accumulator of the source, `n` the budget of `nullable`. The source forgets the
      accumulator at a sub-grammar; with `keep` it is kept there. */
  function Verify(g: seq<Tree>, t: Tree, npassed: nat, nb: bool, n: nat, keep: bool): Verdict
    requires npassed <= MAXRULES
    decreases MAXRULES - npassed, t
  {
    match t
    case TChar(_) => Accepted(nb)
    case TSet(_) => Accepted(nb)
    case TAny => Accepted(nb)
    case TFalse => Accepted(nb)
    case TTrue => Accepted(true)
    case TBehind(_, _) => Accepted(true)
    case TNot(p) => Verify(g, p, npassed, true, n, keep)
    case TAnd(p) => Verify(g, p, npassed, true, n, keep)
    case TRep(p) => Verify(g, p, npassed, true, n, keep)
    case TCall(k) =>
      if npassed >= MAXRULES || k >= |g| then Rejected else Verify(g, g[k], npassed + 1, nb, n, keep)
    case TSeq(p1, p2) =>
      var v := Verify(g, p1, npassed, false, n, keep);
      if v.Rejected? then v
      else if !v.nullable then Accepted(nb)
      else Verify(g, p2, npassed, nb, n, keep)
    case TChoice(p1, p2) =>
      var v := Verify(g, p1, npassed, nb, n, keep);
      if v.Rejected? then v else Verify(g, p2, npassed, v.nullable, n, keep)
    case TGrammar(_) => Accepted((keep && nb) || Nullable(g, t, n))
  }

  /** What `verifygrammar` asks of a rule. */
  predicate VerifyRule(g: seq<Tree>, t: Tree, n: nat) {
    Verify(g, t, 0, false, n, false).Accepted?
  }

  /** The same with the accumulator kept: this excludes left recursion. */
  predicate NotLeftRecursive(g: seq<Tree>, t: Tree, n: nat) {
    Verify(g, t, 0, false, n, true).Accepted?
  }

  /** `checkloops`: is there a repetition whose body may match empty? */
  function CheckLoops(g: seq<Tree>, t: Tree, n: nat): bool {
    match t
    case TRep(p) => Nullable(g, p, n) || CheckLoops(g, p, n)
    case TSeq(p1, p2) => CheckLoops(g, p1, n) || CheckLoops(g, p2, n)
    case TChoice(p1, p2) => CheckLoops(g, p1, n) || CheckLoops(g, p2, n)
    case TNot(p) => CheckLoops(g, p, n)
    case TAnd(p) => CheckLoops(g, p, n)
    case TBehind(_, p) => CheckLoops(g, p, n)
    case _ => false
  }

  /** The rules that `t` calls, outside its sub-grammars. */
  function Calls(t: Tree): set<nat> {
    match t
    case TCall(k) => {k}
    case TRep(p) => Calls(p)
    case TNot(p) => Calls(p)
    case TAnd(p) => Calls(p)
    case TBehind(_, p) => Calls(p)
    case TSeq(p1, p2) => Calls(p1) + Calls(p2)
    case TChoice(p1, p2) => Calls(p1) + Calls(p2)
    case _ => {}
  }

  /** Rules that `verifygrammar` looks at: the initial rule and those with a key, that is,
      with a call somewhere. */
  ghost predicate Used(rules: seq<Tree>, k: nat) {
    k == 0 || exists j :: 0 <= j < |rules| && k in Calls(rules[j])
  }

  /** What the constructors check: `newgrammar` accepts every grammar in `t`, and calls name
      rules. Look-behind may call rules, under predicates. */
  ghost predicate Built(g: seq<Tree>, t: Tree, n: nat)
    decreases t
  {
    match t
    case TCall(k) => k < |g|
    case TRep(p) => Built(g, p, n)
    case TNot(p) => Built(g, p, n)
    case TAnd(p) => Built(g, p, n)
    case TBehind(_, p) => Built(g, p, n)
    case TSeq(p1, p2) => Built(g, p1, n) && Built(g, p2, n)
    case TChoice(p1, p2) => Built(g, p1, n) && Built(g, p2, n)
    case TGrammar(rules) =>
      && rules != []
      && (forall k :: 0 <= k < |rules| ==> Built(rules, rules[k], n))
      && (forall k :: 0 <= k < |rules| && Used(rules, k) ==> RuleAccepted(rules, rules[k], n))
    case _ => true
  }

  /** `verifygrammar` accepts a rule, and it would with the accumulator kept. */
  ghost predicate RuleAccepted(g: seq<Tree>, t: Tree, n: nat) {
    VerifyRule(g, t, n) && NotLeftRecursive(g, t, n) && !CheckLoops(g, t, n)
  }

  // ---- calls in look-behinds --------------------------------------------------------

  /** The rules that `t` calls in its look-behinds. */
  function CallsBehind(t: Tree): (r: set<nat>)
    ensures r <= Calls(t)
  {
    match t
    case TRep(p) => CallsBehind(p)
    case TNot(p) => CallsBehind(p)
    case TAnd(p) => CallsBehind(p)
    case TBehind(_, p) => Calls(p)
    case TSeq(p1, p2) => CallsBehind(p1) + CallsBehind(p2)
    case TChoice(p1, p2) => CallsBehind(p1) + CallsBehind(p2)
    case _ => {}
  }

  /** Each rule of the path calls the next one. */
  predicate CallPath(g: seq<Tree>, path: seq<nat>) {
    && path != [] && (forall i :: 0 <= i < |path| ==> path[i] < |g|)
    && forall i :: 0 <= i < |path| - 1 ==> path[i + 1] in Calls(g[path[i]])
  }

  ghost predicate LeadsTo(g: seq<Tree>, a: nat, b: nat) {
    exists path :: CallPath(g, path) && path[0] == a && path[|path| - 1] == b
  }

  /** No rule that a look-behind calls leads back to the rule with the look-behind. */
  ghost predicate BehindsLeadAway(g: seq<Tree>) {
    forall a: nat, c: nat :: a < |g| && c in CallsBehind(g[a]) ==> !LeadsTo(g, c, a)
  }

  /** The same in all grammars of `t`. */
  ghost predicate NoBehindLoops(t: Tree) {
    match t
    case TRep(p) => NoBehindLoops(p)
    case TNot(p) => NoBehindLoops(p)
    case TAnd(p) => NoBehindLoops(p)
    case TBehind(_, p) => NoBehindLoops(p)
    case TSeq(p1, p2) => NoBehindLoops(p1) && NoBehindLoops(p2)
    case TChoice(p1, p2) => NoBehindLoops(p1) && NoBehindLoops(p2)
    case TGrammar(rules) => BehindsLeadAway(rules) && forall k :: 0 <= k < |rules| ==> NoBehindLoops(rules[k])
    case _ => true
  }

  /** Rules with levels: at level `l` a pattern calls rules of no higher level, and each
      look-behind is a level lower. */
  predicate Levelled(t: Tree, level: seq<nat>, l: nat) {
    match t
    case TCall(k) => k < |level| && level[k] <= l
    case TRep(p) => Levelled(p, level, l)
    case TNot(p) => Levelled(p, level, l)
    case TAnd(p) => Levelled(p, level, l)
    case TBehind(_, p) => l > 0 && Levelled(p, level, l - 1)
    case TSeq(p1, p2) => Levelled(p1, level, l) && Levelled(p2, level, l)
    case TChoice(p1, p2) => Levelled(p1, level, l) && Levelled(p2, level, l)
    case _ => true
  }

  function BehindDepth(t: Tree): nat {
    match t
    case TRep(p) => BehindDepth(p)
    case TNot(p) => BehindDepth(p)
    case TAnd(p) => BehindDepth(p)
    case TBehind(_, p) => BehindDepth(p) + 1
    case TSeq(p1, p2) => Max(BehindDepth(p1), BehindDepth(p2))
    case TChoice(p1, p2) => Max(BehindDepth(p1), BehindDepth(p2))
    case _ => 0
  }

  /** `u` has what `t` calls, `v` what it calls in look-behinds. */
  lemma {:induction false} LevelledBelow(t: Tree, level: seq<nat>, l: nat, m: nat, u: set<nat>, v: set<nat>)
    requires BehindDepth(t) <= m <= l && Calls(t) <= u && CallsBehind(t) <= v <= u
    requires forall c {:trigger c in u} :: c in u ==> c < |level| && level[c] <= l
    requires forall c {:trigger c in v} :: c in v ==> c < |level| && level[c] + m <= l
    ensures Levelled(t, level, l)
  {
    match t
    case TCall(k) => assert k in u;
    case TRep(p) => LevelledBelow(p, level, l, m, u, v);
    case TNot(p) => LevelledBelow(p, level, l, m, u, v);
    case TAnd(p) => LevelledBelow(p, level, l, m, u, v);
    case TBehind(_, p) => LevelledBelow(p, level, l - 1, m - 1, v, v);
    case TSeq(p1, p2) =>
      LevelledBelow(p1, level, l, m, u, v);
      LevelledBelow(p2, level, l, m, u, v);
    case TChoice(p1, p2) =>
      LevelledBelow(p1, level, l, m, u, v);
      LevelledBelow(p2, level, l, m, u, v);
    case _ =>
  }

  /** What is called in a look-behind of a rule to which `k` leads. */
  ghost function BehindFrom(g: seq<Tree>, k: nat): (r: set<nat>)
    requires forall j :: 0 <= j < |g| ==> forall c :: c in Calls(g[j]) ==> c < |g|
    ensures r <= Range(|g|)
  {
    set c, a: nat | a in Range(|g|) && LeadsTo(g, k, a) && c in CallsBehind(g[a]) :: c
  }

  lemma LeadsHere(g: seq<Tree>, k: nat)
    requires k < |g|
    ensures LeadsTo(g, k, k)
  {
    assert CallPath(g, [k]);
  }

  lemma LeadsOn(g: seq<Tree>, k: nat, c: nat, a: nat)
    requires k < |g| && c in Calls(g[k]) && LeadsTo(g, c, a)
    ensures LeadsTo(g, k, a)
  {
    var path: seq<nat> :| CallPath(g, path) && path[0] == c && path[|path| - 1] == a;
    var longer := [k] + path;
    assert CallPath(g, longer) && longer[|longer| - 1] == a;
  }

  /** A call leads to no more look-behinds, and a call in a look-behind to fewer. */
  lemma BehindShrinks(g: seq<Tree>, k: nat, c: nat)
    requires forall j :: 0 <= j < |g| ==> forall c :: c in Calls(g[j]) ==> c < |g|
    requires k < |g| && c in Calls(g[k])
    ensures |BehindFrom(g, c)| <= |BehindFrom(g, k)|
    ensures BehindsLeadAway(g) && c in CallsBehind(g[k]) ==> |BehindFrom(g, c)| < |BehindFrom(g, k)|
  {
    hide LeadsTo;
    forall x | x in BehindFrom(g, c)
      ensures x in BehindFrom(g, k)
    {
      var a: nat :| a in Range(|g|) && LeadsTo(g, c, a) && x in CallsBehind(g[a]);
      LeadsOn(g, k, c, a);
    }
    SubsetSize(BehindFrom(g, c), BehindFrom(g, k));
    if BehindsLeadAway(g) && c in CallsBehind(g[k]) {
      LeadsHere(g, k);
      assert c in BehindFrom(g, k) && c !in BehindFrom(g, c);
      SubsetSize(BehindFrom(g, c), BehindFrom(g, k) - {c});
    }
  }

  function DeepestBehind(rules: seq<Tree>): (m: nat)
    ensures forall k :: 0 <= k < |rules| ==> BehindDepth(rules[k]) <= m
  {
    if rules == [] then 0 else Max(BehindDepth(rules[0]), DeepestBehind(rules[1..]))
  }

  /** The rules of a grammar whose look-behinds lead away have levels. */
  lemma LevelsExist(g: seq<Tree>) returns (level: seq<nat>)
    requires forall j :: 0 <= j < |g| ==> forall c :: c in Calls(g[j]) ==> c < |g|
    requires BehindsLeadAway(g)
    ensures |level| == |g| && forall k :: 0 <= k < |g| ==> Levelled(g[k], level, level[k])
  {
    hide LeadsTo, BehindFrom, BehindsLeadAway;
    var m := DeepestBehind(g);
    level := seq(|g|, k requires 0 <= k < |g| => |BehindFrom(g, k)| * (m + 1) + m);
    forall k | 0 <= k < |g|
      ensures Levelled(g[k], level, level[k])
    {
      forall c | c in Calls(g[k])
        ensures c < |g| && level[c] <= level[k]
        ensures c in CallsBehind(g[k]) ==> level[c] + m <= level[k]
      {
        BehindShrinks(g, k, c);
        LevelsApart(|BehindFrom(g, c)|, |BehindFrom(g, k)|, m);
      }
      LevelledBelow(g[k], level, level[k], m, Calls(g[k]), CallsBehind(g[k]));
    }
  }

  lemma LevelsApart(a: nat, b: nat, m: nat)
    requires a <= b
    ensures a * (m + 1) + m <= b * (m + 1) + m
    ensures a < b ==> a * (m + 1) + m + m <= b * (m + 1) + m
  {
    if a < b {
      Product(a + 1, b, m + 1);
      assert (a + 1) * (m + 1) == a * (m + 1) + (m + 1);
    }
  }

  lemma Product(a: nat, b: nat, c: nat)
    requires a <= b
    ensures a * c <= b * c
  {
  }

  // ---- left calls -------------------------------------------------------------------

  /** Calls of rules that `t` can reach without consuming anything nest less than `b` deep. */
  ghost predicate LeftDeep(g: seq<Tree>, t: Tree, b: nat)
    decreases b, t
  {
    match t
    case TCall(k) => b > 0 && k < |g| && LeftDeep(g, g[k], b - 1)
    case TRep(p) => LeftDeep(g, p, b)
    case TNot(p) => LeftDeep(g, p, b)
    case TAnd(p) => LeftDeep(g, p, b)
    case TSeq(p1, p2) => LeftDeep(g, p1, b) && (Nullable(g, p1, b) ==> LeftDeep(g, p2, b))
    case TChoice(p1, p2) => LeftDeep(g, p1, b) && LeftDeep(g, p2, b)
    case TGrammar(rules) => rules != [] ==> LeftDeep(rules, rules[0], b)
    case _ => true
  }

  lemma {:induction false} NoFailNullable(g: seq<Tree>, t: Tree, n: nat)
    requires NoFail(g, t, n)
    ensures Nullable(g, t, n)
    decreases n, t
  {
    match t
    case TAnd(p) =>
    case TSeq(p1, p2) =>
      NoFailNullable(g, p1, n);
      NoFailNullable(g, p2, n);
    case TChoice(p1, p2) =>
      if NoFail(g, p2, n) {
        NoFailNullable(g, p2, n);
      } else {
        NoFailNullable(g, p1, n);
      }
    case TGrammar(rules) => NoFailNullable(rules, rules[0], n);
    case TCall(k) => NoFailNullable(g, g[k], n - 1);
    case _ =>
  }

  /** Beyond the depth of left calls the budget of `checkaux` does not matter. */
  lemma {:induction false} CheckAuxStable(g: seq<Tree>, t: Tree, pred: Pred, b: nat, n: nat)
    requires LeftDeep(g, t, b) && n >= b
    ensures CheckAux(g, t, pred, n) == CheckAux(g, t, pred, b)
    decreases b, t
  {
    match t
    case TAnd(p) => CheckAuxStable(g, p, pred, b, n);
    case TSeq(p1, p2) =>
      CheckAuxStable(g, p1, pred, b, n);
      if CheckAux(g, p1, pred, b) {
        if pred.PEnofail? {
          NoFailNullable(g, p1, b);
        }
        CheckAuxStable(g, p2, pred, b, n);
      }
    case TChoice(p1, p2) =>
      CheckAuxStable(g, p1, pred, b, n);
      CheckAuxStable(g, p2, pred, b, n);
    case TGrammar(rules) =>
      if rules != [] {
        CheckAuxStable(rules, rules[0], pred, b, n);
      }
    case TCall(k) => CheckAuxStable(g, g[k], pred, b - 1, n - 1);
    case _ =>
  }

  lemma {:induction false} LeftDeepMonotone(g: seq<Tree>, t: Tree, b: nat, n: nat)
    requires LeftDeep(g, t, b) && n >= b
    ensures LeftDeep(g, t, n)
    decreases b, t
  {
    match t
    case TCall(k) => LeftDeepMonotone(g, g[k], b - 1, n - 1);
    case TRep(p) => LeftDeepMonotone(g, p, b, n);
    case TNot(p) => LeftDeepMonotone(g, p, b, n);
    case TAnd(p) => LeftDeepMonotone(g, p, b, n);
    case TSeq(p1, p2) =>
      LeftDeepMonotone(g, p1, b, n);
      CheckAuxStable(g, p1, PEnullable, b, n);
      if Nullable(g, p1, b) {
        LeftDeepMonotone(g, p2, b, n);
      }
    case TChoice(p1, p2) =>
      LeftDeepMonotone(g, p1, b, n);
      LeftDeepMonotone(g, p2, b, n);
    case TGrammar(rules) =>
      if rules != [] {
        LeftDeepMonotone(rules, rules[0], b, n);
      }
    case _ =>
  }

  /** The sub-grammars of `t` need at most `d`. */
  ghost predicate SubDeep(t: Tree, d: nat) {
    match t
    case TRep(p) => SubDeep(p, d)
    case TNot(p) => SubDeep(p, d)
    case TAnd(p) => SubDeep(p, d)
    case TBehind(_, p) => SubDeep(p, d)
    case TSeq(p1, p2) => SubDeep(p1, d) && SubDeep(p2, d)
    case TChoice(p1, p2) => SubDeep(p1, d) && SubDeep(p2, d)
    case TGrammar(rules) => rules != [] && LeftDeep(rules, rules[0], d)
    case _ => true
  }

  lemma {:induction false} SubDeepMonotone(t: Tree, d: nat, e: nat)
    requires SubDeep(t, d) && e >= d
    ensures SubDeep(t, e)
  {
    match t
    case TRep(p) => SubDeepMonotone(p, d, e);
    case TNot(p) => SubDeepMonotone(p, d, e);
    case TAnd(p) => SubDeepMonotone(p, d, e);
    case TBehind(_, p) => SubDeepMonotone(p, d, e);
    case TSeq(p1, p2) =>
      SubDeepMonotone(p1, d, e);
      SubDeepMonotone(p2, d, e);
    case TChoice(p1, p2) =>
      SubDeepMonotone(p1, d, e);
      SubDeepMonotone(p2, d, e);
    case TGrammar(rules) => LeftDeepMonotone(rules, rules[0], d, e);
    case _ =>
  }

  /** What is accepted with the accumulator kept has no deep left calls, and the answer is the
      nullability. */
  lemma {:induction false} VerifySound(g: seq<Tree>, t: Tree, npassed: nat, nb: bool, n: nat, d: nat)
    requires npassed <= MAXRULES && n >= d
    requires SubDeep(t, d) && forall k :: 0 <= k < |g| ==> SubDeep(g[k], d)
    requires Verify(g, t, npassed, nb, n, true).Accepted?
    ensures LeftDeep(g, t, MAXRULES - npassed + d)
    ensures Verify(g, t, npassed, nb, n, true).nullable == (nb || Nullable(g, t, MAXRULES - npassed + d))
    decreases MAXRULES - npassed, t
  {
    var b := MAXRULES - npassed + d;
    match t
    case TCall(k) => VerifySound(g, g[k], npassed + 1, nb, n, d);
    case TRep(p) => VerifySound(g, p, npassed, true, n, d);
    case TNot(p) => VerifySound(g, p, npassed, true, n, d);
    case TAnd(p) => VerifySound(g, p, npassed, true, n, d);
    case TSeq(p1, p2) =>
      VerifySound(g, p1, npassed, false, n, d);
      if Verify(g, p1, npassed, false, n, true).nullable {
        VerifySound(g, p2, npassed, nb, n, d);
      }
    case TChoice(p1, p2) =>
      VerifySound(g, p1, npassed, nb, n, d);
      VerifySound(g, p2, npassed, Verify(g, p1, npassed, nb, n, true).nullable, n, d);
    case TGrammar(rules) =>
      LeftDeepMonotone(rules, rules[0], d, b);
      CheckAuxStable(rules, rules[0], PEnullable, d, n);
      CheckAuxStable(rules, rules[0], PEnullable, d, b);
    case _ =>
  }

  // ---- every accepted pattern has a bound -------------------------------------------

  ghost predicate BuiltFrom(g: seq<Tree>, t: Tree, d: nat) {
    forall n :: n >= d ==> Built(g, t, n)
  }

  function Max(a: nat, b: nat): nat {
    if a < b then b else a
  }

  lemma {:induction false} SubDeepExists(g: seq<Tree>, t: Tree, d: nat) returns (e: nat)
    requires BuiltFrom(g, t, d)
    ensures e >= d && SubDeep(t, e)
    decreases t, 0
  {
    e := d;
    assert Built(g, t, d);
    match t
    case TRep(p) =>
      assert BuiltFrom(g, p, d) by { BuiltParts(g, t, d); }
      e := SubDeepExists(g, p, d);
    case TNot(p) =>
      BuiltParts(g, t, d);
      e := SubDeepExists(g, p, d);
    case TAnd(p) =>
      BuiltParts(g, t, d);
      e := SubDeepExists(g, p, d);
    case TBehind(_, p) =>
      BuiltParts(g, t, d);
      e := SubDeepExists(g, p, d);
    case TSeq(p1, p2) =>
      BuiltParts(g, t, d);
      var e1 := SubDeepExists(g, p1, d);
      var e2 := SubDeepExists(g, p2, d);
      e := Max(e1, e2);
      SubDeepMonotone(p1, e1, e);
      SubDeepMonotone(p2, e2, e);
    case TChoice(p1, p2) =>
      BuiltParts(g, t, d);
      var e1 := SubDeepExists(g, p1, d);
      var e2 := SubDeepExists(g, p2, d);
      e := Max(e1, e2);
      SubDeepMonotone(p1, e1, e);
      SubDeepMonotone(p2, e2, e);
    case TGrammar(rules) =>
      GrammarBuilt(g, rules, d);
      var d' := RulesSubDeep(rules, rules, d);
      assert Built(g, t, d');
      VerifySound(rules, rules[0], 0, false, d', d');
      e := MAXRULES + d';
    case _ =>
  }

  lemma BuiltParts(g: seq<Tree>, t: Tree, d: nat)
    requires BuiltFrom(g, t, d)
    ensures t.TRep? || t.TNot? || t.TAnd? || t.TBehind? ==> BuiltFrom(g, t.body, d)
    ensures t.TSeq? || t.TChoice? ==> BuiltFrom(g, t.p1, d) && BuiltFrom(g, t.p2, d)
  {
    forall n | n >= d
      ensures t.TRep? || t.TNot? || t.TAnd? || t.TBehind? ==> Built(g, t.body, n)
      ensures t.TSeq? || t.TChoice? ==> Built(g, t.p1, n) && Built(g, t.p2, n)
    {
      assert Built(g, t, n);
    }
  }

  lemma GrammarBuilt(g: seq<Tree>, rules: seq<Tree>, d: nat)
    requires BuiltFrom(g, TGrammar(rules), d)
    ensures rules != [] && forall k :: 0 <= k < |rules| ==> BuiltFrom(rules, rules[k], d)
  {
    assert Built(g, TGrammar(rules), d);
    forall k | 0 <= k < |rules|
      ensures BuiltFrom(rules, rules[k], d)
    {
      forall n | n >= d
        ensures Built(rules, rules[k], n)
      {
        assert Built(g, TGrammar(rules), n);
      }
    }
  }

  lemma {:induction false} RulesSubDeep(g: seq<Tree>, rules: seq<Tree>, d: nat) returns (e: nat)
    requires forall k :: 0 <= k < |rules| ==> BuiltFrom(g, rules[k], d)
    ensures e >= d && forall k :: 0 <= k < |rules| ==> SubDeep(rules[k], e)
    decreases rules, 1
  {
    e := d;
    if rules != [] {
      var e1 := SubDeepExists(g, rules[0], d);
      var e2 := RulesSubDeep(g, rules[1..], d);
      e := Max(e1, e2);
      SubDeepMonotone(rules[0], e1, e);
      forall k | 1 <= k < |rules|
        ensures SubDeep(rules[k], e)
      {
        assert rules[k] == rules[1..][k - 1];
        SubDeepMonotone(rules[k], e2, e);
      }
    }
  }

  // ---- matching ends ----------------------------------------------------------------

  function Size(t: Tree): nat
    decreases t, 0
  {
    match t
    case TRep(p) => 1 + Size(p)
    case TNot(p) => 1 + Size(p)
    case TAnd(p) => 1 + Size(p)
    case TBehind(_, p) => 1 + Size(p)
    case TSeq(p1, p2) => 1 + Size(p1) + Size(p2)
    case TChoice(p1, p2) => 1 + Size(p1) + Size(p2)
    case TGrammar(rules) => 1 + SizeAll(rules)
    case _ => 1
  }

  function SizeAll(rules: seq<Tree>): nat
    decreases rules, 1
  {
    if rules == [] then 0 else Size(rules[0]) + SizeAll(rules[1..])
  }

  lemma {:induction false} RuleSmaller(rules: seq<Tree>, k: nat)
    requires k < |rules|
    ensures Size(rules[k]) <= SizeAll(rules)
  {
    if k > 0 {
      RuleSmaller(rules[1..], k - 1);
    }
  }

  /** The rules in `u` may be entered: they call only each other, without left recursion and
      without empty loops. */
  ghost predicate RulesReady(g: seq<Tree>, u: set<nat>, size: nat, b: nat, d: nat) {
    forall k {:trigger k in u} :: k in u ==>
      && k < |g| && Size(g[k]) < size && Calls(g[k]) <= u
      && LeftDeep(g, g[k], b) && BuiltFrom(g, g[k], d) && !CheckLoops(g, g[k], d)
  }

  lemma {:induction false} CallsBuilt(g: seq<Tree>, t: Tree, n: nat, k: nat)
    requires Built(g, t, n) && k in Calls(t)
    ensures k < |g|
  {
    match t
    case TRep(p) => CallsBuilt(g, p, n, k);
    case TNot(p) => CallsBuilt(g, p, n, k);
    case TAnd(p) => CallsBuilt(g, p, n, k);
    case TBehind(_, p) => CallsBuilt(g, p, n, k);
    case TSeq(p1, p2) =>
      if k in Calls(p1) {
        CallsBuilt(g, p1, n, k);
      } else {
        CallsBuilt(g, p2, n, k);
      }
    case TChoice(p1, p2) =>
      if k in Calls(p1) {
        CallsBuilt(g, p1, n, k);
      } else {
        CallsBuilt(g, p2, n, k);
      }
    case TCall(_) =>
  }

  /** The rules in `u` have levels. */
  ghost predicate RulesLevelled(g: seq<Tree>, u: set<nat>, level: seq<nat>) {
    forall k {:trigger k in u} :: k in u ==>
      k < |g| && k < |level| && NoBehindLoops(g[k]) && Levelled(g[k], level, level[k])
  }

  lemma GrammarLevels(g: seq<Tree>, rules: seq<Tree>, d: nat, u: set<nat>) returns (level: seq<nat>)
    requires BuiltFrom(g, TGrammar(rules), d) && NoBehindLoops(TGrammar(rules))
    requires forall k :: k in u ==> k < |rules|
    ensures RulesLevelled(rules, u, level)
  {
    GrammarBuilt(g, rules, d);
    forall j, c | 0 <= j < |rules| && c in Calls(rules[j])
      ensures c < |rules|
    {
      assert Built(rules, rules[j], d);
      CallsBuilt(rules, rules[j], d, c);
    }
    level := LevelsExist(rules);
  }

  /** The rules of an accepted grammar are ready. */
  lemma GrammarReady(g: seq<Tree>, rules: seq<Tree>, d: nat) returns (u: set<nat>, b: nat)
    requires BuiltFrom(g, TGrammar(rules), d)
    ensures rules != [] && 0 in u && RulesReady(rules, u, Size(TGrammar(rules)), b, d)
    ensures forall k: nat :: k < |rules| && Used(rules, k) ==> k in u
  {
    GrammarBuilt(g, rules, d);
    var d' := RulesSubDeep(rules, rules, d);
    u := set k: nat | k < |rules| && Used(rules, k);
    b := MAXRULES + d';
    forall k: nat | k in u
      ensures Size(rules[k]) < Size(TGrammar(rules)) && Calls(rules[k]) <= u
      ensures LeftDeep(rules, rules[k], b) && !CheckLoops(rules, rules[k], d)
    {
      RuleSmaller(rules, k);
      assert Built(g, TGrammar(rules), d') && Built(g, TGrammar(rules), d);
      VerifySound(rules, rules[k], 0, false, d', d');
      forall c | c in Calls(rules[k])
        ensures c in u
      {
        assert Built(rules, rules[k], d);
        CallsBuilt(rules, rules[k], d, c);
      }
    }
  }

  /** Wherever a pattern stands, its left calls nest within a bound. */
  lemma {:induction false} DeepFrom(g: seq<Tree>, t: Tree, u: set<nat>, b: nat, e: nat, n: nat)
    requires Calls(t) <= u && SubDeep(t, e)
    requires forall k {:trigger k in u} :: k in u ==> k < |g| && LeftDeep(g, g[k], b)
    requires n > b && n >= e
    ensures LeftDeep(g, t, n)
    decreases t
  {
    match t
    case TCall(k) => LeftDeepMonotone(g, g[k], b, n - 1);
    case TRep(p) => DeepFrom(g, p, u, b, e, n);
    case TNot(p) => DeepFrom(g, p, u, b, e, n);
    case TAnd(p) => DeepFrom(g, p, u, b, e, n);
    case TSeq(p1, p2) =>
      DeepFrom(g, p1, u, b, e, n);
      DeepFrom(g, p2, u, b, e, n);
    case TChoice(p1, p2) =>
      DeepFrom(g, p1, u, b, e, n);
      DeepFrom(g, p2, u, b, e, n);
    case TGrammar(rules) => LeftDeepMonotone(rules, rules[0], e, n);
    case _ =>
  }

  lemma DeepExists(g: seq<Tree>, t: Tree, u: set<nat>, size: nat, b: nat, d: nat) returns (n: nat)
    requires Calls(t) <= u && RulesReady(g, u, size, b, d) && BuiltFrom(g, t, d)
    ensures LeftDeep(g, t, n)
  {
    var e := SubDeepExists(g, t, d);
    n := Max(b + 1, e);
    DeepFrom(g, t, u, b, e, n);
  }

  /** Matching ends. `size` bounds the pattern and the rules it may enter, `r` the left calls
      of those rules, `b` the left calls of the pattern here, `l` its level. */
  lemma {:induction false} Ends(size: nat, g: seq<Tree>, t: Tree, s: Subject, i: nat, b: nat, u: set<nat>, r: nat, d: nat,
                                level: seq<nat>, l: nat)
    returns (m: nat)
    requires i <= |s| && Size(t) < size
    requires RulesReady(g, u, size, r, d) && RulesLevelled(g, u, level) && Calls(t) <= u
    requires BuiltFrom(g, t, d) && !CheckLoops(g, t, d) && LeftDeep(g, t, b)
    requires NoBehindLoops(t) && Levelled(t, level, l)
    ensures !Match(g, t, s, i, m).Unknown?
    decreases size, l, |s| - i, b, t
  {
    BuiltParts(g, t, d);
    match t
    case TRep(p) =>
      var m1 := Ends(size, g, p, s, i, b, u, r, d, level, l);
      m := m1;
      var r1 := Match(g, p, s, i, m1);
      if r1.Succ? {
        NotNullableSound(g, p, d, s, i, m1);
        var b2 := DeepExists(g, t, u, size, r, d);
        var m2 := Ends(size, g, t, s, r1.pos, b2, u, r, d, level, l);
        m := Max(m1, m2) + 1;
        MatchMonotone(g, p, s, i, m1, m);
        MatchMonotone(g, t, s, r1.pos, m2, m - 1);
      }
    case TSeq(p1, p2) =>
      var m1 := Ends(size, g, p1, s, i, b, u, r, d, level, l);
      m := m1;
      var r1 := Match(g, p1, s, i, m1);
      if r1.Succ? {
        var b2 := b;
        if r1.pos == i {
          if !Nullable(g, p1, b) {
            NotNullableSound(g, p1, b, s, i, m1);
          }
        } else {
          b2 := DeepExists(g, p2, u, size, r, d);
        }
        var m2 := Ends(size, g, p2, s, r1.pos, b2, u, r, d, level, l);
        m := Max(m1, m2);
        MatchMonotone(g, p1, s, i, m1, m);
        MatchMonotone(g, p2, s, r1.pos, m2, m);
      }
    case TChoice(p1, p2) =>
      var m1 := Ends(size, g, p1, s, i, b, u, r, d, level, l);
      var m2 := Ends(size, g, p2, s, i, b, u, r, d, level, l);
      m := Max(m1, m2);
      MatchMonotone(g, p1, s, i, m1, m);
      MatchMonotone(g, p2, s, i, m2, m);
    case TNot(p) => m := Ends(size, g, p, s, i, b, u, r, d, level, l);
    case TAnd(p) => m := Ends(size, g, p, s, i, b, u, r, d, level, l);
    case TCall(k) =>
      var m1 := Ends(size, g, g[k], s, i, b - 1, u, r, d, level, level[k]);
      m := m1 + 1;
    case TBehind(n, p) =>
      m := 0;
      if n <= i {
        var b2 := DeepExists(g, p, u, size, r, d);
        m := Ends(size, g, p, s, i - n, b2, u, r, d, level, l - 1);
      }
    case TGrammar(rules) =>
      var u2, r2 := GrammarReady(g, rules, d);
      var level2 := GrammarLevels(g, rules, d, u2);
      m := Ends(Size(t), rules, rules[0], s, i, r2, u2, r2, d, level2, level2[0]);
    case _ => m := 0;
  }

  /** A pattern outside any grammar that the constructors accept: `lp_star` has refused
      loops over nullable patterns, `newgrammar` has checked every grammar. */
  ghost predicate Constructed(t: Tree, d: nat) {
    BuiltFrom([], t, d) && !CheckLoops([], t, d)
  }

  /** The same, when in its grammars no look-behind calls lead back to where they come from. */
  ghost predicate Closed(t: Tree, d: nat) {
    Constructed(t, d) && NoBehindLoops(t)
  }

  lemma CallsNothing(t: Tree, d: nat)
    requires BuiltFrom([], t, d)
    ensures Calls(t) == {}
  {
    forall k | k in Calls(t)
      ensures false
    {
      assert Built([], t, d);
      CallsBuilt([], t, d, k);
    }
  }

  /** Matching an accepted pattern ends, on every subject and from every position. */
  lemma AcceptedEnds(t: Tree, d: nat, s: Subject, i: nat) returns (m: nat)
    requires Closed(t, d) && i <= |s|
    ensures !Match([], t, s, i, m).Unknown?
  {
    CallsNothing(t, d);
    LevelledBelow(t, [], BehindDepth(t), BehindDepth(t), {}, {});
    var b := DeepExists([], t, {}, 0, 0, d);
    m := Ends(Size(t) + 1, [], t, s, i, b, {}, 0, d, [], BehindDepth(t));
  }
}
