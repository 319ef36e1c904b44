/** The static analyses of skynet/3rd/lpeg/lpcode.c and their soundness.

    The source follows a call into its rule without a bound, which ends because grammars
    with left recursion were rejected before. Here a budget `n` bounds the calls followed;
    when it runs out the answer is the cautious one, so every statement below holds for any
    `n`. (`FixedLenX` has the source's own bound, MAXRULES.) PegGrammar.dfy shows that for
    the grammars the source accepts the budget never runs out. */
module PegAnalysis {
  import opened Charset
  import opened Peg

  const MAXRULES := 1000

  datatype Pred = PEnullable | PEnofail

  function CheckAux(g: seq<Tree>, t: Tree, pred: Pred, n: nat): bool
    decreases n, t
  {
    match t
    case TChar(_) => false
    case TSet(_) => false
    case TAny => false
    case TFalse => false
    case TRep(_) => true
    case TTrue => true
    case TNot(_) => pred.PEnullable?
    case TBehind(_, _) => pred.PEnullable?
    case TAnd(p) => pred.PEnullable? || CheckAux(g, p, pred, n)
    case TSeq(p1, p2) => CheckAux(g, p1, pred, n) && CheckAux(g, p2, pred, n)
    case TChoice(p1, p2) => CheckAux(g, p2, pred, n) || CheckAux(g, p1, pred, n)
    case TGrammar(rules) =>
      if rules == [] then pred.PEnullable? else CheckAux(rules, rules[0], pred, n)
    case TCall(k) =>
      if k >= |g| || n == 0 then pred.PEnullable? else CheckAux(g, g[k], pred, n - 1)
  }

  predicate Nullable(g: seq<Tree>, t: Tree, n: nat) {
    CheckAux(g, t, PEnullable, n)
  }

  predicate NoFail(g: seq<Tree>, t: Tree, n: nat) {
    CheckAux(g, t, PEnofail, n)
  }

  /** `fixedlenx`: `len` plus the number of characters `t` takes, or -1. */
  function FixedLenX(g: seq<Tree>, t: Tree, count: nat, len: nat): int
    requires count <= MAXRULES
    decreases MAXRULES - count, t
  {
    match t
    case TChar(_) => len + 1
    case TSet(_) => len + 1
    case TAny => len + 1
    case TFalse => len
    case TTrue => len
    case TNot(_) => len
    case TAnd(_) => len
    case TBehind(_, _) => len
    case TRep(_) => -1
    case TGrammar(rules) => if rules == [] then -1 else FixedLenX(rules, rules[0], count, len)
    case TCall(k) =>
      if count >= MAXRULES || k >= |g| then -1 else FixedLenX(g, g[k], count + 1, len)
    case TSeq(p1, p2) =>
      var len1 := FixedLenX(g, p1, count, len);
      if len1 < 0 then -1 else FixedLenX(g, p2, count, len1)
    case TChoice(p1, p2) =>
      var n1 := FixedLenX(g, p1, count, len);
      if n1 < 0 then -1
      else
        var n2 := FixedLenX(g, p2, count, len);
        if n1 == n2 then n1 else -1
  }

  function FixedLen(g: seq<Tree>, t: Tree): int {
    FixedLenX(g, t, 0, 0)
  }

  /** A first set with the flag `getfirst` returns: may the pattern match without any
      character left? */
  datatype First = First(cs: Charset, empty: bool)

  function GetFirst(g: seq<Tree>, t: Tree, follow: Charset, n: nat): First
    decreases n, t
  {
    match t
    case TChar(c) => First({c}, false)
    case TSet(cs) => First(cs, false)
    case TAny => First(FullSet(), false)
    case TTrue => First(follow, true)
    case TFalse => First({}, false)
    case TChoice(p1, p2) =>
      var f1 := GetFirst(g, p1, follow, n);
      var f2 := GetFirst(g, p2, follow, n);
      First(f1.cs + f2.cs, f1.empty || f2.empty)
    case TSeq(p1, p2) =>
      if !Nullable(g, p1, n) then GetFirst(g, p1, FullSet(), n)
      else
        var f2 := GetFirst(g, p2, follow, n);
        var f1 := GetFirst(g, p1, f2.cs, n);
        First(f1.cs, f1.empty && f2.empty)
    case TRep(p) => First(GetFirst(g, p, follow, n).cs + follow, true)
    case TGrammar(rules) =>
      if rules == [] then First(FullSet(), true) else GetFirst(rules, rules[0], follow, n)
    case TCall(k) =>
      if k >= |g| || n == 0 then First(FullSet(), true) else GetFirst(g, g[k], follow, n - 1)
    case TAnd(p) =>
      var f := GetFirst(g, p, follow, n);
      First(f.cs * follow, f.empty)
    case TNot(p) =>
      if IsCharset(p) then First(FullSet() - CharsetOf(p), true) else First(follow, true)
    case TBehind(_, _) => First(follow, true)
  }

  function HeadFail(g: seq<Tree>, t: Tree, n: nat): bool
    decreases n, t
  {
    match t
    case TChar(_) => true
    case TSet(_) => true
    case TAny => true
    case TFalse => true
    case TTrue => false
    case TRep(_) => false
    case TNot(_) => false
    case TBehind(_, _) => false
    case TGrammar(rules) => rules != [] && HeadFail(rules, rules[0], n)
    case TAnd(p) => HeadFail(g, p, n)
    case TCall(k) => k < |g| && n != 0 && HeadFail(g, g[k], n - 1)
    case TSeq(p1, p2) => NoFail(g, p2, n) && HeadFail(g, p1, n)
    case TChoice(p1, p2) => HeadFail(g, p1, n) && HeadFail(g, p2, n)
  }

  predicate NeedFollow(t: Tree) {
    match t
    case TChoice(_, _) => true
    case TRep(_) => true
    case TSeq(_, p2) => NeedFollow(p2)
    case _ => false
  }

  /** Patterns the analyses call nofail never fail. */
  lemma {:induction false} NoFailSound(g: seq<Tree>, t: Tree, n: nat, s: Subject, i: nat, m: nat)
    requires i <= |s| && NoFail(g, t, n)
    ensures !Match(g, t, s, i, m).Fail?
    decreases m, t
  {
    match t
    case TRep(p) =>
      var r := Match(g, p, s, i, m);
      if r.Succ? && m > 0 {
        NoFailSound(g, t, n, s, r.pos, m - 1);
      }
    case TAnd(p) => NoFailSound(g, p, n, s, i, m);
    case TSeq(p1, p2) =>
      NoFailSound(g, p1, n, s, i, m);
      var r := Match(g, p1, s, i, m);
      if r.Succ? {
        NoFailSound(g, p2, n, s, r.pos, m);
      }
    case TChoice(p1, p2) =>
      if NoFail(g, p2, n) {
        NoFailSound(g, p2, n, s, i, m);
      } else {
        NoFailSound(g, p1, n, s, i, m);
      }
    case TGrammar(rules) => NoFailSound(rules, rules[0], n, s, i, m);
    case TCall(k) =>
      if m > 0 {
        NoFailSound(g, g[k], n - 1, s, i, m - 1);
      }
    case _ =>
  }

  /** Patterns that are not nullable consume at least one character when they match. */
  lemma {:induction false} NotNullableSound(g: seq<Tree>, t: Tree, n: nat, s: Subject, i: nat, m: nat)
    requires i <= |s| && !Nullable(g, t, n)
    requires Match(g, t, s, i, m).Succ?
    ensures Match(g, t, s, i, m).pos > i
    decreases m, t
  {
    match t
    case TSeq(p1, p2) =>
      var r := Match(g, p1, s, i, m);
      if !Nullable(g, p1, n) {
        NotNullableSound(g, p1, n, s, i, m);
      } else {
        NotNullableSound(g, p2, n, s, r.pos, m);
      }
    case TChoice(p1, p2) =>
      if Match(g, p1, s, i, m).Fail? {
        NotNullableSound(g, p2, n, s, i, m);
      } else {
        NotNullableSound(g, p1, n, s, i, m);
      }
    case TGrammar(rules) => NotNullableSound(rules, rules[0], n, s, i, m);
    case TCall(k) => NotNullableSound(g, g[k], n - 1, s, i, m - 1);
    case _ =>
  }

  /** A fixed length is the length of every match. */
  lemma {:induction false} FixedLenSound(g: seq<Tree>, t: Tree, count: nat, len: nat, s: Subject, i: nat, m: nat)
    requires i <= |s| && count <= MAXRULES && FixedLenX(g, t, count, len) >= 0
    requires Match(g, t, s, i, m).Succ?
    ensures Match(g, t, s, i, m).pos == i + FixedLenX(g, t, count, len) - len
    decreases m, t
  {
    match t
    case TSeq(p1, p2) =>
      var r := Match(g, p1, s, i, m);
      FixedLenSound(g, p1, count, len, s, i, m);
      FixedLenSound(g, p2, count, FixedLenX(g, p1, count, len), s, r.pos, m);
    case TChoice(p1, p2) =>
      if Match(g, p1, s, i, m).Fail? {
        FixedLenSound(g, p2, count, len, s, i, m);
      } else {
        FixedLenSound(g, p1, count, len, s, i, m);
      }
    case TGrammar(rules) => FixedLenSound(rules, rules[0], count, len, s, i, m);
    case TCall(k) => FixedLenSound(g, g[k], count + 1, len, s, i, m - 1);
    case _ =>
  }

  /** The next character lies outside `cs`. */
  predicate Outside(s: Subject, i: nat, cs: Charset) {
    i < |s| && s[i] !in cs
  }

  /** On a character outside its first set a pattern fails, or consumes nothing while what
      follows cannot accept that character. */
  lemma {:induction false} FirstSound(g: seq<Tree>, t: Tree, follow: Charset, n: nat, s: Subject, i: nat, m: nat)
    requires i <= |s| && Outside(s, i, GetFirst(g, t, follow, n).cs)
    ensures Match(g, t, s, i, m).Succ? ==> Match(g, t, s, i, m).pos == i && s[i] !in follow
    decreases m, t
  {
    match t
    case TChoice(p1, p2) =>
      FirstSound(g, p1, follow, n, s, i, m);
      FirstSound(g, p2, follow, n, s, i, m);
    case TSeq(p1, p2) =>
      if !Nullable(g, p1, n) {
        FirstSound(g, p1, FullSet(), n, s, i, m);
      } else {
        FirstSound(g, p1, GetFirst(g, p2, follow, n).cs, n, s, i, m);
        if Match(g, p1, s, i, m).Succ? {
          FirstSound(g, p2, follow, n, s, i, m);
        }
      }
    case TRep(p) =>
      FirstSound(g, p, follow, n, s, i, m);
      if m > 0 && Match(g, p, s, i, m).Succ? {
        FirstSound(g, t, follow, n, s, i, m - 1);
      }
    case TGrammar(rules) =>
      if rules != [] {
        FirstSound(rules, rules[0], follow, n, s, i, m);
      }
    case TCall(k) =>
      if k < |g| && n > 0 && m > 0 {
        FirstSound(g, g[k], follow, n - 1, s, i, m - 1);
      }
    case TAnd(p) =>
      if s[i] in follow {
        FirstSound(g, p, follow, n, s, i, m);
      }
    case TNot(p) =>
      if IsCharset(p) {
        MatchCharset(g, p, s, i, m);
      }
    case _ =>
  }

  /** Without the flag `empty` a pattern fails at the end of the subject. */
  lemma {:induction false} FirstEmptySound(g: seq<Tree>, t: Tree, follow: Charset, n: nat, s: Subject, m: nat)
    requires !GetFirst(g, t, follow, n).empty
    ensures !Match(g, t, s, |s|, m).Succ?
    decreases m, t
  {
    match t
    case TChoice(p1, p2) =>
      FirstEmptySound(g, p1, follow, n, s, m);
      FirstEmptySound(g, p2, follow, n, s, m);
    case TSeq(p1, p2) =>
      if !Nullable(g, p1, n) {
        FirstEmptySound(g, p1, FullSet(), n, s, m);
      } else {
        var f2 := GetFirst(g, p2, follow, n);
        if !GetFirst(g, p1, f2.cs, n).empty {
          FirstEmptySound(g, p1, f2.cs, n, s, m);
        } else {
          FirstEmptySound(g, p2, follow, n, s, m);
        }
      }
    case TGrammar(rules) => FirstEmptySound(rules, rules[0], follow, n, s, m);
    case TCall(k) =>
      if m > 0 {
        FirstEmptySound(g, g[k], follow, n - 1, s, m - 1);
      }
    case TAnd(p) => FirstEmptySound(g, p, follow, n, s, m);
    case _ =>
  }

  /** A nofail pattern with nothing known after it can start with any character. */
  lemma {:induction false} NoFailFirst(g: seq<Tree>, t: Tree, n: nat)
    requires NoFail(g, t, n)
    ensures GetFirst(g, t, FullSet(), n).cs == FullSet()
    decreases n, t
  {
    match t
    case TAnd(p) => NoFailFirst(g, p, n);
    case TSeq(p1, p2) =>
      NoFailFirst(g, p1, n);
      NoFailFirst(g, p2, n);
    case TChoice(p1, p2) =>
      if NoFail(g, p2, n) {
        NoFailFirst(g, p2, n);
      } else {
        NoFailFirst(g, p1, n);
      }
    case TGrammar(rules) => NoFailFirst(rules, rules[0], n);
    case TCall(k) => NoFailFirst(g, g[k], n - 1);
    case _ =>
  }

  lemma {:induction false} HeadFailNotEmpty(g: seq<Tree>, t: Tree, follow: Charset, n: nat)
    requires HeadFail(g, t, n)
    ensures !GetFirst(g, t, follow, n).empty
    decreases n, t
  {
    match t
    case TAnd(p) => HeadFailNotEmpty(g, p, follow, n);
    case TSeq(p1, p2) =>
      HeadFailNotEmpty(g, p1, FullSet(), n);
      HeadFailNotEmpty(g, p1, GetFirst(g, p2, follow, n).cs, n);
    case TChoice(p1, p2) =>
      HeadFailNotEmpty(g, p1, follow, n);
      HeadFailNotEmpty(g, p2, follow, n);
    case TGrammar(rules) => HeadFailNotEmpty(rules, rules[0], follow, n);
    case TCall(k) => HeadFailNotEmpty(g, g[k], follow, n - 1);
    case _ =>
  }

  /** A headfail pattern does not fail on a character of its first set. */
  lemma {:induction false} HeadFailAccepts(g: seq<Tree>, t: Tree, n: nat, s: Subject, i: nat, m: nat)
    requires HeadFail(g, t, n)
    requires i < |s| && s[i] in GetFirst(g, t, FullSet(), n).cs
    ensures !Match(g, t, s, i, m).Fail?
    decreases m, t
  {
    match t
    case TAnd(p) => HeadFailAccepts(g, p, n, s, i, m);
    case TSeq(p1, p2) =>
      NoFailFirst(g, p2, n);
      HeadFailAccepts(g, p1, n, s, i, m);
      var r := Match(g, p1, s, i, m);
      if r.Succ? {
        NoFailSound(g, p2, n, s, r.pos, m);
      }
    case TChoice(p1, p2) =>
      if s[i] in GetFirst(g, p1, FullSet(), n).cs {
        HeadFailAccepts(g, p1, n, s, i, m);
      } else {
        HeadFailAccepts(g, p2, n, s, i, m);
      }
    case TGrammar(rules) => HeadFailAccepts(rules, rules[0], n, s, i, m);
    case TCall(k) =>
      if m > 0 {
        HeadFailAccepts(g, g[k], n - 1, s, i, m - 1);
      }
    case _ =>
  }

  /** The outcome of a headfail pattern, fail or not, is decided by the next character. */
  lemma HeadFailSound(g: seq<Tree>, t: Tree, n: nat, s: Subject, i: nat, m: nat)
    requires HeadFail(g, t, n) && i <= |s| && !Match(g, t, s, i, m).Unknown?
    ensures Match(g, t, s, i, m).Succ? <==> i < |s| && s[i] in GetFirst(g, t, FullSet(), n).cs
  {
    if i == |s| {
      HeadFailNotEmpty(g, t, FullSet(), n);
      FirstEmptySound(g, t, FullSet(), n, s, m);
    } else if s[i] in GetFirst(g, t, FullSet(), n).cs {
      HeadFailAccepts(g, t, n, s, i, m);
    } else {
      FirstSound(g, t, FullSet(), n, s, i, m);
    }
  }
}
