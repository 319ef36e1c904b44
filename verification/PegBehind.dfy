/** Look-behinds, as `lp_behind` of skynet/3rd/lpeg/lptree.c builds them, and what `fixedlen` and
    `nullable` say exactly. */
module PegBehind {
  import opened Peg
  import opened PegAnalysis
  import opened PegGrammar

  const MAXBEHIND := 0xff

  datatype Behind = BehindTree(t: Tree) | NoFixedLength | TooLong

  /** `lp_behind`, for a pattern without captures; `fixedlen` gives up at calls that are open. */
  function LpBehind(p: Tree): Behind {
    var n := FixedLen([], p);
    if n < 0 then NoFixedLength else if n > MAXBEHIND then TooLong else BehindTree(TBehind(n, p))
  }

  // ---- the lengths of a pattern -----------------------------------------------------

  /** Whether `k` is a length of a pattern that is read without looking at what can match: a loop
      has every length, each alternative counts, and what takes nothing has length 0. Calls nested
      deeper than the source follows them have every length too. */
  ghost predicate HasLength(g: seq<Tree>, t: Tree, k: nat, count: nat)
    requires count <= MAXRULES
    decreases MAXRULES - count, t
  {
    match t
    case TChar(_) => k == 1
    case TSet(_) => k == 1
    case TAny => k == 1
    case TRep(_) => true
    case TGrammar(rules) => rules == [] || HasLength(rules, rules[0], k, count)
    case TCall(r) => count == MAXRULES || r >= |g| || HasLength(g, g[r], k, count + 1)
    case TSeq(p1, p2) => exists a: nat :: a <= k && HasLength(g, p1, a, count) && HasLength(g, p2, k - a, count)
    case TChoice(p1, p2) => HasLength(g, p1, k, count) || HasLength(g, p2, k, count)
    case _ => k == 0
  }

  ghost predicate OnlyLength(g: seq<Tree>, t: Tree, n: nat, count: nat)
    requires count <= MAXRULES
  {
    forall k: nat :: HasLength(g, t, k, count) <==> k == n
  }

  ghost predicate TwoLengths(g: seq<Tree>, t: Tree, a: nat, b: nat, count: nat)
    requires count <= MAXRULES
  {
    a != b && HasLength(g, t, a, count) && HasLength(g, t, b, count)
  }

  /** `fixedlenx` finds the length if there is one only, and otherwise finds that there are more. */
  lemma {:induction false} LengthsFound(g: seq<Tree>, t: Tree, count: nat, len: nat) returns (a: nat, b: nat)
    requires count <= MAXRULES
    ensures var n := FixedLenX(g, t, count, len);
      if n < 0 then TwoLengths(g, t, a, b, count) else n >= len && OnlyLength(g, t, n - len, count)
    decreases MAXRULES - count, t
  {
    a, b := 0, 1;
    match t
    case TSeq(p1, p2) => a, b := SequenceLengths(g, p1, p2, count, len);
    case TChoice(p1, p2) => a, b := ChoiceLengths(g, p1, p2, count, len);
    case TGrammar(rules) =>
      if rules != [] {
        a, b := LengthsFound(rules, rules[0], count, len);
        assert FixedLenX(g, t, count, len) >= 0 ==> OnlyLength(g, t, FixedLenX(g, t, count, len) - len, count);
      }
    case TCall(r) =>
      if count < MAXRULES && r < |g| {
        a, b := LengthsFound(g, g[r], count + 1, len);
        assert FixedLenX(g, t, count, len) >= 0 ==> OnlyLength(g, t, FixedLenX(g, t, count, len) - len, count);
      }
    case _ =>
  }

  lemma {:induction false} SequenceLengths(g: seq<Tree>, p1: Tree, p2: Tree, count: nat, len: nat) returns (a: nat, b: nat)
    requires count <= MAXRULES
    ensures var t := TSeq(p1, p2); var n := FixedLenX(g, t, count, len);
      if n < 0 then TwoLengths(g, t, a, b, count) else n >= len && OnlyLength(g, t, n - len, count)
    decreases MAXRULES - count, TSeq(p1, p2), 0
  {
    var len1 := FixedLenX(g, p1, count, len);
    var a1, b1 := LengthsFound(g, p1, count, len);
    if len1 < 0 {
      var a2, b2 := LengthsFound(g, p2, count, 0);
      var n2 := FixedLenX(g, p2, count, 0);
      var k: nat := if n2 < 0 then a2 else n2;
      assert HasLength(g, p2, k, count);
      a, b := a1 + k, b1 + k;
      assert HasLength(g, TSeq(p1, p2), a, count) && HasLength(g, TSeq(p1, p2), b, count);
    } else {
      a, b := LengthsFound(g, p2, count, len1);
      assert HasLength(g, p1, len1 - len, count);
      if FixedLenX(g, p2, count, len1) < 0 {
        a, b := a + (len1 - len), b + (len1 - len);
        assert HasLength(g, TSeq(p1, p2), a, count) && HasLength(g, TSeq(p1, p2), b, count);
      }
    }
  }

  lemma {:induction false} ChoiceLengths(g: seq<Tree>, p1: Tree, p2: Tree, count: nat, len: nat) returns (a: nat, b: nat)
    requires count <= MAXRULES
    ensures var t := TChoice(p1, p2); var n := FixedLenX(g, t, count, len);
      if n < 0 then TwoLengths(g, t, a, b, count) else n >= len && OnlyLength(g, t, n - len, count)
    decreases MAXRULES - count, TChoice(p1, p2), 0
  {
    var n1, n2 := FixedLenX(g, p1, count, len), FixedLenX(g, p2, count, len);
    a, b := LengthsFound(g, p1, count, len);
    if n1 >= 0 {
      var a2, b2 := LengthsFound(g, p2, count, len);
      assert HasLength(g, p1, n1 - len, count);
      if n2 < 0 {
        a, b := a2, b2;
      } else {
        assert HasLength(g, p2, n2 - len, count);
        a, b := n1 - len, n2 - len;
      }
    }
  }

  /** The length of every match is one of the lengths. */
  lemma {:induction false} MatchHasLength(g: seq<Tree>, t: Tree, s: Subject, i: nat, m: nat, count: nat)
    requires i <= |s| && count <= MAXRULES && Match(g, t, s, i, m).Succ?
    ensures HasLength(g, t, Match(g, t, s, i, m).pos - i, count)
    decreases m, t
  {
    match t
    case TSeq(p1, p2) =>
      var r := Match(g, p1, s, i, m);
      MatchHasLength(g, p1, s, i, m, count);
      MatchHasLength(g, p2, s, r.pos, m, count);
      assert HasLength(g, p1, r.pos - i, count);
    case TChoice(p1, p2) =>
      if Match(g, p1, s, i, m).Fail? {
        MatchHasLength(g, p2, s, i, m, count);
      } else {
        MatchHasLength(g, p1, s, i, m, count);
      }
    case TGrammar(rules) => MatchHasLength(rules, rules[0], s, i, m, count);
    case TCall(r) =>
      if count < MAXRULES {
        MatchHasLength(g, g[r], s, i, m - 1, count + 1);
      }
    case _ =>
  }

  /** What has a fixed length while calls are open has it in every grammar. */
  lemma {:induction false} FixedLenOpen(g: seq<Tree>, t: Tree, count: nat, len: nat)
    requires count <= MAXRULES && FixedLenX([], t, count, len) >= 0
    ensures FixedLenX(g, t, count, len) == FixedLenX([], t, count, len)
    decreases t
  {
    match t
    case TSeq(p1, p2) =>
      FixedLenOpen(g, p1, count, len);
      FixedLenOpen(g, p2, count, FixedLenX([], p1, count, len));
    case TChoice(p1, p2) =>
      FixedLenOpen(g, p1, count, len);
      FixedLenOpen(g, p2, count, len);
    case _ =>
  }

  /** A pattern is refused if and only if it has more than one length, or a length beyond the limit. */
  lemma BehindRefused(p: Tree)
    ensures LpBehind(p).NoFixedLength? <==> exists a: nat, b: nat :: TwoLengths([], p, a, b, 0)
    ensures LpBehind(p).TooLong? <==> exists n: nat :: n > 255 && OnlyLength([], p, n, 0)
  {
    var n := FixedLen([], p);
    var a, b := LengthsFound([], p, 0, 0);
    if n < 0 {
      assert TwoLengths([], p, a, b, 0);
    } else {
      assert OnlyLength([], p, n, 0) && HasLength([], p, n, 0);
    }
  }

  /** A look-behind matches if and only if its pattern matches some text that ends here; it takes
      nothing. */
  lemma LpBehindMeaning(g: seq<Tree>, p: Tree, s: Subject, i: nat, j: nat)
    requires LpBehind(p).BehindTree? && i <= |s|
    ensures Matches(g, LpBehind(p).t, s, i, j) <==> j == i && exists k: nat :: k <= i && Matches(g, p, s, k, i)
  {
    var n: nat := FixedLen([], p);
    var t := TBehind(n, p);
    FixedLenOpen(g, p, 0, 0);
    if Matches(g, t, s, i, j) {
      var m: nat :| Match(g, t, s, i, m) == Succ(j);
      FixedLenSound(g, p, 0, 0, s, i - n, m);
      assert Matches(g, p, s, i - n, i);
    }
    if k: nat :| k <= i && Matches(g, p, s, k, i) {
      var m: nat :| Match(g, p, s, k, m) == Succ(i);
      FixedLenSound(g, p, 0, 0, s, k, m);
      assert Match(g, t, s, i, m) == Succ(i);
    }
  }

  // ---- nullable ---------------------------------------------------------------------

  /** Patterns without predicates, calls and grammars. */
  predicate Plain(t: Tree) {
    match t
    case TRep(p) => Plain(p)
    case TSeq(p1, p2) => Plain(p1) && Plain(p2)
    case TChoice(p1, p2) => Plain(p1) && Plain(p2)
    case TNot(_) => false
    case TAnd(_) => false
    case TCall(_) => false
    case TGrammar(_) => false
    case TBehind(_, _) => false
    case _ => true
  }

  /** For patterns without predicates `nullable` and `nofail` are the same, and they tell exactly
      whether the pattern matches where no character is left. */
  lemma {:induction false} NullableExact(g: seq<Tree>, t: Tree, n: nat, s: Subject, m: nat)
    requires Plain(t) && !CheckLoops(g, t, n)
    ensures NoFail(g, t, n) <==> Nullable(g, t, n)
    ensures Match(g, t, s, |s|, m) == if Nullable(g, t, n) then Succ(|s|) else Fail
    decreases t
  {
    match t
    case TRep(p) => NullableExact(g, p, n, s, m);
    case TSeq(p1, p2) =>
      NullableExact(g, p1, n, s, m);
      NullableExact(g, p2, n, s, m);
    case TChoice(p1, p2) =>
      NullableExact(g, p1, n, s, m);
      NullableExact(g, p2, n, s, m);
    case _ =>
  }
}
