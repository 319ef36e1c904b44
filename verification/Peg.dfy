/** Pattern trees of LPeg (skynet/3rd/lpeg/lptree.h) and their meaning.

    The meaning is a big-step function on subject positions. Grammars may recurse and loops
    may run on, so it takes a budget `m`, spent by calls of a rule and by rounds of a
    repetition; `Unknown` says that the budget ran out. An answer found within one budget is
    the answer for every larger one (`MatchMonotone`). */
module Peg {
  import opened Charset

  type Subject = seq<Byte>

  /** `TTree`, without captures: `TCall` and `TBehind` carry the rule number and the length
      that the source keeps in `u`. */
  datatype Tree =
    | TChar(c: Byte)
    | TSet(cs: Charset)
    | TAny
    | TTrue
    | TFalse
    | TRep(body: Tree)
    | TSeq(p1: Tree, p2: Tree)
    | TChoice(p1: Tree, p2: Tree)
    | TNot(body: Tree)
    | TAnd(body: Tree)
    | TCall(rule: nat)
    | TGrammar(rules: seq<Tree>)
    | TBehind(n: nat, body: Tree)

  datatype Result = Fail | Succ(pos: nat) | Unknown

  /** `tocharset`: patterns that match exactly one character out of a set. */
  predicate IsCharset(t: Tree) {
    t.TChar? || t.TSet? || t.TAny?
  }

  function CharsetOf(t: Tree): Charset
    requires IsCharset(t)
  {
    match t
    case TChar(c) => {c}
    case TSet(cs) => cs
    case TAny => FullSet()
  }

  /** The meaning of pattern `t` inside grammar `g` on subject `s` from position `i`. */
  function Match(g: seq<Tree>, t: Tree, s: Subject, i: nat, m: nat): (r: Result)
    requires i <= |s|
    ensures r.Succ? ==> i <= r.pos <= |s|
    decreases m, t
  {
    match t
    case TChar(c) => if i < |s| && s[i] == c then Succ(i + 1) else Fail
    case TSet(cs) => if i < |s| && s[i] in cs then Succ(i + 1) else Fail
    case TAny => if i < |s| then Succ(i + 1) else Fail
    case TTrue => Succ(i)
    case TFalse => Fail
    case TRep(p) =>
      var r := Match(g, p, s, i, m);
      if r.Fail? then Succ(i)
      else if r.Unknown? || m == 0 then Unknown
      else Match(g, t, s, r.pos, m - 1)
    case TSeq(p1, p2) =>
      var r := Match(g, p1, s, i, m);
      if r.Succ? then Match(g, p2, s, r.pos, m) else r
    case TChoice(p1, p2) =>
      var r := Match(g, p1, s, i, m);
      if r.Fail? then Match(g, p2, s, i, m) else r
    case TNot(p) =>
      var r := Match(g, p, s, i, m);
      if r.Fail? then Succ(i) else if r.Succ? then Fail else Unknown
    case TAnd(p) =>
      var r := Match(g, p, s, i, m);
      if r.Succ? then Succ(i) else r
    case TCall(k) =>
      if k >= |g| then Fail
      else if m == 0 then Unknown
      else Match(g, g[k], s, i, m - 1)
    case TGrammar(rules) =>
      if rules == [] then Fail else Match(rules, rules[0], s, i, m)
    case TBehind(n, p) =>
      if n > i then Fail
      else
        var r := Match(g, p, s, i - n, m);
        if r.Succ? then Succ(i) else r
  }

  /** A pattern that stands for a set of characters matches exactly one of them. */
  lemma MatchCharset(g: seq<Tree>, t: Tree, s: Subject, i: nat, m: nat)
    requires i <= |s| && IsCharset(t)
    ensures Match(g, t, s, i, m) == if i < |s| && s[i] in CharsetOf(t) then Succ(i + 1) else Fail
  {
  }

  /** More budget never changes an answer. */
  lemma {:induction false} MatchMonotone(g: seq<Tree>, t: Tree, s: Subject, i: nat, m: nat, k: nat)
    requires i <= |s| && m <= k
    requires !Match(g, t, s, i, m).Unknown?
    ensures Match(g, t, s, i, k) == Match(g, t, s, i, m)
    decreases m, t
  {
    match t
    case TRep(p) =>
      MatchMonotone(g, p, s, i, m, k);
      var r := Match(g, p, s, i, m);
      if r.Succ? {
        MatchMonotone(g, t, s, r.pos, m - 1, k - 1);
      }
    case TSeq(p1, p2) =>
      MatchMonotone(g, p1, s, i, m, k);
      var r := Match(g, p1, s, i, m);
      if r.Succ? {
        MatchMonotone(g, p2, s, r.pos, m, k);
      }
    case TChoice(p1, p2) =>
      MatchMonotone(g, p1, s, i, m, k);
      if Match(g, p1, s, i, m).Fail? {
        MatchMonotone(g, p2, s, i, m, k);
      }
    case TNot(p) =>
      MatchMonotone(g, p, s, i, m, k);
    case TAnd(p) =>
      MatchMonotone(g, p, s, i, m, k);
    case TCall(r) =>
      if r < |g| {
        MatchMonotone(g, g[r], s, i, m - 1, k - 1);
      }
    case TGrammar(rules) =>
      if rules != [] {
        MatchMonotone(rules, rules[0], s, i, m, k);
      }
    case TBehind(n, p) =>
      if n <= i {
        MatchMonotone(g, p, s, i - n, m, k);
      }
    case _ =>
  }

  /** The meaning without a budget: `t` matches from `i` up to `j`, or fails at `i`. */
  ghost predicate Matches(g: seq<Tree>, t: Tree, s: Subject, i: nat, j: nat)
    requires i <= |s|
  {
    exists m: nat :: Match(g, t, s, i, m) == Succ(j)
  }

  ghost predicate Fails(g: seq<Tree>, t: Tree, s: Subject, i: nat)
    requires i <= |s|
  {
    exists m: nat :: Match(g, t, s, i, m) == Fail
  }

  /** A pattern has at most one outcome. */
  lemma OutcomeUnique(g: seq<Tree>, t: Tree, s: Subject, i: nat, m1: nat, m2: nat)
    requires i <= |s|
    requires !Match(g, t, s, i, m1).Unknown? && !Match(g, t, s, i, m2).Unknown?
    ensures Match(g, t, s, i, m1) == Match(g, t, s, i, m2)
  {
    var k := if m1 < m2 then m2 else m1;
    MatchMonotone(g, t, s, i, m1, k);
    MatchMonotone(g, t, s, i, m2, k);
  }
}
