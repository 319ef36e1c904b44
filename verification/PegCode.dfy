/** The code that `codegen` of skynet/3rd/lpeg/lpcode.c emits for a pattern, as a function.

    Offsets are relative, so a block of code does not depend on where it lands. PegCompiler.dfy
    has the methods that append and patch instructions one by one. */
module PegCode {
  import opened Charset
  import opened Peg
  import opened PegAnalysis
  import opened PegVm

  const MAXBEHIND := 255

  /** `codecall` takes the rule number from a field of one byte. */
  const RULENUMBERS := 256

  function Pads(k: nat): (r: Code)
    ensures |r| == k
  {
    seq(k, _ => Pad)
  }

  /** An instruction with the slots of its operands. */
  function Ins(x: Instr): (r: Code)
    ensures |r| == SizeI(x) && r[0] == x
  {
    [x] + Pads(SizeI(x) - 1)
  }

  /** What is known about the test instruction at `tt` that protects a block. */
  datatype Test = NoTest | TestAny | TestChar(c: Byte) | TestSet(cs: Charset) | TestNever

  predicate TestHolds(tt: Test, s: Subject, i: nat) {
    match tt
    case NoTest => true
    case TestAny => i < |s|
    case TestChar(c) => i < |s| && s[i] == c
    case TestSet(cs) => At(s, i, cs)
    case TestNever => false
  }

  /** `codetestset`: the instruction, and what it tells a block behind it. */
  function TestInstr(cs: Charset, off: int): (x: Instr)
    ensures SizeI(x) == TestSize(cs)
  {
    match KindOf(cs)
    case EmptySet => IJmp(off)
    case Full => ITestAny(off)
    case Singleton(c) => ITestChar(c, off)
    case General => ITestSet(cs, off)
  }

  function TestSize(cs: Charset): nat {
    if KindOf(cs).General? then CHARSETINSTSIZE + 1 else 2
  }

  function TestOf(cs: Charset): Test {
    match KindOf(cs)
    case EmptySet => TestNever
    case Full => TestAny
    case Singleton(c) => TestChar(c)
    case General => TestSet(cs)
  }

  /** `codetestset` with its flag: no test when the pattern may match the empty string. */
  function OptTest(f: First, off: int): (r: Code)
    ensures |r| == OptTestSize(f)
  {
    if f.empty then [] else Ins(TestInstr(f.cs, off))
  }

  function OptTestSize(f: First): nat {
    if f.empty then 0 else TestSize(f.cs)
  }

  function CodeChar(c: Byte, tt: Test): Code {
    if tt == TestChar(c) then [IAny] else [IChar(c)]
  }

  function CodeCharset(cs: Charset, tt: Test): Code {
    match KindOf(cs)
    case Singleton(c) => CodeChar(c, tt)
    case General => if tt == TestSet(cs) then [IAny] else Ins(ISet(cs))
    case EmptySet => [IFail]
    case Full => [IAny]
  }

  /** A choice that a test decides: when it fails, the second pattern is tried; the first one jumps
      over the second. */
  function TestChoice(cs: Charset, c1: Code, emptyp2: bool, c2: Code): Code {
    var jmp := if emptyp2 then [] else Ins(IJmp(2 + |c2|));
    Ins(TestInstr(cs, TestSize(cs) + |c1| + |jmp|)) + (c1 + (jmp + c2))
  }

  /** A choice with an entry on the stack for the second pattern, which the first one commits; a
      test may skip both. */
  function FullChoice(f: First, c1: Code, c2: Code): Code {
    OptTest(f, OptTestSize(f) + 2 + |c1| + 2)
    + (Ins(IChoice(2 + |c1| + 2)) + (c1 + (Ins(ICommit(2 + |c2|)) + c2)))
  }

  /** A loop that a test ends: the jump behind the body leads back to it. */
  function TestRep(cs: Charset, c: Code): Code {
    Ins(TestInstr(cs, TestSize(cs) + |c| + 2)) + (c + Ins(IJmp(-(TestSize(cs) + |c|))))
  }

  /** A loop with an entry on the stack for its end, which every round commits partially and goes
      back to the body. Inside an option the entry is there already. */
  function FullRep(f: First, opt: bool, c: Code): Code {
    OptTest(f, OptTestSize(f) + 2 + |c| + 2)
    + (Ins(if opt then IPartialCommit(2) else IChoice(2 + |c| + 2)) + (c + Ins(IPartialCommit(-|c|))))
  }

  /** A predicate that a test decides: it fails where the test succeeds. */
  function TestNot(f: First): Code {
    OptTest(f, OptTestSize(f) + 1) + [IFail]
  }

  /** A predicate with an entry on the stack for its end, which is dropped when the body matches. */
  function FullNot(f: First, c: Code): Code {
    OptTest(f, OptTestSize(f) + 2 + |c| + 1) + (Ins(IChoice(2 + |c| + 1)) + (c + [IFailTwice]))
  }

  /** A body of fixed length, and the way back over it. */
  function FixedAnd(len: nat, c: Code): Code {
    c + (if len > 0 then [IBehind(len)] else [])
  }

  /** A body with an entry on the stack that holds the position to go back to; when the body fails,
      so does the instruction behind it. */
  function FullAnd(c: Code): Code {
    Ins(IChoice(2 + |c| + 2)) + (c + (Ins(IBackCommit(3)) + [IFail]))
  }

  function BehindCode(n: nat, c: Code): Code {
    (if n > 0 then [IBehind(n)] else []) + c
  }

  /** The jumps followed by `finaltarget`, at most `k` of them. */
  function FinalTarget(code: Code, i: int, k: nat): int
    decreases k
  {
    if k > 0 && 0 <= i < |code| && code[i].IJmp? then FinalTarget(code, i + code[i].off, k - 1) else i
  }

  predicate IsRet(code: Code, i: int) {
    0 <= i < |code| && code[i].IRet?
  }

  /** The call at `i` of a rule becomes a jump when a return follows it, else a call. */
  function CorrectAt(code: Code, positions: seq<int>, i: nat): (r: Code)
    requires i < |code|
    ensures |r| == |code|
  {
    if code[i].IOpenCall? && code[i].key < |positions| then
      var off := positions[code[i].key] - i;
      code[i := if IsRet(code, FinalTarget(code, i + 2, |code|)) then IJmp(off) else ICall(off)]
    else code
  }

  /** `correctcalls` from slot `i` on. */
  function CorrectFrom(code: Code, positions: seq<int>, i: nat): (r: Code)
    ensures |r| == |code|
    decreases |code| - i
  {
    if i >= |code| then code else CorrectFrom(CorrectAt(code, positions, i), positions, i + 1)
  }

  function Flatten(blocks: seq<Code>): Code {
    if blocks == [] then [] else blocks[0] + Flatten(blocks[1..])
  }

  /** Where the block of rule `k` starts in the code of all rules. */
  function RuleOffset(blocks: seq<Code>, k: nat): nat
    requires k <= |blocks|
  {
    |Flatten(blocks[..k])|
  }

  function RuleOffsets(blocks: seq<Code>): (r: seq<int>)
    ensures |r| == |blocks|
  {
    seq(|blocks|, k requires 0 <= k < |blocks| => RuleOffset(blocks, k))
  }

  /** A call of the first rule, a jump to the end, and the rules, each with its return. */
  function GrammarCode(blocks: seq<Code>): Code {
    var body := Flatten(blocks);
    Ins(ICall(4)) + (Ins(IJmp(2 + |body|)) + CorrectFrom(body, RuleOffsets(blocks), 0))
  }

  /** `codegen`: `opt` says that the code ends an optional pattern whose choice is on top of
      the stack, `tt` what a test before the code has established, `fl` the first set of
      what follows, `n` the budget of the analyses. */
  function Gen(g: seq<Tree>, t: Tree, opt: bool, tt: Test, fl: Charset, n: nat): Code
    decreases t
  {
    match t
    case TChar(c) => CodeChar(c, tt)
    case TAny => [IAny]
    case TSet(cs) => CodeCharset(cs, tt)
    case TTrue => []
    case TFalse => [IFail]
    case TChoice(p1, p2) =>
      var f1 := GetFirst(g, p1, FullSet(), n);
      var c2 := Gen(g, p2, opt, NoTest, fl, n);
      if HeadFail(g, p1, n) || (!f1.empty && f1.cs !! GetFirst(g, p2, fl, n).cs) then
        TestChoice(f1.cs, Gen(g, p1, false, TestOf(f1.cs), fl, n), p2.TTrue?, c2)
      else if opt && p2.TTrue? then
        Ins(IPartialCommit(2)) + Gen(g, p1, true, NoTest, FullSet(), n)
      else
        FullChoice(f1, Gen(g, p1, p2.TTrue?, if f1.empty then NoTest else TestOf(f1.cs), FullSet(), n), c2)
    case TRep(p) =>
      if IsCharset(p) then Ins(ISpan(CharsetOf(p)))
      else
        var f := GetFirst(g, p, FullSet(), n);
        if HeadFail(g, p, n) || (!f.empty && f.cs !! fl) then
          TestRep(f.cs, Gen(g, p, false, TestOf(f.cs), FullSet(), n))
        else FullRep(f, opt, Gen(g, p, false, NoTest, FullSet(), n))
    case TBehind(k, p) => BehindCode(k, Gen(g, p, false, NoTest, FullSet(), n))
    case TNot(p) =>
      var f := GetFirst(g, p, FullSet(), n);
      if HeadFail(g, p, n) then TestNot(f) else FullNot(f, Gen(g, p, false, NoTest, FullSet(), n))
    case TAnd(p) =>
      var len := FixedLen(g, p);
      var c := Gen(g, p, false, tt, FullSet(), n);
      if 0 <= len <= MAXBEHIND then FixedAnd(len, c) else FullAnd(c)
    case TGrammar(rules) =>
      GrammarCode(seq(|rules|, k requires 0 <= k < |rules| =>
        Gen(rules, rules[k], false, NoTest, FullSet(), n) + [IRet]))
    case TCall(k) => Ins(IOpenCall(k % RULENUMBERS, 0))
    case TSeq(p1, p2) =>
      Gen(g, p1, false, tt, FollowOf(g, p1, p2, fl, n), n)
      + Gen(g, p2, opt, if FixedLen(g, p1) != 0 then NoTest else tt, fl, n)
  }

  /** `codeseq1`: the follow set for the first half of a sequence. */
  function FollowOf(g: seq<Tree>, p1: Tree, p2: Tree, fl: Charset, n: nat): Charset {
    if NeedFollow(p1) then GetFirst(g, p2, fl, n).cs else FullSet()
  }

  /** The blocks of the rules of a grammar. */
  function RuleBlocks(rules: seq<Tree>, n: nat): (r: seq<Code>)
    ensures |r| == |rules|
  {
    seq(|rules|, k requires 0 <= k < |rules| => Gen(rules, rules[k], false, NoTest, FullSet(), n) + [IRet])
  }

  /** What the tree builders and `fixonecall` guarantee: calls name rules of their grammar,
      and a look-behind has the fixed length of its body. Rule numbers must fit the byte
      that `codecall` reads. */
  predicate WellFormed(g: seq<Tree>, t: Tree)
    decreases t
  {
    match t
    case TCall(k) => k < |g| && k < RULENUMBERS
    case TGrammar(rules) =>
      rules != [] && forall k :: 0 <= k < |rules| ==> WellFormed(rules, rules[k])
    case TBehind(k, p) => WellFormed(g, p) && FixedLen(g, p) == k && k <= MAXBEHIND
    case TRep(p) => WellFormed(g, p)
    case TNot(p) => WellFormed(g, p)
    case TAnd(p) => WellFormed(g, p)
    case TSeq(p1, p2) => WellFormed(g, p1) && WellFormed(g, p2)
    case TChoice(p1, p2) => WellFormed(g, p1) && WellFormed(g, p2)
    case _ => true
  }

  // ---- the code of each kind of pattern, unfolded once -------------------------------

  lemma GenChoice(g: seq<Tree>, p1: Tree, p2: Tree, opt: bool, tt: Test, fl: Charset, n: nat)
    ensures var f1 := GetFirst(g, p1, FullSet(), n);
            var c2 := Gen(g, p2, opt, NoTest, fl, n);
            Gen(g, TChoice(p1, p2), opt, tt, fl, n)
            == if HeadFail(g, p1, n) || (!f1.empty && f1.cs !! GetFirst(g, p2, fl, n).cs) then
                 TestChoice(f1.cs, Gen(g, p1, false, TestOf(f1.cs), fl, n), p2.TTrue?, c2)
               else if opt && p2.TTrue? then
                 Ins(IPartialCommit(2)) + Gen(g, p1, true, NoTest, FullSet(), n)
               else
                 FullChoice(f1, Gen(g, p1, p2.TTrue?, if f1.empty then NoTest else TestOf(f1.cs), FullSet(), n), c2)
    ensures Gen(g, TTrue, opt, tt, fl, n) == []
  {
    hide GetFirst, HeadFail, CheckAux, FixedLenX;
  }

  lemma GenRep(g: seq<Tree>, p: Tree, opt: bool, tt: Test, fl: Charset, n: nat)
    ensures var f := GetFirst(g, p, FullSet(), n);
            Gen(g, TRep(p), opt, tt, fl, n)
            == if IsCharset(p) then Ins(ISpan(CharsetOf(p)))
               else if HeadFail(g, p, n) || (!f.empty && f.cs !! fl) then
                 TestRep(f.cs, Gen(g, p, false, TestOf(f.cs), FullSet(), n))
               else FullRep(f, opt, Gen(g, p, false, NoTest, FullSet(), n))
  {
    hide GetFirst, HeadFail, CheckAux, FixedLenX;
  }

  lemma GenNot(g: seq<Tree>, p: Tree, opt: bool, tt: Test, fl: Charset, n: nat)
    ensures var f := GetFirst(g, p, FullSet(), n);
            Gen(g, TNot(p), opt, tt, fl, n)
            == if HeadFail(g, p, n) then TestNot(f) else FullNot(f, Gen(g, p, false, NoTest, FullSet(), n))
  {
    hide GetFirst, HeadFail, CheckAux, FixedLenX;
  }

  lemma GenAnd(g: seq<Tree>, p: Tree, opt: bool, tt: Test, fl: Charset, n: nat)
    ensures var c := Gen(g, p, false, tt, FullSet(), n);
            Gen(g, TAnd(p), opt, tt, fl, n)
            == if 0 <= FixedLen(g, p) <= MAXBEHIND then FixedAnd(FixedLen(g, p), c) else FullAnd(c)
  {
    hide GetFirst, HeadFail, CheckAux, FixedLenX;
  }

  lemma GenBehind(g: seq<Tree>, k: nat, p: Tree, opt: bool, tt: Test, fl: Charset, n: nat)
    ensures Gen(g, TBehind(k, p), opt, tt, fl, n) == BehindCode(k, Gen(g, p, false, NoTest, FullSet(), n))
  {
    hide GetFirst, HeadFail, CheckAux, FixedLenX;
  }

  lemma GenSeq(g: seq<Tree>, p1: Tree, p2: Tree, opt: bool, tt: Test, fl: Charset, n: nat)
    ensures Gen(g, TSeq(p1, p2), opt, tt, fl, n)
         == Gen(g, p1, false, tt, FollowOf(g, p1, p2, fl, n), n)
            + Gen(g, p2, opt, if FixedLen(g, p1) != 0 then NoTest else tt, fl, n)
  {
    hide GetFirst, HeadFail, CheckAux, FixedLenX;
  }

  lemma GenGrammar(g: seq<Tree>, rules: seq<Tree>, opt: bool, tt: Test, fl: Charset, n: nat)
    ensures Gen(g, TGrammar(rules), opt, tt, fl, n) == GrammarCode(RuleBlocks(rules, n))
  {
    hide GetFirst, HeadFail, CheckAux, FixedLenX, GrammarCode;
  }
}
