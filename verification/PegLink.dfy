/** When a piece of final code is the block generated for a pattern: slot by slot the same,
    except that calls of rules have been resolved by `correctcalls`. */
module PegLink {
  import opened Charset
  import opened Peg
  import opened PegVm
  import opened PegCode

  /** Following jumps from `i` reaches a return. */
  ghost predicate ReachesRet(code: Code, i: int) {
    exists k: nat :: IsRet(code, FinalTarget(code, i, k))
  }

  /** Slot `a` of the code carries the generated slot `x`; `rp` says where the rules are. */
  ghost predicate LinkSlot(code: Code, a: int, x: Instr, rp: seq<int>)
    requires 0 <= a < |code|
  {
    if x.IOpenCall? then
      x.key < |rp| ==>
        || code[a] == ICall(rp[x.key] - a)
        || (code[a] == IJmp(rp[x.key] - a) && ReachesRet(code, a + 2))
    else code[a] == x
  }

  ghost predicate Linked(code: Code, at: int, blk: Code, rp: seq<int>) {
    0 <= at && at + |blk| <= |code|
    && forall k {:trigger blk[k]} :: 0 <= k < |blk| ==> LinkSlot(code, at + k, blk[k], rp)
  }

  lemma LinkedSplit(code: Code, at: int, a: Code, b: Code, rp: seq<int>)
    requires Linked(code, at, a + b, rp)
    ensures Linked(code, at, a, rp) && Linked(code, at + |a|, b, rp)
  {
    forall k | 0 <= k < |a|
      ensures LinkSlot(code, at + k, a[k], rp)
    {
      assert (a + b)[k] == a[k];
    }
    forall k | 0 <= k < |b|
      ensures LinkSlot(code, at + |a| + k, b[k], rp)
    {
      assert (a + b)[|a| + k] == b[k];
      assert LinkSlot(code, at + (|a| + k), (a + b)[|a| + k], rp);
    }
  }

  lemma LinkedIns(code: Code, at: int, x: Instr, rp: seq<int>)
    requires Linked(code, at, Ins(x), rp) && !x.IOpenCall?
    ensures 0 <= at < |code| && code[at] == x
  {
    assert Ins(x)[0] == x;
  }

  lemma LinkedOne(code: Code, at: int, x: Instr, rp: seq<int>)
    requires Linked(code, at, [x], rp) && !x.IOpenCall?
    ensures 0 <= at < |code| && code[at] == x
  {
    assert [x][0] == x;
  }

  /** A program linked with its own text. */
  lemma LinkedSelf(code: Code, blk: Code, rest: Code)
    requires code == blk + rest
    ensures Linked(code, 0, blk, [])
  {
  }

  // ---- resolving calls -------------------------------------------------------------

  /** `b` was obtained from `a` by replacing open calls only. */
  ghost predicate OnlyCallsChanged(a: Code, b: Code) {
    |a| == |b| && forall k :: 0 <= k < |a| && !a[k].IOpenCall? ==> b[k] == a[k]
  }

  lemma {:induction false} FinalTargetStable(a: Code, b: Code, i: int, k: nat)
    requires OnlyCallsChanged(a, b) && IsRet(a, FinalTarget(a, i, k))
    ensures FinalTarget(b, i, k) == FinalTarget(a, i, k) && IsRet(b, FinalTarget(b, i, k))
    decreases k
  {
    if k > 0 && 0 <= i < |a| && a[i].IJmp? {
      FinalTargetStable(a, b, i + a[i].off, k - 1);
    } else {
      assert FinalTarget(a, i, k) == i;
      assert b[i] == a[i];
      assert FinalTarget(b, i, k) == i;
    }
  }

  lemma ReachesRetStable(a: Code, b: Code, i: int)
    requires OnlyCallsChanged(a, b) && ReachesRet(a, i)
    ensures ReachesRet(b, i)
  {
    var k: nat :| IsRet(a, FinalTarget(a, i, k));
    FinalTargetStable(a, b, i, k);
  }

  /** The slots below `i` of `a` are resolved in `b`; the others are those of `a`. */
  ghost predicate ResolvedBelow(a: Code, b: Code, positions: seq<int>, i: int) {
    OnlyCallsChanged(a, b)
    && (forall k :: 0 <= k < |a| && k < i ==> LinkSlot(b, k, a[k], positions))
    && (forall k :: 0 <= k < |a| && k >= i ==> b[k] == a[k])
  }

  lemma CorrectAtResolves(a: Code, b: Code, positions: seq<int>, i: nat)
    requires i < |a| && ResolvedBelow(a, b, positions, i)
    ensures ResolvedBelow(a, CorrectAt(b, positions, i), positions, i + 1)
  {
    var c := CorrectAt(b, positions, i);
    assert OnlyCallsChanged(b, c);
    forall k | 0 <= k < |a| && k < i + 1
      ensures LinkSlot(c, k, a[k], positions)
    {
      if k == i {
        if a[i].IOpenCall? && a[i].key < |positions| && c[i].IJmp? {
          assert IsRet(b, FinalTarget(b, i + 2, |b|));
          assert ReachesRet(b, i + 2);
          ReachesRetStable(b, c, i + 2);
        }
      } else if a[k].IOpenCall? && a[k].key < |positions| {
        assert LinkSlot(b, k, a[k], positions);
        assert c[k] == b[k];
        if ReachesRet(b, k + 2) {
          ReachesRetStable(b, c, k + 2);
        }
      }
    }
  }

  lemma {:induction false} CorrectFromResolves(a: Code, b: Code, positions: seq<int>, i: nat)
    requires ResolvedBelow(a, b, positions, i)
    ensures ResolvedBelow(a, CorrectFrom(b, positions, i), positions, |a|)
    decreases |a| - i
  {
    if i < |a| {
      CorrectAtResolves(a, b, positions, i);
      CorrectFromResolves(a, CorrectAt(b, positions, i), positions, i + 1);
    }
  }

  /** A jump chain that reaches a return inside a block does so in code holding the block. */
  lemma {:induction false} FinalTargetShift(code: Code, blk: Code, at: int, i: int, k: nat)
    requires 0 <= at && at + |blk| <= |code|
    requires forall j :: 0 <= j < |blk| && (blk[j].IJmp? || blk[j].IRet?) ==> code[at + j] == blk[j]
    requires IsRet(blk, FinalTarget(blk, i, k))
    ensures FinalTarget(code, at + i, k) == at + FinalTarget(blk, i, k)
    decreases k
  {
    if k > 0 && 0 <= i < |blk| && blk[i].IJmp? {
      assert code[at + i] == blk[i];
      FinalTargetShift(code, blk, at, i + blk[i].off, k - 1);
      assert at + i + blk[i].off == at + (i + blk[i].off);
    } else {
      assert FinalTarget(blk, i, k) == i;
      assert code[at + i] == blk[i];
    }
  }

  function Shift(at: int, positions: seq<int>): (r: seq<int>)
    ensures |r| == |positions|
  {
    seq(|positions|, k requires 0 <= k < |positions| => at + positions[k])
  }

  /** A resolved call stays resolved when the block is placed in the code. */
  lemma PlacedCall(code: Code, at: int, done: Code, k: nat, x: Instr, positions: seq<int>)
    requires 0 <= at && at + |done| <= |code| && k < |done|
    requires forall j :: 0 <= j < |done| && !done[j].IOpenCall? ==> code[at + j] == done[j]
    requires LinkSlot(done, k, x, positions)
    ensures LinkSlot(code, at + k, x, Shift(at, positions))
  {
    if x.IOpenCall? && x.key < |positions| {
      assert Shift(at, positions)[x.key] - (at + k) == positions[x.key] - k;
      assert code[at + k] == done[k];
      if done[k] != ICall(positions[x.key] - k) {
        var n: nat :| IsRet(done, FinalTarget(done, k + 2, n));
        FinalTargetShift(code, done, at, k + 2, n);
        assert at + (k + 2) == at + k + 2;
        assert IsRet(code, FinalTarget(code, at + k + 2, n));
      }
    }
  }

  /** Code that holds the resolved rules holds the generated rules, linked to where they
      are now. */
  lemma LinkedResolved(code: Code, at: int, body: Code, done: Code, positions: seq<int>, rp: seq<int>)
    requires ResolvedBelow(body, done, positions, |body|)
    requires Linked(code, at, done, rp)
    ensures Linked(code, at, body, Shift(at, positions))
  {
    forall j | 0 <= j < |done| && !done[j].IOpenCall?
      ensures code[at + j] == done[j]
    {
      assert LinkSlot(code, at + j, done[j], rp);
    }
    forall k | 0 <= k < |body|
      ensures LinkSlot(code, at + k, body[k], Shift(at, positions))
    {
      PlacedCall(code, at, done, k, body[k], positions);
    }
  }

  lemma {:induction false} FlattenSplit(blocks: seq<Code>, k: nat)
    requires k < |blocks|
    ensures Flatten(blocks) == Flatten(blocks[..k]) + (blocks[k] + Flatten(blocks[k + 1..]))
  {
    if k == 0 {
      assert blocks[..0] == [] && blocks[0 + 1..] == blocks[1..];
    } else {
      FlattenSplit(blocks[1..], k - 1);
      assert blocks[1..][..k - 1] == blocks[1..k];
      assert blocks[..k][1..] == blocks[1..k] && blocks[..k][0] == blocks[0];
      assert blocks[1..][k..] == blocks[k + 1..];
    }
  }

  lemma FlattenOneMore(blocks: seq<Code>, i: nat)
    requires i < |blocks|
    ensures Flatten(blocks[..i + 1]) == Flatten(blocks[..i]) + blocks[i]
  {
    FlattenSplit(blocks[..i + 1], i);
    assert blocks[..i + 1][..i] == blocks[..i] && blocks[..i + 1][i + 1..] == [];
  }

  lemma FirstOffset(blocks: seq<Code>)
    requires blocks != []
    ensures RuleOffsets(blocks)[0] == 0
  {
    assert blocks[..0] == [];
  }

  /** Every rule block sits at its offset. */
  lemma LinkedRule(code: Code, at: int, blocks: seq<Code>, k: nat, rp: seq<int>)
    requires k < |blocks| && Linked(code, at, Flatten(blocks), rp)
    ensures Linked(code, at + RuleOffset(blocks, k), blocks[k], rp)
  {
    hide Flatten, Linked;
    FlattenSplit(blocks, k);
    LinkedSplit(code, at, Flatten(blocks[..k]), blocks[k] + Flatten(blocks[k + 1..]), rp);
    LinkedSplit(code, at + RuleOffset(blocks, k), blocks[k], Flatten(blocks[k + 1..]), rp);
  }

  function RuleCode(rules: seq<Tree>, k: nat, n: nat): Code
    requires k < |rules|
  {
    Gen(rules, rules[k], false, NoTest, FullSet(), n) + [IRet]
  }

  /** All rules of `g` are in the code, each followed by a return. */
  ghost predicate RulesLinked(code: Code, g: seq<Tree>, rp: seq<int>, n: nat) {
    |rp| == |g|
    && forall k :: 0 <= k < |g| ==>
         WellFormed(g, g[k])
         && Linked(code, rp[k], RuleCode(g, k, n), rp)
  }

  lemma RulePlaced(code: Code, at: int, rules: seq<Tree>, n: nat, k: nat, rp: seq<int>)
    requires k < |rules| && rp == Shift(at, RuleOffsets(RuleBlocks(rules, n)))
    requires Linked(code, at, Flatten(RuleBlocks(rules, n)), rp)
    ensures Linked(code, rp[k], RuleCode(rules, k, n), rp)
  {
    hide Gen, Flatten, Linked, RuleOffset;
    LinkedRule(code, at, RuleBlocks(rules, n), k, rp);
  }

  lemma RulesPlaced(code: Code, at: int, rules: seq<Tree>, n: nat, rp: seq<int>)
    requires forall k :: 0 <= k < |rules| ==> WellFormed(rules, rules[k])
    requires rp == Shift(at, RuleOffsets(RuleBlocks(rules, n)))
    requires Linked(code, at, Flatten(RuleBlocks(rules, n)), rp)
    ensures RulesLinked(code, rules, rp, n)
  {
    hide RuleCode, Flatten, Linked, WellFormed, RuleOffset, RuleBlocks;
    forall k | 0 <= k < |rules|
      ensures Linked(code, rp[k], RuleCode(rules, k, n), rp)
    {
      RulePlaced(code, at, rules, n, k, rp);
    }
  }

  /** The block of a grammar: a call of the first rule, a jump to the end, and the rules. */
  lemma GrammarLinked(code: Code, at: int, rules: seq<Tree>, n: nat, rp: seq<int>) returns (rp': seq<int>)
    requires WellFormed([], TGrammar(rules))
    requires Linked(code, at, GrammarCode(RuleBlocks(rules, n)), rp)
    ensures 0 <= at && at + 2 < |code| && code[at] == ICall(4)
    ensures code[at + 2] == IJmp(|GrammarCode(RuleBlocks(rules, n))| - 2)
    ensures RulesLinked(code, rules, rp', n) && rp'[0] == at + 4
    ensures rp' == Shift(at + 4, RuleOffsets(RuleBlocks(rules, n)))
  {
    hide Gen, Flatten, CorrectFrom;
    var blocks := RuleBlocks(rules, n);
    var body := Flatten(blocks);
    var positions := RuleOffsets(blocks);
    var done := CorrectFrom(body, positions, 0);
    LinkedSplit(code, at, Ins(ICall(4)), Ins(IJmp(2 + |body|)) + done, rp);
    LinkedIns(code, at, ICall(4), rp);
    LinkedSplit(code, at + 2, Ins(IJmp(2 + |body|)), done, rp);
    LinkedIns(code, at + 2, IJmp(2 + |body|), rp);
    CorrectFromResolves(body, body, positions, 0);
    LinkedResolved(code, at + 4, body, done, positions, rp);
    rp' := Shift(at + 4, positions);
    RulesPlaced(code, at + 4, rules, n, rp');
    FirstOffset(blocks);
  }
}
