/** Trees as skynet/3rd/lpeg/lptree.c keeps them: an array of nodes in prefix order, where a
    node with two children holds the distance to the second one. The methods edit that array
    in place; what they do to the pattern is stated through `Layout`. */
module PegTree {
  import opened Charset
  import opened Peg

  datatype Kind =
    | KChar(c: Byte) | KSet(cs: Charset) | KAny | KTrue | KFalse | KRep | KSeq | KChoice
    | KNot | KAnd | KCall(rule: nat) | KRule | KGrammar(n: nat) | KBehind(n: nat)

  /** `TTree`: the tag with its operand, and `u.ps`. */
  datatype Node = Node(kind: Kind, ps: nat)

  /** The nodes of a pattern. */
  function Layout(t: Tree): (r: seq<Node>)
    ensures |r| >= 1
    decreases t, 1
  {
    match t
    case TChar(c) => [Node(KChar(c), 0)]
    case TSet(cs) => [Node(KSet(cs), 0)]
    case TAny => [Node(KAny, 0)]
    case TTrue => [Node(KTrue, 0)]
    case TFalse => [Node(KFalse, 0)]
    case TCall(k) => [Node(KCall(k), 0)]
    case TRep(p) => [Node(KRep, 0)] + Layout(p)
    case TNot(p) => [Node(KNot, 0)] + Layout(p)
    case TAnd(p) => [Node(KAnd, 0)] + Layout(p)
    case TBehind(n, p) => [Node(KBehind(n), 0)] + Layout(p)
    case TSeq(p1, p2) => Pair(KSeq, Layout(p1), Layout(p2))
    case TChoice(p1, p2) => Pair(KChoice, Layout(p1), Layout(p2))
    case TGrammar(rules) => [Node(KGrammar(|rules|), 0)] + LayoutRules(rules)
  }

  function Pair(kind: Kind, c1: seq<Node>, c2: seq<Node>): (r: seq<Node>)
    ensures |r| == 1 + |c1| + |c2|
  {
    [Node(kind, 1 + |c1|)] + c1 + c2
  }

  /** The list of rules, finished by `TTrue`. */
  function LayoutRules(rules: seq<Tree>): seq<Node>
    decreases rules, 0
  {
    if rules == [] then [Node(KTrue, 0)]
    else Pair(KRule, Layout(rules[0]), LayoutRules(rules[1..]))
  }

  predicate IsPair(t: Tree) {
    t.TSeq? || t.TChoice?
  }

  function KindOfPair(t: Tree): Kind
    requires IsPair(t)
  {
    if t.TSeq? then KSeq else KChoice
  }

  /** The pattern with the operator of `t` and the children `p1` and `p2`. */
  function SameOp(t: Tree, p1: Tree, p2: Tree): (r: Tree)
    requires IsPair(t)
    ensures IsPair(r) && KindOfPair(r) == KindOfPair(t) && r.p1 == p1 && r.p2 == p2
  {
    if t.TSeq? then TSeq(p1, p2) else TChoice(p1, p2)
  }

  /** Is the first child built with the same operator? */
  predicate LeftNested(t: Tree) {
    || (t.TSeq? && t.p1.TSeq?)
    || (t.TChoice? && t.p1.TChoice?)
  }

  /** The first part of the left pair is paired with the rest. */
  function Rotated(t: Tree): (r: Tree)
    requires LeftNested(t)
    ensures IsPair(r) && KindOfPair(r) == KindOfPair(t)
    ensures Size(r) == Size(t)
  {
    SameOp(t, t.p1.p1, SameOp(t, t.p1.p2, t.p2))
  }

  /** `correctassociativity`, as a function. */
  function Unnested(t: Tree): (r: Tree)
    requires IsPair(t)
    ensures IsPair(r) && KindOfPair(r) == KindOfPair(t) && !LeftNested(r)
    ensures Size(r) == Size(t)
    decreases t.p1
  {
    if LeftNested(t) then Unnested(Rotated(t)) else t
  }

  /** The number of nodes outside sub-grammars. */
  function Size(t: Tree): nat {
    match t
    case TRep(p) => 1 + Size(p)
    case TNot(p) => 1 + Size(p)
    case TAnd(p) => 1 + Size(p)
    case TBehind(_, p) => 1 + Size(p)
    case TSeq(p1, p2) => 1 + Size(p1) + Size(p2)
    case TChoice(p1, p2) => 1 + Size(p1) + Size(p2)
    case _ => 1
  }

  /** `finalfix`, as a function: sub-grammars were fixed when they were built. */
  function Fixed(t: Tree): (r: Tree)
    ensures Size(r) == Size(t)
    decreases Size(t)
  {
    match t
    case TRep(p) => TRep(Fixed(p))
    case TNot(p) => TNot(Fixed(p))
    case TAnd(p) => TAnd(Fixed(p))
    case TBehind(n, p) => TBehind(n, Fixed(p))
    case TSeq(_, _) =>
      var u := Unnested(t);
      SameOp(u, Fixed(u.p1), Fixed(u.p2))
    case TChoice(_, _) =>
      var u := Unnested(t);
      SameOp(u, Fixed(u.p1), Fixed(u.p2))
    case _ => t
  }

  function FixedRules(rules: seq<Tree>): (r: seq<Tree>)
    ensures |r| == |rules|
  {
    seq(|rules|, k requires 0 <= k < |rules| => Fixed(rules[k]))
  }

  /** No sequence in a first half of a sequence, no choice in a first half of a choice. */
  predicate RightAssociative(t: Tree) {
    match t
    case TRep(p) => RightAssociative(p)
    case TNot(p) => RightAssociative(p)
    case TAnd(p) => RightAssociative(p)
    case TBehind(_, p) => RightAssociative(p)
    case TSeq(p1, p2) => !p1.TSeq? && RightAssociative(p1) && RightAssociative(p2)
    case TChoice(p1, p2) => !p1.TChoice? && RightAssociative(p1) && RightAssociative(p2)
    case _ => true
  }

  lemma {:induction false} FixedTag(t: Tree)
    ensures Fixed(t).TSeq? <==> t.TSeq?
    ensures Fixed(t).TChoice? <==> t.TChoice?
  {
  }

  /** After `finalfix` the pattern is right associative throughout. */
  lemma {:induction false} FixedRightAssociative(t: Tree)
    ensures RightAssociative(Fixed(t))
    decreases Size(t)
  {
    match t
    case TRep(p) => FixedRightAssociative(p);
    case TNot(p) => FixedRightAssociative(p);
    case TAnd(p) => FixedRightAssociative(p);
    case TBehind(_, p) => FixedRightAssociative(p);
    case TSeq(_, _) =>
      var u := Unnested(t);
      FixedTag(u.p1);
      FixedRightAssociative(u.p1);
      FixedRightAssociative(u.p2);
    case TChoice(_, _) =>
      var u := Unnested(t);
      FixedTag(u.p1);
      FixedRightAssociative(u.p1);
      FixedRightAssociative(u.p2);
    case _ =>
  }

  lemma {:induction false} UnnestedMeaning(g: seq<Tree>, t: Tree, s: Subject, i: nat, m: nat)
    requires i <= |s| && IsPair(t)
    ensures Match(g, Unnested(t), s, i, m) == Match(g, t, s, i, m)
    decreases t.p1
  {
    if LeftNested(t) {
      RotatedMeaning(g, t, s, i, m);
      UnnestedMeaning(g, Rotated(t), s, i, m);
    }
  }

  lemma RotatedMeaning(g: seq<Tree>, t: Tree, s: Subject, i: nat, m: nat)
    requires i <= |s| && LeftNested(t)
    ensures Match(g, Rotated(t), s, i, m) == Match(g, t, s, i, m)
  {
    var inner := SameOp(t, t.p1.p2, t.p2);
    var r := Match(g, t.p1.p1, s, i, m);
    if t.TSeq? {
      assert Match(g, t.p1, s, i, m) == if r.Succ? then Match(g, t.p1.p2, s, r.pos, m) else r;
      assert Match(g, Rotated(t), s, i, m) == if r.Succ? then Match(g, inner, s, r.pos, m) else r;
    } else {
      assert Match(g, t.p1, s, i, m) == if r.Fail? then Match(g, t.p1.p2, s, i, m) else r;
      assert Match(g, Rotated(t), s, i, m) == if r.Fail? then Match(g, inner, s, i, m) else r;
    }
  }

  /** `finalfix` over a pattern and the rules it calls changes no outcome. */
  lemma {:induction false} FixedMeaning(g: seq<Tree>, t: Tree, s: Subject, i: nat, m: nat)
    requires i <= |s|
    ensures Match(FixedRules(g), Fixed(t), s, i, m) == Match(g, t, s, i, m)
    decreases m, Size(t), |s| - i
  {
    var h := FixedRules(g);
    match t
    case TRep(p) =>
      FixedMeaning(g, p, s, i, m);
      var r := Match(g, p, s, i, m);
      if r.Succ? && m > 0 {
        FixedMeaning(g, t, s, r.pos, m - 1);
      }
    case TNot(p) => FixedMeaning(g, p, s, i, m);
    case TAnd(p) => FixedMeaning(g, p, s, i, m);
    case TBehind(n, p) =>
      if n <= i {
        FixedMeaning(g, p, s, i - n, m);
      }
    case TSeq(_, _) => FixedPairMeaning(g, t, s, i, m);
    case TChoice(_, _) => FixedPairMeaning(g, t, s, i, m);
    case TCall(k) =>
      if k < |g| && m > 0 {
        FixedMeaning(g, g[k], s, i, m - 1);
      }
    case _ =>
  }

  lemma {:induction false} FixedPairMeaning(g: seq<Tree>, t: Tree, s: Subject, i: nat, m: nat)
    requires i <= |s| && IsPair(t)
    ensures Match(FixedRules(g), Fixed(t), s, i, m) == Match(g, t, s, i, m)
    decreases m, Size(t), |s| - i, 0
  {
    var u := Unnested(t);
    UnnestedMeaning(g, t, s, i, m);
    FixedMeaning(g, u.p1, s, i, m);
    var r := Match(g, u.p1, s, i, m);
    if u.TChoice? {
      FixedMeaning(g, u.p2, s, i, m);
    } else if r.Succ? {
      FixedMeaning(g, u.p2, s, r.pos, m);
    }
  }

  // ---- the array --------------------------------------------------------------------

  lemma LayoutTag(t: Tree)
    ensures Layout(t)[0].kind == KSeq <==> t.TSeq?
    ensures Layout(t)[0].kind == KChoice <==> t.TChoice?
  {
  }

  /** The nodes after `memmove` of `size` of them towards the start. */
  function Moved(nodes: seq<Node>, to: nat, from: nat, size: nat): (r: seq<Node>)
    requires to <= from && from + size <= |nodes|
    ensures |r| == |nodes|
  {
    nodes[..to] + nodes[from..from + size] + nodes[to + size..]
  }

  lemma MovedOne(nodes: seq<Node>, to: nat, from: nat, k: nat)
    requires to <= from && from + k < |nodes|
    ensures Moved(nodes, to, from, k)[from + k] == nodes[from + k]
    ensures Moved(nodes, to, from, k)[to + k := nodes[from + k]] == Moved(nodes, to, from, k + 1)
  {
    assert nodes[to + k..] == [nodes[to + k]] + nodes[to + k + 1..];
    assert nodes[from..from + k + 1] == nodes[from..from + k] + [nodes[from + k]];
  }

  method MoveDown(a: array<Node>, to: nat, from: nat, size: nat)
    requires to <= from && from + size <= a.Length
    modifies a
    ensures a[..] == Moved(old(a[..]), to, from, size)
  {
    hide Moved;
    ghost var nodes := a[..];
    assert Moved(nodes, to, from, 0) == nodes by {
      MovedNone(nodes, to, from);
    }
    for k := 0 to size
      invariant a[..] == Moved(nodes, to, from, k)
    {
      MovedOne(nodes, to, from, k);
      assert a[from + k] == a[..][from + k];
      a[to + k] := a[from + k];
    }
  }

  lemma MovedNone(nodes: seq<Node>, to: nat, from: nat)
    requires to <= from <= |nodes|
    ensures Moved(nodes, to, from, 0) == nodes
  {
  }

  /** The nodes around a rotation: `x` and `y` are the two operators. */
  lemma RotatedNodes(pre: seq<Node>, x: Node, y: Node, c11: seq<Node>, c12: seq<Node>, c2: seq<Node>, post: seq<Node>,
      x': Node, y': Node)
    ensures var nodes := pre + ([x] + ([y] + c11 + c12) + c2) + post;
            var at := |pre|;
            && at + 2 + |c11| <= |nodes| && nodes[at] == x && nodes[at + 1] == y
            && Moved(nodes, at + 1, at + 2, |c11|)[at := x'][at + 1 + |c11| := y'] == pre + ([x'] + c11 + ([y'] + c12 + c2)) + post
  {
    var nodes := pre + ([x] + ([y] + c11 + c12) + c2) + post;
    var at := |pre|;
    assert nodes == (pre + [x]) + ([y] + c11) + (c12 + c2 + post);
    assert nodes[at + 2..at + 2 + |c11|] == c11;
    assert nodes[at + 2 + |c11|..] == c12 + c2 + post;
  }

  /** One round of `correctassociativity`. */
  method Rotate(a: array<Node>, tree: nat, ghost t: Tree, ghost pre: seq<Node>, ghost post: seq<Node>)
    requires a[..] == pre + Layout(t) + post && |pre| == tree && LeftNested(t)
    modifies a
    ensures a[..] == pre + Layout(Rotated(t)) + post
    ensures |Layout(Rotated(t))| == |Layout(t)|
  {
    hide Layout, Moved, Rotated;
    RotatedLayout(t, pre, post);
    var t1 := tree + 1;
    assert a[tree] == a[..][tree] && a[t1] == a[..][t1];
    var n1size := a[tree].ps - 1;
    var n11size := a[t1].ps - 1;
    var n12size := n1size - n11size - 1;
    RotateNodes(a, tree, a[tree].kind, n11size, n12size);
  }

  /** What the round reads, and what it makes of the nodes. */
  lemma RotatedLayout(t: Tree, pre: seq<Node>, post: seq<Node>)
    requires LeftNested(t)
    ensures var nodes := pre + Layout(t) + post;
            var at, op, n11, n12 := |pre|, KindOfPair(t), |Layout(t.p1.p1)|, |Layout(t.p1.p2)|;
            && at + 2 + n11 <= |nodes|
            && nodes[at] == Node(op, 2 + n11 + n12) && nodes[at + 1] == Node(op, 1 + n11)
            && Moved(nodes, at + 1, at + 2, n11)[at := Node(op, n11 + 1)][at + 1 + n11 := Node(op, n12 + 1)]
               == pre + Layout(Rotated(t)) + post
    ensures |Layout(Rotated(t))| == |Layout(t)|
  {
    hide Layout, Moved;
    var op, t11, t12, t2 := KindOfPair(t), Layout(t.p1.p1), Layout(t.p1.p2), Layout(t.p2);
    LayoutPair(t);
    LayoutPair(t.p1);
    LayoutPair(Rotated(t));
    LayoutPair(Rotated(t).p2);
    var x, y := Node(op, 2 + |t11| + |t12|), Node(op, 1 + |t11|);
    var x', y' := Node(op, |t11| + 1), Node(op, |t12| + 1);
    assert Layout(t) == [x] + ([y] + t11 + t12) + t2;
    assert Layout(Rotated(t)) == [x'] + t11 + ([y'] + t12 + t2);
    RotatedNodes(pre, x, y, t11, t12, t2, post, x', y');
  }

  method RotateNodes(a: array<Node>, tree: nat, op: Kind, n11size: nat, n12size: nat)
    requires tree + 2 + n11size <= a.Length
    modifies a
    ensures a[..] == Moved(old(a[..]), tree + 1, tree + 2, n11size)
                       [tree := Node(op, n11size + 1)][tree + 1 + n11size := Node(op, n12size + 1)]
  {
    hide Moved;
    MoveDown(a, tree + 1, tree + 2, n11size);
    a[tree] := Node(op, n11size + 1);
    a[tree + 1 + n11size] := Node(op, n12size + 1);
  }

  lemma LayoutPair(t: Tree)
    requires IsPair(t)
    ensures Layout(t) == [Node(KindOfPair(t), 1 + |Layout(t.p1)|)] + Layout(t.p1) + Layout(t.p2)
  {
  }

  /** `correctassociativity` on the nodes of `t` at index `tree`. */
  method CorrectAssociativity(a: array<Node>, tree: nat, ghost t: Tree, ghost pre: seq<Node>, ghost post: seq<Node>)
    requires a[..] == pre + Layout(t) + post && |pre| == tree && IsPair(t)
    modifies a
    ensures a[..] == pre + Layout(Unnested(t)) + post
    ensures |Layout(Unnested(t))| == |Layout(t)|
  {
    hide Layout;
    ghost var cur := t;
    FirstNodes(a[..], pre, cur, post);
    while a[tree + 1].kind == a[tree].kind
      invariant IsPair(cur) && Unnested(cur) == Unnested(t) && |Layout(cur)| == |Layout(t)|
      invariant a[..] == pre + Layout(cur) + post
      invariant tree + 1 < a.Length && (a[..][tree + 1].kind == a[..][tree].kind <==> LeftNested(cur))
      decreases cur.p1
    {
      Rotate(a, tree, cur, pre, post);
      cur := Rotated(cur);
      FirstNodes(a[..], pre, cur, post);
    }
  }

  lemma FirstNodes(nodes: seq<Node>, pre: seq<Node>, t: Tree, post: seq<Node>)
    requires nodes == pre + Layout(t) + post && IsPair(t)
    ensures |pre| + 1 < |nodes|
    ensures nodes[|pre|] == Node(KindOfPair(t), 1 + |Layout(t.p1)|) && nodes[|pre| + 1] == Layout(t.p1)[0]
    ensures nodes[|pre| + 1].kind == nodes[|pre|].kind <==> LeftNested(t)
  {
    hide Layout;
    LayoutPair(t);
    LayoutTag(t.p1);
  }

  /** The children that `numsiblings` gives to a node. */
  function Children(kind: Kind): nat {
    match kind
    case KRep => 1
    case KNot => 1
    case KAnd => 1
    case KBehind(_) => 1
    case KGrammar(_) => 1
    case KSeq => 2
    case KChoice => 2
    case KRule => 2
    case _ => 0
  }

  /** `finalfix` on the nodes of a pattern whose calls name rules already. The source goes on
      with the last child by a jump in place of a call. */
  method FinalFix(a: array<Node>, tree: nat, ghost t: Tree, ghost pre: seq<Node>, ghost post: seq<Node>)
    requires a[..] == pre + Layout(t) + post && |pre| == tree
    modifies a
    ensures a[..] == pre + Layout(Fixed(t)) + post
    ensures |Layout(Fixed(t))| == |Layout(t)|
    decreases Size(t)
  {
    hide Layout;
    assert a[tree] == a[..][tree] == Layout(t)[0];
    RootNode(t);
    var kind := a[tree].kind;
    if kind.KGrammar? {
      return;
    }
    ghost var u := t;
    if kind == KSeq || kind == KChoice {
      CorrectAssociativity(a, tree, t, pre, post);
      u := Unnested(t);
      FirstNodes(a[..], pre, u, post);
    }
    if Children(kind) == 1 {
      FixOnly(a, tree, t, pre, post);
    } else if Children(kind) == 2 {
      var second := tree + a[tree].ps;
      FixBoth(a, tree, second, u, pre, post);
    }
  }

  method FixOnly(a: array<Node>, tree: nat, ghost t: Tree, ghost pre: seq<Node>, ghost post: seq<Node>)
    requires a[..] == pre + Layout(t) + post && |pre| == tree
    requires t.TRep? || t.TNot? || t.TAnd? || t.TBehind?
    modifies a
    ensures a[..] == pre + Layout(Fixed(t)) + post
    ensures |Layout(Fixed(t))| == |Layout(t)|
    decreases Size(t), 0
  {
    hide Layout, Fixed, Size;
    ghost var root := [Layout(t)[0]];
    LayoutSingle(t);
    assert pre + (root + Layout(t.body)) + post == (pre + root) + Layout(t.body) + post;
    FinalFix(a, tree + 1, t.body, pre + root, post);
    assert pre + (root + Layout(Fixed(t.body))) + post == (pre + root) + Layout(Fixed(t.body)) + post;
  }

  method FixBoth(a: array<Node>, tree: nat, second: nat, ghost u: Tree, ghost pre: seq<Node>, ghost post: seq<Node>)
    requires a[..] == pre + Layout(u) + post && |pre| == tree && IsPair(u)
    requires second == tree + 1 + |Layout(u.p1)|
    modifies a
    ensures a[..] == pre + Layout(SameOp(u, Fixed(u.p1), Fixed(u.p2))) + post
    ensures |Layout(SameOp(u, Fixed(u.p1), Fixed(u.p2)))| == |Layout(u)|
    decreases Size(u), 0
  {
    hide Layout;
    ghost var fixed := SameOp(u, Fixed(u.p1), Fixed(u.p2));
    ghost var root, c1, c2 := [Node(KindOfPair(u), 1 + |Layout(u.p1)|)], Layout(u.p1), Layout(u.p2);
    ghost var d1, d2 := Layout(Fixed(u.p1)), Layout(Fixed(u.p2));
    LayoutPair(u);
    LayoutPair(fixed);
    assert pre + (root + c1 + c2) + post == (pre + root) + c1 + (c2 + post);
    FinalFix(a, tree + 1, u.p1, pre + root, c2 + post);
    assert (pre + root) + d1 + (c2 + post) == (pre + root + d1) + c2 + post;
    FinalFix(a, second, u.p2, pre + root + d1, post);
    assert (pre + root + d1) + d2 + post == pre + (root + d1 + d2) + post;
  }

  lemma RootNode(t: Tree)
    ensures var kind := Layout(t)[0].kind;
            && (Children(kind) == 1 && !kind.KGrammar? <==> t.TRep? || t.TNot? || t.TAnd? || t.TBehind?)
            && (Children(kind) == 2 <==> IsPair(t))
            && (kind.KGrammar? <==> t.TGrammar?)
            && (kind == KSeq || kind == KChoice <==> IsPair(t))
  {
  }

  lemma LayoutSingle(t: Tree)
    requires t.TRep? || t.TNot? || t.TAnd? || t.TBehind?
    ensures Layout(t) == [Layout(t)[0]] + Layout(t.body)
    ensures Layout(Fixed(t)) == [Layout(t)[0]] + Layout(Fixed(t.body))
    ensures Size(t.body) < Size(t)
  {
  }

  /** `finalfix` on the rules of a new grammar: the body of the first rule, then the others. */
  method FixRules(a: array<Node>, tree: nat, ghost rules: seq<Tree>, ghost pre: seq<Node>, ghost post: seq<Node>)
    requires a[..] == pre + LayoutRules(rules) + post && |pre| == tree
    modifies a
    ensures a[..] == pre + LayoutRules(FixedRules(rules)) + post
    ensures |LayoutRules(FixedRules(rules))| == |LayoutRules(rules)|
    decreases |rules|
  {
    hide Layout, Fixed;
    assert a[tree] == a[..][tree] == LayoutRules(rules)[0];
    if Children(a[tree].kind) == 2 {
      var second := tree + a[tree].ps;
      ghost var root, c1, c2 := [LayoutRules(rules)[0]], Layout(rules[0]), LayoutRules(rules[1..]);
      ghost var d1, d2 := Layout(Fixed(rules[0])), LayoutRules(FixedRules(rules[1..]));
      assert pre + (root + c1 + c2) + post == (pre + root) + c1 + (c2 + post);
      FinalFix(a, tree + 1, rules[0], pre + root, c2 + post);
      assert (pre + root) + d1 + (c2 + post) == (pre + root + d1) + c2 + post;
      FixRules(a, second, rules[1..], pre + root + d1, post);
      assert FixedRules(rules)[1..] == FixedRules(rules[1..]);
      assert (pre + root + d1) + d2 + post == pre + (root + d1 + d2) + post;
    } else {
      assert FixedRules(rules) == rules;
    }
  }

  // ---- the nodes tell the pattern ---------------------------------------------------

  /** Nodes are those of one pattern only, whatever follows them. */
  lemma {:induction false} LayoutUnique(t: Tree, u: Tree, x: seq<Node>, y: seq<Node>)
    requires Layout(t) + x == Layout(u) + y
    ensures t == u && x == y
    decreases t, 1
  {
    SameRoot(t, u, x, y);
    hide Layout;
    Below(t, x);
    Below(u, y);
    if IsSingle(t) {
      LayoutUnique(t.body, u.body, x, y);
    } else if IsPair(t) {
      LayoutUnique(t.p1, u.p1, Layout(t.p2) + x, Layout(u.p2) + y);
      LayoutUnique(t.p2, u.p2, x, y);
    } else if t.TGrammar? {
      RulesUnique(t.rules, u.rules, x, y);
    }
  }

  predicate IsSingle(t: Tree) {
    t.TRep? || t.TNot? || t.TAnd? || t.TBehind?
  }

  /** The nodes below the first one. */
  function NodesBelow(t: Tree): seq<Node> {
    if IsSingle(t) then Layout(t.body)
    else if IsPair(t) then Layout(t.p1) + Layout(t.p2)
    else if t.TGrammar? then LayoutRules(t.rules)
    else []
  }

  lemma RootAndBelow(t: Tree)
    ensures Layout(t) == [Layout(t)[0]] + NodesBelow(t)
  {
    if IsPair(t) {
      LayoutPair(t);
    }
  }

  lemma Below(t: Tree, x: seq<Node>)
    ensures (Layout(t) + x)[1..] == NodesBelow(t) + x
    ensures IsPair(t) ==> NodesBelow(t) + x == Layout(t.p1) + (Layout(t.p2) + x)
  {
    hide Layout, LayoutRules;
    RootAndBelow(t);
    assert [Layout(t)[0]] + NodesBelow(t) + x == [Layout(t)[0]] + (NodesBelow(t) + x);
  }

  lemma SameRoot(t: Tree, u: Tree, x: seq<Node>, y: seq<Node>)
    requires Layout(t) + x == Layout(u) + y
    ensures Layout(t)[0] == Layout(u)[0]
    ensures IsSingle(t) || IsPair(t) || t.TGrammar? || t == u
    ensures (t.TRep? <==> u.TRep?) && (t.TNot? <==> u.TNot?) && (t.TAnd? <==> u.TAnd?)
    ensures t.TBehind? <==> u.TBehind?
    ensures t.TBehind? ==> t.n == u.n
    ensures (t.TSeq? <==> u.TSeq?) && (t.TChoice? <==> u.TChoice?)
    ensures t.TGrammar? <==> u.TGrammar?
  {
    assert (Layout(t) + x)[0] == Layout(t)[0] && (Layout(u) + y)[0] == Layout(u)[0];
  }

  lemma {:induction false} RulesUnique(r: seq<Tree>, q: seq<Tree>, x: seq<Node>, y: seq<Node>)
    requires LayoutRules(r) + x == LayoutRules(q) + y
    ensures r == q && x == y
    decreases r, 0
  {
    hide Layout;
    assert (LayoutRules(r) + x)[0] == LayoutRules(r)[0] && (LayoutRules(q) + y)[0] == LayoutRules(q)[0];
    if r == [] {
      assert (LayoutRules(r) + x)[1..] == x && (LayoutRules(q) + y)[1..] == y;
    } else {
      assert (LayoutRules(r) + x)[1..] == Layout(r[0]) + (LayoutRules(r[1..]) + x);
      assert (LayoutRules(q) + y)[1..] == Layout(q[0]) + (LayoutRules(q[1..]) + y);
      LayoutUnique(r[0], q[0], LayoutRules(r[1..]) + x, LayoutRules(q[1..]) + y);
      RulesUnique(r[1..], q[1..], x, y);
      assert r == [r[0]] + r[1..] && q == [q[0]] + q[1..];
    }
  }
}
