/** What a Lua program can get at while the collector of skynet/3rd/lua/lgc.c is at work, and
    what its writes do to the invariants. */
module GcProgram {
  import opened LuaHeap
  import opened GcInvariant

  /** Objects that are not dead: the sweep frees those of the other white. */
  function Live(h: Heap, white: bool): set<Ref> {
    set o | o in h && h[o].color != White(!white)
  }

  /** A live object refers to live objects only. */
  predicate LiveOk(h: Heap, white: bool, o: Ref)
    requires o in h
  {
    Shaped(h[o]) && Edges(h[o]) <= Live(h, white)
  }

  ghost predicate LiveClosed(h: Heap, white: bool) {
    forall o :: o in Live(h, white) ==> LiveOk(h, white, o)
  }

  /** A chain of references, weak or strong, from a root. */
  predicate Chain(h: Heap, roots: set<Ref>, path: seq<Ref>) {
    && path != [] && path[0] in roots
    && forall i :: 0 <= i < |path| - 1 ==> path[i] in h && path[i + 1] in Edges(h[path[i]])
  }

  ghost predicate Accessible(h: Heap, roots: set<Ref>, o: Ref) {
    exists path: seq<Ref> :: Chain(h, roots, path) && path[|path| - 1] == o
  }

  lemma UseRoot(h: Heap, roots: set<Ref>, r: Ref)
    requires r in roots
    ensures Accessible(h, roots, r)
  {
    assert Chain(h, roots, [r]);
  }

  /** What an accessible object refers to is accessible. */
  lemma UseNext(h: Heap, roots: set<Ref>, x: Ref, o: Ref)
    requires Accessible(h, roots, x) && x in h && o in Edges(h[x])
    ensures Accessible(h, roots, o)
  {
    var path: seq<Ref> :| Chain(h, roots, path) && path[|path| - 1] == x;
    var longer := path + [o];
    forall i | 0 <= i < |longer| - 1
      ensures longer[i] in h && longer[i + 1] in Edges(h[longer[i]])
    {
      if i == |path| - 1 {
        assert longer[i] == x;
      }
    }
    assert Chain(h, roots, longer) && longer[|longer| - 1] == o;
  }

  lemma UseEdge(h: Heap, roots: set<Ref>, r: Ref, o: Ref)
    requires r in roots && r in h && o in Edges(h[r])
    ensures Accessible(h, roots, o)
  {
    UseRoot(h, roots, r);
    UseNext(h, roots, r, o);
  }

  lemma UsePath(h: Heap, roots: set<Ref>, path: seq<Ref>, i: nat)
    requires Chain(h, roots, path) && i < |path|
    ensures Accessible(h, roots, path[i])
  {
    assert Chain(h, roots, path[..i + 1]);
  }

  lemma PathTo(h: Heap, roots: set<Ref>, o: Ref) returns (path: seq<Ref>)
    requires Accessible(h, roots, o)
    ensures Chain(h, roots, path) && path[|path| - 1] == o
  {
    path :| Chain(h, roots, path) && path[|path| - 1] == o;
  }

  lemma {:induction false} ChainLive(h: Heap, white: bool, roots: set<Ref>, path: seq<Ref>, i: nat)
    requires LiveClosed(h, white) && roots <= Live(h, white) && Chain(h, roots, path) && i < |path|
    ensures path[i] in Live(h, white)
    decreases i
  {
    if i > 0 {
      ChainLive(h, white, roots, path, i - 1);
      assert LiveOk(h, white, path[i - 1]);
    }
  }

  lemma AccessibleLive(h: Heap, white: bool, roots: set<Ref>, o: Ref)
    requires LiveClosed(h, white) && roots <= Live(h, white) && Accessible(h, roots, o)
    ensures o in Live(h, white) && o in h
  {
    var path: seq<Ref> :| Chain(h, roots, path) && path[|path| - 1] == o;
    ChainLive(h, white, roots, path, |path| - 1);
  }

  /** While marking, all objects are live. */
  lemma MarkingLive(h: Heap, l: Lists, phase: Phase, white: bool)
    requires MarkInv(h, l, phase, white, {})
    ensures Live(h, white) == h.Keys && LiveClosed(h, white)
  {
    forall o | o in h
      ensures Shaped(h[o]) && Edges(h[o]) <= h.Keys && h[o].color != White(!white)
    {
      assert ObjectOk(h, l, phase, white, o);
    }
  }

  // ---- writes -----------------------------------------------------------------------

  /** Writing an object that stays alive: what it refers to is alive. */
  lemma WriteLive(h: Heap, white: bool, x: Ref, y: Object)
    requires LiveClosed(h, white) && x in Live(h, white)
    requires Shaped(y) && y.color != White(!white) && Edges(y) <= Live(h, white)
    ensures LiveClosed(h[x := y], white) && Live(h[x := y], white) == Live(h, white)
  {
    var k := h[x := y];
    assert Live(k, white) == Live(h, white);
    forall o | o in Live(k, white)
      ensures LiveOk(k, white, o)
    {
      if o != x {
        assert LiveOk(h, white, o);
      }
    }
  }

  /** Writing an object that is not black, while marking. Its list still fits it, unless it is
      an all-weak table that has been traversed and gets a metatable that is not marked. */
  lemma WriteMarked(h: Heap, l: Lists, white: bool, x: Ref, y: Object)
    requires MarkInv(h, l, Marking, white, {}) && x in h && !h[x].color.Black?
    requires l.weak == [] && l.ephemeron == []
    requires Shaped(y) && y.color == h[x].color && y.kind == h[x].kind && Edges(y) <= h.Keys
    requires x in l.allweak ==> RefOf(y.meta) <= Marked(h)
    ensures MarkInv(h[x := y], l, Marking, white, {})
  {
    hide AllRefs, Edges, GrayOk, ObjectOk;
    var k := h[x := y];
    SameColour(h, x, y);
    forall p: Ref
      ensures Linked(k, l, p)
    {
      assert Linked(h, l, p);
    }
    forall p | p in k
      ensures ObjectOk(k, l, Marking, white, p)
    {
      if p == x {
        WrittenOk(h, l, white, x, y);
      } else {
        OtherOk(h, k, l, l, Marking, white, p);
      }
    }
  }

  lemma SameColour(h: Heap, x: Ref, y: Object)
    requires x in h && y.color == h[x].color
    ensures Marked(h[x := y]) == Marked(h) && h[x := y].Keys == h.Keys
  {
  }

  lemma WrittenOk(h: Heap, l: Lists, white: bool, x: Ref, y: Object)
    requires x in h && ObjectOk(h, l, Marking, white, x) && !h[x].color.Black?
    requires Shaped(y) && y.color == h[x].color && y.kind == h[x].kind && Edges(y) <= h.Keys
    requires x in l.allweak ==> RefOf(y.meta) <= Marked(h)
    ensures ObjectOk(h[x := y], l, Marking, white, x)
  {
    hide AllRefs, Edges;
    SameColour(h, x, y);
  }

  /** Writing a black object, with nothing new in it that is white. */
  lemma WriteBlack(h: Heap, l: Lists, white: bool, x: Ref, y: Object)
    requires MarkInv(h, l, Marking, white, {}) && x in h && h[x].color.Black?
    requires Shaped(y) && y.color.Black? && y.kind == h[x].kind && AllRefs(y) <= Marked(h)
    ensures MarkInv(h[x := y], l, Marking, white, {})
  {
    hide GrayOk, Edges, AllRefs, Count;
    var k := h[x := y];
    SameColour(h, x, y);
    assert Linked(h, l, x);
    NotListed(l, x);
    MarkedInside(h);
    AllEdges(y);
    forall p: Ref
      ensures Linked(k, l, p)
    {
      assert Linked(h, l, p);
    }
    forall p | p in k
      ensures ObjectOk(k, l, Marking, white, p)
    {
      if p == x {
        assert ObjectOk(h, l, Marking, white, x);
      } else {
        OtherOk(h, k, l, l, Marking, white, p);
      }
    }
  }

  lemma NotListed(l: Lists, x: Ref)
    requires Count(l, x) == 0
    ensures x !in l.weak && x !in l.allweak && x !in l.ephemeron && x !in l.gray && x !in l.grayagain && x !in l.saved
  {
  }

  lemma MarkedInside(h: Heap)
    ensures Marked(h) <= h.Keys
  {
  }

  /** `luaC_barrierback_`: a black object that gets anything becomes gray again. */
  lemma WriteBack(h: Heap, l: Lists, white: bool, x: Ref, y: Object)
    requires MarkInv(h, l, Marking, white, {}) && x in h && h[x].color.Black?
    requires Shaped(y) && y.color.Gray? && y.kind == h[x].kind && Edges(y) <= h.Keys
    ensures MarkInv(h[x := y], l.(grayagain := [x] + l.grayagain), Marking, white, {})
  {
    hide AllRefs, Edges, Count, GrayOk;
    var k, l1 := h[x := y], l.(grayagain := [x] + l.grayagain);
    assert LinkIn(l, x, ToGrayagain) == l1;
    SameMarks(h, x, y);
    assert Linked(h, l, x);
    NotListed(l, x);
    forall p: Ref
      ensures Linked(k, l1, p) && StillIn(l, l1, p)
    {
      assert Linked(h, l, p) && Linked(h, l, x);
      CountLink(l, x, ToGrayagain, p);
    }
    forall p | p in k
      ensures ObjectOk(k, l1, Marking, white, p)
    {
      if p == x {
        assert ObjectOk(h, l, Marking, white, x);
        AgainOk(k, l, x);
      } else {
        OtherOk(h, k, l, l1, Marking, white, p);
      }
    }
  }

  lemma SameMarks(h: Heap, x: Ref, y: Object)
    requires x in h && !h[x].color.White? && !y.color.White?
    ensures Marked(h[x := y]) == Marked(h)
  {
  }

  lemma AgainOk(k: Heap, l: Lists, x: Ref)
    requires x in k
    ensures GrayOk(k, l.(grayagain := [x] + l.grayagain), Marking, x)
  {
  }

  /** A black object that gets a white one is open until the white one is marked. */
  lemma WriteOpen(h: Heap, l: Lists, white: bool, x: Ref, y: Object)
    requires MarkInv(h, l, Marking, white, {}) && x in h && h[x].color.Black?
    requires Shaped(y) && y.color.Black? && y.kind == h[x].kind && Edges(y) <= h.Keys
    ensures MarkInv(h[x := y], l, Marking, white, {x})
  {
    hide GrayOk, Edges, AllRefs;
    var k := h[x := y];
    SameMarks(h, x, y);
    assert Linked(h, l, x);
    forall p: Ref
      ensures Linked(k, l, p)
    {
      assert Linked(h, l, p);
    }
    forall p | p in k && p !in {x}
      ensures ObjectOk(k, l, Marking, white, p)
    {
      OtherOk(h, k, l, l, Marking, white, p);
    }
  }

  /** The metatable of an all-weak table that the propagate phase has traversed: the barrier of
      `lua_setmetatable` looks for a black object, but such a table is gray, and it is in a list
      that marking does not visit again. Setting the metatable keeps the invariant exactly when
      the new one is marked. */
  lemma SetMetaOfAllWeak(h: Heap, l: Lists, white: bool, x: Ref, mt: Ref)
    requires MarkInv(h, l, Marking, white, {}) && l.weak == [] && l.ephemeron == []
    requires x in l.allweak && mt in h
    ensures x in h && h[x].color.Gray? && h[x].kind.Table?
    ensures MarkInv(h[x := h[x].(meta := Gc(mt))], l, Marking, white, {}) <==> !h[mt].color.White?
  {
    hide AllRefs, Edges, GrayOk;
    assert Linked(h, l, x) && ObjectOk(h, l, Marking, white, x);
    var y := h[x].(meta := Gc(mt));
    var k := h[x := y];
    SameColour(h, x, y);
    if mt in Marked(h) {
      MetaRefs(h[x], Gc(mt));
      WriteMarked(h, l, white, x, y);
    } else {
      NowhereElse(h, l, white, x);
      NotGrayOk(k, l, x);
      assert !ObjectOk(k, l, Marking, white, x);
    }
  }

  lemma MetaRefs(x: Object, m: Value)
    ensures RefOf(m) <= Edges(x.(meta := m)) <= Edges(x) + RefOf(m)
    ensures AllRefs(x.(meta := m)) <= AllRefs(x) + RefOf(m)
  {
  }

  lemma NowhereElse(h: Heap, l: Lists, white: bool, x: Ref)
    requires Linked(h, l, x) && x in l.allweak
    ensures x !in l.gray && x !in l.grayagain && x !in l.saved
  {
  }

  lemma NotGrayOk(h: Heap, l: Lists, x: Ref)
    requires x in h && x !in l.gray && x !in l.grayagain && x !in l.saved && !(RefOf(h[x].meta) <= Marked(h))
    ensures !GrayOk(h, l, Marking, x)
  {
  }

  /** A new object has the current white; closures and stacks may start with contents. */
  function NewObject(kind: Kind, white: bool, arr: seq<Value>): Object {
    Object(kind, White(white), Strong, Nil, arr, [])
  }

  lemma NewEdges(kind: Kind, white: bool, arr: seq<Value>)
    ensures Edges(NewObject(kind, white, arr)) == Refs(arr)
    ensures Shaped(NewObject(kind, white, arr)) <==> (kind.Str? ==> arr == [])
  {
  }

  lemma NewMarked(h: Heap, l: Lists, white: bool, o: Ref, kind: Kind, arr: seq<Value>)
    requires MarkInv(h, l, Marking, white, {}) && o !in h && Refs(arr) <= h.Keys && (kind.Str? ==> arr == [])
    ensures MarkInv(h[o := NewObject(kind, white, arr)], l, Marking, white, {})
    ensures Marked(h[o := NewObject(kind, white, arr)]) == Marked(h)
  {
    hide Edges, AllRefs;
    NewEdges(kind, white, arr);
    var k := h[o := NewObject(kind, white, arr)];
    assert Marked(k) == Marked(h);
    forall p: Ref
      ensures Linked(k, l, p)
    {
      assert Linked(h, l, p);
    }
    forall p | p in k
      ensures ObjectOk(k, l, Marking, white, p)
    {
      if p != o {
        assert ObjectOk(h, l, Marking, white, p);
      }
    }
  }

  lemma NewLive(h: Heap, white: bool, o: Ref, kind: Kind, arr: seq<Value>)
    requires LiveClosed(h, white) && o !in h && Refs(arr) <= Live(h, white) && (kind.Str? ==> arr == [])
    ensures LiveClosed(h[o := NewObject(kind, white, arr)], white)
    ensures Live(h[o := NewObject(kind, white, arr)], white) == Live(h, white) + {o}
  {
    hide Edges;
    NewEdges(kind, white, arr);
    var k := h[o := NewObject(kind, white, arr)];
    assert Live(k, white) == Live(h, white) + {o};
    forall p | p in Live(k, white)
      ensures LiveOk(k, white, p)
    {
      if p != o {
        assert LiveOk(h, white, p);
      }
    }
  }
}
