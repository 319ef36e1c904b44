/** The sweep of skynet/3rd/lua/lgc.c: the list of all objects, and what freeing and recolouring
    leave alone. */
module GcSweep {
  import opened LuaHeap
  import opened GcInvariant
  import opened GcTraverse
  import opened GcProgram
  import opened GcClear

  /** `allgc` links every object but the main thread, each once. */
  ghost predicate AllLinked(h: Heap, allgc: seq<Ref>, mainthread: Ref) {
    forall o: Ref :: multiset(allgc)[o] == if o in h && o != mainthread then 1 else 0
  }

  /** The first `n` objects of `allgc` have the current white. */
  predicate Swept(h: Heap, allgc: seq<Ref>, white: bool, n: nat) {
    n <= |allgc| && forall i :: 0 <= i < n ==> allgc[i] in h && h[allgc[i]].color == White(white)
  }

  lemma AllWhite(h: Heap, allgc: seq<Ref>, white: bool, mainthread: Ref)
    requires AllLinked(h, allgc, mainthread) && Swept(h, allgc, white, |allgc|)
    requires mainthread in h && h[mainthread].color == White(white)
    ensures forall o :: o in h ==> h[o].color == White(white)
  {
    forall o | o in h
      ensures h[o].color == White(white)
    {
      if o != mainthread {
        assert multiset(allgc)[o] == 1;
        var i :| 0 <= i < |allgc| && allgc[i] == o;
      }
    }
  }

  /** At the start of a cycle everything is white, and the invariant holds with empty lists. */
  lemma NothingMarked(h: Heap, white: bool)
    requires LiveClosed(h, white) && forall o :: o in h ==> h[o].color == White(white)
    ensures MarkInv(h, Lists([], [], [], [], [], []), Marking, white, {}) && Marked(h) == {}
  {
    var l := Lists([], [], [], [], [], []);
    forall p: Ref
      ensures Linked(h, l, p)
    {
    }
    forall o | o in h
      ensures ObjectOk(h, l, Marking, white, o)
    {
      assert o in Live(h, white) && LiveOk(h, white, o);
      assert Live(h, white) <= h.Keys;
    }
  }

  /** A marked thread is gray, and so it is in the gray list at the start. */
  lemma ThreadGray(h: Heap, l: Lists, white: bool, o: Ref)
    requires MarkInv(h, l, Marking, white, {}) && o in Marked(h) && h[o].kind.Thread?
    requires l.grayagain == [] && l.saved == [] && l.allweak == []
    ensures l.gray != []
  {
    assert ObjectOk(h, l, Marking, white, o);
  }

  lemma LinkedKept(h: Heap, k: Heap, allgc: seq<Ref>, mainthread: Ref)
    requires AllLinked(h, allgc, mainthread) && h.Keys == k.Keys
    ensures AllLinked(k, allgc, mainthread)
  {
    forall o: Ref
      ensures multiset(allgc)[o] == if o in k && o != mainthread then 1 else 0
    {
      assert o in h <==> o in h.Keys;
    }
  }

  // ---- the atomic phase -------------------------------------------------------------

  lemma BeginClosing(h: Heap, l: Lists, white: bool)
    requires MarkInv(h, l, Marking, white, {})
    ensures MarkInv(h, l, Closing, white, {})
  {
    forall o | o in h
      ensures ObjectOk(h, l, Closing, white, o)
    {
      assert ObjectOk(h, l, Marking, white, o);
    }
  }

  /** `atomic` saves the list `grayagain`; what is linked there from now on is done. */
  lemma SaveAgain(h: Heap, l: Lists, white: bool)
    requires MarkInv(h, l, Closing, white, {}) && l.saved == []
    ensures MarkInv(h, l.(saved := l.grayagain, grayagain := []), Final, white, {})
  {
    hide Edges, AllRefs;
    var l1 := l.(saved := l.grayagain, grayagain := []);
    forall p: Ref
      ensures Linked(h, l1, p)
    {
      assert Linked(h, l, p);
    }
    forall o | o in h
      ensures ObjectOk(h, l1, Final, white, o)
    {
      assert ObjectOk(h, l, Closing, white, o);
    }
  }

  /** The saved list becomes the gray list. */
  lemma UseSaved(h: Heap, l: Lists, white: bool)
    requires MarkInv(h, l, Final, white, {}) && l.gray == []
    ensures MarkInv(h, l.(gray := l.saved, saved := []), Final, white, {})
  {
    hide Edges, AllRefs;
    var l1 := l.(gray := l.saved, saved := []);
    forall p: Ref
      ensures Linked(h, l1, p)
    {
      assert Linked(h, l, p);
    }
    forall o | o in h
      ensures ObjectOk(h, l1, Final, white, o)
    {
      assert ObjectOk(h, l, Final, white, o);
    }
  }

  lemma EphemeronShrinks(h: Heap, k: Heap, o: Ref)
    requires Shrinks(h, k) && EphemeronDone(h, o)
    ensures EphemeronDone(k, o)
  {
    assert ObjectShrinks(h[o], k[o]);
    ShrinksMarked(h, k);
    forall i | 0 <= i < |k[o].entries|
      ensures EphSlot(k, o, i)
    {
      assert EphSlot(h, o, i) && EntryShrinks(h[o].entries[i], k[o].entries[i]);
      var e := h[o].entries[i];
      if k[o].entries[i].val != Nil && e.key.Gc? && e.key.r in h {
        assert ObjectShrinks(h[e.key.r], k[e.key.r]);
      }
    }
  }

  /** A finished ephemeron table without unmarked keys has no unmarked values either. */
  lemma EphemeronCleared(h: Heap, l: Lists, white: bool, o: Ref)
    requires MarkInv(h, l, Final, white, {}) && l.gray == [] && l.saved == [] && o in l.ephemeron
    requires EphemeronDone(h, o) && KeysDone(h, o)
    ensures ValuesDone(h, o)
  {
    assert ObjectOk(h, l, Final, white, o) && Linked(h, l, o);
    forall e | e in h[o].entries
      ensures RefOf(e.val) <= Marked(h)
    {
      var i :| 0 <= i < |h[o].entries| && h[o].entries[i] == e;
      assert EphSlot(h, o, i);
      if e.val != Nil && e.key.Gc? {
        assert e.key.r in KeyRefs(h[o].entries);
      }
    }
  }

  /** The white changes: what is not marked is dead, and nothing marked refers to it. */
  lemma Flipped(h: Heap, l: Lists, white: bool)
    requires MarkInv(h, l, Final, white, {})
    requires forall o :: o in Marked(h) ==> Edges(h[o]) <= Marked(h)
    ensures Live(h, !white) == Marked(h) && LiveClosed(h, !white)
  {
    forall o | o in h
      ensures o in Live(h, !white) <==> o in Marked(h)
      ensures Shaped(h[o])
    {
      assert ObjectOk(h, l, Final, white, o);
    }
    var next := !white;
    forall o | o in Live(h, next)
      ensures LiveOk(h, next, o)
    {
      assert o in Marked(h);
    }
  }

  // ---- sweeping ---------------------------------------------------------------------

  /** Sweeping frees dead objects and recolours live ones. */
  ghost predicate SweepKept(h: Heap, k: Heap, white: bool) {
    && k.Keys <= h.Keys && Live(k, white) == Live(h, white)
    && forall o :: o in k ==> k[o] == h[o].(color := k[o].color)
  }

  lemma SweepTrans(h: Heap, k: Heap, l: Heap, white: bool)
    requires SweepKept(h, k, white) && SweepKept(k, l, white)
    ensures SweepKept(h, l, white)
  {
  }

  lemma SweepSame(h: Heap, white: bool)
    ensures SweepKept(h, h, white)
  {
  }

  /** A live object may take the current white at any time. */
  lemma Whitened(h: Heap, white: bool, o: Ref)
    requires LiveClosed(h, white) && o in Live(h, white)
    ensures SweepKept(h, Coloured(h, o, White(white)), white)
    ensures LiveClosed(Coloured(h, o, White(white)), white)
  {
    var k := Coloured(h, o, White(white));
    assert Live(k, white) == Live(h, white);
    forall p | p in Live(k, white)
      ensures LiveOk(k, white, p)
    {
      assert LiveOk(h, white, p);
      SameEdges(h[p], White(white));
    }
  }

  lemma SameEdges(x: Object, c: Color)
    ensures Edges(x.(color := c)) == Edges(x)
  {
  }

  /** Freeing a dead object does not concern the live ones. */
  lemma Freed(h: Heap, white: bool, o: Ref)
    requires LiveClosed(h, white) && o in h && o !in Live(h, white)
    ensures SweepKept(h, h - {o}, white) && LiveClosed(h - {o}, white)
  {
    var k := h - {o};
    assert Live(k, white) == Live(h, white);
    forall p | p in Live(k, white)
      ensures LiveOk(k, white, p)
    {
      assert LiveOk(h, white, p);
    }
  }

  lemma Unlinked(h: Heap, allgc: seq<Ref>, mainthread: Ref, i: nat)
    requires AllLinked(h, allgc, mainthread) && i < |allgc|
    ensures allgc[i] in h && allgc[i] != mainthread
    ensures AllLinked(h - {allgc[i]}, allgc[..i] + allgc[i + 1..], mainthread)
    ensures forall j :: 0 <= j < |allgc| && j != i ==> allgc[j] != allgc[i]
  {
    var o := allgc[i];
    assert allgc == allgc[..i] + [o] + allgc[i + 1..];
    assert multiset(allgc) == multiset(allgc[..i]) + multiset{o} + multiset(allgc[i + 1..]);
    assert multiset(allgc)[o] <= 1;
    forall p: Ref
      ensures multiset(allgc[..i] + allgc[i + 1..])[p] == if p in h - {o} && p != mainthread then 1 else 0
    {
      assert multiset(allgc[..i] + allgc[i + 1..])[p] == multiset(allgc)[p] - if p == o then 1 else 0;
    }
    forall j | 0 <= j < |allgc| && j != i
      ensures allgc[j] != o
    {
      if j < i {
        assert allgc[j] in allgc[..i];
      } else {
        assert allgc[j] == allgc[i + 1..][j - i - 1];
      }
    }
  }

  lemma ClosedSwept(h: Heap, k: Heap, white: bool, s: set<Ref>)
    requires Closed(h, s) && SweepKept(h, k, white)
    ensures Closed(k, s)
  {
    forall o | o in s && o in k
      ensures ClosedAt(k, s, k[o])
    {
      assert ClosedAt(h, s, h[o]);
      SameEdges(h[o], k[o].color);
      assert Strings(k, Edges(k[o])) <= Strings(h, Edges(h[o]));
    }
  }

  /** When the whole list is swept, only live objects are left. */
  lemma AllLive(h: Heap, allgc: seq<Ref>, white: bool, mainthread: Ref)
    requires AllLinked(h, allgc, mainthread) && Swept(h, allgc, white, |allgc|) && mainthread in Live(h, white)
    ensures Live(h, white) == h.Keys
  {
    forall o | o in h
      ensures o in Live(h, white)
    {
      if o != mainthread {
        assert multiset(allgc)[o] == 1;
        var i :| 0 <= i < |allgc| && allgc[i] == o;
      }
    }
  }

  lemma KeysClosed(h: Heap)
    requires forall o :: o in h ==> Edges(h[o]) <= h.Keys
    ensures Closed(h, h.Keys)
  {
    forall o | o in h
      ensures ClosedAt(h, h.Keys, h[o])
    {
      EdgesInside(h, o);
    }
  }

  lemma EdgesInside(h: Heap, o: Ref)
    requires o in h && Edges(h[o]) <= h.Keys
    ensures ClosedAt(h, h.Keys, h[o])
  {
    forall e | e in h[o].entries
      ensures RefOf(e.val) <= ValRefs(h[o].entries)
    {
    }
  }

  lemma SweptLive(h: Heap, white: bool, o: Ref)
    requires o in h && h[o].color == White(!white)
    ensures o !in Live(h, white)
  {
  }

  /** The roots are marked to the end of the atomic phase, and the threads are still threads. */
  lemma RootsStayMarked(h: Heap, k: Heap, l: Heap)
    requires Kept(h, k) && Shrinks(k, l)
    ensures Marked(h) <= Marked(k) <= Marked(l) && h.Keys == l.Keys
    ensures forall o :: o in h ==> l[o].kind == h[o].kind && l[o].mode == h[o].mode
  {
    KeptMarked(h, k);
    ShrinksMarked(k, l);
    forall o | o in h
      ensures l[o].kind == h[o].kind && l[o].mode == h[o].mode
    {
      assert ObjectKept(h[o], k[o]) && ObjectShrinks(k[o], l[o]);
    }
  }

  /** What the objects in `who` refer to strongly is in `live`. */
  ghost predicate StrongKept(h: Heap, live: set<Ref>, who: set<Ref>) {
    forall o :: o in who ==> o in h && CoreRefs(h[o]) <= live
  }

  /** Clearing marks strings only, so what was closed before is kept to the end of the atomic
      phase; `h` is the heap before it and `k` the one before clearing. */
  lemma StrongCleared(h: Heap, k: Heap, l: Heap, lists: Lists, white: bool, changed: set<Ref>)
    requires Kept(h, k) && Shrinks(k, l) && MarkInv(k, lists, Final, white, {}) && changed <= Marked(k)
    requires forall o :: o in Marked(k) && o !in changed ==> CoreClosedAt(k[o], Marked(k))
    ensures StrongKept(h, Marked(l), Marked(l) - changed)
    ensures StrongKept(h, Marked(l), Marked(l)) <==> StrongKept(h, Marked(l), changed)
  {
    hide MarkInv, Edges, Shrinks;
    ShrinksMarked(k, l);
    RootsStayMarked(h, k, l);
    forall o | o in Marked(l) - changed
      ensures o in h && CoreRefs(h[o]) <= Marked(l)
    {
      SameCore(h, k, o);
      if o !in Marked(k) {
        OnlyString(k, l, lists, white, o);
      }
    }
  }

  lemma SameCore(h: Heap, k: Heap, o: Ref)
    requires Kept(h, k) && o in k
    ensures o in h && CoreRefs(h[o]) == CoreRefs(k[o])
  {
    assert ObjectKept(h[o], k[o]);
    ObjectKeptRefs(h[o], k[o]);
  }

  lemma OnlyString(k: Heap, l: Heap, lists: Lists, white: bool, o: Ref)
    requires Shrinks(k, l) && MarkInv(k, lists, Final, white, {}) && o in Marked(l) && o !in Marked(k)
    ensures o in k && CoreRefs(k[o]) == {}
  {
    assert ObjectShrinks(k[o], l[o]) && ObjectOk(k, lists, Final, white, o);
  }

  /** When marking marks nothing, the atomic phase marks strings only. */
  lemma StillWhite(h: Heap, k: Heap, l: Heap)
    requires Kept(h, k) && Shrinks(k, l) && Whites(k) == Whites(h)
    ensures forall o :: o in Whites(h) && !h[o].kind.Str? ==> o !in Marked(l)
  {
    forall o | o in Whites(h) && !h[o].kind.Str?
      ensures o !in Marked(l)
    {
      assert o in Whites(k) && ObjectKept(h[o], k[o]) && ObjectShrinks(k[o], l[o]);
    }
  }

  // ---- what live objects still hold -------------------------------------------------

  /** Elements stay when they are in `live`, others are gone. */
  predicate ArrHeld(x: seq<Value>, y: seq<Value>, live: set<Ref>) {
    |y| == |x| && forall i :: 0 <= i < |x| ==> y[i] == if RefOf(x[i]) <= live then x[i] else Nil
  }

  /** Entries stay when their keys and values are in `live`, others become empty slots. */
  predicate EntriesHeld(x: seq<Entry>, y: seq<Entry>, live: set<Ref>) {
    |y| == |x| && forall i :: 0 <= i < |x| ==>
      if x[i].val != Nil && RefOf(x[i].key) + RefOf(x[i].val) <= live then y[i] == x[i] else y[i].val == Nil
  }

  predicate ObjectHeld(x: Object, y: Object, live: set<Ref>) {
    && y.kind == x.kind && y.mode == x.mode && y.meta == x.meta
    && ArrHeld(x.arr, y.arr, live) && EntriesHeld(x.entries, y.entries, live)
  }

  /** From `h` to `k` the objects in `live` keep all that is alive. */
  ghost predicate Held(h: Heap, k: Heap, live: set<Ref>) {
    forall o :: o in live ==> o in h && o in k && ObjectHeld(h[o], k[o], live)
  }

  lemma ObjectHeldSame(x: Object, c: Color, live: set<Ref>)
    requires Edges(x) <= live
    ensures ObjectHeld(x, x.(color := c), live)
  {
    forall i | 0 <= i < |x.arr|
      ensures RefOf(x.arr[i]) <= live
    {
      assert x.arr[i] in x.arr;
    }
    forall i | 0 <= i < |x.entries| && x.entries[i].val != Nil
      ensures RefOf(x.entries[i].key) + RefOf(x.entries[i].val) <= live
    {
      assert x.entries[i] in x.entries;
    }
  }

  lemma HeldSwept(h: Heap, k: Heap, white: bool)
    requires SweepKept(h, k, white) && LiveClosed(h, white)
    ensures Held(h, k, Live(k, white)) && Live(k, white) == Live(h, white)
  {
    hide Edges;
    forall o | o in Live(k, white)
      ensures o in h && o in k && ObjectHeld(h[o], k[o], Live(k, white))
    {
      assert LiveOk(h, white, o);
      ObjectHeldSame(h[o], k[o].color, Live(k, white));
    }
  }

  lemma HeldMarked(h: Heap, k: Heap, live: set<Ref>)
    requires Kept(h, k) && live <= k.Keys && forall o :: o in live ==> Edges(k[o]) <= live
    ensures Held(h, k, live)
  {
    hide Edges;
    forall o | o in live
      ensures ObjectHeld(h[o], k[o], live)
    {
      assert ObjectKept(h[o], k[o]);
      ObjectKeptRefs(h[o], k[o]);
      ObjectHeldSame(h[o], h[o].color, live);
    }
  }

  lemma HeldTrans(h: Heap, k: Heap, l: Heap, before: set<Ref>, live: set<Ref>)
    requires Held(h, k, before) && Held(k, l, live) && live <= before
    ensures Held(h, l, live)
  {
    forall o | o in live
      ensures o in h && o in l && ObjectHeld(h[o], l[o], live)
    {
      assert ObjectHeld(h[o], k[o], before) && ObjectHeld(k[o], l[o], live);
    }
  }

  /** What clearing leaves: `h` is the heap before marking, `k` the one before clearing. */
  lemma HeldCleared(h: Heap, k: Heap, l: Heap)
    requires Kept(h, k) && Shrinks(k, l) && forall o :: o in Marked(l) ==> Edges(l[o]) <= Marked(l)
    ensures Held(h, l, Marked(l))
  {
    hide Shrinks, Edges;
    forall o | o in Marked(l)
      ensures o in h && ObjectHeld(h[o], l[o], Marked(l))
    {
      RootsStayMarked(h, k, l);
      ShrinksAt(k, l, o);
      assert ObjectKept(h[o], k[o]);
      ObjectHeldCleared(l, h[o], k[o], l[o]);
    }
  }

  lemma ObjectHeldCleared(l: Heap, x: Object, y: Object, z: Object)
    requires ObjectKept(x, y) && ObjectShrinks(y, z) && OnlyGone(l, y, z) && Edges(z) <= Marked(l)
    ensures ObjectHeld(x, z, Marked(l))
  {
    forall v | Gone(l, v)
      ensures !(RefOf(v) <= Marked(l))
    {
    }
    forall i | 0 <= i < |x.arr|
      ensures z.arr[i] == if RefOf(x.arr[i]) <= Marked(l) then x.arr[i] else Nil
    {
      assert z.arr[i] in z.arr;
    }
    forall i | 0 <= i < |x.entries|
      ensures if x.entries[i].val != Nil && RefOf(x.entries[i].key) + RefOf(x.entries[i].val) <= Marked(l)
              then z.entries[i] == x.entries[i] else z.entries[i].val == Nil
    {
      assert SlotKept(x.entries[i], y.entries[i]) && EntryShrinks(y.entries[i], z.entries[i]);
      assert z.entries[i] in z.entries;
    }
  }

  // ---- writes of the program --------------------------------------------------------

  /** A write leaves what was swept as it was. */
  lemma SweptWrite(h: Heap, allgc: seq<Ref>, white: bool, n: nat, x: Ref, y: Object)
    requires Swept(h, allgc, white, n) && x in h
    requires y.color == h[x].color || y.color == White(white) || h[x].color.Black?
    ensures Swept(h[x := y], allgc, white, n)
  {
  }

  /** A new object comes first, and it has the current white. */
  lemma SweptNew(h: Heap, allgc: seq<Ref>, white: bool, n: nat, o: Ref, y: Object)
    requires Swept(h, allgc, white, n) && o !in h && y.color == White(white)
    ensures Swept(h[o := y], [o] + allgc, white, n + 1)
  {
    var k := h[o := y];
    forall i | 0 <= i < n + 1
      ensures ([o] + allgc)[i] in k && k[([o] + allgc)[i]].color == White(white)
    {
      if i > 0 {
        assert ([o] + allgc)[i] == allgc[i - 1];
      }
    }
  }

  lemma LinkedNew(h: Heap, allgc: seq<Ref>, mainthread: Ref, o: Ref, y: Object)
    requires AllLinked(h, allgc, mainthread) && o !in h && o != mainthread
    ensures AllLinked(h[o := y], [o] + allgc, mainthread)
  {
    MultisetCons(o, allgc);
    forall p: Ref
      ensures multiset([o] + allgc)[p] == if p in h[o := y] && p != mainthread then 1 else 0
    {
      assert multiset(allgc)[p] == if p in h && p != mainthread then 1 else 0;
    }
  }

  lemma LiveKeysClosed(h: Heap, white: bool)
    requires LiveClosed(h, white) && Live(h, white) == h.Keys
    ensures Closed(h, h.Keys)
  {
    forall o | o in h
      ensures Edges(h[o]) <= h.Keys
    {
      assert LiveOk(h, white, o);
    }
    KeysClosed(h);
  }

  /** After the forward barrier nothing the black object refers to is white. */
  lemma ForwardDone(h: Heap, k: Heap, x: Ref, v: Ref, s: set<Ref>)
    requires Marks(h, k, s) && x in h && h[x].color.Black? && v in Marked(k)
    requires AllRefs(h[x]) <= Marked(h) + {v}
    ensures x in k && k[x].color.Black? && k[x].kind == h[x].kind && k[x].meta == h[x].meta
    ensures AllRefs(k[x]) <= Marked(k) && Edges(k[x]) == Edges(h[x])
  {
    assert ObjectKept(h[x], k[x]);
    ObjectKeptRefs(h[x], k[x]);
    MarksMarked(h, k, s);
  }

  // ---- what single writes add -------------------------------------------------------

  lemma LiveParts(h: Heap, white: bool, x: Ref)
    requires x in Live(h, white)
    ensures x in h && h[x].color != White(!white) && Live(h, white) <= h.Keys
  {
  }

  lemma SameEnds(h: Heap, white: bool, x: Ref, y: Object)
    requires x in h && y.color == h[x].color
    ensures Live(h[x := y], white) == Live(h, white)
  {
  }

  lemma SweptNone(h: Heap, allgc: seq<Ref>, white: bool)
    ensures Swept(h, allgc, white, 0)
  {
  }

  lemma PushedEdges(x: Object, o: Ref)
    ensures Edges(x.(arr := x.arr + [Gc(o)])) <= Edges(x) + {o}
  {
  }

  /** `luaH_resize` moves what a table has between its parts. */
  predicate Moved(x: Object, arr: seq<Value>, entries: seq<Entry>) {
    && Refs(arr) + KeyRefs(entries) + ValRefs(entries) <= Edges(x)
    && SlotRefs(entries) <= AllRefs(x)
  }

  lemma MovedEdges(x: Object, arr: seq<Value>, entries: seq<Entry>)
    requires Moved(x, arr, entries)
    ensures Edges(x.(arr := arr, entries := entries)) <= Edges(x)
    ensures AllRefs(x.(arr := arr, entries := entries)) <= AllRefs(x)
  {
  }

  lemma StackEdges(x: Object, values: seq<Value>)
    requires x.meta == Nil && x.entries == []
    ensures Edges(x.(arr := values)) == Refs(values)
  {
  }

  lemma TableShape(x: Object, arr: seq<Value>, entries: seq<Entry>)
    requires x.kind.Table?
    ensures Shaped(x.(arr := arr, entries := entries))
  {
  }

  lemma ArrEdges(x: Object, i: nat, v: Value)
    requires i < |x.arr|
    ensures var y := x.(arr := x.arr[i := v]);
            Edges(y) <= Edges(x) + RefOf(v) && AllRefs(y) <= AllRefs(x) + RefOf(v)
  {
    forall w | w in x.arr[i := v]
      ensures w in x.arr || w == v
    {
      var j :| 0 <= j < |x.arr| && x.arr[i := v][j] == w;
      assert j != i ==> x.arr[j] == w;
    }
  }

  lemma KeyEdges(x: Object, k: Value)
    ensures var y := x.(entries := x.entries + [Entry(k, Nil)]);
            Edges(y) <= Edges(x) && AllRefs(y) <= AllRefs(x) + RefOf(k)
  {
  }

  lemma SlotEdges(x: Object, i: nat, v: Value)
    requires i < |x.entries|
    ensures var k := x.entries[i].key;
            var y := x.(entries := x.entries[i := Entry(k, v)]);
            && Edges(y) <= Edges(x) + RefOf(k) + RefOf(v)
            && AllRefs(y) <= AllRefs(x) + RefOf(v)
  {
    var k := x.entries[i].key;
    assert x.entries[i] in x.entries;
    forall e | e in x.entries[i := Entry(k, v)]
      ensures e in x.entries || e == Entry(k, v)
    {
      var j :| 0 <= j < |x.entries| && x.entries[i := Entry(k, v)][j] == e;
      assert j != i ==> x.entries[j] == e;
    }
  }
}
