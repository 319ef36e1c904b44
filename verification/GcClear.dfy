/** Clearing weak tables in the atomic phase of skynet/3rd/lua/lgc.c: what it may change, and
    that afterwards nothing marked refers to anything that is not. */
module GcClear {
  import opened LuaHeap
  import opened GcInvariant

  /** Clearing empties slots and array elements. */
  predicate EntryShrinks(e: Entry, f: Entry) {
    f == e || (f.val == Nil && (f.key == e.key || f.key == Dead))
  }

  predicate ObjectShrinks(x: Object, y: Object) {
    && y.kind == x.kind && y.mode == x.mode && y.meta == x.meta
    && |y.arr| == |x.arr| && (forall i :: 0 <= i < |x.arr| ==> y.arr[i] == x.arr[i] || y.arr[i] == Nil)
    && |y.entries| == |x.entries| && (forall i :: 0 <= i < |x.entries| ==> EntryShrinks(x.entries[i], y.entries[i]))
    && (!x.color.White? ==> !y.color.White?)
    && (y.color.White? ==> y.color == x.color)
  }

  /** Neither marked nor a string: this is what is cleared. */
  predicate Gone(h: Heap, v: Value) {
    v.Gc? && v.r in h && h[v.r].color.White? && !h[v.r].kind.Str?
  }

  /** Nothing else is taken out; of empty slots only keys. */
  predicate OnlyGone(h: Heap, x: Object, y: Object) {
    && |y.arr| == |x.arr| && (forall i :: 0 <= i < |x.arr| ==> y.arr[i] == x.arr[i] || Gone(h, x.arr[i]))
    && |y.entries| == |x.entries| && (forall i :: 0 <= i < |x.entries| ==>
          y.entries[i] == x.entries[i] || x.entries[i].val == Nil || Gone(h, x.entries[i].key) || Gone(h, x.entries[i].val))
  }

  predicate Shrinks(h: Heap, k: Heap) {
    && h.Keys == k.Keys && (forall o :: o in h ==> ObjectShrinks(h[o], k[o]) && OnlyGone(k, h[o], k[o]))
    && StringsOnly(h, k)
  }

  lemma GoneStays(h: Heap, k: Heap, v: Value)
    requires Shrinks(h, k) && Gone(h, v)
    ensures Gone(k, v)
  {
    assert ObjectShrinks(h[v.r], k[v.r]);
  }

  lemma OnlyGoneTrans(h: Heap, k: Heap, l: Heap, o: Ref)
    requires Shrinks(h, k) && Shrinks(k, l) && o in h
    ensures OnlyGone(l, h[o], l[o])
  {
    hide Shrinks, ObjectShrinks, Gone;
    assert o in k && OnlyGone(k, h[o], k[o]) && OnlyGone(l, k[o], l[o]) by {
      ShrinksAt(h, k, o);
      ShrinksAt(k, l, o);
    }
    forall v | Gone(k, v)
      ensures Gone(l, v)
    {
      GoneStays(k, l, v);
    }
    forall i | 0 <= i < |h[o].entries| && l[o].entries[i] != h[o].entries[i]
      ensures h[o].entries[i].val == Nil || Gone(l, h[o].entries[i].key) || Gone(l, h[o].entries[i].val)
    {
      if k[o].entries[i] == h[o].entries[i] {
      } else {
        assert h[o].entries[i].val == Nil || Gone(k, h[o].entries[i].key) || Gone(k, h[o].entries[i].val);
      }
    }
  }

  lemma ShrinksAt(h: Heap, k: Heap, o: Ref)
    requires Shrinks(h, k) && o in h
    ensures o in k && ObjectShrinks(h[o], k[o]) && OnlyGone(k, h[o], k[o])
  {
  }

  lemma ShrinksTrans(h: Heap, k: Heap, l: Heap)
    requires Shrinks(h, k) && Shrinks(k, l)
    ensures Shrinks(h, l)
  {
    hide OnlyGone;
    forall o | o in h
      ensures ObjectShrinks(h[o], l[o]) && OnlyGone(l, h[o], l[o])
    {
      OnlyGoneTrans(h, k, l, o);
      assert ObjectShrinks(h[o], k[o]) && ObjectShrinks(k[o], l[o]);
      forall i | 0 <= i < |h[o].entries|
        ensures EntryShrinks(h[o].entries[i], l[o].entries[i])
      {
        assert EntryShrinks(h[o].entries[i], k[o].entries[i]) && EntryShrinks(k[o].entries[i], l[o].entries[i]);
      }
    }
  }

  lemma ShrinksSame(h: Heap)
    ensures Shrinks(h, h)
  {
  }

  lemma ShrinksRefs(x: Object, y: Object)
    requires ObjectShrinks(x, y)
    ensures Refs(y.arr) <= Refs(x.arr) && KeyRefs(y.entries) <= KeyRefs(x.entries)
    ensures ValRefs(y.entries) <= ValRefs(x.entries) && Edges(y) <= Edges(x)
    ensures forall e :: e in y.entries && e.val != Nil ==> e in x.entries
  {
    forall v | v in y.arr && v.Gc?
      ensures v in x.arr
    {
      var i :| 0 <= i < |y.arr| && y.arr[i] == v;
      assert x.arr[i] == v;
    }
    forall e | e in y.entries && e.val != Nil
      ensures e in x.entries
    {
      var i :| 0 <= i < |y.entries| && y.entries[i] == e;
      assert EntryShrinks(x.entries[i], y.entries[i]);
    }
  }

  lemma ShrinksMarked(h: Heap, k: Heap)
    requires Shrinks(h, k)
    ensures Marked(h) <= Marked(k) && Whites(k) <= Whites(h)
  {
    assert forall o :: o in h ==> ObjectShrinks(h[o], k[o]);
  }

  lemma ClosedShrinks(h: Heap, k: Heap, s: set<Ref>)
    requires Closed(h, s) && Shrinks(h, k)
    ensures Closed(k, s)
  {
    forall o | o in s && o in k
      ensures ClosedAt(k, s, k[o])
    {
      assert ObjectShrinks(h[o], k[o]) && ClosedAt(h, s, h[o]);
      ShrinksRefs(h[o], k[o]);
      forall r | r in Edges(k[o]) && r in k
        ensures k[r].kind == h[r].kind
      {
        assert ObjectShrinks(h[r], k[r]);
      }
      assert Strings(k, Edges(k[o])) <= Strings(h, Edges(h[o]));
    }
  }

  /** Emptying parts of a gray table keeps the invariant. */
  lemma ShrinkOne(h: Heap, k: Heap, l: Lists, phase: Phase, white: bool, x: Ref)
    requires MarkInv(h, l, phase, white, {}) && x in h && h[x].color.Gray? && h[x].kind.Table?
    requires x in k && k == h[x := k[x]] && k[x].color.Gray? && ObjectShrinks(h[x], k[x]) && OnlyGone(h, h[x], k[x])
    ensures MarkInv(k, l, phase, white, {}) && Shrinks(h, k)
    ensures Marked(k) == Marked(h)
  {
    hide AllRefs, GrayOk, Edges;
    SameColours(h, k, x);
    forall p: Ref
      ensures Linked(k, l, p)
    {
      assert Linked(h, l, p);
    }
    forall p | p in k
      ensures ObjectOk(k, l, phase, white, p)
    {
      if p == x {
        ShrunkGray(h, k, l, phase, white, x);
      } else {
        OtherOk(h, k, l, l, phase, white, p);
      }
    }
    forall p | p in h
      ensures ObjectShrinks(h[p], k[p]) && OnlyGone(k, h[p], k[p])
    {
      if p != x {
        SameShrinks(h[p]);
      }
    }
  }

  lemma SameColours(h: Heap, k: Heap, x: Ref)
    requires x in h && x in k && k == h[x := k[x]] && k[x].color == h[x].color
    ensures Marked(k) == Marked(h)
  {
  }

  lemma ShrunkGray(h: Heap, k: Heap, l: Lists, phase: Phase, white: bool, x: Ref)
    requires x in h && ObjectOk(h, l, phase, white, x) && h[x].color.Gray? && h[x].kind.Table?
    requires x in k && k[x].color.Gray? && ObjectShrinks(h[x], k[x]) && k.Keys == h.Keys && Marked(k) == Marked(h)
    ensures ObjectOk(k, l, phase, white, x)
  {
    hide AllRefs;
    ShrinksRefs(h[x], k[x]);
  }

  lemma SameShrinks(x: Object)
    ensures ObjectShrinks(x, x)
  {
  }

  lemma MarksShrinks(h: Heap, k: Heap, s: set<Ref>)
    requires Marks(h, k, s) && StringsOnly(h, k)
    ensures Shrinks(h, k)
  {
    forall o | o in h
      ensures ObjectShrinks(h[o], k[o]) && OnlyGone(k, h[o], k[o])
    {
      assert ObjectKept(h[o], k[o]);
      forall i | 0 <= i < |h[o].entries|
        ensures EntryShrinks(h[o].entries[i], k[o].entries[i])
      {
        assert SlotKept(h[o].entries[i], k[o].entries[i]);
      }
    }
  }

  lemma MarksFilled(h: Heap, k: Heap, s: set<Ref>, x: Ref)
    requires Marks(h, k, s) && x in h
    ensures x in k && |k[x].entries| == |h[x].entries|
    ensures forall i :: 0 <= i < |h[x].entries| && h[x].entries[i].val != Nil ==> k[x].entries[i] == h[x].entries[i]
  {
    assert ObjectKept(h[x], k[x]);
  }

  // ---- what has been cleared --------------------------------------------------------

  predicate ArrCleared(h: Heap, x: Ref, n: nat)
    requires x in h
  {
    n <= |h[x].arr| && forall i :: 0 <= i < n ==> RefOf(h[x].arr[i]) <= Marked(h)
  }

  predicate ValsCleared(h: Heap, x: Ref, n: nat)
    requires x in h
  {
    n <= |h[x].entries| && forall i :: 0 <= i < n ==> RefOf(h[x].entries[i].val) <= Marked(h)
  }

  predicate KeysCleared(h: Heap, x: Ref, n: nat)
    requires x in h
  {
    n <= |h[x].entries|
    && forall i :: 0 <= i < n ==> h[x].entries[i].val == Nil || RefOf(h[x].entries[i].key) <= Marked(h)
  }

  predicate ValuesDone(h: Heap, x: Ref) {
    x in h && Refs(h[x].arr) + ValRefs(h[x].entries) <= Marked(h)
  }

  predicate KeysDone(h: Heap, x: Ref) {
    x in h && KeyRefs(h[x].entries) <= Marked(h)
  }

  lemma ClearedKept(h: Heap, k: Heap, x: Ref, n: nat)
    requires Shrinks(h, k) && x in h
    ensures x in k
    ensures ArrCleared(h, x, n) ==> ArrCleared(k, x, n)
    ensures ValsCleared(h, x, n) ==> ValsCleared(k, x, n)
    ensures KeysCleared(h, x, n) ==> KeysCleared(k, x, n)
  {
    assert ObjectShrinks(h[x], k[x]);
    ShrinksMarked(h, k);
    forall i | 0 <= i < |h[x].entries|
      ensures EntryShrinks(h[x].entries[i], k[x].entries[i])
    {
    }
  }

  lemma DoneKept(h: Heap, k: Heap, x: Ref)
    requires Shrinks(h, k)
    ensures ValuesDone(h, x) ==> ValuesDone(k, x)
    ensures KeysDone(h, x) ==> KeysDone(k, x)
  {
    ShrinksMarked(h, k);
    if x in h {
      assert ObjectShrinks(h[x], k[x]);
      ShrinksRefs(h[x], k[x]);
    }
  }

  lemma ValuesAllCleared(h: Heap, x: Ref)
    requires x in h && ArrCleared(h, x, |h[x].arr|) && ValsCleared(h, x, |h[x].entries|)
    ensures ValuesDone(h, x)
  {
    forall v | v in h[x].arr
      ensures RefOf(v) <= Marked(h)
    {
      var i :| 0 <= i < |h[x].arr| && h[x].arr[i] == v;
    }
    forall e | e in h[x].entries
      ensures RefOf(e.val) <= Marked(h)
    {
      var i :| 0 <= i < |h[x].entries| && h[x].entries[i] == e;
    }
  }

  lemma KeysAllCleared(h: Heap, x: Ref)
    requires x in h && KeysCleared(h, x, |h[x].entries|)
    ensures KeysDone(h, x)
  {
    forall e | e in h[x].entries && e.val != Nil
      ensures RefOf(e.key) <= Marked(h)
    {
      var i :| 0 <= i < |h[x].entries| && h[x].entries[i] == e;
    }
  }

  lemma ListedGray(h: Heap, l: Lists, phase: Phase, white: bool, x: Ref)
    requires MarkInv(h, l, phase, white, {}) && (x in l.weak || x in l.allweak || x in l.ephemeron)
    ensures x in h && h[x].color.Gray? && h[x].kind.Table? && Edges(h[x]) <= h.Keys && x in Marked(h)
  {
    assert Linked(h, l, x);
    assert ObjectOk(h, l, phase, white, x);
  }

  /** Strings are in every closed set that has a table with them. */
  lemma TableStrings(h: Heap, s: set<Ref>, x: Ref)
    requires Closed(h, s) && x in s && x in h && h[x].kind.Table?
    ensures Strings(h, Edges(h[x])) <= s
  {
    assert ClosedAt(h, s, h[x]);
  }

  /** After clearing, everything marked refers to marked objects only. */
  lemma AllCleared(h: Heap, l: Lists, white: bool)
    requires MarkInv(h, l, Final, white, {}) && l.gray == [] && l.saved == []
    requires forall o :: o in l.weak ==> ValuesDone(h, o)
    requires forall o :: o in l.allweak ==> ValuesDone(h, o) && KeysDone(h, o)
    requires forall o :: o in l.ephemeron ==> KeysDone(h, o) && ValuesDone(h, o)
    ensures forall o :: o in Marked(h) ==> Edges(h[o]) <= Marked(h)
  {
    forall o | o in Marked(h)
      ensures Edges(h[o]) <= Marked(h)
    {
      assert ObjectOk(h, l, Final, white, o);
    }
  }

  lemma StringsAmong(h: Heap, a: set<Ref>, b: set<Ref>)
    requires a <= b
    ensures Strings(h, a) <= Strings(h, b)
  {
  }

  lemma ArrPart(h: Heap, x: Ref, i: nat)
    requires x in h && i < |h[x].arr|
    ensures RefOf(h[x].arr[i]) <= Edges(h[x])
  {
    assert h[x].arr[i] in h[x].arr;
  }

  lemma EntryPart(h: Heap, x: Ref, i: nat)
    requires x in h && i < |h[x].entries|
    ensures RefOf(h[x].entries[i].val) <= Edges(h[x])
    ensures h[x].entries[i].val != Nil ==> RefOf(h[x].entries[i].key) <= Edges(h[x])
  {
    assert h[x].entries[i] in h[x].entries;
  }

  lemma NilArr(x: Object, i: nat)
    requires i < |x.arr|
    ensures ObjectShrinks(x, x.(arr := x.arr[i := Nil]))
    ensures forall h :: Gone(h, x.arr[i]) ==> OnlyGone(h, x, x.(arr := x.arr[i := Nil]))
  {
  }

  lemma NilEntry(x: Object, i: nat, key: Value)
    requires i < |x.entries| && (key == x.entries[i].key || key == Dead)
    ensures ObjectShrinks(x, x.(entries := x.entries[i := Entry(key, Nil)]))
    ensures forall h :: Gone(h, x.entries[i].key) || Gone(h, x.entries[i].val) ==>
      OnlyGone(h, x, x.(entries := x.entries[i := Entry(key, Nil)]))
  {
  }

  lemma ShrunkVal(h: Heap, k: Heap, x: Ref, i: nat)
    requires Shrinks(h, k) && x in h && i < |h[x].entries| && RefOf(h[x].entries[i].val) <= Marked(k)
    ensures x in k && i < |k[x].entries| && RefOf(k[x].entries[i].val) <= Marked(k)
  {
    assert ObjectShrinks(h[x], k[x]);
    assert EntryShrinks(h[x].entries[i], k[x].entries[i]);
  }

  lemma ShrunkKey(h: Heap, k: Heap, x: Ref, i: nat)
    requires Shrinks(h, k) && x in h && i < |h[x].entries| && RefOf(h[x].entries[i].key) <= Marked(k)
    ensures x in k && i < |k[x].entries|
    ensures k[x].entries[i].val == Nil || RefOf(k[x].entries[i].key) <= Marked(k)
  {
    assert ObjectShrinks(h[x], k[x]);
    assert EntryShrinks(h[x].entries[i], k[x].entries[i]);
  }

  lemma SameArr(h: Heap, k: Heap, x: Ref)
    requires Shrinks(h, k) && x in h
    ensures x in k && |k[x].arr| == |h[x].arr|
  {
    assert ObjectShrinks(h[x], k[x]);
  }
}
