/** What the traversals of skynet/3rd/lua/lgc.c establish about the objects they visit, and how
    it survives further marking. */
module GcTraverse {
  import opened Sets
  import opened LuaHeap
  import opened GcInvariant

  lemma WhitesShrink(h: Heap, k: Heap)
    requires Kept(h, k)
    ensures Whites(k) <= Whites(h) && |Whites(k)| <= |Whites(h)|
  {
    assert forall o :: o in h ==> ObjectKept(h[o], k[o]);
    SubsetSize(Whites(k), Whites(h));
  }

  lemma WhitesFewer(h: Heap, k: Heap, o: Ref)
    requires Kept(h, k) && o in h && h[o].color.White? && !k[o].color.White?
    ensures |Whites(k)| < |Whites(h)|
  {
    WhitesShrink(h, k);
    SubsetSize(Whites(k), Whites(h) - {o});
  }

  /** Once all tables of the list are done, the strong references of marked objects are marked,
      except for those of a table of `allweak` that nothing has looked at since it was put there.
      So the marked objects are closed if and only if they have the strong references of these
      tables. */
  lemma ConvergedClosed(h: Heap, l: Lists, white: bool)
    requires MarkInv(h, l, Final, white, {}) && l.gray == [] && l.saved == []
    requires forall o :: o in l.ephemeron ==> EphemeronDone(h, o)
    ensures forall o :: o in Marked(h) && o !in l.allweak ==> CoreClosedAt(h[o], Marked(h))
    ensures CoreClosed(h, Marked(h)) <==> forall o :: o in l.allweak ==> o in h && CoreClosedAt(h[o], Marked(h))
  {
    hide ListsOk, CoreClosedAt, Edges, AllRefs, EphemeronDone;
    forall o | o in Marked(h) && o !in l.allweak
      ensures CoreClosedAt(h[o], Marked(h))
    {
      assert ObjectOk(h, l, Final, white, o);
      ListedModes(h, l, white, o);
      AllEdges(h[o]);
      if Edges(h[o]) <= Marked(h) {
        EdgesClosed(h[o], Marked(h));
      } else if o in l.ephemeron {
        DoneEntries(h, o);
        EphemeronClosed(h[o], Marked(h));
      } else {
        WeakClosed(h[o], Marked(h));
      }
    }
    forall o | o in l.allweak
      ensures o in Marked(h)
    {
      ListedModes(h, l, white, o);
    }
  }

  /** The tables of `allweak` whose weakness has not been changed have nothing strong that is not
      marked. */
  lemma SettledTables(h: Heap, l: Lists, white: bool, changed: set<Ref>)
    requires MarkInv(h, l, Final, white, {}) && Settled(h, l.allweak, changed)
    ensures forall o :: o in l.allweak && o !in changed ==> o in h && CoreClosedAt(h[o], Marked(h))
  {
    hide CoreClosedAt, SettledAt, AllRefs, Edges;
    forall o | o in l.allweak && o !in changed
      ensures o in h && CoreClosedAt(h[o], Marked(h))
    {
      ListedModes(h, l, white, o);
      SettledClosed(h, h[o]);
    }
  }

  lemma EdgesClosed(x: Object, m: set<Ref>)
    requires Edges(x) <= m
    ensures CoreClosedAt(x, m)
  {
    forall e | e in x.entries
      ensures RefOf(e.val) <= m
    {
      var i :| 0 <= i < |x.entries| && x.entries[i] == e;
      SlotParts(x, i);
    }
  }

  lemma SettledClosed(h: Heap, x: Object)
    requires SettledAt(h, x) && x.kind.Table?
    ensures CoreClosedAt(x, Marked(h))
  {
    forall e | e in x.entries
      ensures RefOf(e.val) <= ValRefs(x.entries)
    {
    }
  }

  lemma EphemeronClosed(x: Object, m: set<Ref>)
    requires x.kind.Table? && x.mode.Ephemeron? && RefOf(x.meta) + Refs(x.arr) <= m
    requires forall e :: e in x.entries && KeyIn(e, m) ==> RefOf(e.val) <= m
    ensures CoreClosedAt(x, m)
  {
  }

  lemma WeakClosed(x: Object, m: set<Ref>)
    requires x.kind.Table? && x.mode.WeakValue? && RefOf(x.meta) + KeyRefs(x.entries) <= m
    ensures CoreClosedAt(x, m)
  {
  }

  lemma ListedModes(h: Heap, l: Lists, white: bool, o: Ref)
    requires MarkInv(h, l, Final, white, {})
    ensures o in l.weak ==> o in h && h[o].kind.Table? && h[o].mode.WeakValue?
    ensures o in l.ephemeron ==> o in h && h[o].kind.Table? && h[o].mode.Ephemeron?
    ensures o in l.allweak ==> o in h && h[o].kind.Table? && o in Marked(h)
  {
    assert Linked(h, l, o);
  }

  lemma DoneEntries(h: Heap, o: Ref)
    requires EphemeronDone(h, o)
    ensures o in h && forall e :: e in h[o].entries && KeyIn(e, Marked(h)) ==> RefOf(e.val) <= Marked(h)
  {
    forall e | e in h[o].entries && KeyIn(e, Marked(h))
      ensures RefOf(e.val) <= Marked(h)
    {
      var i :| 0 <= i < |h[o].entries| && h[o].entries[i] == e;
      assert EphSlot(h, o, i);
    }
  }

  /** What an object refers to strongly, strings in weak parts left aside. */
  function CoreRefs(x: Object): set<Ref> {
    if !x.kind.Table? || x.mode.Strong? then Edges(x)
    else
      match x.mode
      case WeakValue => RefOf(x.meta) + KeyRefs(x.entries)
      case Ephemeron => RefOf(x.meta) + Refs(x.arr)
      case _ => RefOf(x.meta)
  }

  predicate CoreClosedAt(x: Object, s: set<Ref>) {
    && CoreRefs(x) <= s
    && (x.kind.Table? && x.mode.Ephemeron? ==> forall e :: e in x.entries && KeyIn(e, s) ==> RefOf(e.val) <= s)
  }

  ghost predicate CoreClosed(h: Heap, s: set<Ref>) {
    forall o :: o in s && o in h ==> CoreClosedAt(h[o], s)
  }

  lemma EphemeronKept(h: Heap, k: Heap, o: Ref)
    requires Kept(h, k) && StringsOnly(h, k) && EphemeronDone(h, o)
    ensures EphemeronDone(k, o)
  {
    assert ObjectKept(h[o], k[o]);
    KeptMarked(h, k);
    forall i | 0 <= i < |k[o].entries|
      ensures EphSlot(k, o, i)
    {
      assert EphSlot(h, o, i) && SlotKept(h[o].entries[i], k[o].entries[i]);
      var e := h[o].entries[i];
      if e.val != Nil && e.key.Gc? && e.key.r in h {
        assert ObjectKept(h[e.key.r], k[e.key.r]);
      }
    }
  }

  lemma EphemeronColoured(h: Heap, o: Ref)
    requires o in h && !h[o].color.White? && EphemeronDone(h, o)
    ensures EphemeronDone(Coloured(h, o, Gray), o)
  {
    var k := Coloured(h, o, Gray);
    SameMarked(h, o);
    forall i | 0 <= i < |k[o].entries|
      ensures EphSlot(k, o, i)
    {
      assert EphSlot(h, o, i);
    }
  }

  lemma StringsColoured(h: Heap, k: Heap, o: Ref)
    requires StringsOnly(h, k) && o in k && !k[o].color.White?
    ensures StringsOnly(h, Coloured(k, o, Gray))
  {
    SameMarked(k, o);
  }

  lemma OpenGray(k: Heap, o: Ref)
    requires o in k && !k[o].color.White?
    ensures Whites(Coloured(k, o, Gray)) == Whites(k)
  {
    SameMarked(k, o);
  }

  lemma SavedKept(h: Heap, k: Heap, saved: seq<Ref>)
    requires Kept(h, k) && SavedOk(h, saved)
    ensures SavedOk(k, saved)
  {
    KeptMarked(h, k);
    forall o | o in saved
      ensures o in k && k[o].kind.Table? && k[o].mode.Ephemeron? && RefOf(k[o].meta) <= Marked(k)
    {
      assert ObjectKept(h[o], k[o]);
    }
  }

  /** An object, not a table, with nothing left to mark. */
  predicate Resting(h: Heap, o: Ref) {
    o in h && !h[o].kind.Table? && Edges(h[o]) <= Marked(h)
  }

  lemma RestingKept(h: Heap, k: Heap, list: seq<Ref>)
    requires Kept(h, k) && forall o :: o in list ==> Resting(h, o)
    ensures forall o :: o in list ==> Resting(k, o)
  {
    KeptMarked(h, k);
    forall o | o in list
      ensures Resting(k, o)
    {
      assert ObjectKept(h[o], k[o]) && Resting(h, o);
      ObjectKeptRefs(h[o], k[o]);
    }
  }

  lemma RestsBlack(h: Heap, o: Ref)
    requires o in h && Resting(h, o) && !h[o].color.White?
    ensures Resting(Coloured(h, o, Black), o)
  {
  }

  /** A table in the list `allweak` has nothing strong that is not marked. */
  predicate SettledAt(h: Heap, x: Object) {
    && RefOf(x.meta) <= Marked(h)
    && (x.mode.AllWeak? || (x.mode.Ephemeron? && Refs(x.arr) + ValRefs(x.entries) <= Marked(h)))
  }

  /** The tables of `allweak` but those whose weakness has been changed there. */
  predicate Settled(h: Heap, allweak: seq<Ref>, changed: set<Ref>) {
    forall o :: o in allweak && o !in changed ==> o in h && SettledAt(h, h[o])
  }

  lemma SettledKept(h: Heap, k: Heap, allweak: seq<Ref>, changed: set<Ref>)
    requires Kept(h, k)
    ensures Settled(h, allweak, changed) ==> Settled(k, allweak, changed)
  {
    KeptMarked(h, k);
    if Settled(h, allweak, changed) {
      forall o | o in allweak && o !in changed
        ensures o in k && SettledAt(k, k[o])
      {
        assert ObjectKept(h[o], k[o]);
        EntriesKeptRefs(h[o].entries, k[o].entries);
      }
    }
  }

  /** While the program runs between steps the list has only all-weak tables, but for those. */
  predicate StillWeak(h: Heap, allweak: seq<Ref>, changed: set<Ref>) {
    forall o :: o in allweak && o !in changed ==> o in h && h[o].mode.AllWeak?
  }

  lemma StillWeakKept(h: Heap, k: Heap, allweak: seq<Ref>, changed: set<Ref>)
    requires Kept(h, k) && StillWeak(h, allweak, changed)
    ensures StillWeak(k, allweak, changed)
  {
    forall o | o in allweak && o !in changed
      ensures o in k && k[o].mode.AllWeak?
    {
      assert ObjectKept(h[o], k[o]);
    }
  }

  /** In the propagate phase only all-weak tables join the list, and none leaves it. */
  predicate WeakJoined(h: Heap, before: seq<Ref>, after: seq<Ref>) {
    && (forall o :: o in before ==> o in after)
    && (forall o :: o in after ==> o in before || (o in h && h[o].mode.AllWeak?))
  }

  lemma JoinedOne(h: Heap, x: Ref, allweak: seq<Ref>)
    ensures WeakJoined(h, allweak, allweak)
    ensures x in h && h[x].mode.AllWeak? ==> WeakJoined(h, allweak, [x] + allweak)
  {
  }

  lemma StillWeakJoined(h: Heap, k: Heap, before: seq<Ref>, after: seq<Ref>, changed: set<Ref>)
    requires Kept(h, k) && StillWeak(h, before, changed) && WeakJoined(h, before, after)
    ensures StillWeak(k, after, changed)
  {
    assert StillWeak(h, after, changed);
    StillWeakKept(h, k, after, changed);
  }

  lemma StillWeakWritten(h: Heap, x: Ref, y: Object, allweak: seq<Ref>, changed: set<Ref>)
    requires StillWeak(h, allweak, changed) && x in h
    requires y.mode == h[x].mode || (x in allweak ==> x in changed)
    ensures StillWeak(h[x := y], allweak, changed)
  {
  }

  lemma StillWeakNew(h: Heap, o: Ref, y: Object, allweak: seq<Ref>, changed: set<Ref>)
    requires StillWeak(h, allweak, changed) && o !in h
    ensures StillWeak(h[o := y], allweak, changed)
  {
  }

  lemma WeakSettled(h: Heap, l: Lists, white: bool, changed: set<Ref>)
    requires MarkInv(h, l, Marking, white, {}) && StillWeak(h, l.allweak, changed)
    ensures Settled(h, l.allweak, changed)
  {
    hide AllRefs, Edges;
    forall o | o in l.allweak && o !in changed
      ensures SettledAt(h, h[o])
    {
      assert ObjectOk(h, l, Marking, white, o) && Linked(h, l, o);
    }
  }

  lemma MarksKept(h: Heap, k: Heap, s: set<Ref>)
    requires Marks(h, k, s)
    ensures Kept(h, k)
  {
  }

  lemma SameMarked(h: Heap, o: Ref)
    requires o in h && !h[o].color.White?
    ensures Marked(Coloured(h, o, Gray)) == Marked(h) && Whites(Coloured(h, o, Gray)) == Whites(h)
  {
  }

  /** An object taken out of the gray list: nothing else has changed. */
  lemma TakenParts(h: Heap, o: Ref, s: set<Ref>)
    requires o in h && h[o].color.Gray? && Closed(h, s) && Marked(h) <= s && Kept(h, Coloured(h, o, Black))
    ensures var k := Coloured(h, o, Black);
            Closed(k, s) && Marked(k) <= s && Whites(k) == Whites(h)
  {
    ClosedKept(h, Coloured(h, o, Black), s);
  }

  lemma TableParts(h: Heap, s: set<Ref>, x: Ref)
    requires Closed(h, s) && x in s && x in h && h[x].kind.Table? && Edges(h[x]) <= h.Keys
    ensures RefOf(h[x].meta) <= h.Keys * s
  {
    assert ClosedAt(h, s, h[x]);
  }

  lemma AllParts(h: Heap, x: Ref)
    requires x in h && RefOf(h[x].meta) <= Marked(h)
    requires Refs(h[x].arr) + KeyRefs(h[x].entries) + ValRefs(h[x].entries) + SlotRefs(h[x].entries) <= Marked(h)
    ensures AllRefs(h[x]) <= Marked(h)
  {
  }

  lemma PlainDone(h: Heap, k: Heap, o: Ref, s: set<Ref>)
    requires Marks(h, k, s) && o in h && !h[o].kind.Table? && Shaped(h[o]) && h[o].color.Black?
    requires RefOf(h[o].meta) + Refs(h[o].arr) <= Marked(k)
    ensures o in k && k[o].color.Black? && k[o].kind == h[o].kind && AllRefs(k[o]) <= Marked(k)
    ensures Edges(k[o]) <= Marked(k)
  {
    assert ObjectKept(h[o], k[o]);
    PlainEdges(k[o]);
  }

  /** The table after its traversal; in `k` its metatable has been marked. */
  lemma FinishTraversal(h: Heap, k: Heap, l: Heap, x: Ref, s: set<Ref>)
    requires Marks(h, k, s) && Marks(k, l, s) && x in h && Marked(h) <= s
    requires RefOf(h[x].meta) <= Marked(k) && h[x].color.Black?
    ensures Marks(h, l, s) && Kept(h, l) && Marked(l) <= s && x in l && RefOf(l[x].meta) <= Marked(l)
    ensures l[x].color.Black? && l[x].kind == h[x].kind && l[x].mode == h[x].mode
    ensures |Whites(l)| <= |Whites(k)| <= |Whites(h)|
  {
    MarksTrans(h, k, l, s);
    MarksBound(h, k, s);
    MarksBound(k, l, s);
    assert ObjectKept(h[x], k[x]) && ObjectKept(k[x], l[x]);
    KeptMarked(k, l);
  }

  /** The state of a slot of a weak-value table after its traversal. */
  predicate WeakSlot(h: Heap, x: Ref, i: nat, hasclears: bool)
    requires x in h
  {
    && i < |h[x].entries|
    && (h[x].entries[i].val != Nil ==> RefOf(h[x].entries[i].key) <= Marked(h))
    && (!hasclears ==> RefOf(h[x].entries[i].val) <= Marked(h))
  }

  /** The same for an ephemeron table, as far as the flags tell. */
  predicate FlagSlot(h: Heap, x: Ref, i: nat, hasclears: bool, hasww: bool)
    requires x in h
  {
    && i < |h[x].entries|
    && (!hasclears && h[x].entries[i].val != Nil ==> RefOf(h[x].entries[i].key) <= Marked(h))
    && (!hasclears || !hasww ==> RefOf(h[x].entries[i].val) <= Marked(h))
  }

  /** A marked key has a marked value, and keys that are strings are marked. */
  predicate EphSlot(h: Heap, x: Ref, i: nat)
    requires x in h
  {
    && i < |h[x].entries|
    && var e := h[x].entries[i];
       e.val != Nil ==>
         && Strings(h, RefOf(e.key)) <= Marked(h)
         && (RefOf(e.key) <= Marked(h) ==> RefOf(e.val) <= Marked(h))
  }

  ghost predicate EphemeronDone(h: Heap, x: Ref) {
    x in h && forall i :: 0 <= i < |h[x].entries| ==> EphSlot(h, x, i)
  }

  lemma WeakSlotKept(h: Heap, k: Heap, s: set<Ref>, x: Ref, i: nat, hasclears: bool)
    requires Marks(h, k, s) && x in h && WeakSlot(h, x, i, hasclears)
    ensures x in k && WeakSlot(k, x, i, hasclears)
  {
    MarksSlot(h, k, s, x, i);
    MarksMarked(h, k, s);
  }

  lemma FlagSlotKept(h: Heap, k: Heap, s: set<Ref>, x: Ref, i: nat, hasclears: bool, hasww: bool)
    requires Marks(h, k, s) && x in h && FlagSlot(h, x, i, hasclears, hasww)
    ensures x in k && FlagSlot(k, x, i, hasclears, hasww)
  {
    MarksSlot(h, k, s, x, i);
    MarksMarked(h, k, s);
  }

  /** Marking strings leaves a finished slot finished. */
  lemma EphSlotKept(h: Heap, k: Heap, s: set<Ref>, x: Ref, i: nat)
    requires Marks(h, k, s) && StringsOnly(h, k) && x in h && EphSlot(h, x, i)
    ensures x in k && EphSlot(k, x, i)
  {
    MarksSlot(h, k, s, x, i);
    MarksMarked(h, k, s);
    var e := h[x].entries[i];
    if e.val != Nil {
      StringsKept(h, k, s, RefOf(e.key));
    }
  }

  lemma WeakSlots(h: Heap, x: Ref, hasclears: bool)
    requires x in h && forall j :: 0 <= j < |h[x].entries| ==> WeakSlot(h, x, j, hasclears)
    ensures KeyRefs(h[x].entries) <= Marked(h)
    ensures !hasclears ==> ValRefs(h[x].entries) <= Marked(h)
  {
    forall e | e in h[x].entries
      ensures e.val != Nil ==> RefOf(e.key) <= Marked(h)
      ensures !hasclears ==> RefOf(e.val) <= Marked(h)
    {
      var j :| 0 <= j < |h[x].entries| && h[x].entries[j] == e;
      assert WeakSlot(h, x, j, hasclears);
    }
  }

  lemma FlagSlots(h: Heap, x: Ref, hasclears: bool, hasww: bool)
    requires x in h && forall j :: 0 <= j < |h[x].entries| ==> FlagSlot(h, x, j, hasclears, hasww)
    ensures !hasclears ==> KeyRefs(h[x].entries) <= Marked(h)
    ensures !hasclears || !hasww ==> ValRefs(h[x].entries) <= Marked(h)
  {
    forall e | e in h[x].entries
      ensures !hasclears && e.val != Nil ==> RefOf(e.key) <= Marked(h)
      ensures !hasclears || !hasww ==> RefOf(e.val) <= Marked(h)
    {
      var j :| 0 <= j < |h[x].entries| && h[x].entries[j] == e;
      assert FlagSlot(h, x, j, hasclears, hasww);
    }
  }

  lemma StringsKept(h: Heap, k: Heap, s: set<Ref>, rs: set<Ref>)
    requires Marks(h, k, s)
    ensures Strings(k, rs) == Strings(h, rs)
  {
    forall r | r in rs && r in h
      ensures k[r].kind == h[r].kind
    {
      assert ObjectKept(h[r], k[r]);
    }
  }

  lemma StringsSame(h: Heap)
    ensures StringsOnly(h, h)
  {
  }

  lemma StringsTrans(h: Heap, k: Heap, l: Heap, s: set<Ref>)
    requires StringsOnly(h, k) && StringsOnly(k, l) && Marks(k, l, s)
    ensures StringsOnly(h, l)
  {
    forall o | o in Marked(l) && o !in Marked(h)
      ensures l[o].kind.Str?
    {
      if o in Marked(k) {
        assert ObjectKept(k[o], l[o]);
      }
    }
  }

  lemma InMarked(h: Heap, x: Ref)
    requires x in h && !h[x].color.White?
    ensures x in Marked(h)
  {
  }

  lemma MarksBound(h: Heap, k: Heap, s: set<Ref>)
    requires Marks(h, k, s) && Marked(h) <= s
    ensures Marked(k) <= s && |Whites(k)| <= |Whites(h)|
  {
    WhitesShrink(h, k);
  }

  /** What a closed set has of a weak table. */
  lemma WeakParts(h: Heap, s: set<Ref>, x: Ref)
    requires Closed(h, s) && x in s && x in h && h[x].kind.Table? && !h[x].mode.Strong?
    ensures Strings(h, Edges(h[x])) <= s
    ensures h[x].mode.WeakValue? ==> KeyRefs(h[x].entries) <= s
    ensures h[x].mode.Ephemeron? ==> Refs(h[x].arr) <= s
    ensures RefOf(h[x].meta) <= s
  {
    assert ClosedAt(h, s, h[x]);
  }

  lemma SlotWeak(h: Heap, x: Ref, i: nat)
    requires x in h && i < |h[x].entries|
    ensures var e := h[x].entries[i];
            && (e.val != Nil ==> RefOf(e.key) <= KeyRefs(h[x].entries))
            && (e.val != Nil ==> Strings(h, RefOf(e.key)) <= Strings(h, Edges(h[x])))
            && Strings(h, RefOf(e.val)) <= Strings(h, Edges(h[x]))
  {
    assert h[x].entries[i] in h[x].entries;
    SlotParts(h[x], i);
  }

  lemma EphemeronValue(h: Heap, s: set<Ref>, x: Ref, i: nat)
    requires Closed(h, s) && x in s && x in h && h[x].kind.Table? && h[x].mode.Ephemeron?
    requires i < |h[x].entries| && h[x].entries[i].val != Nil && RefOf(h[x].entries[i].key) <= s
    ensures RefOf(h[x].entries[i].val) <= s
  {
    assert ClosedAt(h, s, h[x]) && h[x].entries[i] in h[x].entries && KeyIn(h[x].entries[i], s);
  }

  predicate SlotKeyOk(h: Heap, x: Ref, i: nat)
    requires x in h && i < |h[x].entries|
  {
    RefOf(h[x].entries[i].key) <= Marked(h)
  }

  predicate SlotMarked(h: Heap, x: Ref, i: nat)
    requires x in h
  {
    i < |h[x].entries| && RefOf(h[x].entries[i].key) <= Marked(h) && RefOf(h[x].entries[i].val) <= Marked(h)
  }

  lemma SlotParts(x: Object, i: nat)
    requires i < |x.entries|
    ensures x.entries[i].val != Nil ==> RefOf(x.entries[i].key) <= Edges(x)
    ensures RefOf(x.entries[i].val) <= Edges(x)
  {
    assert x.entries[i] in x.entries;
  }

  lemma MarksSlots(h: Heap, k: Heap, s: set<Ref>, x: Ref)
    requires Marks(h, k, s) && x in h
    ensures x in k && |k[x].entries| == |h[x].entries| && k[x].arr == h[x].arr && k[x].meta == h[x].meta
    ensures k[x].kind == h[x].kind && k[x].mode == h[x].mode
  {
    assert ObjectKept(h[x], k[x]);
  }

  lemma MarksSlot(h: Heap, k: Heap, s: set<Ref>, x: Ref, i: nat)
    requires Marks(h, k, s) && x in h && i < |h[x].entries|
    ensures x in k && i < |k[x].entries|
    ensures h[x].entries[i].val != Nil ==> k[x].entries[i] == h[x].entries[i]
    ensures SlotKept(h[x].entries[i], k[x].entries[i])
  {
    assert ObjectKept(h[x], k[x]);
  }

  lemma MarkedSlotKept(h: Heap, k: Heap, s: set<Ref>, x: Ref, i: nat)
    requires Marks(h, k, s) && x in h && SlotMarked(h, x, i)
    ensures x in k && SlotMarked(k, x, i)
  {
    MarksSlot(h, k, s, x, i);
    MarksMarked(h, k, s);
  }

  lemma SlotsMarked(h: Heap, x: Ref)
    requires x in h && forall j :: 0 <= j < |h[x].entries| ==> SlotMarked(h, x, j)
    ensures KeyRefs(h[x].entries) + ValRefs(h[x].entries) + SlotRefs(h[x].entries) <= Marked(h)
  {
    forall e | e in h[x].entries
      ensures RefOf(e.key) <= Marked(h) && RefOf(e.val) <= Marked(h)
    {
      var j :| 0 <= j < |h[x].entries| && h[x].entries[j] == e;
      assert SlotMarked(h, x, j);
    }
  }

  /** A userdata whose metatable and user value are marked is black. */
  lemma UserDone(h: Heap, k: Heap, o: Ref, s: set<Ref>)
    requires Marks(h, k, s) && o in h && h[o].kind.Udata? && Shaped(h[o]) && h[o].color.Black?
    requires RefOf(h[o].meta) + Refs(h[o].arr) <= Marked(k)
    ensures o in k && k[o].color.Black? && k[o].kind.Udata? && AllRefs(k[o]) <= Marked(k)
  {
    assert ObjectKept(h[o], k[o]);
    PlainEdges(k[o]);
  }

  lemma MarksWhites(h: Heap, k: Heap, s: set<Ref>)
    requires Marks(h, k, s)
    ensures |Whites(k)| <= |Whites(h)| && h.Keys == k.Keys
  {
    WhitesShrink(h, k);
  }

  lemma MarksMarked(h: Heap, k: Heap, s: set<Ref>)
    requires Marks(h, k, s)
    ensures Marked(h) <= Marked(k)
  {
    KeptMarked(h, k);
  }

  lemma RefsOne(vs: seq<Value>, i: nat)
    requires i < |vs|
    ensures RefOf(vs[i]) <= Refs(vs)
    ensures Refs(vs[..i + 1]) == Refs(vs[..i]) + RefOf(vs[i])
  {
    assert vs[..i + 1] == vs[..i] + [vs[i]];
  }

  /** What an object in a closed set that is not a weak table refers to is in the set. */
  lemma StrongParts(h: Heap, s: set<Ref>, o: Ref)
    requires Closed(h, s) && o in s && o in h && (!h[o].kind.Table? || h[o].mode.Strong?)
    ensures Edges(h[o]) <= s
  {
    assert ClosedAt(h, s, h[o]);
  }
}
