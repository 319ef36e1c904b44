/** The invariant of the marking phases of skynet/3rd/lua/lgc.c, and the single changes of the
    heap and of the gray lists that marking is made of. */
module GcInvariant {
  import opened LuaHeap

  /** The gray lists. `saved` is the list that `atomic` keeps in a local variable. An object is
      linked through its one field `gclist`, so it can be in one of them only. */
  datatype Lists = Lists(
    gray: seq<Ref>, grayagain: seq<Ref>, weak: seq<Ref>, allweak: seq<Ref>, ephemeron: seq<Ref>, saved: seq<Ref>)

  /** While the program runs between steps, gray objects wait in `gray` and `grayagain`. In the
      step of the atomic phase tables may go into the other lists, too; and once `atomic` has
      saved `grayagain`, objects that get there are done. */
  datatype Phase = Marking | Closing | Final

  function Count(l: Lists, o: Ref): nat {
    multiset(l.gray)[o] + multiset(l.grayagain)[o] + multiset(l.weak)[o]
    + multiset(l.allweak)[o] + multiset(l.ephemeron)[o] + multiset(l.saved)[o]
  }

  predicate Linked(h: Heap, l: Lists, o: Ref) {
    && Count(l, o) <= 1
    && (Count(l, o) > 0 ==> o in h && h[o].color.Gray?)
    && (o in l.weak ==> o in h && h[o].kind.Table? && h[o].mode.WeakValue?)
    && (o in l.ephemeron ==> o in h && h[o].kind.Table? && h[o].mode.Ephemeron?)
    && (o in l.allweak ==> o in h && h[o].kind.Table?)
  }

  ghost predicate ListsOk(h: Heap, l: Lists) {
    forall o: Ref :: Linked(h, l, o)
  }

  /** A gray object will be visited again, or what it still may lack is known from its list. */
  predicate GrayOk(h: Heap, l: Lists, phase: Phase, o: Ref)
    requires o in h
  {
    var x, m := h[o], Marked(h);
    || o in l.gray || o in l.saved || (!phase.Final? && o in l.grayagain)
    || (phase.Final? && x.kind.Thread? && Edges(x) <= m)
    || (o in l.allweak && RefOf(x.meta) <= m)
    || (!phase.Marking? && o in l.weak && RefOf(x.meta) + KeyRefs(x.entries) <= m)
    || (!phase.Marking? && o in l.ephemeron && RefOf(x.meta) + Refs(x.arr) <= m)
    || (!phase.Marking? && x.kind.Table? && Edges(x) <= m)
  }

  predicate Shaped(x: Object) {
    && (!x.kind.Table? ==> x.entries == [])
    && (x.kind.Str? || x.kind.Thread? || x.kind.Function? ==> x.meta == Nil)
    && (x.kind.Str? ==> x.arr == [])
  }

  /** Black objects refer to no white ones; threads are never black. */
  predicate ObjectOk(h: Heap, l: Lists, phase: Phase, white: bool, o: Ref)
    requires o in h
  {
    var x := h[o];
    && Shaped(x) && Edges(x) <= h.Keys
    && (x.color.White? ==> x.color == White(white))
    && (x.color.Black? ==> !x.kind.Thread? && AllRefs(x) <= Marked(h))
    && (x.color.Gray? ==> GrayOk(h, l, phase, o))
  }

  /** An object in the middle of its traversal, about which less is known. */
  predicate OpenOk(h: Heap, l: Lists, o: Ref) {
    o in h && Shaped(h[o]) && Edges(h[o]) <= h.Keys && !h[o].color.White? && Count(l, o) == 0
  }

  ghost predicate MarkInv(h: Heap, l: Lists, phase: Phase, white: bool, open: set<Ref>) {
    && ListsOk(h, l)
    && (forall o :: o in h && o !in open ==> ObjectOk(h, l, phase, white, o))
    && (forall o :: o in open ==> OpenOk(h, l, o))
  }

  // ---- single changes ---------------------------------------------------------------

  function Coloured(h: Heap, o: Ref, c: Color): Heap
    requires o in h
  {
    h[o := h[o].(color := c)]
  }

  lemma MultisetCons(o: Ref, s: seq<Ref>)
    ensures multiset([o] + s) == multiset(s) + multiset{o}
  {
  }

  /** Whatever list has `p` in `l` has it in `l1`. */
  predicate StillIn(l: Lists, l1: Lists, p: Ref) {
    && (p in l.gray ==> p in l1.gray) && (p in l.saved ==> p in l1.saved)
    && (p in l.grayagain ==> p in l1.grayagain) && (p in l.weak ==> p in l1.weak)
    && (p in l.allweak ==> p in l1.allweak) && (p in l.ephemeron ==> p in l1.ephemeron)
  }

  /** An object stays in order when it is not touched and others are marked. */
  lemma OtherOk(h: Heap, k: Heap, l: Lists, l1: Lists, phase: Phase, white: bool, p: Ref)
    requires p in h && ObjectOk(h, l, phase, white, p) && p in k && k[p] == h[p]
    requires k.Keys == h.Keys && Marked(h) <= Marked(k) && StillIn(l, l1, p)
    ensures ObjectOk(k, l1, phase, white, p)
  {
  }

  lemma OtherOpen(h: Heap, k: Heap, l: Lists, l1: Lists, p: Ref)
    requires OpenOk(h, l, p) && p in k && k[p] == h[p] && k.Keys == h.Keys && Count(l1, p) == Count(l, p)
    ensures OpenOk(k, l1, p)
  {
  }

  datatype Which = ToGrayagain | ToWeak | ToAllweak | ToEphemeron | Nowhere

  function LinkIn(l: Lists, o: Ref, which: Which): Lists {
    match which
    case ToGrayagain => l.(grayagain := [o] + l.grayagain)
    case ToWeak => l.(weak := [o] + l.weak)
    case ToAllweak => l.(allweak := [o] + l.allweak)
    case ToEphemeron => l.(ephemeron := [o] + l.ephemeron)
    case Nowhere => l
  }

  /** What a traversal must have marked before the object may go into a list. */
  predicate MayLink(h: Heap, phase: Phase, o: Ref, which: Which)
    requires o in h
  {
    var x, m := h[o], Marked(h);
    match which
    case ToGrayagain => !phase.Final? || (x.kind.Thread? && Edges(x) <= m)
    case ToWeak => !phase.Marking? && x.kind.Table? && x.mode.WeakValue? && RefOf(x.meta) + KeyRefs(x.entries) <= m
    case ToAllweak => x.kind.Table? && RefOf(x.meta) <= m
    case ToEphemeron => !phase.Marking? && x.kind.Table? && x.mode.Ephemeron? && RefOf(x.meta) + Refs(x.arr) <= m
    case Nowhere => !phase.Marking? && x.kind.Table? && Edges(x) <= m
  }

  lemma BecomesOpen(h: Heap, l: Lists, l1: Lists, phase: Phase, white: bool, o: Ref)
    requires o in h && ObjectOk(h, l, phase, white, o) && Count(l1, o) == 0
    ensures OpenOk(Coloured(h, o, Black), l1, o)
  {
  }

  /** How linking, pushing and taking an object change the counts. */
  lemma CountLink(l: Lists, o: Ref, which: Which, p: Ref)
    ensures Count(LinkIn(l, o, which), p) == Count(l, p) + if p == o && !which.Nowhere? then 1 else 0
    ensures StillIn(l, LinkIn(l, o, which), p)
    ensures p != o ==> StillIn(LinkIn(l, o, which), l, p)
  {
    MultisetCons(o, l.grayagain);
    MultisetCons(o, l.weak);
    MultisetCons(o, l.allweak);
    MultisetCons(o, l.ephemeron);
  }

  lemma CountPush(l: Lists, o: Ref, p: Ref)
    ensures Count(l.(gray := [o] + l.gray), p) == Count(l, p) + if p == o then 1 else 0
    ensures StillIn(l, l.(gray := [o] + l.gray), p)
  {
    MultisetCons(o, l.gray);
  }

  lemma CountTake(l: Lists, p: Ref)
    requires l.gray != []
    ensures Count(l.(gray := l.gray[1..]), p) == Count(l, p) - if p == l.gray[0] then 1 else 0
    ensures p != l.gray[0] ==> StillIn(l, l.(gray := l.gray[1..]), p)
    ensures Count(l, l.gray[0]) > 0
  {
    assert l.gray == [l.gray[0]] + l.gray[1..];
    MultisetCons(l.gray[0], l.gray[1..]);
  }

  lemma MarkedOk(h: Heap, l: Lists, phase: Phase, white: bool, o: Ref)
    requires o in h && ObjectOk(h, l, phase, white, o)
    ensures ObjectOk(Coloured(h, o, Gray), l.(gray := [o] + l.gray), phase, white, o)
  {
  }

  lemma LinkedOk(h: Heap, l: Lists, phase: Phase, white: bool, o: Ref, which: Which)
    requires OpenOk(h, l, o) && MayLink(h, phase, o, which)
    ensures ObjectOk(Coloured(h, o, Gray), LinkIn(l, o, which), phase, white, o)
  {
    assert Marked(h) == Marked(Coloured(h, o, Gray));
  }

  /** A white object becomes gray and is put into the gray list. */
  lemma MarkGray(h: Heap, l: Lists, phase: Phase, white: bool, open: set<Ref>, o: Ref)
    requires MarkInv(h, l, phase, white, open) && o in h && h[o].color.White?
    ensures MarkInv(Coloured(h, o, Gray), l.(gray := [o] + l.gray), phase, white, open)
    ensures Kept(h, Coloured(h, o, Gray))
  {
    hide GrayOk, Edges, AllRefs, Count;
    var k, l1 := Coloured(h, o, Gray), l.(gray := [o] + l.gray);
    assert o !in open && Count(l, o) == 0 by {
      assert Linked(h, l, o);
    }
    assert Marked(h) <= Marked(k);
    forall p: Ref
      ensures Linked(k, l1, p) && StillIn(l, l1, p) && (p != o ==> Count(l1, p) == Count(l, p))
    {
      assert Linked(h, l, p);
      CountPush(l, o, p);
    }
    forall p | p in k && p !in open
      ensures ObjectOk(k, l1, phase, white, p)
    {
      if p != o {
        OtherOk(h, k, l, l1, phase, white, p);
      } else {
        MarkedOk(h, l, phase, white, o);
      }
    }
    forall p | p in open
      ensures OpenOk(k, l1, p)
    {
      OtherOpen(h, k, l, l1, p);
    }
  }

  /** A white object becomes black while it is traversed. */
  lemma MarkOpen(h: Heap, l: Lists, phase: Phase, white: bool, open: set<Ref>, o: Ref)
    requires MarkInv(h, l, phase, white, open) && o in h && h[o].color.White?
    ensures MarkInv(Coloured(h, o, Black), l, phase, white, open + {o})
    ensures Kept(h, Coloured(h, o, Black))
  {
    hide GrayOk, Edges, AllRefs, Count;
    var k := Coloured(h, o, Black);
    assert Marked(h) <= Marked(k);
    forall p: Ref
      ensures Linked(k, l, p)
    {
      assert Linked(h, l, p);
    }
    forall p | p in k && p !in open + {o}
      ensures ObjectOk(k, l, phase, white, p)
    {
      OtherOk(h, k, l, l, phase, white, p);
    }
    forall p | p in open + {o}
      ensures OpenOk(k, l, p)
    {
      if p == o {
        assert Linked(h, l, o);
        BecomesOpen(h, l, l, phase, white, o);
      } else {
        OtherOpen(h, k, l, l, p);
      }
    }
  }

  /** The first object of the saved list is taken out to be traversed. It stays gray. */
  lemma TakeSaved(h: Heap, l: Lists, phase: Phase, white: bool)
    requires MarkInv(h, l, phase, white, {}) && l.saved != []
    ensures l.saved[0] in h && h[l.saved[0]].color.Gray?
    ensures MarkInv(h, l.(saved := l.saved[1..]), phase, white, {l.saved[0]})
  {
    hide GrayOk, Edges, AllRefs, Count, ObjectOk, OpenOk;
    var o, l1 := l.saved[0], l.(saved := l.saved[1..]);
    CountTakeSaved(l, o);
    assert Linked(h, l, o);
    forall p: Ref
      ensures Linked(h, l1, p) && (p != o ==> StillIn(l, l1, p))
    {
      assert Linked(h, l, p);
      CountTakeSaved(l, p);
    }
    forall p | p in h && p != o
      ensures ObjectOk(h, l1, phase, white, p)
    {
      OtherOk(h, h, l, l1, phase, white, p);
    }
    StaysOpen(h, l, l1, phase, white, o);
  }

  /** The tables that `convergeephemerons` has still to traverse in a round. */
  predicate SavedOk(h: Heap, saved: seq<Ref>) {
    forall o :: o in saved ==>
      o in h && h[o].kind.Table? && h[o].mode.Ephemeron? && RefOf(h[o].meta) <= Marked(h)
  }

  /** The ephemeron tables become the list that is worked on. */
  lemma MoveToSaved(h: Heap, l: Lists, phase: Phase, white: bool)
    requires MarkInv(h, l, phase, white, {}) && l.saved == [] && phase.Final?
    ensures MarkInv(h, l.(saved := l.ephemeron, ephemeron := []), phase, white, {})
    ensures SavedOk(h, l.ephemeron)
  {
    hide AllRefs;
    var l1 := l.(saved := l.ephemeron, ephemeron := []);
    forall p: Ref
      ensures Linked(h, l1, p)
    {
      assert Linked(h, l, p);
    }
    forall p | p in h
      ensures ObjectOk(h, l1, phase, white, p)
    {
      assert ObjectOk(h, l, phase, white, p);
    }
    forall o | o in l.ephemeron
      ensures o in h && h[o].kind.Table? && h[o].mode.Ephemeron? && RefOf(h[o].meta) <= Marked(h)
    {
      assert Linked(h, l, o) && ObjectOk(h, l, phase, white, o);
    }
  }

  lemma StaysOpen(h: Heap, l: Lists, l1: Lists, phase: Phase, white: bool, o: Ref)
    requires o in h && ObjectOk(h, l, phase, white, o) && h[o].color.Gray? && Count(l1, o) == 0
    ensures OpenOk(h, l1, o)
  {
  }

  lemma CountTakeSaved(l: Lists, p: Ref)
    requires l.saved != []
    ensures Count(l.(saved := l.saved[1..]), p) == Count(l, p) - if p == l.saved[0] then 1 else 0
    ensures p != l.saved[0] ==> StillIn(l, l.(saved := l.saved[1..]), p)
    ensures Count(l, l.saved[0]) > 0
  {
    assert l.saved == [l.saved[0]] + l.saved[1..];
    MultisetCons(l.saved[0], l.saved[1..]);
  }

  /** The end of a traversal that leaves the object black. */
  lemma CloseBlack(h: Heap, l: Lists, phase: Phase, white: bool, open: set<Ref>, o: Ref)
    requires MarkInv(h, l, phase, white, open + {o})
    requires o in h && h[o].color.Black? && !h[o].kind.Thread? && AllRefs(h[o]) <= Marked(h)
    ensures MarkInv(h, l, phase, white, open - {o})
  {
    forall p | p in h && p !in open - {o}
      ensures ObjectOk(h, l, phase, white, p)
    {
      assert p == o ==> OpenOk(h, l, o);
    }
    forall p | p in open - {o}
      ensures OpenOk(h, l, p)
    {
      assert p in open + {o};
    }
  }

  /** The first object of the gray list is taken out to be traversed. */
  lemma TakeGray(h: Heap, l: Lists, phase: Phase, white: bool)
    requires MarkInv(h, l, phase, white, {}) && l.gray != []
    ensures l.gray[0] in h && h[l.gray[0]].color.Gray?
    ensures MarkInv(Coloured(h, l.gray[0], Black), l.(gray := l.gray[1..]), phase, white, {l.gray[0]})
    ensures Kept(h, Coloured(h, l.gray[0], Black))
  {
    hide GrayOk, Edges, AllRefs, Count, ObjectOk, OpenOk;
    var o := l.gray[0];
    CountTake(l, o);
    assert Linked(h, l, o);
    var k, l1 := Coloured(h, o, Black), l.(gray := l.gray[1..]);
    assert Marked(h) == Marked(k);
    forall p: Ref
      ensures Linked(k, l1, p) && (p != o ==> StillIn(l, l1, p))
    {
      assert Linked(h, l, p);
      CountTake(l, p);
    }
    forall p | p in k && p != o
      ensures ObjectOk(k, l1, phase, white, p)
    {
      OtherOk(h, k, l, l1, phase, white, p);
    }
    BecomesOpen(h, l, l1, phase, white, o);
  }

  lemma CloseLinked(h: Heap, l: Lists, phase: Phase, o: Ref, which: Which, p: Ref)
    requires OpenOk(h, l, o) && MayLink(h, phase, o, which) && Linked(h, l, p)
    ensures Linked(Coloured(h, o, Gray), LinkIn(l, o, which), p)
    ensures StillIn(l, LinkIn(l, o, which), p)
    ensures p != o ==> Count(LinkIn(l, o, which), p) == Count(l, p)
  {
    hide Edges, AllRefs;
    CountLink(l, o, which, p);
  }

  /** The end of a traversal that leaves the object gray, in some list or in none. */
  lemma CloseGray(h: Heap, l: Lists, phase: Phase, white: bool, open: set<Ref>, o: Ref, which: Which)
    requires MarkInv(h, l, phase, white, open + {o}) && o in h && MayLink(h, phase, o, which)
    ensures MarkInv(Coloured(h, o, Gray), LinkIn(l, o, which), phase, white, open - {o})
    ensures Kept(h, Coloured(h, o, Gray))
  {
    hide Edges, AllRefs, Count, ObjectOk, GrayOk, MayLink, Linked;
    var k, l1 := Coloured(h, o, Gray), LinkIn(l, o, which);
    assert OpenOk(h, l, o) && ListsOk(h, l);
    assert Marked(h) == Marked(k);
    forall p: Ref
      ensures Linked(k, l1, p) && StillIn(l, l1, p) && (p != o ==> Count(l1, p) == Count(l, p))
    {
      CloseLinked(h, l, phase, o, which, p);
    }
    forall p | p in k && p !in open - {o}
      ensures ObjectOk(k, l1, phase, white, p)
    {
      if p != o {
        OtherOk(h, k, l, l1, phase, white, p);
      } else {
        LinkedOk(h, l, phase, white, o, which);
      }
    }
    forall p | p in open - {o}
      ensures OpenOk(k, l1, p)
    {
      OtherOpen(h, k, l, l1, p);
    }
  }

  /** Marking changes nothing about an object under traversal but keys of its empty slots. */
  lemma KeepOpen(h: Heap, k: Heap, l: Lists, phase: Phase, white: bool, open: set<Ref>, o: Ref)
    requires MarkInv(h, l, phase, white, open) && o in open
    requires o in k && k == h[o := k[o]] && k[o].color == h[o].color && ObjectKept(h[o], k[o])
    ensures MarkInv(k, l, phase, white, open) && Kept(h, k)
  {
    hide GrayOk, Edges, AllRefs;
    assert OpenOk(h, l, o);
    ObjectKeptRefs(h[o], k[o]);
    assert Marked(h) == Marked(k);
    forall p: Ref
      ensures Linked(k, l, p)
    {
      assert Linked(h, l, p);
    }
    forall p | p in k && p !in open
      ensures ObjectOk(k, l, phase, white, p)
    {
      OtherOk(h, k, l, l, phase, white, p);
    }
    forall p | p in open
      ensures OpenOk(k, l, p)
    {
      if p != o {
        OtherOpen(h, k, l, l, p);
      }
    }
    forall p | p in h
      ensures ObjectKept(h[p], k[p])
    {
      if p != o {
        SameKept(h[p]);
      }
    }
  }

  lemma SameKept(x: Object)
    ensures ObjectKept(x, x)
  {
  }

  // ---- what marking cannot reach ----------------------------------------------------

  function Strings(h: Heap, rs: set<Ref>): set<Ref> {
    set r | r in rs && r in h && h[r].kind.Str?
  }

  /** What the collector marks on account of an object; strings are never weak. */
  function StrongRefs(h: Heap, x: Object): set<Ref> {
    if !x.kind.Table? || x.mode.Strong? then Edges(x)
    else
      var rest := Strings(h, Edges(x));
      match x.mode
      case WeakValue => RefOf(x.meta) + KeyRefs(x.entries) + rest
      case Ephemeron => RefOf(x.meta) + Refs(x.arr) + rest
      case _ => RefOf(x.meta) + rest
  }

  predicate KeyIn(e: Entry, s: set<Ref>) {
    e.val != Nil && RefOf(e.key) <= s
  }

  /** A set that marking cannot leave: it holds what its members refer to strongly, and the
      value of an entry of an ephemeron table when it holds the key. */
  ghost predicate Closed(h: Heap, s: set<Ref>) {
    forall o :: o in s && o in h ==> ClosedAt(h, s, h[o])
  }

  predicate ClosedAt(h: Heap, s: set<Ref>, x: Object) {
    && StrongRefs(h, x) <= s
    && (x.kind.Table? && x.mode.Ephemeron? ==> forall e :: e in x.entries && KeyIn(e, s) ==> RefOf(e.val) <= s)
  }

  lemma ClosedKept(h: Heap, k: Heap, s: set<Ref>)
    requires Closed(h, s) && Kept(h, k)
    ensures Closed(k, s)
  {
    forall o | o in s && o in k
      ensures ClosedAt(k, s, k[o])
    {
      assert ObjectKept(h[o], k[o]) && ClosedAt(h, s, h[o]);
      ObjectKeptRefs(h[o], k[o]);
      forall r | r in Edges(k[o]) && r in k
        ensures k[r].kind == h[r].kind
      {
        assert ObjectKept(h[r], k[r]);
      }
      assert Strings(k, Edges(k[o])) == Strings(h, Edges(h[o]));
      forall e | e in k[o].entries && KeyIn(e, s)
        ensures e in h[o].entries
      {
        var i :| 0 <= i < |k[o].entries| && k[o].entries[i] == e;
        assert SlotKept(h[o].entries[i], k[o].entries[i]);
      }
    }
  }

  /** Marking phase the set `s`: what was marked stays marked, what was black stays black. */
  predicate Marks(h: Heap, k: Heap, s: set<Ref>) {
    && Kept(h, k) && Marked(k) <= Marked(h) + s
    && forall o :: o in h && h[o].color.Black? ==> k[o].color.Black?
  }

  lemma MarksTrans(h: Heap, k: Heap, l: Heap, s: set<Ref>)
    requires Marks(h, k, s) && Marks(k, l, s)
    ensures Marks(h, l, s)
  {
    KeptTrans(h, k, l);
  }

  lemma MarksSame(h: Heap, s: set<Ref>)
    ensures Marks(h, h, s)
  {
    forall o | o in h
      ensures ObjectKept(h[o], h[o])
    {
      SameKept(h[o]);
    }
  }

  lemma MarksOne(h: Heap, o: Ref, c: Color, s: set<Ref>)
    requires o in h && h[o].color.White? && !c.White? && o in s
    ensures Marks(h, Coloured(h, o, c), s)
  {
    forall p | p in h
      ensures ObjectKept(h[p], Coloured(h, o, c)[p])
    {
      SameKept(h[p]);
    }
  }

  /** The parts of an object under traversal stay where marking can find them. */
  lemma OpenParts(h: Heap, l: Lists, phase: Phase, white: bool, open: set<Ref>, o: Ref)
    requires MarkInv(h, l, phase, white, open) && o in open
    ensures o in h && !h[o].color.White? && Shaped(h[o]) && Edges(h[o]) <= h.Keys
  {
    assert OpenOk(h, l, o);
  }

  lemma WhiteParts(h: Heap, l: Lists, phase: Phase, white: bool, open: set<Ref>, o: Ref)
    requires MarkInv(h, l, phase, white, open) && o in h && h[o].color.White?
    ensures o !in open && Shaped(h[o]) && Edges(h[o]) <= h.Keys
  {
    assert o in open ==> OpenOk(h, l, o);
    assert ObjectOk(h, l, phase, white, o);
  }

  lemma PlainEdges(x: Object)
    requires Shaped(x) && !x.kind.Table?
    ensures AllRefs(x) == Edges(x) == RefOf(x.meta) + Refs(x.arr)
  {
    assert x.entries == [];
  }

  /** Nothing but strings is marked in `k` that was not marked in `h`. */
  predicate StringsOnly(h: Heap, k: Heap) {
    forall o :: o in Marked(k) && o !in Marked(h) ==> o in k && k[o].kind.Str?
  }
}
