/** The collector of skynet/3rd/lua/lgc.c: marking, the atomic phase, sweeping, and the
    barriers and other operations of the running program in between. */
module GcCollector {
  import opened LuaHeap
  import opened GcInvariant
  import opened GcTraverse
  import opened GcClear
  import opened GcProgram
  import opened GcSweep

  /** Not a table that the atomic phase visits again. */
  predicate VisitedOnce(h: Heap, x: Ref) {
    x in h && (h[x].kind.Table? ==> h[x].mode.Strong? || h[x].mode.AllWeak?)
  }

  /** A visit to such an object puts it into `grayagain` only when it is no table. */
  predicate Again(h: Heap, x: Ref, before: seq<Ref>, after: seq<Ref>) {
    VisitedOnce(h, x) ==> after == before || (after == [x] + before && !h[x].kind.Table?)
  }

  predicate AllWeakTable(h: Heap, x: Ref) {
    x in h && h[x].kind.Table? && h[x].mode.AllWeak?
  }

  datatype GcState = Propagate | Atomic | SwpAllgc | SwpFinobj | SwpTobefnz | SwpEnd | CallFin | Pause | InsideAtomic

  class Collector {
    const mainthread: Ref
    var objs: Heap
    var gray: seq<Ref>
    var grayagain: seq<Ref>
    var weak: seq<Ref>
    var allweak: seq<Ref>
    var ephemeron: seq<Ref>
    /** the list of gray objects that the collector holds in a local variable */
    var saved: seq<Ref>
    var state: GcState
    /** Has the step of the atomic phase begun? */
    ghost var closing: bool
    var white: bool
    var allgc: seq<Ref>
    /** how many objects of `allgc` the sweep has passed; -1 when there is nothing to sweep */
    var sweepgc: int
    /** the metatables that all-weak tables have got after their traversal in this cycle, and that
        the barrier of `lua_setmetatable` has missed */
    var late: map<Ref, Value>
    /** the tables of `allweak` whose weakness has been changed since they were put there */
    ghost var changed: set<Ref>
    /** the running thread */
    var running: Ref
    var registry: Value
    var mt: seq<Value>

    ghost function Grays(): Lists
      reads this
    {
      Lists(gray, grayagain, weak, allweak, ephemeron, saved)
    }

    ghost function Now(): Phase
      reads this
    {
      if state.InsideAtomic? then Final else if closing then Closing else Marking
    }

    ghost predicate Inv(open: set<Ref>)
      reads this
    {
      MarkInv(objs, Grays(), Now(), white, open) && LateOk()
    }

    ghost predicate LateOk()
      reads this
    {
      forall x :: x in late ==> x in allweak
    }

    /** Late metatables exist. */
    ghost predicate LateHere()
      reads this
    {
      forall x :: x in late ==> RefOf(late[x]) <= objs.Keys
    }

    /** The metatable of an object. */
    function Meta(x: Ref): Value
      requires x in objs
      reads this
    {
      if x in late then late[x] else objs[x].meta
    }

    /** An object in the middle of its traversal, or a white one, has no late metatable. */
    lemma NotLate(x: Ref, open: set<Ref>)
      requires Inv(open) && x in objs && (x in open || objs[x].color.White?)
      ensures Meta(x) == objs[x].meta
    {
      assert x in allweak ==> Count(Grays(), x) > 0;
      assert Linked(objs, Grays(), x);
      if x in open {
        assert OpenOk(objs, Grays(), x);
      }
    }

    predicate IsWhite(o: Ref)
      requires o in objs
      reads this
    {
      objs[o].color.White?
    }

    // ---- marking --------------------------------------------------------------------

    /** `reallymarkobject`. Whatever it marks is in every closed set `s` that has `o`. The
        source goes on with the user value by a jump. */
    method ReallyMark(o: Ref, ghost open: set<Ref>, ghost s: set<Ref>)
      requires Inv(open) && o in objs && IsWhite(o)
      requires o in s && Closed(objs, s)
      modifies this`objs, this`gray
      ensures Inv(open) && Marks(old(objs), objs, s) && Closed(objs, s)
      ensures o in Marked(objs) && |Whites(objs)| < |Whites(old(objs))|
      ensures |gray| >= |old(gray)|
      ensures !old(objs)[o].kind.Str? && !old(objs)[o].kind.Udata? ==>
        gray == [o] + old(gray) && objs == Coloured(old(objs), o, Gray)
      decreases |Whites(objs)|, 1
    {
      hide MarkInv, Closed, Kept, AllRefs, Edges, Marks;
      ghost var h, phase := objs, Now();
      WhiteParts(objs, Grays(), phase, white, open, o);
      match objs[o].kind
      case Str =>
        MarkOpen(objs, Grays(), phase, white, open, o);
        MarksOne(h, o, Black, s);
        objs := objs[o := objs[o].(color := Black)];
        assert objs == Coloured(h, o, Black);
        ClosedKept(h, objs, s);
        WhitesFewer(h, objs, o);
        PlainEdges(objs[o]);
        CloseBlack(objs, Grays(), phase, white, open, o);
        assert open - {o} == open;
      case Udata =>
        MarkUser(o, open, s);
      case _ =>
        MarkGray(objs, Grays(), phase, white, open, o);
        MarksOne(h, o, Gray, s);
        objs := objs[o := objs[o].(color := Gray)];
        gray := [o] + gray;
        assert objs == Coloured(h, o, Gray);
        ClosedKept(h, objs, s);
        WhitesFewer(h, objs, o);
    }

    /** The case of a userdata: its metatable and its user value are marked. */
    method MarkUser(o: Ref, ghost open: set<Ref>, ghost s: set<Ref>)
      requires Inv(open) && o in objs && IsWhite(o) && objs[o].kind.Udata?
      requires o in s && Closed(objs, s)
      modifies this`objs, this`gray
      ensures Inv(open) && Marks(old(objs), objs, s) && Closed(objs, s)
      ensures o in Marked(objs) && |Whites(objs)| < |Whites(old(objs))|
      ensures |gray| >= |old(gray)|
      decreases |Whites(objs)|, 0
    {
      hide MarkInv, Closed, Kept, AllRefs, Edges, Marks;
      ghost var h, phase := objs, Now();
      var x, meta := objs[o], Meta(o);
      NotLate(o, open);
      WhiteParts(objs, Grays(), phase, white, open, o);
      PlainEdges(x);
      MarkOpen(objs, Grays(), phase, white, open, o);
      MarksOne(h, o, Black, s);
      objs := objs[o := x.(color := Black)];
      assert objs == Coloured(h, o, Black);
      ClosedKept(h, objs, s);
      StrongParts(objs, s, o);
      PlainEdges(objs[o]);
      WhitesFewer(h, objs, o);
      ghost var h1 := objs;
      MarkValue(meta, open + {o}, s);
      ghost var h2 := objs;
      MarksWhites(h1, h2, s);
      MarkValues(x.arr, open + {o}, s);
      MarksTrans(h1, h2, objs, s);
      MarksTrans(h, h1, objs, s);
      MarksMarked(h2, objs, s);
      UserDone(h1, objs, o, s);
      CloseBlack(objs, Grays(), phase, white, open, o);
      assert open - {o} == open;
    }

    /** `markvalue` and `markobject` */
    method MarkValue(v: Value, ghost open: set<Ref>, ghost s: set<Ref>)
      requires Inv(open) && Closed(objs, s) && RefOf(v) <= objs.Keys * s
      modifies this`objs, this`gray
      ensures Inv(open) && Marks(old(objs), objs, s) && Closed(objs, s)
      ensures RefOf(v) <= Marked(objs)
      ensures |Whites(objs)| < |Whites(old(objs))| || (gray == old(gray) && objs == old(objs))
      ensures |gray| >= |old(gray)|
      ensures v.Gc? && old(objs)[v.r].color.White? && !old(objs)[v.r].kind.Str? && !old(objs)[v.r].kind.Udata? ==>
        gray == [v.r] + old(gray) && objs == Coloured(old(objs), v.r, Gray)
      ensures v.Gc? && !old(objs)[v.r].color.White? ==> gray == old(gray) && objs == old(objs)
      ensures RefOf(v) <= Marked(old(objs)) ==> gray == old(gray) && objs == old(objs)
      decreases |Whites(objs)|, 2
    {
      hide MarkInv, Closed, Kept;
      MarksSame(objs, s);
      if v.Gc? && IsWhite(v.r) {
        ReallyMark(v.r, open, s);
      }
    }

    method MarkValues(vs: seq<Value>, ghost open: set<Ref>, ghost s: set<Ref>)
      requires Inv(open) && Closed(objs, s) && Refs(vs) <= objs.Keys * s
      modifies this`objs, this`gray
      ensures Inv(open) && Marks(old(objs), objs, s) && Closed(objs, s)
      ensures Refs(vs) <= Marked(objs)
      ensures |Whites(objs)| < |Whites(old(objs))| || (gray == old(gray) && objs == old(objs))
      ensures |gray| >= |old(gray)|
      ensures Refs(vs) <= Marked(old(objs)) ==> gray == old(gray) && objs == old(objs)
      decreases |Whites(objs)|, 3
    {
      hide MarkInv, Closed, Kept, Marks, Marked;
      ghost var h := objs;
      MarksSame(objs, s);
      for i := 0 to |vs|
        invariant Inv(open) && Marks(h, objs, s) && Closed(objs, s)
        invariant Refs(vs[..i]) <= Marked(objs)
        invariant |Whites(objs)| < |Whites(h)| || (gray == old(gray) && objs == h)
        invariant |gray| >= |old(gray)|
        invariant Refs(vs) <= Marked(h) ==> gray == old(gray) && objs == h
      {
        ghost var k := objs;
        MarksWhites(h, k, s);
        RefsOne(vs, i);
        MarkValue(vs[i], open, s);
        MarksTrans(h, k, objs, s);
        MarksMarked(k, objs, s);
      }
      assert vs[..|vs|] == vs;
    }

    // ---- traversing -----------------------------------------------------------------

    /** `removeentry`: the key of an empty slot goes unless it is marked. A key that was freed
        before counts as not marked. */
    method RemoveEntry(x: Ref, i: nat, ghost open: set<Ref>, ghost s: set<Ref>)
      requires Inv(open) && x in open && x in objs && i < |objs[x].entries| && objs[x].entries[i].val == Nil
      requires Closed(objs, s)
      modifies this`objs
      ensures Inv(open) && Marks(old(objs), objs, s) && Closed(objs, s)
      ensures Marked(objs) == Marked(old(objs)) && Whites(objs) == Whites(old(objs))
      ensures x in objs && SlotKeyOk(objs, x, i) && objs[x].entries[i].val == Nil
      ensures objs[x].entries[i].key == if Unmarked(old(objs), old(objs)[x].entries[i].key) then Dead else old(objs)[x].entries[i].key
    {
      hide MarkInv, Closed, AllRefs, Edges;
      ghost var h := objs;
      MarksSame(objs, s);
      var e := objs[x].entries[i];
      if e.key.Gc? && (e.key.r !in objs || IsWhite(e.key.r)) {
        objs := objs[x := objs[x].(entries := objs[x].entries[i := Entry(Dead, Nil)])];
        KeepOpen(h, objs, Grays(), Now(), white, open, x);
        ClosedKept(h, objs, s);
      }
    }

    /** `iscleared`: strings are marked, as they are never weak. */
    method IsCleared(v: Value, ghost open: set<Ref>, ghost s: set<Ref>) returns (cleared: bool)
      requires Inv(open) && Closed(objs, s) && RefOf(v) <= objs.Keys
      requires Strings(objs, RefOf(v)) <= s
      modifies this`objs
      ensures Inv(open) && Marks(old(objs), objs, s) && Closed(objs, s) && StringsOnly(old(objs), objs)
      ensures if cleared then v.Gc? && v.r !in Marked(objs) && !objs[v.r].kind.Str? else RefOf(v) <= Marked(objs)
    {
      hide MarkInv, Closed, Kept;
      MarksSame(objs, s);
      if !v.Gc? {
        cleared := false;
      } else if objs[v.r].kind.Str? {
        MarkString(v, open, s);
        cleared := false;
      } else {
        cleared := IsWhite(v.r);
      }
    }

    method MarkString(v: Value, ghost open: set<Ref>, ghost s: set<Ref>)
      requires Inv(open) && Closed(objs, s) && v.Gc? && v.r in objs && v.r in s && objs[v.r].kind.Str?
      modifies this`objs
      ensures Inv(open) && Marks(old(objs), objs, s) && Closed(objs, s) && StringsOnly(old(objs), objs)
      ensures v.r in Marked(objs)
    {
      hide MarkInv, Closed, Kept, AllRefs, Edges;
      MarksSame(objs, s);
      if IsWhite(v.r) {
        ghost var h, phase := objs, Now();
        var o := v.r;
        WhiteParts(objs, Grays(), phase, white, open, o);
        MarkOpen(objs, Grays(), phase, white, open, o);
        MarksOne(h, o, Black, s);
        objs := objs[o := objs[o].(color := Black)];
        assert objs == Coloured(h, o, Black);
        ClosedKept(h, objs, s);
        WhitesFewer(h, objs, o);
        PlainEdges(objs[o]);
        CloseBlack(objs, Grays(), phase, white, open, o);
        assert open - {o} == open;
      }
    }

    /** `traversestrongtable` */
    method TraverseStrong(x: Ref, ghost open: set<Ref>, ghost s: set<Ref>)
      requires Inv(open) && x in open && Closed(objs, s) && x in s && x in objs
      requires objs[x].kind.Table? && objs[x].mode.Strong?
      modifies this`objs, this`gray
      ensures Inv(open) && Marks(old(objs), objs, s) && Closed(objs, s) && x in objs
      ensures Refs(objs[x].arr) + KeyRefs(objs[x].entries) + ValRefs(objs[x].entries) + SlotRefs(objs[x].entries)
              <= Marked(objs)
      ensures |Whites(objs)| < |Whites(old(objs))| || gray == old(gray)
    {
      hide MarkInv, Closed, Kept, Marks;
      ghost var h := objs;
      OpenParts(objs, Grays(), Now(), white, open, x);
      StrongParts(objs, s, x);
      MarkValues(objs[x].arr, open, s);
      MarksSlots(h, objs, s, x);
      var n := |objs[x].entries|;
      var i := 0;
      while i < n
        invariant 0 <= i <= n && Inv(open) && Marks(h, objs, s) && Closed(objs, s)
        invariant x in objs && n == |objs[x].entries| && objs[x].arr == h[x].arr
        invariant objs[x].kind.Table? && objs[x].mode.Strong?
        invariant Refs(h[x].arr) <= Marked(objs)
        invariant forall j :: 0 <= j < i ==> SlotMarked(objs, x, j)
        invariant |Whites(objs)| < |Whites(h)| || gray == old(gray)
      {
        ghost var k := objs;
        TraverseSlot(x, i, open, s, h);
        MarksSlots(k, objs, s, x);
        MarksMarked(k, objs, s);
        MarksWhites(h, k, s);
        MarksWhites(k, objs, s);
        i := i + 1;
      }
      SlotsMarked(objs, x);
    }

    /** One slot of a strong table. */
    method TraverseSlot(x: Ref, i: nat, ghost open: set<Ref>, ghost s: set<Ref>, ghost h: Heap)
      requires Inv(open) && x in open && Closed(objs, s) && x in s && x in objs && Marks(h, objs, s) && x in h
      requires objs[x].kind.Table? && objs[x].mode.Strong? && i < |objs[x].entries|
      requires forall j :: 0 <= j < i ==> SlotMarked(objs, x, j)
      modifies this`objs, this`gray
      ensures Inv(open) && Marks(h, objs, s) && Marks(old(objs), objs, s) && Closed(objs, s) && x in objs
      ensures forall j :: 0 <= j <= i ==> SlotMarked(objs, x, j)
      ensures |Whites(objs)| < |Whites(old(objs))| || gray == old(gray)
    {
      hide MarkInv, Closed, Kept, Marks;
      ghost var k := objs;
      OpenParts(objs, Grays(), Now(), white, open, x);
      StrongParts(objs, s, x);
      var e := objs[x].entries[i];
      SlotParts(objs[x], i);
      if e.val == Nil {
        RemoveEntry(x, i, open, s);
      } else {
        MarkValue(e.key, open, s);
        ghost var k1 := objs;
        MarksWhites(k, k1, s);
        MarkValue(e.val, open, s);
        MarksTrans(k, k1, objs, s);
        MarksMarked(k1, objs, s);
      }
      MarksSlot(k, objs, s, x, i);
      MarksTrans(h, k, objs, s);
      forall j | 0 <= j < i
        ensures SlotMarked(objs, x, j)
      {
        MarkedSlotKept(k, objs, s, x, j);
      }
    }

    /** `traverseweakvalue`, up to the choice of a list: are there values to be cleared? */
    method TraverseWeakValue(x: Ref, ghost open: set<Ref>, ghost s: set<Ref>) returns (hasclears: bool)
      requires Inv(open) && x in open && Closed(objs, s) && x in s && x in objs
      requires objs[x].kind.Table? && objs[x].mode.WeakValue?
      modifies this`objs, this`gray
      ensures Inv(open) && Marks(old(objs), objs, s) && Closed(objs, s) && x in objs
      ensures KeyRefs(objs[x].entries) <= Marked(objs)
      ensures !hasclears ==> Refs(objs[x].arr) + ValRefs(objs[x].entries) <= Marked(objs)
      ensures |Whites(objs)| < |Whites(old(objs))| || gray == old(gray)
    {
      hide MarkInv, Closed, Kept, Marks;
      ghost var h := objs;
      MarksSame(h, s);
      hasclears := |objs[x].arr| > 0;
      var n := |objs[x].entries|;
      var i := 0;
      while i < n
        invariant 0 <= i <= n && Inv(open) && Marks(h, objs, s) && Closed(objs, s)
        invariant x in objs && n == |objs[x].entries| && objs[x].arr == h[x].arr
        invariant objs[x].kind.Table? && objs[x].mode.WeakValue?
        invariant forall j :: 0 <= j < i ==> WeakSlot(objs, x, j, hasclears)
        invariant !hasclears ==> objs[x].arr == []
        invariant |Whites(objs)| < |Whites(h)| || gray == old(gray)
      {
        ghost var k := objs;
        hasclears := WeakValueSlot(x, i, hasclears, open, s);
        MarksTrans(h, k, objs, s);
        MarksSlots(k, objs, s, x);
        MarksWhites(h, k, s);
        MarksWhites(k, objs, s);
        i := i + 1;
      }
      WeakSlots(objs, x, hasclears);
    }

    method WeakValueSlot(x: Ref, i: nat, had: bool, ghost open: set<Ref>, ghost s: set<Ref>) returns (hasclears: bool)
      requires Inv(open) && x in open && Closed(objs, s) && x in s && x in objs
      requires objs[x].kind.Table? && objs[x].mode.WeakValue? && i < |objs[x].entries|
      requires forall j :: 0 <= j < i ==> WeakSlot(objs, x, j, had)
      modifies this`objs, this`gray
      ensures Inv(open) && Marks(old(objs), objs, s) && Closed(objs, s) && x in objs
      ensures had ==> hasclears
      ensures forall j :: 0 <= j <= i ==> WeakSlot(objs, x, j, hasclears)
      ensures |Whites(objs)| < |Whites(old(objs))| || gray == old(gray)
    {
      hide MarkInv, Closed, Kept, Marks, Strings;
      ghost var k := objs;
      hasclears := had;
      OpenParts(objs, Grays(), Now(), white, open, x);
      WeakParts(objs, s, x);
      var e := objs[x].entries[i];
      SlotParts(objs[x], i);
      SlotWeak(objs, x, i);
      if e.val == Nil {
        RemoveEntry(x, i, open, s);
      } else {
        MarkValue(e.key, open, s);
        if !hasclears {
          ghost var k1 := objs;
          MarksWhites(k, k1, s);
          StringsKept(k, k1, s, RefOf(e.val));
          hasclears := IsCleared(e.val, open, s);
          MarksWhites(k1, objs, s);
          MarksTrans(k, k1, objs, s);
          MarksMarked(k1, objs, s);
        }
      }
      MarksSlot(k, objs, s, x, i);
      forall j | 0 <= j < i
        ensures WeakSlot(objs, x, j, hasclears)
      {
        WeakSlotKept(k, objs, s, x, j, had);
      }
    }

    /** The array part of an ephemeron table is strong. */
    method MarkArray(arr: seq<Value>, ghost open: set<Ref>, ghost s: set<Ref>) returns (marked: bool)
      requires Inv(open) && Closed(objs, s) && Refs(arr) <= objs.Keys * s
      modifies this`objs, this`gray
      ensures Inv(open) && Marks(old(objs), objs, s) && Closed(objs, s)
      ensures Refs(arr) <= Marked(objs)
      ensures if marked then |Whites(objs)| < |Whites(old(objs))| else gray == old(gray) && objs == old(objs)
    {
      hide MarkInv, Closed, Kept, Marks;
      ghost var h := objs;
      MarksSame(objs, s);
      marked := false;
      for i := 0 to |arr|
        invariant Inv(open) && Marks(h, objs, s) && Closed(objs, s)
        invariant Refs(arr[..i]) <= Marked(objs)
        invariant if marked then |Whites(objs)| < |Whites(h)| else gray == old(gray) && objs == h
      {
        ghost var k := objs;
        MarksWhites(h, k, s);
        RefsOne(arr, i);
        if arr[i].Gc? && IsWhite(arr[i].r) {
          marked := true;
          ReallyMark(arr[i].r, open, s);
          MarksTrans(h, k, objs, s);
          MarksMarked(k, objs, s);
        }
      }
      assert arr[..|arr|] == arr;
    }

    /** `traverseephemeron`, up to the choice of a list: has anything been marked, are there
        keys that are not marked, and is there such a key with a value that is not? */
    method TraverseEphemeron(x: Ref, ghost open: set<Ref>, ghost s: set<Ref>)
      returns (marked: bool, hasclears: bool, hasww: bool)
      requires Inv(open) && x in open && Closed(objs, s) && Marked(objs) <= s && x in objs
      requires objs[x].kind.Table? && objs[x].mode.Ephemeron?
      modifies this`objs, this`gray
      ensures Inv(open) && Marks(old(objs), objs, s) && Closed(objs, s) && x in objs
      ensures Refs(objs[x].arr) <= Marked(objs)
      ensures !hasclears ==> KeyRefs(objs[x].entries) + ValRefs(objs[x].entries) <= Marked(objs)
      ensures !hasww ==> ValRefs(objs[x].entries) <= Marked(objs)
      ensures marked ==> |Whites(objs)| < |Whites(old(objs))|
      ensures !marked ==> StringsOnly(old(objs), objs) && EphemeronDone(objs, x) && gray == old(gray)
      ensures |Whites(objs)| < |Whites(old(objs))| || gray == old(gray)
    {
      hide MarkInv, Closed, Kept, Marks, Marked, EphSlot, FlagSlot;
      ghost var h := objs;
      OpenParts(objs, Grays(), Now(), white, open, x);
      InMarked(objs, x);
      WeakParts(objs, s, x);
      marked := MarkArray(objs[x].arr, open, s);
      hasclears, hasww := false, false;
      MarksSlots(h, objs, s, x);
      StringsSame(h);
      var n := |objs[x].entries|;
      var i := 0;
      while i < n
        invariant 0 <= i <= n && Inv(open) && Marks(h, objs, s) && Closed(objs, s)
        invariant x in objs && n == |objs[x].entries| && objs[x].arr == h[x].arr
        invariant objs[x].kind.Table? && objs[x].mode.Ephemeron?
        invariant Refs(h[x].arr) <= Marked(objs)
        invariant forall j :: 0 <= j < i ==> FlagSlot(objs, x, j, hasclears, hasww)
        invariant if marked then |Whites(objs)| < |Whites(h)|
                  else gray == old(gray) && StringsOnly(h, objs) && forall j :: 0 <= j < i ==> EphSlot(objs, x, j)
        invariant |Whites(objs)| < |Whites(h)| || gray == old(gray)
      {
        ghost var k, was := objs, marked;
        MarksBound(h, k, s);
        marked, hasclears, hasww := EphemeronSlot(x, i, marked, hasclears, hasww, open, s);
        MarksTrans(h, k, objs, s);
        MarksSlots(k, objs, s, x);
        MarksMarked(k, objs, s);
        MarksWhites(k, objs, s);
        if !marked {
          StringsTrans(h, k, objs, s);
          forall j | 0 <= j < i
            ensures EphSlot(objs, x, j)
          {
            EphSlotKept(k, objs, s, x, j);
          }
        }
        i := i + 1;
      }
      FlagSlots(objs, x, hasclears, hasww);
    }

    method EphemeronSlot(x: Ref, i: nat, marked0: bool, hasclears0: bool, hasww0: bool, ghost open: set<Ref>, ghost s: set<Ref>)
      returns (marked: bool, hasclears: bool, hasww: bool)
      requires Inv(open) && x in open && Closed(objs, s) && Marked(objs) <= s && x in objs
      requires objs[x].kind.Table? && objs[x].mode.Ephemeron? && i < |objs[x].entries|
      requires forall j :: 0 <= j < i ==> FlagSlot(objs, x, j, hasclears0, hasww0)
      modifies this`objs, this`gray
      ensures Inv(open) && Marks(old(objs), objs, s) && Closed(objs, s) && x in objs
      ensures (marked0 ==> marked) && (hasclears0 ==> hasclears) && (hasww0 ==> hasww)
      ensures forall j :: 0 <= j <= i ==> FlagSlot(objs, x, j, hasclears, hasww)
      ensures marked && !marked0 ==> |Whites(objs)| < |Whites(old(objs))|
      ensures !marked ==> StringsOnly(old(objs), objs) && EphSlot(objs, x, i) && gray == old(gray)
      ensures |Whites(objs)| < |Whites(old(objs))| || gray == old(gray)
    {
      hide MarkInv, Closed, Kept, Marks;
      ghost var k := objs;
      marked, hasclears, hasww := marked0, hasclears0, hasww0;
      OpenParts(objs, Grays(), Now(), white, open, x);
      WeakParts(objs, s, x);
      SlotParts(objs[x], i);
      SlotWeak(objs, x, i);
      StringsSame(k);
      var e := objs[x].entries[i];
      if e.val == Nil {
        RemoveEntry(x, i, open, s);
        StringsSame(objs);
      } else {
        var cleared := IsCleared(e.key, open, s);
        ghost var k1 := objs;
        MarksWhites(k, k1, s);
        MarksSame(k1, s);
        if cleared {
          hasclears := true;
          if e.val.Gc? && IsWhite(e.val.r) {
            hasww := true;
          }
        } else if e.val.Gc? && IsWhite(e.val.r) {
          marked := true;
          MarksBound(k, k1, s);
          EphemeronValue(k, s, x, i);
          ReallyMark(e.val.r, open, s);
        }
        MarksTrans(k, k1, objs, s);
        MarksMarked(k1, objs, s);
      }
      MarksSlot(k, objs, s, x, i);
      forall j | 0 <= j < i
        ensures FlagSlot(objs, x, j, hasclears, hasww)
      {
        FlagSlotKept(k, objs, s, x, j, hasclears0, hasww0);
      }
    }

    /** `linkgclist` at the end of a traversal; the object is gray then. */
    method LinkTo(x: Ref, which: Which)
      requires Inv({x}) && x in objs && MayLink(objs, Now(), x, which)
      modifies this`objs, this`grayagain, this`weak, this`allweak, this`ephemeron
      ensures Inv({}) && Grays() == LinkIn(old(Grays()), x, which)
      ensures x in old(objs) && objs == Coloured(old(objs), x, Gray) && Kept(old(objs), objs)
    {
      hide MarkInv, MayLink, AllRefs, Edges;
      OpenParts(objs, Grays(), Now(), white, {x}, x);
      assert {} + {x} == {x} && {x} - {x} == {};
      CloseGray(objs, Grays(), Now(), white, {}, x, which);
      assert {} - {x} == {};
      objs := objs[x := objs[x].(color := Gray)];
      match which
      case ToGrayagain => grayagain := [x] + grayagain;
      case ToWeak => weak := [x] + weak;
      case ToAllweak => allweak := [x] + allweak;
      case ToEphemeron => ephemeron := [x] + ephemeron;
      case Nowhere =>
    }

    /** What traversing and propagating do: everything stays inside the closed set `s`. */
    ghost predicate Bounded(s: set<Ref>)
      reads this
    {
      Closed(objs, s) && Marked(objs) <= s
    }

    /** Tables are traversed in the propagate phase, or in the step of the atomic phase. */
    ghost predicate InStep()
      reads this
    {
      state.Propagate? || !Now().Marking?
    }

    /** `traversetable`; a weak table stays gray, in the list it needs. */
    method TraverseTable(x: Ref, ghost s: set<Ref>)
      requires InStep()
      requires Inv({x}) && Bounded(s) && x in objs && objs[x].kind.Table? && objs[x].color.Black?
      modifies this`objs, this`gray, this`grayagain, this`weak, this`allweak, this`ephemeron
      ensures Inv({}) && Bounded(s) && Kept(old(objs), objs)
      ensures |Whites(objs)| < |Whites(old(objs))| || gray == old(gray)
      ensures state.Propagate? ==> weak == old(weak) && ephemeron == old(ephemeron)
      ensures old(Settled(objs, allweak, changed)) ==> Settled(objs, allweak, changed)
      ensures old(objs)[x].mode.AllWeak? ==> x in allweak
      ensures old(objs)[x].mode.Strong? || old(objs)[x].mode.AllWeak? ==> grayagain == old(grayagain)
      ensures state.Propagate? ==> WeakJoined(old(objs), old(allweak), allweak)
    {
      hide MarkInv, Closed, Kept, Marks, AllRefs, Edges, Settled, Marked, StillWeak, WeakJoined;
      JoinedOne(objs, x, allweak);
      ghost var h := objs;
      MarksSame(h, s);
      InMarked(h, x);
      OpenParts(objs, Grays(), Now(), white, {x}, x);
      TableParts(h, s, x);
      NotLate(x, {x});
      MarkValue(Meta(x), {x}, s);
      ghost var k := objs;
      MarksSlots(h, k, s, x);
      MarksBound(h, k, s);
      MarksWhites(h, k, s);
      match objs[x].mode
      case Strong =>
        TraverseStrong(x, {x}, s);
        FinishTraversal(h, k, objs, x, s);
        AllParts(objs, x);
        assert {} + {x} == {x} && {x} - {x} == {};
        CloseBlack(objs, Grays(), Now(), white, {}, x);
        assert {} - {x} == {};
        SettledKept(h, objs, allweak, changed);
      case WeakValue =>
        var hasclears := TraverseWeakValue(x, {x}, s);
        FinishTraversal(h, k, objs, x, s);
        FinishWeakValue(x, hasclears, s, h);
      case Ephemeron =>
        var _, hasclears, hasww := TraverseEphemeron(x, {x}, s);
        FinishTraversal(h, k, objs, x, s);
        FinishEphemeron(x, hasclears, hasww, s, h);
      case AllWeak =>
        MarksMarked(h, objs, s);
        LinkWeak(x, ToAllweak, s, h);
    }

    /** The end of `traverseweakvalue`. */
    method FinishWeakValue(x: Ref, hasclears: bool, ghost s: set<Ref>, ghost h: Heap)
      requires InStep()
      requires Inv({x}) && Bounded(s) && x in objs && objs[x].kind.Table? && objs[x].mode.WeakValue?
      requires RefOf(objs[x].meta) + KeyRefs(objs[x].entries) <= Marked(objs)
      requires !hasclears ==> Refs(objs[x].arr) + ValRefs(objs[x].entries) <= Marked(objs)
      requires Marks(h, objs, s)
      modifies this`objs, this`grayagain, this`weak, this`allweak, this`ephemeron
      ensures Inv({}) && Bounded(s) && Kept(h, objs)
      ensures state.Propagate? ==> weak == old(weak) && ephemeron == old(ephemeron) && allweak == old(allweak)
      ensures Whites(objs) == Whites(old(objs))
      ensures Settled(h, old(allweak), changed) ==> Settled(objs, allweak, changed)
    {
      hide MarkInv, Closed, Kept, Marks, Settled;
      if state == Propagate {
        LinkWeak(x, ToGrayagain, s, h);
      } else if hasclears {
        LinkWeak(x, ToWeak, s, h);
      } else {
        LinkWeak(x, Nowhere, s, h);
      }
    }

    /** The end of `traverseephemeron`. */
    method FinishEphemeron(x: Ref, hasclears: bool, hasww: bool, ghost s: set<Ref>, ghost h: Heap)
      requires InStep()
      requires Inv({x}) && Bounded(s) && x in objs && objs[x].kind.Table? && objs[x].mode.Ephemeron?
      requires RefOf(objs[x].meta) + Refs(objs[x].arr) <= Marked(objs)
      requires !hasclears ==> KeyRefs(objs[x].entries) + ValRefs(objs[x].entries) <= Marked(objs)
      requires !hasww ==> ValRefs(objs[x].entries) <= Marked(objs)
      requires Marks(h, objs, s)
      modifies this`objs, this`grayagain, this`weak, this`allweak, this`ephemeron
      ensures Inv({}) && Bounded(s) && Kept(h, objs)
      ensures objs == Coloured(old(objs), x, Gray)
      ensures Grays() == LinkIn(old(Grays()), x, if state.Propagate? then ToGrayagain else if hasww then ToEphemeron
                                                 else if hasclears then ToAllweak else Nowhere)
      ensures Whites(objs) == Whites(old(objs))
      ensures Settled(h, old(allweak), changed) ==> Settled(objs, allweak, changed)
    {
      hide MarkInv, Closed, Kept, Marks, Settled;
      if state == Propagate {
        LinkWeak(x, ToGrayagain, s, h);
      } else if hasww {
        LinkWeak(x, ToEphemeron, s, h);
      } else if hasclears {
        LinkWeak(x, ToAllweak, s, h);
      } else {
        LinkWeak(x, Nowhere, s, h);
      }
    }

    /** Linking a weak table; `h` is the heap before its traversal. */
    method LinkWeak(x: Ref, which: Which, ghost s: set<Ref>, ghost h: Heap)
      requires Inv({x}) && Bounded(s) && x in objs && MayLink(objs, Now(), x, which) && objs[x].kind.Table?
      requires Marks(h, objs, s)
      requires which.ToAllweak? ==> SettledAt(objs, objs[x])
      modifies this`objs, this`grayagain, this`weak, this`allweak, this`ephemeron
      ensures Inv({}) && Bounded(s) && Kept(h, objs) && Grays() == LinkIn(old(Grays()), x, which)
      ensures objs == Coloured(old(objs), x, Gray) && Whites(objs) == Whites(old(objs))
      ensures Settled(h, old(allweak), changed) ==> Settled(objs, allweak, changed)
    {
      hide MarkInv, Closed, Kept, MayLink, Edges;
      ghost var k := objs;
      OpenParts(objs, Grays(), Now(), white, {x}, x);
      LinkTo(x, which);
      KeptTrans(h, k, objs);
      ClosedKept(k, objs, s);
      assert Marked(objs) == Marked(k) && Whites(objs) == Whites(k);
      SettledKept(h, objs, old(allweak), changed);
    }

    /** `propagatemark` */
    method PropagateMark(ghost s: set<Ref>)
      requires InStep()
      requires Inv({}) && Bounded(s) && gray != []
      modifies this`objs, this`gray, this`grayagain, this`weak, this`allweak, this`ephemeron
      ensures Inv({}) && Bounded(s) && Kept(old(objs), objs)
      ensures |Whites(objs)| < |Whites(old(objs))| || (|Whites(objs)| == |Whites(old(objs))| && |gray| < |old(gray)|)
      ensures state.Propagate? ==> weak == old(weak) && ephemeron == old(ephemeron)
      ensures old(Settled(objs, allweak, changed)) ==> Settled(objs, allweak, changed)
      ensures AllWeakTable(old(objs), old(gray)[0]) ==> old(gray)[0] in allweak
      ensures Resting(old(objs), old(gray)[0]) ==>
        Whites(objs) == Whites(old(objs)) && gray == old(gray)[1..] && ephemeron == old(ephemeron)
      ensures Again(old(objs), old(gray)[0], old(grayagain), grayagain)
      ensures state.Propagate? ==> WeakJoined(old(objs), old(allweak), allweak)
    {
      hide MarkInv, Closed, Kept, Marks, AllRefs, Edges, Settled, Marked, StillWeak, Resting, Whites;
      ghost var h := objs;
      var o := gray[0];
      TakeGray(objs, Grays(), Now(), white);
      objs := objs[o := objs[o].(color := Black)];
      gray := gray[1..];
      assert objs == Coloured(h, o, Black);
      ghost var k := objs;
      TakenParts(h, o, s);
      OpenParts(objs, Grays(), Now(), white, {o}, o);
      SettledKept(h, k, allweak, changed);
      WhitesShrink(h, k);
      if Resting(h, o) {
        RestsBlack(h, o);
      }
      if objs[o].kind.Table? {
        TraverseTable(o, s);
        KeptTrans(h, k, objs);
        WhitesShrink(k, objs);
      } else {
        TraversePlain(o, s);
        KeptTrans(h, k, objs);
        WhitesShrink(k, objs);
        SettledKept(k, objs, allweak, changed);
      }
    }

    /** `traverseLclosure`, `traverseCclosure`, `traverseproto` and `traversethread`. A thread
        stays gray; the source links it before the traversal. */
    method TraversePlain(o: Ref, ghost s: set<Ref>)
      requires Inv({o}) && Bounded(s) && o in objs && !objs[o].kind.Table? && objs[o].color.Black?
      modifies this`objs, this`gray, this`grayagain
      ensures Inv({}) && Bounded(s) && Kept(old(objs), objs)
      ensures |Whites(objs)| < |Whites(old(objs))| || gray == old(gray)
      ensures Resting(old(objs), o) ==> Whites(objs) == Whites(old(objs)) && gray == old(gray)
      ensures grayagain == old(grayagain) || grayagain == [o] + old(grayagain)
    {
      hide MarkInv, Closed, Kept, Marks, AllRefs, Edges, Marked;
      ghost var h := objs;
      InMarked(h, o);
      OpenParts(objs, Grays(), Now(), white, {o}, o);
      StrongParts(h, s, o);
      PlainEdges(h[o]);
      NotLate(o, {o});
      MarkValue(Meta(o), {o}, s);
      ghost var k := objs;
      MarksSlots(h, k, s, o);
      MarksWhites(h, k, s);
      MarkValues(objs[o].arr, {o}, s);
      MarksTrans(h, k, objs, s);
      MarksMarked(k, objs, s);
      MarksBound(h, objs, s);
      PlainDone(h, objs, o, s);
      assert {} + {o} == {o} && {o} - {o} == {} && {} - {o} == {};
      if objs[o].kind.Thread? {
        ghost var l := objs;
        CloseGray(objs, Grays(), Now(), white, {}, o, ToGrayagain);
        objs := objs[o := objs[o].(color := Gray)];
        grayagain := [o] + grayagain;
        assert objs == Coloured(l, o, Gray);
        KeptTrans(h, l, objs);
        ClosedKept(l, objs, s);
        SameMarked(l, o);
      } else {
        CloseBlack(objs, Grays(), Now(), white, {}, o);
      }
    }

    /** `propagateall` */
    method PropagateAll(ghost s: set<Ref>)
      requires InStep()
      requires Inv({}) && Bounded(s)
      modifies this`objs, this`gray, this`grayagain, this`weak, this`allweak, this`ephemeron
      ensures Inv({}) && Bounded(s) && Kept(old(objs), objs) && gray == []
      ensures state.Propagate? ==> weak == old(weak) && ephemeron == old(ephemeron)
      ensures (forall o :: o in old(gray) ==> Resting(old(objs), o)) ==>
        Whites(objs) == Whites(old(objs)) && ephemeron == old(ephemeron)
      ensures old(gray) == [] ==> objs == old(objs) && grayagain == old(grayagain)
      ensures old(Settled(objs, allweak, changed)) ==> Settled(objs, allweak, changed)
    {
      hide MarkInv, Closed, Kept, Marks, Settled, Marked;
      ghost var h := objs;
      MarksSame(h, s);
      MarksKept(h, h, s);
      while gray != []
        invariant Inv({}) && InStep() && Bounded(s) && Kept(h, objs)
        invariant state.Propagate? ==> weak == old(weak) && ephemeron == old(ephemeron)
        invariant (forall o :: o in old(gray) ==> Resting(h, o)) ==>
          Whites(objs) == Whites(h) && ephemeron == old(ephemeron) && forall o :: o in gray ==> Resting(objs, o)
        invariant old(gray) == [] ==> gray == [] && objs == h && grayagain == old(grayagain)
        invariant old(Settled(objs, allweak, changed)) ==> Settled(objs, allweak, changed)
        decreases |Whites(objs)|, |gray|
      {
        ghost var k := objs;
        ghost var list := gray;
        PropagateMark(s);
        KeptTrans(h, k, objs);
        if forall o :: o in old(gray) ==> Resting(h, o) {
          RestingKept(k, objs, list);
        }
      }
    }

    /** `convergeephemerons`. Every round that goes on has marked something, so it ends. Then
        the marked objects are closed if and only if they have what the tables of `allweak`
        refer to strongly. */
    method ConvergeEphemerons(ghost s: set<Ref>)
      requires Inv({}) && state.InsideAtomic? && Bounded(s) && gray == [] && saved == []
      modifies this`objs, this`gray, this`grayagain, this`weak, this`allweak, this`ephemeron, this`saved
      ensures Inv({}) && Bounded(s) && Kept(old(objs), objs) && gray == [] && saved == []
      ensures forall o :: o in ephemeron ==> EphemeronDone(objs, o)
      ensures old(ephemeron) == [] ==> objs == old(objs)
      ensures old(Settled(objs, allweak, changed)) ==> Settled(objs, allweak, changed)
      ensures forall o :: o in Marked(objs) && o !in allweak ==> CoreClosedAt(objs[o], Marked(objs))
      ensures CoreClosed(objs, Marked(objs))
              <==> forall o :: o in allweak ==> o in objs && CoreClosedAt(objs[o], Marked(objs))
    {
      hide MarkInv, Closed, Kept, Settled, Marked, EphemeronDone;
      ghost var h := objs;
      MarksSame(h, s);
      MarksKept(h, h, s);
      var again := true;
      while again
        invariant Inv({}) && Bounded(s) && Kept(h, objs) && gray == [] && saved == []
        invariant old(ephemeron) == [] ==> objs == h && ephemeron == []
        invariant old(Settled(objs, allweak, changed)) ==> Settled(objs, allweak, changed)
        invariant !again ==> forall o :: o in ephemeron ==> EphemeronDone(objs, o)
        decreases |Whites(objs)|, again
      {
        ghost var k := objs;
        again := ConvergeOnce(s);
        KeptTrans(h, k, objs);
      }
      ConvergedClosed(objs, Grays(), white);
    }

    /** One round: all tables of the list are traversed again. */
    method ConvergeOnce(ghost s: set<Ref>) returns (again: bool)
      requires Inv({}) && state.InsideAtomic? && Bounded(s) && gray == [] && saved == []
      modifies this`objs, this`gray, this`grayagain, this`weak, this`allweak, this`ephemeron, this`saved
      ensures Inv({}) && Bounded(s) && Kept(old(objs), objs) && gray == [] && saved == []
      ensures old(ephemeron) == [] ==> objs == old(objs) && ephemeron == []
      ensures old(Settled(objs, allweak, changed)) ==> Settled(objs, allweak, changed)
      ensures |Whites(objs)| <= |Whites(old(objs))|
      ensures if again then |Whites(objs)| < |Whites(old(objs))|
              else forall o :: o in ephemeron ==> EphemeronDone(objs, o)
    {
      hide MarkInv, Closed, Kept, Settled, Marked, EphemeronDone;
      ghost var h := objs;
      MarksSame(h, s);
      MarksKept(h, h, s);
      StringsSame(h);
      MoveToSaved(objs, Grays(), Now(), white);
      saved, ephemeron, again := ephemeron, [], false;
      while saved != []
        invariant Inv({}) && Bounded(s) && Kept(h, objs) && gray == []
        invariant old(ephemeron) == [] ==> objs == h && ephemeron == [] && saved == []
        invariant old(Settled(objs, allweak, changed)) ==> Settled(objs, allweak, changed)
        invariant SavedOk(objs, saved)
        invariant |Whites(objs)| <= |Whites(h)|
        invariant if again then |Whites(objs)| < |Whites(h)|
                  else forall o :: o in ephemeron ==> EphemeronDone(objs, o)
        decreases |saved|
      {
        ghost var k, rest, before := objs, saved[1..], ephemeron;
        assert SavedOk(k, rest);
        var marked := TraverseSaved(s);
        KeptTrans(h, k, objs);
        WhitesShrink(k, objs);
        SavedKept(k, objs, rest);
        if marked {
          ghost var k1 := objs;
          PropagateAll(s);
          KeptTrans(h, k1, objs);
          WhitesShrink(k1, objs);
          SavedKept(k1, objs, rest);
          again := true;
        } else if !again {
          forall o | o in ephemeron
            ensures EphemeronDone(objs, o)
          {
            if o in before {
              EphemeronKept(k, objs, o);
            }
          }
        }
      }
    }

    /** The next table of the list is taken out, traversed and linked again. */
    method TraverseSaved(ghost s: set<Ref>) returns (marked: bool)
      requires Inv({}) && state.InsideAtomic? && Bounded(s) && gray == [] && saved != []
      requires SavedOk(objs, saved)
      modifies this`objs, this`gray, this`grayagain, this`weak, this`allweak, this`ephemeron, this`saved
      ensures Inv({}) && Bounded(s) && Kept(old(objs), objs) && saved == old(saved)[1..]
      ensures old(Settled(objs, allweak, changed)) ==> Settled(objs, allweak, changed)
      ensures marked ==> |Whites(objs)| < |Whites(old(objs))|
      ensures !marked ==> gray == [] && StringsOnly(old(objs), objs)
      ensures !marked ==> forall o :: o in ephemeron ==> o in old(ephemeron) || EphemeronDone(objs, o)
    {
      hide MarkInv, Closed, Kept, Marks, Settled, Marked, EphemeronDone;
      ghost var h := objs;
      var w := saved[0];
      TakeSaved(objs, Grays(), Now(), white);
      saved := saved[1..];
      OpenParts(objs, Grays(), Now(), white, {w}, w);
      InMarked(objs, w);
      TableParts(objs, s, w);
      var hasclears, hasww;
      marked, hasclears, hasww := TraverseEphemeron(w, {w}, s);
      ghost var k := objs;
      MarksBound(h, k, s);
      MarksSlots(h, k, s, w);
      MarksMarked(h, k, s);
      OpenParts(k, Grays(), Now(), white, {w}, w);
      FinishEphemeron(w, hasclears, hasww, s, h);
      OpenGray(k, w);
      if !marked {
        StringsColoured(h, k, w);
        if w in ephemeron {
          EphemeronColoured(k, w);
        }
      }
    }

    // ---- clearing -------------------------------------------------------------------

    /** Is `x` in one of the lists of weak tables? */
    ghost predicate Listed(x: Ref)
      reads this
    {
      x in weak || x in allweak || x in ephemeron
    }

    /** What clearing keeps. */
    ghost predicate ClearInv(s: set<Ref>, h: Heap)
      reads this
    {
      Inv({}) && state.InsideAtomic? && Bounded(s) && Shrinks(h, objs)
    }

    /** `iscleared` for a part of a listed table. */
    method Cleared(x: Ref, v: Value, ghost s: set<Ref>, ghost h: Heap) returns (cleared: bool)
      requires ClearInv(s, h) && Listed(x) && x in objs && RefOf(v) <= Edges(objs[x])
      modifies this`objs
      ensures ClearInv(s, h) && Shrinks(old(objs), objs) && x in objs
      ensures objs[x].arr == old(objs)[x].arr && |objs[x].entries| == |old(objs)[x].entries|
      ensures forall i :: 0 <= i < |objs[x].entries| && old(objs)[x].entries[i].val != Nil ==>
        objs[x].entries[i] == old(objs)[x].entries[i]
      ensures if cleared then Gone(objs, v) else RefOf(v) <= Marked(objs)
    {
      hide MarkInv, Closed, Kept, Marks, Edges, Shrinks;
      ghost var k := objs;
      ListedGray(objs, Grays(), Now(), white, x);
      TableStrings(objs, s, x);
      StringsAmong(objs, RefOf(v), Edges(objs[x]));
      cleared := IsCleared(v, {}, s);
      MarksShrinks(k, objs, s);
      MarksBound(k, objs, s);
      MarksSlots(k, objs, s, x);
      MarksFilled(k, objs, s, x);
      ShrinksTrans(h, k, objs);
    }

    method SetTable(x: Ref, y: Object, ghost s: set<Ref>, ghost h: Heap)
      requires ClearInv(s, h) && Listed(x) && x in objs && ObjectShrinks(objs[x], y) && y.color == objs[x].color
      requires OnlyGone(objs, objs[x], y)
      modifies this`objs
      ensures ClearInv(s, h) && Shrinks(old(objs), objs)
      ensures objs == old(objs)[x := y] && Marked(objs) == Marked(old(objs))
    {
      hide MarkInv, Closed, Kept, Marks, Edges, Shrinks, ObjectShrinks, OnlyGone;
      ghost var k := objs;
      ListedGray(objs, Grays(), Now(), white, x);
      objs := objs[x := y];
      ShrinkOne(k, objs, Grays(), Now(), white, x);
      ClosedShrinks(k, objs, s);
      ShrinksTrans(h, k, objs);
    }

    /** `clearvalues` for one table: the array part. */
    method ClearArray(x: Ref, ghost s: set<Ref>, ghost h: Heap)
      requires ClearInv(s, h) && Listed(x) && x in objs
      modifies this`objs
      ensures ClearInv(s, h) && Shrinks(old(objs), objs) && x in objs && ArrCleared(objs, x, |objs[x].arr|)
    {
      hide MarkInv, Closed, Marks, Edges, Marked, Shrinks, Inv, Bounded;
      ghost var h0 := objs;
      ShrinksSame(h0);
      var n := |objs[x].arr|;
      var i := 0;
      while i < n
        invariant 0 <= i <= n && ClearInv(s, h) && Shrinks(h0, objs) && x in objs && n == |objs[x].arr|
        invariant ArrCleared(objs, x, i)
      {
        ghost var k := objs;
        ArrPart(k, x, i);
        var cleared := Cleared(x, objs[x].arr[i], s, h);
        ClearedKept(k, objs, x, i);
        ShrinksTrans(h0, k, objs);
        if cleared {
          ghost var k1 := objs;
          NilArr(objs[x], i);
          SetTable(x, objs[x].(arr := objs[x].arr[i := Nil]), s, h);
          ClearedKept(k1, objs, x, i);
          ShrinksTrans(h0, k1, objs);
        }
        i := i + 1;
      }
    }

    /** `clearvalues` for one table: the values of the hash part. */
    method ClearVals(x: Ref, ghost s: set<Ref>, ghost h: Heap)
      requires ClearInv(s, h) && Listed(x) && x in objs
      modifies this`objs
      ensures ClearInv(s, h) && Shrinks(old(objs), objs) && x in objs && ValsCleared(objs, x, |objs[x].entries|)
    {
      hide MarkInv, Closed, Marks, Edges, Marked, Shrinks, Inv, Bounded;
      ghost var h0 := objs;
      ShrinksSame(h0);
      var n := |objs[x].entries|;
      var i := 0;
      while i < n
        invariant 0 <= i <= n && ClearInv(s, h) && Shrinks(h0, objs) && x in objs && n == |objs[x].entries|
        invariant ValsCleared(objs, x, i)
      {
        ghost var k := objs;
        EntryPart(k, x, i);
        var cleared := Cleared(x, objs[x].entries[i].val, s, h);
        ClearedKept(k, objs, x, i);
        ShrinksTrans(h0, k, objs);
        ghost var k1 := objs;
        if cleared {
          EmptySlot(x, i, s, h);
          ClearedKept(k1, objs, x, i);
          ShrinksTrans(h0, k1, objs);
        } else {
          ShrunkVal(k, objs, x, i);
        }
        i := i + 1;
      }
    }

    /** `clearkeys` for one table. */
    method ClearTableKeys(x: Ref, ghost s: set<Ref>, ghost h: Heap)
      requires ClearInv(s, h) && Listed(x) && x in objs
      modifies this`objs
      ensures ClearInv(s, h) && Shrinks(old(objs), objs) && x in objs && KeysCleared(objs, x, |objs[x].entries|)
    {
      hide MarkInv, Closed, Marks, Edges, Marked, Shrinks, Inv, Bounded;
      ghost var h0 := objs;
      ShrinksSame(h0);
      var n := |objs[x].entries|;
      var i := 0;
      while i < n
        invariant 0 <= i <= n && ClearInv(s, h) && Shrinks(h0, objs) && x in objs && n == |objs[x].entries|
        invariant KeysCleared(objs, x, i)
      {
        if objs[x].entries[i].val != Nil {
          ghost var k := objs;
          EntryPart(k, x, i);
          var cleared := Cleared(x, objs[x].entries[i].key, s, h);
          ClearedKept(k, objs, x, i);
          ShrinksTrans(h0, k, objs);
          ghost var k1 := objs;
          if cleared {
            EmptySlot(x, i, s, h);
            ClearedKept(k1, objs, x, i);
            ShrinksTrans(h0, k1, objs);
          } else {
            ShrunkKey(k, objs, x, i);
          }
        }
        i := i + 1;
      }
    }

    /** The value is removed, and then the entry, as `removeentry` does. */
    method EmptySlot(x: Ref, i: nat, ghost s: set<Ref>, ghost h: Heap)
      requires ClearInv(s, h) && Listed(x) && x in objs && i < |objs[x].entries|
      requires Gone(objs, objs[x].entries[i].key) || Gone(objs, objs[x].entries[i].val)
      modifies this`objs
      ensures ClearInv(s, h) && Shrinks(old(objs), objs) && x in objs
      ensures |objs[x].entries| == |old(objs)[x].entries| && objs[x].entries[i].val == Nil
      ensures objs[x].entries[i].key == if Unmarked(old(objs), old(objs)[x].entries[i].key) then Dead else old(objs)[x].entries[i].key
    {
      hide MarkInv, Closed, Marks, Edges, Marked, Shrinks, Inv, Bounded;
      var e := objs[x].entries[i];
      var key := if e.key.Gc? && (e.key.r !in objs || IsWhite(e.key.r)) then Dead else e.key;
      NilEntry(objs[x], i, key);
      SetTable(x, objs[x].(entries := objs[x].entries[i := Entry(key, Nil)]), s, h);
    }

    /** `clearvalues` */
    method ClearValues(list: seq<Ref>, ghost s: set<Ref>)
      requires ClearInv(s, objs) && forall o :: o in list ==> Listed(o)
      modifies this`objs
      ensures ClearInv(s, old(objs)) && forall o :: o in list ==> ValuesDone(objs, o)
    {
      hide MarkInv, Closed, Marks, Edges, Marked, Shrinks, Bounded, ArrCleared, ValsCleared, ValuesDone;
      ghost var h := objs;
      for n := 0 to |list|
        invariant ClearInv(s, h) && forall o :: o in list ==> Listed(o)
        invariant forall j :: 0 <= j < n ==> ValuesDone(objs, list[j])
      {
        ghost var k := objs;
        assert list[n] in list && Listed(list[n]);
        ListedGray(objs, Grays(), Now(), white, list[n]);
        ClearArray(list[n], s, h);
        ghost var k1 := objs;
        ClearVals(list[n], s, h);
        ClearedKept(k1, objs, list[n], |k1[list[n]].arr|);
        SameArr(k1, objs, list[n]);
        ValuesAllCleared(objs, list[n]);
        ShrinksTrans(k, k1, objs);
        forall j | 0 <= j < n
          ensures ValuesDone(objs, list[j])
        {
          DoneKept(k, objs, list[j]);
        }
      }
    }

    /** `clearkeys` */
    method ClearKeys(list: seq<Ref>, ghost s: set<Ref>)
      requires ClearInv(s, objs) && forall o :: o in list ==> Listed(o)
      modifies this`objs
      ensures ClearInv(s, old(objs)) && forall o :: o in list ==> KeysDone(objs, o)
    {
      hide MarkInv, Closed, Marks, Edges, Marked, Shrinks, Bounded, KeysCleared, KeysDone;
      ghost var h := objs;
      for n := 0 to |list|
        invariant ClearInv(s, h) && forall o :: o in list ==> Listed(o)
        invariant forall j :: 0 <= j < n ==> KeysDone(objs, list[j])
      {
        ghost var k := objs;
        assert list[n] in list && Listed(list[n]);
        ListedGray(objs, Grays(), Now(), white, list[n]);
        ClearTableKeys(list[n], s, h);
        KeysAllCleared(objs, list[n]);
        forall j | 0 <= j < n
          ensures KeysDone(objs, list[j])
        {
          DoneKept(k, objs, list[j]);
        }
      }
    }

    // ---- the whole collector --------------------------------------------------------

    ghost function Roots(): set<Ref>
      reads this
    {
      {mainthread, running} + RefOf(registry) + Refs(mt)
    }

    /** The roots are alive, a live object refers to live ones, and `allgc` links every object
        but the main thread once. */
    ghost predicate Sound()
      reads this
    {
      && Roots() <= Live(objs, white) && LiveClosed(objs, white)
      && objs[mainthread].kind.Thread? && objs[running].kind.Thread?
      && AllLinked(objs, allgc, mainthread)
    }

    ghost predicate MarkPhase()
      reads this
    {
      && Inv({}) && weak == [] && ephemeron == [] && mainthread in Marked(objs) && sweepgc == -1
      && StillWeak(objs, allweak, changed) && changed <= Marked(objs)
    }

    ghost predicate Valid()
      reads this
    {
      && Sound() && saved == [] && !closing && LateHere() && (!KeepInvariant() ==> late == map[])
      && match state
         case Propagate => MarkPhase() && gray != []
         case Atomic => MarkPhase()
         case SwpAllgc => -1 <= sweepgc <= |allgc| && Swept(objs, allgc, white, if sweepgc < 0 then |allgc| else sweepgc)
         case SwpFinobj => Swept(objs, allgc, white, |allgc|)
         case SwpTobefnz => Swept(objs, allgc, white, |allgc|)
         case SwpEnd => Swept(objs, allgc, white, |allgc|)
         case CallFin => Swept(objs, allgc, white, |allgc|) && objs[mainthread].color == White(white)
         case Pause => Swept(objs, allgc, white, |allgc|) && objs[mainthread].color == White(white)
         case InsideAtomic => false
    }

    /** How far the objects outside a closed set `s` with the roots have been found out. */
    ghost predicate Within(s: set<Ref>)
      reads this
    {
      && Roots() <= s && Closed(objs, s)
      && match state
         case Pause => true
         case Propagate => Marked(objs) <= s
         case Atomic => Marked(objs) <= s
         case SwpAllgc => Live(objs, white) <= s
         case _ => objs.Keys <= s
    }

    /** While the invariant of marking holds, all objects are alive. */
    lemma SoundWhileMarking(h: Heap)
      requires Inv({}) && Kept(h, objs) && Roots() <= h.Keys && AllLinked(h, allgc, mainthread)
      requires h[mainthread].kind.Thread? && h[running].kind.Thread?
      ensures Sound()
    {
      hide MarkInv, LiveClosed;
      MarkingLive(objs, Grays(), Now(), white);
      LinkedKept(h, objs, allgc, mainthread);
      assert ObjectKept(h[mainthread], objs[mainthread]) && ObjectKept(h[running], objs[running]);
    }

    /** The registry is a table that is not yet marked. */
    ghost predicate RegistryTable(h: Heap)
      reads this
    {
      registry.Gc? && registry.r in h && h[registry.r].kind.Table? && h[registry.r].color.White?
    }

    /** A thread, the registry and the metatables of the basic types are marked. */
    method MarkRoots(thread: Ref, ghost s: set<Ref>)
      requires Inv({}) && Closed(objs, s) && {thread} + RefOf(registry) + Refs(mt) <= objs.Keys * s
      modifies this`objs, this`gray
      ensures Inv({}) && Marks(old(objs), objs, s) && Closed(objs, s)
      ensures {thread} + RefOf(registry) + Refs(mt) <= Marked(objs)
      ensures old(objs)[thread].kind.Thread? && RegistryTable(old(objs)) && mt == [] ==> gray != [] && Gc(gray[0]) == registry
      ensures {thread} + RefOf(registry) + Refs(mt) <= Marked(old(objs)) ==> objs == old(objs) && gray == old(gray)
    {
      hide MarkInv, Closed, Kept, Marks, Marked;
      ghost var h := objs;
      MarkValue(Gc(thread), {}, s);
      ghost var k := objs;
      assert h[thread].kind.Thread? && RegistryTable(h) ==> RegistryTable(k);
      MarksWhites(h, k, s);
      MarkValue(registry, {}, s);
      ghost var l := objs;
      MarksWhites(k, l, s);
      MarkValues(mt, {}, s);
      MarksTrans(h, k, l, s);
      MarksTrans(h, l, objs, s);
      MarksMarked(k, l, s);
      MarksMarked(l, objs, s);
    }

    /** `restartcollection`, before it marks anything. */
    method ResetLists()
      requires Valid() && state.Pause?
      modifies this`gray, this`grayagain, this`weak, this`allweak, this`ephemeron, this`sweepgc, this`changed
      ensures Grays() == Lists([], [], [], [], [], []) && sweepgc == -1 && changed == {}
      ensures Inv({}) && Sound() && Marked(objs) == {}
    {
      hide MarkInv, LiveClosed, AllLinked, Swept, Valid, Marked, Live;
      PauseParts();
      gray, grayagain, weak, allweak, ephemeron, sweepgc, changed := [], [], [], [], [], -1, {};
      AllWhite(objs, allgc, white, mainthread);
      NothingMarked(objs, white);
    }

    lemma PauseParts()
      requires Valid() && state.Pause?
      ensures Sound() && mainthread in objs && saved == [] && !closing && late == map[] && LateHere()
      ensures Swept(objs, allgc, white, |allgc|) && objs[mainthread].color == White(white)
    {
    }

    /** `restartcollection` */
    method RestartCollection(ghost s: set<Ref>)
      requires Valid() && state.Pause? && Closed(objs, s) && Roots() <= s
      modifies this`objs, this`gray, this`grayagain, this`weak, this`allweak, this`ephemeron, this`sweepgc, this`changed
      ensures Sound() && MarkPhase() && gray != [] && Bounded(s) && Kept(old(objs), objs)
      ensures grayagain == [] && changed == {}
      ensures RegistryTable(old(objs)) && mt == [] ==> Gc(gray[0]) == registry
    {
      hide Closed, Kept, Marks, Edges, AllRefs, LiveClosed, MarkInv, AllLinked, Swept, Valid, Marked, Live, RefOf, Refs, Whites, LateHere, LateOk, RegistryTable;
      PauseParts();
      ResetLists();
      LiveParts(objs, white, mainthread);
      ghost var h := objs;
      MarkRoots(mainthread, s);
      MarksBound(h, objs, s);
      MarksKept(h, objs, s);
      SoundWhileMarking(h);
      ThreadGray(objs, Grays(), white, mainthread);
    }

    /** The atomic phase up to the marking of the roots. */
    method BeginAtomic(ghost s: set<Ref>)
      requires Inv({}) && state.Atomic? && closing && saved == [] && Bounded(s)
      requires Roots() <= objs.Keys * s && Settled(objs, allweak, changed)
      modifies this`objs, this`gray, this`grayagain, this`weak, this`allweak, this`ephemeron, this`saved, this`state
      ensures Inv({}) && state.InsideAtomic? && Bounded(s) && Kept(old(objs), objs) && Settled(objs, allweak, changed)
      ensures {running} + RefOf(registry) + Refs(mt) <= Marked(objs)
      ensures old(gray) == [] && {running} + RefOf(registry) + Refs(mt) <= Marked(old(objs)) ==>
        objs == old(objs) && gray == [] && saved == old(grayagain) && ephemeron == old(ephemeron)
    {
      hide MarkInv, Closed, Kept, Marks, Settled, Marked, EphemeronDone, CoreClosed, Resting, RegistryTable, Whites;
      ghost var h := objs;
      PropagateAll(s);
      ghost var h1 := objs;
      KeptMarked(h, h1);
      SaveAgain(objs, Grays(), white);
      saved, grayagain, state := grayagain, [], InsideAtomic;
      MarkRoots(running, s);
      MarksKept(h1, objs, s);
      SettledKept(h1, objs, allweak, changed);
      MarksBound(h1, objs, s);
      KeptTrans(h, h1, objs);
    }

    /** The atomic phase from there up to the clearing of weak tables. Then the marked objects have
        what they refer to strongly, and the values of their marked keys, but for the tables of
        `allweak` whose weakness has been changed. */
    method FinishMarking(ghost s: set<Ref>)
      requires Inv({}) && state.InsideAtomic? && Bounded(s)
      requires Settled(objs, allweak, changed) && changed <= Marked(objs)
      modifies this`objs, this`gray, this`grayagain, this`weak, this`allweak, this`ephemeron, this`saved
      ensures Inv({}) && gray == [] && saved == [] && Bounded(s) && Kept(old(objs), objs)
      ensures forall o :: o in ephemeron ==> EphemeronDone(objs, o)
      ensures forall o :: o in Marked(objs) && o !in changed ==> CoreClosedAt(objs[o], Marked(objs))
      ensures CoreClosed(objs, Marked(objs)) <==> forall o :: o in changed ==> o in objs && CoreClosedAt(objs[o], Marked(objs))
      ensures old(gray) == [] && old(ephemeron) == [] && (forall o :: o in old(saved) ==> Resting(old(objs), o)) ==>
        Whites(objs) == Whites(old(objs))
    {
      hide MarkInv, Closed, Kept, Marks, Settled, Marked, EphemeronDone, CoreClosedAt;
      ghost var h := objs;
      PropagateAll(s);
      ghost var h1 := objs;
      UseSaved(objs, Grays(), white);
      gray, saved := saved, [];
      PropagateAll(s);
      KeptTrans(h, h1, objs);
      ghost var h2 := objs;
      ConvergeEphemerons(s);
      KeptTrans(h, h2, objs);
      SettledTables(objs, Grays(), white, changed);
      KeptMarked(h, objs);
      MarkedInside(objs);
    }

    /** Weak tables lose what is not marked. */
    method ClearWeakTables(ghost s: set<Ref>)
      requires Inv({}) && state.InsideAtomic? && gray == [] && saved == [] && Bounded(s)
      requires forall o :: o in ephemeron ==> EphemeronDone(objs, o)
      modifies this`objs
      ensures ClearInv(s, old(objs))
      ensures forall o :: o in Marked(objs) ==> Edges(objs[o]) <= Marked(objs)
    {
      hide MarkInv, Closed, Marked, Edges, EphemeronDone, ValuesDone, KeysDone, Shrinks;
      ghost var h := objs;
      ShrinksSame(h);
      ClearValues(weak, s);
      ghost var h1 := objs;
      ShrinksSame(h1);
      ClearValues(allweak, s);
      ghost var h2 := objs;
      ShrinksSame(h2);
      ClearKeys(ephemeron, s);
      ghost var h3 := objs;
      ShrinksSame(h3);
      ClearKeys(allweak, s);
      ClearedAlong(h, h1, h2, h3);
      AllCleared(objs, Grays(), white);
    }

    /** What each pass of clearing has done survives the later ones. */
    lemma ClearedAlong(h: Heap, h1: Heap, h2: Heap, h3: Heap)
      requires Inv({}) && state.InsideAtomic? && gray == [] && saved == []
      requires Shrinks(h, h1) && Shrinks(h1, h2) && Shrinks(h2, h3) && Shrinks(h3, objs)
      requires forall o :: o in ephemeron ==> EphemeronDone(h, o) && KeysDone(h3, o)
      requires forall o :: o in weak ==> ValuesDone(h1, o)
      requires forall o :: o in allweak ==> ValuesDone(h2, o) && KeysDone(objs, o)
      ensures Shrinks(h, objs)
      ensures forall o :: o in weak ==> ValuesDone(objs, o)
      ensures forall o :: o in allweak ==> ValuesDone(objs, o) && KeysDone(objs, o)
      ensures forall o :: o in ephemeron ==> KeysDone(objs, o) && ValuesDone(objs, o)
    {
      hide MarkInv, Marked, Edges, EphemeronDone, ValuesDone, KeysDone, Shrinks;
      ShrinksTrans(h2, h3, objs);
      ShrinksTrans(h1, h2, objs);
      ShrinksTrans(h, h1, objs);
      forall o | o in weak
        ensures ValuesDone(objs, o)
      {
        DoneKept(h1, objs, o);
      }
      forall o | o in allweak
        ensures ValuesDone(objs, o)
      {
        DoneKept(h2, objs, o);
      }
      forall o | o in ephemeron
        ensures KeysDone(objs, o) && ValuesDone(objs, o)
      {
        DoneKept(h3, objs, o);
        EphemeronShrinks(h, objs, o);
        EphemeronCleared(objs, Grays(), white, o);
      }
    }

    // ---- sweeping -------------------------------------------------------------------

    /** `makewhite` */
    method MakeWhite(o: Ref)
      requires Sound() && o in Live(objs, white)
      modifies this`objs
      ensures Sound() && objs == Coloured(old(objs), o, White(white)) && SweepKept(old(objs), objs, white)
    {
      hide AllLinked, LiveClosed;
      ghost var h := objs;
      Whitened(objs, white, o);
      objs := objs[o := objs[o].(color := White(white))];
      assert objs == Coloured(h, o, White(white));
      LinkedKept(h, objs, allgc, mainthread);
    }

    /** One object of `sweeplist`: a dead one is freed, any other gets the current white. */
    method SweepOne(p: nat) returns (next: nat)
      requires Sound() && Swept(objs, allgc, white, p) && p < |allgc|
      modifies this`objs, this`allgc
      ensures Sound() && SweepKept(old(objs), objs, white) && Swept(objs, allgc, white, next)
      ensures |allgc| - next == |old(allgc)| - p - 1
    {
      hide AllLinked, LiveClosed, SweepKept;
      var curr := allgc[p];
      Unlinked(objs, allgc, mainthread, p);
      if objs[curr].color == White(!white) {
        Freed(objs, white, curr);
        SweptLive(objs, white, curr);
        objs := objs - {curr};
        allgc := allgc[..p] + allgc[p + 1..];
        next := p;
      } else {
        MakeWhite(curr);
        next := p + 1;
      }
    }

    /** `sweeplist`: at most `count` objects from the one at `start` on; -1 at the end. */
    method SweepList(start: nat, count: nat) returns (p: int)
      requires Sound() && Swept(objs, allgc, white, start)
      modifies this`objs, this`allgc
      ensures Sound() && SweepKept(old(objs), objs, white)
      ensures -1 <= p <= |allgc| && Swept(objs, allgc, white, if p < 0 then |allgc| else p)
      ensures count > 0 && p >= 0 ==> |allgc| - p < |old(allgc)| - start
    {
      hide AllLinked, LiveClosed, SweepKept, Live;
      ghost var h := objs;
      SweepSame(h, white);
      var i, n := start, count;
      while i < |allgc| && n > 0
        invariant 0 <= i <= |allgc| && 0 <= n <= count && Sound() && SweepKept(h, objs, white)
        invariant Swept(objs, allgc, white, i)
        invariant |allgc| - i == |old(allgc)| - start - (count - n)
        decreases n
      {
        ghost var k := objs;
        i := SweepOne(i);
        SweepTrans(h, k, objs, white);
        n := n - 1;
      }
      p := if i == |allgc| then -1 else i;
    }

    /** `entersweep` */
    method EnterSweep()
      requires Sound()
      modifies this`objs, this`allgc, this`state, this`sweepgc
      ensures Sound() && SweepKept(old(objs), objs, white) && state.SwpAllgc?
      ensures -1 <= sweepgc <= |allgc| && Swept(objs, allgc, white, if sweepgc < 0 then |allgc| else sweepgc)
    {
      state := SwpAllgc;
      sweepgc := SweepList(0, 1);
    }

    /** `sweepstep` on the list of all objects */
    method SweepStep(max: nat)
      requires Valid() && state.SwpAllgc? && max > 0
      modifies this`objs, this`allgc, this`state, this`sweepgc
      ensures Valid() && SweepKept(old(objs), objs, white)
      ensures state.SwpFinobj? || (state.SwpAllgc? && 0 <= sweepgc && 0 <= old(sweepgc)
                                   && |allgc| - sweepgc < |old(allgc)| - old(sweepgc))
    {
      hide AllLinked, LiveClosed, SweepKept, Live, MarkInv, Swept;
      SweepSame(objs, white);
      if sweepgc >= 0 {
        sweepgc := SweepList(sweepgc, max);
        if sweepgc >= 0 {
          return;
        }
      }
      state := SwpFinobj;
    }

    /** The atomic phase will find nothing to mark. */
    ghost predicate Quiet()
      reads this
    {
      && gray == [] && ephemeron == [] && {running} + RefOf(registry) + Refs(mt) <= Marked(objs)
      && forall o :: o in grayagain ==> Resting(objs, o)
    }

    /** `atomic`, up to the clearing of weak tables. */
    method MarkAll(ghost s: set<Ref>)
      requires Inv({}) && state.Atomic? && !closing && saved == [] && Bounded(s)
      requires Roots() <= objs.Keys * s && StillWeak(objs, allweak, changed) && changed <= Marked(objs)
      modifies this`objs, this`gray, this`grayagain, this`weak, this`allweak, this`ephemeron, this`saved, this`state, this`closing
      ensures Inv({}) && state.InsideAtomic? && gray == [] && saved == [] && Bounded(s) && Kept(old(objs), objs)
      ensures {running} + RefOf(registry) + Refs(mt) <= Marked(objs)
      ensures forall o :: o in ephemeron ==> EphemeronDone(objs, o)
      ensures forall o :: o in Marked(objs) && o !in changed ==> CoreClosedAt(objs[o], Marked(objs))
      ensures CoreClosed(objs, Marked(objs)) <==> forall o :: o in changed ==> o in objs && CoreClosedAt(objs[o], Marked(objs))
      ensures old(Quiet()) ==> Whites(objs) == Whites(old(objs))
    {
      hide MarkInv, Closed, Kept, Marked, Edges, Settled, StillWeak, CoreClosedAt, CoreClosed, EphemeronDone;
      ghost var h := objs;
      WeakSettled(objs, Grays(), white, changed);
      BeginClosing(objs, Grays(), white);
      closing := true;
      BeginAtomic(s);
      ghost var h1 := objs;
      KeptMarked(h, h1);
      FinishMarking(s);
      KeptTrans(h, h1, objs);
      KeptMarked(h1, objs);
    }

    /** `atomic`, up to the change of the current white. Of what marked objects refer to strongly
        nothing is cleared, but perhaps in the tables of `changed`. */
    method MarkAndClear(ghost s: set<Ref>, ghost t: set<Ref>)
      requires Inv({}) && state.Atomic? && !closing && saved == [] && Bounded(s)
      requires Roots() <= objs.Keys * s && StillWeak(objs, allweak, changed) && changed <= Marked(objs)
      modifies this`objs, this`gray, this`grayagain, this`weak, this`allweak, this`ephemeron, this`saved, this`state, this`closing
      ensures Inv({}) && state.InsideAtomic? && saved == [] && Bounded(s)
      ensures forall o :: o in Marked(objs) ==> Edges(objs[o]) <= Marked(objs)
      ensures Marked(old(objs)) + {running} + RefOf(registry) + Refs(mt) <= Marked(objs)
      ensures objs.Keys == old(objs).Keys && forall o :: o in objs ==> objs[o].kind == old(objs)[o].kind && objs[o].mode == old(objs)[o].mode
      ensures old(Quiet()) ==> forall o :: o in Whites(old(objs)) && !old(objs)[o].kind.Str? ==> o !in Marked(objs)
      ensures old(Closed(objs, t)) ==> Closed(objs, t)
      ensures Held(old(objs), objs, Marked(objs))
      ensures StrongKept(old(objs), Marked(objs), Marked(objs) - changed)
      ensures StrongKept(old(objs), Marked(objs), Marked(objs)) <==> StrongKept(old(objs), Marked(objs), changed)
    {
      hide MarkInv, Closed, Kept, Marked, Shrinks, Edges, StillWeak, CoreClosedAt, StrongKept, Held, Quiet, Whites;
      ghost var h := objs;
      MarkAll(s);
      ghost var k := objs;
      KeptMarked(h, k);
      ClearWeakTables(s);
      HeldCleared(h, k, objs);
      StrongCleared(h, k, objs, Grays(), white, changed);
      RootsStayMarked(h, k, objs);
      if Whites(k) == Whites(h) {
        StillWhite(h, k, objs);
      }
      if Closed(h, t) {
        ClosedKept(h, k, t);
        ClosedShrinks(k, objs, t);
      }
    }

    /** The step of `singlestep` that finishes marking: `atomic`, and the start of the sweep. It
        keeps the invariant unless a metatable came late. What live objects referred to strongly is
        still there, if and only if that holds of the tables of `changed`. */
    method AtomicStep(ghost s: set<Ref>, ghost t: set<Ref>)
      requires Valid() && state.Atomic? && Bounded(s) && Roots() <= s
      modifies this`objs, this`gray, this`grayagain, this`weak, this`allweak, this`ephemeron, this`saved, this`state, this`closing,
               this`white, this`allgc, this`sweepgc
      ensures Sound() && state.SwpAllgc? && Live(objs, white) <= s
      ensures late == map[] ==> Valid()
      ensures old(Closed(objs, t)) ==> Closed(objs, t)
      ensures forall o :: o in objs ==> o in old(objs) && objs[o].mode == old(objs)[o].mode
      ensures old(Quiet()) ==> forall o :: o in Whites(old(objs)) && !old(objs)[o].kind.Str? ==> o !in Live(objs, white)
      ensures Held(old(objs), objs, Live(objs, white)) && Live(objs, white) <= old(Live(objs, white))
      ensures changed <= Live(objs, white) && StrongKept(old(objs), Live(objs, white), Live(objs, white) - changed)
      ensures StrongKept(old(objs), Live(objs, white), Live(objs, white)) <==> StrongKept(old(objs), Live(objs, white), changed)
    {
      hide MarkInv, Closed, Marked, AllLinked, Edges, LiveClosed, Valid, StrongKept, StillWeak, Swept, Live, SweepKept, Held, Quiet, Whites;
      AtomicParts();
      MarkAndClear(s, t);
      MarkedInside(objs);
      BeginSweep(old(objs), t);
      if late == map[] {
        NowSweeping();
      }
    }

    /** The change of the current white and the start of the sweep; `h` is the heap before the
        atomic phase. */
    method BeginSweep(ghost h: Heap, ghost t: set<Ref>)
      requires Inv({}) && state.InsideAtomic? && forall o :: o in Marked(objs) ==> Edges(objs[o]) <= Marked(objs)
      requires Roots() <= Marked(objs) && h.Keys == objs.Keys && AllLinked(h, allgc, mainthread)
      requires objs[mainthread].kind.Thread? && objs[running].kind.Thread? && Held(h, objs, Marked(objs))
      modifies this`objs, this`allgc, this`state, this`sweepgc, this`white, this`closing
      ensures Sound() && state.SwpAllgc? && !closing && Live(objs, white) == Marked(old(objs))
      ensures -1 <= sweepgc <= |allgc| && Swept(objs, allgc, white, if sweepgc < 0 then |allgc| else sweepgc)
      ensures Held(h, objs, Live(objs, white)) && (old(Closed(objs, t)) ==> Closed(objs, t))
      ensures forall o :: o in objs ==> o in old(objs) && objs[o].mode == old(objs)[o].mode
    {
      hide MarkInv, Closed, Marked, AllLinked, Edges, LiveClosed, Swept, Live, Held;
      TurnWhite(h);
      ghost var k := objs;
      EnterSweep();
      HeldSwept(k, objs, white);
      HeldTrans(h, k, objs, Live(k, white), Live(objs, white));
      if Closed(k, t) {
        ClosedSwept(k, objs, white, t);
      }
    }

    /** The change of the current white; `h` is the heap before the atomic phase. */
    method TurnWhite(ghost h: Heap)
      requires Inv({}) && state.InsideAtomic? && forall o :: o in Marked(objs) ==> Edges(objs[o]) <= Marked(objs)
      requires Roots() <= Marked(objs) && h.Keys == objs.Keys && AllLinked(h, allgc, mainthread)
      requires objs[mainthread].kind.Thread? && objs[running].kind.Thread?
      modifies this`white, this`closing
      ensures Sound() && Live(objs, white) == Marked(objs) && !closing
    {
      hide MarkInv, Marked, AllLinked, Edges, LiveClosed, Live;
      Flipped(objs, Grays(), white);
      white, closing := !white, false;
      LinkedKept(h, objs, allgc, mainthread);
    }

    lemma AtomicParts()
      requires Valid() && state.Atomic?
      ensures Sound() && MarkPhase() && saved == [] && !closing && Roots() <= objs.Keys && Live(objs, white) == objs.Keys
    {
      MarkingLive(objs, Grays(), Now(), white);
    }

    lemma NowSweeping()
      requires Sound() && state.SwpAllgc? && saved == [] && !closing && late == map[]
      requires -1 <= sweepgc <= |allgc| && Swept(objs, allgc, white, if sweepgc < 0 then |allgc| else sweepgc)
      ensures Valid()
    {
    }

    /** The steps of a cycle in order, and what is left to do in one. */
    ghost function Rank(): nat
      reads this
    {
      match state
      case Pause => 8
      case Propagate => 7
      case Atomic => 6
      case InsideAtomic => 6
      case SwpAllgc => 5
      case SwpFinobj => 4
      case SwpTobefnz => 3
      case SwpEnd => 2
      case CallFin => 1
    }

    ghost function Left(): int
      reads this
    {
      if state.Propagate? then |Whites(objs)| else if state.SwpAllgc? && sweepgc >= 0 then |allgc| - sweepgc else 0
    }

    method StepPause(ghost s: set<Ref>)
      requires Valid() && state.Pause?
      modifies this`objs, this`gray, this`grayagain, this`weak, this`allweak, this`ephemeron, this`saved, this`state, this`closing,
               this`white, this`allgc, this`sweepgc, this`changed
      ensures Valid() && state.Propagate? && Kept(old(objs), objs)
      ensures old(Closed(objs, s)) ==> Closed(objs, s)
      ensures old(Within(s)) ==> Within(s)
      ensures grayagain == [] && changed == {}
      ensures RegistryTable(old(objs)) && mt == [] ==> Gc(gray[0]) == registry
    {
      hide Closed, Kept, MarkInv, LiveClosed, AllLinked, Swept, Live, Edges;
      ghost var h := objs;
      ghost var b := if Within(s) then s else objs.Keys;
      PauseParts();
      PauseClosed();
      RestartCollection(b);
      state := Propagate;
      if Closed(h, s) {
        ClosedKept(h, objs, s);
      }
    }

    /** All references of existing objects lead to existing objects while all are alive. */
    lemma PauseClosed()
      requires Valid() && (state.Pause? || state.Propagate? || state.Atomic?)
      ensures Closed(objs, objs.Keys) && Roots() <= objs.Keys && Marked(objs) <= objs.Keys
    {
      if state.Pause? {
        AllLive(objs, allgc, white, mainthread);
      } else {
        MarkingLive(objs, Grays(), Now(), white);
      }
      forall o | o in objs
        ensures Edges(objs[o]) <= objs.Keys
      {
        assert LiveOk(objs, white, o);
      }
      KeysClosed(objs);
    }

    method StepPropagate(ghost s: set<Ref>)
      requires Valid() && state.Propagate?
      modifies this`objs, this`gray, this`grayagain, this`weak, this`allweak, this`ephemeron, this`saved, this`state, this`closing,
               this`white, this`allgc, this`sweepgc
      ensures Valid() && (state.Propagate? || state.Atomic?)
      ensures old(Closed(objs, s)) ==> Closed(objs, s)
      ensures old(Within(s)) ==> Within(s)
      ensures state.Propagate? ==> |Whites(objs)| < |Whites(old(objs))|
                                   || (|Whites(objs)| == |Whites(old(objs))| && |gray| < |old(gray)|)
      ensures old(gray) != [] && Kept(old(objs), objs)
      ensures Again(old(objs), old(gray)[0], old(grayagain), grayagain) && (state.Atomic? ==> gray == [])
      ensures WeakJoined(old(objs), old(allweak), allweak)
      ensures AllWeakTable(old(objs), old(gray)[0]) ==> old(gray)[0] in allweak
    {
      hide LateHere, WeakJoined, Again, Closed, Kept, MarkInv, LiveClosed, AllLinked, Swept, Live, Edges, Settled, Valid, Marked, RefOf, Refs, Whites, StillWeak;
      ghost var h := objs;
      ghost var b := if Within(s) then s else objs.Keys;
      PauseClosed();
      MarkParts();
      PropagateMark(b);
      if gray == [] {
        state := Atomic;
      }
      StillWeakJoined(h, objs, old(allweak), allweak, changed);
      KeptMarked(h, objs);
      SoundWhileMarking(h);
      NowMarking();
      if Closed(h, s) {
        ClosedKept(h, objs, s);
      }
    }

    lemma MarkParts()
      requires Valid() && (state.Propagate? || state.Atomic?)
      ensures Sound() && MarkPhase() && saved == [] && !closing && Roots() <= objs.Keys && LateHere()
      ensures state.Propagate? ==> gray != []
    {
    }

    lemma FirstGray()
      requires Valid() && state.Propagate?
      ensures gray != [] && gray[0] in objs
    {
      assert Linked(objs, Grays(), gray[0]);
    }

    lemma NowMarking()
      requires Sound() && MarkPhase() && saved == [] && !closing && LateHere()
      requires (state.Propagate? && gray != []) || state.Atomic?
      ensures Valid()
    {
    }

    method StepAtomic(ghost s: set<Ref>)
      requires Valid() && state.Atomic?
      modifies this`objs, this`gray, this`grayagain, this`weak, this`allweak, this`ephemeron, this`saved, this`state, this`closing,
               this`white, this`allgc, this`sweepgc
      ensures state.SwpAllgc? && (late == map[] ==> Valid())
      ensures StrongKept(old(objs), Live(objs, white), Live(objs, white)) <==> StrongKept(old(objs), Live(objs, white), changed)
      ensures Held(old(objs), objs, Live(objs, white)) && Live(objs, white) <= old(Live(objs, white))
      ensures old(Closed(objs, s)) ==> Closed(objs, s)
      ensures old(Within(s)) ==> Within(s)
    {
      hide Closed, Kept, MarkInv, LiveClosed, AllLinked, Swept, Live, Edges, Valid, StrongKept, Quiet, Held;
      ghost var b := if Within(s) then s else objs.Keys;
      PauseClosed();
      AtomicStep(b, s);
    }

    method StepSweep(max: nat, ghost s: set<Ref>)
      requires Valid() && state.SwpAllgc? && max > 0
      modifies this`objs, this`gray, this`grayagain, this`weak, this`allweak, this`ephemeron, this`saved, this`state, this`closing,
               this`white, this`allgc, this`sweepgc
      ensures Valid() && (state.SwpFinobj? || (state.SwpAllgc? && 0 <= Left() < old(Left())))
      ensures Held(old(objs), objs, Live(objs, white)) && Live(objs, white) <= old(Live(objs, white))
      ensures old(Closed(objs, s)) ==> Closed(objs, s)
      ensures old(Within(s)) ==> Within(s)
    {
      hide Closed, MarkInv, LiveClosed, AllLinked, Swept, Edges, Held;
      ghost var h := objs;
      LiveAll();
      SweepStep(max);
      HeldSwept(h, objs, white);
      if Closed(h, s) {
        ClosedSwept(h, objs, white, s);
      }
      if state.SwpFinobj? {
        AllLive(objs, allgc, white, mainthread);
      }
    }

    /** The steps after the sweep of `allgc`: without finalizers the other lists are empty. */
    method StepRest(ghost s: set<Ref>)
      requires Valid() && Rank() <= 4
      modifies this`objs, this`state
      ensures Valid() && (Rank() == old(Rank()) - 1 || (old(state.CallFin?) && state.Pause?))
      ensures Held(old(objs), objs, Live(objs, white)) && Live(objs, white) <= old(Live(objs, white))
      ensures old(Closed(objs, s)) ==> Closed(objs, s)
      ensures old(Within(s)) ==> Within(s)
      ensures objs.Keys == old(objs).Keys
    {
      hide Closed, MarkInv, LiveClosed, AllLinked, Swept, Live, Edges, Held;
      LiveAll();
      SweepSame(objs, white);
      HeldSwept(objs, objs, white);
      if state == SwpFinobj {
        state := SwpTobefnz;
      } else if state == SwpTobefnz {
        state := SwpEnd;
      } else if state == SwpEnd {
        SweepMainthread(s);
      } else {
        state := Pause;
      }
    }

    method SweepMainthread(ghost s: set<Ref>)
      requires Valid() && state.SwpEnd?
      modifies this`objs, this`state
      ensures Valid() && state.CallFin? && objs.Keys == old(objs).Keys
      ensures Held(old(objs), objs, Live(objs, white)) && Live(objs, white) <= old(Live(objs, white))
      ensures old(Closed(objs, s)) ==> Closed(objs, s)
      ensures old(Within(s)) ==> Within(s)
    {
      hide Closed, MarkInv, LiveClosed, AllLinked, Edges, SweepKept, Held;
      ghost var h := objs;
      LiveAll();
      MakeWhite(mainthread);
      HeldSwept(h, objs, white);
      state := CallFin;
      if Closed(h, s) {
        ClosedSwept(h, objs, white, s);
      }
    }

    /** `singlestep`. `max` is the most objects that one step sweeps. For every closed set `s`
        with the roots, a cycle finds out, step by step, what is not in it. */
    method SingleStep(max: nat, ghost s: set<Ref>)
      requires Valid() && max > 0
      modifies this`objs, this`gray, this`grayagain, this`weak, this`allweak, this`ephemeron, this`saved, this`state, this`closing,
               this`white, this`allgc, this`sweepgc, this`changed
      ensures (old(state.Atomic?) && late != map[]) || Valid()
      ensures old(Closed(objs, s)) ==> Closed(objs, s)
      ensures old(Within(s)) ==> Within(s)
      ensures Held(old(objs), objs, Live(objs, white)) && Live(objs, white) <= old(Live(objs, white))
      ensures late == old(late)
      ensures old(state.Atomic?) ==>
        (StrongKept(old(objs), Live(objs, white), Live(objs, white)) <==> StrongKept(old(objs), Live(objs, white), changed))
      ensures if old(state.Pause?) then state.Propagate?
              else if old(state.CallFin?) then state.Pause? && objs.Keys == old(objs).Keys
              else Rank() == old(Rank()) - 1
                   || (Rank() == old(Rank()) && 0 <= Left() < old(Left()))
                   || (Rank() == old(Rank()) && Left() == old(Left()) && |gray| < |old(gray)|)
    {
      hide Closed, MarkInv, LiveClosed, AllLinked, Edges, Swept, Live, Valid, Within, StrongKept, Held, Kept, Again, WeakJoined;
      NotInside();
      ghost var h := objs;
      if state.Pause? || KeepInvariant() {
        AllAlive();
      }
      if state == Pause {
        StepPause(s);
        MarkingHeld(h);
      } else if state == Propagate {
        StepPropagate(s);
        MarkingHeld(h);
      } else if state == Atomic {
        StepAtomic(s);
      } else if state == SwpAllgc {
        StepSweep(max, s);
      } else {
        StepRest(s);
      }
    }

    /** What the invariant says about live objects. */
    lemma LiveAll()
      requires Valid()
      ensures LiveClosed(objs, white) && Live(objs, white) <= objs.Keys
    {
    }

    /** Marking changes nothing that objects hold. */
    lemma MarkingHeld(h: Heap)
      requires Valid() && KeepInvariant() && Kept(h, objs)
      ensures Held(h, objs, Live(objs, white)) && Live(objs, white) == h.Keys
    {
      hide Kept, Edges, Held, MarkInv;
      MarkParts();
      MarkingLive(objs, Grays(), Now(), white);
      forall o | o in objs
        ensures Edges(objs[o]) <= objs.Keys
      {
        assert LiveOk(objs, white, o);
      }
      KeptMarked(h, objs);
      HeldMarked(h, objs, objs.Keys);
    }

    /** In a pause and while marking all objects are alive. */
    lemma AllAlive()
      requires Valid() && (state.Pause? || KeepInvariant())
      ensures Live(objs, white) == objs.Keys
    {
      if state.Pause? {
        AllLive(objs, allgc, white, mainthread);
      } else {
        MarkingLive(objs, Grays(), Now(), white);
      }
    }

    lemma NotInside()
      requires Valid()
      ensures !state.InsideAtomic?
    {
    }

    /** `luaC_runtilstate` */
    method RunUntil(target: GcState, max: nat, ghost s: set<Ref>)
      requires Valid() && max > 0 && late == map[] && (target.Pause? || target.CallFin?)
      requires target.CallFin? ==> !state.Pause?
      modifies this`objs, this`gray, this`grayagain, this`weak, this`allweak, this`ephemeron, this`saved, this`state, this`closing,
               this`white, this`allgc, this`sweepgc, this`changed
      ensures Valid() && state == target
      ensures Held(old(objs), objs, Live(objs, white)) && Live(objs, white) <= old(Live(objs, white))
      ensures old(Closed(objs, s)) ==> Closed(objs, s)
      ensures old(Within(s)) ==> Within(s)
    {
      hide Closed, MarkInv, LiveClosed, AllLinked, Edges, Swept, Live, Valid, Within, Held;
      LiveAll();
      SweepSame(objs, white);
      HeldSwept(objs, objs, white);
      while state != target
        invariant Valid() && (target.CallFin? ==> !state.Pause?)
        invariant Held(old(objs), objs, Live(objs, white)) && Live(objs, white) <= old(Live(objs, white))
        invariant old(Closed(objs, s)) ==> Closed(objs, s)
        invariant old(Within(s)) ==> Within(s)
        decreases if state.Pause? then 0 else Rank(), Left(), |gray|
      {
        LeftNatural();
        ghost var k, live := objs, Live(objs, white);
        SingleStep(max, s);
        HeldTrans(old(objs), k, objs, live, Live(objs, white));
      }
    }

    lemma LeftNatural()
      requires Valid()
      ensures Left() >= 0
    {
    }

    /** `luaC_fullgc`: whatever is outside some closed set with the roots is collected, and the
        objects that are left hold what they held of each other. */
    method FullGc(max: nat, ghost s: set<Ref>)
      requires Valid() && max > 0 && Closed(RealObjs(), s) && Roots() <= s
      modifies this`objs, this`gray, this`grayagain, this`weak, this`allweak, this`ephemeron, this`saved, this`state, this`closing,
               this`white, this`allgc, this`sweepgc, this`changed, this`late
      ensures Valid() && state.Pause? && Closed(objs, s)
      ensures objs.Keys <= s && Held(old(RealObjs()), objs, objs.Keys)
    {
      hide Closed, MarkInv, LiveClosed, AllLinked, Edges, Swept, Live, Valid, Held;
      ForgetMarks(s);
      ghost var h, live := objs, Live(objs, white);
      FullCycle(max, s);
      HeldTrans(old(RealObjs()), h, objs, live, objs.Keys);
    }

    /** The end of the sweep under way, and a whole cycle after it. */
    method FullCycle(max: nat, ghost s: set<Ref>)
      requires Valid() && max > 0 && late == map[] && Closed(objs, s) && Roots() <= s
      modifies this`objs, this`gray, this`grayagain, this`weak, this`allweak, this`ephemeron, this`saved, this`state, this`closing,
               this`white, this`allgc, this`sweepgc, this`changed
      ensures Valid() && state.Pause? && Closed(objs, s) && objs.Keys <= s
      ensures Held(old(objs), objs, objs.Keys) && objs.Keys <= old(Live(objs, white))
    {
      hide Closed, MarkInv, LiveClosed, AllLinked, Edges, Swept, Live, Valid, Held;
      RunUntil(Pause, max, s);
      ghost var h, live := objs, Live(objs, white);
      SingleStep(max, s);
      HeldTrans(old(objs), h, objs, live, Live(objs, white));
      h, live := objs, Live(objs, white);
      RunUntil(CallFin, max, s);
      HeldTrans(old(objs), h, objs, live, Live(objs, white));
      h, live := objs, Live(objs, white);
      SingleStep(max, s);
      HeldTrans(old(objs), h, objs, live, Live(objs, white));
      AllAlive();
    }

    /** The objects with the metatables that they really have. */
    function RealObjs(): Heap
      reads this
    {
      map o | o in objs :: objs[o].(meta := Meta(o))
    }

    lemma NoneLate()
      requires Valid() && !KeepInvariant()
      ensures late == map[] && RealObjs() == objs
    {
    }

    /** The start of `luaC_fullgc`: what has been marked in the current cycle is swept to white. */
    method ForgetMarks(ghost s: set<Ref>)
      requires Valid() && Closed(RealObjs(), s)
      modifies this`objs, this`allgc, this`state, this`sweepgc, this`late
      ensures Valid() && late == map[] && Closed(objs, s)
      ensures Held(old(RealObjs()), objs, Live(objs, white))
    {
      hide Closed, MarkInv, LiveClosed, AllLinked, Edges, Swept, Live, Valid, Held;
      if state.Propagate? || state.Atomic? {
        TakeLate();
        ghost var h := objs;
        EnterSweep();
        ClosedSwept(h, objs, white, s);
        HeldSwept(h, objs, white);
        NowSweeping();
      } else {
        NoneLate();
        LiveAll();
        SweepSame(objs, white);
        HeldSwept(objs, objs, white);
      }
    }

    /** As long as the invariants hold, late metatables are as good as others. */
    lemma RealLive()
      requires Valid()
      ensures Live(RealObjs(), white) == Live(objs, white) && LiveClosed(RealObjs(), white)
    {
      hide Edges, AllRefs, AllLinked, Swept;
      assert Live(RealObjs(), white) == Live(objs, white);
      if KeepInvariant() {
        MarkingLive(objs, Grays(), Now(), white);
        forall o | o in objs
          ensures LiveOk(RealObjs(), white, o)
        {
          assert LiveOk(objs, white, o) && Linked(objs, Grays(), o);
          MetaRefs(objs[o], Meta(o));
        }
      } else {
        NoneLate();
      }
    }

    method TakeLate()
      requires Valid() && KeepInvariant()
      modifies this`objs, this`late
      ensures Sound() && saved == [] && !closing && late == map[] && objs == old(RealObjs())
    {
      hide Valid, LiveClosed, Live, MarkInv;
      RealLive();
      MarkParts();
      LiveParts(objs, white, mainthread);
      LiveParts(objs, white, running);
      LinkedKept(objs, RealObjs(), allgc, mainthread);
      objs, late := RealObjs(), map[];
    }

    // ---- the running program --------------------------------------------------------

    /** A new state: the main thread alone. */
    constructor (mainthread: Ref)
      ensures Valid() && state.Pause? && this.mainthread == mainthread && Roots() == {mainthread}
      ensures objs == map[mainthread := NewObject(Thread, white, [])] && late == map[]
    {
      this.mainthread, running := mainthread, mainthread;
      registry, mt := Nil, [];
      objs := map[mainthread := NewObject(Thread, false, [])];
      gray, grayagain, weak, allweak, ephemeron, saved, late := [], [], [], [], [], [], map[];
      state, closing, white, allgc, sweepgc := Pause, false, false, [], -1;
      new;
      assert Live(objs, white) == {mainthread};
    }

    /** What the program has a reference to. By `NeverFreed` such an object exists, so asking for
        it once more below asks for nothing new. */
    ghost predicate CanUse(o: Ref)
      reads this
    {
      Accessible(RealObjs(), Roots(), o)
    }

    ghost predicate CanUseAll(rs: set<Ref>)
      reads this
    {
      forall r :: r in rs ==> CanUse(r)
    }

    /** No object that the program can get at, through strong or weak references, has been
        freed or ever will be in this cycle. */
    lemma NeverFreed(o: Ref)
      requires Valid() && CanUse(o)
      ensures o in objs && o in Live(objs, white)
      ensures Edges(objs[o]) + Edges(RealObjs()[o]) <= Live(objs, white)
    {
      hide Edges, MarkInv, AllLinked, Swept;
      RealLive();
      AccessibleLive(RealObjs(), white, Roots(), o);
      assert LiveOk(objs, white, o) && LiveOk(RealObjs(), white, o);
    }

    lemma AllNeverFreed(rs: set<Ref>)
      requires Valid() && CanUseAll(rs)
      ensures rs <= Live(objs, white)
    {
      forall r | r in rs
        ensures r in Live(objs, white)
      {
        NeverFreed(r);
      }
    }

    /** Does the collector keep the invariant of marking now? */
    ghost predicate KeepInvariant()
      reads this
    {
      state.Propagate? || state.Atomic?
    }

    /** An object gets a new content, with its colour. */
    method Store(x: Ref, y: Object)
      requires Valid() && x in Live(objs, white) && y.color == objs[x].color && y.kind == objs[x].kind && Shaped(y)
      requires Edges(y) <= Live(objs, white)
      requires KeepInvariant() && objs[x].color.Black? ==> AllRefs(y) <= Marked(objs)
      requires KeepInvariant() && x in allweak ==> RefOf(y.meta) <= Marked(objs)
      requires y.mode == objs[x].mode || (KeepInvariant() && x in allweak ==> x in changed)
      modifies this`objs
      ensures Valid() && objs == old(objs)[x := y]
    {
      hide MarkInv, LiveClosed, AllLinked, Swept, Edges, AllRefs, Live, StillWeak;
      ghost var h := objs;
      LiveParts(objs, white, x);
      WriteLive(objs, white, x, y);
      LinkedKept(h, h[x := y], allgc, mainthread);
      if KeepInvariant() {
        StillWeakWritten(objs, x, y, allweak, changed);
        if objs[x].color.Black? {
          WriteBlack(objs, Grays(), white, x, y);
        } else {
          WriteMarked(objs, Grays(), white, x, y);
        }
      } else {
        SweptWrite(objs, allgc, white, if state.SwpAllgc? && sweepgc >= 0 then sweepgc else |allgc|, x, y);
      }
      objs := objs[x := y];
    }

    /** `luaC_barrierback` with the write before it: a black object that gets a white one
        becomes gray again, to be visited in the atomic phase. */
    method StoreBack(x: Ref, y: Object, v: Value)
      requires Valid() && x in Live(objs, white) && y.color == objs[x].color && y.kind == objs[x].kind && Shaped(y)
      requires objs[x].kind.Table? && RefOf(v) <= Live(objs, white) && y.meta == objs[x].meta && y.mode == objs[x].mode
      requires Edges(y) <= Live(objs, white) && AllRefs(y) <= AllRefs(objs[x]) + RefOf(v)
      modifies this`objs, this`grayagain
      ensures Valid() && x in objs && objs == old(objs)[x := y.(color := objs[x].color)]
      ensures objs[x].color == y.color || (y.color.Black? && objs[x].color.Gray?)
      ensures Live(objs, white) == Live(old(objs), white)
      ensures !old(objs)[x].color.Black? ==> objs == old(objs)[x := y] && grayagain == old(grayagain)
    {
      hide MarkInv, LiveClosed, AllLinked, Swept, Edges, AllRefs;
      if v.Gc? && objs[x].color.Black? && IsWhite(v.r) {
        SameEdges(y, Gray);
        StoreGray(x, y.(color := Gray));
      } else {
        StoreKeeps(x, y, v);
        Store(x, y);
      }
    }

    lemma StoreKeeps(x: Ref, y: Object, v: Value)
      requires Valid() && x in Live(objs, white) && RefOf(v) <= Live(objs, white)
      requires objs[x].color.Black? ==> RefOf(v) <= Marked(objs) && AllRefs(y) <= AllRefs(objs[x]) + RefOf(v)
      requires y.meta == objs[x].meta && y.color == objs[x].color
      ensures KeepInvariant() && objs[x].color.Black? ==> AllRefs(y) <= Marked(objs)
      ensures KeepInvariant() && x in allweak ==> RefOf(y.meta) <= Marked(objs)
      ensures Live(objs[x := y], white) == Live(objs, white)
    {
      hide Edges;
      SameEnds(objs, white, x, y);
      if KeepInvariant() {
        assert ObjectOk(objs, Grays(), Now(), white, x) && Linked(objs, Grays(), x);
        if x in allweak {
          NowhereElse(objs, Grays(), white, x);
        }
      }
    }

    /** `luaC_barrierback_` */
    method StoreGray(x: Ref, y: Object)
      requires Valid() && x in Live(objs, white) && objs[x].kind.Table? && objs[x].color.Black?
      requires Shaped(y) && y.kind.Table? && y.color.Gray? && y.mode == objs[x].mode && Edges(y) <= Live(objs, white)
      modifies this`objs, this`grayagain
      ensures Valid() && objs == old(objs)[x := y] && Live(objs, white) == Live(old(objs), white)
    {
      hide MarkInv, LiveClosed, AllLinked, Swept, Edges, AllRefs, StillWeak;
      ghost var h := objs;
      WriteLive(objs, white, x, y);
      LinkedKept(h, h[x := y], allgc, mainthread);
      if KeepInvariant() {
        StillWeakWritten(objs, x, y, allweak, changed);
        WriteBack(objs, Grays(), white, x, y);
        SameMarks(objs, x, y);
      } else {
        SweptWrite(objs, allgc, white, if state.SwpAllgc? && sweepgc >= 0 then sweepgc else |allgc|, x, y);
      }
      objs := objs[x := y];
      grayagain := [x] + grayagain;
    }

    /** `luaC_barrier` with the write before it: a white object that a black one gets is marked
        at once, or, while sweeping, the black one takes the current white. */
    method StoreForward(x: Ref, y: Object, v: Value)
      requires Valid() && x in Live(objs, white) && y.color == objs[x].color && y.kind == objs[x].kind && Shaped(y)
      requires !objs[x].kind.Thread? && RefOf(v) <= Live(objs, white) && y.mode == objs[x].mode
      requires Edges(y) <= Live(objs, white) && AllRefs(y) <= AllRefs(objs[x]) + RefOf(v)
      requires KeepInvariant() && x in allweak ==> RefOf(y.meta) <= Marked(objs)
      modifies this`objs, this`gray
      ensures Valid() && objs.Keys == old(objs).Keys && x in objs && Edges(objs[x]) == Edges(y) && objs[x].meta == y.meta
      ensures SameContents(old(objs)[x := y], objs)
      ensures !old(objs)[x].color.Black? ==> objs == old(objs)[x := y]
    {
      hide MarkInv, LiveClosed, AllLinked, Swept, Edges, AllRefs, SameContents;
      ColourContents(objs, x, y, White(white));
      ColourContents(objs, x, y, y.color);
      assert y.(color := y.color) == y;
      if v.Gc? && objs[x].color.Black? && IsWhite(v.r) {
        if state == Propagate || state == Atomic {
          StoreAndMark(x, y, v.r);
        } else {
          StoreWhite(x, y);
        }
      } else {
        StoreMarked(x, y, v);
        Store(x, y);
      }
    }

    lemma StoreMarked(x: Ref, y: Object, v: Value)
      requires Valid() && x in Live(objs, white) && RefOf(v) <= Live(objs, white)
      requires objs[x].color.Black? ==> RefOf(v) <= Marked(objs) && AllRefs(y) <= AllRefs(objs[x]) + RefOf(v)
      ensures KeepInvariant() && objs[x].color.Black? ==> AllRefs(y) <= Marked(objs)
    {
      if KeepInvariant() {
        assert ObjectOk(objs, Grays(), Now(), white, x);
      }
    }

    /** `luaC_barrier_` in the sweep phase */
    method StoreWhite(x: Ref, y: Object)
      requires Valid() && x in Live(objs, white) && !KeepInvariant() && !objs[x].kind.Thread? && objs[x].color.Black?
      requires Shaped(y) && y.kind == objs[x].kind && Edges(y) <= Live(objs, white)
      modifies this`objs
      ensures Valid() && objs == old(objs)[x := y.(color := White(white))] && Edges(objs[x]) == Edges(y)
    {
      hide MarkInv, LiveClosed, AllLinked, Swept, Edges, AllRefs;
      ghost var h := objs;
      var z := y.(color := White(white));
      SameEdges(y, White(white));
      WriteLive(objs, white, x, z);
      LinkedKept(h, h[x := z], allgc, mainthread);
      SweptWrite(objs, allgc, white, if state.SwpAllgc? && sweepgc >= 0 then sweepgc else |allgc|, x, z);
      objs := objs[x := z];
    }

    lemma BlackParts(x: Ref)
      requires Valid() && KeepInvariant() && x in objs && objs[x].color.Black?
      ensures AllRefs(objs[x]) <= Marked(objs) && Live(objs, white) == objs.Keys
    {
      assert ObjectOk(objs, Grays(), Now(), white, x);
      MarkingLive(objs, Grays(), Now(), white);
    }

    /** `luaC_barrier_` while marking */
    method StoreAndMark(x: Ref, y: Object, v: Ref)
      requires Valid() && x in Live(objs, white) && KeepInvariant() && !objs[x].kind.Thread? && objs[x].color.Black?
      requires Shaped(y) && y.kind == objs[x].kind && y.mode == objs[x].mode && y.color.Black?
      requires Edges(y) <= Live(objs, white)
      requires v in Live(objs, white) && IsWhite(v) && AllRefs(y) <= AllRefs(objs[x]) + {v}
      modifies this`objs, this`gray
      ensures Valid() && objs.Keys == old(objs).Keys && x in objs && Edges(objs[x]) == Edges(y) && objs[x].meta == y.meta
      ensures SameContents(old(objs)[x := y], objs)
    {
      hide LateHere, MarkInv, LiveClosed, AllLinked, Swept, Edges, AllRefs, Kept, Marks, Closed, Valid, Live, Marked, Coloured, RefOf, Refs, StillWeak, SameContents;
      ghost var h := objs;
      MarkParts();
      OpenWritten(x, y, v);
      objs := objs[x := y];
      ghost var k := objs;
      ReallyMark(v, {x}, objs.Keys);
      MarksKept(k, objs, k.Keys);
      KeptContents(k, objs);
      MarksMarked(k, objs, k.Keys);
      ForwardDone(k, objs, x, v, k.Keys);
      assert {} + {x} == {x} && {} - {x} == {};
      CloseBlack(objs, Grays(), Now(), white, {}, x);
      StillWeakKept(k, objs, allweak, changed);
      SoundWhileMarking(k);
      NowMarking();
    }

    /** The write before the barrier leaves `x` open until `v` is marked. */
    lemma OpenWritten(x: Ref, y: Object, v: Ref)
      requires Valid() && x in Live(objs, white) && KeepInvariant() && objs[x].color.Black?
      requires Shaped(y) && y.kind == objs[x].kind && y.mode == objs[x].mode && y.color.Black?
      requires Edges(y) <= Live(objs, white)
      requires v in Live(objs, white) && IsWhite(v) && AllRefs(y) <= AllRefs(objs[x]) + {v}
      ensures x in objs && v in objs && x != v && Now().Marking?
      ensures var k := objs[x := y];
        && MarkInv(k, Grays(), Marking, white, {x}) && Closed(k, k.Keys) && AllLinked(k, allgc, mainthread)
        && StillWeak(k, allweak, changed) && Marked(k) == Marked(objs) && AllRefs(y) <= Marked(k) + {v}
        && k[mainthread].kind.Thread? && k[running].kind.Thread?
    {
      hide LateHere, MarkInv, LiveClosed, AllLinked, Swept, Edges, AllRefs, Closed, Valid, Live, Marked, RefOf, Refs, StillWeak;
      LiveParts(objs, white, x);
      LiveParts(objs, white, v);
      MarkParts();
      BlackParts(x);
      WriteOpen(objs, Grays(), white, x, y);
      WriteLive(objs, white, x, y);
      LinkedKept(objs, objs[x := y], allgc, mainthread);
      SameMarks(objs, x, y);
      StillWeakWritten(objs, x, y, allweak, changed);
      LiveKeysClosed(objs[x := y], white);
    }

    /** `luaC_newobj`, with the new object filled and pushed on a stack: it is white, so filling
        it needs no barrier. */
    method NewOnStack(th: Ref, o: Ref, kind: Kind, arr: seq<Value>)
      requires Valid() && CanUse(th) && th in objs && objs[th].kind.Thread? && o !in objs
      requires CanUseAll(Refs(arr)) && (kind.Str? ==> arr == [])
      modifies this`objs, this`allgc, this`sweepgc
      ensures Valid() && o in objs && objs.Keys == old(objs).Keys + {o}
      ensures objs == old(objs)[o := NewObject(kind, white, arr)][th := old(objs)[th].(arr := old(objs)[th].arr + [Gc(o)])]
    {
      hide MarkInv, LiveClosed, AllLinked, Swept, Live, Valid, CanUse, CanUseAll, Edges, AllRefs;
      NeverFreed(th);
      AllNeverFreed(Refs(arr));
      AddObject(o, kind, arr);
      PushedEdges(objs[th], o);
      ThreadsGray(th);
      Store(th, objs[th].(arr := objs[th].arr + [Gc(o)]));
    }

    method AddObject(o: Ref, kind: Kind, arr: seq<Value>)
      requires Valid() && o !in objs && Refs(arr) <= Live(objs, white) && (kind.Str? ==> arr == [])
      modifies this`objs, this`allgc, this`sweepgc
      ensures Valid() && objs == old(objs)[o := NewObject(kind, white, arr)]
      ensures Live(objs, white) == Live(old(objs), white) + {o}
    {
      hide MarkInv, LiveClosed, AllLinked, Swept, RefOf, Edges, AllRefs, StillWeak, Live;
      LiveParts(objs, white, mainthread);
      NewLive(objs, white, o, kind, arr);
      LinkedNew(objs, allgc, mainthread, o, NewObject(kind, white, arr));
      if KeepInvariant() {
        StillWeakNew(objs, o, NewObject(kind, white, arr), allweak, changed);
        NewMarked(objs, Grays(), white, o, kind, arr);
      } else {
        SweptNew(objs, allgc, white, if state.SwpAllgc? && sweepgc >= 0 then sweepgc else |allgc|, o, NewObject(kind, white, arr));
        SweptNone(objs[o := NewObject(kind, white, arr)], [o] + allgc, white);
      }
      objs := objs[o := NewObject(kind, white, arr)];
      allgc := [o] + allgc;
      if sweepgc > 0 {
        sweepgc := sweepgc + 1;
      }
    }

    /** Threads are never black, so their stacks need no barrier. */
    lemma ThreadsGray(th: Ref)
      requires Valid() && th in objs && objs[th].kind.Thread?
      ensures KeepInvariant() ==> !objs[th].color.Black? && th !in allweak
      ensures th in Live(objs, white) ==> objs[th].meta == Nil && objs[th].entries == []
    {
      if KeepInvariant() {
        assert ObjectOk(objs, Grays(), Now(), white, th) && Linked(objs, Grays(), th);
      }
      if th in Live(objs, white) {
        assert LiveOk(objs, white, th);
      }
    }

    /** The stack of a thread gets new contents. */
    method SetStack(th: Ref, values: seq<Value>)
      requires Valid() && CanUse(th) && th in objs && objs[th].kind.Thread? && CanUseAll(Refs(values))
      modifies this`objs
      ensures Valid() && objs == old(objs)[th := old(objs)[th].(arr := values)]
    {
      hide MarkInv, LiveClosed, AllLinked, Swept, Live, Valid, CanUse, CanUseAll, Edges, AllRefs;
      NeverFreed(th);
      AllNeverFreed(Refs(values));
      ThreadsGray(th);
      StackEdges(objs[th], values);
      Store(th, objs[th].(arr := values));
    }

    /** Another thread runs. */
    method Resume(th: Ref)
      requires Valid() && CanUse(th) && th in objs && objs[th].kind.Thread?
      modifies this`running
      ensures Valid() && running == th
    {
      hide MarkInv, LiveClosed, AllLinked, Swept, Edges, AllRefs, CanUse, CanUseAll;
      NeverFreed(th);
      running := th;
    }

    /** The registry and the metatables of the basic types are marked again by `atomic`. */
    method SetGlobals(r: Value, metatables: seq<Value>)
      requires Valid() && CanUseAll(RefOf(r) + Refs(metatables))
      modifies this`registry, this`mt
      ensures Valid() && registry == r && mt == metatables
    {
      hide MarkInv, LiveClosed, AllLinked, Swept, Edges, AllRefs, CanUse, CanUseAll;
      AllNeverFreed(RefOf(r) + Refs(metatables));
      registry, mt := r, metatables;
    }

    /** An element of the array part of a table. */
    method SetArray(t: Ref, i: nat, v: Value)
      requires Valid() && CanUse(t) && t in objs && objs[t].kind.Table? && i < |objs[t].arr| && CanUseAll(RefOf(v))
      modifies this`objs, this`grayagain
      ensures Valid() && t in objs
      ensures objs == old(objs)[t := old(objs)[t].(arr := old(objs)[t].arr[i := v], color := objs[t].color)]
      ensures !old(objs)[t].color.Black? ==> objs[t].color == old(objs)[t].color && grayagain == old(grayagain)
    {
      hide MarkInv, LiveClosed, AllLinked, Swept, Live, Edges, AllRefs, Valid, CanUse, CanUseAll;
      NeverFreed(t);
      AllNeverFreed(RefOf(v));
      ArrEdges(objs[t], i, v);
      TableShape(objs[t], objs[t].arr[i := v], objs[t].entries);
      StoreBack(t, objs[t].(arr := objs[t].arr[i := v]), v);
    }

    /** `luaH_newkey`: a new slot, still empty. */
    method NewKey(t: Ref, k: Value)
      requires Valid() && CanUse(t) && t in objs && objs[t].kind.Table? && k != Nil && k != Dead && CanUseAll(RefOf(k))
      modifies this`objs, this`grayagain
      ensures Valid() && t in objs && objs == old(objs)[t :=
        old(objs)[t].(entries := old(objs)[t].entries + [Entry(k, Nil)], color := objs[t].color)]
    {
      hide MarkInv, LiveClosed, AllLinked, Swept, Live, Edges, AllRefs, Valid, CanUse, CanUseAll;
      NeverFreed(t);
      AllNeverFreed(RefOf(k));
      KeyEdges(objs[t], k);
      TableShape(objs[t], objs[t].arr, objs[t].entries + [Entry(k, Nil)]);
      StoreBack(t, objs[t].(entries := objs[t].entries + [Entry(k, Nil)]), k);
    }

    /** The value of a slot; the key is one that the program has. */
    method SetSlot(t: Ref, i: nat, v: Value)
      requires Valid() && CanUse(t) && t in objs && objs[t].kind.Table? && i < |objs[t].entries|
      requires objs[t].entries[i].key != Dead && CanUseAll(RefOf(objs[t].entries[i].key) + RefOf(v))
      modifies this`objs, this`grayagain
      ensures Valid() && t in objs
      ensures objs == old(objs)[t := old(objs)[t].(
        entries := old(objs)[t].entries[i := Entry(old(objs)[t].entries[i].key, v)], color := objs[t].color)]
    {
      hide MarkInv, LiveClosed, AllLinked, Swept, Live, Edges, AllRefs, Valid, CanUse, CanUseAll;
      NeverFreed(t);
      AllNeverFreed(RefOf(objs[t].entries[i].key) + RefOf(v));
      SlotEdges(objs[t], i, v);
      TableShape(objs[t], objs[t].arr, objs[t].entries[i := Entry(objs[t].entries[i].key, v)]);
      StoreBack(t, objs[t].(entries := objs[t].entries[i := Entry(objs[t].entries[i].key, v)]), v);
    }

    /** An upvalue of a function or the user value of a userdata. */
    method SetField(f: Ref, i: nat, v: Value)
      requires Valid() && CanUse(f) && f in objs && (objs[f].kind.Function? || objs[f].kind.Udata?)
      requires i < |objs[f].arr| && CanUseAll(RefOf(v))
      modifies this`objs, this`gray
      ensures Valid() && objs.Keys == old(objs).Keys && f in objs
      ensures SameContents(old(objs)[f := old(objs)[f].(arr := old(objs)[f].arr[i := v])], objs)
      ensures Edges(objs[f]) == Edges(old(objs)[f].(arr := old(objs)[f].arr[i := v]))
    {
      hide MarkInv, LiveClosed, AllLinked, Swept, Live, Edges, AllRefs, Valid, CanUse, CanUseAll, SameContents;
      NeverFreed(f);
      AllNeverFreed(RefOf(v));
      ArrEdges(objs[f], i, v);
      PlainShape(f);
      StoreForward(f, objs[f].(arr := objs[f].arr[i := v]), v);
    }

    lemma PlainShape(f: Ref)
      requires Valid() && f in Live(objs, white) && !objs[f].kind.Table?
      ensures Shaped(objs[f]) && (KeepInvariant() ==> f !in allweak)
    {
      assert LiveOk(objs, white, f);
      if KeepInvariant() {
        assert Linked(objs, Grays(), f);
      }
    }

    /** `lua_setmetatable`. The barrier looks for a black object, and so it misses an all-weak table
        that has been traversed in this cycle: then a white metatable comes late. It is not marked
        because of this table, and may be freed in this cycle (`LateMetatableFreed`). */
    method SetMetatable(x: Ref, m: Value)
      requires Valid() && CanUse(x) && x in objs && (objs[x].kind.Table? || objs[x].kind.Udata?)
      requires (m.Nil? || m.Gc?) && CanUseAll(RefOf(m))
      modifies this`objs, this`gray, this`late
      ensures Valid() && objs.Keys == old(objs).Keys && x in objs && Meta(x) == m
      ensures x in late <==> old(KeepInvariant() && x in allweak && m.Gc? && m.r in objs && IsWhite(m.r))
      ensures late == if x in late then old(late)[x := m] else old(late) - {x}
      ensures if x in late then objs == old(objs) && gray == old(gray)
              else Edges(objs[x]) == Edges(old(objs)[x].(meta := m))
                   && SameContents(old(objs)[x := old(objs)[x].(meta := m)], objs)
      ensures x !in late && !old(objs)[x].color.Black? ==> objs == old(objs)[x := old(objs)[x].(meta := m)]
    {
      hide MarkInv, LiveClosed, AllLinked, Swept, Edges, AllRefs, CanUse, CanUseAll, StillWeak, SameContents;
      NeverFreed(x);
      AllNeverFreed(RefOf(m));
      if (state == Propagate || state == Atomic) && x in allweak && m.Gc? && m.r in objs && IsWhite(m.r) {
        late := late[x := m];
        return;
      }
      assert late == map[] ==> late - {x} == map[];
      late := late - {x};
      MetaRefs(objs[x], m);
      LiveShaped(x);
      StoreForward(x, objs[x].(meta := m), m);
    }

    /** `luaH_resize`: the contents move between the array part and the slots; nothing is new,
        so there is no barrier. */
    method Resize(t: Ref, arr: seq<Value>, entries: seq<Entry>)
      requires Valid() && CanUse(t) && t in objs && objs[t].kind.Table? && Moved(objs[t], arr, entries)
      modifies this`objs
      ensures Valid() && objs == old(objs)[t := old(objs)[t].(arr := arr, entries := entries)]
    {
      hide MarkInv, LiveClosed, AllLinked, Swept, Live, Edges, AllRefs, Valid, CanUse, CanUseAll, Moved;
      NeverFreed(t);
      MovedEdges(objs[t], arr, entries);
      TableShape(objs[t], arr, entries);
      ModeStays(t, objs[t].mode);
      Store(t, objs[t].(arr := arr, entries := entries));
    }

    lemma LiveShaped(x: Ref)
      requires Valid() && x in Live(objs, white)
      ensures Shaped(objs[x])
    {
      assert LiveOk(objs, white, x);
    }

    /** The weakness of a table changes when `__mode` of its metatable does. A table of `allweak`
        that is no longer all-weak is not looked at again in this cycle (`StrongElementLost`). */
    method SetMode(t: Ref, mode: Mode)
      requires Valid() && CanUse(t) && t in objs && objs[t].kind.Table?
      modifies this`objs, this`changed
      ensures Valid() && objs == old(objs)[t := old(objs)[t].(mode := mode)]
      ensures changed == old(changed) + if KeepInvariant() && t in allweak && !mode.AllWeak? then {t} else {}
    {
      hide MarkInv, LiveClosed, AllLinked, Swept, Live, Valid, CanUse, CanUseAll, Edges, AllRefs;
      NeverFreed(t);
      LiveShaped(t);
      ModeStays(t, mode);
      if KeepInvariant() && t in allweak && !mode.AllWeak? {
        NoteChange(t);
      }
      Store(t, objs[t].(mode := mode));
    }

    ghost method NoteChange(t: Ref)
      requires Valid() && KeepInvariant() && t in allweak
      modifies this`changed
      ensures Valid() && changed == old(changed) + {t}
    {
      hide MarkInv, LiveClosed, AllLinked, Swept;
      assert Linked(objs, Grays(), t) by {
        ListedOnce(t);
      }
      changed := changed + {t};
    }

    lemma ListedOnce(t: Ref)
      requires Valid() && KeepInvariant()
      ensures Linked(objs, Grays(), t) && (t in allweak ==> t in objs && objs[t].color.Gray?)
    {
      assert Linked(objs, Grays(), t);
    }

    lemma ModeStays(t: Ref, mode: Mode)
      requires Valid() && t in Live(objs, white)
      ensures Edges(objs[t].(mode := mode)) == Edges(objs[t]) && AllRefs(objs[t].(mode := mode)) == AllRefs(objs[t])
      ensures KeepInvariant() && objs[t].color.Black? ==> AllRefs(objs[t]) <= Marked(objs)
      ensures KeepInvariant() && t in allweak ==> RefOf(objs[t].meta) <= Marked(objs)
      ensures KeepInvariant() && t in allweak && t !in changed ==> objs[t].mode.AllWeak?
    {
      if KeepInvariant() {
        assert ObjectOk(objs, Grays(), Now(), white, t) && Linked(objs, Grays(), t);
        if t in allweak {
          NowhereElse(objs, Grays(), white, t);
        }
      }
    }

    /** With late metatables, whatever the program can get at is alive if and only if the late
        metatables of the tables that it can get at are. */
    lemma LateAlive()
      requires Sound()
      ensures (forall o :: CanUse(o) ==> o in Live(objs, white))
              <==> (forall x :: x in late && CanUse(x) ==> RefOf(late[x]) <= Live(objs, white))
    {
      hide Edges, LiveClosed, AllLinked, Accessible;
      if forall o :: CanUse(o) ==> o in Live(objs, white) {
        forall x | x in late && CanUse(x) && late[x].Gc?
          ensures late[x].r in Live(objs, white)
        {
          LiveParts(objs, white, x);
          MetaRefs(objs[x], late[x]);
          UseNext(RealObjs(), Roots(), x, late[x].r);
        }
      }
      if forall x :: x in late && CanUse(x) ==> RefOf(late[x]) <= Live(objs, white) {
        forall o | CanUse(o)
          ensures o in Live(objs, white)
        {
          var path := PathTo(RealObjs(), Roots(), o);
          LateChain(path, |path| - 1);
        }
      }
    }

    lemma {:induction false} LateChain(path: seq<Ref>, i: nat)
      requires Sound() && Chain(RealObjs(), Roots(), path) && i < |path|
      requires forall x :: x in late && CanUse(x) ==> RefOf(late[x]) <= Live(objs, white)
      ensures path[i] in Live(objs, white)
      decreases i
    {
      hide Edges, AllLinked, Accessible;
      if i > 0 {
        LateChain(path, i - 1);
        var x := path[i - 1];
        assert LiveOk(objs, white, x);
        MetaRefs(objs[x], Meta(x));
        UsePath(RealObjs(), Roots(), path, i - 1);
        assert path[i] in Edges(RealObjs()[x]);
      }
    }
  }
}
