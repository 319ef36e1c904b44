/** Two runs of the collector of skynet/3rd/lua/lgc.c, from a new state on, in which it takes
    something from the program that the program still has. */
module GcRuns {
  import opened LuaHeap
  import opened GcInvariant
  import opened GcTraverse
  import opened GcProgram
  import opened GcSweep
  import opened GcCollector

  /** An object that refers to nothing but its metatable. */
  predicate Bare(h: Heap, o: Ref, meta: Value) {
    o in h && h[o].meta == meta && (forall v :: v in h[o].arr ==> v == Nil) && h[o].entries == []
  }

  lemma BareClosed(h: Heap, s: set<Ref>)
    requires forall o :: o in s ==> o in h && Bare(h, o, h[o].meta) && RefOf(h[o].meta) <= s
    ensures Closed(h, s)
  {
    forall o | o in s
      ensures ClosedAt(h, s, h[o])
    {
      assert Edges(h[o]) == RefOf(h[o].meta);
    }
  }

  lemma BareKept(h: Heap, k: Heap, o: Ref, meta: Value)
    requires Kept(h, k) && Bare(h, o, meta)
    ensures Bare(k, o, meta) && k[o].kind == h[o].kind && k[o].mode == h[o].mode && |k[o].arr| == |h[o].arr|
  {
    assert ObjectKept(h[o], k[o]);
  }

  lemma StackedEdge(x: Object, r: Ref)
    requires Gc(r) in x.arr
    ensures r in Edges(x)
  {
  }

  /** The main thread, and the registry `t` with one element and the metatable `w`. */
  predicate Scene(h: Heap, mainthread: Ref, t: Ref, w: Ref, mode: Mode) {
    && Bare(h, mainthread, Nil) && Bare(h, t, Gc(w)) && Bare(h, w, Nil)
    && h[mainthread].kind.Thread? && h[t].kind.Table? && h[t].mode == mode && |h[t].arr| == 1
    && h[w].kind.Table? && h[w].mode.Strong?
  }

  lemma SceneKept(h: Heap, k: Heap, mainthread: Ref, t: Ref, w: Ref, mode: Mode)
    requires Kept(h, k) && Scene(h, mainthread, t, w, mode)
    ensures Scene(k, mainthread, t, w, mode) && k.Keys == h.Keys
  {
    hide Kept;
    BareKept(h, k, mainthread, Nil);
    BareKept(h, k, t, Gc(w));
    BareKept(h, k, w, Nil);
    KeptMarked(h, k);
  }

  method OneTable(mainthread: Ref, t: Ref) returns (c: Collector)
    requires mainthread != t
    ensures fresh(c) && c.Valid() && c.state.Pause? && c.mainthread == mainthread
    ensures c.running == mainthread && c.registry == Gc(t) && c.mt == [] && c.late == map[]
    ensures c.objs == map[mainthread := NewObject(Thread, c.white, [Gc(t)]), t := NewObject(Table, c.white, [Nil])]
  {
    hide Collector.Valid, Edges, Accessible, Collector.KeepInvariant, Live;
    c := new Collector(mainthread);
    UseRoot(c.RealObjs(), c.Roots(), mainthread);
    c.NewOnStack(mainthread, t, Table, [Nil]);
    StackedEdge(c.RealObjs()[mainthread], t);
    UseEdge(c.RealObjs(), c.Roots(), mainthread, t);
    c.SetGlobals(Gc(t), []);
    assert c.objs[mainthread].arr == [Gc(t)];
  }

  method TwoTables(mainthread: Ref, t: Ref, w: Ref) returns (c: Collector)
    requires mainthread != t && mainthread != w && t != w
    ensures fresh(c) && c.Valid() && c.state.Pause? && c.mainthread == mainthread
    ensures c.running == mainthread && c.registry == Gc(t) && c.mt == [] && c.late == map[]
    ensures c.objs == map[mainthread := NewObject(Thread, c.white, [Gc(t), Gc(w)]),
                          t := NewObject(Table, c.white, [Nil]), w := NewObject(Table, c.white, [])]
  {
    hide Collector.Valid, Edges, Accessible, Collector.KeepInvariant, Live;
    c := OneTable(mainthread, t);
    UseRoot(c.RealObjs(), c.Roots(), mainthread);
    c.NewOnStack(mainthread, w, Table, []);
    assert c.objs[mainthread].arr == [Gc(t), Gc(w)];
  }

  /** `w` has the `__mode` that makes `t` all-weak. */
  method WeakRegistry(mainthread: Ref, t: Ref, w: Ref) returns (c: Collector)
    requires mainthread != t && mainthread != w && t != w
    ensures fresh(c) && c.Valid() && c.state.Pause? && c.mainthread == mainthread && c.running == mainthread
    ensures c.objs.Keys == {mainthread, t, w} && Scene(c.objs, mainthread, t, w, AllWeak)
    ensures c.registry == Gc(t) && c.mt == [] && c.late == map[] && c.objs[t].color.White?
  {
    hide Collector.Valid, Edges, Accessible, SameContents;
    c := TwoTables(mainthread, t, w);
    StackedEdge(c.RealObjs()[mainthread], w);
    UseRoot(c.RealObjs(), c.Roots(), t);
    UseEdge(c.RealObjs(), c.Roots(), mainthread, w);
    c.SetMetatable(t, Gc(w));
    UseRoot(c.RealObjs(), c.Roots(), t);
    c.SetMode(t, AllWeak);
    UseRoot(c.RealObjs(), c.Roots(), mainthread);
    c.SetStack(mainthread, []);
  }

  /** The same, in the middle of marking, when `t` has been traversed. */
  method TraversedRegistry(mainthread: Ref, t: Ref, w: Ref) returns (c: Collector)
    requires mainthread != t && mainthread != w && t != w
    ensures fresh(c) && c.Valid() && c.KeepInvariant() && c.mainthread == mainthread && c.running == mainthread
    ensures c.objs.Keys == {mainthread, t, w} && Scene(c.objs, mainthread, t, w, AllWeak)
    ensures c.registry == Gc(t) && c.mt == [] && c.late == map[] && t in c.allweak
    ensures c.grayagain == [] && c.changed == {} && (c.state.Atomic? ==> c.gray == [])
  {
    hide Collector.Valid, Collector.Within, Edges, Kept, Closed;
    c := WeakRegistry(mainthread, t, w);
    ghost var h := c.objs;
    c.StepPause({});
    SceneKept(h, c.objs, mainthread, t, w, AllWeak);
    ghost var k := c.objs;
    c.StepPropagate({});
    SceneKept(k, c.objs, mainthread, t, w, AllWeak);
  }

  /** `t` gets the new table `m` as its metatable. */
  method MetatableSet(mainthread: Ref, t: Ref, w: Ref, m: Ref) returns (c: Collector)
    requires mainthread != t && mainthread != w && mainthread != m && t != w && t != m && w != m
    ensures fresh(c) && c.Valid() && c.KeepInvariant() && c.mainthread == mainthread && c.running == mainthread
    ensures c.objs.Keys == {mainthread, t, w, m} && c.objs[m].color.White?
    ensures c.objs[mainthread].kind.Thread? && c.objs[mainthread].meta == Nil && c.objs[mainthread].entries == []
    ensures c.objs[t].kind.Table? && Bare(c.objs, t, Gc(w)) && Bare(c.objs, w, Nil)
    ensures c.registry == Gc(t) && c.mt == [] && c.late == map[t := Gc(m)]
  {
    hide Collector.Valid, Edges, Accessible, SameContents;
    c := TraversedRegistry(mainthread, t, w);
    UseRoot(c.RealObjs(), c.Roots(), mainthread);
    c.NewOnStack(mainthread, m, Table, []);
    StackedEdge(c.RealObjs()[mainthread], m);
    UseEdge(c.RealObjs(), c.Roots(), mainthread, m);
    UseRoot(c.RealObjs(), c.Roots(), t);
    c.SetMetatable(t, Gc(m));
  }

  /** Nothing else refers to `m`. It has no `__mode`, so `t` is no longer weak. */
  method LateMetatable(mainthread: Ref, t: Ref, w: Ref, m: Ref) returns (c: Collector)
    requires mainthread != t && mainthread != w && mainthread != m && t != w && t != m && w != m
    ensures fresh(c) && c.Valid() && c.KeepInvariant() && c.mainthread == mainthread && c.running == mainthread
    ensures c.objs.Keys == {mainthread, t, w, m} && c.objs[m].color.White?
    ensures Bare(c.objs, mainthread, Nil) && Bare(c.objs, t, Gc(w)) && Bare(c.objs, w, Nil)
    ensures c.registry == Gc(t) && c.mt == [] && c.late == map[t := Gc(m)]
  {
    hide Collector.Valid, Edges, Accessible, SameContents;
    c := MetatableSet(mainthread, t, w, m);
    UseRoot(c.RealObjs(), c.Roots(), t);
    c.SetMode(t, Strong);
    UseRoot(c.RealObjs(), c.Roots(), mainthread);
    c.SetStack(mainthread, []);
  }

  /** Marking goes on to its end, inside `s`. */
  method MarkToEnd(c: Collector, s: set<Ref>)
    requires c.Valid() && c.Within(s) && c.KeepInvariant()
    modifies c
    ensures c.Valid() && c.Within(s) && c.state.Atomic? && c.late == old(c.late) && c.registry == old(c.registry)
  {
    hide Collector.Valid, Collector.Within, Edges, Closed, Accessible, Kept, Again, AllWeakTable, WeakJoined;
    while c.state.Propagate?
      invariant c.Valid() && c.Within(s) && c.KeepInvariant()
      invariant c.late == old(c.late) && c.registry == old(c.registry)
      decreases c.state.Propagate?, |Whites(c.objs)|, |c.gray|
    {
      c.StepPropagate(s);
    }
  }

  /** A late metatable is freed while the program can get at it: the registry `t` is an all-weak
      table, and marking has visited it when `m` becomes its metatable. */
  method LateMetatableFreed(mainthread: Ref, t: Ref, w: Ref, m: Ref) returns (c: Collector)
    requires mainthread != t && mainthread != w && mainthread != m && t != w && t != m && w != m
    ensures c.Sound() && c.state.SwpAllgc? && c.late == map[t := Gc(m)]
    ensures Accessible(c.RealObjs(), c.Roots(), m) && m !in Live(c.objs, c.white)
  {
    hide StrongKept, Collector.Valid, Collector.Inv, Collector.Quiet, Edges, Closed, Accessible, LiveClosed, AllLinked;
    var s := {mainthread, t, w};
    c := LateMetatable(mainthread, t, w, m);
    BareClosed(c.objs, s);
    MarkToEnd(c, s);
    c.AtomicStep(s, s);
    MetaRefs(c.objs[t], Gc(m));
    UseEdge(c.RealObjs(), c.Roots(), t, m);
  }

  // ---- an element of a table that is not weak ---------------------------------------

  /** `t` has been traversed as an all-weak table and is weak no longer. */
  ghost predicate NoLongerWeak(c: Collector, mainthread: Ref, t: Ref, w: Ref)
    reads c
  {
    && c.Valid() && c.KeepInvariant() && c.mainthread == mainthread && c.running == mainthread
    && c.objs.Keys == {mainthread, t, w} && Scene(c.objs, mainthread, t, w, Strong)
    && c.registry == Gc(t) && c.mt == [] && c.late == map[] && c.changed == {t} && t in c.allweak
    && (c.state.Atomic? ==> c.gray == []) && forall o :: o in c.grayagain ==> o == mainthread
  }

  /** `__mode` of `w` is removed. */
  method ModeRemoved(mainthread: Ref, t: Ref, w: Ref) returns (c: Collector)
    requires mainthread != t && mainthread != w && t != w
    ensures fresh(c) && NoLongerWeak(c, mainthread, t, w)
  {
    hide Collector.Valid, Edges, Accessible, SameContents;
    c := TraversedRegistry(mainthread, t, w);
    UseRoot(c.RealObjs(), c.Roots(), t);
    c.SetMode(t, Strong);
  }

  method MarkOne(c: Collector, mainthread: Ref, t: Ref, w: Ref)
    requires NoLongerWeak(c, mainthread, t, w) && c.state.Propagate?
    modifies c
    ensures NoLongerWeak(c, mainthread, t, w)
    ensures c.state.Propagate? ==> |Whites(c.objs)| < |Whites(old(c.objs))|
                                   || (|Whites(c.objs)| == |Whites(old(c.objs))| && |c.gray| < |old(c.gray)|)
  {
    hide Collector.Valid, Collector.Within, Edges, Kept, Closed, Accessible, AllWeakTable, Bare, Whites;
    ghost var k := c.objs;
    c.FirstGray();
    c.StepPropagate({});
    SceneKept(k, c.objs, mainthread, t, w, Strong);
  }

  /** Marking goes on to its end. */
  method UntilAtomic(mainthread: Ref, t: Ref, w: Ref) returns (c: Collector)
    requires mainthread != t && mainthread != w && t != w
    ensures fresh(c) && NoLongerWeak(c, mainthread, t, w) && c.state.Atomic?
  {
    hide Collector.Valid, Scene;
    c := ModeRemoved(mainthread, t, w);
    while c.state.Propagate?
      invariant fresh(c) && NoLongerWeak(c, mainthread, t, w)
      decreases c.state.Propagate?, |Whites(c.objs)|, |c.gray|
    {
      MarkOne(c, mainthread, t, w);
    }
  }

  /** A new table `m` is on the stack. */
  method NewElement(mainthread: Ref, t: Ref, w: Ref, m: Ref) returns (c: Collector)
    requires mainthread != t && mainthread != w && mainthread != m && t != w && t != m && w != m
    ensures fresh(c) && c.Valid() && c.state.Atomic? && c.mainthread == mainthread && c.running == mainthread
    ensures c.objs.Keys == {mainthread, t, w, m} && Gc(m) in c.objs[mainthread].arr && c.objs[mainthread].meta == Nil
    ensures c.objs[mainthread].kind.Thread? && c.objs[mainthread].entries == []
    ensures c.objs[t].kind.Table? && c.objs[t].mode.Strong? && |c.objs[t].arr| == 1 && !c.objs[t].color.Black?
    ensures c.objs[m].color.White? && c.objs[m].kind.Table?
    ensures c.registry == Gc(t) && c.mt == [] && c.late == map[] && c.changed == {t}
    ensures c.gray == [] && forall o :: o in c.grayagain ==> o == mainthread
  {
    hide Collector.Valid, Edges, Accessible, SameContents;
    c := UntilAtomic(mainthread, t, w);
    c.ListedOnce(t);
    UseRoot(c.RealObjs(), c.Roots(), mainthread);
    c.NewOnStack(mainthread, m, Table, []);
  }

  /** The new table `m` becomes the element of `t`, and nothing else refers to it. */
  method ElementSet(mainthread: Ref, t: Ref, w: Ref, m: Ref) returns (c: Collector)
    requires mainthread != t && mainthread != w && mainthread != m && t != w && t != m && w != m
    ensures fresh(c) && c.Valid() && c.state.Atomic? && c.mainthread == mainthread && c.running == mainthread
    ensures c.objs.Keys == {mainthread, t, w, m} && Bare(c.objs, mainthread, Nil)
    ensures c.objs[mainthread].kind.Thread? && c.objs[t].kind.Table? && c.objs[t].mode.Strong? && c.objs[t].arr == [Gc(m)]
    ensures c.objs[m].color.White? && c.objs[m].kind.Table?
    ensures c.registry == Gc(t) && c.mt == [] && c.late == map[] && c.changed == {t}
    ensures c.gray == [] && forall o :: o in c.grayagain ==> o == mainthread
  {
    hide Collector.Valid, Edges, Accessible, SameContents;
    c := NewElement(mainthread, t, w, m);
    StackedEdge(c.RealObjs()[mainthread], m);
    UseEdge(c.RealObjs(), c.Roots(), mainthread, m);
    UseRoot(c.RealObjs(), c.Roots(), t);
    c.SetArray(t, 0, Gc(m));
    UseRoot(c.RealObjs(), c.Roots(), mainthread);
    c.SetStack(mainthread, []);
  }

  lemma BareResting(h: Heap, o: Ref)
    requires Bare(h, o, Nil) && !h[o].kind.Table?
    ensures Resting(h, o)
  {
    assert Edges(h[o]) == {};
  }

  lemma ElementGone(h: Heap, white: bool, t: Ref, m: Ref)
    requires LiveClosed(h, white) && t in Live(h, white) && m !in Live(h, white)
    ensures t in h && Gc(m) !in h[t].arr
  {
    assert LiveOk(h, white, t);
    if Gc(m) in h[t].arr {
      StackedEdge(h[t], m);
    }
  }

  lemma CoreHas(x: Object, m: Ref)
    requires x.kind.Table? && x.mode.Strong? && Gc(m) in x.arr
    ensures m in CoreRefs(x)
  {
    StackedEdge(x, m);
  }

  lemma NothingToMark(c: Collector, mainthread: Ref, t: Ref)
    requires c.Valid() && c.state.Atomic? && c.mainthread == c.running == mainthread && c.registry == Gc(t) && c.mt == []
    requires Bare(c.objs, mainthread, Nil) && c.objs[mainthread].kind.Thread? && c.changed == {t}
    requires c.gray == [] && forall o :: o in c.grayagain ==> o == mainthread
    ensures c.Quiet() && c.Bounded(c.objs.Keys) && c.Roots() <= c.objs.Keys
  {
    hide Collector.Valid, Collector.Inv, Closed, Edges, Resting;
    BareResting(c.objs, mainthread);
    c.MarkParts();
    c.PauseClosed();
  }

  /** The atomic phase takes its element from the table `t`, which the program can get at and
      which is not weak: `t` was all-weak when it was visited, and nothing has visited it since.
      `before` is the heap before the atomic phase. */
  method StrongElementLost(mainthread: Ref, t: Ref, w: Ref, m: Ref) returns (c: Collector, ghost before: Heap)
    requires mainthread != t && mainthread != w && mainthread != m && t != w && t != m && w != m
    ensures c.Valid() && c.state.SwpAllgc? && c.changed == {t} && t in c.Roots() && Accessible(before, c.Roots(), m)
    ensures t in before && before[t].mode.Strong? && before[t].arr == [Gc(m)]
    ensures t in c.objs && c.objs[t].mode.Strong? && Gc(m) !in c.objs[t].arr && m !in Live(c.objs, c.white)
    ensures !StrongKept(before, Live(c.objs, c.white), Live(c.objs, c.white))
  {
    hide Collector.Valid, Collector.Inv, Collector.Quiet, Collector.Bounded, Edges, AllLinked, Bare, Kept;
    c := ElementSet(mainthread, t, w, m);
    before := c.objs;
    StackedEdge(before[t], m);
    UseEdge(before, c.Roots(), t, m);
    NothingToMark(c, mainthread, t);
    c.AtomicStep(c.objs.Keys, {});
    ElementGone(c.objs, c.white, t, m);
    CoreHas(before[t], m);
  }
}
