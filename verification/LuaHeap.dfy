/** Collectable objects of Lua and what they refer to, for the collector of
    skynet/3rd/lua/lgc.c. */
module LuaHeap {
  type Ref = nat

  /** `Dead` is a key that was removed from its slot; `Plain` is any value that is not
      collectable. */
  datatype Value = Nil | Plain | Dead | Gc(r: Ref)

  /** There are two whites, so that objects created while the others are swept survive. */
  datatype Color = White(w: bool) | Gray | Black

  /** `Function` stands for closures and prototypes, which are treated alike. */
  datatype Kind = Str | Udata | Function | Table | Thread

  /** What the metatable of a table says about weak keys and values. */
  datatype Mode = Strong | WeakValue | Ephemeron | AllWeak

  datatype Entry = Entry(key: Value, val: Value)

  /** `arr` is the array part of a table, the stack of a thread, the constants and upvalues of
      a function, or the user value of a userdata. */
  datatype Object = Object(
    kind: Kind, color: Color, mode: Mode, meta: Value, arr: seq<Value>, entries: seq<Entry>)

  type Heap = map<Ref, Object>

  function RefOf(v: Value): set<Ref> {
    if v.Gc? then {v.r} else {}
  }

  function Refs(vs: seq<Value>): set<Ref> {
    set v | v in vs && v.Gc? :: v.r
  }

  /** Keys and values of the entries that are not empty. */
  function KeyRefs(es: seq<Entry>): set<Ref> {
    set e | e in es && e.val != Nil && e.key.Gc? :: e.key.r
  }

  function ValRefs(es: seq<Entry>): set<Ref> {
    set e | e in es && e.val.Gc? :: e.val.r
  }

  /** The keys of all slots, also of empty ones. */
  function SlotRefs(es: seq<Entry>): set<Ref> {
    set e | e in es && e.key.Gc? :: e.key.r
  }

  /** Everything a program can get at through an object. */
  function Edges(x: Object): set<Ref> {
    RefOf(x.meta) + Refs(x.arr) + KeyRefs(x.entries) + ValRefs(x.entries)
  }

  function AllRefs(x: Object): set<Ref> {
    Edges(x) + SlotRefs(x.entries)
  }

  lemma AllEdges(x: Object)
    ensures Edges(x) <= AllRefs(x)
  {
  }

  function Marked(h: Heap): set<Ref> {
    set o | o in h && !h[o].color.White?
  }

  function Whites(h: Heap): set<Ref> {
    set o | o in h && h[o].color.White?
  }

  /** Refers to an object that is not marked, or not there. */
  predicate Unmarked(h: Heap, v: Value) {
    v.Gc? && (v.r !in h || h[v.r].color.White?)
  }

  // ---- what marking may change ------------------------------------------------------

  /** Marking changes colours and removes keys of empty slots. */
  predicate SlotKept(e: Entry, f: Entry) {
    f == e || (e.val == Nil && f == Entry(Dead, Nil))
  }

  predicate EntriesKept(es: seq<Entry>, fs: seq<Entry>) {
    |fs| == |es| && forall i :: 0 <= i < |es| ==> SlotKept(es[i], fs[i])
  }

  predicate ObjectKept(x: Object, y: Object) {
    && y.kind == x.kind && y.mode == x.mode && y.meta == x.meta && y.arr == x.arr
    && EntriesKept(x.entries, y.entries)
    && (!x.color.White? ==> !y.color.White?)
    && (y.color.White? ==> y.color == x.color)
  }

  predicate Kept(h: Heap, k: Heap) {
    h.Keys == k.Keys && forall o :: o in h ==> ObjectKept(h[o], k[o])
  }

  /** The objects hold the same, but for keys of empty slots. */
  predicate SameContents(h: Heap, k: Heap) {
    h.Keys == k.Keys && forall o :: o in h ==>
      && k[o].kind == h[o].kind && k[o].mode == h[o].mode && k[o].meta == h[o].meta && k[o].arr == h[o].arr
      && EntriesKept(h[o].entries, k[o].entries)
  }

  lemma KeptContents(h: Heap, k: Heap)
    requires Kept(h, k)
    ensures SameContents(h, k)
  {
    forall o | o in h
      ensures EntriesKept(h[o].entries, k[o].entries) && k[o].kind == h[o].kind && k[o].mode == h[o].mode
      ensures k[o].meta == h[o].meta && k[o].arr == h[o].arr
    {
      assert ObjectKept(h[o], k[o]);
    }
  }

  lemma ColourContents(h: Heap, x: Ref, y: Object, c: Color)
    ensures SameContents(h[x := y], h[x := y.(color := c)])
  {
  }

  lemma EntriesKeptRefs(es: seq<Entry>, fs: seq<Entry>)
    requires EntriesKept(es, fs)
    ensures KeyRefs(fs) == KeyRefs(es) && ValRefs(fs) == ValRefs(es) && SlotRefs(fs) <= SlotRefs(es)
  {
    forall e | e in es && e.val != Nil
      ensures e in fs
    {
      var i :| 0 <= i < |es| && es[i] == e;
      assert fs[i] == e;
    }
    forall f | f in fs
      ensures f in es || f == Entry(Dead, Nil)
    {
      var i :| 0 <= i < |fs| && fs[i] == f;
      assert SlotKept(es[i], fs[i]);
    }
  }

  lemma ObjectKeptRefs(x: Object, y: Object)
    requires ObjectKept(x, y)
    ensures Edges(y) == Edges(x) && AllRefs(y) <= AllRefs(x)
    ensures KeyRefs(y.entries) == KeyRefs(x.entries) && ValRefs(y.entries) == ValRefs(x.entries)
  {
    EntriesKeptRefs(x.entries, y.entries);
  }

  lemma KeptTrans(h: Heap, k: Heap, l: Heap)
    requires Kept(h, k) && Kept(k, l)
    ensures Kept(h, l)
  {
    forall o | o in h
      ensures ObjectKept(h[o], l[o])
    {
      assert ObjectKept(h[o], k[o]) && ObjectKept(k[o], l[o]);
    }
  }

  lemma KeptMarked(h: Heap, k: Heap)
    requires Kept(h, k)
    ensures Marked(h) <= Marked(k) && h.Keys == k.Keys
  {
  }
}
