/** The two passes of `convtable`, on the arrays of the new table. */
module SharedConvert {
  import opened SharedTable
  import opened SharedBuild

  predicate KnownKeys(t: LuaTable) {
    forall i :: 0 <= i < |t.entries| ==> !t.entries[i].key.OtherKey?
  }

  /** `countsize`: the number of entries that do not go to the array. */
  method CountSize(t: LuaTable) returns (ok: bool, n: nat)
    ensures ok <==> KnownKeys(t)
    ensures ok ==> n == |HashPart(t)|
  {
    n := 0;
    for j := 0 to |t.entries|
      invariant forall i :: 0 <= i < j ==> !t.entries[i].key.OtherKey?
      invariant n == |HashPartTo(t, j)|
    {
      var key := t.entries[j].key;
      assert HashPartTo(t, j + 1) == HashPartTo(t, j) + if InArray(key, t.len) then {} else {j};
      if key.OtherKey? {
        return false, n;
      }
      if !(key.IntKey? && 0 < key.n <= t.len) {
        n := n + 1;
      }
    }
    ok := true;
  }

  lemma ShareableAt(t: LuaTable, e: nat)
    requires e < |t.entries| && !ShareableValue(t.entries[e].value)
    ensures !Shareable(t)
  {
  }

  /** `setvalue` */
  method SetValue(ctx: Context, v: Value) returns (ok: bool, sv: Shared)
    requires ctx.Valid() && ProperValue(v)
    modifies ctx
    ensures ctx.Valid() && old(ctx.strings) <= ctx.strings
    ensures if ok then Shows(sv, ctx.strings, v) else !ShareableValue(v)
    decreases v, 0
  {
    ok := true;
    match v {
      case Integer(d) => sv := SInteger(d);
      case Real(n) => sv := SReal(n);
      case Boolean(b) => sv := SBoolean(b);
      case String(s) =>
        var index := ctx.StringIndex(s);
        sv := SString(index);
      case Inner(t) =>
        var tbl: Table;
        ok, tbl := ConvTable(ctx, t);
        sv := STable(tbl);
      case Other =>
        ok, sv := false, Nil;
    }
  }

  ghost predicate First(t: LuaTable, strings: seq<Str>, arr: seq<Shared>, hash: seq<Node>, w: Layout, j: nat) {
    Building(t, strings, arr, hash, w, j) && FirstPass(t, w, |hash|, j)
  }

  ghost predicate Second(t: LuaTable, strings: seq<Str>, arr: seq<Shared>, hash: seq<Node>, w: Layout, j: nat) {
    j <= |t.entries| && Building(t, strings, arr, hash, w, |t.entries|) && SecondPass(t, w, |hash|, j)
  }

  /** An entry in the first pass (`fillnocolliding`). */
  method FirstStep(ctx: Context, t: LuaTable, arr: array<Shared>, hash: array<Node>, j: nat, ghost w: Layout)
      returns (ok: bool, ghost v: Layout)
    requires ctx.Valid() && Proper(t) && KnownKeys(t)
    requires First(t, ctx.strings, arr[..], hash[..], w, j)
    requires j < |t.entries|
    modifies ctx, arr, hash
    ensures ctx.Valid() && old(ctx.strings) <= ctx.strings
    ensures ok ==> First(t, ctx.strings, arr[..], hash[..], v, j + 1)
    ensures !ok ==> !Shareable(t)
    decreases t, 1
  {
    hide Building, FirstPass, Shows, ShareableValue, Shareable, ToInt, NilElsewhere, ArrayShows, SlotsShow, Counted, AllChained, AllApart;
    var e := t.entries[j];
    ghost var s0, arr0, hash0 := ctx.strings, arr[..], hash[..];
    var toHash, k, keyhash, keytype := ctx.IsHashKey(e.key, t.len);
    ghost var s1 := ctx.strings;
    BuildingMore(t, s0, s1, arr0, hash0, w, j);
    InHashPart(t, j);
    v := w;
    ok := true;
    if !toHash {
      var sv: Shared;
      ok, sv := SetValue(ctx, e.value);
      if !ok {
        ShareableAt(t, j);
        return;
      }
      BuildingMore(t, s1, ctx.strings, arr0, hash0, w, j);
      BuildingParts(t, ctx.strings, arr0, hash0, w, j);
      arr[k - 1] := sv;
      ArrayStored(t, ctx.strings, arr0, j, sv);
      assert arr[..] == arr0[k - 1 := sv] && hash[..] == hash0;
      FirstArray(t, ctx.strings, arr0, arr[..], hash0, w, j);
    } else {
      BuildingParts(t, ctx.strings, arr0, hash0, w, j);
      var m := keyhash % hash.Length;
      assert m == Main(t, j, hash.Length);
      if hash[m].value == Nil {
        var sv: Shared;
        ok, sv := SetValue(ctx, e.value);
        if !ok {
          ShareableAt(t, j);
          return;
        }
        BuildingMore(t, s1, ctx.strings, arr0, hash0, w, j);
        var n := Node(sv, k, -1, keyhash, keytype, true);
        hash[m] := n;
        StoredMore(s1, ctx.strings, e.key, n);
        FirstFilled(t, ctx.strings, arr0, hash0, w, j, m, n);
        v := WithHead(w, m, j);
        assert arr[..] == arr0 && hash[..] == hash0[m := n];
      } else {
        FirstSkipped(t, ctx.strings, arr0, hash0, w, j);
        assert arr[..] == arr0 && hash[..] == hash0;
      }
    }
  }

  lemma BuildingParts(t: LuaTable, strings: seq<Str>, arr: seq<Shared>, hash: seq<Node>, w: Layout, j: nat)
    requires Building(t, strings, arr, hash, w, j)
    ensures |arr| == t.len && j <= |t.entries| && 0 < |hash| == |HashPart(t)|
    ensures NilElsewhere(arr, t, j) && ArrayShows(arr, strings, t, j)
    ensures Owned(t, w, |hash|) && Laid(hash, t, w) && SlotsShow(hash, strings, t, w)
  {
  }

  lemma MainIsTaken(t: LuaTable, w: Layout, size: nat, j: nat)
    requires Owned(t, w, size) && 0 < size && j < |t.entries| && j in HashPart(t) && SecondPass(t, w, size, j)
    ensures MainTaken(t, w, size, j)
  {
  }

  lemma UnknownKey(t: LuaTable)
    requires !KnownKeys(t)
    ensures !Shareable(t)
  {
  }

  lemma FirstArray(t: LuaTable, strings: seq<Str>, arr0: seq<Shared>, arr: seq<Shared>, hash: seq<Node>, w: Layout, j: nat)
    requires First(t, strings, arr0, hash, w, j)
    requires j < |t.entries| && j !in HashPart(t) && |arr| == t.len
    requires NilElsewhere(arr, t, j + 1) && ArrayShows(arr, strings, t, j + 1)
    ensures First(t, strings, arr, hash, w, j + 1)
  {
    hide Counted, AllChained, AllApart, Shows, SlotsShow, ArrayShows, NilElsewhere, HashPart, Main;
  }

  /** What is stored under a key stays right when there are more strings. */
  lemma StoredMore(s1: seq<Str>, s2: seq<Str>, key: Key, n: Node)
    requires Stored(s1, key, n.key, n.keyhash, n.keytype) && s1 <= s2
    ensures KeyAt(n, s2, key)
  {
  }

  method FillNoColliding(ctx: Context, t: LuaTable, arr: array<Shared>, hash: array<Node>)
      returns (ok: bool, ghost w: Layout)
    requires ctx.Valid() && Proper(t) && KnownKeys(t)
    requires arr.Length == t.len && 0 < hash.Length == |HashPart(t)|
    requires forall i :: 0 <= i < arr.Length ==> arr[i] == Nil
    requires forall i :: 0 <= i < hash.Length ==> hash[i].value == Nil
    modifies ctx, arr, hash
    ensures ctx.Valid() && old(ctx.strings) <= ctx.strings
    ensures ok ==> First(t, ctx.strings, arr[..], hash[..], w, |t.entries|)
    ensures !ok ==> !Shareable(t)
    decreases t, 2
  {
    hide Building, FirstPass, Proper, Shareable, HashPart;
    StartBuilding(t, ctx.strings, arr[..], hash[..]);
    w := NoLayout(t, hash.Length);
    ok := true;
    for j := 0 to |t.entries|
      invariant ctx.Valid() && old(ctx.strings) <= ctx.strings
      invariant First(t, ctx.strings, arr[..], hash[..], w, j)
    {
      ok, w := FirstStep(ctx, t, arr, hash, j, w);
      if !ok {
        return;
      }
    }
  }

  /** The loop that looks for an empty slot. */
  method FindEmpty(t: LuaTable, hash: array<Node>, ghost strings: seq<Str>, ghost w: Layout, ghost e: nat) returns (x: nat)
    requires Owned(t, w, hash.Length) && Counted(t, w, hash.Length) && hash.Length == |HashPart(t)|
    requires SlotsShow(hash[..], strings, t, w)
    requires e < |t.entries| && e in HashPart(t) && w.slot[e] == -1
    ensures x < hash.Length && hash[x].value == Nil
  {
    hide Counted, SlotsShow, HashPart;
    EmptySlot(t, w, hash.Length, e);
    ghost var free :| 0 <= free < hash.Length && w.owner[free] == -1;
    EmptyIs(hash[..], strings, t, w, free);
    assert hash[..][free] == hash[free];
    x := 0;
    while hash[x].value != Nil
      invariant x <= free
      decreases free - x
    {
      x := x + 1;
    }
  }

  /** The part of `fillcolliding` for a key that is not in its main position. */
  method PlaceColliding(ctx: Context, t: LuaTable, arr: array<Shared>, hash: array<Node>, j: nat, m: nat, k: int, keyhash: nat, keytype: KeyType, ghost w: Layout)
      returns (ok: bool, ghost v: Layout)
    requires ctx.Valid() && Proper(t)
    requires Second(t, ctx.strings, arr[..], hash[..], w, j)
    requires j < |t.entries| && j in HashPart(t) && m == Main(t, j, hash.Length) && w.owner[m] != j
    requires Stored(ctx.strings, t.entries[j].key, k, keyhash, keytype)
    modifies ctx, hash
    ensures ctx.Valid() && old(ctx.strings) <= ctx.strings
    ensures ok ==> Second(t, ctx.strings, arr[..], hash[..], v, j + 1)
    ensures !ok ==> !Shareable(t)
    decreases t, 1
  {
    hide Building, SecondPass, Shows, ShareableValue, Shareable, SlotsShow, Counted, AllChained, AllApart, HashPart, Main;
    var e := t.entries[j];
    ghost var s1, arr0, hash0 := ctx.strings, arr[..], hash[..];
    v := w;
    BuildingParts(t, s1, arr0, hash0, w, |t.entries|);
    NotPlaced(t, w, hash.Length, j);
    var x := FindEmpty(t, hash, s1, w, j);
    MainIsTaken(t, w, hash.Length, j);
    MayLink(t, s1, hash0, w, j, x);
    var sv: Shared;
    ok, sv := SetValue(ctx, e.value);
    if !ok {
      ShareableAt(t, j);
      return;
    }
    BuildingMore(t, s1, ctx.strings, arr0, hash0, w, |t.entries|);
    var n := Node(sv, k, hash[m].next, keyhash, keytype, false);
    hash[m] := hash[m].(next := x, nocolliding := false);
    hash[x] := n;
    StoredMore(s1, ctx.strings, e.key, n);
    v := WithLink(w, m, x, j);
    assert arr[..] == arr0 && hash[..] == Linked(hash0, m, x, n);
    SecondLinked(t, ctx.strings, arr0, hash0, w, j, m, x, n);
  }

  /** An entry in the second pass (`fillcolliding`). */
  method SecondStep(ctx: Context, t: LuaTable, arr: array<Shared>, hash: array<Node>, j: nat, ghost w: Layout)
      returns (ok: bool, ghost v: Layout)
    requires ctx.Valid() && Proper(t) && KnownKeys(t)
    requires Second(t, ctx.strings, arr[..], hash[..], w, j)
    requires j < |t.entries|
    modifies ctx, hash
    ensures ctx.Valid() && old(ctx.strings) <= ctx.strings
    ensures ok ==> Second(t, ctx.strings, arr[..], hash[..], v, j + 1)
    ensures !ok ==> !Shareable(t)
    decreases t, 2
  {
    hide Building, SecondPass, Shows, ShareableValue, Shareable, SlotsShow, Counted, AllChained, AllApart;
    var e := t.entries[j];
    ghost var s0, arr0, hash0 := ctx.strings, arr[..], hash[..];
    var toHash, k, keyhash, keytype := ctx.IsHashKey(e.key, t.len);
    ghost var s1 := ctx.strings;
    BuildingMore(t, s0, s1, arr0, hash0, w, |t.entries|);
    BuildingParts(t, s1, arr0, hash0, w, |t.entries|);
    InHashPart(t, j);
    v := w;
    ok := true;
    if toHash {
      var m := keyhash % hash.Length;
      assert m == Main(t, j, hash.Length);
      InMain(t, s1, ctx.stringMap, hash0, w, j, hash[m], k, keyhash, keytype);
      if !(hash[m].keytype == keytype && hash[m].key == k) {
        assert Second(t, s1, arr[..], hash[..], w, j);
        ok, v := PlaceColliding(ctx, t, arr, hash, j, m, k, keyhash, keytype, w);
        return;
      }
    }
    assert arr[..] == arr0 && hash[..] == hash0;
    SecondSkipped(t, w, hash.Length, j);
  }

  /** The test of `fillcolliding` finds out whether an entry is in its main position. */
  lemma InMain(t: LuaTable, strings: seq<Str>, stringMap: map<Str, int>, hash: seq<Node>, w: Layout, j: nat, n: Node, k: int, keyhash: nat, keytype: KeyType)
    requires forall i :: 0 <= i < |strings| ==> strings[i] in stringMap && stringMap[strings[i]] == i + 2
    requires ProperKeys(t) && 0 < |hash| && Owned(t, w, |hash|) && SlotsShow(hash, strings, t, w)
    requires j < |t.entries| && j in HashPart(t) && SecondPass(t, w, |hash|, j)
    requires n == hash[Main(t, j, |hash|)] && Stored(strings, t.entries[j].key, k, keyhash, keytype)
    ensures n.keytype == keytype && n.key == k <==> w.owner[Main(t, j, |hash|)] == j
  {
    hide Shows, HashPart, Main;
    assert MainTaken(t, w, |hash|, j);
    var o := w.owner[Main(t, j, |hash|)];
    assert SlotShows(n, strings, t.entries[o]);
    StoredTwice(strings, stringMap, t.entries[o].key, t.entries[j].key, n, k, keyhash, keytype);
  }

  lemma NotPlaced(t: LuaTable, w: Layout, size: nat, j: nat)
    requires Owned(t, w, size) && 0 < size && j < |t.entries| && SecondPass(t, w, size, j)
    requires w.owner[Main(t, j, size)] != j
    ensures w.slot[j] == -1
  {
  }

  lemma SecondLinked(t: LuaTable, strings: seq<Str>, arr: seq<Shared>, hash: seq<Node>, w: Layout, j: nat, m: nat, x: nat, n: Node)
    requires j < |t.entries| && m < |hash| && x < |hash| && |w.owner| == |w.rank| == |hash| && |w.slot| == |t.entries|
    requires Second(t, strings, arr, hash, w, j)
    requires Placeable(t, w, |hash|, x, j) && m == Main(t, j, |hash|) && MainTaken(t, w, |hash|, j)
    requires SlotShows(n, strings, t.entries[j]) && n.next == hash[m].next && !n.nocolliding
    ensures Second(t, strings, arr, Linked(hash, m, x, n), WithLink(w, m, x, j), j + 1)
  {
    hide AllChained, AllApart, Shows, ArrayShows, NilElsewhere, HashPart, Main, SlotShows, Linked, SecondPass, SlotsShow, Counted;
    LinkLaid(hash, t, w, m, x, j, n);
    LinkShows(t, strings, hash, w, j, m, x, n);
    LinkPassed(t, w, |hash|, j, m, x);
  }

  /** Nothing is to be done for an entry of the array, or one in its main position. */
  lemma SecondSkipped(t: LuaTable, w: Layout, size: nat, j: nat)
    requires Owned(t, w, size) && 0 < size && j < |t.entries| && SecondPass(t, w, size, j)
    requires j in HashPart(t) ==> w.owner[Main(t, j, size)] == j
    ensures SecondPass(t, w, size, j + 1)
  {
    hide HashPart, Main;
  }

  method FillColliding(ctx: Context, t: LuaTable, arr: array<Shared>, hash: array<Node>, ghost w0: Layout)
      returns (ok: bool, ghost w: Layout)
    requires ctx.Valid() && Proper(t) && KnownKeys(t)
    requires Second(t, ctx.strings, arr[..], hash[..], w0, 0)
    modifies ctx, hash
    ensures ctx.Valid() && old(ctx.strings) <= ctx.strings
    ensures ok ==> Second(t, ctx.strings, arr[..], hash[..], w, |t.entries|)
    ensures !ok ==> !Shareable(t)
    decreases t, 3
  {
    hide Building, SecondPass, Proper, Shareable, HashPart;
    w := w0;
    ok := true;
    for j := 0 to |t.entries|
      invariant ctx.Valid() && old(ctx.strings) <= ctx.strings
      invariant Second(t, ctx.strings, arr[..], hash[..], w, j)
    {
      ok, w := SecondStep(ctx, t, arr, hash, j, w);
      if !ok {
        return;
      }
    }
  }

  /** After both passes nothing is missing and no slot is empty. */
  lemma Built(t: LuaTable, strings: seq<Str>, arr: seq<Shared>, hash: seq<Node>, w: Layout)
    requires Second(t, strings, arr, hash, w, |t.entries|)
    ensures ShowsTable(Table(arr, hash), strings, t)
  {
    hide AllChained, AllApart, Shows, ArrayShows, NilElsewhere, Main, SlotsShow;
    assert w.placed == HashPart(t);
    AllFilled(t, w, |hash|);
  }

  // A table whose entries all go to the array

  /** `lua_rawgeti` */
  method RawGetI(t: LuaTable, i: int) returns (e: int)
    ensures -1 <= e < |t.entries|
    ensures if e >= 0 then t.entries[e].key == IntKey(i) else forall d :: 0 <= d < |t.entries| ==> t.entries[d].key != IntKey(i)
  {
    for d := 0 to |t.entries|
      invariant forall c :: 0 <= c < d ==> t.entries[c].key != IntKey(i)
    {
      if t.entries[d].key == IntKey(i) {
        return d;
      }
    }
    e := -1;
  }

  ghost predicate ArrayTo(arr: seq<Shared>, strings: seq<Str>, t: LuaTable, i: nat)
    requires |arr| == t.len
  {
    forall e :: 0 <= e < |t.entries| && InArray(t.entries[e].key, t.len) && t.entries[e].key.n <= i ==>
      Shows(arr[t.entries[e].key.n - 1], strings, t.entries[e].value)
  }

  lemma ArrayToMore(arr: seq<Shared>, s1: seq<Str>, s2: seq<Str>, t: LuaTable, i: nat)
    requires |arr| == t.len && ArrayTo(arr, s1, t, i) && s1 <= s2
    ensures ArrayTo(arr, s2, t, i)
  {
    hide Shows;
    forall e | 0 <= e < |t.entries| && InArray(t.entries[e].key, t.len) && t.entries[e].key.n <= i
      ensures Shows(arr[t.entries[e].key.n - 1], s2, t.entries[e].value)
    {
      ShowsMore(arr[t.entries[e].key.n - 1], s1, s2, t.entries[e].value);
    }
  }

  lemma ArrayToNext(arr: seq<Shared>, strings: seq<Str>, t: LuaTable, i: nat, e: nat, sv: Shared)
    requires ProperKeys(t) && |arr| == t.len && i < t.len
    requires ArrayTo(arr, strings, t, i) && NilElsewhere(arr, t, |t.entries|)
    requires e < |t.entries| && t.entries[e].key == IntKey(i + 1) && Shows(sv, strings, t.entries[e].value)
    ensures ArrayTo(arr[i := sv], strings, t, i + 1) && NilElsewhere(arr[i := sv], t, |t.entries|)
  {
    hide Shows;
    forall d | 0 <= d < |t.entries| && InArray(t.entries[d].key, t.len) && t.entries[d].key.n <= i + 1
      ensures Shows(arr[i := sv][t.entries[d].key.n - 1], strings, t.entries[d].value)
    {
      if d != e {
        assert t.entries[d].key != t.entries[e].key;
      }
    }
  }

  /** The loop of `convtable` for a table without a hash part. */
  method FillArray(ctx: Context, t: LuaTable, arr: array<Shared>) returns (ok: bool)
    requires ctx.Valid() && Proper(t) && arr.Length == t.len
    requires forall i :: 0 <= i < arr.Length ==> arr[i] == Nil
    modifies ctx, arr
    ensures ctx.Valid() && old(ctx.strings) <= ctx.strings
    ensures ok ==> ArrayTo(arr[..], ctx.strings, t, t.len) && NilElsewhere(arr[..], t, |t.entries|)
    ensures !ok ==> !Shareable(t)
    decreases t, 2
  {
    hide Shows, Shareable, ShareableValue;
    ok := true;
    for i := 0 to t.len
      invariant ctx.Valid() && old(ctx.strings) <= ctx.strings
      invariant ArrayTo(arr[..], ctx.strings, t, i) && NilElsewhere(arr[..], t, |t.entries|)
    {
      ghost var s0, arr0 := ctx.strings, arr[..];
      var e := RawGetI(t, i + 1);
      if e >= 0 {
        var sv: Shared;
        ok, sv := SetValue(ctx, t.entries[e].value);
        if !ok {
          ShareableAt(t, e);
          return;
        }
        ArrayToMore(arr0, s0, ctx.strings, t, i);
        arr[i] := sv;
        assert arr[..] == arr0[i := sv];
        ArrayToNext(arr0, ctx.strings, t, i, e, sv);
      } else {
        assert arr0[i] == Nil;
        arr[i] := Nil;
        assert arr[..] == arr0;
      }
    }
  }

  /** A table without a hash part needs no slots. */
  lemma OnlyArray(t: LuaTable, strings: seq<Str>, arr: seq<Shared>)
    requires |arr| == t.len && ArrayTo(arr, strings, t, t.len) && NilElsewhere(arr, t, |t.entries|)
    requires |HashPart(t)| == 0
    ensures ShowsTable(Table(arr, []), strings, t)
  {
    hide Shows;
    var w := NoLayout(t, 0);
    assert ArrayShows(arr, strings, t, |t.entries|);
    assert Owned(t, w, 0) && Counted(t, w, 0);
    assert w.placed == HashPart(t);
    assert Laid([], t, w) && SlotsShow([], strings, t, w);
  }

  /** `convtable`: builds a table that shows what the Lua table holds, or finds out that it, or
      a table inside it, has something that cannot be shared. */
  method ConvTable(ctx: Context, t: LuaTable) returns (ok: bool, tbl: Table)
    requires ctx.Valid() && Proper(t)
    modifies ctx
    ensures ctx.Valid() && old(ctx.strings) <= ctx.strings
    ensures if ok then ShowsTable(tbl, ctx.strings, t) else !Shareable(t)
    decreases t, 4
  {
    hide Building, FirstPass, SecondPass, ShowsTable, ArrayTo, NilElsewhere, Proper, Shareable, HashPart;
    var arr := new Shared[t.len](_ => Nil);
    tbl := Table([], []);
    var sizehash;
    ok, sizehash := CountSize(t);
    if !ok {
      UnknownKey(t);
      return;
    }
    if sizehash != 0 {
      var memory := ctx.memory;
      var hash := new Node[sizehash](i requires 0 <= i => memory(i).(value := Nil, nocolliding := false));
      ghost var w;
      ok, w := FillNoColliding(ctx, t, arr, hash);
      if !ok {
        return;
      }
      BuildingParts(t, ctx.strings, arr[..], hash[..], w, |t.entries|);
      FirstDone(t, w, hash.Length);
      ok, w := FillColliding(ctx, t, arr, hash, w);
      if !ok {
        return;
      }
      Built(t, ctx.strings, arr[..], hash[..], w);
      tbl := Table(arr[..], hash[..]);
    } else {
      ok := FillArray(ctx, t, arr);
      if !ok {
        return;
      }
      OnlyArray(t, ctx.strings, arr[..]);
      tbl := Table(arr[..], []);
    }
  }

  /** What is shown can be shared. */
  lemma {:induction false} ShownShareable(sv: Shared, strings: seq<Str>, v: Value)
    requires Shows(sv, strings, v)
    ensures ShareableValue(v)
    decreases v
  {
    if v.Inner? {
      TableShareable(sv.t, strings, v.t);
    }
  }

  lemma {:induction false} TableShareable(tbl: Table, strings: seq<Str>, t: LuaTable)
    requires ShowsTable(tbl, strings, t)
    ensures Shareable(t)
    decreases t
  {
    hide Shows, Counted, AllChained, AllApart, ShareableValue, SlotsShow;
    var w: Layout :| Laid(tbl.hash, t, w) && w.placed == HashPart(t)
      && (forall x :: 0 <= x < |tbl.hash| ==> 0 <= w.owner[x]) && SlotsShow(tbl.hash, strings, t, w);
    forall e | 0 <= e < |t.entries| ensures !t.entries[e].key.OtherKey? && ShareableValue(t.entries[e].value) {
      if InArray(t.entries[e].key, t.len) {
        ShownShareable(tbl.arr[t.entries[e].key.n - 1], strings, t.entries[e].value);
      } else {
        PlacedShows(tbl.hash, strings, t, w, e);
        ShownShareable(tbl.hash[w.slot[e]].value, strings, t.entries[e].value);
      }
    }
  }

  /** Every entry of the hash part is shown in its slot. */
  lemma PlacedShows(hash: seq<Node>, strings: seq<Str>, t: LuaTable, w: Layout, e: nat)
    requires Owned(t, w, |hash|) && Counted(t, w, |hash|) && w.placed == HashPart(t)
    requires SlotsShow(hash, strings, t, w) && e < |t.entries| && !InArray(t.entries[e].key, t.len)
    ensures 0 <= w.slot[e] < |hash| && SlotShows(hash[w.slot[e]], strings, t.entries[e])
  {
    InHashPart(t, e);
    hide Shows;
  }

  /** Numbers of keys are of type `int` in the nodes. */
  predicate NarrowTable(tbl: Table) {
    && (forall i :: 0 <= i < |tbl.arr| ==> NarrowValue(tbl.arr[i]))
    && (forall x :: 0 <= x < |tbl.hash| ==>
          (tbl.hash[x].keytype == KeyInteger ==> ToInt(tbl.hash[x].key) == tbl.hash[x].key)
          && NarrowValue(tbl.hash[x].value))
  }

  predicate NarrowValue(sv: Shared) {
    sv.STable? ==> NarrowTable(sv.t)
  }

  /** All keys that go to hash parts are kept as they are. */
  predicate KeysKept(t: LuaTable) {
    forall e :: 0 <= e < |t.entries| ==>
      (InArray(t.entries[e].key, t.len) || Cut(t.entries[e].key) == t.entries[e].key)
      && KeysKeptIn(t.entries[e].value)
  }

  predicate KeysKeptIn(v: Value) {
    v.Inner? ==> KeysKept(v.t)
  }

  /** With numbers of 32 bits a table can be shown if and only if its keys are kept: integers fit
      32 bits, and no key is a table. */
  lemma {:induction false} NarrowExactly(tbl: Table, strings: seq<Str>, t: LuaTable)
    requires ShowsTable(tbl, strings, t)
    ensures NarrowTable(tbl) <==> KeysKept(t)
    decreases t, 1
  {
    hide Shows, Counted, AllChained, AllApart, SlotsShow, ToInt, NarrowValue, KeysKeptIn;
    var w: Layout :| Laid(tbl.hash, t, w) && w.placed == HashPart(t)
      && (forall x :: 0 <= x < |tbl.hash| ==> 0 <= w.owner[x]) && SlotsShow(tbl.hash, strings, t, w);
    if NarrowTable(tbl) {
      forall e | 0 <= e < |t.entries|
        ensures InArray(t.entries[e].key, t.len) || Cut(t.entries[e].key) == t.entries[e].key
        ensures KeysKeptIn(t.entries[e].value)
      {
        if InArray(t.entries[e].key, t.len) {
          NarrowValueExactly(tbl.arr[t.entries[e].key.n - 1], strings, t.entries[e].value);
        } else {
          PlacedShows(tbl.hash, strings, t, w, e);
          NarrowValueExactly(tbl.hash[w.slot[e]].value, strings, t.entries[e].value);
        }
      }
    }
    if KeysKept(t) {
      forall i | 0 <= i < |tbl.arr|
        ensures NarrowValue(tbl.arr[i])
      {
        ArrayNarrow(tbl.arr, strings, t, i);
      }
      forall x | 0 <= x < |tbl.hash|
        ensures tbl.hash[x].keytype == KeyInteger ==> ToInt(tbl.hash[x].key) == tbl.hash[x].key
        ensures NarrowValue(tbl.hash[x].value)
      {
        SlotOutside(tbl.hash, strings, t, w, x);
        NarrowValueExactly(tbl.hash[x].value, strings, t.entries[w.owner[x]].value);
      }
    }
  }

  lemma SlotOutside(hash: seq<Node>, strings: seq<Str>, t: LuaTable, w: Layout, x: nat)
    requires Laid(hash, t, w) && w.placed == HashPart(t) && SlotsShow(hash, strings, t, w)
    requires x < |hash| && 0 <= w.owner[x]
    ensures !InArray(t.entries[w.owner[x]].key, t.len) && SlotShows(hash[x], strings, t.entries[w.owner[x]])
  {
    hide Shows, AllChained, AllApart;
    assert w.owner[x] in w.placed;
  }

  lemma {:induction false} ArrayNarrow(arr: seq<Shared>, strings: seq<Str>, t: LuaTable, i: nat)
    requires i < |arr| == t.len && KeysKept(t)
    requires NilElsewhere(arr, t, |t.entries|) && ArrayShows(arr, strings, t, |t.entries|)
    ensures NarrowValue(arr[i])
    decreases t, 0
  {
    hide Shows, ToInt, KeysKeptIn;
    if arr[i] != Nil {
      var e :| 0 <= e < |t.entries| && t.entries[e].key == IntKey(i + 1);
      NarrowValueExactly(arr[i], strings, t.entries[e].value);
    }
  }

  lemma {:induction false} NarrowValueExactly(sv: Shared, strings: seq<Str>, v: Value)
    requires Shows(sv, strings, v)
    ensures NarrowValue(sv) <==> KeysKeptIn(v)
    decreases v, 2
  {
    if v.Inner? {
      NarrowExactly(sv.t, strings, v.t);
    }
  }

  lemma {:induction false} ProperKept(t: LuaTable)
    requires Proper(t)
    ensures KeysKept(t)
  {
    hide ToInt;
    forall e | 0 <= e < |t.entries| && t.entries[e].value.Inner?
      ensures KeysKept(t.entries[e].value.t)
    {
      assert ProperValue(t.entries[e].value);
      ProperKept(t.entries[e].value.t);
    }
  }

  /** `lnewconf`: exactly the tables with sharable keys and values, all the way down, become
      shared tables. */
  method NewConf(t: LuaTable, memory: nat -> Node) returns (ok: bool, tbl: Table, strings: seq<Str>)
    requires Proper(t)
    ensures ok <==> Shareable(t)
    ensures ok ==> ShowsTable(tbl, strings, t) && NarrowTable(tbl)
  {
    var ctx := new Context(memory);
    ok, tbl := ConvTable(ctx, t);
    strings := ctx.ConvertStringMap();
    if ok {
      TableShareable(tbl, strings, t);
      NarrowExactly(tbl, strings, t);
      ProperKept(t);
    }
  }
}
