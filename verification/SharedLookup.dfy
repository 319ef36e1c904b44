/** Reading shared tables: `lindexconf` and `lnextkey` of skynet/lualib-src/lua-sharedata.c. */
module SharedLookup {
  import opened SharedTable
  import opened SharedBuild
  import opened SharedConvert

  datatype Option<T> = None | Some(value: T)

  /** The keys that can be asked for; others are refused. */
  predicate Askable(key: Key) {
    key.IntKey? || key.StrKey?
  }

  predicate HasKey(t: LuaTable, key: Key) {
    exists e :: 0 <= e < |t.entries| && t.entries[e].key == key
  }

  /** The layout of a finished table. */
  ghost predicate Finished(tbl: Table, strings: seq<Str>, t: LuaTable, w: Layout) {
    && Laid(tbl.hash, t, w) && w.placed == HashPart(t)
    && (forall x :: 0 <= x < |tbl.hash| ==> 0 <= w.owner[x])
    && SlotsShow(tbl.hash, strings, t, w)
  }

  lemma LayoutOf(tbl: Table, strings: seq<Str>, t: LuaTable) returns (w: Layout)
    requires ShowsTable(tbl, strings, t)
    ensures Finished(tbl, strings, t, w)
  {
    hide Counted, AllChained, AllApart, Shows, HashPart, SlotsShow;
    w :| Laid(tbl.hash, t, w) && w.placed == HashPart(t)
      && (forall x :: 0 <= x < |tbl.hash| ==> 0 <= w.owner[x]) && SlotsShow(tbl.hash, strings, t, w);
  }

  /** The test of `lookup_key` at a node. */
  function IsKey(n: Node, strings: seq<Str>, keyhash: nat, key: Key): bool
    requires n.keytype == KeyString ==> 0 <= n.key - 2 < |strings|
  {
    && keyhash == n.keyhash
    && if n.keytype == KeyInteger then key.IntKey? && n.key == key.n
       else key.StrKey? && strings[n.key - 2] == key.s
  }

  /** `lookup_key`: the slot of a key, or -1. */
  method LookupKey(tbl: Table, strings: seq<Str>, keyhash: nat, key: Key, ghost t: LuaTable, ghost w: Layout) returns (x: int)
    requires ProperKeys(t) && Finished(tbl, strings, t, w)
    requires Askable(key) && keyhash == HashOf(key)
    ensures -1 <= x < |tbl.hash|
    ensures x >= 0 ==> t.entries[w.owner[x]].key == key
    ensures x < 0 ==> forall y :: 0 <= y < |tbl.hash| ==> t.entries[w.owner[y]].key != key
  {
    hide Shows, Counted, HashPart;
    if |tbl.hash| == 0 {
      return -1;
    }
    var hash := tbl.hash;
    var p := keyhash % |hash|;
    x := p;
    ghost var o := w.owner[p];
    assert SlotShows(hash[p], strings, t.entries[o]);
    assert Chained(hash, t, w, p);
    if keyhash != hash[p].keyhash && hash[p].nocolliding {
      forall y | 0 <= y < |hash| ensures t.entries[w.owner[y]].key != key {
        assert Chained(hash, t, w, y) && Apart(t, w, p, y, |hash|);
      }
      return -1;
    }
    forall y | 0 <= y < |hash| && Main(t, w.owner[y], |hash|) == p
      ensures Main(t, w.owner[x], |hash|) == p && w.rank[y] <= w.rank[x]
    {
      assert Chained(hash, t, w, y);
    }
    while true
      invariant 0 <= x < |hash|
      invariant forall y :: 0 <= y < |hash| && Main(t, w.owner[y], |hash|) == p ==>
        Main(t, w.owner[x], |hash|) == p && (w.rank[y] <= w.rank[x] || t.entries[w.owner[y]].key != key)
      decreases w.rank[x]
    {
      assert Chained(hash, t, w, x);
      assert SlotShows(hash[x], strings, t.entries[w.owner[x]]);
      Tested(hash[x], strings, t.entries[w.owner[x]].key, key);
      if IsKey(hash[x], strings, keyhash, key) {
        return;
      }
      forall y | 0 <= y < |hash| && Main(t, w.owner[y], |hash|) == p && w.rank[y] == w.rank[x]
        ensures t.entries[w.owner[y]].key != key
      {
        assert Apart(t, w, x, y, |hash|);
      }
      if hash[x].next < 0 {
        return -1;
      }
      x := hash[x].next;
    }
  }

  lemma Tested(n: Node, strings: seq<Str>, own: Key, key: Key)
    requires KeyAt(n, strings, own) && Askable(key)
    ensures IsKey(n, strings, HashOf(key), key) <==> own == key
  {
  }

  /** The entry of a key of the hash part has a slot. */
  lemma HasSlot(tbl: Table, strings: seq<Str>, t: LuaTable, w: Layout, e: nat)
    requires Finished(tbl, strings, t, w) && e < |t.entries| && !InArray(t.entries[e].key, t.len)
    ensures |w.slot| == |t.entries| && |w.owner| == |tbl.hash|
    ensures 0 <= w.slot[e] < |tbl.hash| && w.owner[w.slot[e]] == e
    ensures SlotShows(tbl.hash[w.slot[e]], strings, t.entries[e])
  {
    hide Shows;
    PlacedShows(tbl.hash, strings, t, w, e);
  }

  method HashKey(key: Key) returns (keyhash: nat)
    requires Askable(key)
    ensures keyhash == HashOf(key)
  {
    if key.IntKey? {
      keyhash := key.n % 0x1_0000_0000;
    } else {
      keyhash := CalcHash(key.s);
    }
  }

  /** `lindexconf`: the value of a key is the value that the Lua table has for what is kept of the
      key, and nil if it has none. */
  method Index(tbl: Table, strings: seq<Str>, key: Key, ghost t: LuaTable) returns (v: Shared)
    requires ProperKeys(t) && ShowsTable(tbl, strings, t) && Askable(key)
    ensures forall e :: 0 <= e < |t.entries| && t.entries[e].key == Cut(key) ==> Shows(v, strings, t.entries[e].value)
    ensures !HasKey(t, Cut(key)) ==> v == Nil
  {
    hide Shows, Laid, SlotsShow, HashPart, ToInt;
    var key := Cut(key);
    if key.IntKey? && key.n > 0 && key.n <= |tbl.arr| {
      v := tbl.arr[key.n - 1];
      return;
    }
    var keyhash := HashKey(key);
    ghost var w := LayoutOf(tbl, strings, t);
    var x := LookupKey(tbl, strings, keyhash, key, t, w);
    if x >= 0 {
      v := tbl.hash[x].value;
    } else {
      v := Nil;
    }
    forall e | 0 <= e < |t.entries| && t.entries[e].key == key ensures Shows(v, strings, t.entries[e].value) {
      FoundShows(tbl, strings, t, w, x, e);
    }
    OwnersHave(tbl, strings, t, w);
  }

  /** The slot that was found shows the entry of the key; not finding one is wrong if there is one. */
  lemma FoundShows(tbl: Table, strings: seq<Str>, t: LuaTable, w: Layout, x: int, e: nat)
    requires ProperKeys(t) && Finished(tbl, strings, t, w)
    requires e < |t.entries| && !InArray(t.entries[e].key, t.len) && -1 <= x < |tbl.hash|
    requires x >= 0 ==> t.entries[w.owner[x]].key == t.entries[e].key
    requires x < 0 ==> forall y :: 0 <= y < |tbl.hash| ==> t.entries[w.owner[y]].key != t.entries[e].key
    ensures x >= 0 && Shows(tbl.hash[x].value, strings, t.entries[e].value)
  {
    hide Shows, SlotsShow, HashPart, AllChained, AllApart, Counted;
    HasSlot(tbl, strings, t, w, e);
  }

  lemma OwnersHave(tbl: Table, strings: seq<Str>, t: LuaTable, w: Layout)
    requires Finished(tbl, strings, t, w)
    ensures forall x :: 0 <= x < |tbl.hash| ==> HasKey(t, t.entries[w.owner[x]].key)
  {
  }

  // Visiting all keys

  function NodeKey(n: Node, strings: seq<Str>): Key {
    if n.keytype == KeyInteger then IntKey(n.key)
    else if 0 <= n.key - 2 < |strings| then StrKey(strings[n.key - 2])
    else OtherKey(0)
  }

  function ArrayKeys(arr: seq<Shared>, i: nat): seq<Key>
    requires i <= |arr|
    decreases |arr| - i
  {
    if i == |arr| then []
    else if arr[i] != Nil then [IntKey(i + 1)] + ArrayKeys(arr, i + 1)
    else ArrayKeys(arr, i + 1)
  }

  function HashKeys(hash: seq<Node>, strings: seq<Str>, x: nat): (r: seq<Key>)
    requires x <= |hash|
    ensures |r| == |hash| - x
    ensures forall i :: 0 <= i < |r| ==> r[i] == NodeKey(hash[x + i], strings)
  {
    seq(|hash| - x, i requires 0 <= i < |hash| - x => NodeKey(hash[x + i], strings))
  }

  /** The keys in the order in which they are visited. */
  function Order(tbl: Table, strings: seq<Str>): seq<Key> {
    ArrayKeys(tbl.arr, 0) + HashKeys(tbl.hash, strings, 0)
  }

  function FirstOf(keys: seq<Key>): Option<Key> {
    if keys == [] then None else Some(keys[0])
  }

  /** `pushfirsthash` */
  function FirstHash(tbl: Table, strings: seq<Str>): (r: Option<Key>)
    ensures r == FirstOf(HashKeys(tbl.hash, strings, 0))
  {
    if |tbl.hash| > 0 then Some(NodeKey(tbl.hash[0], strings)) else None
  }

  /** The loops of `lnextkey` over the array. */
  method NextInArray(tbl: Table, strings: seq<Str>, from: nat) returns (r: Option<Key>)
    requires from <= |tbl.arr|
    ensures r == FirstOf(ArrayKeys(tbl.arr, from) + HashKeys(tbl.hash, strings, 0))
  {
    var i := from;
    while i < |tbl.arr|
      invariant from <= i <= |tbl.arr|
      invariant ArrayKeys(tbl.arr, i) == ArrayKeys(tbl.arr, from)
    {
      if tbl.arr[i] != Nil {
        return Some(IntKey(i + 1));
      }
      i := i + 1;
    }
    r := FirstHash(tbl, strings);
  }

  /** The keys that come after `key`, for a key of the table; nothing after any other key of the
      hash part. */
  ghost function After(tbl: Table, strings: seq<Str>, t: LuaTable, w: Layout, key: Key): seq<Key>
    requires Finished(tbl, strings, t, w)
  {
    if InArray(key, |tbl.arr|) then ArrayKeys(tbl.arr, key.n) + HashKeys(tbl.hash, strings, 0)
    else if x: nat :| x < |tbl.hash| && t.entries[w.owner[x]].key == key then HashKeys(tbl.hash, strings, x + 1)
    else []
  }

  /** `lnextkey` */
  method NextKey(tbl: Table, strings: seq<Str>, key: Option<Key>, ghost t: LuaTable, ghost w: Layout) returns (r: Option<Key>)
    requires ProperKeys(t) && Finished(tbl, strings, t, w) && (key.Some? ==> Askable(key.value))
    ensures key.None? ==> r == FirstOf(Order(tbl, strings))
    ensures key.Some? ==> r == FirstOf(After(tbl, strings, t, w, Cut(key.value)))
  {
    hide Shows, SlotsShow, HashPart, AllChained, AllApart, Counted, ArrayKeys, ToInt;
    if key.None? {
      r := NextInArray(tbl, strings, 0);
      return;
    }
    var last := Cut(key.value);
    if last.IntKey? && last.n > 0 && last.n <= |tbl.arr| {
      r := NextInArray(tbl, strings, last.n);
      return;
    }
    var keyhash := HashKey(last);
    var x := LookupKey(tbl, strings, keyhash, last, t, w);
    if x >= 0 {
      OneSlot(tbl, strings, t, w);
      x := x + 1;
      if x == |tbl.hash| {
        return None;
      }
      r := Some(NodeKey(tbl.hash[x], strings));
    } else {
      r := None;
    }
  }

  /** No key is in two slots. */
  lemma OneSlot(tbl: Table, strings: seq<Str>, t: LuaTable, w: Layout)
    requires ProperKeys(t) && Finished(tbl, strings, t, w)
    ensures forall x, y :: 0 <= x < y < |tbl.hash| ==> t.entries[w.owner[x]].key != t.entries[w.owner[y]].key
  {
    hide Shows, SlotsShow, HashPart, Counted, AllChained, AllApart;
  }

  lemma NodeKeyIs(tbl: Table, strings: seq<Str>, t: LuaTable, w: Layout)
    requires Finished(tbl, strings, t, w)
    ensures forall x :: 0 <= x < |tbl.hash| ==> NodeKey(tbl.hash[x], strings) == t.entries[w.owner[x]].key
  {
    hide Shows, HashPart, Counted, AllChained, AllApart;
    forall x | 0 <= x < |tbl.hash| ensures NodeKey(tbl.hash[x], strings) == t.entries[w.owner[x]].key {
      assert SlotShows(tbl.hash[x], strings, t.entries[w.owner[x]]);
    }
  }

  lemma {:induction false} ArrayKeysAre(arr: seq<Shared>, i: nat)
    requires i <= |arr|
    ensures forall key :: key in ArrayKeys(arr, i) <==> InArray(key, |arr|) && i < key.n && arr[key.n - 1] != Nil
    ensures forall a, b :: 0 <= a < b < |ArrayKeys(arr, i)| ==> ArrayKeys(arr, i)[a] != ArrayKeys(arr, i)[b]
    decreases |arr| - i
  {
    if i < |arr| {
      ArrayKeysAre(arr, i + 1);
      var rest := ArrayKeys(arr, i + 1);
      assert IntKey(i + 1) !in rest;
      assert forall a :: 0 <= a < |rest| ==> rest[a] in rest;
    }
  }

  /** The hash part has no keys of the array. */
  lemma OwnersOutside(tbl: Table, strings: seq<Str>, t: LuaTable, w: Layout)
    requires Finished(tbl, strings, t, w)
    ensures forall x :: 0 <= x < |tbl.hash| ==> !InArray(t.entries[w.owner[x]].key, t.len)
  {
    hide Shows, SlotsShow, AllChained, AllApart;
    forall x | 0 <= x < |tbl.hash| ensures !InArray(t.entries[w.owner[x]].key, t.len) {
      assert w.owner[x] in w.placed;
    }
  }

  lemma OrderHas(tbl: Table, strings: seq<Str>, t: LuaTable, w: Layout, key: Key)
    requires ProperKeys(t) && ShowsTable(tbl, strings, t) && Finished(tbl, strings, t, w)
    ensures key in Order(tbl, strings) <==> HasKey(t, key)
  {
    hide Shows, Laid, SlotsShow, HashPart;
    ArrayKeysAre(tbl.arr, 0);
    NodeKeyIs(tbl, strings, t, w);
    OwnersHave(tbl, strings, t, w);
    var second := HashKeys(tbl.hash, strings, 0);
    if key in second {
      var x :| 0 <= x < |second| && second[x] == key;
      assert second[x] == NodeKey(tbl.hash[x], strings);
    }
    if HasKey(t, key) {
      var e :| 0 <= e < |t.entries| && t.entries[e].key == key;
      if InArray(key, t.len) {
        NotNil(tbl.arr[key.n - 1], strings, t.entries[e].value);
      } else {
        HasSlot(tbl, strings, t, w, e);
        assert second[w.slot[e]] == key;
      }
    } else if InArray(key, t.len) {
      assert forall e :: 0 <= e < |t.entries| ==> t.entries[e].key != IntKey(key.n - 1 + 1);
    }
  }

  /** Every key of the Lua table is visited, no other key is, and none is visited twice. */
  lemma OrderExact(tbl: Table, strings: seq<Str>, t: LuaTable)
    requires ProperKeys(t) && ShowsTable(tbl, strings, t)
    ensures forall key :: key in Order(tbl, strings) <==> HasKey(t, key)
    ensures forall a, b :: 0 <= a < b < |Order(tbl, strings)| ==> Order(tbl, strings)[a] != Order(tbl, strings)[b]
  {
    hide Shows, Laid, SlotsShow, HashPart;
    var w := LayoutOf(tbl, strings, t);
    ArrayKeysAre(tbl.arr, 0);
    NodeKeyIs(tbl, strings, t, w);
    OneSlot(tbl, strings, t, w);
    OwnersHave(tbl, strings, t, w);
    forall key ensures key in Order(tbl, strings) <==> HasKey(t, key) {
      OrderHas(tbl, strings, t, w, key);
    }
    OwnersOutside(tbl, strings, t, w);
    var first, second := ArrayKeys(tbl.arr, 0), HashKeys(tbl.hash, strings, 0);
    assert forall x :: 0 <= x < |second| ==> second[x] == NodeKey(tbl.hash[x], strings);
    Distinct(first, second);
  }

  lemma Distinct(first: seq<Key>, second: seq<Key>)
    requires forall a, b :: 0 <= a < b < |first| ==> first[a] != first[b]
    requires forall a, b :: 0 <= a < b < |second| ==> second[a] != second[b]
    requires forall b :: 0 <= b < |second| ==> second[b] !in first
    ensures forall a, b :: 0 <= a < b < |first + second| ==> (first + second)[a] != (first + second)[b]
  {
  }

  /** The keys of the array after the first one. */
  lemma {:induction false} ArrayKeysRest(arr: seq<Shared>, i: nat)
    requires i <= |arr| && ArrayKeys(arr, i) != []
    ensures InArray(ArrayKeys(arr, i)[0], |arr|)
    ensures ArrayKeys(arr, i) == [ArrayKeys(arr, i)[0]] + ArrayKeys(arr, ArrayKeys(arr, i)[0].n)
    decreases |arr| - i
  {
    if arr[i] == Nil {
      ArrayKeysRest(arr, i + 1);
    }
  }

  /** Where a visit is: the keys still to come are a rest of the array and the hash part, or a
      rest of the hash part. */
  ghost predicate Ahead(tbl: Table, strings: seq<Str>, rest: seq<Key>) {
    || (exists i :: 0 <= i <= |tbl.arr| && rest == ArrayKeys(tbl.arr, i) + HashKeys(tbl.hash, strings, 0))
    || (exists x :: 0 <= x <= |tbl.hash| && rest == HashKeys(tbl.hash, strings, x))
  }

  /** After the first of the keys to come, the others are to come. */
  lemma AheadNext(tbl: Table, strings: seq<Str>, t: LuaTable, w: Layout, rest: seq<Key>)
    requires ProperKeys(t) && ShowsTable(tbl, strings, t) && Finished(tbl, strings, t, w)
    requires Ahead(tbl, strings, rest) && rest != []
    ensures Askable(rest[0]) && Cut(rest[0]) == rest[0]
    ensures After(tbl, strings, t, w, rest[0]) == rest[1..] && Ahead(tbl, strings, rest[1..])
  {
    hide Shows, Laid, SlotsShow, HashPart, After, ArrayShows, NilElsewhere, ProperKeys;
    var second := HashKeys(tbl.hash, strings, 0);
    if i :| 0 <= i <= |tbl.arr| && rest == ArrayKeys(tbl.arr, i) + second && ArrayKeys(tbl.arr, i) != [] {
      AfterElement(tbl, strings, t, w, i);
      AheadShift(ArrayKeys(tbl.arr, i), second, ArrayKeys(tbl.arr, rest[0].n));
    } else {
      var x :| 0 <= x < |tbl.hash| && rest == HashKeys(tbl.hash, strings, x);
      AfterSlot(tbl, strings, t, w, x);
      assert rest[1..] == HashKeys(tbl.hash, strings, x + 1);
    }
  }

  lemma AheadShift(a: seq<Key>, b: seq<Key>, c: seq<Key>)
    requires a != [] && a == [a[0]] + c
    ensures (a + b)[0] == a[0] && (a + b)[1..] == c + b
  {
  }

  lemma AfterElement(tbl: Table, strings: seq<Str>, t: LuaTable, w: Layout, i: nat)
    requires ProperKeys(t) && ShowsTable(tbl, strings, t) && Finished(tbl, strings, t, w)
    requires i <= |tbl.arr| && ArrayKeys(tbl.arr, i) != []
    ensures InArray(ArrayKeys(tbl.arr, i)[0], |tbl.arr|)
    ensures Askable(ArrayKeys(tbl.arr, i)[0]) && Cut(ArrayKeys(tbl.arr, i)[0]) == ArrayKeys(tbl.arr, i)[0]
    ensures ArrayKeys(tbl.arr, i) == [ArrayKeys(tbl.arr, i)[0]] + ArrayKeys(tbl.arr, ArrayKeys(tbl.arr, i)[0].n)
    ensures After(tbl, strings, t, w, ArrayKeys(tbl.arr, i)[0])
         == ArrayKeys(tbl.arr, ArrayKeys(tbl.arr, i)[0].n) + HashKeys(tbl.hash, strings, 0)
  {
    hide Shows, Laid, SlotsShow, HashPart, ArrayShows, NilElsewhere, ProperKeys;
    ArrayKeysRest(tbl.arr, i);
    ArrayKeysAre(tbl.arr, i);
    assert ArrayKeys(tbl.arr, i)[0] in ArrayKeys(tbl.arr, i);
    InTable(tbl, strings, t, ArrayKeys(tbl.arr, i)[0]);
  }

  /** A key of the array that is not nil is a key of the Lua table. */
  lemma InTable(tbl: Table, strings: seq<Str>, t: LuaTable, key: Key)
    requires ProperKeys(t) && ShowsTable(tbl, strings, t)
    requires InArray(key, t.len) && tbl.arr[key.n - 1] != Nil
    ensures Askable(key) && Cut(key) == key
  {
    hide Shows, Laid, SlotsShow, HashPart, ArrayShows;
    var e :| 0 <= e < |t.entries| && t.entries[e].key == IntKey(key.n - 1 + 1);
  }

  lemma AfterSlot(tbl: Table, strings: seq<Str>, t: LuaTable, w: Layout, x: nat)
    requires ProperKeys(t) && Finished(tbl, strings, t, w) && |tbl.arr| == t.len && x < |tbl.hash|
    ensures HashKeys(tbl.hash, strings, x)[0] == t.entries[w.owner[x]].key
    ensures Askable(t.entries[w.owner[x]].key) && Cut(t.entries[w.owner[x]].key) == t.entries[w.owner[x]].key
    ensures After(tbl, strings, t, w, t.entries[w.owner[x]].key) == HashKeys(tbl.hash, strings, x + 1)
  {
    hide Shows, SlotsShow, HashPart, AllChained, AllApart, Counted, ProperKeys;
    NodeKeyIs(tbl, strings, t, w);
    OwnersOutside(tbl, strings, t, w);
    OneSlot(tbl, strings, t, w);
    OwnerAskable(tbl, strings, t, w, x);
  }

  lemma OwnerAskable(tbl: Table, strings: seq<Str>, t: LuaTable, w: Layout, x: nat)
    requires ProperKeys(t) && Finished(tbl, strings, t, w) && x < |tbl.hash|
    ensures Askable(t.entries[w.owner[x]].key) && Cut(t.entries[w.owner[x]].key) == t.entries[w.owner[x]].key
  {
    hide Shows, HashPart, AllChained, AllApart, Counted;
    assert SlotShows(tbl.hash[x], strings, t.entries[w.owner[x]]);
  }

  lemma AllAhead(tbl: Table, strings: seq<Str>)
    ensures Ahead(tbl, strings, Order(tbl, strings))
  {
    assert Order(tbl, strings) == ArrayKeys(tbl.arr, 0) + HashKeys(tbl.hash, strings, 0);
  }

  lemma Shifted(keys: seq<Key>, rest: seq<Key>)
    requires rest != []
    ensures keys + [rest[0]] + rest[1..] == keys + rest
  {
  }

  /** A loop over a shared table: it visits the keys in their order. */
  method VisitAll(tbl: Table, strings: seq<Str>, ghost t: LuaTable) returns (keys: seq<Key>)
    requires ProperKeys(t) && ShowsTable(tbl, strings, t)
    ensures keys == Order(tbl, strings)
  {
    hide Finished, ProperKeys, ShowsTable, After, Order, Ahead, Askable;
    ghost var w := LayoutOf(tbl, strings, t);
    ghost var rest := Order(tbl, strings);
    AllAhead(tbl, strings);
    keys := [];
    var key := NextKey(tbl, strings, None, t, w);
    while key.Some?
      invariant keys + rest == Order(tbl, strings) && key == FirstOf(rest)
      invariant Ahead(tbl, strings, rest)
      decreases |rest|
    {
      AheadNext(tbl, strings, t, w, rest);
      Shifted(keys, rest);
      keys := keys + [key.value];
      rest := rest[1..];
      key := NextKey(tbl, strings, key, t, w);
    }
  }
}
