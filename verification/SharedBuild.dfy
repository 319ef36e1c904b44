/** Building a shared table (`convtable` in skynet/lualib-src/lua-sharedata.c): first every
    entry whose main position is free gets it, then the others are put into empty slots and
    linked behind their main positions. */
module SharedBuild {
  import opened SharedTable

  class Context {
    /** What newly allocated memory holds. */
    const memory: nat -> Node
    var stringMap: map<Str, int>
    var stringIndex: int
    ghost var strings: seq<Str>

    ghost predicate Valid()
      reads this
    {
      && stringIndex == |strings| + 1
      && (forall i :: 0 <= i < |strings| ==> strings[i] in stringMap && stringMap[strings[i]] == i + 2)
      && (forall s :: s in stringMap ==> IsString(strings, stringMap[s], s))
    }

    constructor (memory: nat -> Node)
      ensures Valid() && strings == []
    {
      this.memory := memory;
      stringMap, stringIndex, strings := map[], 1, [];
    }

    /** `stringindex` */
    method StringIndex(s: Str) returns (index: int)
      requires Valid()
      modifies this
      ensures Valid() && old(strings) <= strings
      ensures IsString(strings, index, s)
    {
      if s in stringMap {
        index := stringMap[s];
      } else {
        stringIndex := stringIndex + 1;
        index := stringIndex;
        stringMap := stringMap[s := index];
        strings := strings + [s];
      }
    }

    /** `convert_stringmap`: every string goes to its index. */
    method ConvertStringMap() returns (r: seq<Str>)
      requires Valid()
      ensures r == strings
    {
      var stack := new Str[stringIndex - 1](_ => []);
      var rest := stringMap.Keys;
      while rest != {}
        invariant rest <= stringMap.Keys
        invariant forall i :: 0 <= i < |strings| && strings[i] !in rest ==> stack[i] == strings[i]
        decreases rest
      {
        var s :| s in rest;
        stack[stringMap[s] - 2] := s;
        rest := rest - {s};
      }
      r := stack[..];
    }

    /** `ishashkey`: whether a key goes to the hash part, and how it is stored there.
        `lua_tolstring` gives no characters for a table. */
    method IsHashKey(key: Key, len: nat) returns (r: bool, k: int, keyhash: nat, keytype: KeyType)
      requires Valid() && !key.OtherKey?
      modifies this
      ensures Valid() && old(strings) <= strings
      ensures r <==> !InArray(Cut(key), len)
      ensures r ==> Stored(strings, Cut(key), k, keyhash, keytype)
      ensures !r ==> k == Cut(key).n
    {
      if key.IntKey? {
        k := ToInt(key.n);
        keytype := KeyInteger;
        if k > 0 && k <= len {
          return false, k, 0, keytype;
        }
        keyhash := k % 0x1_0000_0000;
      } else {
        var s := if key.StrKey? then key.s else [];
        keyhash := CalcHash(s);
        k := StringIndex(s);
        keytype := KeyString;
      }
      r := true;
    }
  }

  ghost predicate Stored(strings: seq<Str>, key: Key, k: int, keyhash: nat, keytype: KeyType) {
    KeyAt(Node(Nil, k, -1, keyhash, keytype, false), strings, key)
  }

  /** The number of an entry of the hash part is found in its node. */
  lemma StoredTwice(strings: seq<Str>, stringMap: map<Str, int>, a: Key, b: Key, n: Node, k: int, keyhash: nat, keytype: KeyType)
    requires forall i :: 0 <= i < |strings| ==> strings[i] in stringMap && stringMap[strings[i]] == i + 2
    requires KeyAt(n, strings, a) && Stored(strings, b, k, keyhash, keytype)
    ensures n.keytype == keytype && n.key == k <==> a == b
  {
  }

  // More strings

  lemma {:induction false} ShowsMore(sv: Shared, s1: seq<Str>, s2: seq<Str>, v: Value)
    requires Shows(sv, s1, v) && s1 <= s2
    ensures Shows(sv, s2, v)
    decreases v
  {
    if v.Inner? {
      ShowsTableMore(sv.t, s1, s2, v.t);
    }
  }

  lemma {:induction false} ShowsTableMore(tbl: Table, s1: seq<Str>, s2: seq<Str>, t: LuaTable)
    requires ShowsTable(tbl, s1, t) && s1 <= s2
    ensures ShowsTable(tbl, s2, t)
    decreases t, 1
  {
    hide Counted, AllChained, AllApart, Shows, SlotsShow, ArrayShows, HashPart;
    ArrayMore(tbl.arr, s1, s2, t, |t.entries|);
    var w: Layout :| Laid(tbl.hash, t, w) && w.placed == HashPart(t) && SlotsShow(tbl.hash, s1, t, w)
      && forall x :: 0 <= x < |tbl.hash| ==> 0 <= w.owner[x];
    SlotsMore(tbl.hash, s1, s2, t, w);
  }

  lemma {:induction false} ArrayMore(arr: seq<Shared>, s1: seq<Str>, s2: seq<Str>, t: LuaTable, j: nat)
    requires |arr| == t.len && j <= |t.entries| && ArrayShows(arr, s1, t, j) && s1 <= s2
    ensures ArrayShows(arr, s2, t, j)
    decreases t, 0
  {
    forall e | 0 <= e < j && InArray(t.entries[e].key, t.len)
      ensures Shows(arr[t.entries[e].key.n - 1], s2, t.entries[e].value)
    {
      ShowsMore(arr[t.entries[e].key.n - 1], s1, s2, t.entries[e].value);
    }
  }

  lemma {:induction false} SlotsMore(hash: seq<Node>, s1: seq<Str>, s2: seq<Str>, t: LuaTable, w: Layout)
    requires Owned(t, w, |hash|) && SlotsShow(hash, s1, t, w) && s1 <= s2
    ensures SlotsShow(hash, s2, t, w)
    decreases t, 0
  {
    hide Shows;
    forall x | 0 <= x < |hash| && w.owner[x] >= 0 ensures SlotShows(hash[x], s2, t.entries[w.owner[x]]) {
      ShowsMore(hash[x].value, s1, s2, t.entries[w.owner[x]].value);
    }
  }

  // What the two passes keep

  /** After `j` entries of the first pass: entries are only in their main positions, and the main
      positions of all these entries are taken. */
  ghost predicate FirstPass(t: LuaTable, w: Layout, size: nat, j: nat)
    requires Owned(t, w, size) && 0 < size && j <= |t.entries|
  {
    && (forall e :: 0 <= e < |t.entries| && w.slot[e] >= 0 ==> e < j && w.slot[e] == Main(t, e, size))
    && (forall e :: 0 <= e < j && e in HashPart(t) ==> w.owner[Main(t, e, size)] >= 0)
  }

  /** After `j` entries of the second pass: the main position of every entry has an entry of its
      own, and these entries, and the first `j`, are placed and no others. */
  ghost predicate SecondPass(t: LuaTable, w: Layout, size: nat, j: nat)
    requires Owned(t, w, size) && 0 < size && j <= |t.entries|
  {
    && (forall e :: 0 <= e < |t.entries| && e in HashPart(t) ==> MainTaken(t, w, size, e))
    && (forall e :: 0 <= e < j && e in HashPart(t) ==> w.slot[e] >= 0)
    && (forall e :: 0 <= e < |t.entries| && w.slot[e] >= 0 ==> e < j || w.slot[e] == Main(t, e, size))
  }

  ghost predicate MainTaken(t: LuaTable, w: Layout, size: nat, e: nat)
    requires Owned(t, w, size) && 0 < size && e < |t.entries|
  {
    var o := w.owner[Main(t, e, size)];
    o >= 0 && Main(t, o, size) == Main(t, e, size)
  }

  /** The state of a build: `strings` are known, the array part has the first `j` entries that go
      there, and the filled slots show their entries. */
  ghost predicate Building(t: LuaTable, strings: seq<Str>, arr: seq<Shared>, hash: seq<Node>, w: Layout, j: nat) {
    && |arr| == t.len && j <= |t.entries| && 0 < |hash| == |HashPart(t)|
    && NilElsewhere(arr, t, j) && ArrayShows(arr, strings, t, j)
    && Laid(hash, t, w) && SlotsShow(hash, strings, t, w)
  }

  lemma BuildingMore(t: LuaTable, s1: seq<Str>, s2: seq<Str>, arr: seq<Shared>, hash: seq<Node>, w: Layout, j: nat)
    requires Building(t, s1, arr, hash, w, j) && s1 <= s2
    ensures Building(t, s2, arr, hash, w, j)
  {
    hide Counted, AllChained, AllApart, Shows, SlotsShow, ArrayShows, NilElsewhere, HashPart;
    ArrayMore(arr, s1, s2, t, j);
    SlotsMore(hash, s1, s2, t, w);
  }

  ghost function NoLayout(t: LuaTable, size: nat): Layout {
    Layout(seq(size, i => -1), seq(|t.entries|, i => -1), seq(size, i => 0), {}, {})
  }

  lemma StartBuilding(t: LuaTable, strings: seq<Str>, arr: seq<Shared>, hash: seq<Node>)
    requires |arr| == t.len && 0 < |hash| == |HashPart(t)|
    requires forall i :: 0 <= i < |arr| ==> arr[i] == Nil
    requires forall i :: 0 <= i < |hash| ==> hash[i].value == Nil
    ensures Building(t, strings, arr, hash, NoLayout(t, |hash|), 0)
    ensures FirstPass(t, NoLayout(t, |hash|), |hash|, 0)
  {
    hide HashPart;
    var w := NoLayout(t, |hash|);
    assert Owned(t, w, |hash|);
    assert Counted(t, w, |hash|);
  }

  /** An entry of the array part is stored. */
  lemma ArrayStored(t: LuaTable, strings: seq<Str>, arr: seq<Shared>, j: nat, sv: Shared)
    requires ProperKeys(t) && j < |t.entries| && InArray(t.entries[j].key, t.len)
    requires |arr| == t.len && NilElsewhere(arr, t, j) && ArrayShows(arr, strings, t, j)
    requires Shows(sv, strings, t.entries[j].value)
    ensures NilElsewhere(arr[t.entries[j].key.n - 1 := sv], t, j + 1)
    ensures ArrayShows(arr[t.entries[j].key.n - 1 := sv], strings, t, j + 1)
  {
    hide Shows, Cut;
    var n := t.entries[j].key.n;
    var arr1 := arr[n - 1 := sv];
    forall e | 0 <= e < j + 1 && InArray(t.entries[e].key, t.len)
      ensures Shows(arr1[t.entries[e].key.n - 1], strings, t.entries[e].value)
    {
      if e < j {
        assert t.entries[e].key != t.entries[j].key;
      }
    }
    forall i | 0 <= i < |arr1| && (forall e :: 0 <= e < j + 1 ==> t.entries[e].key != IntKey(i + 1))
      ensures arr1[i] == Nil
    {
      assert t.entries[j].key == IntKey(n);
    }
  }

  /** Nothing happens to the array for an entry of the hash part. */
  lemma ArraySkipped(t: LuaTable, strings: seq<Str>, arr: seq<Shared>, j: nat)
    requires j < |t.entries| && !InArray(t.entries[j].key, t.len)
    requires |arr| == t.len && NilElsewhere(arr, t, j) && ArrayShows(arr, strings, t, j)
    ensures NilElsewhere(arr, t, j + 1) && ArrayShows(arr, strings, t, j + 1)
  {
    hide Shows;
    forall i | 0 <= i < |arr| && (forall e :: 0 <= e < j + 1 ==> t.entries[e].key != IntKey(i + 1))
      ensures arr[i] == Nil
    {
    }
  }

  /** A filled slot is not empty. */
  lemma NotNil(sv: Shared, strings: seq<Str>, v: Value)
    requires Shows(sv, strings, v)
    ensures sv != Nil
  {
  }

  /** An empty slot is one without an owner. */
  lemma EmptyIs(hash: seq<Node>, strings: seq<Str>, t: LuaTable, w: Layout, x: nat)
    requires Owned(t, w, |hash|) && SlotsShow(hash, strings, t, w) && x < |hash|
    ensures hash[x].value == Nil <==> w.owner[x] == -1
  {
    if w.owner[x] >= 0 {
      NotNil(hash[x].value, strings, t.entries[w.owner[x]].value);
    }
  }

  lemma InHashPart(t: LuaTable, e: nat)
    requires e < |t.entries|
    ensures e in HashPart(t) <==> !InArray(t.entries[e].key, t.len)
  {
  }

  /** The first pass puts entry `j` into its main position, which is empty. */
  lemma FirstFilled(t: LuaTable, strings: seq<Str>, arr: seq<Shared>, hash: seq<Node>, w: Layout, j: nat, m: nat, n: Node)
    requires Building(t, strings, arr, hash, w, j) && FirstPass(t, w, |hash|, j)
    requires j < |t.entries| && j in HashPart(t) && m == Main(t, j, |hash|) && hash[m].value == Nil
    requires SlotShows(n, strings, t.entries[j]) && n.next == -1
    ensures Building(t, strings, arr, hash[m := n], WithHead(w, m, j), j + 1)
    ensures FirstPass(t, WithHead(w, m, j), |hash|, j + 1)
  {
    hide Counted, AllChained, AllApart, Shows, ArrayShows, NilElsewhere, HashPart, SlotShows, Main;
    EmptyIs(hash, strings, t, w, m);
    InHashPart(t, j);
    ArraySkipped(t, strings, arr, j);
    HeadLaid(hash, t, w, m, j, n);
  }

  lemma FirstSkipped(t: LuaTable, strings: seq<Str>, arr: seq<Shared>, hash: seq<Node>, w: Layout, j: nat)
    requires Building(t, strings, arr, hash, w, j) && FirstPass(t, w, |hash|, j)
    requires j < |t.entries| && j in HashPart(t) && hash[Main(t, j, |hash|)].value != Nil
    ensures Building(t, strings, arr, hash, w, j + 1) && FirstPass(t, w, |hash|, j + 1)
  {
    hide Counted, AllChained, AllApart, Shows, ArrayShows, NilElsewhere, HashPart, SlotShows, Main;
    EmptyIs(hash, strings, t, w, Main(t, j, |hash|));
    InHashPart(t, j);
    ArraySkipped(t, strings, arr, j);
  }

  /** Between the passes. */
  lemma FirstDone(t: LuaTable, w: Layout, size: nat)
    requires Owned(t, w, size) && 0 < size && FirstPass(t, w, size, |t.entries|)
    ensures SecondPass(t, w, size, 0)
  {
    hide HashPart, Main;
    forall e | 0 <= e < |t.entries| && e in HashPart(t) ensures MainTaken(t, w, size, e) {
      var o := w.owner[Main(t, e, size)];
      assert w.slot[o] == Main(t, o, size);
    }
  }

  /** The second pass may link entry `j`, which is not in its main position, there. */
  lemma MayLink(t: LuaTable, strings: seq<Str>, hash: seq<Node>, w: Layout, j: nat, x: nat)
    requires Laid(hash, t, w) && SlotsShow(hash, strings, t, w) && 0 < |hash|
    requires j < |t.entries| && j in HashPart(t) && SecondPass(t, w, |hash|, j)
    requires w.owner[Main(t, j, |hash|)] != j && x < |hash| && hash[x].value == Nil
    ensures Placeable(t, w, |hash|, x, j)
  {
    hide Counted, HashPart, Main;
    EmptyIs(hash, strings, t, w, x);
    assert w.slot[j] == -1;
  }

  lemma LinkShows(t: LuaTable, strings: seq<Str>, hash: seq<Node>, w: Layout, j: nat, m: nat, x: nat, n: Node)
    requires Owned(t, w, |hash|) && SlotsShow(hash, strings, t, w)
    requires x < |hash| && w.owner[x] == -1 && m < |hash| && w.owner[m] >= 0 && j < |t.entries|
    requires SlotShows(n, strings, t.entries[j])
    requires Owned(t, WithLink(w, m, x, j), |hash|)
    ensures SlotsShow(Linked(hash, m, x, n), strings, t, WithLink(w, m, x, j))
  {
    hide Shows;
    assert SlotShows(hash[m], strings, t.entries[w.owner[m]]);
  }

  lemma LinkPassed(t: LuaTable, w: Layout, size: nat, j: nat, m: nat, x: nat)
    requires Placeable(t, w, size, x, j) && SecondPass(t, w, size, j)
    requires j < |t.entries| && m == Main(t, j, size) && Owned(t, WithLink(w, m, x, j), size)
    ensures SecondPass(t, WithLink(w, m, x, j), size, j + 1)
  {
    hide Counted, HashPart, Main;
    forall e | 0 <= e < |t.entries| && e in HashPart(t) ensures MainTaken(t, WithLink(w, m, x, j), size, e) {
      assert MainTaken(t, w, size, e);
    }
  }
}
