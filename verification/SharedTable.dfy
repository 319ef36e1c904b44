/** Tables of skynet/lualib-src/lua-sharedata.c: a Lua table with the tables inside it, copied
    into arrays and hash parts with chained collisions. */
module SharedTable {
  import opened Bytes
  import opened Sets

  type Str = seq<byte>

  // Lua values

  /** `OtherKey` is a key that is neither an integer, nor a string, nor a table. */
  datatype Key = IntKey(n: int) | StrKey(s: Str) | TableKey(id: nat) | OtherKey(id: nat)

  /** `Other` is a function, a thread or the like. */
  datatype Value = Integer(d: int) | Real(n: real) | Boolean(b: bool) | String(s: Str) | Inner(t: LuaTable) | Other

  datatype Entry = Entry(key: Key, value: Value)

  /** The entries in the order of `lua_next`; `len` is what `lua_rawlen` says. */
  datatype LuaTable = LuaTable(len: nat, entries: seq<Entry>)

  predicate InArray(key: Key, len: nat) {
    key.IntKey? && 0 < key.n <= len
  }

  /** A Lua integer as an `int`. */
  function ToInt(n: int): (r: int)
    ensures -0x8000_0000 <= r < 0x8000_0000 && r % 0x1_0000_0000 == n % 0x1_0000_0000
    ensures -0x8000_0000 <= n < 0x8000_0000 ==> r == n
  {
    (n + 0x8000_0000) % 0x1_0000_0000 - 0x8000_0000
  }

  /** What the shared table keeps of a key: 32 bits of an integer, and an empty string in place of
      a table. */
  function Cut(key: Key): Key {
    match key
    case IntKey(n) => IntKey(ToInt(n))
    case TableKey(_) => StrKey([])
    case _ => key
  }

  /** Keys differ, and they are kept as they are. */
  predicate ProperKeys(t: LuaTable) {
    && (forall i, j :: 0 <= i < j < |t.entries| ==> t.entries[i].key != t.entries[j].key)
    && (forall i :: 0 <= i < |t.entries| ==> Cut(t.entries[i].key) == t.entries[i].key)
  }

  predicate Proper(t: LuaTable) {
    ProperKeys(t) && forall i :: 0 <= i < |t.entries| ==> ProperValue(t.entries[i].value)
  }

  predicate ProperValue(v: Value) {
    v.Inner? ==> Proper(v.t)
  }

  /** All keys and values have types that can be shared. */
  predicate Shareable(t: LuaTable) {
    forall i :: 0 <= i < |t.entries| ==> !t.entries[i].key.OtherKey? && ShareableValue(t.entries[i].value)
  }

  predicate ShareableValue(v: Value) {
    !v.Other? && (v.Inner? ==> Shareable(v.t))
  }

  // Shared values

  datatype Shared = Nil | SInteger(d: int) | SReal(n: real) | SBoolean(b: bool) | SString(index: int) | STable(t: Table)

  datatype KeyType = KeyInteger | KeyString

  datatype Node = Node(value: Shared, key: int, next: int, keyhash: nat, keytype: KeyType, nocolliding: bool)

  datatype Table = Table(arr: seq<Shared>, hash: seq<Node>)

  /** The first string has the index 2; 1 is reserved. */
  predicate IsString(strings: seq<Str>, index: int, s: Str) {
    0 <= index - 2 < |strings| && strings[index - 2] == s
  }

  ghost predicate Shows(sv: Shared, strings: seq<Str>, v: Value)
    decreases v
  {
    match v
    case Integer(d) => sv == SInteger(d)
    case Real(n) => sv == SReal(n)
    case Boolean(b) => sv == SBoolean(b)
    case String(s) => sv.SString? && IsString(strings, sv.index, s)
    case Inner(t) => sv.STable? && ShowsTable(sv.t, strings, t)
    case Other => false
  }

  /** A shared table holds what the Lua table does, and its hash part is in order. */
  ghost predicate ShowsTable(tbl: Table, strings: seq<Str>, t: LuaTable)
    decreases t, 1
  {
    && |tbl.arr| == t.len
    && NilElsewhere(tbl.arr, t, |t.entries|)
    && ArrayShows(tbl.arr, strings, t, |t.entries|)
    && exists w: Layout ::
         && Laid(tbl.hash, t, w) && w.placed == HashPart(t)
         && (forall x :: 0 <= x < |tbl.hash| ==> 0 <= w.owner[x])
         && SlotsShow(tbl.hash, strings, t, w)
  }

  /** Filled slots show their entries, the others are empty. */
  ghost predicate SlotsShow(hash: seq<Node>, strings: seq<Str>, t: LuaTable, w: Layout)
    requires Owned(t, w, |hash|)
    decreases t, 0
  {
    forall x :: 0 <= x < |hash| ==>
      if w.owner[x] >= 0 then SlotShows(hash[x], strings, t.entries[w.owner[x]]) else hash[x].value == Nil
  }

  ghost predicate SlotShows(n: Node, strings: seq<Str>, e: Entry)
    decreases e
  {
    KeyAt(n, strings, e.key) && Shows(n.value, strings, e.value)
  }

  /** The first `j` entries that go to the array are there. */
  ghost predicate ArrayShows(arr: seq<Shared>, strings: seq<Str>, t: LuaTable, j: nat)
    requires |arr| == t.len && j <= |t.entries|
    decreases t, 0
  {
    forall e :: 0 <= e < j && InArray(t.entries[e].key, t.len) ==>
      Shows(arr[t.entries[e].key.n - 1], strings, t.entries[e].value)
  }

  /** Array slots without an entry among the first `j` are nil. */
  ghost predicate NilElsewhere(arr: seq<Shared>, t: LuaTable, j: nat)
    requires j <= |t.entries|
  {
    forall i :: 0 <= i < |arr| && (forall e :: 0 <= e < j ==> t.entries[e].key != IntKey(i + 1)) ==> arr[i] == Nil
  }

  /** The numbers of the entries that go to the hash part. */
  ghost function HashPart(t: LuaTable): set<nat> {
    HashPartTo(t, |t.entries|)
  }

  ghost function HashPartTo(t: LuaTable, j: nat): set<nat>
    requires j <= |t.entries|
  {
    set e: nat | e < j && !InArray(t.entries[e].key, t.len)
  }

  predicate KeyAt(n: Node, strings: seq<Str>, key: Key) {
    && n.keyhash == HashOf(key)
    && match key
       case IntKey(k) => n.keytype == KeyInteger && n.key == k
       case StrKey(s) => n.keytype == KeyString && IsString(strings, n.key, s)
       case _ => false
  }

  // Hashes

  function Mix(h: bv32, c: byte): bv32 {
    h ^ ((h << 5) + (h >> 2) + (c as bv32))
  }

  function HashFrom(s: Str, l: nat, step: nat, h: bv32): bv32
    requires l <= |s| && 0 < step
    decreases l
  {
    if l < step then h else HashFrom(s, l - step, step, Mix(h, s[l - 1]))
  }

  function HashString(s: Str): nat {
    HashFrom(s, |s|, |s| / 32 + 1, (|s| % 0x1_0000_0000) as bv32) as nat
  }

  function HashOf(key: Key): nat {
    match key
    case IntKey(n) => n % 0x1_0000_0000
    case StrKey(s) => HashString(s)
    case _ => 0
  }

  /** `calchash` */
  method CalcHash(s: Str) returns (r: nat)
    ensures r == HashString(s)
  {
    var h := (|s| % 0x1_0000_0000) as bv32;
    var step := |s| / 32 + 1;
    var l := |s|;
    while l >= step
      invariant 0 <= l <= |s|
      invariant HashFrom(s, l, step, h) as nat == HashString(s)
    {
      h := Mix(h, s[l - 1]);
      l := l - step;
    }
    r := h as nat;
  }

  // The hash part

  /** Which entry is in a slot and which slot an entry has, -1 for none; and how many links are
      behind a slot in its chain. */
  datatype Layout = Layout(owner: seq<int>, slot: seq<int>, rank: seq<nat>, filled: set<nat>, placed: set<nat>)

  ghost function Main(t: LuaTable, e: nat, size: nat): (m: nat)
    requires e < |t.entries| && 0 < size
    ensures m < size
  {
    HashOf(t.entries[e].key) % size
  }

  /** Owners and slots belong together. */
  ghost predicate Owned(t: LuaTable, w: Layout, size: nat) {
    && |w.owner| == |w.rank| == size && |w.slot| == |t.entries|
    && (forall x :: 0 <= x < size ==> -1 <= w.owner[x] < |t.entries|)
    && (forall e :: 0 <= e < |t.entries| ==> -1 <= w.slot[e] < size)
    && (forall x :: 0 <= x < size && w.owner[x] >= 0 ==> w.slot[w.owner[x]] == x)
    && (forall e :: 0 <= e < |t.entries| && w.slot[e] >= 0 ==> w.owner[w.slot[e]] == e)
  }

  /** As many slots are filled as entries of the hash part are placed. */
  ghost predicate Counted(t: LuaTable, w: Layout, size: nat)
    requires Owned(t, w, size)
  {
    && (forall x: nat :: x in w.filled <==> x < size && w.owner[x] >= 0)
    && (forall e: nat :: e in w.placed <==> e < |t.entries| && w.slot[e] >= 0)
    && w.placed <= HashPart(t)
    && |w.placed| == |w.filled|
  }

  /** Where a filled slot stands in its chain. */
  ghost predicate Chained(hash: seq<Node>, t: LuaTable, w: Layout, x: nat)
    requires Owned(t, w, |hash|) && x < |hash| && w.owner[x] >= 0
  {
    var m := Main(t, w.owner[x], |hash|);
    && w.owner[m] >= 0 && Main(t, w.owner[m], |hash|) == m
    && w.rank[x] <= w.rank[m]
    && -1 <= hash[x].next < |hash|
    && (hash[x].next == -1 <==> w.rank[x] == 0)
    && (hash[x].next >= 0 ==>
          && w.owner[hash[x].next] >= 0 && Main(t, w.owner[hash[x].next], |hash|) == m
          && w.rank[hash[x].next] == w.rank[x] - 1)
    && (hash[x].nocolliding ==> m == x && w.rank[x] == 0)
  }

  /** The links of the filled slots form one chain for each main position. */
  ghost predicate Laid(hash: seq<Node>, t: LuaTable, w: Layout) {
    && Owned(t, w, |hash|) && Counted(t, w, |hash|)
    && AllChained(hash, t, w) && AllApart(hash, t, w)
  }

  ghost predicate AllChained(hash: seq<Node>, t: LuaTable, w: Layout)
    requires Owned(t, w, |hash|)
  {
    forall x :: 0 <= x < |hash| && w.owner[x] >= 0 ==> Chained(hash, t, w, x)
  }

  ghost predicate AllApart(hash: seq<Node>, t: LuaTable, w: Layout)
    requires Owned(t, w, |hash|)
  {
    forall x, y :: 0 <= x < |hash| && 0 <= y < |hash| && w.owner[x] >= 0 && w.owner[y] >= 0 ==> Apart(t, w, x, y, |hash|)
  }

  /** Different slots of one chain have different ranks. */
  ghost predicate Apart(t: LuaTable, w: Layout, x: nat, y: nat, size: nat)
    requires Owned(t, w, size) && x < size && y < size && w.owner[x] >= 0 && w.owner[y] >= 0
  {
    Main(t, w.owner[x], size) == Main(t, w.owner[y], size) && w.rank[x] == w.rank[y] ==> x == y
  }

  /** The layout with an entry in an empty slot that is its main position. */
  ghost function WithHead(w: Layout, x: nat, e: nat): Layout
    requires x < |w.owner| == |w.rank| && e < |w.slot|
  {
    Layout(w.owner[x := e], w.slot[e := x], w.rank[x := 0], w.filled + {x}, w.placed + {e})
  }

  /** The layout with an entry in an empty slot, linked behind its main position. */
  ghost function WithLink(w: Layout, m: nat, x: nat, e: nat): Layout
    requires x < |w.owner| == |w.rank| && m < |w.rank| && e < |w.slot|
  {
    Layout(w.owner[x := e], w.slot[e := x], w.rank[x := w.rank[m]][m := w.rank[m] + 1],
           w.filled + {x}, w.placed + {e})
  }

  /** Entry `e` is to get the empty slot `x`. */
  ghost predicate Placeable(t: LuaTable, w: Layout, size: nat, x: nat, e: nat) {
    && Owned(t, w, size) && Counted(t, w, size)
    && x < size && w.owner[x] == -1
    && e in HashPart(t) && w.slot[e] == -1
  }

  lemma OwnedMore(t: LuaTable, w: Layout, v: Layout, size: nat, x: nat, e: nat)
    requires Placeable(t, w, size, x, e)
    requires v.owner == w.owner[x := e] && v.slot == w.slot[e := x] && |v.rank| == size
    requires v.filled == w.filled + {x} && v.placed == w.placed + {e}
    ensures Owned(t, v, size) && Counted(t, v, size)
  {
    assert x !in w.filled && e !in w.placed;
  }

  lemma HeadLaid(hash: seq<Node>, t: LuaTable, w: Layout, x: nat, e: nat, n: Node)
    requires Laid(hash, t, w) && Placeable(t, w, |hash|, x, e) && Main(t, e, |hash|) == x
    requires n.next == -1
    ensures Laid(hash[x := n], t, WithHead(w, x, e))
  {
    assert e < |w.slot|;
    hide Counted, HashPart, Main, AllChained, AllApart;
    OwnedMore(t, w, WithHead(w, x, e), |hash|, x, e);
    HeadAllChained(hash, t, w, x, e, n);
    HeadAllApart(hash, t, w, x, e, n);
  }

  lemma HeadAllChained(hash: seq<Node>, t: LuaTable, w: Layout, x: nat, e: nat, n: Node)
    requires Laid(hash, t, w) && Placeable(t, w, |hash|, x, e) && Main(t, e, |hash|) == x
    requires n.next == -1
    requires e < |w.slot| && Owned(t, WithHead(w, x, e), |hash|)
    ensures AllChained(hash[x := n], t, WithHead(w, x, e))
  {
    hide Counted, HashPart, Main, Chained, Apart, AllApart;
    var h, v := hash[x := n], WithHead(w, x, e);
    forall y | 0 <= y < |h| && v.owner[y] >= 0 ensures Chained(h, t, v, y) {
      HeadKeeps(hash, t, w, x, e, n, y);
    }
  }

  lemma HeadAllApart(hash: seq<Node>, t: LuaTable, w: Layout, x: nat, e: nat, n: Node)
    requires Laid(hash, t, w) && Placeable(t, w, |hash|, x, e) && Main(t, e, |hash|) == x
    requires n.next == -1
    requires e < |w.slot| && Owned(t, WithHead(w, x, e), |hash|)
    ensures AllApart(hash[x := n], t, WithHead(w, x, e))
  {
    hide Counted, HashPart, Main, Chained, Apart, AllChained;
    var h, v := hash[x := n], WithHead(w, x, e);
    forall y, z | 0 <= y < |h| && 0 <= z < |h| && v.owner[y] >= 0 && v.owner[z] >= 0 ensures Apart(t, v, y, z, |h|) {
      HeadApart(hash, t, w, x, e, y, z);
    }
  }

  lemma HeadKeeps(hash: seq<Node>, t: LuaTable, w: Layout, x: nat, e: nat, n: Node, y: nat)
    requires Laid(hash, t, w) && Placeable(t, w, |hash|, x, e) && Main(t, e, |hash|) == x
    requires n.next == -1 && y < |hash| && (y == x || w.owner[y] >= 0)
    requires e < |w.slot| && Owned(t, WithHead(w, x, e), |hash|)
    ensures Chained(hash[x := n], t, WithHead(w, x, e), y)
  {
    hide Counted, HashPart, Main;
    if y != x {
      assert Chained(hash, t, w, y);
    }
  }

  lemma HeadApart(hash: seq<Node>, t: LuaTable, w: Layout, x: nat, e: nat, y: nat, z: nat)
    requires Laid(hash, t, w) && Placeable(t, w, |hash|, x, e) && Main(t, e, |hash|) == x
    requires y < |hash| && (y == x || w.owner[y] >= 0) && z < |hash| && (z == x || w.owner[z] >= 0)
    requires e < |w.slot| && Owned(t, WithHead(w, x, e), |hash|)
    ensures Apart(t, WithHead(w, x, e), y, z, |hash|)
  {
    hide Counted, HashPart, Main;
    if y != x {
      assert Chained(hash, t, w, y);
    }
    if z != x {
      assert Chained(hash, t, w, z);
    }
    if y != x && z != x {
      assert Apart(t, w, y, z, |hash|);
    }
  }

  /** What `fillcolliding` does to the links. */
  ghost function Linked(hash: seq<Node>, m: nat, x: nat, n: Node): (h: seq<Node>)
    requires m < |hash| && x < |hash|
    ensures |h| == |hash|
  {
    hash[m := hash[m].(next := x, nocolliding := false)][x := n]
  }

  lemma LinkLaid(hash: seq<Node>, t: LuaTable, w: Layout, m: nat, x: nat, e: nat, n: Node)
    requires Laid(hash, t, w) && Placeable(t, w, |hash|, x, e) && Main(t, e, |hash|) == m
    requires w.owner[m] >= 0 && Main(t, w.owner[m], |hash|) == m
    requires n.next == hash[m].next && !n.nocolliding
    ensures Laid(Linked(hash, m, x, n), t, WithLink(w, m, x, e))
  {
    assert e < |w.slot|;
    hide Counted, HashPart, Main, AllChained, AllApart;
    OwnedMore(t, w, WithLink(w, m, x, e), |hash|, x, e);
    LinkAllChained(hash, t, w, m, x, e, n);
    LinkAllApart(hash, t, w, m, x, e, n);
  }

  lemma LinkAllChained(hash: seq<Node>, t: LuaTable, w: Layout, m: nat, x: nat, e: nat, n: Node)
    requires Laid(hash, t, w) && Placeable(t, w, |hash|, x, e) && Main(t, e, |hash|) == m
    requires w.owner[m] >= 0 && Main(t, w.owner[m], |hash|) == m
    requires n.next == hash[m].next && !n.nocolliding
    requires e < |w.slot| && Owned(t, WithLink(w, m, x, e), |hash|)
    ensures AllChained(Linked(hash, m, x, n), t, WithLink(w, m, x, e))
  {
    hide Counted, HashPart, Main, Chained, Apart, AllApart;
    var h, v := Linked(hash, m, x, n), WithLink(w, m, x, e);
    forall y | 0 <= y < |h| && v.owner[y] >= 0 ensures Chained(h, t, v, y) {
      LinkKeeps(hash, t, w, m, x, e, n, y);
    }
  }

  lemma LinkAllApart(hash: seq<Node>, t: LuaTable, w: Layout, m: nat, x: nat, e: nat, n: Node)
    requires Laid(hash, t, w) && Placeable(t, w, |hash|, x, e) && Main(t, e, |hash|) == m
    requires w.owner[m] >= 0 && Main(t, w.owner[m], |hash|) == m
    requires n.next == hash[m].next && !n.nocolliding
    requires e < |w.slot| && Owned(t, WithLink(w, m, x, e), |hash|)
    ensures AllApart(Linked(hash, m, x, n), t, WithLink(w, m, x, e))
  {
    hide Counted, HashPart, Main, Chained, Apart, AllChained;
    var h, v := Linked(hash, m, x, n), WithLink(w, m, x, e);
    forall y, z | 0 <= y < |h| && 0 <= z < |h| && v.owner[y] >= 0 && v.owner[z] >= 0 ensures Apart(t, v, y, z, |h|) {
      LinkApart(hash, t, w, m, x, e, y, z);
    }
  }

  lemma LinkKeeps(hash: seq<Node>, t: LuaTable, w: Layout, m: nat, x: nat, e: nat, n: Node, y: nat)
    requires Laid(hash, t, w) && Placeable(t, w, |hash|, x, e) && Main(t, e, |hash|) == m
    requires w.owner[m] >= 0 && Main(t, w.owner[m], |hash|) == m
    requires n.next == hash[m].next && !n.nocolliding
    requires y < |hash| && (y == x || w.owner[y] >= 0)
    requires e < |w.slot| && Owned(t, WithLink(w, m, x, e), |hash|)
    ensures Chained(Linked(hash, m, x, n), t, WithLink(w, m, x, e), y)
  {
    hide Counted, HashPart, Main;
    assert Chained(hash, t, w, m);
    if y != x {
      assert Chained(hash, t, w, y);
    }
  }

  lemma LinkApart(hash: seq<Node>, t: LuaTable, w: Layout, m: nat, x: nat, e: nat, y: nat, z: nat)
    requires Laid(hash, t, w) && Placeable(t, w, |hash|, x, e) && Main(t, e, |hash|) == m
    requires w.owner[m] >= 0 && Main(t, w.owner[m], |hash|) == m
    requires y < |hash| && (y == x || w.owner[y] >= 0) && z < |hash| && (z == x || w.owner[z] >= 0)
    requires e < |w.slot| && Owned(t, WithLink(w, m, x, e), |hash|)
    ensures Apart(t, WithLink(w, m, x, e), y, z, |hash|)
  {
    hide Counted, HashPart, Main;
    if y != x {
      assert Chained(hash, t, w, y) && Apart(t, w, y, m, |hash|);
    }
    if z != x {
      assert Chained(hash, t, w, z) && Apart(t, w, m, z, |hash|);
    }
    if y != x && z != x {
      assert Apart(t, w, y, z, |hash|);
    }
  }

  /** While an entry has no slot, some slot is empty. */
  lemma EmptySlot(t: LuaTable, w: Layout, size: nat, e: nat)
    requires Owned(t, w, size) && Counted(t, w, size) && size == |HashPart(t)|
    requires e in HashPart(t) && w.slot[e] == -1
    ensures exists x :: 0 <= x < size && w.owner[x] == -1
  {
    SubsetSize(w.placed, HashPart(t));
    assert Slots(size) != w.filled;
    var x :| x in Slots(size) && x !in w.filled;
    assert w.owner[x] == -1;
  }

  ghost function Slots(size: nat): (r: set<int>)
    ensures |r| == size && forall x :: x in r <==> 0 <= x < size
  {
    if size == 0 then {} else Slots(size - 1) + {size - 1}
  }

  /** Once every entry has a slot, no slot is empty. */
  lemma AllFilled(t: LuaTable, w: Layout, size: nat)
    requires Owned(t, w, size) && Counted(t, w, size) && size == |HashPart(t)| && w.placed == HashPart(t)
    ensures forall x :: 0 <= x < size ==> w.owner[x] >= 0
  {
    SubsetSize(w.filled, Slots(size));
  }
}
