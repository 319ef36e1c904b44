/** Packing into a chain of blocks and unpacking from a buffer, as skynet/lualib-src/lua-seri.c
    does it, against the format. */
module SeriBlocks {
  import opened Bytes
  import opened Seri

  const BLOCK_SIZE := 128

  class Block {
    var buffer: seq<byte>
    var next: Block?
    /** The chain it is in, and its place there. */
    ghost var owner: WriteBlock?
    ghost var place: int

    /** `blk_alloc`; what the memory holds does not matter. */
    constructor (memory: seq<byte>)
      requires |memory| == BLOCK_SIZE
      ensures |buffer| == BLOCK_SIZE && next == null && owner == null
    {
      buffer, next, owner := memory, null, null;
    }

    /** `memcpy` into the block */
    method Copy(at: nat, data: seq<byte>)
      requires |buffer| == BLOCK_SIZE && at + |data| <= BLOCK_SIZE
      modifies this`buffer
      ensures |buffer| == BLOCK_SIZE && buffer[..at + |data|] == old(buffer[..at]) + data
    {
      buffer := buffer[..at] + data + buffer[at + |data|..];
    }
  }

  ghost function NextOf(chain: seq<Block>, i: nat): Block? {
    if i + 1 < |chain| then chain[i + 1] else null
  }

  class WriteBlock {
    const head: Block
    var current: Block
    var len: int
    var ptr: int
    ghost var chain: seq<Block>
    /** All bytes written. */
    ghost var bytes: seq<byte>

    ghost predicate Valid()
      reads this, chain
    {
      && 0 <= ptr <= BLOCK_SIZE
      && |chain| > 0 && chain[0] == head && chain[|chain| - 1] == current
      && len == |bytes| == BLOCK_SIZE * (|chain| - 1) + ptr
      && (forall i :: 0 <= i < |chain| ==>
            chain[i].owner == this && chain[i].place == i && |chain[i].buffer| == BLOCK_SIZE && Holds(i))
      && (forall i {:trigger chain[i].next} :: 0 <= i < |chain| ==> chain[i].next == NextOf(chain, i))
    }

    /** Block `i` has its part of the bytes. */
    ghost predicate Holds(i: nat)
      requires i < |chain| && |chain[i].buffer| == BLOCK_SIZE
      reads this, chain
    {
      if i + 1 < |chain| then BLOCK_SIZE * (i + 1) <= |bytes| && chain[i].buffer == bytes[BLOCK_SIZE * i..BLOCK_SIZE * (i + 1)]
      else 0 <= ptr <= BLOCK_SIZE && BLOCK_SIZE * i + ptr == |bytes| && chain[i].buffer[..ptr] == bytes[BLOCK_SIZE * i..]
    }

    /** `wb_init` */
    constructor (b: Block)
      requires |b.buffer| == BLOCK_SIZE && b.next == null
      modifies b
      ensures Valid() && bytes == [] && chain == [b]
    {
      head, current, len, ptr, chain, bytes := b, b, 0, 0, [b], [];
      new;
      b.owner, b.place := this, 0;
    }

    /** A new block when the last one is full. */
    method Grow()
      requires Valid() && ptr == BLOCK_SIZE
      modifies this`current, this`ptr, this`chain, current`next
      ensures Valid() && ptr == 0 && bytes == old(bytes) && fresh(current)
    {
      var b := new Block(seq(BLOCK_SIZE, i => 0));
      b.owner, b.place := this, |chain|;
      ghost var was := chain;
      current.next := b;
      current := b;
      ptr := 0;
      chain := chain + [b];
      LinkedOn(was, b);
      forall i | 0 <= i < |was| ensures Holds(i) {
        assert old(Holds(i)) && chain[i] == was[i];
      }
      assert chain[|was|] == b && Holds(|was|);
    }

    /** The links of a chain with one more block. */
    lemma LinkedOn(was: seq<Block>, b: Block)
      requires was != [] && b.next == null && was[|was| - 1].next == b
      requires forall i {:trigger was[i].next} :: 0 <= i < |was| - 1 ==> was[i].next == was[i + 1]
      ensures forall i {:trigger (was + [b])[i].next} :: 0 <= i < |was + [b]| ==> (was + [b])[i].next == NextOf(was + [b], i)
    {
      forall i | 0 <= i < |was + [b]| ensures (was + [b])[i].next == NextOf(was + [b], i) {
        if i < |was| {
          assert (was + [b])[i] == was[i];
        }
      }
    }

    /** What fits into the last block. */
    method Put(part: seq<byte>)
      requires Valid() && |part| <= BLOCK_SIZE - ptr
      modifies this`ptr, this`len, this`bytes, current`buffer
      ensures Valid() && bytes == old(bytes) + part && ptr == old(ptr) + |part|
    {
      current.Copy(ptr, part);
      ptr := ptr + |part|;
      len := len + |part|;
      bytes := bytes + part;
      forall i | 0 <= i < |chain| ensures Holds(i) {
        assert old(Holds(i));
        if i + 1 < |chain| {
          assert bytes[BLOCK_SIZE * i..BLOCK_SIZE * (i + 1)] == old(bytes)[BLOCK_SIZE * i..BLOCK_SIZE * (i + 1)];
        } else {
          assert bytes[BLOCK_SIZE * i..] == old(bytes)[BLOCK_SIZE * i..] + part;
        }
      }
    }

    /** `wb_push`: the bytes are appended, over as many blocks as it takes. */
    method Push(data: seq<byte>)
      requires Valid()
      modifies this, current
      ensures Valid() && bytes == old(bytes) + data && (current == old(current) || fresh(current))
    {
      var rest := data;
      if ptr == BLOCK_SIZE {
        Grow();
      }
      while ptr > BLOCK_SIZE - |rest|
        invariant Valid() && (current == old(current) || fresh(current))
        invariant bytes + rest == old(bytes) + data && ptr < BLOCK_SIZE
        decreases |rest|
      {
        var copy := BLOCK_SIZE - ptr;
        PutOne(bytes, rest, copy);
        Put(rest[..copy]);
        rest := rest[copy..];
        Grow();
      }
      Put(rest);
    }

    lemma Appended(before: seq<byte>, a: seq<byte>, b: seq<byte>, c: seq<byte>, d: seq<byte>)
      ensures before + a + b + c + d == before + (a + b + c + d)
      ensures d == [] ==> before + a + b + c == before + (a + b + c)
    {
      assert before + a + b == before + (a + b);
      assert before + (a + b) + c == before + (a + b + c);
    }

    lemma PutOne(done: seq<byte>, rest: seq<byte>, copy: nat)
      requires copy <= |rest|
      ensures done + rest[..copy] + rest[copy..] == done + rest
    {
      assert rest == rest[..copy] + rest[copy..];
    }

    /** `wb_integer` */
    method PutInteger(n: int)
      requires Valid() && -0x8000_0000_0000_0000 <= n < 0x8000_0000_0000_0000
      modifies this, current
      ensures Valid() && bytes == old(bytes) + PackInteger(n) && (current == old(current) || fresh(current))
    {
      hide Valid, Little;
      if n == 0 {
        Push([Combine(TYPE_NUMBER, NUMBER_ZERO)]);
      } else if !(-0x8000_0000 <= n < 0x8000_0000) {
        PutNumber(NUMBER_QWORD, Little(n % 0x1_0000_0000_0000_0000, 8));
      } else if n < 0 {
        PutNumber(NUMBER_DWORD, Little(n % 0x1_0000_0000, 4));
      } else if n < 0x100 {
        PutNumber(NUMBER_BYTE, Little(n, 1));
      } else if n < 0x1_0000 {
        PutNumber(NUMBER_WORD, Little(n, 2));
      } else {
        PutNumber(NUMBER_DWORD, Little(n, 4));
      }
    }

    method PutNumber(cookie: nat, bits: seq<byte>)
      requires Valid() && cookie < 32
      modifies this, current
      ensures Valid() && (current == old(current) || fresh(current))
      ensures bytes == old(bytes) + ([Combine(TYPE_NUMBER, cookie)] + bits)
    {
      hide Valid;
      Push([Combine(TYPE_NUMBER, cookie)]);
      Push(bits);
    }

    /** `wb_string` */
    method PutString(s: seq<byte>)
      requires Valid() && |s| < 0x8000_0000
      modifies this, current
      ensures Valid() && bytes == old(bytes) + PackString(s) && (current == old(current) || fresh(current))
    {
      hide Valid, Little;
      if |s| < MAX_COOKIE {
        Push([Combine(TYPE_SHORT_STRING, |s|)]);
        if |s| > 0 {
          Push(s);
        }
        assert bytes == old(bytes) + PackString(s);
      } else {
        PutLongString(if |s| < 0x1_0000 then 2 else 4, s);
      }
    }

    method PutLongString(k: nat, s: seq<byte>)
      requires Valid() && k < 32
      modifies this, current
      ensures Valid() && (current == old(current) || fresh(current))
      ensures bytes == old(bytes) + ([Combine(TYPE_LONG_STRING, k)] + Little(|s|, k) + s)
    {
      hide Valid, Little;
      ghost var before := bytes;
      Push([Combine(TYPE_LONG_STRING, k)]);
      Push(Little(|s|, k));
      Push(s);
      Appended(before, [Combine(TYPE_LONG_STRING, k)], Little(|s|, k), s, []);
    }

    /** The first bytes of `wb_table_array` */
    method PutSize(n: nat)
      requires Valid() && n < 0x8000_0000
      modifies this, current
      ensures Valid() && bytes == old(bytes) + PackSize(n) && (current == old(current) || fresh(current))
    {
      hide Valid, PackInteger;
      if n >= MAX_COOKIE - 1 {
        Push([Combine(TYPE_TABLE, MAX_COOKIE - 1)]);
        PutInteger(n);
      } else {
        Push([Combine(TYPE_TABLE, n)]);
      }
      assert bytes == old(bytes) + PackSize(n);
    }

    /** `pack_one`: appends the bytes of a value, or finds out that it has something that cannot be
        packed or lies too deep. */
    method PackOne(v: Value, depth: nat) returns (ok: bool)
      requires Valid() && Proper(v)
      modifies this, current
      ensures Valid() && (current == old(current) || fresh(current))
      ensures ok <==> Packable(v, depth)
      ensures ok ==> bytes == old(bytes) + Packed(v)
      decreases v, 1
    {
      hide Valid, PackInteger, PackString;
      ok := depth <= MAX_DEPTH;
      if !ok {
        return;
      }
      match v {
        case Nil => Push([Combine(TYPE_NIL, 0)]);
        case Boolean(b) => Push([Combine(TYPE_BOOLEAN, if b then 1 else 0)]);
        case Integer(n) => PutInteger(n);
        case Real(bits) =>
          Push([Combine(TYPE_NUMBER, NUMBER_REAL)]);
          Push(bits);
        case Pointer(bits) =>
          Push([Combine(TYPE_USERDATA, 0)]);
          Push(bits);
        case String(s) => PutString(s);
        case Table(_, _) => ok := PackTable(v, depth + 1);
        case Other => ok := false;
      }
    }

    /** `wb_table`, for a table without its own `__pairs` */
    method PackTable(v: Value, depth: nat) returns (ok: bool)
      requires Valid() && Proper(v) && v.Table?
      modifies this, current
      ensures Valid() && (current == old(current) || fresh(current))
      ensures ok <==> ((forall i :: 0 <= i < |v.items| ==> Packable(v.items[i], depth))
                       && (forall i :: 0 <= i < |v.pairs| ==> PackablePair(v.pairs[i], depth)))
      ensures ok ==> bytes == old(bytes) + Packed(v)
      decreases v, 0
    {
      hide Valid, Packable, PackSize, PackedItems, PackedPairs;
      ghost var before := bytes;
      PutSize(|v.items|);
      ok := PackItems(v.items, depth);
      if !ok {
        return;
      }
      ok := PackPairs(v.pairs, depth);
      if !ok {
        return;
      }
      Push([Combine(TYPE_NIL, 0)]);
      Appended(before, PackSize(|v.items|), PackedItems(v.items), PackedPairs(v.pairs), [Combine(TYPE_NIL, 0)]);
    }

    /** The loop of `wb_table_array` */
    method PackItems(items: seq<Value>, depth: nat) returns (ok: bool)
      requires Valid() && AllProper(items)
      modifies this, current
      ensures Valid() && (current == old(current) || fresh(current))
      ensures ok <==> forall i :: 0 <= i < |items| ==> Packable(items[i], depth)
      ensures ok ==> bytes == old(bytes) + PackedItems(items)
      decreases items, 0
    {
      hide Valid, Packable, Packed;
      assert items[0..] == items;
      for i := 0 to |items|
        invariant Valid() && (current == old(current) || fresh(current))
        invariant forall j :: 0 <= j < i ==> Packable(items[j], depth)
        invariant bytes + PackedItems(items[i..]) == old(bytes) + PackedItems(items)
      {
        ghost var before := bytes;
        ok := PackOne(items[i], depth);
        if !ok {
          return;
        }
        assert items[i..][1..] == items[i + 1..];
        assert before + (Packed(items[i]) + PackedItems(items[i + 1..])) == bytes + PackedItems(items[i + 1..]);
      }
      assert bytes + [] == bytes;
      ok := true;
    }

    /** The loop of `wb_table_hash` over the entries outside of the array */
    method PackPairs(pairs: seq<Pair>, depth: nat) returns (ok: bool)
      requires Valid() && AllProperPairs(pairs)
      modifies this, current
      ensures Valid() && (current == old(current) || fresh(current))
      ensures ok <==> forall i :: 0 <= i < |pairs| ==> PackablePair(pairs[i], depth)
      ensures ok ==> bytes == old(bytes) + PackedPairs(pairs)
      decreases pairs, 0
    {
      hide Valid, PackedPair, PackablePair;
      assert pairs[0..] == pairs;
      for i := 0 to |pairs|
        invariant Valid() && (current == old(current) || fresh(current))
        invariant forall j :: 0 <= j < i ==> PackablePair(pairs[j], depth)
        invariant bytes + PackedPairs(pairs[i..]) == old(bytes) + PackedPairs(pairs)
      {
        ghost var before := bytes;
        ok := PackPair(pairs[i], depth);
        if !ok {
          return;
        }
        assert pairs[i..][1..] == pairs[i + 1..];
        assert before + (PackedPair(pairs[i]) + PackedPairs(pairs[i + 1..])) == bytes + PackedPairs(pairs[i + 1..]);
      }
      assert bytes + [] == bytes;
      ok := true;
    }

    method PackPair(p: Pair, depth: nat) returns (ok: bool)
      requires Valid() && ProperPair(p)
      modifies this, current
      ensures Valid() && (current == old(current) || fresh(current))
      ensures ok <==> PackablePair(p, depth)
      ensures ok ==> bytes == old(bytes) + PackedPair(p)
      decreases p, 0
    {
      hide Valid, Packable, Packed;
      ok := PackOne(p.key, depth);
      if !ok {
        return;
      }
      ok := PackOne(p.value, depth);
      if ok {
        assert bytes == old(bytes) + (Packed(p.key) + Packed(p.value));
      }
    }

    /** `seri`: the bytes of all blocks in one buffer. */
    method Flatten() returns (buffer: seq<byte>)
      requires Valid()
      ensures buffer == bytes
    {
      buffer := [];
      var left := len;
      var b: Block? := head;
      ghost var i := 0;
      while left > 0
        invariant 0 <= left == |bytes| - |buffer| && |buffer| == BLOCK_SIZE * i
        invariant buffer == bytes[..|buffer|] && i <= |chain|
        invariant left > 0 ==> i < |chain| && b == chain[i]
      {
        assert Holds(i) && chain[i].next == NextOf(chain, i);
        if left >= BLOCK_SIZE {
          buffer := buffer + b.buffer;
          left := left - BLOCK_SIZE;
          b := b.next;
          i := i + 1;
        } else {
          assert i + 1 == |chain|;
          assert b.buffer[..left] == bytes[BLOCK_SIZE * i..];
          buffer := buffer + b.buffer[..left];
          return;
        }
      }
    }
  }

  class ReadBlock {
    const buffer: seq<byte>
    var len: int
    var ptr: int

    ghost predicate Valid()
      reads this
    {
      0 <= ptr && 0 <= len && ptr + len == |buffer|
    }

    /** What is still to be read. */
    ghost function Rest(): seq<byte>
      requires Valid()
      reads this
    {
      buffer[ptr..]
    }

    /** `rball_init` */
    constructor (buffer: seq<byte>)
      ensures Valid() && Rest() == buffer
    {
      this.buffer := buffer;
      len, ptr := |buffer|, 0;
    }

    /** `rb_read` */
    method Read(k: nat) returns (ok: bool, r: seq<byte>)
      requires Valid()
      modifies this
      ensures Valid() && ok == Take(old(Rest()), k).Ok?
      ensures if ok then Take(old(Rest()), k) == Ok(r, Rest()) else Rest() == old(Rest())
    {
      if len < k {
        return false, [];
      }
      r := buffer[ptr..ptr + k];
      assert r == Rest()[..k] && buffer[ptr + k..] == Rest()[k..];
      ptr := ptr + k;
      len := len - k;
      ok := true;
    }

    /** `get_integer` */
    method GetInteger(cookie: nat) returns (ok: bool, n: int)
      requires Valid()
      modifies this
      ensures Valid() && ok == Number(old(Rest()), cookie).Ok?
      ensures ok ==> Number(old(Rest()), cookie) == Ok(n, Rest())
    {
      var size := if cookie == NUMBER_BYTE then 1 else if cookie == NUMBER_WORD then 2
                  else if cookie == NUMBER_DWORD then 4 else if cookie == NUMBER_QWORD then 8 else 0;
      if size == 0 {
        return cookie == NUMBER_ZERO, 0;
      }
      var r;
      n := 0;
      ok, r := Read(size);
      if ok {
        n := if size <= 2 then FromLittle(r) else Signed(r);
      }
    }

    /** `get_buffer` behind a length of `k` bytes */
    method GetLongString(k: nat) returns (ok: bool, v: Value)
      requires Valid()
      modifies this
      ensures Valid() && ok == LongString(old(Rest()), k).Ok?
      ensures ok ==> LongString(old(Rest()), k) == Ok(v, Rest())
    {
      var size, s;
      v := Nil;
      ok, size := Read(k);
      if ok {
        ok, s := Read(FromLittle(size));
        v := String(s);
      }
    }

    /** The start of `unpack_table`: the number of array items. */
    method GetSize(cookie: nat) returns (ok: bool, n: int)
      requires Valid()
      modifies this
      ensures Valid() && ok == Size(old(Rest()), cookie).Ok?
      ensures ok ==> Size(old(Rest()), cookie) == Ok(n, Rest())
    {
      n := cookie;
      ok := true;
      if cookie == MAX_COOKIE - 1 {
        var t;
        ok, t := Read(1);
        if !ok || t[0] as int % 8 != TYPE_NUMBER || t[0] as int / 8 == NUMBER_REAL {
          return false, 0;
        }
        ok, n := GetInteger(t[0] as int / 8);
        n := Int32(n);
      }
    }

    /** `push_value` */
    method GetValue(t: nat, cookie: nat) returns (ok: bool, v: Value)
      requires Valid()
      modifies this
      ensures Valid() && ok == Unpack(old(Rest()), t, cookie).Ok?
      ensures ok ==> Unpack(old(Rest()), t, cookie) == Ok(v, Rest())
      decreases len, 3
    {
      hide Take, Number, LongString, UnpackTable;
      ok, v := true, Nil;
      var r;
      if t == TYPE_NIL {
      } else if t == TYPE_BOOLEAN {
        v := Boolean(cookie != 0);
      } else if t == TYPE_NUMBER {
        if cookie == NUMBER_REAL {
          ok, r := Read(8);
          v := Real(r);
        } else {
          var n;
          ok, n := GetInteger(cookie);
          v := Integer(n);
        }
      } else if t == TYPE_USERDATA {
        ok, r := Read(8);
        v := Pointer(r);
      } else if t == TYPE_SHORT_STRING {
        ok, r := Read(cookie);
        v := String(r);
      } else if t == TYPE_LONG_STRING {
        if cookie == 2 || cookie == 4 {
          ok, v := GetLongString(cookie);
        } else {
          ok := false;
        }
      } else if t == TYPE_TABLE {
        ok, v := GetTable(cookie);
      } else {
        ok := false;
      }
    }

    /** `unpack_one` */
    method GetOne() returns (ok: bool, v: Value)
      requires Valid()
      modifies this
      ensures Valid() && ok == UnpackOne(old(Rest())).Ok?
      ensures ok ==> UnpackOne(old(Rest())) == Ok(v, Rest())
      decreases len, 0
    {
      var t;
      ok, t := Read(1);
      if !ok {
        return false, Nil;
      }
      ok, v := GetValue(t[0] as int % 8, t[0] as int / 8);
    }

    /** `unpack_table` */
    method GetTable(cookie: nat) returns (ok: bool, v: Value)
      requires Valid()
      modifies this
      ensures Valid() && ok == UnpackTable(old(Rest()), cookie).Ok?
      ensures ok ==> UnpackTable(old(Rest()), cookie) == Ok(v, Rest())
      decreases len, 2
    {
      hide Size, UnpackItems, UnpackPairs;
      var n, items, pairs;
      ok, n := GetSize(cookie);
      if !ok {
        return false, Nil;
      }
      ok, items := GetItems(n);
      if !ok {
        return false, Nil;
      }
      ok, pairs := GetPairs();
      v := Table(items, pairs);
    }

    /** The loop over the array items */
    method GetItems(n: int) returns (ok: bool, items: seq<Value>)
      requires Valid()
      modifies this
      ensures Valid() && ok == UnpackItems(old(Rest()), n).Ok?
      ensures ok ==> UnpackItems(old(Rest()), n) == Ok(items, Rest())
      decreases len, 1
    {
      hide UnpackOne;
      items := [];
      var i := 1;
      BeforeNone(items, UnpackItems(Rest(), n), []);
      while i <= n
        invariant Valid() && |Rest()| <= |old(Rest())| && (n >= 1 ==> 1 <= i <= n + 1)
        invariant UnpackItems(old(Rest()), n) == Before(items, UnpackItems(Rest(), n + 1 - i))
      {
        ghost var s := Rest();
        var v;
        ok, v := GetOne();
        if !ok {
          return;
        }
        BeforeOne(items, v, UnpackItems(Rest(), n - i));
        items := items + [v];
        i := i + 1;
      }
      BeforeNone([], UnpackItems(Rest(), n + 1 - i), items);
      ok := true;
    }

    /** The loop over the entries */
    method GetPairs() returns (ok: bool, pairs: seq<Pair>)
      requires Valid()
      modifies this
      ensures Valid() && ok == UnpackPairs(old(Rest())).Ok?
      ensures ok ==> UnpackPairs(old(Rest())) == Ok(pairs, Rest())
      decreases len, 1
    {
      hide UnpackOne;
      pairs := [];
      BeforeNone(pairs, UnpackPairs(Rest()), []);
      while true
        invariant Valid() && |Rest()| <= |old(Rest())|
        invariant UnpackPairs(old(Rest())) == Before(pairs, UnpackPairs(Rest()))
        decreases |Rest()|
      {
        var key, value;
        ok, key := GetOne();
        if !ok {
          return;
        }
        if key == Nil {
          BeforeNone([], Ok([], Rest()), pairs);
          return;
        }
        ok, value := GetOne();
        if !ok {
          return;
        }
        if IsNaN(key) {
          ok := false;
          return;
        }
        BeforeOne(pairs, Pair(key, value), UnpackPairs(Rest()));
        pairs := pairs + [Pair(key, value)];
      }
    }
  }

  /** A result behind what was there before. */
  ghost function Before<T>(done: seq<T>, r: Result<seq<T>>): Result<seq<T>> {
    if r.Ok? then Ok(done + r.value, r.rest) else Invalid
  }

  lemma BeforeNone<T>(none: seq<T>, r: Result<seq<T>>, done: seq<T>)
    requires none == []
    ensures Before(none, r) == r
    ensures r.Ok? && r.value == [] ==> Before(done, r) == Ok(done, r.rest)
  {
    if r.Ok? {
      assert none + r.value == r.value;
      assert r.value == [] ==> done + r.value == done;
    }
  }

  lemma BeforeOne<T>(done: seq<T>, one: T, r: Result<seq<T>>)
    ensures Before(done, Before([one], r)) == Before(done + [one], r)
  {
    if r.Ok? {
      assert done + ([one] + r.value) == done + [one] + r.value;
    }
  }

  // Whole messages

  predicate PackableAll(values: seq<Value>) {
    forall i :: 0 <= i < |values| ==> Packable(values[i], 0)
  }

  /** `luaseri_pack` */
  method Serialize(values: seq<Value>) returns (ok: bool, message: seq<byte>)
    requires AllProper(values)
    ensures ok <==> PackableAll(values)
    ensures ok ==> message == PackedItems(values)
  {
    hide Packable;
    var temp := new Block(seq(BLOCK_SIZE, i => 0));
    var wb := new WriteBlock(temp);
    ok := wb.PackItems(values, 0);
    message := [];
    if ok {
      message := wb.Flatten();
    }
  }

  /** When the message is made of packed values, those read so far are the first of them, and what
      is left are the others. */
  ghost predicate ReadSoFar(message: seq<byte>, values: seq<Value>, rest: seq<byte>) {
    forall vs :: MadeOf(message, vs) ==> values <= vs && rest == PackedItems(vs[|values|..])
  }

  ghost predicate MadeOf(message: seq<byte>, vs: seq<Value>) {
    AllProper(vs) && PackableAll(vs) && PackedItems(vs) == message
  }

  /** `luaseri_unpack` */
  method Deserialize(message: seq<byte>) returns (ok: bool, values: seq<Value>)
    ensures forall vs :: MadeOf(message, vs) ==> ok && values == vs
  {
    hide ReadSoFar, MadeOf, UnpackOne;
    var rb := new ReadBlock(message);
    values := [];
    StartReading(message);
    while rb.len > 0
      invariant rb.Valid() && ReadSoFar(message, values, rb.Rest())
      decreases rb.len
    {
      ghost var before := rb.Rest();
      var v;
      ok, v := rb.GetOne();
      ReadNext(message, values, before);
      if !ok {
        return;
      }
      values := values + [v];
    }
    ok := true;
    assert rb.Rest() == [];
    ReadAll(message, values);
  }

  lemma StartReading(message: seq<byte>)
    ensures ReadSoFar(message, [], message)
  {
    forall vs | MadeOf(message, vs) ensures message == PackedItems(vs[0..]) {
      assert vs[0..] == vs;
    }
  }

  lemma ReadNext(message: seq<byte>, values: seq<Value>, rest: seq<byte>)
    requires ReadSoFar(message, values, rest) && rest != []
    ensures UnpackOne(rest).Ok? ==> ReadSoFar(message, values + [UnpackOne(rest).value], UnpackOne(rest).rest)
    ensures !UnpackOne(rest).Ok? ==> forall vs :: !MadeOf(message, vs)
  {
    hide UnpackOne, PackableAll;
    forall vs | MadeOf(message, vs)
      ensures UnpackOne(rest).Ok? && values + [UnpackOne(rest).value] <= vs
      ensures UnpackOne(rest).rest == PackedItems(vs[|values| + 1..])
    {
      NextBack(vs, |values|);
    }
  }

  lemma ReadAll(message: seq<byte>, values: seq<Value>)
    requires ReadSoFar(message, values, [])
    ensures forall vs :: MadeOf(message, vs) ==> values == vs
  {
    forall vs | MadeOf(message, vs) ensures values == vs {
      if |values| < |vs| {
        SomethingLeft(vs, |values|);
      }
    }
  }

  lemma NextBack(vs: seq<Value>, i: nat)
    requires AllProper(vs) && PackableAll(vs) && i <= |vs| && PackedItems(vs[i..]) != []
    ensures i < |vs| && UnpackOne(PackedItems(vs[i..])) == Ok(vs[i], PackedItems(vs[i + 1..]))
  {
    assert vs[i..][1..] == vs[i + 1..];
    RoundTrip(vs[i], 0, PackedItems(vs[i + 1..]));
  }

  lemma SomethingLeft(vs: seq<Value>, i: nat)
    requires AllProper(vs) && PackableAll(vs) && i < |vs|
    ensures PackedItems(vs[i..]) != []
  {
    assert Packable(vs[i], 0) && vs[i..][0] == vs[i];
  }

  /** What was serialized is deserialized again, for all values that can be. */
  method ThereAndBack(values: seq<Value>) returns (ok: bool, back: seq<Value>)
    requires AllProper(values) && PackableAll(values)
    ensures ok && back == values
  {
    var message;
    ok, message := Serialize(values);
    assert MadeOf(message, values);
    ok, back := Deserialize(message);
  }
}
