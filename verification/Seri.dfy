/** The format of skynet/lualib-src/lua-seri.c: Lua values as bytes. */
module Seri {
  import opened Bytes
  import opened Remainders

  const MAX_COOKIE := 32
  const MAX_DEPTH := 32

  const TYPE_NIL := 0
  const TYPE_BOOLEAN := 1
  const TYPE_NUMBER := 2
  const TYPE_USERDATA := 3
  const TYPE_SHORT_STRING := 4
  const TYPE_LONG_STRING := 5
  const TYPE_TABLE := 6

  const NUMBER_ZERO := 0
  const NUMBER_BYTE := 1
  const NUMBER_WORD := 2
  const NUMBER_DWORD := 4
  const NUMBER_QWORD := 6
  const NUMBER_REAL := 8

  /** A floating point number and a pointer are their eight bytes. A table is the values at 1 up to
      its length, some of which may be nil, and its other entries in the order of `lua_next`. */
  datatype Value =
    | Nil
    | Boolean(b: bool)
    | Integer(n: int)
    | Real(bits: seq<byte>)
    | Pointer(bits: seq<byte>)
    | String(s: seq<byte>)
    | Table(items: seq<Value>, pairs: seq<Pair>)
    | Other

  datatype Pair = Pair(key: Value, value: Value)

  /** What a Lua value is like; lengths fit an `int`. */
  predicate Proper(v: Value) {
    match v
    case Integer(n) => -0x8000_0000_0000_0000 <= n < 0x8000_0000_0000_0000
    case Real(bits) => |bits| == 8
    case Pointer(bits) => |bits| == 8
    case String(s) => |s| < 0x8000_0000
    case Table(items, pairs) => |items| < 0x8000_0000 && AllProper(items) && AllProperPairs(pairs)
    case _ => true
  }

  predicate AllProper(items: seq<Value>) {
    forall i :: 0 <= i < |items| ==> Proper(items[i])
  }

  predicate AllProperPairs(pairs: seq<Pair>) {
    forall i :: 0 <= i < |pairs| ==> ProperPair(pairs[i])
  }

  /** Nothing is stored under nil or under a number that is not one. */
  predicate ProperPair(p: Pair) {
    p.key != Nil && !IsNaN(p.key) && Proper(p.key) && Proper(p.value)
  }

  /** Whether eight bytes, the lowest first, are not a number: all bits of the exponent are set, and
      one of the fraction (section 3.4 of IEEE 754). */
  predicate IsNaN(v: Value) {
    && v.Real? && |v.bits| == 8
    && v.bits[7] as int % 0x80 == 0x7f && v.bits[6] >= 0xf0
    && (v.bits[6] != 0xf0 || v.bits[..6] != [0, 0, 0, 0, 0, 0])
  }

  /** Nothing in the value has a type that cannot be packed, and tables are nested at most so
      deep that `depth` never goes beyond the limit. */
  predicate Packable(v: Value, depth: nat)
    decreases v
  {
    && depth <= MAX_DEPTH
    && !v.Other?
    && (v.Table? ==>
          && (forall i :: 0 <= i < |v.items| ==> Packable(v.items[i], depth + 1))
          && (forall i :: 0 <= i < |v.pairs| ==> PackablePair(v.pairs[i], depth + 1)))
  }

  predicate PackablePair(p: Pair, depth: nat)
    decreases p
  {
    Packable(p.key, depth) && Packable(p.value, depth)
  }

  // Numbers as bytes, the lowest first

  function Exp(k: nat): pos {
    if k == 0 then 1 else 0x100 * Exp(k - 1)
  }

  type pos = x: nat | 0 < x witness 1

  function Little(n: nat, k: nat): (r: seq<byte>)
    ensures |r| == k
  {
    if k == 0 then [] else [(n % 0x100) as byte] + Little(n / 0x100, k - 1)
  }

  function FromLittle(s: seq<byte>): (n: nat)
    ensures n < Exp(|s|)
  {
    if s == [] then 0 else s[0] as nat + 0x100 * FromLittle(s[1..])
  }

  lemma {:induction false} LittleBack(n: nat, k: nat)
    requires n < Exp(k)
    ensures FromLittle(Little(n, k)) == n
  {
    if k > 0 {
      assert Little(n, k)[1..] == Little(n / 0x100, k - 1);
      LittleBack(n / 0x100, k - 1);
    }
  }

  /** A bit pattern is not a number if and only if its exponent is 2047 and its fraction is not 0. */
  lemma NaNBits(bits: seq<byte>)
    requires |bits| == 8
    ensures var n := FromLittle(bits);
      IsNaN(Real(bits)) <==> n / 0x10_0000_0000_0000 % 0x800 == 0x7ff && n % 0x10_0000_0000_0000 != 0
  {
    var low, b6, b7 := FromLittle(bits[..6]), bits[6] as nat, bits[7] as nat;
    Upper(bits);
    LowZero(bits[..6]);
    var n := low + 0x1_0000_0000_0000 * (b6 + 0x100 * b7);
    assert n == (b6 % 0x10 * 0x1_0000_0000_0000 + low) + (b6 / 0x10 + 0x10 * b7) * 0x10_0000_0000_0000;
    ModIs(n, b6 % 0x10 * 0x1_0000_0000_0000 + low, b6 / 0x10 + 0x10 * b7, 0x10_0000_0000_0000);
    assert b6 / 0x10 + 0x10 * b7 == (b6 / 0x10 + 0x10 * (b7 % 0x80)) + b7 / 0x80 * 0x800;
    ModIs(b6 / 0x10 + 0x10 * b7, b6 / 0x10 + 0x10 * (b7 % 0x80), b7 / 0x80, 0x800);
  }

  lemma Upper(bits: seq<byte>)
    requires |bits| == 8
    ensures FromLittle(bits) == FromLittle(bits[..6]) + 0x1_0000_0000_0000 * (bits[6] as nat + 0x100 * bits[7] as nat)
    ensures FromLittle(bits[..6]) < 0x1_0000_0000_0000
  {
    Exps();
    assert Exp(6) == 0x1_0000_0000_0000;
    Join(bits, 6);
    assert bits[6..] == [bits[6], bits[7]];
    assert bits[6..][1..] == [bits[7]] && bits[6..][1..][1..] == [];
    assert FromLittle(bits[6..]) == bits[6] as nat + 0x100 * FromLittle(bits[6..][1..]);
  }

  lemma {:induction false} Join(s: seq<byte>, k: nat)
    requires k <= |s|
    ensures FromLittle(s) == FromLittle(s[..k]) + Exp(k) * FromLittle(s[k..])
  {
    if k > 0 {
      Join(s[1..], k - 1);
      assert s[..k][1..] == s[1..][..k - 1] && s[1..][k - 1..] == s[k..];
      Shifted(FromLittle(s[1..][..k - 1]), Exp(k - 1), FromLittle(s[k..]));
    } else {
      assert s[0..] == s;
    }
  }

  lemma Shifted(low: nat, e: nat, high: nat)
    ensures 0x100 * (low + e * high) == 0x100 * low + 0x100 * e * high
  {
    assert 0x100 * e * high == 0x100 * (e * high);
  }

  lemma {:induction false} LowZero(s: seq<byte>)
    ensures FromLittle(s) == 0 <==> forall i :: 0 <= i < |s| ==> s[i] == 0
  {
    if s != [] {
      LowZero(s[1..]);
      assert (forall i :: 0 <= i < |s| ==> s[i] == 0) ==> forall i :: 0 <= i < |s[1..]| ==> s[1..][i] == 0;
    }
  }

  /** What is read as a signed number of `k` bytes. */
  function Signed(s: seq<byte>): int {
    var n := FromLittle(s);
    if 2 * n < Exp(|s|) then n else n - Exp(|s|)
  }

  function Combine(t: nat, v: nat): byte
    requires t < 8 && v < 32
  {
    (t + 8 * v) as byte
  }

  // Packing

  /** `wb_integer` */
  function PackInteger(n: int): (r: seq<byte>)
    requires -0x8000_0000_0000_0000 <= n < 0x8000_0000_0000_0000
    ensures r != []
  {
    if n == 0 then [Combine(TYPE_NUMBER, NUMBER_ZERO)]
    else if !(-0x8000_0000 <= n < 0x8000_0000) then [Combine(TYPE_NUMBER, NUMBER_QWORD)] + Little(n % 0x1_0000_0000_0000_0000, 8)
    else if n < 0 then [Combine(TYPE_NUMBER, NUMBER_DWORD)] + Little(n % 0x1_0000_0000, 4)
    else if n < 0x100 then [Combine(TYPE_NUMBER, NUMBER_BYTE)] + Little(n, 1)
    else if n < 0x1_0000 then [Combine(TYPE_NUMBER, NUMBER_WORD)] + Little(n, 2)
    else [Combine(TYPE_NUMBER, NUMBER_DWORD)] + Little(n, 4)
  }

  /** `wb_string` */
  function PackString(s: seq<byte>): (r: seq<byte>)
    requires |s| < 0x8000_0000
    ensures r != []
  {
    if |s| < MAX_COOKIE then [Combine(TYPE_SHORT_STRING, |s|)] + s
    else if |s| < 0x1_0000 then [Combine(TYPE_LONG_STRING, 2)] + Little(|s|, 2) + s
    else [Combine(TYPE_LONG_STRING, 4)] + Little(|s|, 4) + s
  }

  /** The first bytes of a table. */
  function PackSize(n: nat): (r: seq<byte>)
    requires n < 0x8000_0000
    ensures r != []
  {
    if n >= MAX_COOKIE - 1 then [Combine(TYPE_TABLE, MAX_COOKIE - 1)] + PackInteger(n)
    else [Combine(TYPE_TABLE, n)]
  }

  /** The bytes of a value; of what cannot be packed there are none. */
  function Packed(v: Value): (r: seq<byte>)
    requires Proper(v)
    ensures !v.Other? ==> r != []
  {
    match v
    case Nil => [Combine(TYPE_NIL, 0)]
    case Boolean(b) => [Combine(TYPE_BOOLEAN, if b then 1 else 0)]
    case Integer(n) => PackInteger(n)
    case Real(bits) => [Combine(TYPE_NUMBER, NUMBER_REAL)] + bits
    case Pointer(bits) => [Combine(TYPE_USERDATA, 0)] + bits
    case String(s) => PackString(s)
    case Table(items, pairs) => PackSize(|items|) + PackedItems(items) + PackedPairs(pairs) + [Combine(TYPE_NIL, 0)]
    case Other => []
  }

  function PackedItems(items: seq<Value>): seq<byte>
    requires AllProper(items)
  {
    if items == [] then [] else Packed(items[0]) + PackedItems(items[1..])
  }

  function PackedPairs(pairs: seq<Pair>): seq<byte>
    requires AllProperPairs(pairs)
  {
    if pairs == [] then [] else PackedPair(pairs[0]) + PackedPairs(pairs[1..])
  }

  function PackedPair(p: Pair): seq<byte>
    requires ProperPair(p)
  {
    Packed(p.key) + Packed(p.value)
  }

  // The format byte by byte

  /** The first byte of a value: its type, and eight times what more it tells. */
  function FirstByte(v: Value): int {
    match v
    case Nil => 0x00
    case Boolean(b) => if b then 0x09 else 0x01
    case Integer(n) => FirstOfInteger(n)
    case Real(_) => 0x42
    case Pointer(_) => 0x03
    case String(s) => if |s| <= 31 then 4 + 8 * |s| else if |s| <= 0xffff then 0x15 else 0x25
    case Table(items, _) => if |items| <= 30 then 6 + 8 * |items| else 0xfe
    case Other => -1
  }

  function FirstOfInteger(n: int): int {
    if n == 0 then 0x02
    else if 0 < n <= 0xff then 0x0a
    else if 0 < n <= 0xffff then 0x12
    else if -0x8000_0000 <= n <= 0x7fff_ffff then 0x22
    else 0x32
  }

  /** How many bytes follow the first one of an integer. */
  function WidthOf(n: int): nat {
    if n == 0 then 0
    else if 0 < n <= 0xff then 1
    else if 0 < n <= 0xffff then 2
    else if -0x8000_0000 <= n <= 0x7fff_ffff then 4
    else 8
  }

  /** The bytes of a number that wraps at so many bytes, the lowest first. */
  lemma {:induction false} LittleDigit(n: nat, k: nat, i: nat)
    requires i < k
    ensures Little(n, k)[i] as nat == n / Exp(i) % 0x100
    decreases k
  {
    if i > 0 {
      LittleDigit(n / 0x100, k - 1, i - 1);
      DivDiv(n, 0x100, Exp(i - 1));
    }
  }

  lemma IntegerBytes(n: int)
    requires -0x8000_0000_0000_0000 <= n < 0x8000_0000_0000_0000
    ensures var s, k := PackInteger(n), WidthOf(n);
      s[0] as int == FirstOfInteger(n) && |s| == 1 + k && s[1..] == Little(n % Exp(k), k)
  {
    Exps();
    hide Little, Exp;
    if 0 < n {
      Small(n, WidthOf(n));
    }
  }

  lemma Small(n: nat, k: nat)
    requires n < Exp(k)
    ensures n % Exp(k) == n
  {
    ModIs(n, n, 0, Exp(k));
  }

  /** What every value begins with, and what follows. */
  predicate LaidOut(v: Value, s: seq<byte>)
    requires Proper(v)
  {
    s != [] && s[0] as int == FirstByte(v) && match v
      case Nil => |s| == 1
      case Boolean(_) => |s| == 1
      case Integer(n) => s[1..] == Little(n % Exp(WidthOf(n)), WidthOf(n))
      case Real(bits) => s[1..] == bits
      case Pointer(bits) => s[1..] == bits
      case String(x) => s[1..] == Little(|x|, if |x| <= 31 then 0 else if |x| <= 0xffff then 2 else 4) + x
      case Table(items, pairs) =>
        s[1..] == (if |items| <= 30 then [] else PackInteger(|items|)) + PackedItems(items) + PackedPairs(pairs) + [0]
      case Other => false
  }

  lemma StringLayout(v: Value)
    requires v.String? && Proper(v)
    ensures LaidOut(v, PackString(v.s))
  {
    hide Little;
    NoBytes(|v.s|);
  }

  lemma SizeLayout(n: nat)
    requires n < 0x8000_0000
    ensures var s := PackSize(n);
      s[0] as int == (if n <= 30 then 6 + 8 * n else 0xfe) && s[1..] == if n <= 30 then [] else PackInteger(n)
  {
    hide PackInteger;
  }

  lemma TableLayout(v: Value)
    requires v.Table? && Proper(v)
    ensures LaidOut(v, Packed(v))
  {
    hide PackedItems, PackedPairs, PackInteger, PackSize, AllProper, AllProperPairs;
    var size := PackSize(|v.items|);
    var rest := PackedItems(v.items) + PackedPairs(v.pairs) + [Combine(TYPE_NIL, 0)];
    SizeLayout(|v.items|);
    assert Packed(v) == size + rest;
    assert (size + rest)[1..] == size[1..] + rest;
  }

  /** The format of every value that can be packed. */
  lemma Layout(v: Value)
    requires Proper(v) && !v.Other?
    ensures LaidOut(v, Packed(v))
  {
    match v {
      case Integer(n) => IntegerBytes(n);
      case String(_) => StringLayout(v);
      case Table(_, _) => TableLayout(v);
      case _ =>
    }
  }

  lemma NoBytes(n: nat)
    ensures Little(n, 0) == []
  {
  }

  /** A value with `k` tables around it. */
  function Nested(k: nat): Value {
    if k == 0 then Nil else Table([Nested(k - 1)], [])
  }

  /** Tables may be nested 32 deep and no deeper. */
  lemma {:induction false} NestedPackable(k: nat, depth: nat)
    ensures Packable(Nested(k), depth) <==> depth + k <= 32
    decreases k
  {
    if k > 0 {
      NestedPackable(k - 1, depth + 1);
      assert Nested(k).items[0] == Nested(k - 1);
    }
  }

  // Unpacking

  datatype Result<T> = Ok(value: T, rest: seq<byte>) | Invalid

  /** `rb_read` */
  function Take(s: seq<byte>, k: nat): (r: Result<seq<byte>>)
    ensures r.Ok? <==> k <= |s|
    ensures r.Ok? ==> r.value == s[..k] && r.rest == s[k..]
  {
    if |s| < k then Invalid else Ok(s[..k], s[k..])
  }

  /** `get_integer` */
  function Number(s: seq<byte>, cookie: nat): (r: Result<int>)
    ensures r.Ok? ==> |r.rest| <= |s|
  {
    if cookie == NUMBER_ZERO then Ok(0, s)
    else if cookie == NUMBER_BYTE then Unsigned(s, 1)
    else if cookie == NUMBER_WORD then Unsigned(s, 2)
    else if cookie == NUMBER_DWORD then WithSign(s, 4)
    else if cookie == NUMBER_QWORD then WithSign(s, 8)
    else Invalid
  }

  function Unsigned(s: seq<byte>, k: nat): (r: Result<int>)
    ensures r.Ok? ==> |r.rest| <= |s|
  {
    var t := Take(s, k);
    if t.Invalid? then Invalid else Ok(FromLittle(t.value), t.rest)
  }

  function WithSign(s: seq<byte>, k: nat): (r: Result<int>)
    ensures r.Ok? ==> |r.rest| <= |s|
  {
    var t := Take(s, k);
    if t.Invalid? then Invalid else Ok(Signed(t.value), t.rest)
  }

  /** A length, then so many bytes. */
  function LongString(s: seq<byte>, k: nat): (r: Result<Value>)
    ensures r.Ok? ==> |r.rest| <= |s|
  {
    var t := Unsigned(s, k);
    if t.Invalid? || t.value < 0 then Invalid
    else
      var u := Take(t.rest, t.value);
      if u.Invalid? then Invalid else Ok(String(u.value), u.rest)
  }

  /** The number of array items of a table. */
  function Size(s: seq<byte>, cookie: nat): (r: Result<int>)
    ensures r.Ok? ==> |r.rest| <= |s|
  {
    if cookie != MAX_COOKIE - 1 then Ok(cookie, s)
    else if s == [] || s[0] as int % 8 != TYPE_NUMBER || s[0] as int / 8 == NUMBER_REAL then Invalid
    else
      var n := Number(s[1..], s[0] as int / 8);
      if n.Invalid? then Invalid else Ok(Int32(n.value), n.rest)
  }

  /** A conversion to `int` */
  function Int32(n: int): int {
    var m := n % 0x1_0000_0000;
    if m < 0x8000_0000 then m else m - 0x1_0000_0000
  }

  /** The conversion keeps what the lowest 32 bits say. */
  lemma Int32Wraps(n: int)
    ensures -0x8000_0000 <= Int32(n) < 0x8000_0000 && (n - Int32(n)) % 0x1_0000_0000 == 0
  {
    var q := n / 0x1_0000_0000;
    ModIs(n - Int32(n), 0, if Int32(n) < 0 then q + 1 else q, 0x1_0000_0000);
  }

  /** `push_value` */
  function Unpack(s: seq<byte>, t: nat, cookie: nat): (r: Result<Value>)
    ensures r.Ok? ==> |r.rest| <= |s|
    decreases |s|, 3
  {
    if t == TYPE_NIL then Ok(Nil, s)
    else if t == TYPE_BOOLEAN then Ok(Boolean(cookie != 0), s)
    else if t == TYPE_NUMBER then
      if cookie == NUMBER_REAL then
        var b := Take(s, 8);
        if b.Ok? then Ok(Real(b.value), b.rest) else Invalid
      else
        var n := Number(s, cookie);
        if n.Ok? then Ok(Integer(n.value), n.rest) else Invalid
    else if t == TYPE_USERDATA then
      var b := Take(s, 8);
      if b.Ok? then Ok(Pointer(b.value), b.rest) else Invalid
    else if t == TYPE_SHORT_STRING then
      var b := Take(s, cookie);
      if b.Ok? then Ok(String(b.value), b.rest) else Invalid
    else if t == TYPE_LONG_STRING then
      if cookie == 2 then LongString(s, 2) else if cookie == 4 then LongString(s, 4) else Invalid
    else if t == TYPE_TABLE then UnpackTable(s, cookie)
    else Invalid
  }

  /** `unpack_table` */
  function UnpackTable(s: seq<byte>, cookie: nat): (r: Result<Value>)
    ensures r.Ok? ==> |r.rest| <= |s|
    decreases |s|, 2
  {
    var n := Size(s, cookie);
    if n.Invalid? then Invalid
    else
      var items := UnpackItems(n.rest, n.value);
      if items.Invalid? then Invalid
      else
        var pairs := UnpackPairs(items.rest);
        if pairs.Invalid? then Invalid else Ok(Table(items.value, pairs.value), pairs.rest)
  }

  /** `unpack_one` */
  function UnpackOne(s: seq<byte>): (r: Result<Value>)
    ensures r.Ok? ==> |r.rest| < |s|
    decreases |s|, 0
  {
    if s == [] then Invalid else Unpack(s[1..], s[0] as int % 8, s[0] as int / 8)
  }

  function UnpackItems(s: seq<byte>, n: int): (r: Result<seq<Value>>)
    ensures r.Ok? ==> |r.rest| <= |s|
    decreases |s|, 1
  {
    if n <= 0 then Ok([], s)
    else
      var one := UnpackOne(s);
      if one.Invalid? then Invalid
      else
        var more := UnpackItems(one.rest, n - 1);
        if more.Invalid? then Invalid else Ok([one.value] + more.value, more.rest)
  }

  /** Entries up to a nil key; `lua_rawset` refuses a key that is not a number. */
  function UnpackPairs(s: seq<byte>): (r: Result<seq<Pair>>)
    ensures r.Ok? ==> |r.rest| <= |s|
    decreases |s|, 1
  {
    var key := UnpackOne(s);
    if key.Invalid? then Invalid
    else if key.value == Nil then Ok([], key.rest)
    else
      var value := UnpackOne(key.rest);
      if value.Invalid? || IsNaN(key.value) then Invalid
      else
        var more := UnpackPairs(value.rest);
        if more.Invalid? then Invalid else Ok([Pair(key.value, value.value)] + more.value, more.rest)
  }

  // Unpacking undoes packing

  lemma TakeAll(a: seq<byte>, rest: seq<byte>)
    ensures Take(a + rest, |a|) == Ok(a, rest)
  {
    assert (a + rest)[..|a|] == a && (a + rest)[|a|..] == rest;
  }

  lemma UnsignedBack(n: nat, k: nat, rest: seq<byte>)
    requires n < Exp(k)
    ensures Unsigned(Little(n, k) + rest, k) == Ok(n, rest)
  {
    TakeAll(Little(n, k), rest);
    LittleBack(n, k);
  }

  lemma Wrapped(n: int, e: int)
    requires 0 < e && 0 - e <= 2 * n < e
    ensures n % e == if n >= 0 then n else n + e
  {
    if n >= 0 {
      ModIs(n, n, 0, e);
    } else {
      ModIs(n, n + e, -1, e);
    }
  }

  lemma SignedBack(n: int, k: nat, rest: seq<byte>)
    requires 0 - Exp(k) <= 2 * n < Exp(k)
    ensures WithSign(Little(n % Exp(k), k) + rest, k) == Ok(n, rest)
  {
    Wrapped(n, Exp(k));
    var m := n % Exp(k);
    hide Exp, Little;
    TakeAll(Little(m, k), rest);
    LittleBack(m, k);
  }

  lemma Exps()
    ensures Exp(1) == 0x100 && Exp(2) == 0x1_0000 && Exp(4) == 0x1_0000_0000 && Exp(8) == 0x1_0000_0000_0000_0000
  {
    assert Exp(0) == 1;
    assert Exp(1) == 0x100 * Exp(0);
    assert Exp(2) == 0x100 * Exp(1);
    assert Exp(3) == 0x100 * Exp(2);
    assert Exp(4) == 0x100 * Exp(3);
    assert Exp(5) == 0x100 * Exp(4);
    assert Exp(6) == 0x100 * Exp(5);
    assert Exp(7) == 0x100 * Exp(6);
    assert Exp(8) == 0x100 * Exp(7);
  }

  /** The first byte of a packed value tells its type and its cookie. */
  lemma Split(t: nat, v: nat, a: seq<byte>, rest: seq<byte>)
    requires t < 8 && v < 32
    ensures ([Combine(t, v)] + a + rest)[1..] == a + rest
    ensures Combine(t, v) as int % 8 == t && Combine(t, v) as int / 8 == v
  {
  }

  lemma IntegerBack(n: int, rest: seq<byte>)
    requires -0x8000_0000_0000_0000 <= n < 0x8000_0000_0000_0000
    ensures var s := PackInteger(n);
      && s[0] as int % 8 == TYPE_NUMBER && s[0] as int / 8 != NUMBER_REAL
      && Number((s + rest)[1..], s[0] as int / 8) == Ok(n, rest)
  {
    hide Little, Unsigned, WithSign;
    var s := PackInteger(n);
    assert (s + rest)[1..] == s[1..] + rest;
    if n == 0 {
    } else if !(-0x8000_0000 <= n < 0x8000_0000) {
      QwordBack(n, rest);
      assert s[1..] == Little(n % 0x1_0000_0000_0000_0000, 8);
    } else if n < 0 {
      DwordBack(n, rest);
      assert s[1..] == Little(n % 0x1_0000_0000, 4);
    } else if n < 0x100 {
      WordsBack(n, 1, rest);
      assert s[1..] == Little(n, 1);
    } else if n < 0x1_0000 {
      WordsBack(n, 2, rest);
      assert s[1..] == Little(n, 2);
    } else {
      DwordBack(n, rest);
      assert s[1..] == Little(n % 0x1_0000_0000, 4);
    }
  }

  lemma QwordBack(n: int, rest: seq<byte>)
    requires -0x8000_0000_0000_0000 <= n < 0x8000_0000_0000_0000
    ensures WithSign(Little(n % 0x1_0000_0000_0000_0000, 8) + rest, 8) == Ok(n, rest)
  {
    Exps();
    SignedBack(n, 8, rest);
  }

  lemma DwordBack(n: int, rest: seq<byte>)
    requires -0x8000_0000 <= n < 0x8000_0000
    ensures WithSign(Little(n % 0x1_0000_0000, 4) + rest, 4) == Ok(n, rest)
    ensures n >= 0 ==> n % 0x1_0000_0000 == n
  {
    Exps();
    SignedBack(n, 4, rest);
  }

  lemma WordsBack(n: nat, k: nat, rest: seq<byte>)
    requires (k == 1 && n < 0x100) || (k == 2 && n < 0x1_0000)
    ensures Unsigned(Little(n, k) + rest, k) == Ok(n, rest)
  {
    Exps();
    UnsignedBack(n, k, rest);
  }

  lemma StringBack(x: seq<byte>, rest: seq<byte>)
    requires |x| < 0x8000_0000
    ensures UnpackOne(PackString(x) + rest) == Ok(String(x), rest)
  {
    hide Little, Unsigned, Exp, Combine, UnpackTable;
    Exps();
    TakeAll(x, rest);
    if |x| < MAX_COOKIE {
      Split(TYPE_SHORT_STRING, |x|, x, rest);
    } else {
      var k := if |x| < 0x1_0000 then 2 else 4;
      var size := Little(|x|, k);
      UnsignedBack(|x|, k, x + rest);
      Split(TYPE_LONG_STRING, k, size + x, rest);
      assert PackString(x) == [Combine(TYPE_LONG_STRING, k)] + (size + x);
      assert size + x + rest == size + (x + rest);
    }
  }

  lemma SizeBack(n: nat, rest: seq<byte>)
    requires n < 0x8000_0000
    ensures var s := PackSize(n);
      s[0] as int % 8 == TYPE_TABLE && Size((s + rest)[1..], s[0] as int / 8) == Ok(n, rest)
  {
    var s := PackSize(n);
    assert (s + rest)[1..] == s[1..] + rest;
    if n >= MAX_COOKIE - 1 {
      IntegerBack(n, rest);
      assert s[1..] == PackInteger(n);
      assert PackInteger(n) + rest == [PackInteger(n)[0]] + (PackInteger(n) + rest)[1..];
    } else {
      assert s[1..] + rest == rest;
    }
  }

  lemma NilBack(rest: seq<byte>)
    ensures UnpackOne([Combine(TYPE_NIL, 0)] + rest) == Ok(Nil, rest)
  {
    assert ([Combine(TYPE_NIL, 0)] + rest)[1..] == rest;
  }

  /** Every value that is packed is found again, whatever follows it, and exactly its bytes are
      used up. */
  lemma {:induction false} RoundTrip(v: Value, depth: nat, rest: seq<byte>)
    requires Proper(v) && Packable(v, depth)
    ensures UnpackOne(Packed(v) + rest) == Ok(v, rest)
    decreases v, 1
  {
    match v {
      case Nil => NilBack(rest);
      case Boolean(b) => Split(TYPE_BOOLEAN, if b then 1 else 0, [], rest);
      case Integer(n) =>
        IntegerBack(n, rest);
        var s := PackInteger(n);
        assert s + rest == [s[0]] + (s + rest)[1..];
      case Real(bits) =>
        Split(TYPE_NUMBER, NUMBER_REAL, bits, rest);
        TakeAll(bits, rest);
      case Pointer(bits) =>
        Split(TYPE_USERDATA, 0, bits, rest);
        TakeAll(bits, rest);
      case String(s) => StringBack(s, rest);
      case Table(items, pairs) => TableBack(v, depth, rest);
    }
  }

  lemma {:induction false} TableBack(v: Value, depth: nat, rest: seq<byte>)
    requires v.Table? && Proper(v) && Packable(v, depth)
    ensures UnpackOne(Packed(v) + rest) == Ok(v, rest)
    decreases v, 0
  {
    hide PackedItems, PackedPairs, PackSize, UnpackItems, UnpackPairs, Size;
    var size, items := PackSize(|v.items|), PackedItems(v.items);
    var end := [Combine(TYPE_NIL, 0)] + rest;
    var pairs := PackedPairs(v.pairs) + end;
    SizeBack(|v.items|, items + pairs);
    var s := Packed(v) + rest;
    assert s == size + (items + pairs);
    assert s[0] == size[0];
    ItemsBack(v.items, depth + 1, pairs);
    PairsBack(v.pairs, depth + 1, rest);
    assert UnpackTable(s[1..], s[0] as int / 8) == Ok(Table(v.items, v.pairs), rest);
  }

  lemma {:induction false} ItemsBack(items: seq<Value>, depth: nat, rest: seq<byte>)
    requires AllProper(items) && forall i :: 0 <= i < |items| ==> Packable(items[i], depth)
    ensures UnpackItems(PackedItems(items) + rest, |items|) == Ok(items, rest)
    decreases items
  {
    hide UnpackOne, Packed, Packable, Proper;
    if items == [] {
      assert PackedItems(items) + rest == rest;
    } else {
      var more := PackedItems(items[1..]) + rest;
      assert PackedItems(items) + rest == Packed(items[0]) + more;
      RoundTrip(items[0], depth, more);
      ItemsBack(items[1..], depth, rest);
      assert items == [items[0]] + items[1..];
    }
  }

  lemma {:induction false} PairsBack(pairs: seq<Pair>, depth: nat, rest: seq<byte>)
    requires AllProperPairs(pairs) && forall i :: 0 <= i < |pairs| ==> PackablePair(pairs[i], depth)
    ensures UnpackPairs(PackedPairs(pairs) + ([Combine(TYPE_NIL, 0)] + rest)) == Ok(pairs, rest)
    decreases pairs
  {
    hide UnpackOne, Packed;
    var end := [Combine(TYPE_NIL, 0)] + rest;
    if pairs == [] {
      assert PackedPairs(pairs) + end == end;
      NilBack(rest);
    } else {
      var p := pairs[0];
      var more := PackedPairs(pairs[1..]) + end;
      PairBack(p, depth, more);
      PairsBack(pairs[1..], depth, rest);
      assert PackedPairs(pairs) + end == Packed(p.key) + (Packed(p.value) + more);
      assert pairs == [p] + pairs[1..];
    }
  }

  lemma {:induction false} PairBack(p: Pair, depth: nat, rest: seq<byte>)
    requires ProperPair(p) && PackablePair(p, depth)
    ensures UnpackOne(Packed(p.key) + (Packed(p.value) + rest)) == Ok(p.key, Packed(p.value) + rest)
    ensures UnpackOne(Packed(p.value) + rest) == Ok(p.value, rest)
    decreases p
  {
    RoundTrip(p.key, depth, Packed(p.value) + rest);
    RoundTrip(p.value, depth, rest);
  }
}
