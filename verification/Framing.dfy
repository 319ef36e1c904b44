/** Packages in a stream of bytes: each is preceded by its length, in two bytes, the high one
    first (skynet/lualib-src/lua-netpack.c). */
module Framing {
  import opened Bytes

  type Package = seq<byte>

  function Size(s: seq<byte>): (r: nat)
    requires |s| >= 2
    ensures r < 0x10000
  {
    s[0] as nat * 0x100 + s[1] as nat
  }

  /** Whether the stream starts with a whole package. */
  predicate Whole(s: seq<byte>) {
    |s| >= 2 && |s| - 2 >= Size(s)
  }

  /** The packages that the stream has whole. */
  function Packages(s: seq<byte>): seq<Package>
    decreases |s|
  {
    if Whole(s) then [s[2..2 + Size(s)]] + Packages(s[2 + Size(s)..]) else []
  }

  /** What is left behind them. */
  function Remainder(s: seq<byte>): (r: seq<byte>)
    ensures !Whole(r)
    decreases |s|
  {
    if Whole(s) then Remainder(s[2 + Size(s)..]) else s
  }

  /** More bytes continue with the remainder. */
  lemma {:induction false} Continue(s: seq<byte>, d: seq<byte>)
    ensures Packages(s + d) == Packages(s) + Packages(Remainder(s) + d)
    ensures Remainder(s + d) == Remainder(Remainder(s) + d)
    decreases |s|
  {
    if Whole(s) {
      var n := 2 + Size(s);
      assert (s + d)[2..n] == s[2..n] && (s + d)[n..] == s[n..] + d;
      Continue(s[n..], d);
    }
  }

  /** A stream that starts with a package. */
  lemma First(s: seq<byte>, body: Package, tail: seq<byte>)
    requires |s| >= 2 && Size(s) == |body| && s[2..] == body + tail
    ensures Packages(s) == [body] + Packages(tail) && Remainder(s) == Remainder(tail)
  {
    assert s[2..2 + Size(s)] == s[2..][..|body|] == body;
    assert s[2 + Size(s)..] == s[2..][|body|..] == tail;
  }

  /** The bytes sent for packages. */
  function Stream(ps: seq<Package>): seq<byte>
    requires forall i :: 0 <= i < |ps| ==> |ps[i]| < 0x10000
  {
    if ps == [] then [] else Packed(ps[0]) + Stream(ps[1..])
  }

  function Packed(p: Package): (r: seq<byte>)
    requires |p| < 0x10000
  {
    [(|p| / 0x100) as byte, (|p| % 0x100) as byte] + p
  }

  /** What was packed is found again. */
  lemma {:induction false} Unpacked(ps: seq<Package>)
    requires forall i :: 0 <= i < |ps| ==> |ps[i]| < 0x10000
    ensures Packages(Stream(ps)) == ps && Remainder(Stream(ps)) == []
  {
    if ps != [] {
      var s := Stream(ps);
      assert s[2..] == ps[0] + Stream(ps[1..]);
      First(s, ps[0], Stream(ps[1..]));
      Unpacked(ps[1..]);
    }
  }

  /** `lpack` */
  method Pack(data: seq<byte>) returns (ok: bool, r: seq<byte>)
    ensures ok <==> |data| < 0x10000
    ensures ok ==> r == Packed(data)
  {
    if |data| >= 0x10000 {
      return false, [];
    }
    r := [(|data| / 0x100) as byte, (|data| % 0x100) as byte] + data;
    ok := true;
  }
}
