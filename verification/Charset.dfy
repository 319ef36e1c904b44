/** Sets of bytes, as `Charset` in skynet/3rd/lpeg/lptypes.h: patterns and instructions
    use them as mathematical sets. */
module Charset {
  import opened Sets

  type Byte = x: int | 0 <= x < 256

  type Charset = set<Byte>

  predicate InRange(c: int) {
    0 <= c < 256
  }

  /** The set of all bytes (`fullset`). */
  function FullSet(): (full: Charset)
    ensures forall c: Byte :: c in full
  {
    set c: Byte | 0 <= c < 256 && InRange(c)
  }

  ghost function Below(n: nat): (r: Charset)
    requires n <= 256
    ensures forall c: Byte :: c in r <==> c < n
    ensures |r| == n
  {
    if n == 0 then {} else Below(n - 1) + {n - 1}
  }

  lemma SingletonMember(cs: Charset, c: Byte)
    requires |cs| == 1 && c in cs
    ensures cs == {c}
  {
    if {c} < cs {
      SubsetSize({c}, cs);
    }
  }

  lemma FullBySize(cs: Charset)
    ensures |cs| <= 256
    ensures |cs| == 256 <==> cs == FullSet()
  {
    var n := 256;
    assert FullSet() == Below(n);
    if cs < FullSet() {
      SubsetSize(cs, FullSet());
    } else {
      assert cs == FullSet();
    }
  }

  /** What `charsettype` answers: IFail, IChar (with the character), IAny or ISet. */
  datatype Kind = EmptySet | Singleton(c: Byte) | Full | General

  function KindOf(cs: Charset): (k: Kind)
    ensures k.EmptySet? <==> cs == {}
    ensures k.Singleton? ==> cs == {k.c}
    ensures k.Full? <==> cs == FullSet()
    ensures k.General? ==> |cs| >= 2
  {
    FullBySize(cs);
    if |cs| == 0 then EmptySet
    else if |cs| == 1 then
      assert forall c, d :: c in cs && d in cs ==> c == d by {
        forall c, d | c in cs && d in cs
          ensures c == d
        {
          SingletonMember(cs, c);
        }
      }
      var c :| c in cs;
      SingletonMember(cs, c);
      Singleton(c)
    else if |cs| == 256 then Full
    else General
  }
}
