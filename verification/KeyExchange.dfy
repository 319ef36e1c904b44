/** The key exchange of skynet/lualib-src/lua-crypt.c: powers modulo the largest prime below
    2^64, computed on words of 64 bits that wrap. */
module KeyExchange {
  import opened Bytes
  import opened Remainders

  const WORD := 0x1_0000_0000_0000_0000
  const P := 0xffff_ffff_ffff_ffc5
  const G := 5

  datatype Result<T> = Ok(value: T) | Err(message: string)

  function Wrap(x: int): nat {
    x % WORD
  }

  function Pow(a: nat, b: nat): nat {
    if b == 0 then 1 else a * Pow(a, b - 1)
  }

  // Powers

  lemma {:induction false} PowAdd(a: nat, b: nat, c: nat)
    ensures Pow(a, b + c) == Pow(a, b) * Pow(a, c)
  {
    if b > 0 {
      PowAdd(a, b - 1, c);
      calc {
        Pow(a, b + c);
        a * Pow(a, b - 1 + c);
        a * (Pow(a, b - 1) * Pow(a, c));
        (a * Pow(a, b - 1)) * Pow(a, c);
        Pow(a, b) * Pow(a, c);
      }
    }
  }

  lemma {:induction false} PowPow(a: nat, b: nat, c: nat)
    ensures Pow(Pow(a, b), c) == Pow(a, b * c)
  {
    if c > 0 {
      PowPow(a, b, c - 1);
      PowAdd(a, b, b * (c - 1));
      assert b + b * (c - 1) == b * c;
    } else {
      assert b * c == 0;
    }
  }

  /** The base may be reduced first. */
  lemma {:induction false} PowMod(a: nat, b: nat)
    ensures Pow(a % P, b) % P == Pow(a, b) % P
  {
    if b > 0 {
      PowMod(a, b - 1);
      ModTimes(a, Pow(a % P, b - 1), P);
      ModTimesBoth(a, Pow(a % P, b - 1), P);
      ModTimesBoth(a, Pow(a, b - 1), P);
    }
  }

  lemma {:induction false} PowHalf(a: nat, b: nat)
    requires b >= 1
    ensures Pow(a, b) == Pow(a, b / 2) * Pow(a, b / 2) * Pow(a, b % 2)
  {
    PowAdd(a, b / 2, b / 2);
    PowAdd(a, b / 2 + b / 2, b % 2);
  }

  /** What a round of `mul_mod_p` keeps, when it adds `a` to the sum if the lowest bit of
      the other factor is set, taking off `P` for `u` being 1, and doubles `a`, taking off `P`
      for `z` being 1. */
  lemma RoundKeeps(a: nat, b: nat, m: int, k: int, u: nat, z: nat)
    ensures a * b + m + k * P
         == (2 * a - z * P) * (b / 2) + (m + (b % 2) * a - u * P) + (k + u + z * (b / 2)) * P
  {
    var h, c := b / 2, b % 2;
    assert b == 2 * h + c;
    assert a * b == 2 * (a * h) + c * a by { Split(a, h, c); }
    assert (2 * a - z * P) * h == 2 * (a * h) - z * h * P by { Distribute(a, h, z); }
    assert (k + u + z * h) * P == k * P + u * P + z * h * P;
  }

  lemma Split(a: nat, h: nat, c: nat)
    ensures a * (2 * h + c) == 2 * (a * h) + c * a
  {
  }

  lemma Distribute(a: nat, h: nat, z: nat)
    ensures (2 * a - z * P) * h == 2 * (a * h) - z * h * P
  {
    assert (2 * a - z * P) * h == (2 * a) * h - (z * P) * h;
  }

  /** The sum of a round: at most one `P` is taken off, and no word wraps. */
  method Add(a: nat, m: nat) returns (r: nat, ghost u: nat)
    requires a <= P && m < P
    ensures r < P && r == m + a - u * P
  {
    var t := Wrap(P - a);
    if m >= t {
      r := Wrap(m - t);
      u := 1;
    } else {
      r := Wrap(m + a);
      u := 0;
    }
  }

  method Double(a: nat) returns (r: nat, ghost z: nat)
    requires a <= P
    ensures r <= P && r == 2 * a - z * P
  {
    if a >= Wrap(P - a) {
      r := Wrap(Wrap(a * 2) - P);
      z := 1;
    } else {
      r := Wrap(a * 2);
      z := 0;
    }
  }

  ghost function TimesP(a: nat, b: nat): (r: nat)
    ensures r < P
  {
    (a * b) % P
  }

  /** `mul_mod_p`, for factors up to and including `P`. */
  method MulModP(a0: nat, b0: nat) returns (m: nat)
    requires a0 <= P && b0 < WORD
    ensures m == TimesP(a0, b0)
  {
    var a: nat, b: nat := a0, b0;
    m := 0;
    ghost var k: nat := 0;
    while b != 0
      invariant a <= P && m < P && b < WORD
      invariant a0 * b0 == a * b + m + k * P
    {
      ghost var u: nat, z: nat := 0, 0;
      ghost var a1, m1 := a, m;
      if b % 2 == 1 {
        m, u := Add(a, m);
        assert (b % 2) * a == a;
      } else {
        assert (b % 2) * a == 0;
      }
      assert m == m1 + (b % 2) * a1 - u * P;
      a, z := Double(a);
      RoundKeeps(a1, b, m1, k, u, z);
      k := k + u + z * (b / 2);
      b := b / 2;
    }
    ModIs(a0 * b0, m, k, P);
  }

  /** A square and at most one more factor, of a half power that was reduced. */
  lemma SquareMod(a: nat, b: nat, t: nat)
    requires b >= 1 && t % P == Pow(a, b / 2) % P
    ensures b % 2 == 0 ==> TimesP(t, t) == Pow(a, b) % P
    ensures b % 2 == 1 ==> TimesP(TimesP(t, t), a) == Pow(a, b) % P
  {
    var h := Pow(a, b / 2);
    ModTimesBoth(t, t, P);
    ModTimesBoth(h, h, P);
    ModTimes(t * t, a, P);
    ModTimes(h * h, a, P);
    PowHalf(a, b);
    PowOne(a);
  }

  lemma PowOne(a: nat)
    ensures Pow(a, 1) == a && Pow(a, 0) == 1
  {
    assert Pow(a, 1) == a * Pow(a, 0);
  }

  /** `pow_mod_p` */
  method PowModP(a: nat, b: nat) returns (r: nat)
    requires a <= P && 1 <= b < WORD
    ensures r <= P && r % P == Pow(a, b) % P
    ensures r == P <==> a == P && b == 1
    decreases b
  {
    hide Pow, TimesP;
    if b == 1 {
      PowOne(a);
      return a;
    }
    var t := PowModP(a, b / 2);
    SquareMod(a, b, t);
    t := MulModP(t, t);
    if b % 2 == 1 {
      t := MulModP(t, a);
    }
    r := t;
  }

  /** `powmodp`: the power modulo `P`, but for the one base that is not reduced. */
  method PowModWord(a: nat, b: nat) returns (r: nat)
    requires a < WORD && 1 <= b < WORD
    ensures r == Pow(a, b) % P <==> !(a == P && b == 1)
    ensures r == P <==> a == P && b == 1
  {
    var x := a;
    if x > P {
      x := x % P;
    }
    r := PowModP(x, b);
    PowMod(a, b);
    PowMod(x, b);
  }

  // Words as eight bytes, the lowest first

  function Word(x: seq<byte>): (r: nat)
    ensures |x| == 8 ==> r < WORD
  {
    if |x| == 8 then
      (x[0] as nat + 0x100 * x[1] as nat + 0x1_0000 * x[2] as nat + 0x100_0000 * x[3] as nat)
      + 0x1_0000_0000 * (x[4] as nat + 0x100 * x[5] as nat + 0x1_0000 * x[6] as nat + 0x100_0000 * x[7] as nat)
    else 0
  }

  /** `push64` */
  function ToBytes(r: nat): (x: seq<byte>)
    requires r < WORD
    ensures |x| == 8
  {
    [(r % 0x100) as byte, (r / 0x100 % 0x100) as byte, (r / 0x1_0000 % 0x100) as byte,
     (r / 0x100_0000 % 0x100) as byte, (r / 0x1_0000_0000 % 0x100) as byte,
     (r / 0x100_0000_0000 % 0x100) as byte, (r / 0x1_0000_0000_0000 % 0x100) as byte,
     (r / 0x100_0000_0000_0000 % 0x100) as byte]
  }

  lemma Digit(r: nat, d: nat)
    requires 0 < d
    ensures r / d == r / (0x100 * d) * 0x100 + r / d % 0x100
  {
    var q := r / d;
    var k, rest := q / 0x100, q % 0x100;
    assert r == (0x100 * k + rest) * d + r % d;
    Carry(d, k, rest, r % d);
    ModIs(r, rest * d + r % d, k, 0x100 * d);
  }

  lemma Carry(d: nat, k: nat, rest: nat, low: nat)
    requires rest < 0x100 && low < d
    ensures (0x100 * k + rest) * d + low == rest * d + low + k * (0x100 * d)
    ensures rest * d + low < 0x100 * d
  {
    AtLeast(0x100 - rest, d);
  }

  /** A word is what its bytes say. */
  lemma WordOfBytes(r: nat)
    requires r < WORD
    ensures Word(ToBytes(r)) == r
  {
    Digit(r, 1);
    Digit(r, 0x100);
    Digit(r, 0x1_0000);
    Digit(r, 0x100_0000);
    Digit(r, 0x1_0000_0000);
    Digit(r, 0x100_0000_0000);
    Digit(r, 0x1_0000_0000_0000);
  }

  /** A power modulo `P`, as it is sent. */
  ghost function PowBytes(a: nat, b: nat): (x: seq<byte>)
    ensures |x| == 8
  {
    ToBytes(Pow(a, b) % P)
  }

  /** What is sent to the other side for the secret exponent `x`. */
  ghost function Exchanged(x: seq<byte>): (r: seq<byte>)
    ensures |r| == 8
  {
    PowBytes(G, Word(x))
  }

  /** For the exponent 1 the generator itself is sent: 5, its lowest byte first. */
  lemma SentForOne()
    ensures Exchanged([1, 0, 0, 0, 0, 0, 0, 0]) == [5, 0, 0, 0, 0, 0, 0, 0]
  {
    assert Pow(G, 1) == G * Pow(G, 0) == 5;
    ModIs(5, 5, 0, P);
  }

  /** `ldhexchange` */
  method DhExchange(x: seq<byte>) returns (r: Result<seq<byte>>)
    ensures r.Ok? <==> |x| == 8 && Word(x) != 0
    ensures r.Ok? ==> r.value == Exchanged(x)
  {
    if |x| != 8 {
      return Err("Invalid dh uint64 key");
    }
    if Word(x) == 0 {
      return Err("Can't be 0");
    }
    var word := PowModWord(G, Word(x));
    r := Ok(ToBytes(word));
  }

  /** `ldhsecret` */
  method DhSecret(x: seq<byte>, y: seq<byte>) returns (r: Result<seq<byte>>)
    ensures r.Ok? <==> |x| == 8 && |y| == 8 && Word(x) != 0 && Word(y) != 0
    ensures r.Ok? && !(Word(x) == P && Word(y) == 1) ==> r.value == PowBytes(Word(x), Word(y))
  {
    if |x| != 8 {
      return Err("Invalid uint64 x");
    }
    if |y| != 8 {
      return Err("Invalid uint64 y");
    }
    if Word(x) == 0 || Word(y) == 0 {
      return Err("Can't be 0");
    }
    var word := PowModWord(Word(x), Word(y));
    r := Ok(ToBytes(word));
  }

  /** No power of the generator is a multiple of `P`. */
  lemma {:induction false} GeneratorPowers(b: nat)
    ensures Pow(G, b) % P != 0
  {
    if b > 0 {
      GeneratorPowers(b - 1);
      var x := Pow(G, b - 1);
      var v := (2 * P + 1) / 5;
      assert 5 * v == 2 * P + 1;
      if (5 * x) % P == 0 {
        ModTimes(5 * x, v, P);
        assert (5 * x) * v == x + (2 * x) * P by {
          assert (5 * x) * v == x * (5 * v) == x * (2 * P + 1);
        }
        ModPlus(x, 2 * x, P);
        assert false;
      }
    }
  }

  /** An exchanged value is never refused by the other side, and never the value that
      `powmodp` does not reduce. */
  lemma ExchangedUsable(x: seq<byte>)
    ensures 0 < Word(Exchanged(x)) < P
  {
    WordOfBytes(Pow(G, Word(x)) % P);
    GeneratorPowers(Word(x));
  }

  lemma SecretsAgree(x: seq<byte>, y: seq<byte>)
    ensures PowBytes(Word(Exchanged(x)), Word(y)) == PowBytes(Pow(G, Word(x)), Word(y))
    ensures PowBytes(Word(Exchanged(x)), Word(y)) == PowBytes(Word(Exchanged(y)), Word(x))
  {
    hide Word, ToBytes;
    var a, b := Word(x), Word(y);
    WordOfBytes(Pow(G, a) % P);
    WordOfBytes(Pow(G, b) % P);
    PowMod(Pow(G, a), b);
    PowMod(Pow(G, b), a);
    PowPow(G, a, b);
    PowPow(G, b, a);
    assert a * b == b * a;
  }

  /** Both sides of an exchange: each sends the value for its own exponent, and computes the
      secret from what it received. Nothing is refused, and the secrets are equal. */
  method Agree(x: seq<byte>, y: seq<byte>) returns (ours: Result<seq<byte>>, theirs: Result<seq<byte>>)
    requires |x| == 8 && |y| == 8 && Word(x) != 0 && Word(y) != 0
    ensures ours.Ok? && ours == theirs
    ensures ours.value == PowBytes(Pow(G, Word(x)), Word(y))
  {
    hide Word, ToBytes, Pow, PowBytes, Exchanged;
    var sent := DhExchange(x);
    var received := DhExchange(y);
    ExchangedUsable(x);
    ExchangedUsable(y);
    ours := DhSecret(received.value, x);
    theirs := DhSecret(sent.value, y);
    SecretsAgree(x, y);
  }
}
