/** DES with padding, as in skynet/lualib-src/lua-crypt.c. The function of a round (the
    S-boxes) and the key schedule are parameters: nothing here depends on them. */
module Des {
  type word = bv32
  type block = b: seq<bv8> | |b| == 8 witness [0, 0, 0, 0, 0, 0, 0, 0]

  /** `OutOfBounds` says that the source reads in front of its buffer. */
  datatype Result<T> = Ok(value: T) | Err(message: string) | OutOfBounds

  /** A half of a block and a subkey, which is two words, give what is added to the other half. */
  type RoundFunction = (word, word, word) -> word

  /** The subkeys of a key. */
  type Schedule = block -> seq<(word, word)>

  datatype Halves = Halves(x: word, y: word)

  function Swapped(h: Halves): Halves {
    Halves(h.y, h.x)
  }

  // Words and bytes

  /** `GET_UINT32` */
  function GetWord(b0: bv8, b1: bv8, b2: bv8, b3: bv8): word {
    ((b0 as word) << 24) | ((b1 as word) << 16) | ((b2 as word) << 8) | (b3 as word)
  }

  /** One byte of `PUT_UINT32` */
  function ByteOf(n: word, shift: nat): bv8
    requires shift <= 24
  {
    ((n >> shift) & 0xff) as bv8
  }

  function GetBlock(b: block): Halves {
    Halves(GetWord(b[0], b[1], b[2], b[3]), GetWord(b[4], b[5], b[6], b[7]))
  }

  function PutBlock(h: Halves): block {
    [ByteOf(h.x, 24), ByteOf(h.x, 16), ByteOf(h.x, 8), ByteOf(h.x, 0),
     ByteOf(h.y, 24), ByteOf(h.y, 16), ByteOf(h.y, 8), ByteOf(h.y, 0)]
  }

  lemma WordOfBytes(n: word)
    ensures GetWord(ByteOf(n, 24), ByteOf(n, 16), ByteOf(n, 8), ByteOf(n, 0)) == n
  {
  }

  lemma BytesOfWord(b0: bv8, b1: bv8, b2: bv8, b3: bv8)
    ensures ByteOf(GetWord(b0, b1, b2, b3), 24) == b0
    ensures ByteOf(GetWord(b0, b1, b2, b3), 16) == b1
    ensures ByteOf(GetWord(b0, b1, b2, b3), 8) == b2
    ensures ByteOf(GetWord(b0, b1, b2, b3), 0) == b3
  {
  }

  lemma GetPut(h: Halves)
    ensures GetBlock(PutBlock(h)) == h
  {
    WordOfBytes(h.x);
    WordOfBytes(h.y);
  }

  lemma PutGet(b: block)
    ensures PutBlock(GetBlock(b)) == b
  {
    hide GetWord, ByteOf;
    BytesOfWord(b[0], b[1], b[2], b[3]);
    BytesOfWord(b[4], b[5], b[6], b[7]);
  }

  // The initial and the final permutation

  function Xor(a: word, b: word): word {
    a ^ b
  }

  lemma XorTwice(a: word, b: word)
    ensures Xor(Xor(a, b), b) == a
  {
  }

  // Bits of `y` in a mask that differ from those of `x` some places higher

  function Differ4(x: word, y: word): word { ((x >> 4) ^ y) & 0x0F0F0F0F }
  function Differ16(x: word, y: word): word { ((x >> 16) ^ y) & 0x0000FFFF }
  function Differ2(x: word, y: word): word { ((x >> 2) ^ y) & 0x33333333 }
  function Differ8(x: word, y: word): word { ((x >> 8) ^ y) & 0x00FF00FF }
  function Differ0(x: word, y: word): word { (x ^ y) & 0xAAAAAAAA }

  function Up4(t: word): word { t << 4 }
  function Up16(t: word): word { t << 16 }
  function Up2(t: word): word { t << 2 }
  function Up8(t: word): word { t << 8 }

  function RotateLeft(n: word): word {
    (n << 1) | (n >> 31)
  }

  function RotateRight(n: word): word {
    (n << 31) | (n >> 1)
  }

  // Exchanges of these bits between the halves

  function Exchange4(h: Halves): Halves {
    var t := Differ4(h.x, h.y);
    Halves(Xor(h.x, Up4(t)), Xor(h.y, t))
  }

  function Exchange16(h: Halves): Halves {
    var t := Differ16(h.x, h.y);
    Halves(Xor(h.x, Up16(t)), Xor(h.y, t))
  }

  function Exchange2(h: Halves): Halves {
    var t := Differ2(h.y, h.x);
    Halves(Xor(h.x, t), Xor(h.y, Up2(t)))
  }

  function Exchange8(h: Halves): Halves {
    var t := Differ8(h.y, h.x);
    Halves(Xor(h.x, t), Xor(h.y, Up8(t)))
  }

  function Exchange0(h: Halves): Halves {
    var t := Differ0(h.x, h.y);
    Halves(Xor(h.x, t), Xor(h.y, t))
  }

  /** `DES_IP` */
  function InitialPermutation(h: Halves): Halves {
    var a := Exchange8(Exchange2(Exchange16(Exchange4(h))));
    var b := Exchange0(a.(y := RotateLeft(a.y)));
    b.(x := RotateLeft(b.x))
  }

  /** `DES_FP` */
  function FinalPermutation(h: Halves): Halves {
    var a := Exchange0(h.(x := RotateRight(h.x)));
    Exchange4(Exchange16(Exchange2(Exchange8(a.(y := RotateRight(a.y))))))
  }

  lemma Differ4Kept(x: word, y: word)
    ensures Differ4(Xor(x, Up4(Differ4(x, y))), Xor(y, Differ4(x, y))) == Differ4(x, y)
  {
  }

  lemma Involution4(h: Halves)
    ensures Exchange4(Exchange4(h)) == h
  {
    hide Xor, Differ4, Up4;
    var t := Differ4(h.x, h.y);
    Differ4Kept(h.x, h.y);
    XorTwice(h.x, Up4(t));
    XorTwice(h.y, t);
  }

  lemma Differ16Kept(x: word, y: word)
    ensures Differ16(Xor(x, Up16(Differ16(x, y))), Xor(y, Differ16(x, y))) == Differ16(x, y)
  {
  }

  lemma Involution16(h: Halves)
    ensures Exchange16(Exchange16(h)) == h
  {
    hide Xor, Differ16, Up16;
    var t := Differ16(h.x, h.y);
    Differ16Kept(h.x, h.y);
    XorTwice(h.x, Up16(t));
    XorTwice(h.y, t);
  }

  lemma Differ2Kept(x: word, y: word)
    ensures Differ2(Xor(x, Up2(Differ2(x, y))), Xor(y, Differ2(x, y))) == Differ2(x, y)
  {
  }

  lemma Involution2(h: Halves)
    ensures Exchange2(Exchange2(h)) == h
  {
    hide Xor, Differ2, Up2;
    var t := Differ2(h.y, h.x);
    Differ2Kept(h.y, h.x);
    XorTwice(h.y, Up2(t));
    XorTwice(h.x, t);
  }

  lemma Differ8Kept(x: word, y: word)
    ensures Differ8(Xor(x, Up8(Differ8(x, y))), Xor(y, Differ8(x, y))) == Differ8(x, y)
  {
  }

  lemma Involution8(h: Halves)
    ensures Exchange8(Exchange8(h)) == h
  {
    hide Xor, Differ8, Up8;
    var t := Differ8(h.y, h.x);
    Differ8Kept(h.y, h.x);
    XorTwice(h.y, Up8(t));
    XorTwice(h.x, t);
  }

  lemma Differ0Kept(x: word, y: word)
    ensures Differ0(Xor(x, Differ0(x, y)), Xor(y, Differ0(x, y))) == Differ0(x, y)
  {
  }

  lemma Involution0(h: Halves)
    ensures Exchange0(Exchange0(h)) == h
  {
    hide Xor, Differ0;
    var t := Differ0(h.x, h.y);
    Differ0Kept(h.x, h.y);
    XorTwice(h.x, t);
    XorTwice(h.y, t);
  }

  lemma Rotations(n: word)
    ensures RotateRight(RotateLeft(n)) == n && RotateLeft(RotateRight(n)) == n
  {
  }

  lemma FinalOfInitial(h: Halves)
    ensures FinalPermutation(InitialPermutation(h)) == h
  {
    hide RotateLeft, RotateRight, Exchange4, Exchange16, Exchange2, Exchange8, Exchange0;
    var h1 := Exchange4(h);
    var h2 := Exchange16(h1);
    var h3 := Exchange2(h2);
    var h4 := Exchange8(h3);
    var h5 := h4.(y := RotateLeft(h4.y));
    var h6 := Exchange0(h5);
    Rotations(h6.x);
    Involution0(h5);
    Rotations(h4.y);
    Involution8(h3);
    Involution2(h2);
    Involution16(h1);
    Involution4(h);
  }

  lemma InitialOfFinal(h: Halves)
    ensures InitialPermutation(FinalPermutation(h)) == h
  {
    hide RotateLeft, RotateRight, Exchange4, Exchange16, Exchange2, Exchange8, Exchange0;
    var h1 := h.(x := RotateRight(h.x));
    var h2 := Exchange0(h1);
    var h3 := h2.(y := RotateRight(h2.y));
    var h4 := Exchange8(h3);
    var h5 := Exchange2(h4);
    var h6 := Exchange16(h5);
    Involution4(h6);
    Involution16(h5);
    Involution2(h4);
    Involution8(h3);
    Rotations(h2.y);
    Involution0(h1);
    Rotations(h.x);
  }

  // Where the initial permutation puts each bit

  /** Bit `k` of a word, counted from the lowest. */
  function Bit(n: word, k: word): bool
    requires k < 32
  {
    (n >> k) & 1 == 1
  }

  function ByteBit(b: bv8, k: word): bool
    requires k < 8
  {
    ((b as word) >> k) & 1 == 1
  }

  function ByteAt(b: block, i: word): bv8 {
    if i == 0 then b[0] else if i == 1 then b[1] else if i == 2 then b[2] else if i == 3 then b[3]
    else if i == 4 then b[4] else if i == 5 then b[5] else if i == 6 then b[6] else b[7]
  }

  /** The upper half of the table IP of FIPS 46-3: bit `k` of the first half comes from byte k % 8, and
      there from bit 2 * (k / 8); the half is then rotated by one place. */
  lemma InitialFirst(b: block, k: word)
    requires k < 32
    ensures Bit(InitialPermutation(GetBlock(b)).x, (k + 1) & 31) == ByteBit(ByteAt(b, k & 7), (k >> 3) << 1)
  {
  }

  /** The lower half: the bits of the second half come from the bits beside these. */
  lemma InitialSecond(b: block, k: word)
    requires k < 32
    ensures Bit(InitialPermutation(GetBlock(b)).y, (k + 1) & 31) == ByteBit(ByteAt(b, k & 7), ((k >> 3) << 1) + 1)
  {
  }

  // The rounds

  /** Two rounds (`DES_ROUND`): each half is changed by the other one. */
  function TwoRounds(f: RoundFunction, k1: (word, word), k2: (word, word), h: Halves): Halves {
    var x := Xor(h.x, f(h.y, k1.0, k1.1));
    Halves(x, Xor(h.y, f(x, k2.0, k2.1)))
  }

  function Rounds(f: RoundFunction, keys: seq<(word, word)>, h: Halves): Halves {
    if |keys| < 2 then h else Rounds(f, keys[2..], TwoRounds(f, keys[0], keys[1], h))
  }

  /** One round as in FIPS 46-3: the second half becomes the first one, and the first half, changed by
      the second one, becomes the second. */
  function Round(f: RoundFunction, k: (word, word), h: Halves): Halves {
    Halves(h.y, Xor(h.x, f(h.y, k.0, k.1)))
  }

  function Feistel(f: RoundFunction, keys: seq<(word, word)>, h: Halves): Halves {
    if keys == [] then h else Feistel(f, keys[1..], Round(f, keys[0], h))
  }

  /** The rounds, two at a time and without exchanging the halves, are those of the standard. */
  lemma {:induction false} RoundsAreFeistel(f: RoundFunction, keys: seq<(word, word)>, h: Halves)
    requires |keys| % 2 == 0
    ensures Rounds(f, keys, h) == Feistel(f, keys, h)
  {
    hide Xor;
    if keys != [] {
      assert keys[1..][1..] == keys[2..] && keys[1..][0] == keys[1];
      RoundsAreFeistel(f, keys[2..], TwoRounds(f, keys[0], keys[1], h));
    }
  }

  function Reversed<T>(s: seq<T>): (r: seq<T>)
    ensures |r| == |s| && forall i :: 0 <= i < |s| ==> r[i] == s[|s| - 1 - i]
  {
    if s == [] then [] else Reversed(s[1..]) + [s[0]]
  }

  lemma {:induction false} RoundsSplit(f: RoundFunction, a: seq<(word, word)>, b: seq<(word, word)>, h: Halves)
    requires |a| % 2 == 0
    ensures Rounds(f, a + b, h) == Rounds(f, b, Rounds(f, a, h))
  {
    if a == [] {
      assert a + b == b;
    } else {
      assert (a + b)[2..] == a[2..] + b;
      RoundsSplit(f, a[2..], b, TwoRounds(f, a[0], a[1], h));
    }
  }

  lemma TwoRoundsBack(f: RoundFunction, k1: (word, word), k2: (word, word), h: Halves)
    ensures TwoRounds(f, k2, k1, Swapped(TwoRounds(f, k1, k2, h))) == Swapped(h)
  {
    hide Xor;
    var x := Xor(h.x, f(h.y, k1.0, k1.1));
    XorTwice(h.y, f(x, k2.0, k2.1));
    XorTwice(h.x, f(h.y, k1.0, k1.1));
  }

  /** The rounds with the subkeys in reverse order undo the rounds, on exchanged halves. */
  lemma {:induction false} RoundsBack(f: RoundFunction, keys: seq<(word, word)>, h: Halves)
    requires |keys| % 2 == 0
    ensures Rounds(f, Reversed(keys), Swapped(Rounds(f, keys, h))) == Swapped(h)
  {
    if keys != [] {
      var next := TwoRounds(f, keys[0], keys[1], h);
      var last := [keys[1], keys[0]];
      assert Reversed(keys) == Reversed(keys[2..]) + last;
      RoundsBack(f, keys[2..], next);
      RoundsSplit(f, Reversed(keys[2..]), last, Swapped(Rounds(f, keys, h)));
      assert last[2..] == [];
      TwoRoundsBack(f, keys[0], keys[1], h);
    }
  }

  /** What `des_crypt` makes of a block. */
  function Crypted(f: RoundFunction, keys: seq<(word, word)>, b: block): block {
    PutBlock(FinalPermutation(Swapped(Rounds(f, keys, InitialPermutation(GetBlock(b))))))
  }

  /** `des_crypt` with the subkeys in reverse order undoes `des_crypt`. */
  lemma CryptedBack(f: RoundFunction, keys: seq<(word, word)>, b: block)
    requires |keys| % 2 == 0
    ensures Crypted(f, Reversed(keys), Crypted(f, keys, b)) == b
  {
    hide PutBlock, GetBlock, FinalPermutation, InitialPermutation, Rounds;
    var h := InitialPermutation(GetBlock(b));
    var out := FinalPermutation(Swapped(Rounds(f, keys, h)));
    GetPut(out);
    InitialOfFinal(Swapped(Rounds(f, keys, h)));
    RoundsBack(f, keys, h);
    FinalOfInitial(GetBlock(b));
    PutGet(b);
  }

  lemma ReversedIs<T>(s: seq<T>, t: seq<T>)
    requires |s| == |t| && forall i :: 0 <= i < |t| ==> s[i] == t[|t| - 1 - i]
    ensures s == Reversed(t)
  {
  }

  lemma {:induction false} ReversedTwice<T>(s: seq<T>)
    ensures Reversed(Reversed(s)) == s
  {
  }

  /** `des_crypt`, with sixteen rounds. */
  method DesCrypt(f: RoundFunction, keys: seq<(word, word)>, input: block) returns (output: block)
    requires |keys| == 16
    ensures output == Crypted(f, keys, input)
  {
    var h := InitialPermutation(GetBlock(input));
    ghost var start := h;
    var i := 0;
    while i < 16
      invariant 0 <= i <= 16 && i % 2 == 0
      invariant Rounds(f, keys[i..], h) == Rounds(f, keys, start)
    {
      assert keys[i..][2..] == keys[i + 2..];
      h := TwoRounds(f, keys[i], keys[i + 1], h);
      i := i + 2;
    }
    output := PutBlock(FinalPermutation(Swapped(h)));
  }

  // Padding

  function Zeros(n: nat): (r: seq<bv8>)
    ensures |r| == n && forall i :: 0 <= i < n ==> r[i] == 0
  {
    seq(n, i => 0)
  }

  /** The text, the mark, and as many zeros as fill the last block. */
  function Padded(text: seq<bv8>): (r: seq<bv8>)
    ensures |r| % 8 == 0 && |text| < |r| <= |text| + 8
    ensures r[..|text|] == text && r[|text|] == 0x80
    ensures forall i :: |text| < i < |r| ==> r[i] == 0
  {
    text + [0x80] + Zeros(7 - |text| % 8)
  }

  /** Padding leaves no doubt about the text. */
  lemma PaddedUnique(a: seq<bv8>, b: seq<bv8>)
    requires Padded(a) == Padded(b)
    ensures a == b
  {
    assert Padded(a)[..|a|] == a && Padded(b)[..|b|] == b;
  }

  // Texts

  /** Every block of `text` is replaced by what `des_crypt` makes of it. */
  function CryptedAll(f: RoundFunction, keys: seq<(word, word)>, text: seq<bv8>): (r: seq<bv8>)
    ensures |r| == |text| / 8 * 8
  {
    if |text| < 8 then [] else Crypted(f, keys, text[..8]) + CryptedAll(f, keys, text[8..])
  }

  lemma {:induction false} CryptedAllBack(f: RoundFunction, keys: seq<(word, word)>, text: seq<bv8>)
    requires |keys| % 2 == 0 && |text| % 8 == 0
    ensures CryptedAll(f, Reversed(keys), CryptedAll(f, keys, text)) == text
  {
    hide Crypted;
    if text != [] {
      var first: block := text[..8];
      var r := CryptedAll(f, keys, text);
      assert r[..8] == Crypted(f, keys, first);
      assert r[8..] == CryptedAll(f, keys, text[8..]);
      CryptedBack(f, keys, first);
      CryptedAllBack(f, keys, text[8..]);
      assert text == text[..8] + text[8..];
    }
  }

  lemma {:induction false} CryptedAllSplit(f: RoundFunction, keys: seq<(word, word)>, a: seq<bv8>, b: seq<bv8>)
    requires |a| % 8 == 0
    ensures CryptedAll(f, keys, a + b) == CryptedAll(f, keys, a) + CryptedAll(f, keys, b)
  {
    hide Crypted;
    if a == [] {
      assert a + b == b;
    } else {
      assert (a + b)[..8] == a[..8];
      assert (a + b)[8..] == a[8..] + b;
      CryptedAllSplit(f, keys, a[8..], b);
    }
  }

  ghost function Encoded(f: RoundFunction, schedule: Schedule, key: block, text: seq<bv8>): seq<bv8> {
    CryptedAll(f, schedule(key), Padded(text))
  }

  /** The loop over whole blocks of both directions. */
  method CryptBlocks(f: RoundFunction, keys: seq<(word, word)>, text: seq<bv8>, buffer: array<bv8>)
      returns (i: nat)
    requires |keys| == 16 && |text| / 8 * 8 <= buffer.Length
    modifies buffer
    ensures i == |text| / 8 * 8
    ensures buffer[..i] == CryptedAll(f, keys, text[..i])
  {
    hide Crypted, CryptedAll;
    i := 0;
    NoBlocks(f, keys, text[..0]);
    while i < |text| - 7
      invariant i % 8 == 0 && 0 <= i <= |text|
      invariant buffer[..i] == CryptedAll(f, keys, text[..i])
    {
      var output := DesCrypt(f, keys, text[i..i + 8]);
      Store(buffer, i, output);
      LastBlock(f, keys, text[..i], text[i..i + 8]);
      assert text[..i] + text[i..i + 8] == text[..i + 8];
      i := i + 8;
    }
  }

  /** The last block of the padded text; `i` bytes are in the blocks before. */
  method Tail(text: seq<bv8>, i: nat) returns (tail: block)
    requires i == |text| / 8 * 8
    ensures Padded(text) == text[..i] + tail
  {
    var bytes := |text| - i;
    var bytesOfTail := new bv8[8];
    var j := 0;
    while j < 8
      invariant 0 <= j <= 8
      invariant forall k :: 0 <= k < j ==> bytesOfTail[k] == Padded(text)[i + k]
    {
      if j < bytes {
        bytesOfTail[j] := text[i + j];
      } else if j == bytes {
        bytesOfTail[j] := 0x80;
      } else {
        bytesOfTail[j] := 0;
      }
      j := j + 1;
    }
    tail := bytesOfTail[..];
  }

  /** `ldesencode` */
  method DesEncode(f: RoundFunction, schedule: Schedule, key: seq<bv8>, text: seq<bv8>)
      returns (r: Result<seq<bv8>>)
    requires forall k: block :: |schedule(k)| == 16
    ensures r.Ok? <==> |key| == 8
    ensures r.Ok? ==> r.value == Encoded(f, schedule, key, text)
  {
    if |key| != 8 {
      return Err("Invalid key size, need 8 bytes");
    }
    var keys := schedule(key);
    var buffer := new bv8[(|text| + 8) / 8 * 8];
    var i := CryptBlocks(f, keys, text, buffer);
    var tail := Tail(text, i);
    var output := DesCrypt(f, keys, tail);
    Store(buffer, i, output);
    LastBlock(f, keys, text[..i], tail);
    assert buffer[..i + 8] == buffer[..];
    r := Ok(buffer[..]);
  }

  lemma NoBlocks(f: RoundFunction, keys: seq<(word, word)>, text: seq<bv8>)
    requires |text| < 8
    ensures CryptedAll(f, keys, text) == []
  {
  }

  lemma LastBlock(f: RoundFunction, keys: seq<(word, word)>, a: seq<bv8>, b: block)
    requires |a| % 8 == 0
    ensures CryptedAll(f, keys, a + b) == CryptedAll(f, keys, a) + Crypted(f, keys, b)
  {
    CryptedAllSplit(f, keys, a, b);
    assert b[..8] == b && b[8..] == [];
  }

  method Store(buffer: array<bv8>, i: nat, b: block)
    requires i + 8 <= buffer.Length
    modifies buffer
    ensures buffer[..i + 8] == old(buffer[..i]) + b
  {
    var j := 0;
    while j < 8
      invariant 0 <= j <= 8
      invariant buffer[..i + j] == old(buffer[..i]) + b[..j]
    {
      buffer[i + j] := b[j];
      j := j + 1;
    }
  }

  /** The comparison of an `int` with a `size_t`: a negative number counts as a large one. */
  predicate UnsignedAtLeast(i: int, bound: nat) {
    i < 0 || i >= bound
  }

  predicate ZerosAfter(plain: seq<bv8>, i: int) {
    forall k :: i < k < |plain| ==> 0 <= k && plain[k] == 0
  }

  /** A block of zeros, for which the loop below leaves the buffer. */
  predicate ZeroBlock(plain: seq<bv8>) {
    plain == Zeros(8)
  }

  /** The loop of `ldesdecode` that looks for the mark: how many bytes of padding there are. */
  method Unpad(plain: seq<bv8>) returns (r: Result<nat>)
    requires |plain| % 8 == 0 && |plain| > 0
    ensures r.Ok? ==> r.value <= |plain| && Padded(plain[..|plain| - r.value]) == plain
    ensures !r.Ok? ==> forall t :: Padded(t) != plain
    ensures r.OutOfBounds? <==> ZeroBlock(plain)
  {
    var padding := 1;
    var i := |plain| - 1;
    while UnsignedAtLeast(i, |plain| - 8)
      invariant |plain| - 9 <= i < |plain| && padding == |plain| - i
      invariant ZerosAfter(plain, i)
      decreases i
    {
      if i < 0 {
        assert plain == Zeros(8);
        NoMarkAnywhere(plain, i);
        return OutOfBounds;
      }
      if plain[i] == 0 {
        padding := padding + 1;
      } else if plain[i] == 0x80 {
        break;
      } else {
        NoMarkAnywhere(plain, i);
        return Err("Invalid des crypt text");
      }
      i := i - 1;
    }
    if padding > 8 {
      NoMarkAnywhere(plain, i);
      return Err("Invalid des crypt text");
    }
    assert plain == plain[..i] + [0x80] + Zeros(|plain| - i - 1);
    r := Ok(padding);
  }

  lemma NoMarkAnywhere(plain: seq<bv8>, i: int)
    requires |plain| % 8 == 0 && |plain| - 9 <= i < |plain|
    requires ZerosAfter(plain, i)
    requires i >= |plain| - 8 ==> 0 <= i && plain[i] != 0 && plain[i] != 0x80
    ensures forall t :: Padded(t) != plain
  {
    forall t ensures Padded(t) != plain {
      NoMark(plain, i, t);
    }
  }

  method Decrypted(f: RoundFunction, keys: seq<(word, word)>, text: seq<bv8>) returns (plain: seq<bv8>)
    requires |keys| == 16 && |text| % 8 == 0
    ensures plain == CryptedAll(f, keys, text)
  {
    var buffer := new bv8[|text|];
    var i := CryptBlocks(f, keys, text, buffer);
    assert text[..i] == text && buffer[..i] == buffer[..];
    plain := buffer[..];
  }

  /** `ldesdecode`: gives the text that was encoded, if there is one. Otherwise it reports an error,
      except for a single block that decrypts to zeros: there the source leaves its buffer. */
  method DesDecode(f: RoundFunction, schedule: Schedule, key: seq<bv8>, text: seq<bv8>)
      returns (r: Result<seq<bv8>>)
    requires forall k: block :: |schedule(k)| == 16
    ensures r.Ok? ==> |key| == 8 && Encoded(f, schedule, key, r.value) == text
    ensures !r.Ok? ==> |key| != 8 || forall t :: Encoded(f, schedule, key, t) != text
    ensures r.OutOfBounds? <==> |key| == 8 && ZeroText(f, schedule, key, text)
  {
    hide Crypted, CryptedAll, Padded, Reversed;
    if |key| != 8 {
      return Err("Invalid key size, need 8 bytes");
    }
    var subkeys := schedule(key);
    var keys := seq(16, i requires 0 <= i < 16 => subkeys[15 - i]);
    ReversedIs(keys, subkeys);
    if |text| % 8 != 0 || |text| == 0 {
      return Err("Invalid des crypt text length");
    }
    var plain := Decrypted(f, keys, text);
    var padding := Unpad(plain);
    DecodedAll(f, subkeys, text);
    match padding {
      case Ok(n) => r := Ok(plain[..|text| - n]);
      case Err(message) => r := Err(message);
      case OutOfBounds => r := OutOfBounds;
    }
  }

  /** The one text of a key for which decoding leaves its buffer: the encryption of zeros. */
  ghost predicate ZeroText(f: RoundFunction, schedule: Schedule, key: block, text: seq<bv8>) {
    text == CryptedAll(f, schedule(key), Zeros(8))
  }

  /** There is such a text for every key. */
  method LeavesBuffer(f: RoundFunction, schedule: Schedule, key: block) returns (text: seq<bv8>, r: Result<seq<bv8>>)
    requires forall k: block :: |schedule(k)| == 16
    ensures |text| == 8 && r == OutOfBounds
  {
    text := Decrypted(f, schedule(key), Zeros(8));
    r := DesDecode(f, schedule, key, text);
  }

  /** What is decrypted is the padded text, if and only if its encryption was given. */
  lemma DecodedAll(f: RoundFunction, keys: seq<(word, word)>, text: seq<bv8>)
    requires |keys| % 2 == 0 && |text| % 8 == 0
    ensures forall p :: |p| % 8 == 0 ==>
      (CryptedAll(f, keys, p) == text <==> p == CryptedAll(f, Reversed(keys), text))
  {
    ReversedTwice(keys);
    CryptedAllBack(f, Reversed(keys), text);
    forall p | |p| % 8 == 0 && CryptedAll(f, keys, p) == text
      ensures p == CryptedAll(f, Reversed(keys), text)
    {
      CryptedAllBack(f, keys, p);
    }
  }

  /** Nothing is padded to a text whose last byte but zeros is not the mark, or too far away. */
  lemma NoMark(plain: seq<bv8>, i: int, t: seq<bv8>)
    requires |plain| % 8 == 0 && |plain| - 9 <= i < |plain|
    requires ZerosAfter(plain, i)
    requires i >= |plain| - 8 ==> 0 <= i && plain[i] != 0 && plain[i] != 0x80
    ensures Padded(t) != plain
  {
  }

  /** Decoding what was encoded gives the text, for every key and text. */
  method RoundTrip(f: RoundFunction, schedule: Schedule, key: block, text: seq<bv8>)
      returns (r: Result<seq<bv8>>)
    requires forall k: block :: |schedule(k)| == 16
    ensures r == Ok(text)
  {
    var code := DesEncode(f, schedule, key, text);
    r := DesDecode(f, schedule, key, code.value);
    EncodedUnique(f, schedule, key, text, if r.Ok? then r.value else text);
  }

  /** Different texts are encoded differently. */
  lemma EncodedUnique(f: RoundFunction, schedule: Schedule, key: block, a: seq<bv8>, b: seq<bv8>)
    requires forall k: block :: |schedule(k)| == 16
    requires Encoded(f, schedule, key, a) == Encoded(f, schedule, key, b)
    ensures a == b
  {
    CryptedAllBack(f, schedule(key), Padded(a));
    CryptedAllBack(f, schedule(key), Padded(b));
    PaddedUnique(a, b);
  }
}
