/** Where the wheel of skynet/skynet-src/skynet_timer.c keeps a timer. The near wheel has 256
    lists, one for each of the next ticks with the same upper 24 bits; each of the four levels
    above has 64 lists. Clock and expiry wrap at 2^32; behind them stand a count of ticks and
    a deadline that do not wrap. */
module TimerPlace {
  const TIME_NEAR := 0x100
  const TIME_LEVEL := 64
  const LEVEL1 := 0x4000
  const LEVEL2 := 0x10_0000
  const LEVEL3 := 0x400_0000
  const WRAP := 0x1_0000_0000
  const MAXDELAY := 0x8000_0000
  const LISTS := 512

  /** The list that `add_node` chooses, numbered from the near wheel up. The masks of the
      source compare and select bits of `e` and `c`, here by division. */
  function Place(e: nat, c: nat): (k: nat)
    requires e < WRAP
    ensures k < LISTS
  {
    if e / TIME_NEAR == c / TIME_NEAR then e % TIME_NEAR
    else if e / LEVEL1 == c / LEVEL1 then LevelList(0, e / TIME_NEAR)
    else if e / LEVEL2 == c / LEVEL2 then LevelList(1, e / LEVEL1)
    else if e / LEVEL3 == c / LEVEL3 then LevelList(2, e / LEVEL2)
    else LevelList(3, e / LEVEL3)
  }

  /** The list of level `i` for a time whose digits from that level up are `digits`. */
  function LevelList(i: nat, digits: nat): nat
    requires i < 4
  {
    TIME_NEAR + i * TIME_LEVEL + digits % TIME_LEVEL
  }

  /** Each level and digit has a list of its own, and none of them is in the near wheel. */
  lemma ListsApart(i: nat, a: nat, j: nat, b: nat)
    requires i < 4 && j < 4
    ensures TIME_NEAR <= LevelList(i, a) < LISTS
    ensures LevelList(i, a) == LevelList(j, b) <==> i == j && a % TIME_LEVEL == b % TIME_LEVEL
  {
  }

  /** The list that `timer_shift` moves when the clock becomes `c`, or none. */
  function MovedList(c: nat): (k: int)
    requires c < WRAP
    ensures -1 <= k < LISTS
  {
    if c == 0 then LevelList(3, 0)
    else if c % TIME_NEAR != 0 then -1
    else if c / TIME_NEAR % TIME_LEVEL != 0 then LevelList(0, c / TIME_NEAR)
    else if c / LEVEL1 % TIME_LEVEL != 0 then LevelList(1, c / LEVEL1)
    else if c / LEVEL2 % TIME_LEVEL != 0 then LevelList(2, c / LEVEL2)
    else LevelList(3, c / LEVEL3)
  }

  /** A deadline that a timer can have when `now` ticks have passed. */
  predicate Pending(now: nat, deadline: nat) {
    now < deadline < now + MAXDELAY
  }

  /** Counting on changes a quotient only when the remainder becomes 0. */
  lemma Quotients(c: nat)
    ensures (c + 1) % TIME_NEAR != 0 ==> (c + 1) / TIME_NEAR == c / TIME_NEAR
    ensures (c + 1) % LEVEL1 != 0 ==> (c + 1) / LEVEL1 == c / LEVEL1
    ensures (c + 1) % LEVEL2 != 0 ==> (c + 1) / LEVEL2 == c / LEVEL2
    ensures (c + 1) % LEVEL3 != 0 ==> (c + 1) / LEVEL3 == c / LEVEL3
  {
  }

  /** The digits of a time are 0 below the level of the list that moves. */
  lemma Remainders(c: nat)
    ensures c % LEVEL1 == 0 <==> c % TIME_NEAR == 0 && c / TIME_NEAR % TIME_LEVEL == 0
    ensures c % LEVEL2 == 0 <==> c % LEVEL1 == 0 && c / LEVEL1 % TIME_LEVEL == 0
    ensures c % LEVEL3 == 0 <==> c % LEVEL2 == 0 && c / LEVEL2 % TIME_LEVEL == 0
  {
    Remainder1(c);
    Remainder2(c);
    Remainder3(c);
  }

  lemma Remainder1(c: nat)
    ensures c % LEVEL1 == c / TIME_NEAR % TIME_LEVEL * TIME_NEAR + c % TIME_NEAR
  {
  }

  lemma Remainder2(c: nat)
    ensures c % LEVEL2 == c / LEVEL1 % TIME_LEVEL * LEVEL1 + c % LEVEL1
  {
  }

  lemma Remainder3(c: nat)
    ensures c % LEVEL3 == c / LEVEL2 % TIME_LEVEL * LEVEL2 + c % LEVEL2
  {
  }

  /** Times that agree in the upper bits agree in still higher ones. */
  lemma Agree(e: nat, c: nat)
    ensures e / TIME_NEAR == c / TIME_NEAR ==> e / LEVEL1 == c / LEVEL1
    ensures e / LEVEL1 == c / LEVEL1 ==> e / LEVEL2 == c / LEVEL2
    ensures e / LEVEL2 == c / LEVEL2 ==> e / LEVEL3 == c / LEVEL3
  {
  }

  /** At the last tick of a block, no later time is left in it. */
  lemma BlockEnds(e: nat, c: nat, block: nat)
    requires block in {TIME_NEAR, LEVEL1, LEVEL2, LEVEL3} && (c + 1) % block == 0
    requires e != c && (e < c ==> e + MAXDELAY < c)
    ensures e / block != c / block
  {
  }

  /** Different times of a block, in different parts of it: the digits differ. */
  lemma DigitsDiffer(e: nat, c: nat)
    ensures e / LEVEL1 == c / LEVEL1 && e / TIME_NEAR != c / TIME_NEAR ==> e / TIME_NEAR % TIME_LEVEL != c / TIME_NEAR % TIME_LEVEL
    ensures e / LEVEL2 == c / LEVEL2 && e / LEVEL1 != c / LEVEL1 ==> e / LEVEL1 % TIME_LEVEL != c / LEVEL1 % TIME_LEVEL
    ensures e / LEVEL3 == c / LEVEL3 && e / LEVEL2 != c / LEVEL2 ==> e / LEVEL2 % TIME_LEVEL != c / LEVEL2 % TIME_LEVEL
    ensures e < WRAP && c < WRAP && e / LEVEL3 != c / LEVEL3 ==> e / LEVEL3 % TIME_LEVEL != c / LEVEL3 % TIME_LEVEL
  {
    Nested(e);
    Nested(c);
    SameDigits(e / TIME_NEAR, c / TIME_NEAR);
    SameDigits(e / LEVEL1, c / LEVEL1);
    SameDigits(e / LEVEL2, c / LEVEL2);
    SameDigits(e / LEVEL3, c / LEVEL3);
  }

  lemma Nested(e: nat)
    ensures e / LEVEL1 == e / TIME_NEAR / TIME_LEVEL
    ensures e / LEVEL2 == e / LEVEL1 / TIME_LEVEL
    ensures e / LEVEL3 == e / LEVEL2 / TIME_LEVEL
    ensures e < WRAP ==> e / LEVEL3 / TIME_LEVEL == 0
  {
  }

  lemma SameDigits(x: nat, y: nat)
    ensures x / TIME_LEVEL == y / TIME_LEVEL && x % TIME_LEVEL == y % TIME_LEVEL ==> x == y
  {
  }

  /** The tick from `c` on moves just the timers whose place changes. */
  lemma PlaceAfterTick(e: nat, c: nat)
    requires e < WRAP && c < WRAP - 1 && e != c && (e < c ==> e + MAXDELAY < c)
    ensures Place(e, c) != MovedList(c + 1) ==> Place(e, c + 1) == Place(e, c)
  {
    Quotients(c);
    Remainders(c + 1);
    Agree(e, c);
    Agree(e, c + 1);
    DigitsDiffer(e, c + 1);
    forall block | block in {TIME_NEAR, LEVEL1, LEVEL2, LEVEL3} && (c + 1) % block == 0
      ensures e / block != c / block
    {
      BlockEnds(e, c, block);
    }
  }

  lemma PlaceAfterWrap(e: nat)
    requires e < MAXDELAY
    ensures Place(e, WRAP - 1) != MovedList(0) ==> Place(e, 0) == Place(e, WRAP - 1)
  {
  }

  /** The invariant of the wheel: after a tick, a pending timer whose list was not moved still
      is where `add_node` would put it. */
  lemma PlaceKept(now: nat, deadline: nat)
    requires Pending(now, deadline)
    ensures var e, c, c' := deadline % WRAP, now % WRAP, (now + 1) % WRAP;
            Place(e, c) != MovedList(c') ==> Place(e, c') == Place(e, c)
  {
    var e, c := deadline % WRAP, now % WRAP;
    hide Place, MovedList;
    if c == WRAP - 1 {
      assert (now + 1) % WRAP == 0;
      assert deadline == now + 1 + e;
      PlaceAfterWrap(e);
    } else {
      assert (now + 1) % WRAP == c + 1;
      PlaceAfterTick(e, c);
    }
  }

  /** A timer is in the near list of the clock exactly when it is due. */
  lemma DueNow(now: nat, deadline: nat)
    requires now <= deadline < now + MAXDELAY
    ensures Place(deadline % WRAP, now % WRAP) == now % WRAP % TIME_NEAR <==> deadline == now
  {
    var e, c := deadline % WRAP, now % WRAP;
    if deadline != now {
      assert e != c;
      if e / TIME_NEAR == c / TIME_NEAR {
        assert e % TIME_NEAR != c % TIME_NEAR;
      }
    }
  }

  /** `mask` of `timer_shift` at level `i` */
  function Block(i: nat): (b: nat)
    requires i < 4
    ensures b > 0
  {
    if i == 0 then TIME_NEAR else if i == 1 then LEVEL1 else if i == 2 then LEVEL2 else LEVEL3
  }

  /** What `timer_shift` finds from level `i` on, when all digits below are 0. */
  lemma MovedFrom(c: nat, i: nat)
    requires 0 < c < WRAP && i < 4 && (i > 0 ==> c % Block(i) == 0)
    ensures c % Block(i) != 0 ==> MovedList(c) == -1
    ensures c % Block(i) == 0 && c / Block(i) % TIME_LEVEL != 0 ==> MovedList(c) == LevelList(i, c / Block(i))
    ensures c % Block(i) == 0 && c / Block(i) % TIME_LEVEL == 0 ==> i < 3 && c % Block(i + 1) == 0
    ensures i < 3 ==> c / Block(i) / TIME_LEVEL == c / Block(i + 1)
  {
    Remainders(c);
    Nested(c);
  }
}
