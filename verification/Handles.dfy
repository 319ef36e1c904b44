/** The table of contexts in skynet/skynet-src/skynet_handle.c: a handle goes to the slot of its
    remainder, and the table doubles when it is full. */
module Handles {
  import opened Remainders

  /** Handles have 24 bits; the number of the harbor is put above them. */
  const MASK_SIZE := 0x100_0000
  const DEFAULT_SLOT_SIZE := 4

  type Handle = nat

  datatype Option<T> = None | Some(value: T)

  predicate TableSize(size: nat) {
    exists k: nat :: 2 <= k <= 24 && size == Power(k)
  }

  function Power(k: nat): pos {
    if k == 0 then 1 else 2 * Power(k - 1)
  }

  type pos = x: nat | 0 < x witness 1

  lemma {:induction false} Powers(k: nat, n: nat)
    ensures Power(k + n) == Power(k) * Power(n)
  {
    if n > 0 {
      Powers(k, n - 1);
      calc {
        Power(k + n);
        2 * Power(k + (n - 1));
        2 * (Power(k) * Power(n - 1));
        Power(k) * (2 * Power(n - 1));
        Power(k) * Power(n);
      }
    }
  }

  lemma Power24()
    ensures Power(24) == MASK_SIZE
  {
    assert Power(4) == 16 by { assert Power(2) == 4; }
    Powers(4, 4);
    assert Power(8) == 256;
    Powers(8, 8);
    assert Power(16) == 65536;
    Powers(16, 8);
  }

  /** The slot of a number in a table. */
  function SlotOf(h: nat, size: nat): (x: nat)
    ensures size > 0 ==> x < size
  {
    if size == 0 then 0 else h % size
  }

  /** The size of the table divides the number of handles. */
  lemma Divides(size: nat) returns (d: nat)
    requires TableSize(size)
    ensures 0 < d && size * d == MASK_SIZE && 0 < size <= MASK_SIZE
  {
    var k: nat :| 2 <= k <= 24 && size == Power(k);
    Power24();
    Powers(k, 24 - k);
    d := Power(24 - k);
    AtLeast(d, size);
  }

  lemma ModMod(h: nat, size: nat, d: nat)
    requires 0 < size && 0 < d
    ensures 0 < size * d && (h % (size * d)) % size == h % size
  {
    AtLeast(d, size);
    var m := size * d;
    var q, r := h / m, h % m;
    assert h == q * m + r;
    assert q * m == (q * d) * size;
    ModPlus(r, q * d, size);
  }

  /** Handles may be reduced before their slot is computed. */
  lemma Reduced(h: nat, size: nat)
    requires TableSize(size)
    ensures 0 < size <= MASK_SIZE && SlotOf(h % MASK_SIZE, size) == SlotOf(h, size)
  {
    var d := Divides(size);
    ModMod(h, size, d);
  }

  /** A table is doubled, unless it has all handles. */
  lemma Doubled(size: nat)
    requires TableSize(size) && size < MASK_SIZE
    ensures TableSize(2 * size) && 2 * size <= MASK_SIZE
  {
    var k: nat :| 2 <= k <= 24 && size == Power(k);
    Power24();
    assert 2 * size == Power(k + 1);
    Reduced(0, 2 * size);
  }

  /** Consecutive numbers meet every slot. */
  lemma Meets(index: nat, size: nat, x: nat) returns (j: nat)
    requires 0 < size && x < size
    ensures j < size && SlotOf(j + index, size) == x
  {
    j := (x - index) % size;
    var q := (x - index) / size;
    assert x - index == q * size + j;
    ModIs(j + index, x, -q, size);
  }

  /** In a table of twice the size a handle goes to its old slot or to the one in the other half. */
  lemma HalfOf(h: nat, size: nat)
    requires 0 < size
    ensures SlotOf(h, 2 * size) == SlotOf(h, size) || SlotOf(h, 2 * size) == SlotOf(h, size) + size
  {
    var q, r := h / (2 * size), h % (2 * size);
    assert h == q * (2 * size) + r;
    assert q * (2 * size) == (2 * q) * size;
    ModPlus(r, 2 * q, size);
    if r < size {
      ModIs(r, r, 0, size);
    } else {
      ModIs(r, r - size, 1, size);
    }
  }

  lemma IsSlot(h: nat)
    ensures SlotOf(h, MASK_SIZE) == h % MASK_SIZE
  {
  }

  /** The number that is taken, and the next one, when numbers wrap and when they do not. */
  lemma NextNumber(passed: nat, index: nat, reached: nat, handle: nat)
    requires SlotOf(index, MASK_SIZE) == SlotOf(reached, MASK_SIZE) && handle == SlotOf(passed + index, MASK_SIZE)
    ensures handle == SlotOf(reached + passed, MASK_SIZE)
    ensures SlotOf(handle + 1, MASK_SIZE) == SlotOf(reached + passed + 1, MASK_SIZE)
  {
    var k := index / MASK_SIZE - reached / MASK_SIZE;
    assert index == reached + k * MASK_SIZE;
    ModPlus(reached + passed, k, MASK_SIZE);
    var q := (reached + passed) / MASK_SIZE;
    assert handle == reached + passed + -q * MASK_SIZE;
    ModPlus(reached + passed + 1, -q, MASK_SIZE);
  }

  class HandleStorage {
    const harbor: nat
    var index: nat
    var slotSize: nat
    var slot: array<Option<Handle>>
    /** The next number to try, if numbers did not wrap. */
    ghost var reached: nat

    ghost predicate Valid()
      reads this, slot
    {
      && TableSize(slotSize) && slot.Length == slotSize && 0 < slotSize <= MASK_SIZE
      && (forall x :: 0 <= x < slot.Length && slot[x].Some? ==> SlotOf(slot[x].value, slotSize) == x)
      && 0 < reached && SlotOf(index, MASK_SIZE) == SlotOf(reached, MASK_SIZE)
    }

    /** The handles of the contexts in the table. */
    ghost predicate Live(h: Handle)
      requires Valid()
      reads this, slot
    {
      exists x :: 0 <= x < slot.Length && slot[x] == Some(h)
    }

    ghost predicate Full()
      reads slot, this
    {
      forall x :: 0 <= x < slot.Length ==> slot[x].Some?
    }

    /** `skynet_handle_init` */
    constructor (harbor: nat)
      ensures Valid() && (forall h: Handle :: !Live(h)) && fresh(slot) && this.harbor == harbor % 0x100
      ensures index == reached == 1
    {
      this.harbor := harbor % 0x100;
      slotSize := DEFAULT_SLOT_SIZE;
      index, reached := 1, 1;
      slot := new Option<Handle>[DEFAULT_SLOT_SIZE](_ => None);
      new;
      assert Power(2) == 2 * Power(1) == 4;
    }

    /** A handle is in the table exactly if it is in its slot. */
    lemma InSlot(h: Handle)
      requires Valid()
      ensures Live(h) <==> slot[SlotOf(h, slotSize)] == Some(h)
    {
    }

    /** `skynet_handle_grab`, but for the count of the context */
    method Grab(h: Handle) returns (found: bool)
      requires Valid()
      ensures found <==> Live(h)
    {
      InSlot(h);
      found := slot[SlotOf(h, slotSize)] == Some(h);
    }

    /** The part of `skynet_handle_retire` that is about the table */
    method Remove(h: Handle) returns (ok: bool)
      requires Valid()
      modifies slot
      ensures Valid() && ok == old(Live(h))
      ensures forall g: Handle :: Live(g) <==> old(Live(g)) && g != h
    {
      InSlot(h);
      var x := SlotOf(h, slotSize);
      ok := slot[x] == Some(h);
      if ok {
        slot[x] := None;
      }
      forall g: Handle ensures Live(g) <==> old(Live(g)) && g != h {
        InSlot(g);
        assert old(Live(g)) <==> old(slot[SlotOf(g, slotSize)]) == Some(g);
      }
    }

    ghost predicate Probed(j: nat)
      requires Valid()
      reads this, slot
    {
      slot[SlotOf(j + index, slotSize)].Some?
    }

    /** The search of `skynet_handle_register`: an empty slot, from the next handle on, or none. */
    method FindFree() returns (found: bool, handle: nat, ghost passed: nat)
      requires Valid()
      ensures found ==> handle < MASK_SIZE && slot[SlotOf(handle, slotSize)] == None
      ensures found ==> passed < slotSize && handle == SlotOf(passed + index, MASK_SIZE) && forall j :: 0 <= j < passed ==> Probed(j)
      ensures !found ==> Full()
    {
      hide SlotOf, TableSize;
      for i := 0 to slotSize
        invariant forall j :: 0 <= j < i ==> Probed(j)
      {
        handle := (i + index) % MASK_SIZE;
        assert handle == SlotOf(i + index, MASK_SIZE) by { IsSlot(i + index); }
        Reduced(i + index, slotSize);
        if slot[SlotOf(handle, slotSize)] == None {
          return true, handle, i;
        }
      }
      forall x | 0 <= x < slot.Length ensures slot[x].Some? {
        var j := Meets(index, slotSize, x);
        assert Probed(j);
      }
      return false, 0, 0;
    }

    /** While the handles are put into a larger table: those of the first `i` slots are there, each
        in its slot. */
    ghost predicate Copied(larger: array<Option<Handle>>, i: nat)
      requires Valid()
      reads this, slot, larger
    {
      && larger.Length == 2 * slotSize && i <= slotSize && larger != slot
      && (forall y :: 0 <= y < larger.Length && larger[y].Some? ==>
            && SlotOf(larger[y].value, larger.Length) == y
            && SlotOf(larger[y].value, slotSize) < i && slot[SlotOf(larger[y].value, slotSize)] == larger[y])
      && (forall x :: 0 <= x < i ==> slot[x].Some? && larger[SlotOf(slot[x].value, larger.Length)] == slot[x])
    }

    /** The full table doubles; no two handles meet in one slot. */
    method Grow()
      requires Valid() && slotSize < MASK_SIZE && Full()
      modifies this`slot, this`slotSize
      ensures Valid() && fresh(slot) && slotSize == 2 * old(slotSize) && !Full()
      ensures forall h: Handle :: Live(h) <==> old(Live(h))
    {
      hide SlotOf, TableSize;
      Doubled(slotSize);
      var larger := new Option<Handle>[slotSize * 2](_ => None);
      for i := 0 to slotSize
        modifies larger
        invariant Copied(larger, i)
      {
        var h := slot[i].value;
        HalfOf(h, slotSize);
        var y := SlotOf(h, slotSize * 2);
        assert larger[y] == None by {
          if larger[y].Some? {
            HalfOf(larger[y].value, slotSize);
          }
        }
        larger[y] := slot[i];
      }
      HasRoom(larger);
      GrownLive(larger);
      slot := larger;
      slotSize := slotSize * 2;
    }

    lemma HasRoom(larger: array<Option<Handle>>)
      requires Valid() && Copied(larger, slotSize)
      ensures exists y :: 0 <= y < larger.Length && larger[y] == None
    {
      var h := slot[0].value;
      HalfOf(h, slotSize);
      var other := if SlotOf(h, 2 * slotSize) == 0 then slotSize else 0;
      if larger[other].Some? {
        HalfOf(larger[other].value, slotSize);
      }
    }

    lemma GrownLive(larger: array<Option<Handle>>)
      requires Valid() && Copied(larger, slotSize)
      ensures forall h: Handle :: Live(h) <==> exists y :: 0 <= y < larger.Length && larger[y] == Some(h)
    {
      forall h: Handle ensures Live(h) <==> exists y :: 0 <= y < larger.Length && larger[y] == Some(h) {
        if Live(h) {
          var x :| 0 <= x < slot.Length && slot[x] == Some(h);
          assert larger[SlotOf(h, larger.Length)] == Some(h);
        }
      }
    }

    /** The end of `skynet_handle_register` */
    method Put(handle: nat, ghost passed: nat) returns (full: Handle)
      requires Valid() && handle < MASK_SIZE && slot[SlotOf(handle, slotSize)] == None
      requires handle == SlotOf(passed + index, MASK_SIZE)
      modifies this`index, this`reached, slot
      ensures index == handle + 1 && reached == old(reached) + passed + 1
      ensures handle == SlotOf(full, MASK_SIZE) == SlotOf(reached - 1, MASK_SIZE)
      ensures Valid() && full == handle + harbor * MASK_SIZE && !old(Live(full))
      ensures forall h: Handle :: Live(h) <==> old(Live(h)) || h == full
    {
      full := handle + harbor * MASK_SIZE;
      Reduced(full, slotSize);
      ModIs(full, handle, harbor, MASK_SIZE);
      hide SlotOf, TableSize;
      InSlot(full);
      var x := SlotOf(handle, slotSize);
      slot[x] := Some(full);
      NextNumber(passed, index, reached, handle);
      index, reached := handle + 1, reached + passed + 1;
      forall h: Handle ensures Live(h) <==> old(Live(h)) || h == full {
        InSlot(h);
        assert old(Live(h)) <==> old(slot[SlotOf(h, slotSize)]) == Some(h);
      }
    }

    /** `skynet_handle_register`: a handle that no context in the table has; there is none only
        when all are in use. */
    method Register() returns (r: Option<Handle>)
      requires Valid()
      modifies this, slot
      ensures Valid() && (slot == old(slot) || fresh(slot))
      ensures r.Some? ==> !old(Live(r.value)) && r.value / MASK_SIZE == harbor
      ensures r.Some? ==> forall h: Handle :: Live(h) <==> old(Live(h)) || h == r.value
      ensures r.None? <==> old(Full()) && old(slotSize) == MASK_SIZE
      ensures r.None? ==> (forall h: Handle :: Live(h) <==> old(Live(h))) && reached == old(reached)
      ensures slotSize >= old(slotSize)
      ensures r.Some? ==> old(reached) < reached <= old(reached) + slotSize
      ensures r.Some? ==> SlotOf(r.value, MASK_SIZE) == SlotOf(reached - 1, MASK_SIZE)
    {
      hide SlotOf, TableSize;
      var found, handle, passed := FindFree();
      if !found {
        if slotSize * 2 > MASK_SIZE {
          LastSize(slotSize);
          return None;
        }
        Grow();
        found, handle, passed := FindFree();
      }
      var full := Put(handle, passed);
      ModIs(full, handle, harbor, MASK_SIZE);
      r := Some(full);
    }
  }

  lemma LastSize(size: nat)
    requires TableSize(size) && size <= MASK_SIZE < 2 * size
    ensures size == MASK_SIZE
  {
    if size < MASK_SIZE {
      Doubled(size);
    }
  }

  datatype Op = Create | Delete(h: Handle)

  /** Numbers that were taken one after the other are not far apart. */
  ghost predicate Spread(places: seq<nat>, size: nat) {
    forall i, j :: 0 <= i < j < |places| ==> places[i] < places[j] && places[j] - places[i] <= (j - i) * size
  }

  lemma SpreadMore(places: seq<nat>, p: nat, size: nat, larger: nat)
    requires Spread(places, size) && size <= larger
    requires places != [] ==> places[|places| - 1] < p <= places[|places| - 1] + larger
    ensures Spread(places + [p], larger)
  {
    var n, all := |places|, places + [p];
    forall i, j | 0 <= i < j < |all|
      ensures all[i] < all[j] && all[j] - all[i] <= (j - i) * larger
    {
      var k := if j < n then j else n - 1;
      TimesMore(k - i, size, larger);
      if j == n {
        assert (j - i) * larger == (k - i) * larger + larger;
      }
    }
  }

  lemma TimesMore(d: nat, size: nat, larger: nat)
    requires size <= larger
    ensures d * size <= d * larger
  {
  }

  /** Numbers that are taken twice are taken when all others were passed. */
  lemma TakenAgain(a: nat, b: nat)
    requires 0 < a < b && SlotOf(a - 1, MASK_SIZE) == SlotOf(b - 1, MASK_SIZE)
    ensures b - a >= MASK_SIZE
  {
  }

  /** In every run a handle is given out again only when the numbers have wrapped: with a table of
      `slotSize` slots, 2^24 / `slotSize` registrations later at the earliest. */
  method GiveOut(harbor: nat, ops: seq<Op>) returns (s: HandleStorage, given: seq<Handle>)
    ensures s.Valid()
    ensures forall i, j :: 0 <= i < j < |given| && given[i] == given[j] ==> (j - i) * s.slotSize >= MASK_SIZE
  {
    s := new HandleStorage(harbor);
    given := [];
    ghost var places: seq<nat> := [];
    hide SlotOf, TableSize, HandleStorage.Live;
    for n := 0 to |ops|
      invariant fresh(s) && fresh(s.slot) && s.Valid() && |places| == |given|
      invariant places != [] ==> places[|places| - 1] == s.reached
      invariant Spread(places, s.slotSize)
      invariant forall i :: 0 <= i < |given| ==> places[i] > 0 && SlotOf(given[i], MASK_SIZE) == SlotOf(places[i] - 1, MASK_SIZE)
    {
      match ops[n] {
        case Create =>
          ghost var size := s.slotSize;
          var r := s.Register();
          if r.Some? {
            SpreadMore(places, s.reached, size, s.slotSize);
            given, places := given + [r.value], places + [s.reached];
          }
        case Delete(h) =>
          var _ := s.Remove(h);
      }
    }
    forall i, j | 0 <= i < j < |given| && given[i] == given[j]
      ensures (j - i) * s.slotSize >= MASK_SIZE
    {
      TakenAgain(places[i], places[j]);
    }
  }
}
