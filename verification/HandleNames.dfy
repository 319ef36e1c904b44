/** The names of handles in skynet/skynet-src/skynet_handle.c: a sorted array that is searched by
    halves. */
module HandleNames {
  type Name = seq<char>

  datatype HandleName = HandleName(name: Name, handle: nat)

  const MAX_SLOT_SIZE := 0x4000_0000

  /** `strcmp`: below, equal or above */
  function Compare(a: Name, b: Name): int {
    if a == [] then (if b == [] then 0 else -1)
    else if b == [] then 1
    else if a[0] != b[0] then (if a[0] < b[0] then -1 else 1)
    else Compare(a[1..], b[1..])
  }

  lemma {:induction false} CompareEqual(a: Name, b: Name)
    ensures Compare(a, b) == 0 <==> a == b
    ensures Compare(a, b) == -Compare(b, a)
  {
    if a != [] && b != [] && a[0] == b[0] {
      CompareEqual(a[1..], b[1..]);
      assert a == [a[0]] + a[1..] && b == [b[0]] + b[1..];
    }
  }

  lemma {:induction false} CompareTrans(a: Name, b: Name, c: Name)
    requires Compare(a, b) < 0 && Compare(b, c) < 0
    ensures Compare(a, c) < 0
  {
    if a != [] && b != [] && c != [] && a[0] == b[0] == c[0] {
      CompareTrans(a[1..], b[1..], c[1..]);
    }
  }

  predicate Below(a: HandleName, b: HandleName) {
    Compare(a.name, b.name) < 0
  }

  predicate Sorted(names: seq<HandleName>) {
    forall i, j :: 0 <= i < j < |names| ==> Below(names[i], names[j])
  }

  /** The handles of a name. */
  predicate Named(names: seq<HandleName>, name: Name, handle: nat) {
    HandleName(name, handle) in names
  }

  /** No name is there twice. */
  lemma Different(names: seq<HandleName>, i: nat, j: nat)
    requires Sorted(names) && i < j < |names|
    ensures names[i].name != names[j].name
  {
    assert Below(names[i], names[j]);
    CompareEqual(names[i].name, names[j].name);
  }

  /** The names without those of a handle. */
  function Without(names: seq<HandleName>, handle: nat): (r: seq<HandleName>)
    ensures |r| <= |names|
  {
    if names == [] then []
    else
      var r := Without(names[..|names| - 1], handle);
      var last := names[|names| - 1];
      if last.handle == handle then r else r + [last]
  }

  lemma {:induction false} WithoutHas(names: seq<HandleName>, handle: nat, n: HandleName)
    ensures n in Without(names, handle) <==> n in names && n.handle != handle
  {
    if names != [] {
      WithoutHas(names[..|names| - 1], handle, n);
      assert names == names[..|names| - 1] + [names[|names| - 1]];
    }
  }

  lemma {:induction false} WithoutSorted(names: seq<HandleName>, handle: nat)
    requires Sorted(names)
    ensures Sorted(Without(names, handle))
  {
    if names != [] {
      var start := names[..|names| - 1];
      WithoutSorted(start, handle);
      var r, last := Without(start, handle), names[|names| - 1];
      forall i | 0 <= i < |r| ensures Below(r[i], last) {
        WithoutHas(start, handle, r[i]);
      }
    }
  }

  /** A name put between the smaller and the larger ones. */
  lemma InsertSorted(names: seq<HandleName>, place: nat, one: HandleName)
    requires Sorted(names) && place <= |names|
    requires forall i :: 0 <= i < place ==> Compare(names[i].name, one.name) < 0
    requires forall i :: place <= i < |names| ==> Compare(names[i].name, one.name) > 0
    ensures Sorted(names[..place] + [one] + names[place..])
    ensures forall n :: n in names[..place] + [one] + names[place..] <==> n in names || n == one
    ensures forall h :: !Named(names, one.name, h)
  {
    var r := names[..place] + [one] + names[place..];
    forall i | place <= i < |names| ensures Below(one, names[i]) {
      CompareEqual(names[i].name, one.name);
    }
    forall i, j | 0 <= i < j < |r| ensures Below(r[i], r[j]) {
      if i != place && j != place {
        assert Below(names[if i < place then i else i - 1], names[if j < place then j else j - 1]);
      }
    }
    assert names == names[..place] + names[place..];
    CompareEqual(one.name, one.name);
  }

  class NameTable {
    var names: array<HandleName>
    var count: nat

    ghost predicate Valid()
      reads this, names
    {
      0 < names.Length && count <= names.Length && Sorted(names[..count])
    }

    constructor ()
      ensures Valid() && names[..count] == [] && fresh(names)
    {
      names := new HandleName[2](_ => HandleName("", 0));
      count := 0;
    }

    /** The search by halves of `skynet_handle_findname` and `_insert_name`: where the name is, or
        where it belongs. */
    method Search(name: Name) returns (found: bool, place: nat)
      requires Valid()
      ensures found ==> place < count && names[place].name == name
      ensures !found ==> place <= count
      ensures !found ==> forall i :: 0 <= i < place ==> Compare(names[i].name, name) < 0
      ensures !found ==> forall i :: place <= i < count ==> Compare(names[i].name, name) > 0
    {
      var begin, end := 0, count - 1;
      while begin <= end
        invariant 0 <= begin <= end + 1 <= count
        invariant forall i :: 0 <= i < begin ==> Compare(names[i].name, name) < 0
        invariant forall i :: end < i < count ==> Compare(names[i].name, name) > 0
        decreases end - begin
      {
        var mid := (begin + end) / 2;
        var c := Compare(names[mid].name, name);
        CompareEqual(names[mid].name, name);
        if c == 0 {
          return true, mid;
        }
        if c < 0 {
          forall i | 0 <= i < mid ensures Compare(names[i].name, name) < 0 {
            assert Below(names[..count][i], names[..count][mid]);
            CompareTrans(names[i].name, names[mid].name, name);
          }
          begin := mid + 1;
        } else {
          forall i | mid < i < count ensures Compare(names[i].name, name) > 0 {
            assert Below(names[..count][mid], names[..count][i]);
            CompareEqual(name, names[i].name);
            CompareTrans(name, names[mid].name, names[i].name);
          }
          end := mid - 1;
        }
      }
      return false, begin;
    }

    /** `skynet_handle_findname`: the handle of the name, or 0. */
    method FindName(name: Name) returns (handle: nat)
      requires Valid()
      ensures forall h :: Named(names[..count], name, h) ==> handle == h
      ensures Named(names[..count], name, handle) || (handle == 0 && forall h :: !Named(names[..count], name, h))
    {
      var found, place := Search(name);
      if found {
        handle := names[place].handle;
        assert names[..count][place] == HandleName(name, handle);
        forall h | Named(names[..count], name, h) ensures handle == h {
          var i :| 0 <= i < count && names[..count][i] == HandleName(name, h);
          if i < place {
            Different(names[..count], i, place);
          } else if place < i {
            Different(names[..count], place, i);
          }
        }
      } else {
        handle := 0;
        forall h ensures !Named(names[..count], name, h) {
          CompareEqual(name, name);
        }
      }
    }

    /** The loops of `_insert_name_before` into a larger array, with a gap for the new name */
    method CopyWithGap(n: array<HandleName>, before: nat)
      requires before <= count <= names.Length && count < n.Length && n != names
      modifies n
      ensures n[..before] == names[..before] && n[before + 1..count + 1] == names[before..count]
    {
      for i := 0 to before
        invariant forall k :: 0 <= k < i ==> n[k] == names[k]
      {
        n[i] := names[i];
      }
      for i := before to count
        invariant forall k :: 0 <= k < before ==> n[k] == names[k]
        invariant forall k :: before <= k < i ==> n[k + 1] == names[k]
      {
        n[i + 1] := names[i];
      }
      forall k | 0 <= k < count - before ensures n[before + 1..count + 1][k] == names[before..count][k] {
        assert n[before + k + 1] == names[before + k];
      }
    }

    /** The loop of `_insert_name_before` that makes room */
    method ShiftUp(before: nat)
      requires before <= count < names.Length
      modifies names
      ensures names[..before] == old(names[..before]) && names[before + 1..count + 1] == old(names[before..count])
    {
      ghost var was := names[..];
      var i := count;
      while i > before
        invariant before <= i <= count
        invariant forall k :: 0 <= k < i ==> names[k] == was[k]
        invariant forall k :: i < k <= count ==> names[k] == was[k - 1]
      {
        names[i] := names[i - 1];
        i := i - 1;
      }
    }

    /** `_insert_name_before` */
    method InsertBefore(name: Name, handle: nat, before: nat) returns (ok: bool)
      requires 0 < names.Length && before <= count <= names.Length
      modifies this, names
      ensures ok <==> old(count) < old(names.Length) || old(names.Length) * 2 <= MAX_SLOT_SIZE
      ensures ok ==> count == old(count) + 1 && count <= names.Length && (names == old(names) || fresh(names))
      ensures ok ==> names[..count] == old(names[..before]) + [HandleName(name, handle)] + old(names[before..count])
      ensures !ok ==> count == old(count) && names == old(names) && names[..] == old(names[..])
    {
      if count >= names.Length {
        if names.Length * 2 > MAX_SLOT_SIZE {
          return false;
        }
        var n := new HandleName[names.Length * 2](_ => HandleName("", 0));
        CopyWithGap(n, before);
        names := n;
      } else {
        ShiftUp(before);
      }
      names[before] := HandleName(name, handle);
      count := count + 1;
      assert names[..count] == names[..before] + [names[before]] + names[before + 1..count];
      ok := true;
    }

    /** `_insert_name`: a name that is not there is put in its place; one that is there keeps its
        handle. The table is full at its largest size only. */
    method InsertName(name: Name, handle: nat) returns (ok: bool)
      requires Valid()
      modifies this, names
      ensures Valid() && (names == old(names) || fresh(names))
      ensures ok ==> forall n :: n in names[..count] <==> n in old(names[..count]) || n == HandleName(name, handle)
      ensures ok ==> forall h :: !old(Named(names[..count], name, h))
      ensures !ok ==> names[..count] == old(names[..count])
      ensures !ok ==> (exists h :: Named(names[..count], name, h)) || old(names.Length) * 2 > MAX_SLOT_SIZE
    {
      ghost var all := names[..count];
      var found, place := Search(name);
      if found {
        assert all[place] == HandleName(name, names[place].handle);
        assert Named(names[..count], name, names[place].handle);
        return false;
      }
      hide Compare, Below, Sorted;
      InsertSorted(all, place, HandleName(name, handle));
      assert all[..place] == names[..place] && all[place..] == names[place..count];
      ok := InsertBefore(name, handle, place);
      assert names[..count] == if ok then all[..place] + [HandleName(name, handle)] + all[place..] else all;
    }

    /** The loop of `skynet_handle_retire` that throws away the names of a handle. */
    method RemoveNames(handle: nat)
      requires Valid()
      modifies this`count, names
      ensures Valid() && forall n :: n in names[..count] <==> n in old(names[..count]) && n.handle != handle
    {
      ghost var all := names[..count];
      var j, n := 0, count;
      for i := 0 to n
        invariant j <= i && names[..j] == Without(all[..i], handle)
        invariant forall k :: i <= k < n ==> names[k] == all[k]
      {
        assert all[..i + 1][..i] == all[..i] && names[i] == all[i];
        if names[i].handle != handle {
          if i != j {
            names[j] := names[i];
          }
          j := j + 1;
        }
      }
      assert all[..n] == all;
      WithoutSorted(all, handle);
      forall n ensures n in Without(all, handle) <==> n in all && n.handle != handle {
        WithoutHas(all, handle, n);
      }
      count := j;
    }
  }
}
