/** map.c and util.c in place: an array with room to grow, shifted one item at a time. */
module SortedArrays {
  import opened Forms
  import opened OrderedMaps

  /** The places already written when `left` of `count` items are still to move. */
  predicate Moved(start: int, direction: int, left: int, count: int, i: int) {
    if direction == 1 then start + left < i <= start + count else start - count <= i < start - left
  }

  predicate InRange(length: int, start: int, direction: int, count: int) {
    if direction == 1 then 0 <= start && start + count < length else count <= start < length
  }

  /** The items after those behind the first `left` moved. */
  function Shifted<T>(s: seq<T>, start: int, direction: int, left: int, count: int): (t: seq<T>)
    requires direction == 1 || direction == -1
    requires 0 <= left <= count && (left < count ==> InRange(|s|, start, direction, count))
    ensures |t| == |s|
  {
    seq(|s|, i requires 0 <= i < |s| => if Moved(start, direction, left, count, i) then s[i - direction] else s[i])
  }

  /**
   shift_items: moves `count` items one place on, away from `start`, the farthest first. With direction 1
   the items lie at start and above it, with -1 at start and below it.
   */
  method ShiftItems<T>(items: array<T>, start: nat, count: nat, direction: int)
    requires direction == 1 || direction == -1
    requires count > 0 ==> InRange(items.Length, start, direction, count)
    modifies items
    ensures items[..] == Shifted(old(items[..]), start, direction, 0, count)
  {
    var left := count;
    while left > 0
      invariant 0 <= left <= count
      invariant items[..] == Shifted(old(items[..]), start, direction, left, count)
    {
      assert direction * (left - 1) == if direction == 1 then left - 1 else 1 - left;
      var target := start + direction * (left - 1);
      var dest := target + direction;
      assert items[..][target] == old(items[..])[target];
      items[dest] := items[target];
      left := left - 1;
      assert items[..] == Shifted(old(items[..]), start, direction, left, count);
    }
  }

  /** Up: a gap opens at start. */
  lemma ShiftedUp<T>(s: seq<T>, start: nat, size: nat)
    requires start <= size < |s|
    ensures var t := Shifted(s, start, 1, 0, size - start);
      && t[..start] == s[..start] && t[start + 1..size + 1] == s[start..size]
  {
  }

  /** Down: what was at `at` is gone. */
  lemma ShiftedDown<T>(s: seq<T>, at: nat, size: nat)
    requires at <= size < |s|
    ensures var t := Shifted(s, size, -1, 0, size - at);
      && t[..at] == s[..at] && t[at..size] == s[at + 1..size + 1]
  {
  }

  /** The gap filled: the entries with one more in between. */
  lemma OpenedGap<T>(before: seq<T>, shifted: seq<T>, ind: nat, size: nat, x: T)
    requires ind <= size < |before| == |shifted|
    requires shifted[..ind] == before[..ind] && shifted[ind + 1..size + 1] == before[ind..size]
    ensures shifted[ind := x][..size + 1] == before[..size][..ind] + [x] + before[..size][ind..]
  {
    var t := shifted[ind := x][..size + 1];
    assert t == t[..ind] + [t[ind]] + t[ind + 1..];
    assert t[..ind] == shifted[..ind] && t[ind + 1..] == shifted[ind + 1..size + 1];
    assert before[..size][ind..] == before[ind..size];
  }

  function NextCapacity(cap: nat): nat {
    if cap == 0 then 8 else 2 * cap
  }

  class OrderedMap<K(==), V(!new)> {
    const cmp: (K, K) -> int
    var items: array<(K, V)>
    var size: nat

    ghost predicate Valid()
      reads this
    {
      size <= items.Length
    }

    ghost function Entries(): seq<(K, V)>
      reads this, items
      requires Valid()
    {
      items[..size]
    }

    constructor (cmp: (K, K) -> int)
      ensures Valid() && Entries() == [] && fresh(items) && this.cmp == cmp
    {
      this.cmp := cmp;
      items := new (K, V)[0];
      size := 0;
    }

    method FindItem(key: K) returns (found: bool, ind: nat)
      requires Valid()
      ensures ind == Position(cmp, Entries(), key, 0) && found == Found(cmp, Entries(), key)
    {
      found, ind := false, 0;
      while ind < size
        invariant ind <= size && Position(cmp, Entries(), key, 0) == Position(cmp, Entries(), key, ind)
      {
        var c := cmp(key, items[ind].0);
        if c == 0 {
          found := true;
          break;
        } else if c < 0 {
          break;
        }
        ind := ind + 1;
      }
    }

    /** Room for one more item; `filler` only occupies places that are not yet in use. */
    method Grow(filler: (K, V))
      requires Valid() && size == items.Length
      modifies this`items
      ensures Valid() && fresh(items) && items.Length == NextCapacity(old(items.Length)) && Entries() == old(Entries())
    {
      var bigger := new (K, V)[NextCapacity(items.Length)](_ => filler);
      var i := 0;
      while i < size
        invariant i <= size && items == old(items) && size == old(size)
        invariant bigger[..i] == items[..i]
      {
        bigger[i] := items[i];
        i := i + 1;
      }
      items := bigger;
    }

    method Insert(key: K, value: V)
      requires Valid()
      modifies this`items, this`size, items
      ensures Valid() && (items == old(items) || fresh(items))
      ensures Entries() == Inserted(cmp, old(Entries()), key, value)
    {
      var found, ind := FindItem(key);
      ghost var s := Entries();
      if found {
        items[ind] := (items[ind].0, value);
        assert Entries() == s[ind := (s[ind].0, value)];
      } else {
        if size + 1 > items.Length { Grow((key, value)); }
        InsertAt(ind, (key, value));
      }
    }

    /** The new pair goes where the search stopped; those from there on move up. */
    method InsertAt(ind: nat, pair: (K, V))
      requires Valid() && ind <= size < items.Length
      modifies this`size, items
      ensures Valid() && Entries() == old(Entries()[..ind]) + [pair] + old(Entries()[ind..])
    {
      ghost var before := items[..];
      ShiftItems(items, ind, size - ind, 1);
      ShiftedUp(before, ind, size);
      ghost var shifted := items[..];
      items[ind] := pair;
      size := size + 1;
      assert items[..] == shifted[ind := pair];
      OpenedGap(before, shifted, ind, size - 1, pair);
    }

    method Remove(key: K) returns (value: Option<V>)
      requires Valid()
      modifies this`size, items
      ensures Valid()
      ensures value == Looked(cmp, old(Entries()), key)
      ensures Entries() == Removed(cmp, old(Entries()), key)
    {
      var found, ind := FindItem(key);
      ghost var s := Entries();
      if !found { return None; }
      value := Some(items[ind].1);
      CloseGap(ind);
    }

    /** Those behind the pair move down over it. */
    method CloseGap(ind: nat)
      requires Valid() && ind < size
      modifies this`size, items
      ensures Valid() && Entries() == old(Entries()[..ind]) + old(Entries()[ind + 1..])
    {
      ghost var s := Entries();
      ghost var before := items[..];
      size := size - 1;
      ShiftItems(items, size, size - ind, -1);
      ShiftedDown(before, ind, size);
      assert Entries() == s[..ind] + s[ind + 1..];
    }

    method Get(key: K) returns (value: Option<V>)
      requires Valid()
      ensures value == Looked(cmp, Entries(), key)
    {
      var found, ind := FindItem(key);
      value := if found then Some(items[ind].1) else None;
    }

    /** map_ref: where the value can be changed in place. */
    method Ref(key: K) returns (place: Option<nat>)
      requires Valid()
      ensures place == if Found(cmp, Entries(), key) then Some(Position(cmp, Entries(), key, 0)) else None
      ensures place.Some? ==> place.value < size && Looked(cmp, Entries(), key) == Some(items[place.value].1)
    {
      var found, ind := FindItem(key);
      place := if found then Some(ind) else None;
    }
  }
}
