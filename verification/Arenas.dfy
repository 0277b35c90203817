/** The allocator's block as a value. */
module Arenas {
  // The allocator's 4 MiB block as a value: the chunks its headers describe, the free and the allocated
  // list in their order, and the counters. Addresses are offsets into the block.

  import opened Forms

  const HEADER: nat := 24
  const BLOCK: nat := 0x40_0000
  const WORD: nat := 0x1_0000_0000
  const FIRST_GC: nat := 1024

  datatype Arena = Arena(
    sizes: map<nat, nat>,       // address of a chunk's header to the chunk's size, header included
    free: seq<nat>,
    used: seq<nat>,
    allocatedBytes: nat,        // payload bytes ever handed out, as a uint32_t
    freedBytes: nat,
    nextGc: nat)

  const FRESH: Arena := Arena(map[0 := BLOCK], [0], [], 0, 0, FIRST_GC)

  function SizeAt(sizes: map<nat, nat>, a: nat): nat {
    if a in sizes then sizes[a] else 0
  }

  /** A chunk is taken whole, or split if a header and the payload leave room for another header. */
  predicate Fits(have: nat, size: nat) {
    have == HEADER + size || have >= 2 * HEADER + size
  }

  function FirstFit(sizes: map<nat, nat>, free: seq<nat>, i: nat, size: nat): Option<nat>
    decreases |free| - i
  {
    if i >= |free| then None
    else if Fits(SizeAt(sizes, free[i]), size) then Some(i)
    else FirstFit(sizes, free, i + 1, size)
  }

  function FirstGarbage(used: seq<nat>, keep: set<nat>, i: nat): Option<nat>
    decreases |used| - i
  {
    if i >= |used| then None
    else if used[i] !in keep then Some(i)
    else FirstGarbage(used, keep, i + 1)
  }

  function RemoveAt(s: seq<nat>, i: nat): seq<nat>
    requires i < |s|
  {
    s[..i] + s[i + 1..]
  }

  function IndexOf(s: seq<nat>, x: nat, i: nat): Option<nat>
    decreases |s| - i
  {
    if i >= |s| then None else if s[i] == x then Some(i) else IndexOf(s, x, i + 1)
  }

  /** Puts the i-th free chunk, or its front part, in use. */
  function Take(a: Arena, i: nat, size: nat): Arena
    requires i < |a.free| && Fits(SizeAt(a.sizes, a.free[i]), size)
  {
    var chunk := a.free[i];
    var b := a.(used := [chunk] + a.used, allocatedBytes := (a.allocatedBytes + size) % WORD);
    if SizeAt(a.sizes, chunk) == HEADER + size then
      b.(free := RemoveAt(a.free, i))
    else
      var rest := chunk + HEADER + size;
      b.(free := a.free[i := rest],
         sizes := a.sizes[chunk := HEADER + size][rest := SizeAt(a.sizes, chunk) - (HEADER + size)])
  }

  function Release(a: Arena, k: nat): Arena
    requires k < |a.used|
  {
    a.(used := RemoveAt(a.used, k), free := [a.used[k]] + a.free,
       freedBytes := (a.freedBytes + SizeAt(a.sizes, a.used[k]) - HEADER) % WORD)
  }

  /** One collection: only the first garbage chunk of the allocated list goes back. */
  function Collect(a: Arena, keep: set<nat>): Arena {
    var k := FirstGarbage(a.used, keep, 0);
    (if k.Some? && k.value < |a.used| then Release(a, k.value) else a).(nextGc := 2 * a.nextGc % WORD)
  }

  /** keep: what the runtime's marker blackens should this allocation collect. */
  function Allocate(a: Arena, size: nat, keep: set<nat>): (Arena, Option<nat>) {
    var i := FirstFit(a.sizes, a.free, 0, size);
    if i.Some? && i.value < |a.free| && Fits(SizeAt(a.sizes, a.free[i.value]), size) then
      var b := Take(a, i.value, size);
      (if b.allocatedBytes >= b.nextGc then Collect(b, keep + {a.free[i.value]}) else b,
       Some(a.free[i.value] + HEADER))
    else (a, None)
  }

  /** None: an assertion of the allocator stops the program. */
  function Deallocate(a: Arena, p: nat, size: nat): Option<Arena> {
    if p < HEADER || SizeAt(a.sizes, p - HEADER) != size + HEADER then None
    else
      var k := IndexOf(a.used, p - HEADER, 0);
      if k.Some? && k.value < |a.used| then Some(Release(a, k.value)) else None
  }

  // ---- what holds of every arena a run reaches

  /** Chunks start at 0, end where another starts or the block ends, and do not overlap. */
  ghost predicate Tiled(sizes: map<nat, nat>) {
    && 0 in sizes
    && (forall c <- sizes :: sizes[c] >= HEADER && (c + sizes[c] == BLOCK || c + sizes[c] in sizes))
    && (forall c <- sizes, d <- sizes :: c < d ==> c + sizes[c] <= d)
    && (forall c <- sizes :: c + sizes[c] <= BLOCK)
  }

  function Total(sizes: map<nat, nat>, s: seq<nat>): nat {
    if s == [] then 0 else SizeAt(sizes, s[0]) + Total(sizes, s[1..])
  }

  /** The bytes behind the headers of the chunks of a list. */
  function Payload(sizes: map<nat, nat>, s: seq<nat>): int {
    Total(sizes, s) - HEADER * |s|
  }

  /** Each chunk is on exactly one of the lists, once. */
  ghost predicate Listed(a: Arena) {
    multiset(a.free) + multiset(a.used) == multiset(a.sizes.Keys)
  }

  ghost predicate Conserved(a: Arena) {
    Total(a.sizes, a.free) + Total(a.sizes, a.used) == BLOCK
  }

  ghost predicate Counted(a: Arena) {
    && a.allocatedBytes < WORD && a.freedBytes < WORD && a.nextGc < WORD
    && (a.allocatedBytes - a.freedBytes - Payload(a.sizes, a.used)) % WORD == 0
  }

  ghost predicate Valid(a: Arena) {
    Tiled(a.sizes) && Listed(a) && Conserved(a) && Counted(a)
  }

  // ---- lists

  lemma MemberOfOne(a: Arena, c: nat)
    requires Listed(a)
    ensures c in a.sizes <==> c in a.free || c in a.used
    ensures !(c in a.free && c in a.used)
  {
    assert multiset(a.sizes.Keys)[c] == multiset(a.free)[c] + multiset(a.used)[c];
    assert multiset(a.sizes.Keys)[c] == if c in a.sizes then 1 else 0;
  }

  lemma RemoveAtMultiset(s: seq<nat>, i: nat)
    requires i < |s|
    ensures multiset(RemoveAt(s, i)) == multiset(s) - multiset{s[i]}
  {
    assert s == s[..i] + ([s[i]] + s[i + 1..]);
  }

  lemma UpdateMultiset(s: seq<nat>, i: nat, x: nat)
    requires i < |s|
    ensures multiset(s[i := x]) == multiset(s) - multiset{s[i]} + multiset{x}
  {
    assert s == s[..i] + ([s[i]] + s[i + 1..]);
    assert s[i := x] == s[..i] + ([x] + s[i + 1..]);
  }

  lemma {:induction false} TotalAppend(sizes: map<nat, nat>, s: seq<nat>, t: seq<nat>)
    ensures Total(sizes, s + t) == Total(sizes, s) + Total(sizes, t)
  {
    if s == [] {
      assert s + t == t;
    } else {
      assert (s + t)[1..] == s[1..] + t;
      TotalAppend(sizes, s[1..], t);
    }
  }

  lemma TotalSplit(sizes: map<nat, nat>, s: seq<nat>, i: nat)
    requires i < |s|
    ensures Total(sizes, s) == Total(sizes, s[..i]) + SizeAt(sizes, s[i]) + Total(sizes, s[i + 1..])
  {
    assert s == s[..i] + ([s[i]] + s[i + 1..]);
    TotalAppend(sizes, s[..i], [s[i]] + s[i + 1..]);
    assert ([s[i]] + s[i + 1..])[1..] == s[i + 1..];
  }

  lemma TotalRemove(sizes: map<nat, nat>, s: seq<nat>, i: nat)
    requires i < |s|
    ensures Total(sizes, RemoveAt(s, i)) == Total(sizes, s) - SizeAt(sizes, s[i])
  {
    TotalSplit(sizes, s, i);
    TotalAppend(sizes, s[..i], s[i + 1..]);
  }

  lemma {:induction false} TotalSame(sizes: map<nat, nat>, sizes': map<nat, nat>, s: seq<nat>)
    requires forall c <- s :: SizeAt(sizes, c) == SizeAt(sizes', c)
    ensures Total(sizes, s) == Total(sizes', s)
  {
    if s != [] {
      assert s[0] in s;
      TotalSame(sizes, sizes', s[1..]);
    }
  }

  lemma TotalCons(sizes: map<nat, nat>, x: nat, s: seq<nat>)
    ensures Total(sizes, [x] + s) == SizeAt(sizes, x) + Total(sizes, s)
  {
    assert ([x] + s)[1..] == s;
  }

  lemma {:induction false} FirstFitFirst(sizes: map<nat, nat>, free: seq<nat>, i: nat, size: nat)
    ensures var r := FirstFit(sizes, free, i, size);
      match r
      case Some(k) => i <= k < |free| && Fits(SizeAt(sizes, free[k]), size)
                      && forall j :: i <= j < k ==> !Fits(SizeAt(sizes, free[j]), size)
      case None => forall j :: i <= j < |free| ==> !Fits(SizeAt(sizes, free[j]), size)
    decreases |free| - i
  {
    if i < |free| && !Fits(SizeAt(sizes, free[i]), size) {
      FirstFitFirst(sizes, free, i + 1, size);
    }
  }

  lemma {:induction false} FirstGarbageFirst(used: seq<nat>, keep: set<nat>, i: nat)
    ensures var r := FirstGarbage(used, keep, i);
      match r
      case Some(k) => i <= k < |used| && used[k] !in keep && forall j :: i <= j < k ==> used[j] in keep
      case None => forall j :: i <= j < |used| ==> used[j] in keep
    decreases |used| - i
  {
    if i < |used| && used[i] in keep {
      FirstGarbageFirst(used, keep, i + 1);
    }
  }

  lemma {:induction false} IndexOfFirst(s: seq<nat>, x: nat, i: nat)
    ensures var r := IndexOf(s, x, i);
      match r
      case Some(k) => i <= k < |s| && s[k] == x
      case None => x !in s[i..]
    requires i <= |s|
    decreases |s| - i
  {
    if i < |s| && s[i] != x {
      IndexOfFirst(s, x, i + 1);
      assert s[i..] == [s[i]] + s[i + 1..];
    }
  }

  // ---- every operation keeps Valid

  lemma FreshValid()
    ensures Valid(FRESH)
  {
    assert multiset([0]) + multiset([]) == multiset(map[0 := BLOCK].Keys);
    assert [0][1..] == [];
  }

  lemma SplitTiled(sizes: map<nat, nat>, c: nat, front: nat)
    requires Tiled(sizes) && c in sizes && HEADER <= front && front + HEADER <= sizes[c]
    ensures Tiled(sizes[c := front][c + front := sizes[c] - front]) && c + front !in sizes
  {
    NothingInside(sizes, c, c + front);
    var sizes' := sizes[c := front][c + front := sizes[c] - front];
    forall d <- sizes'
      ensures sizes'[d] >= HEADER && d + sizes'[d] <= BLOCK && (d + sizes'[d] == BLOCK || d + sizes'[d] in sizes')
    {
      assert d == c + front || (d in sizes && d + sizes[d] <= BLOCK);
    }
    forall d <- sizes', e <- sizes' | d < e ensures d + sizes'[d] <= e {
      var d0, e0 := if d == c + front then c else d, if e == c + front then c else e;
      assert d0 in sizes && e0 in sizes;
    }
  }

  lemma NothingInside(sizes: map<nat, nat>, c: nat, x: nat)
    requires Tiled(sizes) && c in sizes && c < x < c + sizes[c]
    ensures x !in sizes
  {
  }

  lemma WholeListed(a: Arena, i: nat)
    requires Listed(a) && i < |a.free|
    ensures multiset(RemoveAt(a.free, i)) + multiset([a.free[i]] + a.used) == multiset(a.sizes.Keys)
  {
    RemoveAtMultiset(a.free, i);
    assert multiset([a.free[i]] + a.used) == multiset{a.free[i]} + multiset(a.used);
  }

  lemma SplitListed(a: Arena, i: nat, rest: nat)
    requires Listed(a) && i < |a.free| && rest !in a.sizes
    ensures multiset(a.free[i := rest]) + multiset([a.free[i]] + a.used) == multiset(a.sizes.Keys + {rest})
  {
    UpdateMultiset(a.free, i, rest);
    assert multiset([a.free[i]] + a.used) == multiset{a.free[i]} + multiset(a.used);
    assert multiset(a.sizes.Keys + {rest}) == multiset(a.sizes.Keys) + multiset{rest};
  }

  lemma TakeWholeValid(a: Arena, i: nat, size: nat)
    requires Valid(a) && i < |a.free| && SizeAt(a.sizes, a.free[i]) == HEADER + size
    ensures Valid(Take(a, i, size))
  {
    hide Tiled, Total, RemoveAt;
    WholeListed(a, i);
    TotalCons(a.sizes, a.free[i], a.used);
    TotalRemove(a.sizes, a.free, i);
    WrapsAlike(a.allocatedBytes, a.freedBytes + Payload(a.sizes, a.used), size);
  }

  lemma SplitTotals(a: Arena, i: nat, front: nat)
    requires Tiled(a.sizes) && Listed(a) && i < |a.free| && HEADER <= front && front + HEADER <= SizeAt(a.sizes, a.free[i])
    ensures var c := a.free[i]; var rest := c + front;
      var sizes := a.sizes[c := front][rest := SizeAt(a.sizes, c) - front];
      && Total(sizes, [c] + a.used) == Total(a.sizes, a.used) + front
      && Total(sizes, a.free[i := rest]) == Total(a.sizes, a.free) - front
  {
    hide Total;
    var c := a.free[i];
    var rest := c + front;
    var sizes := a.sizes[c := front][rest := SizeAt(a.sizes, c) - front];
    MemberOfOne(a, c);
    NothingInside(a.sizes, c, rest);
    MemberOfOne(a, rest);
    ElsewhereSame(a, sizes, i, c, rest);
    TotalCons(sizes, c, a.used);
    TotalSame(a.sizes, sizes, a.used);
    TotalSplit(a.sizes, a.free, i);
    TotalSplit(sizes, a.free[i := rest], i);
    assert a.free[i := rest][..i] == a.free[..i] && a.free[i := rest][i + 1..] == a.free[i + 1..];
    TotalSame(a.sizes, sizes, a.free[..i]);
    TotalSame(a.sizes, sizes, a.free[i + 1..]);
  }

  /** Sizes that differ at c and rest only agree on every other chunk of the lists. */
  lemma ElsewhereSame(a: Arena, sizes: map<nat, nat>, i: nat, c: nat, rest: nat)
    requires Listed(a) && i < |a.free| && c == a.free[i] && rest !in a.sizes
    requires forall d :: d != c && d != rest ==> SizeAt(sizes, d) == SizeAt(a.sizes, d)
    ensures forall d <- a.used :: SizeAt(sizes, d) == SizeAt(a.sizes, d)
    ensures forall d <- a.free[..i] :: SizeAt(sizes, d) == SizeAt(a.sizes, d)
    ensures forall d <- a.free[i + 1..] :: SizeAt(sizes, d) == SizeAt(a.sizes, d)
  {
    hide SizeAt;
    MemberOfOne(a, c);
    MemberOfOne(a, rest);
    FreeElsewhere(a, i);
  }

  lemma TakeFrontValid(a: Arena, i: nat, size: nat)
    requires Valid(a) && i < |a.free| && SizeAt(a.sizes, a.free[i]) >= 2 * HEADER + size
    ensures Valid(Take(a, i, size))
  {
    hide Tiled, Total, SizeAt;
    var c := a.free[i];
    var front := HEADER + size;
    var rest := c + front;
    var have := SizeAt(a.sizes, c);
    MemberOfOne(a, c);
    assert c in a.sizes && a.sizes[c] == have by { MemberSize(a.sizes, c); }
    SplitTiled(a.sizes, c, front);
    SplitListed(a, i, rest);
    SplitTotals(a, i, front);
    assert a.sizes[c := front][rest := have - front].Keys == a.sizes.Keys + {rest};
    WrapsAlike(a.allocatedBytes, a.freedBytes + Payload(a.sizes, a.used), size);
  }

  lemma MemberSize(sizes: map<nat, nat>, c: nat)
    requires SizeAt(sizes, c) > 0
    ensures c in sizes && sizes[c] == SizeAt(sizes, c)
  {
  }

  /** A list of distinct chunks names its i-th nowhere else. */
  lemma FreeElsewhere(a: Arena, i: nat)
    requires Listed(a) && i < |a.free|
    ensures a.free[i] !in a.free[..i] && a.free[i] !in a.free[i + 1..]
  {
    assert multiset(a.sizes.Keys)[a.free[i]] == multiset(a.free)[a.free[i]] + multiset(a.used)[a.free[i]];
    assert a.free == a.free[..i] + ([a.free[i]] + a.free[i + 1..]);
  }

  lemma UsedElsewhere(a: Arena, k: nat)
    requires Listed(a) && k < |a.used|
    ensures a.used[k] !in RemoveAt(a.used, k)
  {
    RemoveAtMultiset(a.used, k);
    assert multiset(a.sizes.Keys)[a.used[k]] == multiset(a.free)[a.used[k]] + multiset(a.used)[a.used[k]];
    assert multiset(RemoveAt(a.used, k))[a.used[k]] == 0;
  }

  /** Adding x to the left of a congruence and to the right keeps it, whatever wraps. */
  lemma WrapsAlike(count: int, total: int, x: int)
    requires (count - total) % WORD == 0
    ensures ((count + x) % WORD - (total + x)) % WORD == 0
  {
    var q := (count + x) / WORD;
    assert (count + x) % WORD == count + x - WORD * q;
    assert (count - total - WORD * q) % WORD == 0;
  }

  lemma TakeValid(a: Arena, i: nat, size: nat)
    requires Valid(a) && i < |a.free| && Fits(SizeAt(a.sizes, a.free[i]), size)
    ensures Valid(Take(a, i, size))
  {
    hide Valid, Take, SizeAt;
    if SizeAt(a.sizes, a.free[i]) == HEADER + size {
      TakeWholeValid(a, i, size);
    } else {
      TakeFrontValid(a, i, size);
    }
  }

  lemma ReleaseListed(a: Arena, k: nat)
    requires Listed(a) && k < |a.used|
    ensures multiset([a.used[k]] + a.free) + multiset(RemoveAt(a.used, k)) == multiset(a.sizes.Keys)
  {
    RemoveAtMultiset(a.used, k);
    assert multiset([a.used[k]] + a.free) == multiset{a.used[k]} + multiset(a.free);
  }

  lemma ReleaseValid(a: Arena, k: nat)
    requires Valid(a) && k < |a.used|
    ensures Valid(Release(a, k))
  {
    hide Total, Tiled, SizeAt;
    var c := a.used[k];
    ReleaseListed(a, k);
    TotalRemove(a.sizes, a.used, k);
    TotalCons(a.sizes, c, a.free);
    assert SizeAt(a.sizes, c) >= HEADER by {
      MemberOfOne(a, c);
      ChunkSize(a.sizes, c);
    }
    var x := SizeAt(a.sizes, c) - HEADER;
    Negated(a.allocatedBytes - a.freedBytes - Payload(a.sizes, a.used));
    WrapsAlike(a.freedBytes, a.allocatedBytes - Payload(a.sizes, a.used), x);
    Negated((a.freedBytes + x) % WORD - (a.allocatedBytes - Payload(a.sizes, a.used) + x));
  }

  lemma Negated(x: int)
    requires x % WORD == 0
    ensures -x % WORD == 0
  {
    var q := x / WORD;
    assert x == q * WORD && -x == -q * WORD;
  }

  lemma ChunkSize(sizes: map<nat, nat>, c: nat)
    requires Tiled(sizes) && c in sizes
    ensures HEADER <= SizeAt(sizes, c) == sizes[c] && c + sizes[c] <= BLOCK
  {
  }

  lemma CollectValid(a: Arena, keep: set<nat>)
    requires Valid(a)
    ensures Valid(Collect(a, keep))
  {
    hide Release, Total, Tiled;
    FirstGarbageFirst(a.used, keep, 0);
    var k := FirstGarbage(a.used, keep, 0);
    if k.Some? { ReleaseValid(a, k.value); }
  }

  lemma AllocateValid(a: Arena, size: nat, keep: set<nat>)
    requires Valid(a)
    ensures Valid(Allocate(a, size, keep).0)
  {
    hide Take, Collect, Valid, Fits;
    FirstFitFirst(a.sizes, a.free, 0, size);
    var i := FirstFit(a.sizes, a.free, 0, size);
    if i.Some? {
      var b := Take(a, i.value, size);
      TakeValid(a, i.value, size);
      CollectValid(b, keep + {a.free[i.value]});
    }
  }

  lemma DeallocateValid(a: Arena, p: nat, size: nat)
    requires Valid(a)
    ensures var b := Deallocate(a, p, size); b.Some? ==> Valid(b.value)
  {
    hide Release, Valid;
    if p >= HEADER {
      var k := IndexOf(a.used, p - HEADER, 0);
      if k.Some? && k.value < |a.used| { ReleaseValid(a, k.value); }
    }
  }
}
