/** Runs of the allocator. */
module ArenaRuns {
  // What runs of the allocator keep, what they free, and when they collect.

  import opened Forms
  import opened Arenas

  /** keep: what the runtime's marker blackens if the event collects. */
  datatype Event =
    | Allocating(size: nat, keep: set<nat>)
    | Deallocating(p: nat, size: nat)
    | Collecting(keep: set<nat>)

  function Perform(a: Arena, e: Event): Option<Arena> {
    match e
    case Allocating(size, keep) => Some(Allocate(a, size, keep).0)
    case Deallocating(p, size) => Deallocate(a, p, size)
    case Collecting(keep) => Some(Collect(a, keep))
  }

  /** None once an assertion of the allocator has stopped the program. */
  function After(a: Arena, events: seq<Event>): Option<Arena>
    decreases |events|
  {
    if events == [] then Some(a)
    else
      match Perform(a, events[0])
      case None => None
      case Some(b) => After(b, events[1..])
  }

  // ---- tiling

  lemma PerformValid(a: Arena, e: Event)
    requires Valid(a)
    ensures var b := Perform(a, e); b.Some? ==> Valid(b.value)
  {
    hide Valid, Allocate, Deallocate, Collect;
    match e
    case Allocating(size, keep) => AllocateValid(a, size, keep);
    case Deallocating(p, size) => DeallocateValid(a, p, size);
    case Collecting(keep) => CollectValid(a, keep);
  }

  lemma {:induction false} RunValid(a: Arena, events: seq<Event>)
    requires Valid(a)
    ensures var b := After(a, events); b.Some? ==> Valid(b.value)
    decreases |events|
  {
    hide Valid, Perform;
    if events != [] {
      PerformValid(a, events[0]);
      var b := Perform(a, events[0]);
      if b.Some? { RunValid(b.value, events[1..]); }
    }
  }

  ghost predicate Owns(sizes: map<nat, nat>, c: nat, x: nat) {
    c in sizes && c <= x < c + sizes[c]
  }

  /** The chunk a byte lies in: walk from chunk to chunk. */
  lemma {:induction false} OwnerFrom(sizes: map<nat, nat>, c: nat, x: nat) returns (owner: nat)
    requires Tiled(sizes) && c in sizes && c <= x < BLOCK
    ensures Owns(sizes, owner, x)
    decreases BLOCK - c
  {
    if x < c + sizes[c] {
      owner := c;
    } else {
      owner := OwnerFrom(sizes, c + sizes[c], x);
    }
  }

  /** Every byte of the block belongs to exactly one chunk. */
  lemma EveryByteInOneChunk(sizes: map<nat, nat>, x: nat)
    requires Tiled(sizes) && x < BLOCK
    ensures exists c :: Owns(sizes, c, x)
    ensures forall c, d :: Owns(sizes, c, x) && Owns(sizes, d, x) ==> c == d
  {
    var c := OwnerFrom(sizes, 0, x);
  }

  // ---- accounting

  lemma {:induction false} TotalAtLeast(sizes: map<nat, nat>, s: seq<nat>)
    requires Tiled(sizes) && forall c <- s :: c in sizes
    ensures Payload(sizes, s) >= 0
  {
    hide Tiled;
    if s != [] {
      assert s[0] in s;
      ChunkSize(sizes, s[0]);
      TotalAtLeast(sizes, s[1..]);
    }
  }

  /** inspect_allocation's wrapping difference of two counters is the exact payload in use. */
  lemma InspectIsPayload(a: Arena)
    requires Valid(a)
    ensures (a.allocatedBytes - a.freedBytes) % WORD == Payload(a.sizes, a.used)
    ensures 0 <= Payload(a.sizes, a.used) <= BLOCK
  {
    hide Tiled, Total;
    forall c <- a.used ensures c in a.sizes { MemberOfOne(a, c); }
    TotalAtLeast(a.sizes, a.used);
    Residue(a.allocatedBytes - a.freedBytes, Payload(a.sizes, a.used));
  }

  lemma Residue(x: int, y: nat)
    requires (x - y) % WORD == 0 && y < WORD
    ensures x % WORD == y
  {
    var q := (x - y) / WORD;
    assert x == q * WORD + y;
  }

  // ---- what one allocation and one deallocation do

  ghost predicate IsFirstFit(a: Arena, i: nat, size: nat) {
    && i < |a.free| && Fits(SizeAt(a.sizes, a.free[i]), size)
    && forall j :: 0 <= j < i ==> !Fits(SizeAt(a.sizes, a.free[j]), size)
  }

  /** An allocation fails exactly when no free chunk fits; otherwise the first that fits is cut to size. */
  lemma AllocateTakesFirstFit(a: Arena, size: nat, keep: set<nat>)
    requires Valid(a)
    ensures var (b, p) := Allocate(a, size, keep);
      && (p.None? <==> forall c <- a.free :: !Fits(SizeAt(a.sizes, c), size))
      && (p.None? ==> b == a)
      && (p.Some? ==> exists i: nat :: IsFirstFit(a, i, size) && p.value == a.free[i] + HEADER)
  {
    hide Take, Collect, Fits, SizeAt, Valid;
    FirstFitFirst(a.sizes, a.free, 0, size);
    var i := FirstFit(a.sizes, a.free, 0, size);
    if i.Some? {
      assert a.free[i.value] in a.free;
      assert IsFirstFit(a, i.value, size);
    }
  }

  /**
   The first request of all, in bytes: of the 4 MiB a header takes 24, and the rest must hold another header unless
   it is used up exactly. It is granted at the front of the block, and collects from 1024 bytes on.
   */
  lemma FirstGrant(size: nat, keep: set<nat>)
    ensures var (b, p) := Allocate(FRESH, size, keep);
      && (p.Some? <==> size == 4194280 || size <= 4194256)
      && (p.Some? ==> p.value == 24 && b.used == [0] && SizeAt(b.sizes, 0) == 24 + size && b.allocatedBytes == size)
      && (p.Some? ==> b.nextGc == if size >= 1024 then 2048 else 1024)
  {
    assert FirstFit(FRESH.sizes, [0], 0, size) == if Fits(BLOCK, size) then Some(0) else None;
    if Fits(BLOCK, size) {
      var t := Take(FRESH, 0, size);
      FirstGarbageFirst(t.used, keep + {0}, 0);
    }
  }

  /** Chunks in use keep their place and their size when another is taken; the one taken was not in use. */
  lemma TakeKeepsUsed(a: Arena, i: nat, size: nat)
    requires Valid(a) && i < |a.free| && Fits(SizeAt(a.sizes, a.free[i]), size)
    ensures a.free[i] !in a.used
    ensures SizeAt(Take(a, i, size).sizes, a.free[i]) == HEADER + size
    ensures forall c <- a.used :: SizeAt(Take(a, i, size).sizes, c) == SizeAt(a.sizes, c)
  {
    hide Tiled, Conserved, Counted;
    var c := a.free[i];
    MemberOfOne(a, c);
    if SizeAt(a.sizes, c) != HEADER + size {
      NothingInside(a.sizes, c, c + HEADER + size);
      forall d <- a.used ensures d != c && d != c + HEADER + size { MemberOfOne(a, d); }
    }
  }

  /** A collection only moves one chunk of the allocated list, and none that is kept. */
  lemma CollectKeeps(a: Arena, keep: set<nat>)
    ensures Collect(a, keep).sizes == a.sizes
    ensures forall c <- a.used :: c in keep ==> c in Collect(a, keep).used
  {
    FirstGarbageFirst(a.used, keep, 0);
    var k := FirstGarbage(a.used, keep, 0);
    if k.Some? {
      forall c <- a.used | c in keep ensures c in RemoveAt(a.used, k.value) {
        StaysElsewhere(a.used, k.value, c);
      }
    }
  }

  lemma StaysElsewhere(s: seq<nat>, k: nat, c: nat)
    requires k < |s| && c in s && c != s[k]
    ensures c in RemoveAt(s, k)
  {
    RemoveAtMultiset(s, k);
    assert multiset(s)[c] > 0;
    assert multiset(RemoveAt(s, k))[c] > 0;
  }

  /** The chunk handed out is of the size asked for, was not in use, and survives the collection it triggers. */
  lemma AllocateKeepsUsed(a: Arena, size: nat, keep: set<nat>, c: nat)
    requires Valid(a) && c in a.used && c in keep
    ensures var (b, p) := Allocate(a, size, keep);
      && c in b.used && SizeAt(b.sizes, c) == SizeAt(a.sizes, c)
      && (p.Some? ==> p.value >= HEADER && p.value != c + HEADER && p.value - HEADER in b.used
                      && SizeAt(b.sizes, p.value - HEADER) == HEADER + size)
  {
    hide Valid, Fits, Collect, SizeAt, FirstFit;
    FirstFitFirst(a.sizes, a.free, 0, size);
    var i := FirstFit(a.sizes, a.free, 0, size);
    if i.Some? {
      TakeKeepsUsed(a, i.value, size);
      CollectKeeps(Take(a, i.value, size), keep + {a.free[i.value]});
    }
  }

  /** What is handed out was not in use before and is now. */
  lemma AllocateIsNew(a: Arena, size: nat, keep: set<nat>)
    requires Valid(a)
    ensures var (b, p) := Allocate(a, size, keep);
      p.Some? ==> p.value >= HEADER && p.value - HEADER in b.used && p.value - HEADER !in a.used
  {
    hide Valid, Fits, Collect, SizeAt, FirstFit;
    FirstFitFirst(a.sizes, a.free, 0, size);
    var i := FirstFit(a.sizes, a.free, 0, size);
    if i.Some? {
      TakeKeepsUsed(a, i.value, size);
      CollectKeeps(Take(a, i.value, size), keep + {a.free[i.value]});
    }
  }

  /** deallocate stops the program unless the chunk is in use and the size is the one asked for. */
  lemma DeallocateSucceedsIff(a: Arena, p: nat, size: nat)
    requires Valid(a)
    ensures Deallocate(a, p, size).Some? <==>
      p >= HEADER && p - HEADER in a.used && SizeAt(a.sizes, p - HEADER) == size + HEADER
  {
    hide Valid, Release, SizeAt;
    if p >= HEADER {
      IndexOfFirst(a.used, p - HEADER, 0);
      assert a.used[0..] == a.used;
    }
  }

  /** Giving a chunk back restores the allocated list, and the next request of that size gets it again. */
  lemma DeallocateUndoesAllocate(a: Arena, size: nat, keep: set<nat>, keep': set<nat>)
    requires Valid(a)
    requires var (b, p) := Allocate(a, size, keep); p.Some? && b.allocatedBytes < b.nextGc
    requires (a.allocatedBytes + size) % WORD < a.nextGc
    ensures var (b, p) := Allocate(a, size, keep);
      var c := Deallocate(b, p.value, size);
      && c.Some? && c.value.used == a.used
      && Allocate(c.value, size, keep').1 == p
  {
    hide Valid, Listed, Tiled, Conserved, Counted;
    FirstFitFirst(a.sizes, a.free, 0, size);
    var i := FirstFit(a.sizes, a.free, 0, size).value;
    TakeKeepsUsed(a, i, size);
    var b := Take(a, i, size);
    assert RemoveAt(b.used, 0) == a.used;
  }

  // ---- over runs

  function HandedOut(a: Arena, events: seq<Event>): set<nat>
    decreases |events|
  {
    if events == [] then {}
    else
      var now := if events[0].Allocating? then
                   match Allocate(a, events[0].size, events[0].keep).1
                   case Some(p) => {p}
                   case None => {}
                 else {};
      match Perform(a, events[0])
      case None => now
      case Some(b) => now + HandedOut(b, events[1..])
  }

  /** The event neither gives c back nor leaves it unmarked. */
  predicate Holds(e: Event, c: nat) {
    match e
    case Allocating(_, keep) => c in keep
    case Deallocating(p, _) => p != c + HEADER
    case Collecting(keep) => c in keep
  }

  lemma PerformPins(a: Arena, e: Event, c: nat)
    requires Valid(a) && c in a.used && Holds(e, c)
    ensures var b := Perform(a, e); b.Some? ==> c in b.value.used && SizeAt(b.value.sizes, c) == SizeAt(a.sizes, c)
  {
    hide Valid, Allocate, Collect, SizeAt, RemoveAt;
    match e
    case Allocating(size, keep) => AllocateKeepsUsed(a, size, keep, c);
    case Collecting(keep) => CollectKeeps(a, keep); SizeKept(a, keep, c);
    case Deallocating(p, size) =>
      if p >= HEADER {
        IndexOfFirst(a.used, p - HEADER, 0);
        var k := IndexOf(a.used, p - HEADER, 0);
        if k.Some? { StaysElsewhere(a.used, k.value, c); }
      }
  }

  lemma SizeKept(a: Arena, keep: set<nat>, c: nat)
    ensures SizeAt(Collect(a, keep).sizes, c) == SizeAt(a.sizes, c)
  {
  }

  /**
   A chunk that every collection of a run finds marked and nobody gives back stays in use at its address
   with its size, and its address is never handed out again.
   */
  lemma {:induction false} PinnedOverRun(a: Arena, events: seq<Event>, c: nat)
    requires Valid(a) && c in a.used
    requires forall e <- events :: Holds(e, c)
    ensures var b := After(a, events); b.Some? ==> c in b.value.used && SizeAt(b.value.sizes, c) == SizeAt(a.sizes, c)
    ensures c + HEADER !in HandedOut(a, events)
    decreases |events|
  {
    hide Valid, Perform, Allocate, SizeAt, Holds;
    if events != [] {
      var e := events[0];
      assert e in events;
      PerformPins(a, e, c);
      PerformValid(a, e);
      if e.Allocating? {
        assert c in e.keep by { HoldsAllocating(e, c); }
        AllocateKeepsUsed(a, e.size, e.keep, c);
      }
      var b := Perform(a, e);
      if b.Some? {
        PinnedOverRun(b.value, events[1..], c);
      }
    }
  }

  lemma HoldsAllocating(e: Event, c: nat)
    requires e.Allocating? && Holds(e, c)
    ensures c in e.keep
  {
  }

  // ---- what a collection frees

  function Kept(s: seq<nat>, keep: set<nat>): seq<nat> {
    if s == [] then [] else (if s[0] in keep then [s[0]] else []) + Kept(s[1..], keep)
  }

  function Garbage(s: seq<nat>, keep: set<nat>): seq<nat> {
    if s == [] then [] else (if s[0] !in keep then [s[0]] else []) + Garbage(s[1..], keep)
  }

  lemma {:induction false} RemoveFirstGarbage(s: seq<nat>, keep: set<nat>, k: nat)
    requires k < |s| && s[k] !in keep && forall j :: 0 <= j < k ==> s[j] in keep
    ensures Kept(RemoveAt(s, k), keep) == Kept(s, keep)
    ensures Garbage(s, keep) == [s[k]] + Garbage(RemoveAt(s, k), keep)
  {
    if k > 0 {
      RemoveFirstGarbage(s[1..], keep, k - 1);
      assert RemoveAt(s, k) == [s[0]] + RemoveAt(s[1..], k - 1);
    } else {
      assert RemoveAt(s, 0) == s[1..];
    }
  }

  lemma {:induction false} NoGarbage(s: seq<nat>, keep: set<nat>)
    requires forall j :: 0 <= j < |s| ==> s[j] in keep
    ensures Kept(s, keep) == s && Garbage(s, keep) == []
  {
    if s != [] { NoGarbage(s[1..], keep); }
  }

  lemma {:induction false} KeptIsAll(s: seq<nat>, keep: set<nat>)
    ensures |Kept(s, keep)| + |Garbage(s, keep)| == |s|
    ensures Garbage(s, keep) == [] ==> Kept(s, keep) == s
  {
    if s != [] { KeptIsAll(s[1..], keep); }
  }

  /** A collection gives back the first garbage chunk of the allocated list and leaves all else in its order. */
  lemma {:induction false} CollectFreesOne(a: Arena, keep: set<nat>)
    ensures var b := Collect(a, keep);
      var garbage := Garbage(a.used, keep);
      && Kept(b.used, keep) == Kept(a.used, keep)
      && Garbage(b.used, keep) == (if garbage == [] then [] else garbage[1..])
      && b.free == (if garbage == [] then [] else garbage[..1]) + a.free
  {
    hide Kept, Garbage, FirstGarbage, RemoveAt, SizeAt;
    FirstGarbageFirst(a.used, keep, 0);
    var k := FirstGarbage(a.used, keep, 0);
    if k.Some? {
      RemoveFirstGarbage(a.used, keep, k.value);
    } else {
      NoGarbage(a.used, keep);
    }
  }

  function CollectTimes(a: Arena, keep: set<nat>, n: nat): Arena
    decreases n
  {
    if n == 0 then a else CollectTimes(Collect(a, keep), keep, n - 1)
  }

  /**
   n collections free the first n garbage chunks. They leave exactly what the marker reaches, in its
   original order, if and only if there were no more than n: one collection is complete only when at
   most one chunk is garbage.
   */
  lemma {:induction false} CollectionsComplete(a: Arena, keep: set<nat>, n: nat)
    ensures Kept(CollectTimes(a, keep, n).used, keep) == Kept(a.used, keep)
    ensures var garbage := Garbage(a.used, keep);
      Garbage(CollectTimes(a, keep, n).used, keep) == (if n >= |garbage| then [] else garbage[n..])
    ensures CollectTimes(a, keep, n).used == Kept(a.used, keep) <==> |Garbage(a.used, keep)| <= n
    decreases n
  {
    hide Collect, Kept, Garbage;
    if n > 0 {
      CollectFreesOne(a, keep);
      CollectionsComplete(Collect(a, keep), keep, n - 1);
    }
    KeptIsAll(CollectTimes(a, keep, n).used, keep);
    KeptIsAll(Kept(a.used, keep), keep);
    KeptIsKept(a.used, keep);
  }

  lemma {:induction false} KeptIsKept(s: seq<nat>, keep: set<nat>)
    ensures Garbage(Kept(s, keep), keep) == []
  {
    if s != [] {
      KeptIsKept(s[1..], keep);
      var rest := Kept(s[1..], keep);
      assert Kept(s, keep) == if s[0] in keep then [s[0]] + rest else rest;
      assert ([s[0]] + rest)[1..] == rest;
    }
  }

  // ---- the sweep that was meant

  function Reversed(s: seq<nat>): seq<nat> {
    if s == [] then [] else Reversed(s[1..]) + [s[0]]
  }

  /** The sweep with every link read before its chunk is given back: all garbage goes. */
  function SweepAll(a: Arena, keep: set<nat>): Arena
    decreases |a.used|
  {
    var k := FirstGarbage(a.used, keep, 0);
    if k.Some? && k.value < |a.used| then SweepAll(Release(a, k.value), keep) else a
  }

  /** It leaves exactly the kept chunks, in their order, and puts the others on the free list, the last one first. */
  lemma {:induction false} SweepAllExact(a: Arena, keep: set<nat>)
    ensures var b := SweepAll(a, keep);
      && b.used == Kept(a.used, keep)
      && b.free == Reversed(Garbage(a.used, keep)) + a.free
      && b.sizes == a.sizes && b.nextGc == a.nextGc
    decreases |a.used|
  {
    FirstGarbageFirst(a.used, keep, 0);
    var k := FirstGarbage(a.used, keep, 0);
    if k.Some? {
      var g := a.used[k.value];
      var b := Release(a, k.value);
      RemoveFirstGarbage(a.used, keep, k.value);
      SweepAllExact(b, keep);
      var rest := Garbage(b.used, keep);
      assert ([g] + rest)[1..] == rest;
      assert Reversed(rest) + ([g] + a.free) == Reversed(rest) + [g] + a.free;
    } else {
      NoGarbage(a.used, keep);
    }
  }

  lemma {:induction false} SweepAllValid(a: Arena, keep: set<nat>)
    requires Valid(a)
    ensures Valid(SweepAll(a, keep))
    decreases |a.used|
  {
    hide Valid, Release;
    var k := FirstGarbage(a.used, keep, 0);
    if k.Some? && k.value < |a.used| {
      ReleaseValid(a, k.value);
      ReleaseShortens(a, k.value);
      SweepAllValid(Release(a, k.value), keep);
    }
  }

  lemma ReleaseShortens(a: Arena, k: nat)
    requires k < |a.used|
    ensures |Release(a, k).used| < |a.used|
  {
  }

  /** A collection as written does what was meant if and only if at most one chunk is garbage. */
  lemma CollectAsMeantIff(a: Arena, keep: set<nat>)
    ensures Collect(a, keep) == SweepAll(a, keep).(nextGc := 2 * a.nextGc % WORD) <==> |Garbage(a.used, keep)| <= 1
  {
    hide Kept, Garbage, Reversed;
    FirstGarbageFirst(a.used, keep, 0);
    SweepAllExact(a, keep);
    CollectionsComplete(a, keep, 1);
    CollectFreesOne(a, keep);
    assert CollectTimes(a, keep, 1) == Collect(a, keep) by { CollectOnce(a, keep); }
    var k := FirstGarbage(a.used, keep, 0);
    if |Garbage(a.used, keep)| <= 1 {
      if k.Some? {
        var b := Release(a, k.value);
        RemoveFirstGarbage(a.used, keep, k.value);
        assert Garbage(b.used, keep) == [];
        SweptAlready(b, keep);
      }
    }
  }

  lemma CollectOnce(a: Arena, keep: set<nat>)
    ensures CollectTimes(a, keep, 1) == Collect(a, keep)
  {
    assert CollectTimes(Collect(a, keep), keep, 0) == Collect(a, keep);
  }

  lemma SweptAlready(a: Arena, keep: set<nat>)
    requires Garbage(a.used, keep) == []
    ensures SweepAll(a, keep) == a
  {
    FirstGarbageFirst(a.used, keep, 0);
    var k := FirstGarbage(a.used, keep, 0);
    if k.Some? { RemoveFirstGarbage(a.used, keep, k.value); }
  }

  // ---- when collections happen

  function Pow2(n: nat): nat {
    if n == 0 then 1 else 2 * Pow2(n - 1)
  }

  predicate Collects(a: Arena, e: Event) {
    match e
    case Allocating(size, keep) => Allocate(a, size, keep).1.Some? && (a.allocatedBytes + size) % WORD >= a.nextGc
    case Deallocating(_, _) => false
    case Collecting(_) => true
  }

  function Collections(a: Arena, events: seq<Event>): nat
    decreases |events|
  {
    if events == [] then 0
    else
      (if Collects(a, events[0]) then 1 else 0)
      + match Perform(a, events[0])
        case None => 0
        case Some(b) => Collections(b, events[1..])
  }

  /** The bytes of all requests that were granted, without wrap-around. */
  function Requested(a: Arena, events: seq<Event>): nat
    decreases |events|
  {
    if events == [] then 0
    else
      (if events[0].Allocating? && Allocate(a, events[0].size, events[0].keep).1.Some? then events[0].size else 0)
      + match Perform(a, events[0])
        case None => 0
        case Some(b) => Requested(b, events[1..])
  }

  /** The threshold's 32-bit word is empty after this many doublings of 1024. */
  const DOUBLINGS: nat := 22

  /** After k collections and total bytes granted. */
  ghost predicate Scheduled(a: Arena, k: nat, total: nat) {
    && a.nextGc == FIRST_GC * Pow2(k) % WORD
    && a.allocatedBytes == total % WORD
    && (1 <= k <= DOUBLINGS ==> total >= 512 * Pow2(k))
  }

  lemma DoublingWraps(k: nat)
    ensures 2 * (FIRST_GC * Pow2(k) % WORD) % WORD == FIRST_GC * Pow2(k + 1) % WORD
  {
    var x := FIRST_GC * Pow2(k);
    var q := x / WORD;
    assert x == q * WORD + x % WORD;
    assert 2 * x == 2 * q * WORD + 2 * (x % WORD);
    Multiple(2 * q, 2 * (x % WORD));
  }

  lemma Multiple(q: nat, x: nat)
    ensures (q * WORD + x) % WORD == x % WORD
  {
    var r := x / WORD;
    assert x == r * WORD + x % WORD;
    assert q * WORD + x == (q + r) * WORD + x % WORD;
    assert (q * WORD + x - x % WORD) % WORD == 0 by { MultipleIsZero(q + r); }
  }

  lemma MultipleIsZero(q: nat)
    ensures q * WORD % WORD == 0
  {
  }

  lemma {:induction false} PowMonotone(k: nat, m: nat)
    requires k <= m
    ensures Pow2(k) <= Pow2(m)
  {
    if k < m { PowMonotone(k, m - 1); }
  }

  lemma PowValues()
    ensures Pow2(DOUBLINGS) == 0x40_0000
  {
    assert Pow2(4) == 16;
    assert Pow2(8) == 256;
    assert Pow2(12) == 4096;
    assert Pow2(16) == 0x1_0000;
    assert Pow2(20) == 0x10_0000;
  }

  /** The threshold is exact until its word empties: before the 22nd collection nothing has wrapped. */
  lemma ThresholdExact(k: nat)
    ensures k < DOUBLINGS ==> FIRST_GC * Pow2(k) % WORD == FIRST_GC * Pow2(k)
  {
    if k < DOUBLINGS {
      PowMonotone(k, DOUBLINGS - 1);
      PowValues();
      assert 2 * Pow2(DOUBLINGS - 1) == Pow2(DOUBLINGS);
    }
  }

  /** From the 22nd collection on the threshold is 0, so that every allocation collects. */
  lemma {:induction false} ThresholdEmpties(k: nat)
    requires k >= DOUBLINGS
    ensures FIRST_GC * Pow2(k) % WORD == 0
  {
    if k == DOUBLINGS {
      PowValues();
    } else {
      ThresholdEmpties(k - 1);
      DoublingWraps(k - 1);
    }
  }

  lemma AllocateCounts(a: Arena, size: nat, keep: set<nat>)
    ensures var (b, p) := Allocate(a, size, keep);
      && b.allocatedBytes == (if p.Some? then (a.allocatedBytes + size) % WORD else a.allocatedBytes)
      && b.nextGc == (if Collects(a, Allocating(size, keep)) then 2 * a.nextGc % WORD else a.nextGc)
  {
    hide FirstFit, FirstGarbage, Fits;
  }

  lemma SumWraps(total: nat, size: nat)
    ensures (total % WORD + size) % WORD == (total + size) % WORD
  {
    var q := total / WORD;
    assert total + size == q * WORD + (total % WORD + size);
    Multiple(q, total % WORD + size);
  }

  lemma StepScheduled(a: Arena, e: Event, k: nat, total: nat)
    requires Scheduled(a, k, total) && !e.Collecting?
    ensures var b := Perform(a, e);
      b.Some? ==> Scheduled(b.value, k + if Collects(a, e) then 1 else 0,
                                     total + if e.Allocating? && Allocate(a, e.size, e.keep).1.Some? then e.size else 0)
  {
    hide Allocate, Pow2;
    if e.Allocating? {
      AllocateCounts(a, e.size, e.keep);
      if Allocate(a, e.size, e.keep).1.Some? {
        SumWraps(total, e.size);
        if Collects(a, e) {
          DoublingWraps(k);
          ThresholdExact(k);
          NextPow(k);
        }
      }
    }
  }

  lemma NextPow(k: nat)
    ensures Pow2(k + 1) == 2 * Pow2(k)
  {
  }

  lemma {:induction false} RunScheduled(a: Arena, events: seq<Event>, k: nat, total: nat)
    requires Scheduled(a, k, total)
    requires forall e <- events :: !e.Collecting?
    ensures var b := After(a, events);
      b.Some? ==> Scheduled(b.value, k + Collections(a, events), total + Requested(a, events))
    decreases |events|
  {
    hide Scheduled, Perform, Allocate, Collects;
    if events != [] {
      var e := events[0];
      assert e in events;
      StepScheduled(a, e, k, total);
      var b := Perform(a, e);
      if b.Some? {
        RunScheduled(b.value, events[1..],
                     k + if Collects(a, e) then 1 else 0,
                     total + if e.Allocating? && Allocate(a, e.size, e.keep).1.Some? then e.size else 0);
      }
    }
  }

  /**
   While the threshold's word has not wrapped, k collections mean at least 512 * 2^k bytes granted: their
   number is logarithmic in what the program allocates. Once it has, every request granted collects.
   */
  lemma CollectionSchedule(events: seq<Event>)
    requires forall e <- events :: !e.Collecting?
    requires After(FRESH, events).Some?
    ensures var b := After(FRESH, events).value; var k := Collections(FRESH, events);
      && (k < DOUBLINGS ==> b.nextGc == FIRST_GC * Pow2(k))
      && (1 <= k <= DOUBLINGS ==> Requested(FRESH, events) >= 512 * Pow2(k))
      && (k >= DOUBLINGS ==>
            b.nextGc == 0 && forall size, keep :: Collects(b, Allocating(size, keep)) <==> Allocate(b, size, keep).1.Some?)
  {
    hide After, Collections, Requested, Allocate, Pow2;
    assert Pow2(0) == 1 by { PowZero(); }
    RunScheduled(FRESH, events, 0, 0);
    var k := Collections(FRESH, events);
    ThresholdExact(k);
    if k >= DOUBLINGS { ThresholdEmpties(k); }
  }

  lemma PowZero()
    ensures Pow2(0) == 1
  {
  }
}
