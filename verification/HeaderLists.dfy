/**
 The headers in the block and the two linked lists through them: chains of headers as sequences, what
 redirecting a link does to a chain, what a set of headers stands for as an arena, and what painting marks
 on them changes.
 */
module HeaderLists {
  import opened Forms
  import opened Arenas
  import opened ArenaRuns
  import opened Objects

  datatype Mark = White | Grey | Black

  datatype Header = Header(size: nat, mark: Mark, inUse: bool, next: Option<nat>)

  type Headers = map<nat, Header>

  // ---- linked lists through the headers

  function HeadOf(s: seq<nat>, i: nat): Option<nat> {
    if i < |s| then Some(s[i]) else None
  }

  ghost predicate Chain(h: Headers, first: Option<nat>, s: seq<nat>) {
    && first == HeadOf(s, 0)
    && forall i: nat :: i < |s| ==> s[i] in h && h[s[i]].next == HeadOf(s, i + 1)
  }

  ghost predicate Distinct(s: seq<nat>) {
    forall i, j :: 0 <= i < j < |s| ==> s[i] != s[j]
  }

  /** h' has the links of h at the elements of s. */
  ghost predicate SameLinks(h: Headers, h': Headers, s: seq<nat>) {
    forall c <- s :: c in h && c in h' && h'[c].next == h[c].next
  }

  lemma ChainSame(h: Headers, h': Headers, first: Option<nat>, s: seq<nat>)
    requires Chain(h, first, s) && SameLinks(h, h', s)
    ensures Chain(h', first, s)
  {
  }

  lemma ChainLink(h: Headers, first: Option<nat>, s: seq<nat>, i: nat)
    requires Chain(h, first, s)
    ensures first == HeadOf(s, 0) && (i < |s| ==> s[i] in h && h[s[i]].next == HeadOf(s, i + 1))
  {
  }

  lemma SameLinkAt(h: Headers, h': Headers, s: seq<nat>, i: nat)
    requires SameLinks(h, h', s) && i < |s|
    ensures s[i] in h && s[i] in h' && h'[s[i]].next == h[s[i]].next
  {
    assert s[i] in s;
  }

  lemma HeadOfPushed(c: nat, s: seq<nat>, i: nat)
    ensures HeadOf([c] + s, i + 1) == HeadOf(s, i)
  {
  }

  lemma HeadOfRemoved(s: seq<nat>, k: nat, i: nat)
    requires k < |s|
    ensures HeadOf(RemoveAt(s, k), i) == HeadOf(s, if i < k then i else i + 1)
  {
  }

  lemma ChainPush(h: Headers, h': Headers, first: Option<nat>, s: seq<nat>, c: nat)
    requires Chain(h, first, s) && SameLinks(h, h', s) && c in h' && h'[c].next == first
    ensures Chain(h', Some(c), [c] + s)
  {
    hide HeadOf, SameLinks;
    var t := [c] + s;
    forall i: nat | i < |t| ensures t[i] in h' && h'[t[i]].next == HeadOf(t, i + 1) {
      HeadOfPushed(c, s, i);
      if i > 0 {
        ChainLink(h, first, s, i - 1);
        SameLinkAt(h, h', s, i - 1);
      } else {
        ChainLink(h, first, s, 0);
      }
    }
    assert HeadOf(t, 0) == Some(c) by { FirstOf(t); }
  }

  lemma FirstOf(s: seq<nat>)
    requires s != []
    ensures HeadOf(s, 0) == Some(s[0])
  {
  }

  /** Redirecting the link in front of s[k] past it takes it off the list. */
  lemma ChainRemove(h: Headers, h': Headers, first: Option<nat>, s: seq<nat>, k: nat)
    requires Chain(h, first, s) && k < |s|
    requires SameLinks(h, h', s[k + 1..])
    requires k > 0 ==> SameLinks(h, h', s[..k - 1]) && s[k - 1] in h' && h'[s[k - 1]].next == h[s[k]].next
    ensures Chain(h', if k == 0 then h[s[0]].next else first, RemoveAt(s, k))
  {
    hide HeadOf, SameLinks;
    var t := RemoveAt(s, k);
    ChainLink(h, first, s, k);
    HeadOfRemoved(s, k, 0);
    forall i: nat | i < |t| ensures t[i] in h' && h'[t[i]].next == HeadOf(t, i + 1) {
      HeadOfRemoved(s, k, i + 1);
      if i >= k {
        ChainLink(h, first, s, i + 1);
        SameLinkAt(h, h', s[k + 1..], i - k);
      } else if i < k - 1 {
        ChainLink(h, first, s, i);
        SameLinkAt(h, h', s[..k - 1], i);
      }
    }
  }

  /** Redirecting it to c, which goes on where s[k] did, puts c in its place. */
  lemma ChainReplace(h: Headers, h': Headers, first: Option<nat>, s: seq<nat>, k: nat, c: nat)
    requires Chain(h, first, s) && k < |s| && c in h' && h'[c].next == h[s[k]].next
    requires SameLinks(h, h', s[k + 1..])
    requires k > 0 ==> SameLinks(h, h', s[..k - 1]) && s[k - 1] in h' && h'[s[k - 1]].next == Some(c)
    ensures Chain(h', if k == 0 then Some(c) else first, s[k := c])
  {
    hide SameLinks;
    var t := s[k := c];
    ChainLink(h, first, s, k);
    forall i: nat | i < |t| ensures t[i] in h' && h'[t[i]].next == HeadOf(t, i + 1) {
      ChainLink(h, first, s, i);
      if i > k {
        SameLinkAt(h, h', s[k + 1..], i - k - 1);
      } else if i < k - 1 {
        SameLinkAt(h, h', s[..k - 1], i);
      }
    }
  }

  // ---- what the block stands for

  ghost predicate Represents(h: Headers, firstFree: Option<nat>, firstAllocated: Option<nat>, a: Arena) {
    && h.Keys == a.sizes.Keys
    && (forall c <- h :: h[c].size == a.sizes[c])
    && (forall c <- h :: h[c].inUse <==> c in a.used)
    && (forall c <- a.free :: c in h && h[c].mark != Grey)
    && Chain(h, firstFree, a.free)
    && Chain(h, firstAllocated, a.used)
  }

  lemma ListsDistinct(a: Arena)
    requires Listed(a)
    ensures Distinct(a.free) && Distinct(a.used)
    ensures forall c <- a.free :: c in a.sizes && c !in a.used
    ensures forall c <- a.used :: c in a.sizes && c !in a.free
  {
    forall i, j | 0 <= i < j < |a.free| ensures a.free[i] != a.free[j] {
      FreeElsewhere(a, i);
      assert a.free[i + 1..][j - i - 1] == a.free[j];
    }
    forall i, j | 0 <= i < j < |a.used| ensures a.used[i] != a.used[j] {
      UsedElsewhere(a, i);
      assert RemoveAt(a.used, i)[j - 1] == a.used[j];
    }
    forall c <- a.free ensures c in a.sizes && c !in a.used { MemberOfOne(a, c); }
    forall c <- a.used ensures c in a.sizes && c !in a.free { MemberOfOne(a, c); }
  }

  // ---- marking

  function Paint(h: Headers, s: set<nat>, mark: Mark): Headers {
    map c <- h :: if c in s then h[c].(mark := mark) else h[c]
  }

  lemma PaintKeys(h: Headers, s: set<nat>, mark: Mark)
    ensures Paint(h, s, mark).Keys == h.Keys
  {
  }

  lemma PaintBoth(h: Headers, s: set<nat>, t: set<nat>, mark: Mark)
    ensures Paint(Paint(h, s, mark), t, mark) == Paint(h, s + t, mark)
  {
  }

  /** Painting what s reaches and then what t reaches paints what both reach. */
  lemma PaintReach(h: Headers, mem: Memory, s: seq<nat>, t: seq<nat>)
    ensures Paint(Paint(h, Reach(mem, s), Black), Reach(mem, t), Black) == Paint(h, Reach(mem, s + t), Black)
  {
    hide Reach, Paint;
    ReachOfBoth(mem, s, t);
    PaintBoth(h, Reach(mem, s), Reach(mem, t), Black);
  }

  lemma PaintNone(h: Headers, mem: Memory)
    ensures Paint(h, Reach(mem, []), Black) == h
  {
    ReachOfNone(mem);
  }

  lemma PaintObject(h: Headers, mem: Memory, a: nat)
    requires a in mem && a in h
    ensures Paint(h[a := h[a].(mark := Black)], Reach(mem, Children(mem[a])), Black) == Paint(h, Reach(mem, [a]), Black)
  {
    ReachOfObject(mem, a);
    hide Reach;
    assert h[a := h[a].(mark := Black)] == Paint(h, {a}, Black);
    PaintBoth(h, {a}, Reach(mem, Children(mem[a])), Black);
  }

  lemma FirstFree(h: Headers, firstFree: Option<nat>, firstUsed: Option<nat>, a: Arena)
    requires Represents(h, firstFree, firstUsed, a)
    ensures firstFree == HeadOf(a.free, 0)
  {
  }

  lemma SizeIs(h: Headers, firstFree: Option<nat>, firstUsed: Option<nat>, a: Arena, c: nat)
    requires Represents(h, firstFree, firstUsed, a) && c in h
    ensures h[c].size == SizeAt(a.sizes, c)
  {
  }

  lemma TriggerOnly(c: nat)
    ensures Members(Maybe(Some(c))) == {c}
  {
  }

  lemma TakeCounts(a: Arena, k: nat, size: nat)
    requires k < |a.free| && Fits(SizeAt(a.sizes, a.free[k]), size)
    ensures var b := Take(a, k, size);
      b.nextGc == a.nextGc && b.freedBytes == a.freedBytes && b.allocatedBytes == (a.allocatedBytes + size) % WORD
  {
  }

  /** Where the link that led to the chunk leads after it was taken. */
  function FreeLinkAfter(h: Headers, chunk: nat, size: nat): Option<nat>
    requires chunk in h
  {
    if h[chunk].size == HEADER + size then h[chunk].next else Some(chunk + HEADER + size)
  }

  function HeadersTaken(h: Headers, firstUsed: Option<nat>, at: Option<nat>, chunk: nat, size: nat): Headers
    requires chunk in h && Fits(h[chunk].size, size) && (at.Some? ==> at.value in h)
  {
    var h1 := if h[chunk].size == HEADER + size then h
              else h[chunk + HEADER + size := Header(h[chunk].size - (HEADER + size), White, false, h[chunk].next)];
    var h2 := if at.Some? then h1[at.value := h1[at.value].(next := FreeLinkAfter(h, chunk, size))] else h1;
    h2[chunk := Header(HEADER + size, White, true, firstUsed)]
  }

  lemma TakeRepresents(h: Headers, firstFree: Option<nat>, firstUsed: Option<nat>, a: Arena, k: nat, size: nat)
    requires Represents(h, firstFree, firstUsed, a) && Arenas.Valid(a)
    requires k < |a.free| && Fits(SizeAt(a.sizes, a.free[k]), size)
    ensures a.free[k] in h && (k > 0 ==> a.free[k - 1] in h) && h[a.free[k]].size == SizeAt(a.sizes, a.free[k])
    ensures var h' := HeadersTaken(h, firstUsed, LinkTo(a.free, k), a.free[k], size);
      && Represents(h', if k == 0 then FreeLinkAfter(h, a.free[0], size) else firstFree, Some(a.free[k]), Take(a, k, size))
      && h.Keys <= h'.Keys
  {
    hide Conserved, Counted, Chain, Distinct, HeadersTaken, Take;
    var c := a.free[k];
    assert c in a.free && (k > 0 ==> a.free[k - 1] in a.free);
    SizeIs(h, firstFree, firstUsed, a, c);
    if h[c].size == HEADER + size {
      TakeWholeRepresents(h, firstFree, firstUsed, a, k, size);
    } else {
      MemberSize(a.sizes, c);
      NothingInside(a.sizes, c, c + HEADER + size);
      TakeFrontRepresents(h, firstFree, firstUsed, a, k, size);
    }
  }

  /** The headers after putting the k-th free chunk, or its front part, in use. */
  ghost predicate Taken(h: Headers, h': Headers, firstUsed: Option<nat>, a: Arena, k: nat, size: nat)
    requires k < |a.free| && a.free[k] in h
  {
    var c := a.free[k];
    && (forall d <- h :: d in h')
    && c in h' && h'[c] == Header(HEADER + size, White, true, firstUsed)
    && (forall d <- h :: d != c ==> h'[d].size == h[d].size && h'[d].inUse == h[d].inUse && h'[d].mark == h[d].mark)
    && (forall d <- h :: d != c && (k > 0 ==> d != a.free[k - 1]) ==> h'[d].next == h[d].next)
    && (k > 0 ==> a.free[k - 1] in h' && h'[a.free[k - 1]].next == FreeLinkAfter(h, c, size))
  }

  lemma MakesTaken(h: Headers, firstUsed: Option<nat>, a: Arena, k: nat, size: nat)
    requires k < |a.free| && a.free[k] in h && (k > 0 ==> a.free[k - 1] in h && a.free[k - 1] != a.free[k])
    requires Fits(h[a.free[k]].size, size)
    requires h[a.free[k]].size != HEADER + size ==> a.free[k] + HEADER + size !in h
    ensures var h' := HeadersTaken(h, firstUsed, LinkTo(a.free, k), a.free[k], size);
      && Taken(h, h', firstUsed, a, k, size)
      && var rest := a.free[k] + HEADER + size;
         if h[a.free[k]].size == HEADER + size then h'.Keys == h.Keys
         else h'.Keys == h.Keys + {rest}
              && h'[rest] == Header(h[a.free[k]].size - (HEADER + size), White, false, h[a.free[k]].next)
  {
  }

  lemma TakenUsed(h: Headers, h': Headers, firstFree: Option<nat>, firstUsed: Option<nat>, a: Arena, k: nat, size: nat)
    requires Represents(h, firstFree, firstUsed, a) && Listed(a) && k < |a.free| && a.free[k] in h
    requires Taken(h, h', firstUsed, a, k, size)
    ensures Chain(h', Some(a.free[k]), [a.free[k]] + a.used)
  {
    ListsDistinct(a);
    hide Listed, Distinct;
    assert a.free[k] in a.free && (k > 0 ==> a.free[k - 1] in a.free);
    assert SameLinks(h, h', a.used);
    ChainPush(h, h', firstUsed, a.used, a.free[k]);
  }

  lemma TakenFree(h: Headers, h': Headers, firstFree: Option<nat>, firstUsed: Option<nat>, a: Arena, k: nat, size: nat)
    requires Represents(h, firstFree, firstUsed, a) && Listed(a) && k < |a.free| && a.free[k] in h
    requires Taken(h, h', firstUsed, a, k, size)
    ensures SameLinks(h, h', a.free[k + 1..]) && (k > 0 ==> SameLinks(h, h', a.free[..k - 1]))
  {
    ListsDistinct(a);
    hide Listed, Chain;
  }

  lemma TakeWholeRepresents(h: Headers, firstFree: Option<nat>, firstUsed: Option<nat>, a: Arena, k: nat, size: nat)
    requires Represents(h, firstFree, firstUsed, a) && Listed(a) && k < |a.free|
    requires a.free[k] in h && (k > 0 ==> a.free[k - 1] in h) && h[a.free[k]].size == SizeAt(a.sizes, a.free[k]) == HEADER + size
    ensures var h' := HeadersTaken(h, firstUsed, LinkTo(a.free, k), a.free[k], size);
      && Represents(h', if k == 0 then h[a.free[0]].next else firstFree, Some(a.free[k]), Take(a, k, size))
      && h.Keys <= h'.Keys
  {
    hide Listed, SameLinks, HeadersTaken, Chain;
    var c := a.free[k];
    var h' := HeadersTaken(h, firstUsed, LinkTo(a.free, k), c, size);
    ListsDistinct(a);
    assert k > 0 ==> a.free[k - 1] != c;
    MakesTaken(h, firstUsed, a, k, size);
    TakenUsed(h, h', firstFree, firstUsed, a, k, size);
    TakenFree(h, h', firstFree, firstUsed, a, k, size);
    ChainRemove(h, h', firstFree, a.free, k);
    forall d <- RemoveAt(a.free, k) ensures d in h' && h'[d].mark != Grey { RemovedMembers(a.free, k, d); }
  }

  lemma TakeFrontRepresents(h: Headers, firstFree: Option<nat>, firstUsed: Option<nat>, a: Arena, k: nat, size: nat)
    requires Represents(h, firstFree, firstUsed, a) && Listed(a) && k < |a.free|
    requires a.free[k] in h && (k > 0 ==> a.free[k - 1] in h) && h[a.free[k]].size == SizeAt(a.sizes, a.free[k]) >= 2 * HEADER + size
    requires a.free[k] + HEADER + size !in a.sizes
    ensures var h' := HeadersTaken(h, firstUsed, LinkTo(a.free, k), a.free[k], size);
      && Represents(h', if k == 0 then Some(a.free[k] + HEADER + size) else firstFree, Some(a.free[k]), Take(a, k, size))
      && h.Keys <= h'.Keys
  {
    hide Listed, SameLinks, HeadersTaken, Chain;
    var c := a.free[k];
    var rest := c + HEADER + size;
    var h' := HeadersTaken(h, firstUsed, LinkTo(a.free, k), c, size);
    ListsDistinct(a);
    assert k > 0 ==> a.free[k - 1] != c;
    MakesTaken(h, firstUsed, a, k, size);
    TakenUsed(h, h', firstFree, firstUsed, a, k, size);
    TakenFree(h, h', firstFree, firstUsed, a, k, size);
    ChainReplace(h, h', firstFree, a.free, k, rest);
    forall d <- a.free[k := rest] ensures d in h' && h'[d].mark != Grey { ReplacedMembers(a.free, k, rest, d); }
  }

  lemma ReplacedMembers(s: seq<nat>, k: nat, x: nat, d: nat)
    requires Distinct(s) && k < |s| && d in s[k := x]
    ensures d == x || (d in s && d != s[k])
  {
  }

  lemma InUseIs(h: Headers, firstFree: Option<nat>, firstUsed: Option<nat>, a: Arena, c: nat)
    requires Represents(h, firstFree, firstUsed, a) && c in h
    ensures h[c].inUse <==> c in a.used
    ensures Chain(h, firstUsed, a.used)
  {
  }

  lemma ReleaseRepresents(h: Headers, firstFree: Option<nat>, firstUsed: Option<nat>, a: Arena, k: nat)
    requires Represents(h, firstFree, firstUsed, a) && Arenas.Valid(a) && k < |a.used|
    ensures a.used[k] in h && (k > 0 ==> a.used[k - 1] in h)
    ensures HEADER <= h[a.used[k]].size == SizeAt(a.sizes, a.used[k])
    ensures var h' := HeadersReleased(h, firstFree, LinkTo(a.used, k), a.used[k]);
      && Represents(h', Some(a.used[k]), if LinkTo(a.used, k).None? then h[a.used[k]].next else firstUsed, Release(a, k))
      && h'.Keys == h.Keys
      && forall c <- h' :: h'[c].mark == if c == a.used[k] then White else h[c].mark
    ensures IndexOf(a.used, a.used[k], 0) == Some(k)
  {
    hide Conserved, Counted, HeadersReleased, Chain;
    MakesReleased(h, firstFree, a, k);
    ListsDistinct(a);
    ReleasedChains(h, HeadersReleased(h, firstFree, LinkTo(a.used, k), a.used[k]), firstFree, firstUsed, a, k);
    IndexOfIs(a.used, a.used[k], k, 0);
    assert a.used[k] in a.used;
    ChunkSize(a.sizes, a.used[k]);
  }

  function Members(s: seq<nat>): set<nat> {
    set c <- s
  }

  lemma PaintOne(h: Headers, s: seq<nat>, i: nat)
    requires i < |s| && s[i] in h
    ensures Paint(h, Members(s[..i]), Grey)[s[i] := Paint(h, Members(s[..i]), Grey)[s[i]].(mark := Grey)]
         == Paint(h, Members(s[..i + 1]), Grey)
  {
    assert Members(s[..i + 1]) == Members(s[..i]) + {s[i]};
  }

  lemma PaintTrigger(h: Headers, trigger: Option<nat>)
    requires trigger.Some? ==> trigger.value in h
    ensures Paint(h, Members(Maybe(trigger)), Black)
         == if trigger.Some? then h[trigger.value := h[trigger.value].(mark := Black)] else h
  {
  }

  lemma RepresentsChain(h: Headers, firstFree: Option<nat>, firstUsed: Option<nat>, a: Arena)
    requires Represents(h, firstFree, firstUsed, a)
    ensures Chain(h, firstUsed, a.used)
  {
  }

  lemma FirstUsed(h: Headers, firstFree: Option<nat>, firstUsed: Option<nat>, a: Arena)
    requires Represents(h, firstFree, firstUsed, a)
    ensures firstUsed == HeadOf(a.used, 0)
  {
  }

  lemma UsedLink(h: Headers, firstFree: Option<nat>, firstUsed: Option<nat>, a: Arena, i: nat)
    requires Represents(h, firstFree, firstUsed, a) && i < |a.used|
    ensures a.used[i] in h && h[a.used[i]].next == HeadOf(a.used, i + 1)
  {
  }

  lemma FreeLink(h: Headers, firstFree: Option<nat>, firstUsed: Option<nat>, a: Arena, i: nat)
    requires Represents(h, firstFree, firstUsed, a) && i < |a.free|
    ensures a.free[i] in h && h[a.free[i]].next == HeadOf(a.free, i + 1) && h[a.free[i]].mark != Grey
  {
    assert a.free[i] in a.free;
  }

  lemma NoGarbageLeft(a: Arena, keep: set<nat>)
    requires forall c <- a.used :: c in keep
    ensures a.(nextGc := 2 * a.nextGc % WORD) == Collect(a, keep)
  {
    FirstGarbageFirst(a.used, keep, 0);
  }

  /** Only sizes, flags and links matter, and that no free chunk is grey. */
  lemma Remarked(h: Headers, h': Headers, firstFree: Option<nat>, firstUsed: Option<nat>, a: Arena)
    requires Represents(h, firstFree, firstUsed, a) && h'.Keys == h.Keys
    requires forall c <- h :: h'[c] == h[c].(mark := h'[c].mark)
    requires forall c <- a.free :: c in h' && h'[c].mark != Grey
    ensures Represents(h', firstFree, firstUsed, a)
  {
    ChainSame(h, h', firstFree, a.free);
    ChainSame(h, h', firstUsed, a.used);
  }

  function MarkAfter(before: Mark, grey: bool, black: bool): Mark {
    if black then Black else if grey then Grey else before
  }

  lemma PaintedThrice(h: Headers, grey: set<nat>, trigger: set<nat>, reached: set<nat>)
    ensures var h' := Paint(Paint(Paint(h, grey, Grey), trigger, Black), reached, Black);
      h'.Keys == h.Keys
      && forall c <- h :: h'[c] == h[c].(mark := MarkAfter(h[c].mark, c in grey, c in reached + trigger))
  {
  }

  /** After marking, the grey chunks among the allocated ones are those not kept. */
  lemma Marked(h: Headers, firstFree: Option<nat>, firstUsed: Option<nat>, a: Arena, reached: set<nat>, trigger: set<nat>)
    requires Represents(h, firstFree, firstUsed, a) && Arenas.Valid(a)
    ensures var h' := Paint(Paint(Paint(h, Members(a.used), Grey), trigger, Black), reached, Black);
      && Represents(h', firstFree, firstUsed, a)
      && forall c <- a.used :: c in h' && (h'[c].mark == Grey <==> c !in reached + trigger)
  {
    hide Listed, Distinct, Tiled, Conserved, Counted, Paint, Chain;
    var h' := Paint(Paint(Paint(h, Members(a.used), Grey), trigger, Black), reached, Black);
    PaintedThrice(h, Members(a.used), trigger, reached);
    ListsDistinct(a);
    forall c <- a.free ensures c in h' && h'[c].mark != Grey { assert c !in Members(a.used); }
    Remarked(h, h', firstFree, firstUsed, a);
    forall c <- a.used ensures c in h' && (h'[c].mark == Grey <==> c !in reached + trigger) { assert c in Members(a.used); }
  }

  lemma {:induction false} FirstGarbageIs(used: seq<nat>, keep: set<nat>, k: nat, i: nat)
    requires i <= k < |used| && used[k] !in keep && forall j :: i <= j < k ==> used[j] in keep
    ensures FirstGarbage(used, keep, i) == Some(k)
    decreases k - i
  {
    if i < k { FirstGarbageIs(used, keep, k, i + 1); }
  }

  lemma SweptOne(a: Arena, keep: set<nat>, k: nat)
    requires Arenas.Valid(a) && FirstGarbage(a.used, keep, 0) == Some(k) && k < |a.used|
    ensures IndexOf(a.used, a.used[k], 0) == Some(k)
    ensures var b := Release(a, k); b.(nextGc := 2 * b.nextGc % WORD) == Collect(a, keep) && b.free == [a.used[k]] + a.free
  {
    ListsDistinct(a);
    IndexOfIs(a.used, a.used[k], k, 0);
  }

  lemma ThresholdOnly(h: Headers, firstFree: Option<nat>, firstUsed: Option<nat>, a: Arena)
    requires Represents(h, firstFree, firstUsed, a) && Arenas.Valid(a)
    ensures var b := a.(nextGc := 2 * a.nextGc % WORD); Represents(h, firstFree, firstUsed, b) && Arenas.Valid(b)
  {
    hide Represents;
    ThresholdKeepsValid(a);
    ThresholdKeepsLists(h, firstFree, firstUsed, a);
  }

  lemma ThresholdKeepsValid(a: Arena)
    requires Arenas.Valid(a)
    ensures Arenas.Valid(a.(nextGc := 2 * a.nextGc % WORD))
  {
    hide Total, Tiled;
  }

  lemma ThresholdKeepsLists(h: Headers, firstFree: Option<nat>, firstUsed: Option<nat>, a: Arena)
    requires Represents(h, firstFree, firstUsed, a)
    ensures Represents(h, firstFree, firstUsed, a.(nextGc := 2 * a.nextGc % WORD))
  {
    hide Chain;
  }

  function LinkTo(s: seq<nat>, k: nat): Option<nat> {
    if 0 < k <= |s| then Some(s[k - 1]) else None
  }

  function HeadersReleased(h: Headers, firstFree: Option<nat>, at: Option<nat>, freed: nat): Headers
    requires freed in h && (at.Some? ==> at.value in h)
  {
    var h1 := if at.Some? then h[at.value := h[at.value].(next := h[freed].next)] else h;
    h1[freed := Header(h1[freed].size, White, false, firstFree)]
  }

  lemma MakesReleased(h: Headers, firstFree: Option<nat>, a: Arena, k: nat)
    requires h.Keys == a.sizes.Keys && Listed(a) && k < |a.used|
    ensures a.used[k] in h && (k > 0 ==> a.used[k - 1] in h)
    ensures Released(h, HeadersReleased(h, firstFree, LinkTo(a.used, k), a.used[k]), firstFree, a, k)
  {
    ListsDistinct(a);
    hide Listed;
  }

  ghost predicate IsIndexOf(s: seq<nat>, x: nat) {
    var k := IndexOf(s, x, 0);
    k.Some? && k.value < |s| && s[k.value] == x
  }

  lemma {:induction false} IndexOfIs(s: seq<nat>, x: nat, k: nat, i: nat)
    requires Distinct(s) && i <= k < |s| && s[k] == x
    ensures IndexOf(s, x, i) == Some(k)
    decreases k - i
  {
    if i < k { IndexOfIs(s, x, k, i + 1); }
  }

  /** The headers after taking the k-th allocated chunk off its list and putting it in front of the free one. */
  ghost predicate Released(h: Headers, h': Headers, firstFree: Option<nat>, a: Arena, k: nat) {
    && k < |a.used| && h'.Keys == h.Keys
    && (forall c <- h' :: h'[c].size == h[c].size)
    && (forall c <- h' :: h'[c].inUse == (h[c].inUse && c != a.used[k]))
    && (forall c <- h' :: c != a.used[k] ==> h'[c].mark == h[c].mark)
    && (forall c <- h' :: c != a.used[k] && (k > 0 ==> c != a.used[k - 1]) ==> h'[c].next == h[c].next)
    && a.used[k] in h' && h'[a.used[k]].next == firstFree && h'[a.used[k]].mark == White
    && (k > 0 ==> a.used[k - 1] in h' && h'[a.used[k - 1]].next == h[a.used[k]].next)
  }

  lemma ReleasedLinks(h: Headers, h': Headers, firstFree: Option<nat>, a: Arena, k: nat)
    requires h.Keys == a.sizes.Keys && Listed(a) && Released(h, h', firstFree, a, k)
    ensures SameLinks(h, h', a.free) && SameLinks(h, h', a.used[k + 1..]) && (k > 0 ==> SameLinks(h, h', a.used[..k - 1]))
  {
    hide Listed;
    ListsDistinct(a);
  }

  lemma ReleasedChains(h: Headers, h': Headers, firstFree: Option<nat>, firstUsed: Option<nat>, a: Arena, k: nat)
    requires Represents(h, firstFree, firstUsed, a) && Listed(a) && Released(h, h', firstFree, a, k)
    ensures Represents(h', Some(a.used[k]), if k == 0 then h[a.used[0]].next else firstUsed, Release(a, k))
  {
    hide Listed, Distinct, Chain, SameLinks;
    var c := a.used[k];
    ListsDistinct(a);
    ReleasedLinks(h, h', firstFree, a, k);
    ChainPush(h, h', firstFree, a.free, c);
    ChainRemove(h, h', firstUsed, a.used, k);
    forall d <- h' ensures h'[d].inUse <==> d in RemoveAt(a.used, k) {
      RemovedMembers(a.used, k, d);
    }
  }

  lemma RemovedMembers(s: seq<nat>, k: nat, d: nat)
    requires Distinct(s) && k < |s|
    ensures d in RemoveAt(s, k) <==> d in s && d != s[k]
  {
    if d in s && d != s[k] {
      RemoveAtMultiset(s, k);
      assert multiset(RemoveAt(s, k))[d] == multiset(s)[d] > 0;
    }
  }

  ghost predicate Below(live: set<nat>, rank: map<nat, nat>, below: nat) {
    forall a <- live :: a in rank ==> rank[a] < below
  }

  lemma RankBound(live: set<nat>, rank: map<nat, nat>) returns (below: nat)
    ensures Below(live, rank, below)
  {
    below := 0;
    var seen: set<nat> := {};
    while seen != live
      invariant seen <= live && Below(seen, rank, below)
      decreases |live - seen|
    {
      var a :| a in live - seen;
      if a in rank && rank[a] >= below { below := rank[a] + 1; }
      seen := seen + {a};
    }
  }

  lemma RefsSnoc(refs: seq<Ref>, i: nat)
    requires i < |refs|
    ensures RefsIn(refs[..i + 1]) == RefsIn(refs[..i]) + RefTo(refs[i])
    ensures forall c <- RefTo(refs[i]) :: c in RefsIn(refs)
  {
    hide RefsIn;
    RefsPrefix(refs, i + 1);
    RefsLast(refs[..i + 1]);
    assert refs[..i + 1][..i] == refs[..i];
  }

  lemma RefsLast(refs: seq<Ref>)
    requires refs != []
    ensures RefsIn(refs) == RefsIn(refs[..|refs| - 1]) + RefTo(refs[|refs| - 1])
  {
  }

  lemma {:induction false} RefsPrefix(refs: seq<Ref>, i: nat)
    requires i <= |refs|
    ensures forall c <- RefsIn(refs[..i]) :: c in RefsIn(refs)
    decreases |refs| - i
  {
    if i == |refs| {
      assert refs[..i] == refs;
    } else {
      assert refs[..i + 1][..i] == refs[..i];
      RefsPrefix(refs, i + 1);
    }
  }

  lemma BindingsSnoc(bindings: seq<(nat, seq<Ref>)>, i: nat)
    requires i < |bindings|
    ensures BindingsIn(bindings[..i + 1]) == BindingsIn(bindings[..i]) + [bindings[i].0] + RefsIn(bindings[i].1)
    ensures forall c <- [bindings[i].0] + RefsIn(bindings[i].1) :: c in BindingsIn(bindings)
  {
    hide *;
    BindingsPrefix(bindings, i + 1);
    BindingsLast(bindings[..i + 1]);
    assert bindings[..i + 1][..i] == bindings[..i];
    Behind(BindingsIn(bindings[..i]), bindings[i].0, RefsIn(bindings[i].1));
  }

  lemma Behind(s: seq<nat>, a: nat, t: seq<nat>)
    ensures s + ([a] + t) == s + [a] + t
    ensures forall c <- [a] + t :: c in s + ([a] + t)
  {
    var all := s + ([a] + t);
    forall i | 0 <= i < |[a] + t| ensures ([a] + t)[i] in all {
      assert all[|s| + i] == ([a] + t)[i];
    }
  }

  lemma BindingsLast(bindings: seq<(nat, seq<Ref>)>)
    requires bindings != []
    ensures var n := |bindings| - 1;
      BindingsIn(bindings) == BindingsIn(bindings[..n]) + ([bindings[n].0] + RefsIn(bindings[n].1))
  {
  }

  lemma {:induction false} BindingsPrefix(bindings: seq<(nat, seq<Ref>)>, i: nat)
    requires i <= |bindings|
    ensures forall c <- BindingsIn(bindings[..i]) :: c in BindingsIn(bindings)
    decreases |bindings| - i
  {
    if i == |bindings| {
      assert bindings[..i] == bindings;
    } else {
      assert bindings[..i + 1][..i] == bindings[..i];
      BindingsPrefix(bindings, i + 1);
    }
  }

  lemma PackagesSnoc(packages: seq<Package>, i: nat)
    requires i < |packages|
    ensures PackagesIn(packages[..i + 1]) == PackagesIn(packages[..i]) + PackageRoots(packages[i])
    ensures forall c <- PackageRoots(packages[i]) :: c in PackagesIn(packages)
  {
    hide PackageRoots, PackagesIn;
    PackagesPrefix(packages, i + 1);
    PackagesLast(packages[..i + 1]);
    assert packages[..i + 1][..i] == packages[..i];
  }

  lemma PackagesLast(packages: seq<Package>)
    requires packages != []
    ensures PackagesIn(packages) == PackagesIn(packages[..|packages| - 1]) + PackageRoots(packages[|packages| - 1])
  {
  }

  lemma {:induction false} PackagesPrefix(packages: seq<Package>, i: nat)
    requires i <= |packages|
    ensures forall c <- PackagesIn(packages[..i]) :: c in PackagesIn(packages)
    decreases |packages| - i
  {
    if i == |packages| {
      assert packages[..i] == packages;
    } else {
      assert packages[..i + 1][..i] == packages[..i];
      PackagesPrefix(packages, i + 1);
    }
  }

  lemma ValuesSnoc(values: seq<(nat, Ref)>, i: nat)
    requires i < |values|
    ensures ValuesIn(values[..i + 1]) == ValuesIn(values[..i]) + [values[i].0] + RefTo(values[i].1)
    ensures forall c <- [values[i].0] + RefTo(values[i].1) :: c in ValuesIn(values)
  {
    hide *;
    ValuesPrefix(values, i + 1);
    ValuesLast(values[..i + 1]);
    assert values[..i + 1][..i] == values[..i];
    Behind(ValuesIn(values[..i]), values[i].0, RefTo(values[i].1));
  }

  lemma ValuesLast(values: seq<(nat, Ref)>)
    requires values != []
    ensures var n := |values| - 1; ValuesIn(values) == ValuesIn(values[..n]) + ([values[n].0] + RefTo(values[n].1))
  {
  }

  lemma {:induction false} ValuesPrefix(values: seq<(nat, Ref)>, i: nat)
    requires i <= |values|
    ensures forall c <- ValuesIn(values[..i]) :: c in ValuesIn(values)
    decreases |values| - i
  {
    if i == |values| {
      assert values[..i] == values;
    } else {
      assert values[..i + 1][..i] == values[..i];
      ValuesPrefix(values, i + 1);
    }
  }

  lemma FunctionsSnoc(functions: seq<(nat, nat)>, i: nat)
    requires i < |functions|
    ensures FunctionsIn(functions[..i + 1]) == FunctionsIn(functions[..i]) + [functions[i].0] + [functions[i].1]
    ensures functions[i].0 in FunctionsIn(functions) && functions[i].1 in FunctionsIn(functions)
  {
    hide FunctionsIn;
    FunctionsPrefix(functions, i + 1);
    FunctionsLast(functions[..i + 1]);
    var front := functions[..i + 1];
    assert front[..i] == functions[..i] && front[i] == functions[i];
    LastIn(FunctionsIn(functions[..i]), functions[i].0, functions[i].1);
  }

  lemma FunctionsLast(functions: seq<(nat, nat)>)
    requires functions != []
    ensures var n := |functions| - 1;
      FunctionsIn(functions) == FunctionsIn(functions[..n]) + [functions[n].0, functions[n].1]
  {
  }

  lemma LastIn(s: seq<nat>, a: nat, b: nat)
    ensures s + [a, b] == s + [a] + [b] && a in s + [a, b] && b in s + [a, b]
  {
    assert (s + [a, b])[|s|] == a && (s + [a, b])[|s| + 1] == b;
  }

  lemma {:induction false} FunctionsPrefix(functions: seq<(nat, nat)>, i: nat)
    requires i <= |functions|
    ensures forall c <- FunctionsIn(functions[..i]) :: c in FunctionsIn(functions)
    decreases |functions| - i
  {
    if i == |functions| {
      assert functions[..i] == functions;
    } else {
      assert functions[..i + 1][..i] == functions[..i];
      FunctionsPrefix(functions, i + 1);
    }
  }
}
