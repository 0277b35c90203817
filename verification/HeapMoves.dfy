/** The program's side of the heap. */
module HeapMoves {
  // Move by move: objects are created, lists are built by appending to a last
  // cell nobody else knows, environments are rebound, roots are dropped; the allocator collects underneath.
  // An object is named by the address of its chunk.

  import opened Forms
  import opened Arenas
  import opened ArenaRuns
  import opened Objects

  /**
   live: what the roots reach, which is what a collection keeps; Forget says what drops out of it when roots
   go. builders: the lists under construction, innermost last, as the addresses of their cells.
   */
  datatype Heap = Heap(arena: Arena, memory: Memory, live: set<nat>, builders: seq<seq<nat>>)

  const START: Heap := Heap(FRESH, map[], {}, [])

  datatype Move =
    | Create(size: nat, o: Object)
    | Open
    | Append(size: nat, value: Ref)
    | Close
    | Rebind(env: nat, values: seq<(nat, Ref)>, functions: seq<(nat, nat)>)
    | Fill(text: nat, characters: nat)
    | Forget(dead: set<nat>)

  predicate InBuilder(builders: seq<seq<nat>>, c: nat) {
    exists b <- builders :: c in b
  }

  predicate IsEnvironment(mem: Memory, c: nat) {
    c in mem && mem[c].Environment?
  }

  /** A live object that is not a cell under construction. */
  predicate Known(h: Heap, c: nat) {
    c in h.live && !InBuilder(h.builders, c)
  }

  predicate IsData(h: Heap, c: nat) {
    Known(h, c) && !IsEnvironment(h.memory, c)
  }

  predicate AllData(h: Heap, s: seq<nat>) {
    forall c <- s :: IsData(h, c)
  }

  /** What the interpreter, the reader and the runtime may do next. */
  predicate Allowed(h: Heap, m: Move) {
    match m
    case Create(_, o) =>
      (match o
       case Environment(parent, values, functions) =>
         (parent.Some? ==> Known(h, parent.value) && IsEnvironment(h.memory, parent.value))
         && AllData(h, ValuesIn(values)) && AllData(h, FunctionsIn(functions))
       case _ => AllData(h, Children(o)))
    case Open => true
    case Append(_, value) => h.builders != [] && AllData(h, RefTo(value))
    case Close => h.builders != []
    case Rebind(env, values, functions) =>
      Known(h, env) && IsEnvironment(h.memory, env) && AllData(h, ValuesIn(values)) && AllData(h, FunctionsIn(functions))
    case Fill(text, characters) =>
      && Known(h, text) && text in h.memory && h.memory[text].Text?
      && Known(h, characters) && characters in h.memory && h.memory[characters].Opaque?
    case Forget(dead) =>
      && (forall a <- h.live - dead :: a in h.memory ==> forall c <- Children(h.memory[a]) :: c !in dead)
      && (forall b <- h.builders :: forall c <- b :: c !in dead)
  }

  function LinkedTo(o: Object, c: nat): Object {
    if o.Pair? then o.(rest := Pointer(c)) else o
  }

  function WithLast(builders: seq<seq<nat>>, c: nat): seq<seq<nat>>
    requires builders != []
  {
    builders[|builders| - 1 := builders[|builders| - 1] + [c]]
  }

  /** The old last cell, if there is one, gets the new one as its cdr. */
  function Appended(mem: Memory, cells: seq<nat>, c: nat, value: Ref): Memory {
    var mem1 := if cells != [] && cells[|cells| - 1] in mem
                then mem[cells[|cells| - 1] := LinkedTo(mem[cells[|cells| - 1]], c)] else mem;
    mem1[c := Pair(value, NilRef)]
  }

  function Rebound(o: Object, values: seq<(nat, Ref)>, functions: seq<(nat, nat)>): Object {
    if o.Environment? then o.(values := values, functions := functions) else o
  }

  /** A string or symbol gets its characters after it was created. */
  function FilledHeap(h: Heap, text: nat, characters: nat): Heap {
    h.(memory := h.memory[text := Text(Some(characters))])
  }

  /** None: out of memory. */
  function Do(h: Heap, m: Move): Option<Heap> {
    match m
    case Create(size, o) =>
      var (arena, p) := Allocate(h.arena, size, h.live);
      if p.None? || p.value < HEADER then None
      else
        var c := p.value - HEADER;
        Some(h.(arena := arena, memory := h.memory[c := o], live := h.live + {c}))
    case Open => Some(h.(builders := h.builders + [[]]))
    case Append(size, value) =>
      var (arena, p) := Allocate(h.arena, size, h.live);
      if p.None? || p.value < HEADER || h.builders == [] then None
      else
        var c := p.value - HEADER;
        Some(Heap(arena, Appended(h.memory, h.builders[|h.builders| - 1], c, value), h.live + {c}, WithLast(h.builders, c)))
    case Close => Some(if h.builders == [] then h else h.(builders := h.builders[..|h.builders| - 1]))
    case Rebind(env, values, functions) =>
      Some(if env !in h.memory then h else h.(memory := h.memory[env := Rebound(h.memory[env], values, functions)]))
    case Fill(text, characters) => Some(FilledHeap(h, text, characters))
    case Forget(dead) => Some(h.(live := h.live - dead))
  }

  // ---- what every run keeps

  ghost predicate InUse(h: Heap) {
    Valid(h.arena) && forall c <- h.live :: c in h.arena.used
  }

  ghost predicate Acyclic(h: Heap, rank: map<nat, nat>, top: nat) {
    && Ranked(h.memory, h.live, rank)
    && forall a <- h.live :: a in rank && rank[a] < top
  }

  /** Only environments point to environments. */
  ghost predicate Kinds(mem: Memory, live: set<nat>) {
    forall a <- live :: a in mem ==>
      if mem[a].Environment? then
        && (mem[a].parent.Some? ==> IsEnvironment(mem, mem[a].parent.value))
        && (forall c <- ValuesIn(mem[a].values) + FunctionsIn(mem[a].functions) :: !IsEnvironment(mem, c))
      else forall c <- Children(mem[a]) :: !IsEnvironment(mem, c)
  }

  function RefAt(cells: seq<nat>, i: nat): Ref {
    if i < |cells| then Pointer(cells[i]) else NilRef
  }

  /** Cells of one list: each is linked to the next, the last to NIL; values are not cells under construction. */
  ghost predicate CellsOf(h: Heap, cells: seq<nat>) {
    && (forall i, j :: 0 <= i < j < |cells| ==> cells[i] != cells[j])
    && (forall i: nat :: i < |cells| ==>
          && cells[i] in h.live && cells[i] in h.memory && h.memory[cells[i]].Pair?
          && h.memory[cells[i]].rest == RefAt(cells, i + 1)
          && forall c <- RefTo(h.memory[cells[i]].first) :: !InBuilder(h.builders, c))
  }

  /** Whatever points into a list under construction is one of its cells. */
  ghost predicate PrivateCells(h: Heap, cells: seq<nat>) {
    forall a <- h.live :: a in h.memory ==> forall c <- Children(h.memory[a]) :: c in cells ==> a in cells
  }

  ghost predicate Private(h: Heap) {
    && (forall b <- h.builders :: CellsOf(h, b) && PrivateCells(h, b))
    && (forall i, j, c :: 0 <= i < j < |h.builders| && c in h.builders[i] ==> c !in h.builders[j])
  }

  ghost predicate Sane(h: Heap) {
    && InUse(h) && Kinds(h.memory, h.live) && Private(h)
    && exists rank: map<nat, nat>, top: nat :: Acyclic(h, rank, top)
  }

  lemma StartSane()
    ensures Sane(START)
  {
    FreshValid();
    assert Acyclic(START, map[], 0);
  }

  // ---- the allocator underneath

  /** A new object's chunk was not in use, the live ones stay so. */
  lemma AllocateKeepsInUse(h: Heap, size: nat)
    requires InUse(h)
    ensures var (arena, p) := Allocate(h.arena, size, h.live);
      && Valid(arena) && (forall c <- h.live :: c in arena.used)
      && (p.Some? ==> p.value >= HEADER && p.value - HEADER in arena.used && p.value - HEADER !in h.live)
  {
    hide Valid, Allocate;
    AllocateValid(h.arena, size, h.live);
    forall c <- h.live ensures c in Allocate(h.arena, size, h.live).0.used { AllocateKeepsUsed(h.arena, size, h.live, c); }
    AllocateIsNew(h.arena, size, h.live);
  }

  // ---- creating an object

  function CreatedHeap(h: Heap, c: nat, o: Object): Heap {
    h.(memory := h.memory[c := o], live := h.live + {c})
  }

  lemma CreatePointsTo(h: Heap, size: nat, o: Object)
    requires Allowed(h, Create(size, o))
    ensures forall x <- Children(o) :: Known(h, x)
  {
    if o.Environment? {
      forall x <- Children(o) ensures Known(h, x) {
        assert x in Maybe(o.parent) || x in ValuesIn(o.values) || x in FunctionsIn(o.functions);
      }
    }
  }

  lemma CreateAcyclic(h: Heap, size: nat, o: Object, c: nat, rank: map<nat, nat>, top: nat)
    requires Acyclic(h, rank, top) && Allowed(h, Create(size, o)) && c !in h.live
    ensures Acyclic(CreatedHeap(h, c, o), rank[c := top], top + 1)
  {
    CreatePointsTo(h, size, o);
    hide Children, Allowed;
  }

  lemma CreateKinds(h: Heap, size: nat, o: Object, c: nat, rank: map<nat, nat>, top: nat)
    requires Acyclic(h, rank, top) && Kinds(h.memory, h.live) && Allowed(h, Create(size, o)) && c !in h.live
    ensures Kinds(h.memory[c := o], h.live + {c})
  {
    CreatePointsTo(h, size, o);
    forall a <- h.live, x <- Children(h.memory[a]) ensures x != c { }
    forall a <- h.live | h.memory[a].Environment?
      ensures forall x <- ValuesIn(h.memory[a].values) + FunctionsIn(h.memory[a].functions) :: x in Children(h.memory[a])
      ensures h.memory[a].parent.Some? ==> h.memory[a].parent.value in Children(h.memory[a])
    {
    }
  }

  lemma CreatePrivate(h: Heap, size: nat, o: Object, c: nat)
    requires Private(h) && Allowed(h, Create(size, o)) && c !in h.live
    ensures Private(CreatedHeap(h, c, o))
  {
    CreatePointsTo(h, size, o);
    hide Children, Allowed;
    var h' := CreatedHeap(h, c, o);
    forall b <- h.builders ensures CellsOf(h', b) && PrivateCells(h', b) {
      assert CellsOf(h, b) && PrivateCells(h, b);
      assert c !in b;
      forall x <- Children(o) ensures x !in b { assert Known(h, x); }
    }
  }

  // ---- appending to a list under construction

  function Innermost(h: Heap): seq<nat> {
    if h.builders == [] then [] else h.builders[|h.builders| - 1]
  }

  function AppendedHeap(h: Heap, c: nat, value: Ref): Heap
    requires h.builders != []
  {
    Heap(h.arena, Appended(h.memory, Innermost(h), c, value), h.live + {c}, WithLast(h.builders, c))
  }

  /** The objects after an append: one new, one with another cdr, the rest as before. */
  lemma AppendFacts(h: Heap, c: nat, value: Ref)
    requires Private(h) && h.builders != [] && c !in h.live
    ensures var mem' := Appended(h.memory, Innermost(h), c, value); var b := Innermost(h);
      && c in mem' && mem'[c] == Pair(value, NilRef)
      && (forall a <- h.memory :: a in mem' && (a != c && (b == [] || a != b[|b| - 1]) ==> mem'[a] == h.memory[a]))
      && (b != [] ==> var last := b[|b| - 1];
           && last != c && last in h.live && last in h.memory && last in b
           && h.memory[last].Pair? && h.memory[last].rest == NilRef
           && mem'[last] == h.memory[last].(rest := Pointer(c))
           && forall x <- RefTo(h.memory[last].first) :: !InBuilder(h.builders, x))
  {
    var b := Innermost(h);
    assert b in h.builders;
    assert CellsOf(h, b);
    if b != [] {
      var i: nat := |b| - 1;
      assert h.memory[b[i]].rest == NilRef;
    }
  }

  /** The pointers after an append: one to the new cell, those of its value, and those there were. */
  lemma AppendEdge(h: Heap, c: nat, value: Ref, a: nat, x: nat)
    requires Private(h) && h.builders != [] && c !in h.live && a in h.live + {c}
    requires a in AppendedHeap(h, c, value).memory && x in Children(AppendedHeap(h, c, value).memory[a])
    ensures
      || (a == c && x in RefTo(value))
      || (a != c && a in h.memory && x in Children(h.memory[a]))
      || (a in Innermost(h) && x == c)
  {
    AppendFacts(h, c, value);
    hide Private, Appended, InBuilder;
  }

  lemma KnownValue(h: Heap, size: nat, value: Ref)
    requires Allowed(h, Append(size, value))
    ensures h.builders != [] && forall x <- RefTo(value) :: IsData(h, x)
  {
  }

  function AppendedRank(rank: map<nat, nat>, top: nat, cells: seq<nat>, c: nat): map<nat, nat> {
    (map x <- rank :: if x in cells then rank[x] + top + 1 else rank[x])[c := top]
  }

  lemma AppendEdgeFalls(h: Heap, size: nat, value: Ref, c: nat, rank: map<nat, nat>, top: nat, a: nat, x: nat)
    requires Acyclic(h, rank, top) && Private(h) && Allowed(h, Append(size, value)) && c !in h.live
    requires a in h.live + {c} && a in AppendedHeap(h, c, value).memory
    requires x in Children(AppendedHeap(h, c, value).memory[a])
    ensures x in h.live + {c} && (x in rank || x == c)
    ensures var rank' := AppendedRank(rank, top, Innermost(h), c); rank'[x] < rank'[a]
  {
    KnownValue(h, size, value);
    var b := Innermost(h);
    assert b in h.builders;
    assert PrivateCells(h, b);
    AppendEdge(h, c, value, a, x);
    hide Private, Allowed, Appended, Children, AppendedHeap;
    if a == c { assert Known(h, x); assert x !in b; }
  }

  lemma AppendAcyclic(h: Heap, size: nat, value: Ref, c: nat, rank: map<nat, nat>, top: nat)
    requires Acyclic(h, rank, top) && Private(h) && Allowed(h, Append(size, value)) && c !in h.live
    ensures Acyclic(AppendedHeap(h, c, value), AppendedRank(rank, top, Innermost(h), c), 2 * top + 2)
  {
    hide Private, Allowed, Appended, Children, InBuilder;
    KnownValue(h, size, value);
    AppendFacts(h, c, value);
    RankGrows(h, rank, top, Innermost(h), c);
    var h' := AppendedHeap(h, c, value);
    var rank' := AppendedRank(rank, top, Innermost(h), c);
    hide AppendedRank;
    forall a <- h'.live, x <- Children(h'.memory[a])
      ensures x in h'.live && x in rank' && rank'[x] < rank'[a]
    {
      AppendEdgeFalls(h, size, value, c, rank, top, a, x);
    }
  }

  lemma RankGrows(h: Heap, rank: map<nat, nat>, top: nat, cells: seq<nat>, c: nat)
    requires Acyclic(h, rank, top)
    ensures forall a <- h.live + {c} ::
      a in AppendedRank(rank, top, cells, c) && AppendedRank(rank, top, cells, c)[a] < 2 * top + 2
    ensures forall a <- rank :: a in AppendedRank(rank, top, cells, c)
  {
    hide Children;
  }

  lemma ChildStays(h: Heap, rank: map<nat, nat>, top: nat)
    requires Acyclic(h, rank, top)
    ensures forall a <- h.live :: a in h.memory
    ensures forall a <- h.live, x <- Children(h.memory[a]) :: x in h.live
  {
  }

  lemma EnvironmentPointsTo(o: Object)
    requires o.Environment?
    ensures forall x <- ValuesIn(o.values) + FunctionsIn(o.functions) :: x in Children(o)
    ensures o.parent.Some? ==> o.parent.value in Children(o)
  {
  }

  lemma AppendKinds(h: Heap, size: nat, value: Ref, c: nat, rank: map<nat, nat>, top: nat)
    requires Acyclic(h, rank, top) && Private(h) && Kinds(h.memory, h.live) && Allowed(h, Append(size, value)) && c !in h.live
    ensures Kinds(AppendedHeap(h, c, value).memory, AppendedHeap(h, c, value).live)
  {
    hide Private, Allowed, Appended, Acyclic, Children, ValuesIn, FunctionsIn;
    KnownValue(h, size, value);
    AppendFacts(h, c, value);
    ChildStays(h, rank, top);
    var h' := AppendedHeap(h, c, value);
    assert forall x <- h.memory :: x != c ==> (IsEnvironment(h'.memory, x) <==> IsEnvironment(h.memory, x));
    forall a <- h'.live | h'.memory[a].Environment?
      ensures h'.memory[a].parent.Some? ==> IsEnvironment(h'.memory, h'.memory[a].parent.value)
      ensures forall x <- ValuesIn(h'.memory[a].values) + FunctionsIn(h'.memory[a].functions) :: !IsEnvironment(h'.memory, x)
    {
      EnvironmentPointsTo(h'.memory[a]);
    }
    forall a <- h'.live, x <- Children(h'.memory[a])
      ensures !h'.memory[a].Environment? ==> !IsEnvironment(h'.memory, x)
    {
      AppendEdge(h, c, value, a, x);
    }
  }

  lemma AppendOtherEdges(h: Heap, size: nat, value: Ref, c: nat, k: nat)
    requires Private(h) && Allowed(h, Append(size, value)) && c !in h.live && k < |h.builders| - 1
    ensures PrivateCells(AppendedHeap(h, c, value), h.builders[k])
  {
    KnownValue(h, size, value);
    var cells := h.builders[k];
    assert CellsOf(h, cells) && PrivateCells(h, cells);
    assert forall x <- cells :: x in h.live;
    hide Private, Allowed, Appended, Children, CellsOf;
    var h' := AppendedHeap(h, c, value);
    forall a <- h'.live | a in h'.memory
      ensures forall x <- Children(h'.memory[a]) :: x in cells ==> a in cells
    {
      forall x <- Children(h'.memory[a]) ensures x in cells ==> a in cells {
        AppendEdge(h, c, value, a, x);
        if a == c { assert Known(h, x); assert x !in cells; }
      }
    }
  }

  /** A cell of an outer list is untouched, and its value is not the new cell. */
  lemma AppendOtherCell(h: Heap, c: nat, value: Ref, k: nat, i: nat, rank: map<nat, nat>, top: nat)
    requires Acyclic(h, rank, top) && Private(h) && c !in h.live && k < |h.builders| - 1 && i < |h.builders[k]|
    ensures var a := h.builders[k][i]; var mem' := Appended(h.memory, Innermost(h), c, value);
      && a in h.live && a in mem' && mem'[a].Pair?
      && mem'[a].rest == RefAt(h.builders[k], i + 1)
      && forall x <- RefTo(mem'[a].first) :: !InBuilder(h.builders, x) && x != c
  {
    AppendFacts(h, c, value);
    var cells := h.builders[k];
    var a := cells[i];
    assert a !in Innermost(h);
    OldCell(h, cells, i);
    ChildStays(h, rank, top);
    assert forall x <- RefTo(h.memory[a].first) :: x in Children(h.memory[a]);
  }

  lemma AppendOtherCells(h: Heap, size: nat, value: Ref, c: nat, k: nat, rank: map<nat, nat>, top: nat)
    requires Acyclic(h, rank, top) && Private(h) && Allowed(h, Append(size, value)) && c !in h.live && k < |h.builders| - 1
    ensures CellsOf(AppendedHeap(h, c, value), h.builders[k]) && PrivateCells(AppendedHeap(h, c, value), h.builders[k])
  {
    hide Private, Allowed, Appended, Acyclic, Children, PrivateCells, InBuilder;
    BuildersAfter(h, c);
    AppendOtherEdges(h, size, value, c, k);
    CellsDistinct(h, k);
    var h' := AppendedHeap(h, c, value);
    var cells := h.builders[k];
    forall i: nat | i < |cells|
      ensures cells[i] in h'.live && cells[i] in h'.memory && h'.memory[cells[i]].Pair?
      ensures h'.memory[cells[i]].rest == RefAt(cells, i + 1)
      ensures forall x <- RefTo(h'.memory[cells[i]].first) :: !InBuilder(h'.builders, x)
    {
      AppendOtherCell(h, c, value, k, i, rank, top);
    }
  }

  lemma CellsDistinct(h: Heap, k: nat)
    requires Private(h) && k < |h.builders|
    ensures forall i, j :: 0 <= i < j < |h.builders[k]| ==> h.builders[k][i] != h.builders[k][j]
  {
    hide PrivateCells;
    assert CellsOf(h, h.builders[k]);
  }

  lemma BuildersAfter(h: Heap, c: nat)
    requires h.builders != []
    ensures forall x :: InBuilder(WithLast(h.builders, c), x) <==> InBuilder(h.builders, x) || x == c
  {
    var n := |h.builders|;
    var bs := WithLast(h.builders, c);
    assert c in bs[n - 1];
    forall x | InBuilder(h.builders, x) ensures InBuilder(bs, x) {
      var k :| 0 <= k < n && x in h.builders[k];
      assert x in bs[k];
    }
    forall x | InBuilder(bs, x) && x != c ensures InBuilder(h.builders, x) {
      var k :| 0 <= k < n && x in bs[k];
      assert x in h.builders[k];
    }
  }

  /** The cells there were: still linked in order, the last one to the new cell; their values are not new. */
  lemma AppendOldCell(h: Heap, c: nat, value: Ref, i: nat, rank: map<nat, nat>, top: nat)
    requires Acyclic(h, rank, top) && Private(h) && h.builders != [] && c !in h.live && i < |Innermost(h)|
    ensures var a := Innermost(h)[i]; var mem' := Appended(h.memory, Innermost(h), c, value);
      && a in h.live && a in mem' && mem'[a].Pair?
      && mem'[a].rest == RefAt(Innermost(h) + [c], i + 1)
      && forall x <- RefTo(mem'[a].first) :: !InBuilder(h.builders, x) && x != c
  {
    AppendFacts(h, c, value);
    var b := Innermost(h);
    assert b in h.builders;
    OldCell(h, b, i);
    var a := b[i];
    assert a in h.live && forall x <- Children(h.memory[a]) :: x != c;
    hide Private, Appended, Acyclic, InBuilder;
    if i < |b| - 1 { assert a != b[|b| - 1]; }
  }

  lemma OldCell(h: Heap, b: seq<nat>, i: nat)
    requires Private(h) && b in h.builders && i < |b|
    ensures b[i] in h.live && b[i] in h.memory && h.memory[b[i]].Pair? && h.memory[b[i]].rest == RefAt(b, i + 1)
    ensures forall x <- RefTo(h.memory[b[i]].first) :: !InBuilder(h.builders, x)
    ensures i < |b| - 1 ==> b[i] != b[|b| - 1]
  {
    hide PrivateCells;
    assert CellsOf(h, b);
  }

  lemma AppendInnermost(h: Heap, size: nat, value: Ref, c: nat, rank: map<nat, nat>, top: nat)
    requires Acyclic(h, rank, top) && Private(h) && Allowed(h, Append(size, value)) && c !in h.live
    ensures CellsOf(AppendedHeap(h, c, value), Innermost(h) + [c])
  {
    hide Private, Acyclic, PrivateCells, InBuilder;
    AppendFacts(h, c, value);
    KnownValue(h, size, value);
    var b := Innermost(h);
    InnermostDistinct(h);
    BuildersAfter(h, c);
    var h' := AppendedHeap(h, c, value);
    var cells := b + [c];
    forall i: nat | i < |cells|
      ensures cells[i] in h'.live && cells[i] in h'.memory && h'.memory[cells[i]].Pair?
      ensures h'.memory[cells[i]].rest == RefAt(cells, i + 1)
      ensures forall x <- RefTo(h'.memory[cells[i]].first) :: !InBuilder(h'.builders, x)
    {
      if i < |b| {
        AppendOldCell(h, c, value, i, rank, top);
      } else {
        forall x <- RefTo(value) ensures !InBuilder(h'.builders, x) { assert Known(h, x); }
      }
    }
    assert forall i: nat :: i < |b| ==> b[i] != c;
  }

  lemma InnermostDistinct(h: Heap)
    requires Private(h) && h.builders != []
    ensures forall i, j :: 0 <= i < j < |Innermost(h)| ==> Innermost(h)[i] != Innermost(h)[j]
    ensures forall i: nat :: i < |Innermost(h)| ==> Innermost(h)[i] in h.live
  {
    hide PrivateCells;
    assert Innermost(h) in h.builders;
    assert CellsOf(h, Innermost(h));
  }

  lemma AppendInnermostEdges(h: Heap, size: nat, value: Ref, c: nat, rank: map<nat, nat>, top: nat)
    requires Acyclic(h, rank, top) && Private(h) && Allowed(h, Append(size, value)) && c !in h.live
    ensures PrivateCells(AppendedHeap(h, c, value), Innermost(h) + [c])
  {
    KnownValue(h, size, value);
    ChildStays(h, rank, top);
    var b := Innermost(h);
    assert b in h.builders;
    assert PrivateCells(h, b);
    hide Private, Allowed, Appended, Children, CellsOf, Acyclic;
    var h' := AppendedHeap(h, c, value);
    var cells := b + [c];
    forall a <- h'.live | a in h'.memory
      ensures forall x <- Children(h'.memory[a]) :: x in cells ==> a in cells
    {
      forall x <- Children(h'.memory[a]) ensures x in cells ==> a in cells {
        AppendEdge(h, c, value, a, x);
        if a == c { assert c in cells; }
      }
    }
  }

  lemma AppendPrivate(h: Heap, size: nat, value: Ref, c: nat, rank: map<nat, nat>, top: nat)
    requires Acyclic(h, rank, top) && Private(h) && Allowed(h, Append(size, value)) && c !in h.live
    ensures Private(AppendedHeap(h, c, value))
  {
    hide CellsOf, PrivateCells, Acyclic, InBuilder;
    var h' := AppendedHeap(h, c, value);
    var n := |h.builders|;
    AppendInnermost(h, size, value, c, rank, top);
    AppendInnermostEdges(h, size, value, c, rank, top);
    forall k: nat | k < n ensures CellsOf(h', h'.builders[k]) && PrivateCells(h', h'.builders[k]) {
      if k < n - 1 { AppendOtherCells(h, size, value, c, k, rank, top); }
    }
    forall i, j, x | 0 <= i < j < n && x in h'.builders[i] ensures x !in h'.builders[j] {
      CellsLive(h, i);
    }
  }

  lemma CellsLive(h: Heap, k: nat)
    requires Private(h) && k < |h.builders|
    ensures forall x <- h.builders[k] :: x in h.live
  {
    assert CellsOf(h, h.builders[k]);
  }

  // ---- the other moves

  lemma RebindPointsTo(h: Heap, env: nat, values: seq<(nat, Ref)>, functions: seq<(nat, nat)>)
    requires Allowed(h, Rebind(env, values, functions)) && env in h.memory
    ensures forall x <- Children(Rebound(h.memory[env], values, functions)) ::
      IsData(h, x) || h.memory[env].parent == Some(x)
  {
  }

  function ReboundHeap(h: Heap, env: nat, values: seq<(nat, Ref)>, functions: seq<(nat, nat)>): Heap
    requires env in h.memory
  {
    h.(memory := h.memory[env := Rebound(h.memory[env], values, functions)])
  }

  /** Environments move above all data. */
  function ReboundRank(mem: Memory, rank: map<nat, nat>, top: nat): map<nat, nat> {
    map x <- rank :: if IsEnvironment(mem, x) then rank[x] + top else rank[x]
  }

  lemma RebindEdge(h: Heap, env: nat, values: seq<(nat, Ref)>, functions: seq<(nat, nat)>,
                   rank: map<nat, nat>, top: nat, a: nat, x: nat)
    requires Acyclic(h, rank, top) && Kinds(h.memory, h.live) && Allowed(h, Rebind(env, values, functions)) && a in h.live
    requires x in Children(ReboundHeap(h, env, values, functions).memory[a])
    ensures x in h.live && x in rank
    ensures ReboundRank(h.memory, rank, top)[x] < ReboundRank(h.memory, rank, top)[a]
  {
    RebindPointsTo(h, env, values, functions);
    DataPointsToData(h);
    ParentIsChild(h.memory[env]);
    hide Allowed, Children, Kinds, InBuilder;
    if a == env && IsData(h, x) { assert rank[x] < top; }
  }

  lemma RebindAcyclic(h: Heap, env: nat, values: seq<(nat, Ref)>, functions: seq<(nat, nat)>, rank: map<nat, nat>, top: nat)
    requires Acyclic(h, rank, top) && Kinds(h.memory, h.live) && Allowed(h, Rebind(env, values, functions))
    ensures Acyclic(ReboundHeap(h, env, values, functions), ReboundRank(h.memory, rank, top), 2 * top)
  {
    hide Children, Kinds, AllData, Known;
    var h' := ReboundHeap(h, env, values, functions);
    var rank' := ReboundRank(h.memory, rank, top);
    forall a <- h'.live, x <- Children(h'.memory[a])
      ensures x in h'.live && x in rank' && rank'[x] < rank'[a]
    {
      RebindEdge(h, env, values, functions, rank, top, a, x);
    }
  }

  lemma ParentIsChild(o: Object)
    ensures o.Environment? && o.parent.Some? ==> o.parent.value in Children(o)
  {
  }

  lemma DataPointsToData(h: Heap)
    requires Kinds(h.memory, h.live)
    ensures forall a <- h.live, x :: a in h.memory && x in Children(h.memory[a]) && IsEnvironment(h.memory, x) ==> h.memory[a].Environment?
  {
  }

  lemma RebindKinds(h: Heap, env: nat, values: seq<(nat, Ref)>, functions: seq<(nat, nat)>)
    requires Kinds(h.memory, h.live) && Allowed(h, Rebind(env, values, functions))
    ensures Kinds(ReboundHeap(h, env, values, functions).memory, h.live)
  {
    var mem' := ReboundHeap(h, env, values, functions).memory;
    assert forall x :: IsEnvironment(mem', x) <==> IsEnvironment(h.memory, x);
    assert forall x <- ValuesIn(values) + FunctionsIn(functions) :: IsData(h, x);
  }

  lemma RebindPrivate(h: Heap, env: nat, values: seq<(nat, Ref)>, functions: seq<(nat, nat)>)
    requires Private(h) && Allowed(h, Rebind(env, values, functions))
    ensures Private(ReboundHeap(h, env, values, functions))
  {
    RebindPointsTo(h, env, values, functions);
    ParentIsChild(h.memory[env]);
    hide Allowed, Children;
    var h' := ReboundHeap(h, env, values, functions);
    forall b <- h.builders ensures CellsOf(h', b) && PrivateCells(h', b) {
      assert CellsOf(h, b) && PrivateCells(h, b);
      assert env !in b;
    }
  }

  /** Characters point to nothing, so that they can move below everything else. */
  function FilledRank(mem: Memory, rank: map<nat, nat>): map<nat, nat> {
    map x <- rank :: if x in mem && mem[x].Opaque? then 0 else rank[x] + 1
  }

  lemma FillAcyclic(h: Heap, text: nat, characters: nat, rank: map<nat, nat>, top: nat)
    requires Acyclic(h, rank, top) && Allowed(h, Fill(text, characters))
    ensures Acyclic(FilledHeap(h, text, characters), FilledRank(h.memory, rank), top + 1)
  {
  }

  lemma FillKinds(h: Heap, text: nat, characters: nat)
    requires Kinds(h.memory, h.live) && Allowed(h, Fill(text, characters))
    ensures Kinds(FilledHeap(h, text, characters).memory, h.live)
  {
    var mem' := FilledHeap(h, text, characters).memory;
    assert forall x :: IsEnvironment(mem', x) <==> IsEnvironment(h.memory, x);
  }

  lemma FillPrivate(h: Heap, text: nat, characters: nat)
    requires Private(h) && Allowed(h, Fill(text, characters))
    ensures Private(FilledHeap(h, text, characters))
  {
    hide InBuilder;
    var h' := FilledHeap(h, text, characters);
    forall b <- h.builders ensures CellsOf(h', b) && PrivateCells(h', b) {
      assert CellsOf(h, b) && PrivateCells(h, b);
      NotCell(h, b, characters);
    }
  }

  lemma NotCell(h: Heap, b: seq<nat>, c: nat)
    requires b in h.builders && Known(h, c)
    ensures c !in b
  {
  }

  lemma ForgetGraph(h: Heap, dead: set<nat>, rank: map<nat, nat>, top: nat)
    requires Acyclic(h, rank, top) && Kinds(h.memory, h.live) && Private(h) && Allowed(h, Forget(dead))
    ensures var h' := h.(live := h.live - dead); Acyclic(h', rank, top) && Kinds(h'.memory, h'.live) && Private(h')
  {
    hide Children;
    var h' := h.(live := h.live - dead);
    forall b <- h.builders ensures CellsOf(h', b) && PrivateCells(h', b) {
      assert CellsOf(h, b) && PrivateCells(h, b);
    }
  }

  lemma OpenPrivate(h: Heap)
    requires Private(h)
    ensures Private(h.(builders := h.builders + [[]]))
  {
    var h' := h.(builders := h.builders + [[]]);
    forall x ensures InBuilder(h'.builders, x) <==> InBuilder(h.builders, x) {
      if InBuilder(h.builders, x) {
        var b :| b in h.builders && x in b;
        assert b in h'.builders;
      }
    }
    hide Children, InBuilder;
    forall b <- h.builders ensures CellsOf(h', b) && PrivateCells(h', b) {
      assert CellsOf(h, b) && PrivateCells(h, b);
    }
  }

  lemma ClosePrivate(h: Heap)
    requires Private(h) && h.builders != []
    ensures Private(h.(builders := h.builders[..|h.builders| - 1]))
  {
    var h' := h.(builders := h.builders[..|h.builders| - 1]);
    forall x ensures InBuilder(h'.builders, x) ==> InBuilder(h.builders, x) { }
    hide Children, InBuilder;
    forall b <- h'.builders ensures CellsOf(h', b) && PrivateCells(h', b) {
      assert b in h.builders;
      assert CellsOf(h, b) && PrivateCells(h, b);
    }
  }
}
