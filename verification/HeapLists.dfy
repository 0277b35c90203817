/** What lists under construction hold. */
module HeapLists {
  // Over every run, a list under construction holds exactly the values appended since it was begun, in order,
  // whatever else happens in between; and no move changes what an object that others may know stands for.

  import opened Forms
  import opened Arenas
  import opened ArenaRuns
  import opened Objects
  import opened HeapMoves
  import opened HeapRuns

  // ---- what a list under construction holds

  /** The list at r has exactly the values vs. */
  ghost predicate HoldsList(mem: Memory, r: Ref, vs: seq<Ref>)
    decreases |vs|
  {
    if vs == [] then r == NilRef
    else r.Pointer? && r.to in mem && mem[r.to].Pair? && mem[r.to].first == vs[0] && HoldsList(mem, mem[r.to].rest, vs[1..])
  }

  function CarsOf(mem: Memory, cells: seq<nat>): seq<Ref> {
    if cells == [] then []
    else CarsOf(mem, cells[..|cells| - 1])
         + [if cells[|cells| - 1] in mem && mem[cells[|cells| - 1]].Pair? then mem[cells[|cells| - 1]].first else NilRef]
  }

  lemma {:induction false} CarsLength(mem: Memory, cells: seq<nat>)
    ensures |CarsOf(mem, cells)| == |cells|
    ensures forall i: nat :: i < |cells| && cells[i] in mem && mem[cells[i]].Pair? ==> CarsOf(mem, cells)[i] == mem[cells[i]].first
  {
    if cells != [] { CarsLength(mem, cells[..|cells| - 1]); }
  }

  lemma {:induction false} CellsHold(h: Heap, cells: seq<nat>, k: nat)
    requires CellsOf(h, cells) && k <= |cells|
    ensures |CarsOf(h.memory, cells)| == |cells|
    ensures HoldsList(h.memory, RefAt(cells, k), CarsOf(h.memory, cells)[k..])
    decreases |cells| - k
  {
    CarsLength(h.memory, cells);
    if k < |cells| {
      CellsHold(h, cells, k + 1);
      assert CarsOf(h.memory, cells)[k..][1..] == CarsOf(h.memory, cells)[k + 1..];
    }
  }

  lemma {:induction false} CarsSame(mem: Memory, mem': Memory, cells: seq<nat>)
    requires forall a <- cells :: a in mem && a in mem' && mem[a].Pair? && mem'[a].Pair? && mem'[a].first == mem[a].first
    ensures CarsOf(mem', cells) == CarsOf(mem, cells)
  {
    if cells != [] { CarsSame(mem, mem', cells[..|cells| - 1]); }
  }

  lemma AppendCars(h: Heap, c: nat, value: Ref)
    requires Private(h) && h.builders != [] && c !in h.live
    ensures CarsOf(AppendedHeap(h, c, value).memory, Innermost(h) + [c]) == CarsOf(h.memory, Innermost(h)) + [value]
  {
    hide CarsOf, Appended, Private;
    var b := Innermost(h);
    var mem' := AppendedHeap(h, c, value).memory;
    AppendFacts(h, c, value);
    forall a <- b ensures a in h.memory && a in mem' && h.memory[a].Pair? && mem'[a].Pair? && mem'[a].first == h.memory[a].first {
      OldFirst(h, a);
    }
    CarsSame(h.memory, mem', b);
    CarsSnoc(mem', b, c);
  }

  lemma CarsSnoc(mem: Memory, b: seq<nat>, c: nat)
    requires c in mem && mem[c].Pair?
    ensures CarsOf(mem, b + [c]) == CarsOf(mem, b) + [mem[c].first]
  {
    assert (b + [c])[..|b|] == b;
  }

  /** An append puts its value behind those already there: the list read from the first cell has all of them in order. */
  lemma AppendHolds(h: Heap, size: nat, value: Ref, c: nat, rank: map<nat, nat>, top: nat)
    requires Acyclic(h, rank, top) && Private(h) && Allowed(h, Append(size, value)) && c !in h.live
    ensures var b := Innermost(h); var mem' := AppendedHeap(h, c, value).memory;
      HoldsList(mem', RefAt(b + [c], 0), CarsOf(h.memory, b) + [value])
  {
    hide *;
    var b := Innermost(h);
    KnownValue(h, size, value);
    var h' := AppendedHeap(h, c, value);
    AppendInnermost(h, size, value, c, rank, top);
    CellsHold(h', b + [c], 0);
    AppendCars(h, c, value);
    assert CarsOf(h'.memory, b + [c])[0..] == CarsOf(h'.memory, b + [c]);
  }

  lemma OldFirst(h: Heap, a: nat)
    requires Private(h) && a in Innermost(h)
    ensures a in h.live && a in h.memory && h.memory[a].Pair?
  {
    hide PrivateCells;
    assert Innermost(h) in h.builders;
    assert CellsOf(h, Innermost(h));
  }

  // ---- every move, every list

  /** The values of the lists under construction, innermost last: what each level's appends have put there. */
  function Appends(levels: seq<seq<Ref>>, m: Move): seq<seq<Ref>> {
    match m
    case Open => levels + [[]]
    case Append(_, value) =>
      if levels == [] then levels else levels[|levels| - 1 := levels[|levels| - 1] + [value]]
    case Close => if levels == [] then levels else levels[..|levels| - 1]
    case _ => levels
  }

  ghost predicate HoldLevels(h: Heap, levels: seq<seq<Ref>>) {
    && |levels| == |h.builders|
    && forall k :: 0 <= k < |levels| ==> CarsOf(h.memory, h.builders[k]) == levels[k]
  }

  /** Cells under construction are live pairs. */
  lemma CellIsPair(h: Heap, k: nat)
    requires Private(h) && k < |h.builders|
    ensures forall a <- h.builders[k] :: a in h.live && a in h.memory && h.memory[a].Pair?
  {
    hide PrivateCells;
    assert CellsOf(h, h.builders[k]);
  }

  lemma CreateHolds(h: Heap, c: nat, o: Object, levels: seq<seq<Ref>>)
    requires Private(h) && HoldLevels(h, levels) && c !in h.live
    ensures HoldLevels(CreatedHeap(h, c, o), levels)
  {
    hide Private, CarsOf;
    var h' := CreatedHeap(h, c, o);
    forall k: nat | k < |levels| ensures CarsOf(h'.memory, h'.builders[k]) == levels[k] {
      CellIsPair(h, k);
      CarsSame(h.memory, h'.memory, h.builders[k]);
    }
  }

  lemma AppendKeepsLevels(h: Heap, c: nat, value: Ref, levels: seq<seq<Ref>>)
    requires Private(h) && HoldLevels(h, levels) && h.builders != [] && c !in h.live
    ensures HoldLevels(AppendedHeap(h, c, value), levels[|levels| - 1 := levels[|levels| - 1] + [value]])
  {
    hide Private, CarsOf, Appended;
    AppendFacts(h, c, value);
    var h' := AppendedHeap(h, c, value);
    AppendCars(h, c, value);
    forall k: nat | k < |levels| - 1 ensures CarsOf(h'.memory, h'.builders[k]) == levels[k] {
      CellIsPair(h, k);
      CarsSame(h.memory, h'.memory, h.builders[k]);
    }
  }

  lemma UpdateHolds(h: Heap, at: nat, o: Object, levels: seq<seq<Ref>>)
    requires Private(h) && HoldLevels(h, levels) && at in h.memory && !h.memory[at].Pair?
    ensures HoldLevels(h.(memory := h.memory[at := o]), levels)
  {
    hide Private, CarsOf;
    var h' := h.(memory := h.memory[at := o]);
    forall k: nat | k < |levels| ensures CarsOf(h'.memory, h'.builders[k]) == levels[k] {
      CellIsPair(h, k);
      CarsSame(h.memory, h'.memory, h.builders[k]);
    }
  }

  /** Every move keeps every list as it is, an append adding its value to the innermost one. */
  lemma MoveHolds(h: Heap, m: Move, levels: seq<seq<Ref>>)
    requires Sane(h) && Allowed(h, m) && HoldLevels(h, levels)
    ensures var h' := Do(h, m); h'.Some? ==> HoldLevels(h'.value, Appends(levels, m))
  {
    hide Acyclic, Kinds, Private, Valid, Allocate, CarsOf, Appended;
    var h' := Do(h, m);
    match m
    case Create(size, o) =>
      AllocateKeepsInUse(h, size);
      if h'.Some? { CreateHolds(h, Allocate(h.arena, size, h.live).1.value - HEADER, o, levels); }
    case Append(size, value) =>
      AllocateKeepsInUse(h, size);
      if h'.Some? { AppendKeepsLevels(h, Allocate(h.arena, size, h.live).1.value - HEADER, value, levels); }
    case Open => assert CarsOf(h.memory, []) == [] by { NoCars(h.memory); }
    case Close =>
    case Rebind(env, values, functions) =>
      if env in h.memory { UpdateHolds(h, env, Rebound(h.memory[env], values, functions), levels); }
    case Fill(text, characters) => UpdateHolds(h, text, Text(Some(characters)), levels);
    case Forget(_) =>
  }

  lemma NoCars(mem: Memory)
    ensures CarsOf(mem, []) == []
  {
  }

  function AllAppends(levels: seq<seq<Ref>>, rounds: seq<Round>): seq<seq<Ref>>
    decreases |rounds|
  {
    if rounds == [] then levels else AllAppends(Appends(levels, rounds[0].move), rounds[1..])
  }

  lemma {:induction false} PlayHolds(h: Heap, rounds: seq<Round>, levels: seq<seq<Ref>>)
    requires Sane(h) && HoldLevels(h, levels)
    ensures var h' := Play(h, rounds); h'.Some? ==> HoldLevels(h'.value, AllAppends(levels, rounds))
    decreases |rounds|
  {
    hide Sane, Allowed, Do, Reach, CarsOf, Appends;
    if rounds != [] && Allowed(h, rounds[0].move) {
      var (move, roots) := (rounds[0].move, rounds[0].roots);
      StepSane(h, move);
      MoveHolds(h, move, levels);
      var h' := Do(h, move);
      if h'.Some? && forall c <- roots :: c in h'.value.live {
        TrimSane(h'.value, roots);
        PlayHolds(Trim(h'.value, roots), rounds[1..], Appends(levels, move));
      }
    }
  }

  /**
   In every state of every run, with nested lists, other objects and collections in between, each list under
   construction, read from its first cell, holds exactly the values appended to it since it was begun, in
   their order. At its end that is the list a call's function gets.
   */
  lemma ListsHoldAppends(rounds: seq<Round>)
    ensures match Play(START, rounds)
      case None => true
      case Some(h) =>
        var levels := AllAppends([], rounds);
        && |levels| == |h.builders|
        && forall k :: 0 <= k < |levels| ==> HoldsList(h.memory, RefAt(h.builders[k], 0), levels[k])
  {
    hide Play, Kinds, InUse, Acyclic, AllAppends, CarsOf, HoldsList, PrivateCells, CellsOf;
    StartSane();
    PlaySane(START, rounds);
    PlayHolds(START, rounds, []);
    if Play(START, rounds).None? { return; }
    var h := Play(START, rounds).value;
    var levels := AllAppends([], rounds);
    forall k | 0 <= k < |levels| ensures HoldsList(h.memory, RefAt(h.builders[k], 0), levels[k]) {
      assert h.builders[k] in h.builders;
      CellsHold(h, h.builders[k], 0);
      assert levels[k][0..] == levels[k];
    }
  }

  // ---- objects that others know

  datatype Tree = Cut | Leaf(r: Ref) | Node(first: Tree, rest: Tree)

  /** What a form in memory stands for, down to some depth. */
  function Unfold(mem: Memory, r: Ref, depth: nat): Tree
    decreases depth
  {
    if depth == 0 then Cut
    else if r.Pointer? && r.to in mem && mem[r.to].Pair? then
      Node(Unfold(mem, mem[r.to].first, depth - 1), Unfold(mem, mem[r.to].rest, depth - 1))
    else Leaf(r)
  }

  predicate KnownRef(h: Heap, r: Ref) {
    r.Pointer? ==> Known(h, r.to)
  }

  /** What a known pair points to is known. */
  lemma KnownOnward(h: Heap, rank: map<nat, nat>, top: nat, a: nat)
    requires Acyclic(h, rank, top) && Private(h) && Known(h, a) && a in h.memory && h.memory[a].Pair?
    ensures KnownRef(h, h.memory[a].first) && KnownRef(h, h.memory[a].rest)
  {
    forall x <- Children(h.memory[a]) ensures Known(h, x) {
      forall b <- h.builders ensures x !in b {
        assert PrivateCells(h, b);
        assert a !in b;
      }
    }
    assert forall x <- RefTo(h.memory[a].first) :: x in Children(h.memory[a]);
    assert forall x <- RefTo(h.memory[a].rest) :: x in Children(h.memory[a]);
  }

  /** The move leaves every known object that is a pair alone, and makes no other one a pair. */
  ghost predicate PairsStay(h: Heap, mem': Memory) {
    forall a <- h.live :: Known(h, a) && a in h.memory ==>
      a in mem' && mem'[a].Pair? == h.memory[a].Pair? && (h.memory[a].Pair? ==> mem'[a] == h.memory[a])
  }

  lemma {:induction false} UnfoldStays(h: Heap, mem': Memory, rank: map<nat, nat>, top: nat, r: Ref, depth: nat)
    requires Acyclic(h, rank, top) && Private(h) && PairsStay(h, mem') && KnownRef(h, r)
    ensures Unfold(mem', r, depth) == Unfold(h.memory, r, depth)
    decreases depth
  {
    if depth > 0 && r.Pointer? {
      ChildStays(h, rank, top);
      if h.memory[r.to].Pair? {
        KnownOnward(h, rank, top, r.to);
        hide Acyclic, Private, PairsStay;
        UnfoldStays(h, mem', rank, top, h.memory[r.to].first, depth - 1);
        UnfoldStays(h, mem', rank, top, h.memory[r.to].rest, depth - 1);
      }
    }
  }

  lemma MovePairsStay(h: Heap, m: Move)
    requires Sane(h) && Allowed(h, m)
    ensures var h' := Do(h, m); h'.Some? ==> PairsStay(h, h'.value.memory)
  {
    hide Acyclic, Kinds, Valid, Allocate, Children, CellsOf, PrivateCells;
    match m
    case Create(size, o) =>
      AllocateKeepsInUse(h, size);
      if Do(h, m).Some? {
        var c := Allocate(h.arena, size, h.live).1.value - HEADER;
        assert Do(h, m).value.memory == h.memory[c := o] && c !in h.live;
      }
    case Append(size, value) =>
      AllocateKeepsInUse(h, size);
      if Do(h, m).Some? {
        hide Private, Appended, InBuilder;
        KnownValue(h, size, value);
        AppendFacts(h, Allocate(h.arena, size, h.live).1.value - HEADER, value);
        InnermostPrivate(h);
      }
    case _ =>
  }

  lemma InnermostPrivate(h: Heap)
    requires h.builders != []
    ensures forall c <- Innermost(h) :: InBuilder(h.builders, c)
  {
    assert Innermost(h) in h.builders;
  }

  /**
   No move changes what a known form stands for: the destructive append, above all, is seen by nobody but its
   own list, so that it may be taken for building a new list of values.
   */
  lemma KnownFormsStay(h: Heap, m: Move, r: Ref, depth: nat)
    requires Sane(h) && Allowed(h, m) && KnownRef(h, r)
    ensures var h' := Do(h, m); h'.Some? ==> Unfold(h'.value.memory, r, depth) == Unfold(h.memory, r, depth)
  {
    hide Acyclic, Kinds, Private, InUse, Allowed, Do, PairsStay;
    MovePairsStay(h, m);
    var rank: map<nat, nat>, top: nat :| Acyclic(h, rank, top);
    var h' := Do(h, m);
    if h'.Some? { UnfoldStays(h, h'.value.memory, rank, top, r, depth); }
  }
}
