/** The heap over whole runs. */
module HeapRuns {
  // Over every run of the program the live objects stay in use and stay acyclic, so that the marker, which keeps
  // no visited set, ends.

  import opened Forms
  import opened Arenas
  import opened Objects
  import opened HeapMoves

  // ---- all moves, all runs

  lemma StepSane(h: Heap, m: Move)
    requires Sane(h) && Allowed(h, m)
    ensures var h' := Do(h, m); h'.Some? ==> Sane(h'.value)
  {
    hide Acyclic, Kinds, Private, Valid, Allowed, Allocate;
    var rank: map<nat, nat>, top: nat :| Acyclic(h, rank, top);
    var h' := Do(h, m);
    match m
    case Create(size, o) =>
      AllocateKeepsInUse(h, size);
      if h'.Some? {
        var c := Allocate(h.arena, size, h.live).1.value - HEADER;
        CreateAcyclic(h, size, o, c, rank, top);
        CreateKinds(h, size, o, c, rank, top);
        CreatePrivate(h, size, o, c);
        SameGraph(CreatedHeap(h, c, o), h'.value, rank[c := top], top + 1);
      }
    case Append(size, value) =>
      AllocateKeepsInUse(h, size);
      if h'.Some? {
        var c := Allocate(h.arena, size, h.live).1.value - HEADER;
        AppendAcyclic(h, size, value, c, rank, top);
        AppendKinds(h, size, value, c, rank, top);
        AppendPrivate(h, size, value, c, rank, top);
        SameGraph(AppendedHeap(h, c, value), h'.value, AppendedRank(rank, top, Innermost(h), c), 2 * top + 2);
      }
    case Open =>
      OpenPrivate(h);
      OtherBuilders(h, h'.value, rank, top);
    case Close =>
      if h.builders != [] { ClosePrivate(h); }
      OtherBuilders(h, h'.value, rank, top);
    case Rebind(env, values, functions) =>
      if env in h.memory {
        RebindAcyclic(h, env, values, functions, rank, top);
        RebindKinds(h, env, values, functions);
        RebindPrivate(h, env, values, functions);
      }
    case Fill(text, characters) =>
      FillAcyclic(h, text, characters, rank, top);
      FillKinds(h, text, characters);
      FillPrivate(h, text, characters);
    case Forget(dead) =>
      ForgetGraph(h, dead, rank, top);
  }

  /** The graph's properties do not mention the arena. */
  lemma SameGraph(h: Heap, h': Heap, rank: map<nat, nat>, top: nat)
    requires Acyclic(h, rank, top) && Private(h)
    requires h'.memory == h.memory && h'.live == h.live && h'.builders == h.builders
    ensures Acyclic(h', rank, top) && Private(h')
  {
    hide Children;
    forall b <- h.builders ensures CellsOf(h', b) && PrivateCells(h', b) {
      assert CellsOf(h, b) && PrivateCells(h, b);
    }
  }

  lemma OtherBuilders(h: Heap, h': Heap, rank: map<nat, nat>, top: nat)
    requires Acyclic(h, rank, top) && h'.memory == h.memory && h'.live == h.live
    ensures Acyclic(h', rank, top)
  {
    hide Children;
  }

  // ---- roots

  /** What the program does next, and the objects its stacks, frames and tables point to afterwards. */
  datatype Round = Round(move: Move, roots: seq<nat>)

  /** The scratch slots point to the first cells of the lists under construction. */
  function Heads(builders: seq<seq<nat>>): seq<nat> {
    if builders == [] then []
    else
      var last := builders[|builders| - 1];
      Heads(builders[..|builders| - 1]) + if last == [] then [] else [last[0]]
  }

  /** What the marker blackens. */
  ghost function Reachable(h: Heap, roots: seq<nat>): set<nat> {
    Reach(h.memory, roots + Heads(h.builders))
  }

  /** Everything the roots no longer reach drops out. */
  ghost function Trim(h: Heap, roots: seq<nat>): Heap {
    h.(live := h.live - (h.live - Reachable(h, roots)))
  }

  lemma {:induction false} HeadIn(builders: seq<seq<nat>>, k: nat)
    requires k < |builders| && builders[k] != []
    ensures builders[k][0] in Heads(builders)
  {
    if k < |builders| - 1 { HeadIn(builders[..|builders| - 1], k); }
  }

  lemma {:induction false} HeadsAreCells(builders: seq<seq<nat>>)
    ensures forall c <- Heads(builders) :: InBuilder(builders, c)
  {
    if builders != [] {
      var front := builders[..|builders| - 1];
      HeadsAreCells(front);
      forall c <- Heads(builders) ensures InBuilder(builders, c) {
        if c in Heads(front) {
          var b :| b in front && c in b;
          assert b in builders;
        } else {
          assert c in builders[|builders| - 1];
        }
      }
    }
  }

  /** What is reached is closed under pointers. */
  lemma ReachOnward(mem: Memory, roots: seq<nat>, a: nat, x: nat)
    requires a in Reach(mem, roots) && x in Children(mem[a]) && x in mem
    ensures x in Reach(mem, roots)
  {
    hide Children;
    var r :| r in roots && Reaches(mem, r, a);
    var p :| Path(mem, p) && p[0] == r && p[|p| - 1] == a;
    assert Path(mem, p + [x]) && (p + [x])[|p|] == x;
  }

  lemma {:induction false} CellReached(h: Heap, roots: seq<nat>, b: seq<nat>, i: nat)
    requires CellsOf(h, b) && i < |b| && b[0] in roots
    ensures b[i] in Reach(h.memory, roots)
  {
    if i == 0 {
      RootIsReached(h.memory, roots, b[0]);
    } else {
      CellReached(h, roots, b, i - 1);
      assert h.memory[b[i - 1]].rest == Pointer(b[i]);
      assert b[i] in RefTo(h.memory[b[i - 1]].rest);
      hide Reach;
      ReachOnward(h.memory, roots, b[i - 1], b[i]);
    }
  }

  lemma CellsReached(h: Heap, roots: seq<nat>, b: seq<nat>)
    requires Private(h) && b in h.builders
    ensures forall c <- b :: c in Reachable(h, roots)
  {
    hide CellsOf, PrivateCells, Reach;
    var k :| 0 <= k < |h.builders| && h.builders[k] == b;
    if b != [] { HeadIn(h.builders, k); }
    var all := roots + Heads(h.builders);
    forall i: nat | i < |b| ensures b[i] in Reach(h.memory, all) {
      CellReached(h, all, b, i);
    }
  }

  lemma HeadsLive(h: Heap)
    requires Private(h)
    ensures forall c <- Heads(h.builders) :: c in h.live
  {
    HeadsAreCells(h.builders);
    hide PrivateCells;
    forall c <- Heads(h.builders) ensures c in h.live {
      var b :| b in h.builders && c in b;
      assert CellsOf(h, b);
    }
  }

  lemma ReachableLive(h: Heap, roots: seq<nat>, rank: map<nat, nat>, top: nat)
    requires Acyclic(h, rank, top) && Private(h) && forall c <- roots :: c in h.live
    ensures Reachable(h, roots) <= h.live
  {
    hide Private, Children, Ranked;
    HeadsLive(h);
    var all := roots + Heads(h.builders);
    forall x <- Reachable(h, roots) ensures x in h.live {
      ReachedStays(h.memory, h.live, rank, all, x);
    }
  }

  lemma TrimAllowed(h: Heap, roots: seq<nat>, rank: map<nat, nat>, top: nat)
    requires Acyclic(h, rank, top) && Private(h) && forall c <- roots :: c in h.live
    ensures Allowed(h, Forget(h.live - Reachable(h, roots)))
  {
    ChildStays(h, rank, top);
    hide Private, Children, Reach, Acyclic, InBuilder;
    ReachableLive(h, roots, rank, top);
    var dead := h.live - Reachable(h, roots);
    forall a <- h.live - dead, x <- Children(h.memory[a]) ensures x !in dead {
      ReachOnward(h.memory, roots + Heads(h.builders), a, x);
    }
    forall b <- h.builders, c <- b ensures c !in dead {
      CellsReached(h, roots, b);
    }
  }

  lemma TrimSane(h: Heap, roots: seq<nat>)
    requires Sane(h) && forall c <- roots :: c in h.live
    ensures Sane(Trim(h, roots)) && Trim(h, roots).live == Reachable(Trim(h, roots), roots)
  {
    hide Acyclic, Kinds, Private, InUse, Reach, Allowed;
    var rank: map<nat, nat>, top: nat :| Acyclic(h, rank, top);
    TrimAllowed(h, roots, rank, top);
    ReachableLive(h, roots, rank, top);
    StepSane(h, Forget(h.live - Reachable(h, roots)));
  }

  // ---- all runs

  /** None if a move was not allowed, or memory ran out, or something not live was made a root. */
  ghost function Play(h: Heap, rounds: seq<Round>): Option<Heap>
    decreases |rounds|
  {
    if rounds == [] then Some(h)
    else if !Allowed(h, rounds[0].move) then None
    else
      match Do(h, rounds[0].move)
      case None => None
      case Some(h') =>
        if forall c <- rounds[0].roots :: c in h'.live then Play(Trim(h', rounds[0].roots), rounds[1..]) else None
  }

  /** The last round's roots reach exactly what is live. */
  ghost predicate Rooted(h: Heap, rounds: seq<Round>) {
    rounds != [] ==> h.live == Reachable(h, rounds[|rounds| - 1].roots)
  }

  lemma {:induction false} PlaySane(h: Heap, rounds: seq<Round>)
    requires Sane(h)
    ensures var h' := Play(h, rounds); h'.Some? ==> Sane(h'.value) && Rooted(h'.value, rounds)
    decreases |rounds|
  {
    hide Sane, Allowed, Do, Reach;
    if rounds != [] && Allowed(h, rounds[0].move) {
      var (move, roots) := (rounds[0].move, rounds[0].roots);
      StepSane(h, move);
      var h' := Do(h, move);
      if h'.Some? && forall c <- roots :: c in h'.value.live {
        TrimSane(h'.value, roots);
        PlaySane(Trim(h'.value, roots), rounds[1..]);
      }
    }
  }

  /**
   Whatever the program has done, what is live, and so kept by the next collection, is what the roots reach;
   it has a rank that falls along every pointer, so that the marker ends; and all of it is in use.
   */
  lemma EveryRunIsSane(rounds: seq<Round>)
    ensures match Play(START, rounds)
      case None => true
      case Some(h) =>
        && Valid(h.arena)
        && Rooted(h, rounds)
        && (exists rank :: Ranked(h.memory, h.live, rank))
        && (forall x <- h.live :: x in h.arena.used)
  {
    hide Play, Ranked, Kinds, Private, Valid, Rooted;
    StartSane();
    PlaySane(START, rounds);
    if Play(START, rounds).None? { return; }
    var h := Play(START, rounds).value;
    var rank: map<nat, nat>, top: nat :| Acyclic(h, rank, top);
    assert Ranked(h.memory, h.live, rank);
  }
}
