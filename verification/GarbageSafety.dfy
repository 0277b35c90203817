/** The allocator together with the marker's roots: what the program can reach is never given away. */
module GarbageSafety {
  import opened Forms
  import opened Arenas
  import opened ArenaRuns
  import opened Objects

  /** What objs_mark_used blackens. */
  ghost function Marked(rt: Runtime): set<nat> {
    Reach(rt.memory, Roots(rt))
  }

  /** A collection with the runtime's marks frees nothing the runtime reaches; at most one chunk goes, and it was garbage. */
  lemma CollectionFreesGarbage(a: Arena, rt: Runtime)
    ensures var b := Collect(a, Marked(rt));
      && (forall c <- a.used :: c in Marked(rt) ==> c in b.used)
      && Kept(b.used, Marked(rt)) == Kept(a.used, Marked(rt))
      && |b.used| + 1 >= |a.used|
  {
    hide Collect, Reach;
    CollectKeeps(a, Marked(rt));
    CollectFreesOne(a, Marked(rt));
    KeptIsAll(a.used, Marked(rt));
    KeptIsAll(Collect(a, Marked(rt)).used, Marked(rt));
  }

  /** The environments with an entry in environment_bindings. */
  function BoundEnvironments(rt: Runtime): set<nat> {
    if rt.interpreter.None? then {}
    else set i | 0 <= i < |rt.interpreter.value.bindings| :: rt.interpreter.value.bindings[i].0
  }

  lemma {:induction false} BindingsHold(bindings: seq<(nat, seq<Ref>)>, i: nat)
    requires i < |bindings|
    ensures bindings[i].0 in BindingsIn(bindings)
  {
    if i < |bindings| - 1 { BindingsHold(bindings[..|bindings| - 1], i); }
  }

  lemma TaggedIsMarked(rt: Runtime, env: nat)
    requires env in BoundEnvironments(rt) && env in rt.memory
    ensures env in Marked(rt)
  {
    var i :| 0 <= i < |rt.interpreter.value.bindings| && rt.interpreter.value.bindings[i].0 == env;
    BindingsHold(rt.interpreter.value.bindings, i);
    hide Reach;
    assert env in Roots(rt);
    RootIsReached(rt.memory, Roots(rt), env);
  }

  /** What a program asks of the allocator: chunks, each with the runtime as a collection would find it, and to take chunks back. */
  datatype Demand = Granting(rt: Runtime, size: nat) | Returning(p: nat, size: nat)

  /** The arena behind a demand; None if an assertion stops the program. */
  ghost function Met(a: Arena, d: Demand): Option<Arena> {
    match d
    case Granting(rt, size) => Some(Allocate(a, size, Marked(rt)).0)
    case Returning(p, size) => Deallocate(a, p, size)
  }

  /**
   The program's part: bindings only grow, an environment that gets its first tag is in use, and no
   environment with tags is given back. bound: the environments with tags so far.
   */
  ghost predicate Orderly(a: Arena, bound: set<nat>, demands: seq<Demand>)
    decreases |demands|
  {
    demands != [] ==>
      var d := demands[0];
      && (d.Granting? ==>
            bound <= BoundEnvironments(d.rt) <= d.rt.memory.Keys && forall env <- BoundEnvironments(d.rt) - bound :: env in a.used)
      && (d.Returning? ==> forall env <- bound :: d.p != env + HEADER)
      && (Met(a, d).Some? ==> Orderly(Met(a, d).value, if d.Granting? then BoundEnvironments(d.rt) else bound, demands[1..]))
  }

  /** No chunk granted is, at that moment, the address of an environment with tags. */
  ghost predicate NoStaleTags(a: Arena, demands: seq<Demand>)
    decreases |demands|
  {
    demands != [] ==>
      var d := demands[0];
      && (d.Granting? ==>
            var p := Allocate(a, d.size, Marked(d.rt)).1;
            p.Some? ==> forall env <- BoundEnvironments(d.rt) :: p.value != env + HEADER)
      && (Met(a, d).Some? ==> NoStaleTags(Met(a, d).value, demands[1..]))
  }

  lemma GrantKeeps(a: Arena, rt: Runtime, size: nat, bound: set<nat>)
    requires Valid(a) && bound <= rt.memory.Keys && bound <= BoundEnvironments(rt) && forall env <- bound :: env in a.used
    ensures var (b, p) := Allocate(a, size, Marked(rt));
      Valid(b) && forall env <- bound :: env in b.used && (p.Some? ==> p.value != env + HEADER)
  {
    hide Valid, Allocate, Marked;
    AllocateValid(a, size, Marked(rt));
    forall env <- bound
      ensures env in Allocate(a, size, Marked(rt)).0.used
      ensures Allocate(a, size, Marked(rt)).1.Some? ==> Allocate(a, size, Marked(rt)).1.value != env + HEADER
    {
      TaggedIsMarked(rt, env);
      AllocateKeepsUsed(a, size, Marked(rt), env);
    }
  }

  lemma ReturnKeeps(a: Arena, p: nat, size: nat, bound: set<nat>)
    requires Valid(a) && forall env <- bound :: env in a.used && p != env + HEADER
    ensures var b := Deallocate(a, p, size); b.Some? ==> Valid(b.value) && forall env <- bound :: env in b.value.used
  {
    hide Valid, Deallocate;
    DeallocateValid(a, p, size);
    forall env <- bound | Deallocate(a, p, size).Some? ensures env in Deallocate(a, p, size).value.used {
      PerformPins(a, Deallocating(p, size), env);
    }
  }

  /**
   A newly pushed environment never sees stale tags: over every run of allocations, collections and
   deallocations of other chunks, no address granted is a key of environment_bindings at that moment.
   */
  lemma {:induction false} TaggedNeverReused(a: Arena, bound: set<nat>, demands: seq<Demand>)
    requires Valid(a) && (forall env <- bound :: env in a.used) && Orderly(a, bound, demands)
    ensures NoStaleTags(a, demands)
    decreases |demands|
  {
    hide Valid, Allocate, Deallocate, Marked, BoundEnvironments;
    if demands != [] {
      match demands[0] {
        case Granting(rt, size) =>
          var keys := BoundEnvironments(rt);
          GrantKeeps(a, rt, size, keys);
          TaggedNeverReused(Allocate(a, size, Marked(rt)).0, keys, demands[1..]);
        case Returning(p, size) =>
          ReturnKeeps(a, p, size, bound);
          var b := Deallocate(a, p, size);
          if b.Some? { TaggedNeverReused(b.value, bound, demands[1..]); }
      }
    }
  }
}
