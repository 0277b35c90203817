/** What is stored is reached. */
module StoredObjects {
  // After every move, whatever it stored is reached from where it was stored, and so kept by collections as long as
  // that is. What is reached is said by the marker's recursion, what is stored by the move.

  import opened Forms
  import opened Arenas
  import opened Objects
  import opened HeapMoves
  import opened MarkedObjects

  lemma ReachedInOne(mem: Memory, a: nat, x: nat)
    requires a in mem && PointsTo(mem[a], x)
    ensures Reaches(mem, a, x)
  {
    hide PointsTo, Children;
    ChildrenArePointedTo(mem[a], x);
    assert Path(mem, [a, x]);
  }

  lemma ReachedInTwo(mem: Memory, a: nat, b: nat, x: nat)
    requires a in mem && b in mem && PointsTo(mem[a], b) && PointsTo(mem[b], x)
    ensures Reaches(mem, a, x)
  {
    hide PointsTo, Children;
    ChildrenArePointedTo(mem[a], b);
    ChildrenArePointedTo(mem[b], x);
    assert Path(mem, [a, b, x]);
  }

  /** A created object is reached on to everything it was created with. */
  lemma CreatedReaches(h: Heap, size: nat, o: Object, x: nat)
    requires PointsTo(o, x)
    ensures var h' := Do(h, Create(size, o));
      h'.Some? ==> exists c :: c in h'.value.live && h'.value.memory[c := o] == h'.value.memory && Reaches(h'.value.memory, c, x)
  {
    hide Allocate, Reaches, PointsTo;
    var h' := Do(h, Create(size, o));
    if h'.Some? {
      var c := Allocate(h.arena, size, h.live).1.value - HEADER;
      ReachedInOne(h'.value.memory, c, x);
      assert h'.value.memory[c := o] == h'.value.memory;
    }
  }

  /** Rebinding an environment: its parent stays, and every symbol, value and function it now has is reached from it. */
  lemma ReboundReaches(h: Heap, env: nat, values: seq<(nat, Ref)>, functions: seq<(nat, nat)>)
    requires env in h.memory && h.memory[env].Environment?
    ensures Do(h, Rebind(env, values, functions)).Some?
    ensures var mem := Do(h, Rebind(env, values, functions)).value.memory;
      && (forall i :: 0 <= i < |values| ==> Reaches(mem, env, values[i].0) && (values[i].1.Pointer? ==> Reaches(mem, env, values[i].1.to)))
      && (forall i :: 0 <= i < |functions| ==> Reaches(mem, env, functions[i].0) && Reaches(mem, env, functions[i].1))
      && (h.memory[env].parent.Some? ==> Reaches(mem, env, h.memory[env].parent.value))
      && (forall a <- h.memory :: a != env ==> a in mem && mem[a] == h.memory[a])
  {
    hide Reaches;
    var mem := Do(h, Rebind(env, values, functions)).value.memory;
    forall i | 0 <= i < |values|
      ensures Reaches(mem, env, values[i].0) && (values[i].1.Pointer? ==> Reaches(mem, env, values[i].1.to))
    {
      assert values[i] in values;
      ReachedInOne(mem, env, values[i].0);
      if values[i].1.Pointer? { ReachedInOne(mem, env, values[i].1.to); }
    }
    forall i | 0 <= i < |functions| ensures Reaches(mem, env, functions[i].0) && Reaches(mem, env, functions[i].1) {
      assert functions[i] in functions;
      ReachedInOne(mem, env, functions[i].0);
      ReachedInOne(mem, env, functions[i].1);
    }
    if h.memory[env].parent.Some? { ReachedInOne(mem, env, h.memory[env].parent.value); }
  }

  /** A string's or symbol's characters are reached from it once they are filled in. */
  lemma FilledReaches(h: Heap, text: nat, characters: nat)
    ensures var h' := Do(h, Fill(text, characters)); h'.Some? && Reaches(h'.value.memory, text, characters)
  {
    hide Reaches;
    ReachedInOne(FilledHeap(h, text, characters).memory, text, characters);
  }

  /** An appended value is reached from its cell, and the cell from the one in front. */
  lemma AppendedReaches(h: Heap, size: nat, value: Ref)
    requires Sane(h) && Allowed(h, Append(size, value))
    ensures var h' := Do(h, Append(size, value));
      h'.Some? ==>
        var cells := h'.value.builders[|h.builders| - 1];
        var n := |cells| - 1;
        && n == |h.builders[|h.builders| - 1]|
        && (value.Pointer? ==> Reaches(h'.value.memory, cells[n], value.to))
        && (n > 0 ==> Reaches(h'.value.memory, cells[n - 1], cells[n]))
  {
    hide Allocate, Reaches, PrivateCells, Acyclic, Kinds, Valid;
    AllocateKeepsInUse(h, size);
    var h' := Do(h, Append(size, value));
    if h'.Some? {
      var mem := h'.value.memory;
      var c := Allocate(h.arena, size, h.live).1.value - HEADER;
      var b := h.builders[|h.builders| - 1];
      assert b in h.builders && CellsOf(h, b);
      assert h'.value.builders[|h.builders| - 1] == b + [c];
      if value.Pointer? { ReachedInOne(mem, c, value.to); }
      if b != [] {
        assert b[|b| - 1] in h.live && mem[b[|b| - 1]].Pair?;
        ReachedInOne(mem, b[|b| - 1], c);
      }
    }
  }
}
