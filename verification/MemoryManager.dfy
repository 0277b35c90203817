/** memory_manager.c and the marker in runtime.c and interpreter.c: first fit, mark and sweep on the headers. */
module MemoryManagers {
  import opened Forms
  import opened Arenas
  import opened ArenaRuns
  import opened Objects
  import opened HeaderLists

  class MemoryManager {
    var headers: Headers
    var firstFree: Option<nat>
    var firstAllocated: Option<nat>
    var nextGcSize: nat
    var allocatedBytes: nat
    var freedBytes: nat
    ghost var arena: Arena

    ghost predicate Valid()
      reads this
    {
      && Represents(headers, firstFree, firstAllocated, arena)
      && arena.nextGc == nextGcSize && arena.allocatedBytes == allocatedBytes && arena.freedBytes == freedBytes
      && Arenas.Valid(arena)
    }

    constructor ()
      ensures Valid() && arena == FRESH
    {
      headers := map[0 := Header(BLOCK, White, false, None)];
      firstFree := Some(0);
      firstAllocated := None;
      nextGcSize := FIRST_GC;
      allocatedBytes := 0;
      freedBytes := 0;
      arena := FRESH;
      new;
      FreshValid();
    }

    method MarkUsed(a: nat)
      requires a in headers
      modifies this`headers
      ensures headers == old(headers)[a := old(headers)[a].(mark := Black)]
    {
      headers := headers[a := headers[a].(mark := Black)];
    }

    /** The marker does not look whether it has been at an object before: it ends because the rank falls. */
    method MarkObject(mem: Memory, a: nat, ghost live: set<nat>, ghost rank: map<nat, nat>)
      requires Ranked(mem, live, rank) && a in live && live <= headers.Keys
      modifies this`headers
      ensures headers == Paint(old(headers), Reach(mem, [a]), Black)
      decreases rank[a], 2
    {
      ghost var before := headers;
      MarkUsed(a);
      ghost var marked := headers;
      PaintNone(marked, mem);
      match mem[a] {
        case Pair(first, rest) =>
          MarkForm(mem, first, live, rank, rank[a]);
          MarkForm(mem, rest, live, rank, rank[a]);
          PaintReach(marked, mem, RefTo(first), RefTo(rest));
        case Text(characters) =>
          if characters.Some? {
            MarkObject(mem, characters.value, live, rank);
          }
        case Opaque =>
        case Environment(parent, values, functions) =>
          if parent.Some? {
            MarkObject(mem, parent.value, live, rank);
          }
          MarkValues(mem, values, live, rank, rank[a]);
          PaintReach(marked, mem, Maybe(parent), ValuesIn(values));
          MarkFunctions(mem, functions, live, rank, rank[a]);
          PaintReach(marked, mem, Maybe(parent) + ValuesIn(values), FunctionsIn(functions));
      }
      PaintObject(before, mem, a);
    }

    method MarkForm(mem: Memory, r: Ref, ghost live: set<nat>, ghost rank: map<nat, nat>, ghost below: nat)
      requires Ranked(mem, live, rank) && live <= headers.Keys
      requires forall c <- RefTo(r) :: c in live && c in rank && rank[c] < below
      modifies this`headers
      ensures headers == Paint(old(headers), Reach(mem, RefTo(r)), Black)
      decreases below, 0
    {
      if r.Pointer? {
        assert r.to in RefTo(r);
        MarkObject(mem, r.to, live, rank);
      } else {
        PaintNone(headers, mem);
      }
    }

    method MarkValues(mem: Memory, values: seq<(nat, Ref)>, ghost live: set<nat>, ghost rank: map<nat, nat>, ghost below: nat)
      requires Ranked(mem, live, rank) && live <= headers.Keys
      requires forall c <- ValuesIn(values) :: c in live && c in rank && rank[c] < below
      modifies this`headers
      ensures headers == Paint(old(headers), Reach(mem, ValuesIn(values)), Black)
      decreases below, 1
    {
      ghost var before := headers;
      PaintNone(before, mem);
      var i := 0;
      while i < |values|
        invariant i <= |values| && live <= headers.Keys
        invariant headers == Paint(before, Reach(mem, ValuesIn(values[..i])), Black)
      {
        ValuesSnoc(values, i);
        MarkObject(mem, values[i].0, live, rank);
        PaintReach(before, mem, ValuesIn(values[..i]), [values[i].0]);
        MarkForm(mem, values[i].1, live, rank, below);
        PaintReach(before, mem, ValuesIn(values[..i]) + [values[i].0], RefTo(values[i].1));
        i := i + 1;
      }
      assert values[..i] == values;
    }

    method MarkFunctions(mem: Memory, functions: seq<(nat, nat)>, ghost live: set<nat>, ghost rank: map<nat, nat>, ghost below: nat)
      requires Ranked(mem, live, rank) && live <= headers.Keys
      requires forall c <- FunctionsIn(functions) :: c in live && c in rank && rank[c] < below
      modifies this`headers
      ensures headers == Paint(old(headers), Reach(mem, FunctionsIn(functions)), Black)
      decreases below, 1
    {
      ghost var before := headers;
      PaintNone(before, mem);
      var i := 0;
      while i < |functions|
        invariant i <= |functions| && live <= headers.Keys
        invariant headers == Paint(before, Reach(mem, FunctionsIn(functions[..i])), Black)
      {
        FunctionsSnoc(functions, i);
        MarkObject(mem, functions[i].0, live, rank);
        PaintReach(before, mem, FunctionsIn(functions[..i]), [functions[i].0]);
        MarkObject(mem, functions[i].1, live, rank);
        PaintReach(before, mem, FunctionsIn(functions[..i]) + [functions[i].0], [functions[i].1]);
        i := i + 1;
      }
      assert functions[..i] == functions;
    }

    method MarkForms(mem: Memory, refs: seq<Ref>, ghost live: set<nat>, ghost rank: map<nat, nat>, ghost below: nat)
      requires Ranked(mem, live, rank) && live <= headers.Keys && Below(live, rank, below)
      requires forall c <- RefsIn(refs) :: c in live
      modifies this`headers
      ensures headers == Paint(old(headers), Reach(mem, RefsIn(refs)), Black)
    {
      ghost var before := headers;
      PaintNone(before, mem);
      var i := 0;
      while i < |refs|
        invariant i <= |refs| && live <= headers.Keys
        invariant headers == Paint(before, Reach(mem, RefsIn(refs[..i])), Black)
      {
        RefsSnoc(refs, i);
        MarkForm(mem, refs[i], live, rank, below);
        PaintReach(before, mem, RefsIn(refs[..i]), RefTo(refs[i]));
        i := i + 1;
      }
      assert refs[..i] == refs;
    }

    method MarkAll(mem: Memory, s: seq<nat>, ghost live: set<nat>, ghost rank: map<nat, nat>)
      requires Ranked(mem, live, rank) && live <= headers.Keys
      requires forall c <- s :: c in live
      modifies this`headers
      ensures headers == Paint(old(headers), Reach(mem, s), Black)
    {
      ghost var before := headers;
      PaintNone(before, mem);
      var i := 0;
      while i < |s|
        invariant i <= |s| && live <= headers.Keys
        invariant headers == Paint(before, Reach(mem, s[..i]), Black)
      {
        MarkObject(mem, s[i], live, rank);
        PaintReach(before, mem, s[..i], [s[i]]);
        assert s[..i + 1] == s[..i] + [s[i]];
        i := i + 1;
      }
      assert s[..i] == s;
    }

    method MarkBindings(mem: Memory, bindings: seq<(nat, seq<Ref>)>, ghost live: set<nat>, ghost rank: map<nat, nat>, ghost below: nat)
      requires Ranked(mem, live, rank) && live <= headers.Keys && Below(live, rank, below)
      requires forall c <- BindingsIn(bindings) :: c in live
      modifies this`headers
      ensures headers == Paint(old(headers), Reach(mem, BindingsIn(bindings)), Black)
    {
      ghost var before := headers;
      PaintNone(before, mem);
      var i := 0;
      while i < |bindings|
        invariant i <= |bindings| && live <= headers.Keys
        invariant headers == Paint(before, Reach(mem, BindingsIn(bindings[..i])), Black)
      {
        BindingsSnoc(bindings, i);
        MarkObject(mem, bindings[i].0, live, rank);
        PaintReach(before, mem, BindingsIn(bindings[..i]), [bindings[i].0]);
        MarkForms(mem, bindings[i].1, live, rank, below);
        PaintReach(before, mem, BindingsIn(bindings[..i]) + [bindings[i].0], RefsIn(bindings[i].1));
        i := i + 1;
      }
      assert bindings[..i] == bindings;
    }

    method MarkInterpreter(mem: Memory, i: Interpreter, ghost live: set<nat>, ghost rank: map<nat, nat>, ghost below: nat)
      requires Ranked(mem, live, rank) && live <= headers.Keys && Below(live, rank, below)
      requires forall c <- InterpreterRoots(i) :: c in live
      requires i.self in mem && mem[i.self].Opaque?
      modifies this`headers
      ensures headers == Paint(old(headers), Reach(mem, InterpreterRoots(i)), Black)
    {
      ghost var before := headers;
      MarkUsed(i.self);
      ghost var roots := [i.self];
      PaintNone(headers, mem);
      PaintObject(before, mem, i.self);
      MarkForms(mem, i.forms, live, rank, below);
      PaintReach(before, mem, roots, RefsIn(i.forms));
      roots := roots + RefsIn(i.forms);
      MarkForms(mem, i.lastReturns, live, rank, below);
      PaintReach(before, mem, roots, RefsIn(i.lastReturns));
      roots := roots + RefsIn(i.lastReturns);
      MarkAll(mem, i.frames, live, rank);
      PaintReach(before, mem, roots, i.frames);
      roots := roots + i.frames;
      MarkFunctions(mem, i.functionEnvironments, live, rank, below);
      PaintReach(before, mem, roots, FunctionsIn(i.functionEnvironments));
      roots := roots + FunctionsIn(i.functionEnvironments);
      MarkBindings(mem, i.bindings, live, rank, below);
      PaintReach(before, mem, roots, BindingsIn(i.bindings));
    }

    method MarkPackage(mem: Memory, p: Package, ghost live: set<nat>, ghost rank: map<nat, nat>)
      requires Ranked(mem, live, rank) && live <= headers.Keys
      requires forall c <- PackageRoots(p) :: c in live
      modifies this`headers
      ensures headers == Paint(old(headers), Reach(mem, PackageRoots(p)), Black)
    {
      ghost var before := headers;
      MarkObject(mem, p.global, live, rank);
      ghost var roots := [p.global];
      MarkObject(mem, p.readtable, live, rank);
      PaintReach(before, mem, roots, [p.readtable]);
      roots := roots + [p.readtable];
      MarkAll(mem, p.interned, live, rank);
      PaintReach(before, mem, roots, p.interned);
      roots := roots + p.interned;
      MarkAll(mem, p.exported, live, rank);
      PaintReach(before, mem, roots, p.exported);
    }

    method MarkPackages(mem: Memory, packages: seq<Package>, ghost live: set<nat>, ghost rank: map<nat, nat>)
      requires Ranked(mem, live, rank) && live <= headers.Keys
      requires forall c <- PackagesIn(packages) :: c in live
      modifies this`headers
      ensures headers == Paint(old(headers), Reach(mem, PackagesIn(packages)), Black)
    {
      ghost var before := headers;
      PaintNone(before, mem);
      var k := 0;
      while k < |packages|
        invariant k <= |packages| && live <= headers.Keys
        invariant headers == Paint(before, Reach(mem, PackagesIn(packages[..k])), Black)
      {
        PackagesSnoc(packages, k);
        MarkPackage(mem, packages[k], live, rank);
        PaintReach(before, mem, PackagesIn(packages[..k]), PackageRoots(packages[k]));
        k := k + 1;
      }
      assert packages[..k] == packages;
    }

    /** objs_mark_used: blackens exactly what is reachable from the runtime. */
    method MarkRuntime(rt: Runtime, ghost live: set<nat>, ghost rank: map<nat, nat>)
      requires Ranked(rt.memory, live, rank) && Rooted(rt, live) && live <= headers.Keys
      modifies this`headers
      ensures headers == Paint(old(headers), Reach(rt.memory, Roots(rt)), Black)
    {
      var mem := rt.memory;
      ghost var before := headers;
      ghost var below := RankBound(live, rank);
      ghost var roots := Maybe(rt.readtable);
      if rt.readtable.Some? {
        MarkObject(mem, rt.readtable.value, live, rank);
      } else {
        PaintNone(headers, mem);
      }
      if rt.interpreter.Some? {
        MarkInterpreter(mem, rt.interpreter.value, live, rank, below);
        PaintReach(before, mem, roots, InterpreterRoots(rt.interpreter.value));
        roots := roots + InterpreterRoots(rt.interpreter.value);
      } else {
        assert roots + [] == roots;
      }
      MarkPackages(mem, rt.packages, live, rank);
      PaintReach(before, mem, roots, PackagesIn(rt.packages));
    }

    /** `at` is the chunk whose link is redirected, None for the head of the list: a pointer to a pointer. */
    method SetLink(at: Option<nat>, to: Option<nat>, inFree: bool)
      requires at.Some? ==> at.value in headers
      modifies this`headers, this`firstFree, this`firstAllocated
      ensures headers == (if at.Some? then old(headers)[at.value := old(headers)[at.value].(next := to)] else old(headers))
      ensures firstFree == (if at.None? && inFree then to else old(firstFree))
      ensures firstAllocated == (if at.None? && !inFree then to else old(firstAllocated))
    {
      if at.Some? {
        headers := headers[at.value := headers[at.value].(next := to)];
      } else if inFree {
        firstFree := to;
      } else {
        firstAllocated := to;
      }
    }

    /** Walks the allocated list to the link that leads to the chunk. */
    method FindAllocated(freed: nat) returns (at: Option<nat>, ghost k: nat)
      requires Chain(headers, firstAllocated, arena.used) && freed in arena.used
      ensures k < |arena.used| && arena.used[k] == freed
      ensures at == LinkTo(arena.used, k)
    {
      at := None;
      k := 0;
      var cur := firstAllocated;
      while cur.Some? && cur.value != freed
        invariant k <= |arena.used| && cur == HeadOf(arena.used, k) && at == LinkTo(arena.used, k)
        invariant freed in arena.used[k..]
        decreases |arena.used| - k
      {
        at := cur;
        cur := headers[cur.value].next;
        k := k + 1;
      }
    }

    /** Unlinks an allocated chunk and puts it in front of the free list. */
    method InternalDeallocate(freed: nat) returns (ok: bool)
      requires Valid() && freed in headers
      modifies this
      ensures Valid()
      ensures ok <==> freed in old(arena).used
      ensures !ok ==> arena == old(arena) && headers == old(headers)
      ensures ok ==> IsIndexOf(old(arena).used, freed) && arena == Release(old(arena), IndexOf(old(arena).used, freed, 0).value)
      ensures ok ==> forall c <- headers :: c in old(headers) && headers[c].mark == if c == freed then White else old(headers)[c].mark
    {
      hide HeadersReleased, Represents, Arenas.Valid, Released, RemoveAt;
      ok := headers[freed].inUse;
      InUseIs(headers, firstFree, firstAllocated, arena, freed);
      if !ok { return; }
      var at;
      ghost var k;
      at, k := FindAllocated(freed);
      ReleaseRepresents(headers, firstFree, firstAllocated, arena, k);
      ReleaseValid(arena, k);
      MoveToFree(at, freed);
      arena := Release(arena, k);
    }

    method MoveToFree(at: Option<nat>, freed: nat)
      requires freed in headers && (at.Some? ==> at.value in headers)
      modifies this`headers, this`firstFree, this`firstAllocated, this`freedBytes
      ensures headers == HeadersReleased(old(headers), old(firstFree), at, freed)
      ensures firstFree == Some(freed)
      ensures firstAllocated == if at.None? then old(headers)[freed].next else old(firstAllocated)
      ensures freedBytes == (old(freedBytes) + old(headers)[freed].size - HEADER) % WORD
    {
      SetLink(at, headers[freed].next, false);
      headers := headers[freed := Header(headers[freed].size, White, false, firstFree)];
      firstFree := Some(freed);
      freedBytes := (freedBytes + headers[freed].size - HEADER) % WORD;
    }

    /** Every allocated chunk becomes grey. */
    method MarkGrey()
      requires Chain(headers, firstAllocated, arena.used)
      modifies this`headers
      ensures headers == Paint(old(headers), Members(old(arena).used), Grey)
    {
      ghost var before := headers;
      ghost var i: nat := 0;
      var cur := firstAllocated;
      assert headers == Paint(before, Members(arena.used[..0]), Grey);
      while cur.Some?
        invariant i <= |arena.used| && cur == HeadOf(arena.used, i)
        invariant headers == Paint(before, Members(arena.used[..i]), Grey)
        decreases |arena.used| - i
      {
        assert headers[cur.value].next == HeadOf(arena.used, i + 1);
        PaintOne(before, arena.used, i);
        headers := headers[cur.value := headers[cur.value].(mark := Grey)];
        cur := headers[cur.value].next;
        i := i + 1;
      }
      assert arena.used[..i] == arena.used;
    }

    /**
     The sweep as written: once a chunk has been given back its link leads on into the free list, where
     nothing is grey, so that the walk ends there.
     */
    method Sweep(ghost keep: set<nat>)
      requires Valid() && forall c <- arena.used :: c in headers && (headers[c].mark == Grey <==> c !in keep)
      modifies this
      ensures Valid()
      ensures arena.(nextGc := 2 * arena.nextGc % WORD) == Collect(old(arena), keep)
    {
      hide Arenas.Valid, Release, Represents, Collect, FirstGarbage, IndexOf, Chain;
      ghost var start := arena;
      ghost var before := headers;
      ghost var swept := false;
      ghost var i: nat := 0;
      var cur := firstAllocated;
      FirstUsed(headers, firstFree, firstAllocated, arena);
      while cur.Some?
        invariant Valid()
        invariant !swept ==> arena == start && headers == before && i <= |start.used| && cur == HeadOf(start.used, i)
        invariant !swept ==> forall j :: 0 <= j < i <= |start.used| ==> start.used[j] in keep
        invariant swept ==> arena.(nextGc := 2 * arena.nextGc % WORD) == Collect(start, keep)
        invariant swept ==> i <= |arena.free| && cur == HeadOf(arena.free, i)
        decreases !swept, (if swept then |arena.free| else |arena.used|) - i
      {
        if swept {
          FreeLink(headers, firstFree, firstAllocated, arena, i);
        } else {
          UsedLink(headers, firstFree, firstAllocated, arena, i);
          assert start.used[i] in start.used;
        }
        if headers[cur.value].mark == Grey {
          FirstGarbageIs(start.used, keep, i, 0);
          SweptOne(start, keep, i);
          var ok := InternalDeallocate(cur.value);
          swept := true;
          i := 0;
          FreeLink(headers, firstFree, firstAllocated, arena, i);
        }
        cur := headers[cur.value].next;
        i := i + 1;
      }
      if !swept { NoGarbageLeft(start, keep); }
    }

    /** run_gc; keep is what its marking leaves black. */
    method RunGc(rt: Runtime, trigger: Option<nat>, ghost live: set<nat>, ghost rank: map<nat, nat>)
      requires Valid() && Ranked(rt.memory, live, rank) && Rooted(rt, live) && live <= headers.Keys
      requires trigger.Some? ==> trigger.value in headers
      modifies this
      ensures Valid()
      ensures arena == Collect(old(arena), Reach(rt.memory, Roots(rt)) + Members(Maybe(trigger)))
    {
      hide Arenas.Valid, Collect, Ranked, Rooted, Reach, Represents, Chain, Paint, Members, Maybe;
      ghost var before := headers;
      ghost var keep := Reach(rt.memory, Roots(rt)) + Members(Maybe(trigger));
      RepresentsChain(headers, firstFree, firstAllocated, arena);
      MarkGrey();
      ghost var grey := headers;
      PaintKeys(before, Members(arena.used), Grey);
      if trigger.Some? {
        headers := headers[trigger.value := headers[trigger.value].(mark := Black)];
      }
      PaintTrigger(grey, trigger);
      MarkRuntime(rt, live, rank);
      Marked(before, firstFree, firstAllocated, arena, Reach(rt.memory, Roots(rt)), Members(Maybe(trigger)));
      Sweep(keep);
      nextGcSize := 2 * nextGcSize % WORD;
      ghost var swept := arena;
      arena := arena.(nextGc := 2 * arena.nextGc % WORD);
      ThresholdOnly(headers, firstFree, firstAllocated, swept);
    }

    /** Walks the free list to the link that leads to the first chunk that fits. */
    method FindFit(size: nat) returns (at: Option<nat>, cur: Option<nat>, ghost k: nat)
      requires Valid()
      ensures cur.None? ==> FirstFit(arena.sizes, arena.free, 0, size).None?
      ensures cur.Some? ==> k < |arena.free| && cur.value == arena.free[k] && at == LinkTo(arena.free, k)
      ensures cur.Some? ==> FirstFit(arena.sizes, arena.free, 0, size) == Some(k) && Fits(SizeAt(arena.sizes, arena.free[k]), size)
    {
      hide Arenas.Valid, Represents, Chain;
      at, cur, k := None, firstFree, 0;
      FirstFree(headers, firstFree, firstAllocated, arena);
      while cur.Some?
        invariant k <= |arena.free| && cur == HeadOf(arena.free, k) && at == LinkTo(arena.free, k)
        invariant FirstFit(arena.sizes, arena.free, 0, size) == FirstFit(arena.sizes, arena.free, k, size)
        decreases |arena.free| - k
      {
        FreeLink(headers, firstFree, firstAllocated, arena, k);
        SizeIs(headers, firstFree, firstAllocated, arena, cur.value);
        var have := headers[cur.value].size;
        if have == HEADER + size || have >= 2 * HEADER + size { return; }
        at := cur;
        cur := headers[cur.value].next;
        k := k + 1;
      }
    }

    method TakeChunk(at: Option<nat>, chunk: nat, size: nat)
      requires chunk in headers && Fits(headers[chunk].size, size) && (at.Some? ==> at.value in headers)
      modifies this`headers, this`firstFree, this`firstAllocated, this`allocatedBytes
      ensures headers == HeadersTaken(old(headers), old(firstAllocated), at, chunk, size)
      ensures firstFree == if at.None? then FreeLinkAfter(old(headers), chunk, size) else old(firstFree)
      ensures firstAllocated == Some(chunk)
      ensures allocatedBytes == (old(allocatedBytes) + size) % WORD
    {
      if headers[chunk].size == HEADER + size {
        SetLink(at, headers[chunk].next, true);
      } else {
        var rest := chunk + HEADER + size;
        headers := headers[rest := Header(headers[chunk].size - (HEADER + size), White, false, headers[chunk].next)];
        SetLink(at, Some(rest), true);
      }
      headers := headers[chunk := Header(HEADER + size, White, true, firstAllocated)];
      firstAllocated := Some(chunk);
      allocatedBytes := (allocatedBytes + size) % WORD;
    }

    method Allocate(size: nat, rt: Runtime, ghost live: set<nat>, ghost rank: map<nat, nat>) returns (p: Option<nat>)
      requires Valid() && Ranked(rt.memory, live, rank) && Rooted(rt, live) && live <= headers.Keys
      modifies this
      ensures Valid()
      ensures (arena, p) == Arenas.Allocate(old(arena), size, Reach(rt.memory, Roots(rt)))
    {
      hide Arenas.Valid, Represents, Chain, Ranked, Rooted, Reach, Take, Collect, HeadersTaken, FirstFit, Fits;
      var at, cur;
      ghost var k;
      at, cur, k := FindFit(size);
      if cur.None? { return None; }
      TakeRepresents(headers, firstFree, firstAllocated, arena, k, size);
      TakeValid(arena, k, size);
      TakeCounts(arena, k, size);
      TakeChunk(at, cur.value, size);
      arena := Take(arena, k, size);
      if allocatedBytes >= nextGcSize {
        TriggerOnly(cur.value);
        RunGc(rt, cur, live, rank);
      }
      p := Some(cur.value + HEADER);
    }

    /** False: one of the two assertions stops the program. The pointer must be one that was handed out. */
    method Deallocate(p: nat, size: nat) returns (ok: bool)
      requires Valid() && p >= HEADER && p - HEADER in headers
      modifies this
      ensures Valid()
      ensures var r := Arenas.Deallocate(old(arena), p, size);
        ok == r.Some? && arena == if ok then r.value else old(arena)
    {
      hide Arenas.Valid, Represents, Release;
      var freed := p - HEADER;
      SizeIs(headers, firstFree, firstAllocated, arena, freed);
      IndexOfFirst(arena.used, freed, 0);
      assert arena.used[0..] == arena.used;
      if headers[freed].size != size + HEADER { return false; }
      ok := InternalDeallocate(freed);
    }

    method InspectAllocation() returns (n: nat)
      requires Valid()
      ensures n == Payload(arena.sizes, arena.used)
    {
      hide Represents, Chain;
      n := (allocatedBytes - freedBytes) % WORD;
      InspectIsPayload(arena);
    }
  }
}
