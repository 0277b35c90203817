/** What the marker keeps, object by object. */
module MarkedObjects {
  // Which objects the runtime holds, and which an object points to, said outright; and that what a collection
  // marks is the least set that has the first and is closed under the second. So every symbol of a package's
  // table stays where it is, with its characters, and no address granted is one of them.

  import opened Forms
  import opened Arenas
  import opened ArenaRuns
  import opened Objects
  import opened GarbageSafety

  // ---- what is held

  ghost predicate HeldByPackage(p: Package, x: nat) {
    x == p.global || x == p.readtable || x in p.interned || x in p.exported
  }

  ghost predicate HeldByInterpreter(i: Interpreter, x: nat) {
    || x == i.self
    || Pointer(x) in i.forms
    || Pointer(x) in i.lastReturns
    || x in i.frames
    || (exists e <- i.functionEnvironments :: x == e.0 || x == e.1)
    || (exists e <- i.bindings :: x == e.0 || Pointer(x) in e.1)
  }

  ghost predicate Held(rt: Runtime, x: nat) {
    || rt.readtable == Some(x)
    || (rt.interpreter.Some? && HeldByInterpreter(rt.interpreter.value, x))
    || (exists p <- rt.packages :: HeldByPackage(p, x))
  }

  ghost predicate PointsTo(o: Object, x: nat) {
    match o
    case Pair(first, rest) => first == Pointer(x) || rest == Pointer(x)
    case Text(characters) => characters == Some(x)
    case Opaque => false
    case Environment(parent, values, functions) =>
      || parent == Some(x)
      || (exists e <- values :: x == e.0 || e.1 == Pointer(x))
      || (exists e <- functions :: x == e.0 || x == e.1)
  }

  lemma InFront<X>(s: seq<X>, x: X)
    requires s != []
    ensures x in s <==> x in s[..|s| - 1] || x == s[|s| - 1]
  {
    assert s == s[..|s| - 1] + [s[|s| - 1]];
  }

  lemma {:induction false} RefsAre(refs: seq<Ref>, x: nat)
    ensures x in RefsIn(refs) <==> Pointer(x) in refs
  {
    if refs != [] {
      InFront(refs, Pointer(x));
      RefsAre(refs[..|refs| - 1], x);
    }
  }

  lemma {:induction false} ValuesAre(values: seq<(nat, Ref)>, x: nat)
    ensures x in ValuesIn(values) <==> exists e <- values :: x == e.0 || e.1 == Pointer(x)
  {
    if values != [] {
      var front, last := values[..|values| - 1], values[|values| - 1];
      ValuesAre(front, x);
      forall e: (nat, Ref) ensures e in values <==> e in front || e == last { InFront(values, e); }
      assert x in RefTo(last.1) <==> last.1 == Pointer(x);
    }
  }

  lemma {:induction false} FunctionsAre(functions: seq<(nat, nat)>, x: nat)
    ensures x in FunctionsIn(functions) <==> exists e <- functions :: x == e.0 || x == e.1
  {
    if functions != [] {
      var front, last := functions[..|functions| - 1], functions[|functions| - 1];
      FunctionsAre(front, x);
      forall e: (nat, nat) ensures e in functions <==> e in front || e == last { InFront(functions, e); }
    }
  }

  lemma {:induction false} BindingsAre(bindings: seq<(nat, seq<Ref>)>, x: nat)
    ensures x in BindingsIn(bindings) <==> exists e <- bindings :: x == e.0 || Pointer(x) in e.1
  {
    if bindings != [] {
      var front, last := bindings[..|bindings| - 1], bindings[|bindings| - 1];
      BindingsAre(front, x);
      RefsAre(last.1, x);
      forall e: (nat, seq<Ref>) ensures e in bindings <==> e in front || e == last { InFront(bindings, e); }
    }
  }

  lemma {:induction false} PackagesAre(packages: seq<Package>, x: nat)
    ensures x in PackagesIn(packages) <==> exists p <- packages :: HeldByPackage(p, x)
  {
    if packages != [] {
      var front, last := packages[..|packages| - 1], packages[|packages| - 1];
      PackagesAre(front, x);
      forall p: Package ensures p in packages <==> p in front || p == last { InFront(packages, p); }
      assert x in PackageRoots(last) <==> HeldByPackage(last, x);
    }
  }

  /** The roots are what the runtime holds: nothing is forgotten, and nothing else is kept. */
  lemma RootsAreHeld(rt: Runtime, x: nat)
    ensures x in Roots(rt) <==> Held(rt, x)
  {
    PackagesAre(rt.packages, x);
    if rt.interpreter.Some? {
      InterpreterHolds(rt.interpreter.value, x);
    }
    hide InterpreterRoots, PackagesIn, HeldByInterpreter, HeldByPackage;
  }

  lemma InterpreterHolds(i: Interpreter, x: nat)
    ensures x in InterpreterRoots(i) <==> HeldByInterpreter(i, x)
  {
    hide RefsIn, FunctionsIn, BindingsIn;
    RefsAre(i.forms, x);
    RefsAre(i.lastReturns, x);
    FunctionsAre(i.functionEnvironments, x);
    BindingsAre(i.bindings, x);
  }

  lemma ChildrenArePointedTo(o: Object, x: nat)
    ensures x in Children(o) <==> PointsTo(o, x)
  {
    hide ValuesIn, FunctionsIn;
    if o.Environment? {
      ValuesAre(o.values, x);
      FunctionsAre(o.functions, x);
    }
  }

  // ---- what is marked

  /** A set that has what the runtime holds and, with an object, everything the object points to. */
  ghost predicate ClosedFor(rt: Runtime, s: set<nat>) {
    && (forall x <- rt.memory.Keys :: Held(rt, x) ==> x in s)
    && (forall a <- s, x <- rt.memory.Keys :: a in rt.memory && PointsTo(rt.memory[a], x) ==> x in s)
  }

  lemma MarkedIsClosed(rt: Runtime)
    ensures ClosedFor(rt, Marked(rt))
  {
    hide Held, PointsTo, Roots, Children, Reach, Reaches;
    var mem := rt.memory;
    forall x <- mem.Keys | Held(rt, x) ensures x in Marked(rt) {
      RootsAreHeld(rt, x);
      RootIsReached(mem, Roots(rt), x);
    }
    forall a <- Marked(rt), x <- mem.Keys | a in mem && PointsTo(mem[a], x) ensures x in Marked(rt) {
      ChildrenArePointedTo(mem[a], x);
      ReachedOnward(mem, Roots(rt), a, x);
    }
  }

  lemma ReachedOnward(mem: Memory, roots: seq<nat>, a: nat, x: nat)
    requires a in mem && x in mem && a in Reach(mem, roots) && x in Children(mem[a])
    ensures x in Reach(mem, roots)
  {
    hide Children;
    var r :| r in roots && Reaches(mem, r, a);
    var p :| Path(mem, p) && p[0] == r && p[|p| - 1] == a;
    var q := p + [x];
    assert Path(mem, q) && q[0] == r && q[|q| - 1] == x;
    assert Reaches(mem, r, x);
  }

  lemma {:induction false} PathInside(rt: Runtime, s: set<nat>, p: seq<nat>)
    requires ClosedFor(rt, s) && Path(rt.memory, p) && p[0] in s && p[|p| - 1] in rt.memory
    ensures p[|p| - 1] in s
    decreases |p|
  {
    hide Held, PointsTo, Children;
    if |p| > 1 {
      ChildrenArePointedTo(rt.memory[p[0]], p[1]);
      assert Path(rt.memory, p[1..]);
      assert p[1] in rt.memory;
      PathInside(rt, s, p[1..]);
    }
  }

  /** What a collection marks is the least such set. */
  lemma MarkedIsLeast(rt: Runtime, s: set<nat>)
    requires ClosedFor(rt, s)
    ensures Marked(rt) <= s
  {
    hide ClosedFor, Roots, Held;
    forall x <- Marked(rt) ensures x in s {
      assert ReachedFrom(rt.memory, Roots(rt), x) && x in rt.memory;
      var r :| r in Roots(rt) && Reaches(rt.memory, r, x);
      var p :| Path(rt.memory, p) && p[0] == r && p[|p| - 1] == x;
      RootsAreHeld(rt, r);
      StartsInMemory(rt.memory, p);
      HeldIsIn(rt, s, r);
      PathInside(rt, s, p);
    }
  }

  lemma StartsInMemory(mem: Memory, p: seq<nat>)
    requires Path(mem, p) && p[|p| - 1] in mem
    ensures p[0] in mem
  {
  }

  lemma HeldIsIn(rt: Runtime, s: set<nat>, x: nat)
    requires ClosedFor(rt, s) && Held(rt, x) && x in rt.memory
    ensures x in s
  {
    hide Held, PointsTo;
  }

  // ---- the symbols of the packages

  /** The symbols in the tables and export lists of all packages, and their characters. */
  ghost function TableText(rt: Runtime): set<nat> {
    set x <- rt.memory.Keys | InTable(rt, x) || exists s <- rt.memory.Keys :: InTable(rt, s) && rt.memory[s] == Text(Some(x))
  }

  ghost predicate InTable(rt: Runtime, x: nat) {
    exists p <- rt.packages :: x in p.interned || x in p.exported
  }

  lemma TableTextIsMarked(rt: Runtime)
    ensures TableText(rt) <= Marked(rt)
  {
    hide Marked;
    MarkedIsClosed(rt);
    forall s <- rt.memory.Keys | InTable(rt, s) ensures s in Marked(rt) { }
  }

  /**
   The program's part in a run: no symbol of a table is given back, and what has come into a table since the
   last grant, a new symbol and its characters, is in use. held: what the tables held then.
   */
  ghost predicate Steady(a: Arena, held: set<nat>, demands: seq<Demand>)
    decreases |demands|
  {
    demands != [] ==>
      var d := demands[0];
      && (d.Granting? ==> forall x <- TableText(d.rt) - held :: x in a.used)
      && (d.Returning? ==> forall x <- held :: d.p != x + HEADER)
      && (Met(a, d).Some? ==> Steady(Met(a, d).value, if d.Granting? then TableText(d.rt) else held, demands[1..]))
  }

  /** At every grant the symbols of the tables and their characters stay in use, and the address granted is none of them. */
  ghost predicate TablesKept(a: Arena, demands: seq<Demand>)
    decreases |demands|
  {
    demands != [] ==>
      var d := demands[0];
      && (d.Granting? ==>
            var (b, p) := Allocate(a, d.size, Marked(d.rt));
            forall x <- TableText(d.rt) :: x in b.used && SizeAt(b.sizes, x) == SizeAt(a.sizes, x) && (p.Some? ==> p.value != x + HEADER))
      && (Met(a, d).Some? ==> TablesKept(Met(a, d).value, demands[1..]))
  }

  lemma GrantKeepsTables(a: Arena, rt: Runtime, size: nat)
    requires Valid(a) && forall x <- TableText(rt) :: x in a.used
    ensures var (b, p) := Allocate(a, size, Marked(rt));
      && Valid(b)
      && forall x <- TableText(rt) :: x in b.used && SizeAt(b.sizes, x) == SizeAt(a.sizes, x) && (p.Some? ==> p.value != x + HEADER)
  {
    hide Valid, Allocate, Marked, TableText, SizeAt;
    AllocateValid(a, size, Marked(rt));
    TableTextIsMarked(rt);
    var (b, p) := Allocate(a, size, Marked(rt));
    forall x <- TableText(rt)
      ensures x in b.used && SizeAt(b.sizes, x) == SizeAt(a.sizes, x) && (p.Some? ==> p.value != x + HEADER)
    {
      AllocateKeepsUsed(a, size, Marked(rt), x);
    }
  }

  /** Over every run of grants, collections and returns, interned symbols are never freed nor handed out again. */
  lemma {:induction false} SymbolsNeverReused(a: Arena, held: set<nat>, demands: seq<Demand>)
    requires Valid(a) && (forall x <- held :: x in a.used) && Steady(a, held, demands)
    ensures TablesKept(a, demands)
    decreases |demands|
  {
    hide Valid, Allocate, Deallocate, Marked, TableText, SizeAt;
    if demands != [] {
      match demands[0] {
        case Granting(rt, size) =>
          GrantKeepsTables(a, rt, size);
          SymbolsNeverReused(Allocate(a, size, Marked(rt)).0, TableText(rt), demands[1..]);
        case Returning(p, size) =>
          ReturnKeeps(a, p, size, held);
          var b := Deallocate(a, p, size);
          if b.Some? { SymbolsNeverReused(b.value, held, demands[1..]); }
      }
    }
  }

  // ---- interning

  /**
   Interning allocates a symbol and then its characters, and only then enters the symbol in the table. As nothing
   else holds it in between, the symbol is still in use afterwards if and only if the second allocation does not
   collect.
   */
  lemma NewSymbolKeptIff(a: Arena, size: nat, keep: set<nat>, length: nat, keep': set<nat>)
    requires Valid(a)
    ensures var (b, p) := Allocate(a, size, keep);
      var (c, q) := Allocate(b, length, keep');
      p.Some? && q.Some? && p.value >= HEADER && p.value - HEADER !in keep' ==>
        (p.value - HEADER in c.used <==> (b.allocatedBytes + length) % WORD < b.nextGc)
  {
    hide Valid, Allocate, Collect, Take;
    var (b, p) := Allocate(a, size, keep);
    AllocateValid(a, size, keep);
    if p.Some? && p.value >= HEADER && p.value - HEADER !in keep' {
      GrantedIsFirst(a, size, keep);
      SecondCollects(b, length, keep', p.value - HEADER);
    }
  }

  /** The chunk granted is the first of the allocated list. */
  lemma GrantedIsFirst(a: Arena, size: nat, keep: set<nat>)
    requires Allocate(a, size, keep).1.Some?
    ensures var (b, p) := Allocate(a, size, keep);
      p.value >= HEADER && b.used != [] && b.used[0] == p.value - HEADER
  {
    hide SizeAt, Fits;
    var i := FirstFit(a.sizes, a.free, 0, size).value;
    var t := Take(a, i, size);
    FirstGarbageFirst(t.used, keep + {a.free[i]}, 0);
  }

  lemma SecondCollects(b: Arena, length: nat, keep: set<nat>, s: nat)
    requires Valid(b) && b.used != [] && b.used[0] == s && s !in keep
    ensures var (c, q) := Allocate(b, length, keep);
      q.Some? ==> (s in c.used <==> (b.allocatedBytes + length) % WORD < b.nextGc)
  {
    hide Fits, Collect;
    FirstFitFirst(b.sizes, b.free, 0, length);
    var i := FirstFit(b.sizes, b.free, 0, length);
    if i.Some? {
      var t := Take(b, i.value, length);
      UsedOnce(b);
      FreeIsNotUsed(b, i.value);
      assert t.used == [b.free[i.value]] + b.used && t.used[1] == s;
      SecondGoes(t, keep + {b.free[i.value]}, s);
    }
  }

  lemma UsedOnce(b: Arena)
    requires Valid(b) && b.used != []
    ensures b.used[0] !in b.used[1..]
  {
    hide Tiled, Conserved, Counted;
    var s := b.used[0];
    assert b.used == [s] + b.used[1..];
    assert multiset(b.used)[s] == 1 + multiset(b.used[1..])[s];
    assert (multiset(b.free) + multiset(b.used))[s] <= 1;
  }

  lemma FreeIsNotUsed(b: Arena, i: nat)
    requires Valid(b) && i < |b.free|
    ensures b.free[i] !in b.used
  {
    hide Tiled, Conserved, Counted;
    var c := b.free[i];
    assert multiset(b.free)[c] >= 1;
    assert (multiset(b.free) + multiset(b.used))[c] <= 1;
  }

  /** A collection with the first chunk kept and the second not gives back the second. */
  lemma SecondGoes(t: Arena, keep: set<nat>, s: nat)
    requires |t.used| >= 2 && t.used[1] == s && t.used[0] in keep && s !in keep && s != t.used[0] && s !in t.used[2..]
    ensures s !in Collect(t, keep).used
  {
    FirstGarbageFirst(t.used, keep, 0);
    assert FirstGarbage(t.used, keep, 0) == Some(1);
    assert RemoveAt(t.used, 1) == [t.used[0]] + t.used[2..];
  }
}
