/** Heap objects as the marker sees them, and which of them are reachable. */
module Objects {
  import opened Forms

  /** A LishpForm in memory: immediate data, or the address of an object. */
  datatype Ref = NilRef | Datum | Pointer(to: nat)

  datatype Object =
    | Pair(first: Ref, rest: Ref)
    | Text(characters: Option<nat>)     // a string or a symbol, and the chunk with its characters
    | Opaque                            // characters, functions, readtables, streams: nothing behind them is followed
    | Environment(parent: Option<nat>, values: seq<(nat, Ref)>, functions: seq<(nat, nat)>)

  type Memory = map<nat, Object>

  function RefTo(r: Ref): seq<nat> {
    if r.Pointer? then [r.to] else []
  }

  function Maybe(p: Option<nat>): seq<nat> {
    match p
    case Some(a) => [a]
    case None => []
  }

  function ValuesIn(values: seq<(nat, Ref)>): seq<nat> {
    if values == [] then []
    else
      var last := values[|values| - 1];
      ValuesIn(values[..|values| - 1]) + ([last.0] + RefTo(last.1))
  }

  function FunctionsIn(functions: seq<(nat, nat)>): seq<nat> {
    if functions == [] then []
    else
      var last := functions[|functions| - 1];
      FunctionsIn(functions[..|functions| - 1]) + [last.0, last.1]
  }

  /** What an object points to, in the order the marker visits it. */
  function Children(o: Object): seq<nat> {
    match o
    case Pair(first, rest) => RefTo(first) + RefTo(rest)
    case Text(characters) => Maybe(characters)
    case Opaque => []
    case Environment(parent, values, functions) => Maybe(parent) + ValuesIn(values) + FunctionsIn(functions)
  }

  /** Everything the marker's callers start from. */
  datatype Interpreter = Interpreter(
    self: nat,
    forms: seq<Ref>,
    lastReturns: seq<Ref>,
    frames: seq<nat>,                       // the frames' environments
    functionEnvironments: seq<(nat, nat)>,
    bindings: seq<(nat, seq<Ref>)>)         // environments with tags, and the tags

  datatype Package = Package(global: nat, readtable: nat, interned: seq<nat>, exported: seq<nat>)

  datatype Runtime = Runtime(
    memory: Memory,
    readtable: Option<nat>,
    interpreter: Option<Interpreter>,
    packages: seq<Package>)

  function RefsIn(refs: seq<Ref>): seq<nat> {
    if refs == [] then [] else RefsIn(refs[..|refs| - 1]) + RefTo(refs[|refs| - 1])
  }

  function BindingsIn(bindings: seq<(nat, seq<Ref>)>): seq<nat> {
    if bindings == [] then []
    else
      var last := bindings[|bindings| - 1];
      BindingsIn(bindings[..|bindings| - 1]) + ([last.0] + RefsIn(last.1))
  }

  function PackageRoots(p: Package): seq<nat> {
    [p.global] + [p.readtable] + p.interned + p.exported
  }

  function PackagesIn(packages: seq<Package>): seq<nat> {
    if packages == [] then []
    else
      var last := packages[|packages| - 1];
      PackagesIn(packages[..|packages| - 1]) + PackageRoots(last)
  }

  function InterpreterRoots(i: Interpreter): seq<nat> {
    [i.self] + RefsIn(i.forms) + RefsIn(i.lastReturns) + i.frames + FunctionsIn(i.functionEnvironments) + BindingsIn(i.bindings)
  }

  function Roots(rt: Runtime): seq<nat> {
    Maybe(rt.readtable)
    + (match rt.interpreter case Some(i) => InterpreterRoots(i) case None => [])
    + PackagesIn(rt.packages)
  }

  ghost predicate Rooted(rt: Runtime, live: set<nat>) {
    && (forall a <- Roots(rt) :: a in live)
    && (rt.interpreter.Some? ==> var self := rt.interpreter.value.self; self in rt.memory && rt.memory[self].Opaque?)
  }

  // ---- reachability

  ghost predicate Path(mem: Memory, p: seq<nat>) {
    && p != []
    && forall i :: 0 <= i < |p| - 1 ==> p[i] in mem && p[i + 1] in Children(mem[p[i]])
  }

  ghost predicate Reaches(mem: Memory, a: nat, x: nat) {
    exists p :: Path(mem, p) && p[0] == a && p[|p| - 1] == x
  }

  ghost predicate ReachedFrom(mem: Memory, roots: seq<nat>, x: nat) {
    exists a <- roots :: Reaches(mem, a, x)
  }

  /** live holds everything reachable from its members, and the rank falls along every pointer. */
  ghost predicate Ranked(mem: Memory, live: set<nat>, rank: map<nat, nat>) {
    forall a <- live ::
      && a in mem && a in rank
      && forall c <- Children(mem[a]) :: c in live && c in rank && rank[c] < rank[a]
  }

  lemma ReachesItself(mem: Memory, a: nat)
    ensures Reaches(mem, a, a)
  {
    assert Path(mem, [a]);
  }

  /** x is reachable from a exactly if it is a or reachable from something a points to. */
  lemma ReachesByChild(mem: Memory, a: nat, x: nat)
    requires a in mem
    ensures Reaches(mem, a, x) <==> x == a || ReachedFrom(mem, Children(mem[a]), x)
  {
    hide Children;
    ReachesItself(mem, a);
    if Reaches(mem, a, x) && x != a {
      var p :| Path(mem, p) && p[0] == a && p[|p| - 1] == x;
      assert Path(mem, p[1..]) && p[1] in Children(mem[a]);
      assert Reaches(mem, p[1], x);
    }
    if ReachedFrom(mem, Children(mem[a]), x) {
      var c :| c in Children(mem[a]) && Reaches(mem, c, x);
      var p :| Path(mem, p) && p[0] == c && p[|p| - 1] == x;
      assert Path(mem, [a] + p);
      assert ([a] + p)[|p|] == x;
    }
  }

  lemma ReachedFromBoth(mem: Memory, s: seq<nat>, t: seq<nat>, x: nat)
    ensures ReachedFrom(mem, s + t, x) <==> ReachedFrom(mem, s, x) || ReachedFrom(mem, t, x)
  {
    if ReachedFrom(mem, s, x) {
      var a :| a in s && Reaches(mem, a, x);
      assert a in s + t;
    }
    if ReachedFrom(mem, t, x) {
      var a :| a in t && Reaches(mem, a, x);
      assert a in s + t;
    }
  }

  lemma {:induction false} PathStays(mem: Memory, live: set<nat>, rank: map<nat, nat>, p: seq<nat>)
    requires Ranked(mem, live, rank) && Path(mem, p) && p[0] in live
    ensures p[|p| - 1] in live
  {
    if |p| > 1 {
      assert Path(mem, p[1..]);
      PathStays(mem, live, rank, p[1..]);
    }
  }

  lemma ReachedStays(mem: Memory, live: set<nat>, rank: map<nat, nat>, roots: seq<nat>, x: nat)
    requires Ranked(mem, live, rank) && ReachedFrom(mem, roots, x) && forall a <- roots :: a in live
    ensures x in live
  {
    var a :| a in roots && Reaches(mem, a, x);
    var p :| Path(mem, p) && p[0] == a && p[|p| - 1] == x;
    PathStays(mem, live, rank, p);
  }

  /** What is reachable from the roots, as a set: the marker's specification. */
  ghost function Reach(mem: Memory, roots: seq<nat>): set<nat> {
    set x <- mem.Keys | ReachedFrom(mem, roots, x)
  }

  lemma ReachOfObject(mem: Memory, a: nat)
    requires a in mem
    ensures Reach(mem, [a]) == {a} + Reach(mem, Children(mem[a]))
  {
    forall x <- mem.Keys ensures x in Reach(mem, [a]) <==> x == a || x in Reach(mem, Children(mem[a])) {
      ReachesByChild(mem, a, x);
      assert ReachedFrom(mem, [a], x) <==> Reaches(mem, a, x) by {
        if Reaches(mem, a, x) { assert a in [a]; }
      }
    }
  }

  lemma ReachOfBoth(mem: Memory, s: seq<nat>, t: seq<nat>)
    ensures Reach(mem, s + t) == Reach(mem, s) + Reach(mem, t)
  {
    forall x <- mem.Keys ensures x in Reach(mem, s + t) <==> x in Reach(mem, s) || x in Reach(mem, t) {
      ReachedFromBoth(mem, s, t, x);
    }
  }

  lemma ReachOfNone(mem: Memory)
    ensures Reach(mem, []) == {}
  {
  }

  lemma RootIsReached(mem: Memory, roots: seq<nat>, a: nat)
    requires a in roots && a in mem
    ensures a in Reach(mem, roots)
  {
    ReachesItself(mem, a);
  }
}
