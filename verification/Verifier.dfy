/** A bytecode verifier. */
module Verifier {
  // An abstract run that knows of the form stack only which forms were pushed as
  // constants, and of the frame stack only the tags of each environment. Straight through the code it gives
  // every instruction one shape; a GO must lead to an instruction of the shape it arrives with.

  import opened Forms
  import opened Bytecode
  import opened TagOrders
  import opened Evaluator

  datatype Shape = Shape(forms: seq<Option<Form>>, frames: seq<map<Form, nat>>)

  const FLAT: Shape := Shape([], [])

  function TagsIn(frames: seq<map<Form, nat>>): set<Form> {
    if frames == [] then {} else TagsIn(frames[..|frames| - 1]) + frames[|frames| - 1].Keys
  }

  /** The innermost frame that binds the tag. */
  function Resolve(frames: seq<map<Form, nat>>, tag: Form): Option<nat> {
    if frames == [] then None
    else if tag in frames[|frames| - 1] then Some(|frames| - 1)
    else Resolve(frames[..|frames| - 1], tag)
  }

  /** The top n entries of the form stack, if all are known. */
  function KnownTop(forms: seq<Option<Form>>, n: nat): Option<seq<Form>> {
    if n == 0 then Some([])
    else if forms == [] || forms[|forms| - 1].None? then None
    else
      var below := KnownTop(forms[..|forms| - 1], n - 1);
      if below.None? then None else Some(below.value + [forms[|forms| - 1].value])
  }

  /** A call's arguments must be compilable where the call stands; then it takes down what it put up. */
  predicate CallFits(forms: seq<Option<Form>>, argc: nat, live: set<Form>) {
    var args := KnownTop(forms, argc);
    args.Some? && |forms| >= argc + 1 && AllCompilable(ListOf(args.value), false, {}, live)
  }

  /** One instruction on shapes; None if it would underflow a stack. `live`: the tags bound outside. */
  function Abstract(sh: Shape, b: Byte, live: set<Form>): Option<Shape> {
    var n := |sh.forms|;
    var k := |sh.frames|;
    match b
    case Nop => Some(sh)
    case Push(f) => Some(sh.(forms := sh.forms + [Some(f)]))
    case Pop => if n == 0 then None else Some(sh.(forms := sh.forms[..n - 1]))
    case RetForm => if n == 0 then None else Some(sh.(forms := sh.forms[..n - 1]))
    case BindTag(index) =>
      if n == 0 || k == 0 || sh.forms[n - 1].None? || !GoodTags(sh.frames[k - 1].Keys + {sh.forms[n - 1].value}) then None
      else Some(Shape(sh.forms[..n - 1], sh.frames[k - 1 := sh.frames[k - 1][sh.forms[n - 1].value := index]]))
    case BindValue => if n < 2 then None else Some(sh.(forms := sh.forms[..n - 2] + [None]))
    case PushLexicalEnv => Some(sh.(frames := sh.frames + [map[]]))
    case PopLexicalEnv => if k == 0 then None else Some(sh.(frames := sh.frames[..k - 1]))
    case LookupSymbol => if n == 0 then None else Some(sh.(forms := sh.forms[..n - 1] + [None]))
    case LookupFunction => if n == 0 then None else Some(sh.(forms := sh.forms[..n - 1] + [None]))
    case Funcall(argc) =>
      if CallFits(sh.forms, argc, live + TagsIn(sh.frames)) then Some(sh.(forms := sh.forms[..n - argc - 1] + [None])) else None
    case GoReturn(_) => Some(sh)
  }

  lemma FuncallIs(sh: Shape, argc: nat, live: set<Form>)
    ensures CallFits(sh.forms, argc, live + TagsIn(sh.frames)) ==>
      |sh.forms| >= argc + 1 && Abstract(sh, Funcall(argc), live) == Some(sh.(forms := sh.forms[..|sh.forms| - argc - 1] + [None]))
    ensures Abstract(sh, Funcall(argc), live).Some? ==> CallFits(sh.forms, argc, live + TagsIn(sh.frames))
  {
    hide KnownTop, AllCompilable, TagsIn;
  }

  /** The shape behind a piece of code. */
  function Fold(code: seq<Byte>, sh: Shape, live: set<Form>): Option<Shape>
    decreases |code|
  {
    if code == [] then Some(sh)
    else
      var before := Fold(code[..|code| - 1], sh, live);
      if before.None? then None else Abstract(before.value, code[|code| - 1], live)
  }

  /** The shape in front of instruction pc. */
  function ShapeAt(code: seq<Byte>, pc: nat, live: set<Form>): Option<Shape> {
    if pc <= |code| then Fold(code[..pc], FLAT, live) else None
  }

  /** A GO with shape sh finds its tag in the code with the shape it will then have, or no tag at all. */
  ghost predicate GoFits(code: seq<Byte>, sh: Shape, tag: Form, live: set<Form>) {
    match Resolve(sh.frames, tag)
    case Some(j) => j < |sh.frames| && tag in sh.frames[j]
                    && ShapeAt(code, sh.frames[j][tag], live) == Some(Shape(sh.forms, sh.frames[..j + 1]))
    case None => tag !in live
  }

  ghost predicate GosFit(code: seq<Byte>, from: nat, to: nat, live: set<Form>) {
    forall pc :: from <= pc < to && pc < |code| && code[pc].GoReturn? ==>
      ShapeAt(code, pc, live).Some? && GoFits(code, ShapeAt(code, pc, live).value, code[pc].target, live)
  }

  /** Accepted code: it has a shape everywhere, leaves both stacks as they were, and every GO fits. */
  ghost predicate Verifies(code: seq<Byte>, live: set<Form>) {
    ShapeAt(code, |code|, live) == Some(FLAT) && GosFit(code, 0, |code|, live)
  }

  lemma {:induction false} FoldBoth(a: seq<Byte>, b: seq<Byte>, sh: Shape, live: set<Form>)
    ensures Fold(a + b, sh, live) == match Fold(a, sh, live) case None => None case Some(mid) => Fold(b, mid, live)
    decreases |b|
  {
    if b == [] {
      assert a + b == a;
    } else {
      assert (a + b)[..|a + b| - 1] == a + b[..|b| - 1];
      FoldBoth(a, b[..|b| - 1], sh, live);
    }
  }

  lemma FoldOne(b: Byte, sh: Shape, live: set<Form>)
    ensures Fold([b], sh, live) == Abstract(sh, b, live)
  {
    assert [b][..0] == [];
    assert Fold([], sh, live) == Some(sh);
  }

  /** Every prefix of code that has a shape has one. */
  lemma PrefixHasShape(code: seq<Byte>, pc: nat, live: set<Form>)
    requires pc <= |code| && ShapeAt(code, |code|, live).Some?
    ensures ShapeAt(code, pc, live).Some?
  {
    assert code[..pc] + code[pc..] == code && code[..|code|] == code;
    FoldBoth(code[..pc], code[pc..], FLAT, live);
  }

  lemma ShapeNext(code: seq<Byte>, pc: nat, live: set<Form>)
    requires pc < |code| && ShapeAt(code, pc, live).Some?
    ensures ShapeAt(code, pc + 1, live) == Abstract(ShapeAt(code, pc, live).value, code[pc], live)
  {
    assert code[..pc + 1][..pc] == code[..pc];
  }

  lemma ShapeAfter(code: seq<Byte>, pc: nat, part: seq<Byte>, live: set<Form>)
    requires pc + |part| <= |code| && code[pc..pc + |part|] == part && ShapeAt(code, pc, live).Some?
    ensures ShapeAt(code, pc + |part|, live) == Fold(part, ShapeAt(code, pc, live).value, live)
  {
    hide Fold;
    assert code[..pc + |part|] == code[..pc] + part;
    FoldBoth(code[..pc], part, FLAT, live);
  }

  lemma {:induction false} ResolveFacts(frames: seq<map<Form, nat>>, tag: Form)
    ensures match Resolve(frames, tag)
      case Some(j) => j < |frames| && tag in frames[j] && forall i :: j < i < |frames| ==> tag !in frames[i]
      case None => tag !in TagsIn(frames) && forall i :: 0 <= i < |frames| ==> tag !in frames[i]
  {
    if frames != [] { ResolveFacts(frames[..|frames| - 1], tag); }
  }

  function Known(args: seq<Form>): (known: seq<Option<Form>>)
    ensures |known| == |args|
  {
    if args == [] then [] else Known(args[..|args| - 1]) + [Some(args[|args| - 1])]
  }

  lemma {:induction false} KnownTopIs(forms: seq<Option<Form>>, args: seq<Form>)
    ensures KnownTop(forms + Known(args), |args|) == Some(args)
    decreases |args|
  {
    if args != [] {
      var init := args[..|args| - 1];
      var all := forms + Known(args);
      assert all[..|all| - 1] == forms + Known(init);
      KnownTopIs(forms, init);
      assert args == init + [args[|args| - 1]];
    }
  }
}
