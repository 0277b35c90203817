/** Running verified code. */
module VerifierSound {
  // Whatever path a run takes, at every instruction both stacks have exactly the
  // heights of the instruction's shape above those the run started with, no instruction underflows a stack,
  // and a run that comes to the end has restored both.

  import opened Forms
  import opened Bytecode
  import opened TagOrders
  import opened Machine
  import opened Evaluator
  import opened FrameChain
  import opened Simulation
  import opened MachineInvariants
  import opened Verifier
  import opened VerifierGos
  import opened VerifierStates
  import opened VerifierCalls

  // ---- FUNCALL

  lemma {:induction false} KnownTopOnStack(st0: State, st: State, forms: seq<Option<Form>>, n: nat)
    requires FormsFit(st0, st, forms) && KnownTop(forms, n).Some?
    ensures n <= |forms| && |st.forms| == |st0.forms| + |forms| && st.forms[|st.forms| - n..] == KnownTop(forms, n).value
    decreases n
  {
    if n > 0 {
      var st1 := st.(forms := st.forms[..|st.forms| - 1]);
      DropForms(st0, st, st1, forms, 1);
      KnownTopOnStack(st0, st1, forms[..|forms| - 1], n - 1);
      TopKnown(st0, st, forms);
      assert st.forms[|st.forms| - n..] == st1.forms[|st1.forms| - (n - 1)..] + [st.forms[|st.forms| - 1]];
    }
  }

  lemma {:induction false} ElementsOfList(s: seq<Form>)
    ensures ProperList(ListOf(s)) && Elements(ListOf(s)) == s
  {
    if s != [] { ElementsOfList(s[1..]); }
  }

  /** Nothing a call leaves alone is part of the shape. */
  lemma KeepsFrames(g: Globals, st0: State, st: State, st': State, frames: seq<map<Form, nat>>)
    requires Sound(g, st) && FramesFit(st0, st, frames) && Keeps(st, st')
    ensures FramesFit(st0, st', frames)
  {
    hide Sound, EnvsKept, HoldsTags;
    FrameEnvs(g, st);
    forall i | 0 <= i < |st.frames| ensures TagsAt(st', st.frames[i].env) == TagsAt(st, st.frames[i].env) { }
    forall i | 0 <= i < |st0.frames| ensures TagsAt(st', st0.frames[i].env) == TagsAt(st0, st0.frames[i].env) {
      assert st.frames[..|st0.frames|][i] == st.frames[i];
    }
    forall i: nat | i < |frames| ensures FrameFits(st', |st0.frames| + i, frames[i]) {
      assert FrameFits(st, |st0.frames| + i, frames[i]);
    }
  }

  /** The tags live inside a shape. */
  lemma ShapeLive(g: Globals, st0: State, st: State, sh: Shape, live: set<Form>)
    requires Entered(g, st0, live) && Fits(g, st0, st, sh)
    ensures LiveTags(st, live + TagsIn(sh.frames))
  {
    hide Sound, FormsFit, FramesFit, ValidTag;
    OrderOfSound(g, st);
    forall t ensures t in live + TagsIn(sh.frames) <==> ValidTag(st, t) {
      ValidTagIs(st0, st, sh.frames, t);
      TagsInIs(sh.frames, t);
    }
  }

  lemma {:induction false} TagsInIs(frames: seq<map<Form, nat>>, t: Form)
    ensures t in TagsIn(frames) <==> exists i :: 0 <= i < |frames| && t in frames[i]
  {
    if frames != [] {
      var below := frames[..|frames| - 1];
      TagsInIs(below, t);
      if t in TagsIn(below) {
        var i :| 0 <= i < |below| && t in below[i];
        assert t in frames[i];
      }
      if i :| 0 <= i < |frames| && t in frames[i] {
        if i < |below| { assert t in below[i]; }
      }
    }
  }

  lemma CallStepFits(g: Globals, p: Inherent, st0: State, st: State, sh: Shape, argc: nat, live: set<Form>, fuel: nat)
    requires Entered(g, st0, live) && Fits(g, st0, st, sh) && CallFits(sh.forms, argc, live + TagsIn(sh.frames))
    ensures var r := Step(p, st, Funcall(argc), fuel);
      && (r.Next? || r.Error? || r.OutOfFuel?)
      && (r.Next? ==> Fits(g, st0, r.st, sh.(forms := sh.forms[..|sh.forms| - argc - 1] + [None])))
  {
    hide Sound, FormsFit, FramesFit, KnownTop, AllCompilable, TagsIn, Call, Exec, LiveTags, Inv, Keeps;
    var args := KnownTop(sh.forms, argc).value;
    KnownTopOnStack(st0, st, sh.forms, argc);
    KnownTopLength(sh.forms, argc);
    ShapeLive(g, st0, st, sh, live);
    ElementsOfList(args);
    var n := |st.forms|;
    if st.forms[n - 1 - argc].Fn? {
      var under := st.forms[..n - 1 - argc];
      OnStack(st, argc, args);
      SoundIsInv(g, st);
      CallReplaces(g, p, st, under, st.forms[n - 1 - argc].fn, ListOf(args), live + TagsIn(sh.frames), fuel);
      StepSound(g, p, st, Funcall(argc), fuel);
      var r := Call(p, st, argc, fuel);
      if r.Done? {
        KeepsFrames(g, st0, st, r.st, sh.frames);
        CallForms(st0, st, r.st, r.value, sh.forms, argc);
        SameFramesFit(st0, r.st, r.st.(forms := r.st.forms + [r.value]), sh.frames);
      }
    }
  }

  lemma SoundIsInv(g: Globals, st: State)
    requires Sound(g, st)
    ensures Inv(g, st)
  {
  }

  lemma {:induction false} KnownTopLength(forms: seq<Option<Form>>, n: nat)
    requires KnownTop(forms, n).Some?
    ensures |KnownTop(forms, n).value| == n
    decreases n
  {
    if n > 0 { KnownTopLength(forms[..|forms| - 1], n - 1); }
  }

  lemma OnStack(st: State, argc: nat, args: seq<Form>)
    requires argc < |st.forms| && st.forms[|st.forms| - argc..] == args
    ensures var k := |st.forms| - 1 - argc; st.forms == st.forms[..k] + [st.forms[k]] + args
  {
  }

  lemma CallForms(st0: State, st: State, st': State, v: Form, forms: seq<Option<Form>>, argc: nat)
    requires FormsFit(st0, st, forms) && argc < |forms| && |st.forms| == |st0.forms| + |forms|
    requires st'.forms == st.forms[..|st.forms| - 1 - argc]
    ensures FormsFit(st0, st'.(forms := st'.forms + [v]), forms[..|forms| - argc - 1] + [None])
  {
    DropForms(st0, st, st', forms, argc + 1);
    AddForm(st0, st', st'.(forms := st'.forms + [v]), forms[..|forms| - argc - 1], None, v);
  }

  // ---- every path of a run

  datatype Place = Place(pc: nat, st: State)

  /** Where the loop of interpret_bytes stands after n rounds; None if it has ended before. */
  function After(p: Inherent, code: seq<Byte>, pc: nat, st: State, n: nat, fuel: nat): Option<Place>
    decreases n
  {
    if n == 0 then Some(Place(pc, st))
    else if pc >= |code| then None
    else
      match Step(p, st, code[pc], fuel)
      case Next(st') => After(p, code, pc + 1, st', n - 1, fuel)
      case Jumping(st', tag) =>
        (match HandleGo(st', tag)
         case Resume(st2, index) => After(p, code, index, st2, n - 1, fuel)
         case _ => None)
      case _ => None
  }

  /** The heights of both stacks above the start are those of the instruction's shape. */
  ghost predicate InShape(g: Globals, st0: State, code: seq<Byte>, live: set<Form>, place: Place) {
    && place.pc <= |code|
    && ShapeAt(code, place.pc, live).Some?
    && Fits(g, st0, place.st, ShapeAt(code, place.pc, live).value)
  }

  lemma StepInShape(g: Globals, p: Inherent, st0: State, code: seq<Byte>, live: set<Form>, place: Place, fuel: nat)
    requires Entered(g, st0, live) && Verifies(code, live) && InShape(g, st0, code, live, place) && place.pc < |code|
    ensures var r := Step(p, place.st, code[place.pc], fuel);
      && !r.Stuck?
      && (r.Next? ==> InShape(g, st0, code, live, Place(place.pc + 1, r.st)))
      && (r.Jumping? ==> var d := HandleGo(r.st, r.tag);
            d.Resume? && InShape(g, st0, code, live, Place(d.index, d.st)))
  {
    hide Fits, ShapeAt, GosFit, Entered, HandleGo, CallFits, Exec, TagsIn;
    var b := code[place.pc];
    var sh := ShapeAt(code, place.pc, live).value;
    PrefixHasShape(code, place.pc + 1, live);
    ShapeNext(code, place.pc, live);
    if b.Funcall? {
      FuncallIs(sh, b.argCount, live);
      CallStepFits(g, p, st0, place.st, sh, b.argCount, live, fuel);
    } else if b.GoReturn? {
      GoIsValid(place.st, b.target);
      if ValidTag(place.st, b.target) {
        GoHere(code, place.pc, live);
        GoStep(g, st0, place.st, sh, code, b.target, live);
      }
      EnteredFrames(g, st0, place.st, sh, live);
    } else {
      EnteredFrames(g, st0, place.st, sh, live);
      ExecFits(g, st0, place.st, sh, b, live);
      ExecNoJump(place.st, b);
    }
  }

  lemma EnteredFrames(g: Globals, st0: State, st: State, sh: Shape, live: set<Form>)
    requires Entered(g, st0, live) && Fits(g, st0, st, sh)
    ensures st0.frames != [] && st.frames != []
  {
    hide Sound;
  }

  lemma GoIsValid(st: State, tag: Form)
    ensures st.frames != [] ==> Exec(st, GoReturn(tag)) == if ValidTag(st, tag) then Jumping(st, tag) else StepResult.Error
  {
    hide ValidTag;
  }

  lemma GoHere(code: seq<Byte>, pc: nat, live: set<Form>)
    requires GosFit(code, 0, |code|, live) && pc < |code| && code[pc].GoReturn? && ShapeAt(code, pc, live).Some?
    ensures GoFits(code, ShapeAt(code, pc, live).value, code[pc].target, live)
  {
    hide GoFits, ShapeAt;
  }

  lemma ExecNoJump(st: State, b: Byte)
    requires !b.Funcall? && !b.GoReturn?
    ensures !Exec(st, b).Jumping?
  {
    hide SymbolValue, SymbolFunction, BindValueIn;
  }

  /** Every place a run of verified code reaches has the shape of its instruction. */
  lemma {:induction false} PathInShape(g: Globals, p: Inherent, st0: State, code: seq<Byte>, live: set<Form>, place: Place, n: nat, fuel: nat)
    requires Entered(g, st0, live) && Verifies(code, live) && InShape(g, st0, code, live, place)
    ensures var r := After(p, code, place.pc, place.st, n, fuel); r.Some? ==> InShape(g, st0, code, live, r.value)
    decreases n
  {
    hide Entered, Verifies, InShape, Step, HandleGo;
    if n > 0 && place.pc < |code| {
      StepInShape(g, p, st0, code, live, place, fuel);
      match Step(p, place.st, code[place.pc], fuel) {
        case Next(st') => PathInShape(g, p, st0, code, live, Place(place.pc + 1, st'), n - 1, fuel);
        case Jumping(st', tag) =>
          var d := HandleGo(st', tag);
          PathInShape(g, p, st0, code, live, Place(d.index, d.st), n - 1, fuel);
        case _ =>
      }
    }
  }

  lemma StartInShape(g: Globals, st0: State, code: seq<Byte>, live: set<Form>)
    requires Entered(g, st0, live)
    ensures InShape(g, st0, code, live, Place(0, st0))
  {
    hide Sound;
    assert code[..0] == [];
    assert st0.forms[..|st0.forms|] == st0.forms && st0.frames[..|st0.frames|] == st0.frames;
  }

  /**
   Verified code is safe: along every path from the first instruction, whatever GOs it takes, the form
   stack and the frame stack have the heights the verifier computed for the instruction, the next
   instruction does not underflow them, and at the end both are as they were.
   */
  lemma VerifiedCodeIsSafe(g: Globals, p: Inherent, st0: State, code: seq<Byte>, live: set<Form>, n: nat, fuel: nat)
    requires Entered(g, st0, live) && Verifies(code, live) && After(p, code, 0, st0, n, fuel).Some?
    ensures var place := After(p, code, 0, st0, n, fuel).value;
      && place.pc <= |code| && ShapeAt(code, place.pc, live).Some?
      && var sh := ShapeAt(code, place.pc, live).value;
      && |place.st.forms| == |st0.forms| + |sh.forms|
      && |place.st.frames| == |st0.frames| + |sh.frames|
      && |place.st.rets| == |place.st.frames|
      && (place.pc < |code| ==> !Step(p, place.st, code[place.pc], fuel).Stuck?)
      && (place.pc == |code| ==> place.st.forms == st0.forms && place.st.frames == st0.frames)
  {
    hide Entered, Verifies, Step, After, ShapeAt, Fits;
    StartInShape(g, st0, code, live);
    PathInShape(g, p, st0, code, live, Place(0, st0), n, fuel);
    var place := After(p, code, 0, st0, n, fuel).value;
    var sh := ShapeAt(code, place.pc, live).value;
    FitsHeights(g, st0, place.st, sh);
    if place.pc < |code| {
      StepInShape(g, p, st0, code, live, place, fuel);
    } else {
      EndShape(code, live);
    }
  }

  lemma FitsHeights(g: Globals, st0: State, st: State, sh: Shape)
    requires Fits(g, st0, st, sh)
    ensures |st.forms| == |st0.forms| + |sh.forms| && |st.frames| == |st0.frames| + |sh.frames| && |st.rets| == |st.frames|
    ensures sh == FLAT ==> st.forms == st0.forms && st.frames == st0.frames
  {
    SoundOk(g, st);
    hide Sound;
    assert sh == FLAT ==> st.forms[..|st0.forms|] == st.forms && st.frames[..|st0.frames|] == st.frames;
  }

  lemma EndShape(code: seq<Byte>, live: set<Form>)
    requires Verifies(code, live)
    ensures ShapeAt(code, |code|, live) == Some(FLAT)
  {
    hide ShapeAt, GosFit;
  }

  /**
   The code of every compilable form is safe wherever interpret_bytes is entered with it: at each
   instruction on every path the stacks have the heights the verifier computes, and every GO the run takes
   leads into this code.
   */
  lemma CompiledCodeIsSafe(g: Globals, p: Inherent, st0: State, f: Form, live: set<Form>, n: nat, fuel: nat)
    requires Entered(g, st0, live) && Compilable(f, false, {}, live)
    ensures EmitForm(f, true, 0).status == Good
    ensures var code := EmitForm(f, true, 0).code; var place := After(p, code, 0, st0, n, fuel);
      place.Some? ==>
        && place.value.pc <= |code| && ShapeAt(code, place.value.pc, live).Some?
        && var sh := ShapeAt(code, place.value.pc, live).value;
        && |place.value.st.forms| == |st0.forms| + |sh.forms|
        && |place.value.st.frames| == |st0.frames| + |sh.frames|
        && (place.value.pc < |code| ==> !Step(p, place.value.st, code[place.value.pc], fuel).Stuck?)
        && (place.value.pc == |code| ==> place.value.st.forms == st0.forms && place.value.st.frames == st0.frames)
  {
    hide *;
    CompilableVerifies(f, live);
    var code := EmitForm(f, true, 0).code;
    if After(p, code, 0, st0, n, fuel).Some? {
      VerifiedCodeIsSafe(g, p, st0, code, live, n, fuel);
    }
  }
}
