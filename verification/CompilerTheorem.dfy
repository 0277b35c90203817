/** The compiler theorem. */
module CompilerTheorem {
  // About interpret(): running the analyzed code of a compilable form gives exactly
  // what the reference evaluator gives, in both directions, for every amount of fuel.

  import opened Forms
  import opened Bytecode
  import opened Machine
  import opened Evaluator
  import opened Runs
  import opened FrameChain
  import opened Simulation
  import opened Correctness

  /** interpret(): analyze, then run from the first instruction. */
  function Interpret(p: Inherent, st: State, f: Form, fuel: nat): Outcome {
    var bytes := EmitForm(f, true, 0);
    if bytes.status == Good then Run(p, bytes.code, 0, st, fuel) else Outcome.Error
  }

  /** A state between two top-level forms: no TAGBODY is active. */
  ghost predicate Idle(g: Globals, st: State) {
    Inv(g, st) && forall t :: !ValidTag(st, t)
  }

  /** A final state: only the variables and the top last-return may differ from st. */
  ghost predicate Finished(g: Globals, st: State, st': State, v: Form, store: Store) {
    && Idle(g, st')
    && Keeps(st, st')
    && st'.forms == st.forms
    && st'.rets[|st'.rets| - 1] == v
    && Vars(st') == store
  }

  /** With at least `enough` fuel, interpreting f ends with o. */
  ghost predicate Settles(p: Inherent, st: State, f: Form, o: Outcome, enough: nat) {
    forall m: nat :: m >= enough ==> Interpret(p, st, f, m) == o
  }

  /** The evaluator's answer is the machine's. */
  lemma {:induction false} InterpretFollowsEval(g: Globals, p: Inherent, st: State, f: Form, fuel: nat)
    requires Idle(g, st) && Compilable(f, false, {}, {})
    ensures match Eval(g, p, f, Vars(st), {}, fuel)
      case Value(v, store) => exists st', enough: nat ::
        Finished(g, st, st', v, store) && Settles(p, st, f, Done(st', v), enough)
      case Transfer(_, _) => false
      case Error => exists enough: nat :: Settles(p, st, f, Outcome.Error, enough)
      case Timeout => forall m: nat :: m <= fuel ==> Interpret(p, st, f, m).OutOfFuel?
  {
    hide Compilable, EmitForm, Eval, Inv, Keeps, StoreOf, Run;
    CompilableEmits(f, false, {}, {}, true, 0);
    var code := EmitForm(f, true, 0).code;
    var st', enough := SimOneArg(g, p, f, {}, st, fuel);
    match Eval(g, p, f, Vars(st), {}, fuel) {
      case Value(v, store) =>
        LiveKept(g, st, st', {});
        assert forall t :: t in {} <==> ValidTag(st', t);
        RunResult(p, code, st, st', v, enough);
        forall m: nat | m >= enough
          ensures Interpret(p, st, f, m) == Done(st', v)
        {
          RunMonotone(p, code, 0, st, enough, m);
        }
        assert Finished(g, st, st', v, store) && Settles(p, st, f, Done(st', v), enough);
      case Transfer(_, _) =>
      case Error =>
        forall m: nat | m >= enough
          ensures Interpret(p, st, f, m) == Outcome.Error
        {
          RunMonotone(p, code, 0, st, enough, m);
        }
        assert Settles(p, st, f, Outcome.Error, enough);
      case Timeout =>
    }
  }

  /** A finished run returns the top last-return. */
  lemma {:induction false} RunResult(p: Inherent, code: seq<Byte>, st: State, st': State, v: Form, fuel: nat)
    requires Run(p, code, 0, st, fuel) == Done(st', v)
    ensures st'.rets != [] && st'.rets[|st'.rets| - 1] == v
  {
    RunResultFrom(p, code, 0, st, st', v, fuel);
  }

  lemma {:induction false} RunResultFrom(p: Inherent, code: seq<Byte>, pc: nat, st: State, st': State, v: Form, fuel: nat)
    requires Run(p, code, pc, st, fuel) == Done(st', v)
    ensures st'.rets != [] && st'.rets[|st'.rets| - 1] == v
    decreases fuel
  {
    hide Step, HandleGo;
    if pc < |code| {
      match Step(p, st, code[pc], fuel - 1) {
        case Next(st1) => RunResultFrom(p, code, pc + 1, st1, st', v, fuel - 1);
        case Jumping(st1, tag) =>
          var d := HandleGo(st1, tag);
          RunResultFrom(p, code, d.index, d.st, st', v, fuel - 1);
        case _ =>
      }
    }
  }

  /**
   The machine's answer is the evaluator's: whatever a run with `fuel` steps reports, evaluation with
   the same fuel reports too. No run of a compilable form breaks the stack discipline or leaks a GO.
   */
  lemma {:induction false} EvalFollowsInterpret(g: Globals, p: Inherent, st: State, f: Form, fuel: nat)
    requires Idle(g, st) && Compilable(f, false, {}, {})
    ensures match Interpret(p, st, f, fuel)
      case Done(st', v) =>
        Eval(g, p, f, Vars(st), {}, fuel) == Value(v, Vars(st')) && Finished(g, st, st', v, Vars(st'))
      case Error => Eval(g, p, f, Vars(st), {}, fuel) == Result.Error
      case GoOut(_, _) => false
      case Stuck => false
      case OutOfFuel => true
  {
    hide Compilable, EmitForm, Eval, Run, Finished, Idle, StoreOf;
    CompilableEmits(f, false, {}, {}, true, 0);
    InterpretFollowsEval(g, p, st, f, fuel);
    var code := EmitForm(f, true, 0).code;
    if !Interpret(p, st, f, fuel).OutOfFuel? {
      match Eval(g, p, f, Vars(st), {}, fuel) {
        case Value(v, store) =>
          var st', enough: nat :| Finished(g, st, st', v, store) && Settles(p, st, f, Done(st', v), enough);
          RunMonotone(p, code, 0, st, fuel, fuel + enough);
          assert Interpret(p, st, f, fuel + enough) == Done(st', v);
          FinishedStore(g, st, st', v, store);
        case Transfer(_, _) =>
        case Error =>
          var enough: nat :| Settles(p, st, f, Outcome.Error, enough);
          RunMonotone(p, code, 0, st, fuel, fuel + enough);
          assert Interpret(p, st, f, fuel + enough) == Outcome.Error;
        case Timeout =>
      }
    }
  }

  lemma FinishedStore(g: Globals, st: State, st': State, v: Form, store: Store)
    requires Finished(g, st, st', v, store)
    ensures Vars(st') == store
  {
  }

  ghost predicate EvalEnds(g: Globals, p: Inherent, f: Form, store: Store, n: nat) {
    !Eval(g, p, f, store, {}, n).Timeout?
  }

  ghost predicate RunEndsBy(p: Inherent, st: State, f: Form, m: nat) {
    !Interpret(p, st, f, m).OutOfFuel?
  }

  /** Evaluation ends for some fuel exactly when the run does. */
  lemma {:induction false} SameTermination(g: Globals, p: Inherent, st: State, f: Form)
    requires Idle(g, st) && Compilable(f, false, {}, {})
    ensures (exists n: nat :: EvalEnds(g, p, f, Vars(st), n)) <==> (exists m: nat :: RunEndsBy(p, st, f, m))
  {
    hide Eval, Interpret, Idle, Compilable, StoreOf;
    forall n: nat | EvalEnds(g, p, f, Vars(st), n)
      ensures exists m: nat :: RunEndsBy(p, st, f, m)
    {
      var m := EnoughToRun(g, p, st, f, n);
      assert RunEndsBy(p, st, f, m);
    }
    forall m: nat | RunEndsBy(p, st, f, m)
      ensures EvalEnds(g, p, f, Vars(st), m)
    {
      InterpretFollowsEval(g, p, st, f, m);
    }
  }

  lemma EnoughToRun(g: Globals, p: Inherent, st: State, f: Form, n: nat) returns (m: nat)
    requires Idle(g, st) && Compilable(f, false, {}, {}) && !Eval(g, p, f, Vars(st), {}, n).Timeout?
    ensures !Interpret(p, st, f, m).OutOfFuel?
  {
    hide Compilable, Eval, Idle, StoreOf, Interpret, Finished;
    InterpretFollowsEval(g, p, st, f, n);
    match Eval(g, p, f, Vars(st), {}, n) {
      case Value(v, store) =>
        var st', enough: nat :| Finished(g, st, st', v, store) && Settles(p, st, f, Done(st', v), enough);
        m := enough;
      case Transfer(_, _) =>
      case Error =>
        var enough: nat :| Settles(p, st, f, Outcome.Error, enough);
        m := enough;
      case Timeout =>
    }
  }
}
