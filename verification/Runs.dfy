/**
 Facts about runs of the machine: more fuel never changes an answer, a piece of code stands where it was
 placed, and segments of a run compose. Leads says that a run passes through a place, LeadsToGo that it
 executes a GO there, Answers what it answers in the end.
 */
module Runs {
  import opened Forms
  import opened Bytecode
  import opened Machine

  ghost predicate CodeAt(code: seq<Byte>, pc: nat, part: seq<Byte>) {
    pc + |part| <= |code| && code[pc..pc + |part|] == part
  }

  lemma CodeAtSplit(code: seq<Byte>, pc: nat, a: seq<Byte>, b: seq<Byte>)
    requires CodeAt(code, pc, a + b)
    ensures CodeAt(code, pc, a) && CodeAt(code, pc + |a|, b)
  {
    assert (a + b)[..|a|] == a && (a + b)[|a|..] == b;
    assert code[pc..pc + |a|] == code[pc..pc + |a + b|][..|a|];
    assert code[pc + |a|..pc + |a| + |b|] == code[pc..pc + |a + b|][|a|..];
  }

  lemma CodeAtIndex(code: seq<Byte>, pc: nat, part: seq<Byte>, i: nat)
    requires CodeAt(code, pc, part) && i < |part|
    ensures pc + i < |code| && code[pc + i] == part[i]
  {
    assert code[pc..pc + |part|][i] == code[pc + i];
  }

  // ---- more fuel never changes an answer

  lemma {:induction false} RunMonotone(p: Inherent, code: seq<Byte>, pc: nat, st: State, fuel: nat, more: nat)
    requires fuel <= more && !Run(p, code, pc, st, fuel).OutOfFuel?
    ensures Run(p, code, pc, st, more) == Run(p, code, pc, st, fuel)
    decreases fuel, 0, 0
  {
    hide Exec, Call, HandleGo;
    if pc < |code| {
      StepMonotone(p, st, code[pc], fuel - 1, more - 1);
      var r := Step(p, st, code[pc], fuel - 1);
      if r.Next? {
        RunMonotone(p, code, pc + 1, r.st, fuel - 1, more - 1);
      } else if r.Jumping? {
        JumpMonotone(p, code, r.st, r.tag, fuel - 1, more - 1);
      }
    }
  }

  lemma {:induction false} JumpMonotone(p: Inherent, code: seq<Byte>, st: State, tag: Form, fuel: nat, more: nat)
    requires fuel <= more && !Jump(p, code, st, tag, fuel).OutOfFuel?
    ensures Jump(p, code, st, tag, more) == Jump(p, code, st, tag, fuel)
    decreases fuel, 0, 1
  {
    var d := HandleGo(st, tag);
    if d.Resume? {
      RunMonotone(p, code, d.index, d.st, fuel, more);
    }
  }

  lemma {:induction false} StepMonotone(p: Inherent, st: State, b: Byte, fuel: nat, more: nat)
    requires fuel <= more && !Step(p, st, b, fuel).OutOfFuel?
    ensures Step(p, st, b, more) == Step(p, st, b, fuel)
    decreases fuel, 3, 0
  {
    hide Exec, Call;
    if b.Funcall? && |st.forms| >= 1 + b.argCount && st.forms[|st.forms| - 1 - b.argCount].Fn? {
      CallMonotone(p, st, b.argCount, fuel, more);
    }
  }

  lemma {:induction false} CallMonotone(p: Inherent, st: State, argc: nat, fuel: nat, more: nat)
    requires fuel <= more && !Call(p, st, argc, fuel).OutOfFuel?
    ensures Call(p, st, argc, more) == Call(p, st, argc, fuel)
    decreases fuel, 2, 0
  {
    hide EvalArgs, FinishCall;
    if |st.forms| >= 1 + argc && st.frames != [] && st.forms[|st.forms| - 1 - argc].Fn? {
      var called := PushEnv(st, FromFuncall);
      ArgsMonotone(p, called.(forms := called.forms + [Nil]), |st.forms| - 1 - argc, argc, 0, fuel, more);
    }
  }

  lemma {:induction false} ArgsMonotone(p: Inherent, st: State, fnIndex: nat, argc: nat, i: nat, fuel: nat, more: nat)
    requires i <= argc && fuel <= more && !EvalArgs(p, st, fnIndex, argc, i, fuel).OutOfFuel?
    ensures EvalArgs(p, st, fnIndex, argc, i, more) == EvalArgs(p, st, fnIndex, argc, i, fuel)
    decreases fuel, 1, argc - i
  {
    hide Run, EmitForm;
    if i < argc && fnIndex + 1 + i < |st.forms| {
      var bytes := EmitForm(st.forms[fnIndex + 1 + i], true, 0);
      if bytes.status == Good {
        var r := Run(p, bytes.code, 0, st, fuel);
        assert !r.OutOfFuel?;
        RunMonotone(p, bytes.code, 0, st, fuel, more);
        var slot := fnIndex + 1 + argc;
        if r.Done? && slot < |r.st.forms| {
          ArgsMonotone(p, r.st.(forms := r.st.forms[slot := Snoc(r.st.forms[slot], r.value)]),
                       fnIndex, argc, i + 1, fuel, more);
        }
      }
    }
  }

  // ---- run segments

  /** The run at (pc, st) gives the answer o. */
  ghost predicate Answers(p: Inherent, code: seq<Byte>, pc: nat, st: State, o: Outcome)
  {
    !o.OutOfFuel? && exists fuel: nat :: Run(p, code, pc, st, fuel) == o
  }

  /** The run at (pc, st) passes through (pc', st'). */
  ghost predicate Leads(p: Inherent, code: seq<Byte>, pc: nat, st: State, pc': nat, st': State)
  {
    && (forall fuel: nat :: !Run(p, code, pc', st', fuel).OutOfFuel? ==>
          Answers(p, code, pc, st, Run(p, code, pc', st', fuel)))
    && (forall fuel: nat :: Run(p, code, pc', st', fuel).OutOfFuel? ==> Run(p, code, pc, st, fuel).OutOfFuel?)
  }

  /** The run at (pc, st) reaches an executed GO to `tag` in st', spending at least one step. */
  ghost predicate LeadsToGo(p: Inherent, code: seq<Byte>, pc: nat, st: State, tag: Form, st': State)
  {
    && (forall fuel: nat :: !Jump(p, code, st', tag, fuel).OutOfFuel? ==>
          Answers(p, code, pc, st, Jump(p, code, st', tag, fuel)))
    && (forall fuel: nat :: Jump(p, code, st', tag, fuel).OutOfFuel? ==> Run(p, code, pc, st, fuel + 1).OutOfFuel?)
  }

  lemma LeadsCompose(p: Inherent, code: seq<Byte>, pc: nat, st: State, pc1: nat, st1: State, pc2: nat, st2: State)
    requires Leads(p, code, pc, st, pc1, st1) && Leads(p, code, pc1, st1, pc2, st2)
    ensures Leads(p, code, pc, st, pc2, st2)
  {
    hide Run;
    forall fuel: nat | !Run(p, code, pc2, st2, fuel).OutOfFuel?
      ensures Answers(p, code, pc, st, Run(p, code, pc2, st2, fuel))
    {
      AnswersBack(p, code, pc, st, pc1, st1, Run(p, code, pc2, st2, fuel));
    }
  }

  lemma LeadsToGoCompose(p: Inherent, code: seq<Byte>, pc: nat, st: State, pc1: nat, st1: State, tag: Form, st2: State)
    requires Leads(p, code, pc, st, pc1, st1) && LeadsToGo(p, code, pc1, st1, tag, st2)
    ensures LeadsToGo(p, code, pc, st, tag, st2)
  {
    hide Run, Jump;
    forall fuel: nat | !Jump(p, code, st2, tag, fuel).OutOfFuel?
      ensures Answers(p, code, pc, st, Jump(p, code, st2, tag, fuel))
    {
      AnswersBack(p, code, pc, st, pc1, st1, Jump(p, code, st2, tag, fuel));
    }
  }

  lemma AnswersBack(p: Inherent, code: seq<Byte>, pc: nat, st: State, pc1: nat, st1: State, o: Outcome)
    requires Leads(p, code, pc, st, pc1, st1) && Answers(p, code, pc1, st1, o)
    ensures Answers(p, code, pc, st, o)
  {
    hide Run;
    var fuel: nat :| Run(p, code, pc1, st1, fuel) == o;
  }

  lemma LeadsOneStep(p: Inherent, code: seq<Byte>, pc: nat, st: State, st1: State)
    requires pc < |code| && !code[pc].Funcall?
    requires Exec(st, code[pc]) == Next(st1)
    ensures Leads(p, code, pc, st, pc + 1, st1)
  {
    hide Exec, Call, HandleGo, Jump;
    var next := pc + 1;
    forall fuel: nat | !Run(p, code, next, st1, fuel).OutOfFuel?
      ensures Answers(p, code, pc, st, Run(p, code, next, st1, fuel))
    {
      assert Run(p, code, pc, st, fuel + 1) == Run(p, code, pc + 1, st1, fuel);
    }
    forall fuel: nat | Run(p, code, pc + 1, st1, fuel).OutOfFuel?
      ensures Run(p, code, pc, st, fuel).OutOfFuel?
    {
      if fuel > 0 && !Run(p, code, pc + 1, st1, fuel - 1).OutOfFuel? {
        RunMonotone(p, code, pc + 1, st1, fuel - 1, fuel);
      }
    }
  }

  lemma LeadsOneGo(p: Inherent, code: seq<Byte>, pc: nat, st: State, tag: Form)
    requires pc < |code| && code[pc] == GoReturn(tag) && st.frames != [] && ValidTag(st, tag)
    ensures LeadsToGo(p, code, pc, st, tag, st)
  {
    forall fuel: nat
      ensures Run(p, code, pc, st, fuel + 1) == Jump(p, code, st, tag, fuel)
    {
    }
  }

  /** A call that returns normally is one step. */
  lemma LeadsOneCall(p: Inherent, code: seq<Byte>, pc: nat, st: State, argc: nat, st1: State, v: Form, enough: nat)
    requires pc < |code| && code[pc] == Funcall(argc)
    requires |st.forms| >= 1 + argc && st.forms[|st.forms| - 1 - argc].Fn?
    requires Call(p, st, argc, enough) == Done(st1, v)
    ensures Leads(p, code, pc, st, pc + 1, st1.(forms := st1.forms + [v]))
  {
    hide Exec, Call, HandleGo, Jump;
    var st2 := st1.(forms := st1.forms + [v]);
    var next := pc + 1;
    forall fuel: nat | !Run(p, code, next, st2, fuel).OutOfFuel?
      ensures Answers(p, code, pc, st, Run(p, code, next, st2, fuel))
    {
      CallMonotone(p, st, argc, enough, enough + fuel);
      RunMonotone(p, code, pc + 1, st2, fuel, enough + fuel);
      assert Run(p, code, pc, st, enough + fuel + 1) == Run(p, code, pc + 1, st2, fuel);
    }
    forall fuel: nat | Run(p, code, pc + 1, st2, fuel).OutOfFuel?
      ensures Run(p, code, pc, st, fuel).OutOfFuel?
    {
      if fuel > 0 && !Call(p, st, argc, fuel - 1).OutOfFuel? {
        CallMonotone(p, st, argc, fuel - 1, fuel - 1 + enough);
        CallMonotone(p, st, argc, enough, fuel - 1 + enough);
        if !Run(p, code, pc + 1, st2, fuel - 1).OutOfFuel? {
          RunMonotone(p, code, pc + 1, st2, fuel - 1, fuel);
        }
      }
    }
  }

  lemma RunEnds(p: Inherent, code: seq<Byte>, st: State)
    requires st.rets != []
    ensures Answers(p, code, |code|, st, Done(st, st.rets[|st.rets| - 1]))
  {
    
    assert Run(p, code, |code|, st, 1) == Done(st, st.rets[|st.rets| - 1]);
  }

  lemma RunStep(p: Inherent, code: seq<Byte>, pc: nat, st: State, st1: State, fuel: nat)
    requires pc < |code| && fuel > 0 && !code[pc].Funcall? && Exec(st, code[pc]) == Next(st1)
    ensures Run(p, code, pc, st, fuel) == Run(p, code, pc + 1, st1, fuel - 1)
  {
    hide Exec, Call, Jump;
  }
}
