/** Tag bindings are never removed. */
module TagBindings {
  // An environment that once had tags bound keeps its entry in environment_bindings, whatever code runs.

  import opened Forms
  import opened Bytecode
  import opened Machine

  /** The environments with an entry, and each entry's tags, are still there. */
  ghost predicate BindingsGrow(st: State, st': State) {
    st.tags.Keys <= st'.tags.Keys
  }

  lemma ExecGrows(st: State, b: Byte)
    requires !b.Funcall?
    ensures var r := Exec(st, b); r.Next? || r.Jumping? ==> BindingsGrow(st, r.st)
  {
    hide SymbolValue, SymbolFunction, BindValueIn, ValidTag;
  }

  lemma {:induction false} HandleGoKeeps(st: State, tag: Form)
    ensures var d := HandleGo(st, tag); !d.Lost? ==> d.st.tags == st.tags
    decreases |st.frames|
  {
    hide Binds;
    if st.frames != [] && CanPopEnv(st) { HandleGoKeeps(PopEnv(st), tag); }
  }

  /** Whatever the code, at the end of a run no environment has lost its tag bindings. */
  lemma {:induction false} RunGrows(p: Inherent, code: seq<Byte>, pc: nat, st: State, fuel: nat)
    ensures var r := Run(p, code, pc, st, fuel); r.Done? || r.GoOut? ==> BindingsGrow(st, r.st)
    decreases fuel, 0, 0
  {
    hide Step, HandleGo;
    if fuel > 0 && pc < |code| {
      StepGrows(p, st, code[pc], fuel - 1);
      var r := Step(p, st, code[pc], fuel - 1);
      if r.Next? {
        RunGrows(p, code, pc + 1, r.st, fuel - 1);
      } else if r.Jumping? {
        HandleGoKeeps(r.st, r.tag);
        var d := HandleGo(r.st, r.tag);
        if d.Resume? { RunGrows(p, code, d.index, d.st, fuel - 1); }
      }
    }
  }

  lemma {:induction false} StepGrows(p: Inherent, st: State, b: Byte, fuel: nat)
    ensures var r := Step(p, st, b, fuel); r.Next? || r.Jumping? ==> BindingsGrow(st, r.st)
    decreases fuel, 3, 0
  {
    hide Exec, Call;
    if !b.Funcall? {
      ExecGrows(st, b);
    } else {
      CallGrows(p, st, b.argCount, fuel);
    }
  }

  lemma {:induction false} CallGrows(p: Inherent, st: State, argc: nat, fuel: nat)
    ensures var r := Call(p, st, argc, fuel); r.Done? || r.GoOut? ==> BindingsGrow(st, r.st)
    decreases fuel, 2, 0
  {
    hide EvalArgs;
    if |st.forms| >= 1 + argc && st.frames != [] {
      var called := PushEnv(st, FromFuncall);
      ArgsGrow(p, called.(forms := called.forms + [Nil]), |st.forms| - 1 - argc, argc, 0, fuel);
    }
  }

  lemma {:induction false} ArgsGrow(p: Inherent, st: State, fnIndex: nat, argc: nat, i: nat, fuel: nat)
    requires i <= argc
    ensures var r := EvalArgs(p, st, fnIndex, argc, i, fuel); r.ArgsDone? || r.ArgsGo? ==> BindingsGrow(st, r.st)
    decreases fuel, 1, argc - i
  {
    hide Run, EmitForm;
    if i < argc && fnIndex + 1 + i < |st.forms| {
      var bytes := EmitForm(st.forms[fnIndex + 1 + i], true, 0);
      RunGrows(p, bytes.code, 0, st, fuel);
      var r := Run(p, bytes.code, 0, st, fuel);
      var slot := fnIndex + 1 + argc;
      if r.Done? && slot < |r.st.forms| {
        ArgsGrow(p, r.st.(forms := r.st.forms[slot := Snoc(r.st.forms[slot], r.value)]), fnIndex, argc, i + 1, fuel);
      }
    }
  }

  /** The addresses of the environments with an entry, given where environments are. */
  function BoundAt(place: nat -> nat, st: State): set<nat> {
    set id <- st.tags :: place(id)
  }

  /** So the keys of environment_bindings, as addresses, only grow while code runs. */
  lemma RunKeepsBound(p: Inherent, code: seq<Byte>, pc: nat, st: State, fuel: nat, place: nat -> nat)
    ensures var r := Run(p, code, pc, st, fuel); r.Done? || r.GoOut? ==> BoundAt(place, st) <= BoundAt(place, r.st)
  {
    hide Run;
    RunGrows(p, code, pc, st, fuel);
  }
}
