/**
 The machine steps of symbol lookups and calls: pushing function and arguments, opening the call's frame
 with its scratch slot, storing one argument's value, and closing the frame. Arguments are evaluated by
 the same induction as all other code.
 */
module CallSteps {
  import opened Forms
  import opened Bytecode
  import opened Machine
  import opened Evaluator
  import opened Runs
  import opened FrameChain
  import opened Simulation
  import opened StraightLine

  lemma SimSymbol(g: Globals, p: Inherent, f: Form, live: set<Form>,
                  code: seq<Byte>, pc: nat, base: nat, st: State, fuel: nat) returns (st': State)
    requires Inv(g, st) && f.Sym? && CodeAt(code, pc, EmitForm(f, false, base).code)
    ensures Simulates(g, p, code, pc, st, pc + |EmitForm(f, false, base).code|, st', {}, fuel,
                      Eval(g, p, f, Vars(st), live, fuel), OnStack)
  {
    CodeAtIndex(code, pc, EmitForm(f, false, base).code, 0);
    CodeAtIndex(code, pc, EmitForm(f, false, base).code, 1);
    hide Inv, Leads, CodeAt, Keeps, Answers, StoreOf;
    InvOk(g, st);
    SymbolSteps(g, p, f, code, pc, st);
    var v := LookupVariable(g, Vars(st), f.sym);
    st' := st;
    if v.Some? {
      st' := st.(forms := st.forms + [v.value]);
      FormsFree(g, st, st'.forms);
    }
  }

  lemma SymbolSteps(g: Globals, p: Inherent, f: Form, code: seq<Byte>, pc: nat, st: State)
    requires Inv(g, st) && f.Sym? && pc + 1 < |code| && code[pc] == Push(f) && code[pc + 1] == LookupSymbol
    ensures var v := LookupVariable(g, Vars(st), f.sym);
      if v.None? then Answers(p, code, pc, st, Outcome.Error)
      else Leads(p, code, pc, st, pc + 2, st.(forms := st.forms + [v.value]))
  {
    var st1 := st.(forms := st.forms + [f]);
    FormsFree(g, st, st1.forms);
    LookupVariableMatches(g, st1, f.sym);
    hide Inv, GlobalsMatch, Leads, Linked, StoreOf, Keeps, Answers, SymbolValue;
    InvOk(g, st);
    InvOk(g, st1);
    PushLeads(p, code, pc, st, f);
    var v := LookupVariable(g, Vars(st), f.sym);
    if v.None? {
      ErrorStep(p, code, pc + 1, st1);
      AnswersBack(p, code, pc, st, pc + 1, st1, Outcome.Error);
    } else {
      var st2 := st.(forms := st.forms + [v.value]);
      assert st1.forms[..|st1.forms| - 1] == st.forms;
      LeadsOneStep(p, code, pc + 1, st1, st2);
      LeadsCompose(p, code, pc, st, pc + 1, st1, pc + 2, st2);
    }
  }

  lemma FunctionSteps(g: Globals, p: Inherent, f: Form, code: seq<Byte>, pc: nat, st: State)
    requires Inv(g, st) && f.Sym? && pc + 1 < |code| && code[pc] == Push(f) && code[pc + 1] == LookupFunction
    ensures var fn := LookupGlobalFunction(g, f.sym);
      if fn.None? then Answers(p, code, pc, st, Outcome.Error)
      else Leads(p, code, pc, st, pc + 2, st.(forms := st.forms + [Fn(fn.value)]))
  {
    var st1 := st.(forms := st.forms + [f]);
    FormsFree(g, st, st1.forms);
    LookupFunctionMatches(g, st1, f.sym);
    hide Inv, GlobalsMatch, Leads, Linked, StoreOf, Keeps, Answers, SymbolFunction;
    InvOk(g, st);
    InvOk(g, st1);
    PushLeads(p, code, pc, st, f);
    var fn := LookupGlobalFunction(g, f.sym);
    if fn.None? {
      ErrorStep(p, code, pc + 1, st1);
      AnswersBack(p, code, pc, st, pc + 1, st1, Outcome.Error);
    } else {
      var st2 := st.(forms := st.forms + [Fn(fn.value)]);
      assert st1.forms[..|st1.forms| - 1] == st.forms;
      LeadsOneStep(p, code, pc + 1, st1, st2);
      LeadsCompose(p, code, pc, st, pc + 1, st1, pc + 2, st2);
    }
  }

  lemma {:induction false} ElementsAreList(f: Form)
    requires ProperList(f)
    ensures ListOf(Elements(f)) == f
  {
    if f.Cons? {
      ElementsAreList(f.cdr);
    }
  }

  lemma {:induction false} ValuesAreProper(g: Globals, p: Inherent, args: Form, store: Store, live: set<Form>, fuel: nat)
    requires EvalArguments(g, p, args, store, live, fuel).Values?
    ensures ProperList(EvalArguments(g, p, args, store, live, fuel).list)
    decreases args
  {
    if args.Cons? {
      ValuesAreProper(g, p, args.cdr, Eval(g, p, args.car, store, live, fuel).store, live, fuel);
    }
  }

  lemma CallCodeParts(car: Form, pushes: seq<Byte>, n: nat, code: seq<Byte>, pc: nat)
    requires |pushes| == n
    requires CodeAt(code, pc, [Push(car), LookupFunction] + pushes + [Funcall(n)])
    ensures pc + 2 + n < |code|
    ensures code[pc] == Push(car) && code[pc + 1] == LookupFunction && code[pc + 2 + n] == Funcall(n)
    ensures CodeAt(code, pc + 2, pushes)
  {
    hide *;
    var prefix := [Push(car), LookupFunction];
    CodeAtSplit(code, pc, prefix + pushes, [Funcall(n)]);
    CodeAtIndex(code, pc + |prefix + pushes|, [Funcall(n)], 0);
    CodeAtSplit(code, pc, prefix, pushes);
    CodeAtIndex(code, pc, prefix, 0);
    CodeAtIndex(code, pc, prefix, 1);
  }

  /** PUSH name, LOOKUP-FUNCTION, PUSH arguments: up to the FUNCALL. */
  lemma CallPrefix(g: Globals, p: Inherent, car: Form, fn: nat, args: seq<Form>, code: seq<Byte>, pc: nat, st: State)
    requires Inv(g, st) && car.Sym? && pc + 1 < |code|
    requires code[pc] == Push(car) && code[pc + 1] == LookupFunction && CodeAt(code, pc + 2, EmitPushes(args))
    requires LookupGlobalFunction(g, car.sym) == Some(fn)
    ensures Leads(p, code, pc, st, pc + 2 + |args|, st.(forms := st.forms + [Fn(fn)] + args))
  {
    hide *;
    FunctionSteps(g, p, car, code, pc, st);
    InvOk(g, st);
    var st2 := st.(forms := st.forms + [Fn(fn)]);
    FormsFree(g, st, st2.forms);
    FormsFree(g, st, st2.forms + args);
    InvOk(g, st2);
    InvOk(g, st2.(forms := st2.forms + args));
    PushesLead(p, code, pc + 2, st2, args);
    LeadsCompose(p, code, pc, st, pc + 2, st2, pc + 2 + |args|, st2.(forms := st2.forms + args));
  }

  lemma CallResult(g: Globals, st3: State, st5: State, v: Form, under: seq<Form>)
    requires Inv(g, st3) && Inv(g, st5) && Inside(st3, st5) && st5.rets != []
    requires st5.envs[|st3.envs|].values == map[]
    ensures var st6 := SetLastReturn(st5, v).(forms := under);
      && CanPopEnv(st6)
      && var st7 := PopEnv(st6);
      && Inv(g, st7) && Keeps(st3, st7) && Vars(st7) == Vars(st5) && st7.forms == under
  {
    hide GlobalsMatch, EnvsKept, Inv, Linked, Keeps, Inside, StoreOf;
    var st6 := SetLastReturn(st5, v).(forms := under);
    ReturnFree(g, st5, v, under);
    InsideKeeps(st3, st5, st6);
    PopFacts(g, st3, st6);
    assert Vars(st6) == Vars(PopEnv(st6)) + map[];
  }

  /** Leaving a call: the machine is back in the caller's frame with the caller's variables. */
  lemma CallClose(g: Globals, p: Inherent, st3: State, st5: State, fn: nat, argc: nat, list: Form, under: seq<Form>)
    requires Inv(g, st3) && Inv(g, st5) && Inside(st3, st5)
    requires st5.envs[|st3.envs|].values == map[]
    requires |st3.forms| == |under| + 1 + argc && st3.forms[..|under|] == under
    requires st5.forms == st3.forms + [list]
    ensures var v := p(fn, list);
      var r := FinishCall(p, st5, fn, argc, |st3.forms|);
      if v.None? then r == Outcome.Error
      else r.Done? && r.value == v.value && Inv(g, r.st) && Keeps(st3, r.st) && Vars(r.st) == Vars(st5) && r.st.forms == under
  {
    hide Linked, GlobalsMatch, EnvsKept, StoreOf, Inv, Keeps;
    InvOk(g, st5);
    InvOk(g, st3);
    var v := p(fn, list);
    assert CanPopEnv(st5);
    if v.Some? {
      var st6 := SetLastReturn(st5, v.value).(forms := under);
      assert st5.forms[..|st5.forms| - (argc + 2)] == under;
      CallResult(g, st3, st5, v.value, under);
      assert FinishCall(p, st5, fn, argc, |st3.forms|) == Done(PopEnv(st6), v.value);
    }
  }

  /** On the stack: the function, all argument forms (those from i on are `rest`), the values so far. */
  ghost predicate CallStack(st: State, fnIndex: nat, argc: nat, i: nat, rest: Form, done: seq<Form>) {
    && i + |Elements(rest)| == argc
    && |st.forms| == fnIndex + 1 + argc + 1
    && st.forms[fnIndex + 1 + i..fnIndex + 1 + argc] == Elements(rest)
    && st.forms[fnIndex + 1 + argc] == ListOf(done)
  }

  lemma NextArg(st: State, fnIndex: nat, argc: nat, i: nat, rest: Form, done: seq<Form>)
    requires CallStack(st, fnIndex, argc, i, rest, done) && rest.Cons?
    ensures i < argc && |st.forms| == fnIndex + 1 + argc + 1 && st.forms[fnIndex + 1 + i] == rest.car
    ensures st.forms[fnIndex + 1 + argc] == ListOf(done)
  {
    assert st.forms[fnIndex + 1 + i..fnIndex + 1 + argc][0] == Elements(rest)[0];
  }

  ghost predicate ArgsSimulated(g: Globals, p: Inherent, st: State, fnIndex: nat, argc: nat, i: nat, done: seq<Form>,
                                st': State, enough: nat, fuel: nat, r: ArgsResult)
  {
    i <= argc &&
    match r
    case Values(list, store) =>
      && Inv(g, st') && Keeps(st, st') && Vars(st') == store
      && |st.forms| == fnIndex + 1 + argc + 1
      && st'.forms == st.forms[fnIndex + 1 + argc := ListOf(done + Elements(list))]
      && EvalArgs(p, st, fnIndex, argc, i, enough) == ArgsDone(st')
    case ArgsTransfer(_, _) => false
    case Error => EvalArgs(p, st, fnIndex, argc, i, enough) == ArgsOutcome.Error
    case Timeout => forall m: nat :: m <= fuel ==> EvalArgs(p, st, fnIndex, argc, i, m).OutOfFuel?
  }

  ghost predicate ArgSimulated(g: Globals, p: Inherent, bytes: Emitted, st: State, st': State, enough: nat, fuel: nat, r: Result)
  {
    && bytes.status == Good
    && match r
       case Value(v, store) =>
         && Inv(g, st') && Keeps(st, st') && Vars(st') == store && st'.forms == st.forms
         && Run(p, bytes.code, 0, st, enough) == Done(st', v)
       case Transfer(_, _) => false
       case Error => Run(p, bytes.code, 0, st, enough) == Outcome.Error
       case Timeout => forall m: nat :: m <= fuel ==> Run(p, bytes.code, 0, st, m).OutOfFuel?
  }

  lemma ArgumentsUnfold(g: Globals, p: Inherent, args: Form, store: Store, live: set<Form>, fuel: nat)
    requires args.Cons?
    ensures EvalArguments(g, p, args, store, live, fuel) ==
      var r := Eval(g, p, args.car, store, live, fuel);
      if r.Value? then ConsValue(r.v, EvalArguments(g, p, args.cdr, r.store, live, fuel)) else NoValue(r)
  {
    hide Eval;
  }

  lemma NoArgs(g: Globals, p: Inherent, rest: Form, live: set<Form>, st: State, fnIndex: nat, argc: nat, i: nat, done: seq<Form>, fuel: nat)
    requires Inv(g, st) && rest.Nil? && CallStack(st, fnIndex, argc, i, rest, done)
    ensures ArgsSimulated(g, p, st, fnIndex, argc, i, done, st, 0, fuel, EvalArguments(g, p, rest, Vars(st), live, fuel))
  {
    FormsFree(g, st, st.forms);
    hide Inv, Keeps, StoreOf, ListOf;
    assert done + [] == done;
    assert st.forms[fnIndex + 1 + argc := ListOf(done)] == st.forms;
  }

  /** An argument that fails, or that runs out of fuel, ends the whole evaluation of arguments. */
  lemma ArgsStop(p: Inherent, st: State, fnIndex: nat, argc: nat, i: nat, fuel: nat, bytes: Emitted)
    requires i < argc && |st.forms| == fnIndex + 1 + argc + 1
    requires bytes == EmitForm(st.forms[fnIndex + 1 + i], true, 0) && bytes.status == Good
    ensures Run(p, bytes.code, 0, st, fuel).OutOfFuel? ==> EvalArgs(p, st, fnIndex, argc, i, fuel).OutOfFuel?
    ensures Run(p, bytes.code, 0, st, fuel) == Outcome.Error ==> EvalArgs(p, st, fnIndex, argc, i, fuel) == ArgsOutcome.Error
  {
    hide Run, EmitForm, Snoc;
  }

  lemma BadArg(g: Globals, p: Inherent, st: State, fnIndex: nat, argc: nat, i: nat, done: seq<Form>,
               st1: State, st': State, enough: nat, fuel: nat, bytes: Emitted, r: Result)
    requires i < argc && |st.forms| == fnIndex + 1 + argc + 1
    requires bytes == EmitForm(st.forms[fnIndex + 1 + i], true, 0)
    requires ArgSimulated(g, p, bytes, st, st1, enough, fuel, r) && !r.Value?
    ensures ArgsSimulated(g, p, st, fnIndex, argc, i, done, st', enough, fuel, NoValue(r))
  {
    hide Run, EmitForm, EvalArgs, Inv, Keeps, StoreOf;
    ArgsStop(p, st, fnIndex, argc, i, enough, bytes);
    forall m: nat | m <= fuel && r.Timeout?
      ensures EvalArgs(p, st, fnIndex, argc, i, m).OutOfFuel?
    {
      ArgsStop(p, st, fnIndex, argc, i, m, bytes);
    }
  }

  /** The state in which the next argument is evaluated: the list in the slot has grown by v. */
  lemma ArgStored(g: Globals, live: set<Form>, st: State, st1: State, fnIndex: nat, argc: nat, i: nat, rest: Form, done: seq<Form>, v: Form)
    returns (st2: State)
    requires Inv(g, st) && LiveTags(st, live) && Inv(g, st1) && Keeps(st, st1) && st1.forms == st.forms
    requires CallStack(st, fnIndex, argc, i, rest, done) && rest.Cons?
    ensures |st.forms| == fnIndex + 1 + argc + 1
    ensures st2 == st1.(forms := st.forms[fnIndex + 1 + argc := Snoc(st.forms[fnIndex + 1 + argc], v)])
    ensures Snoc(st.forms[fnIndex + 1 + argc], v) == ListOf(done + [v])
    ensures Inv(g, st2) && LiveTags(st2, live) && Keeps(st, st2) && Vars(st2) == Vars(st1)
    ensures CallStack(st2, fnIndex, argc, i + 1, rest.cdr, done + [v])
  {
    hide Inv, LiveTags, Keeps, StoreOf, Snoc, ListOf;
    var slot := fnIndex + 1 + argc;
    st2 := st1.(forms := st.forms[slot := Snoc(st.forms[slot], v)]);
    SnocListOf(done, v);
    FormsFree(g, st1, st2.forms);
    KeepsTransitive(st, st1, st2);
    LiveKept(g, st, st2, live);
    assert st2.forms[fnIndex + 1 + (i + 1)..slot] == st.forms[fnIndex + 1 + i..slot][1..];
  }

  /** One evaluated argument in front of the rest. */
  lemma ArgsStep(p: Inherent, st: State, st1: State, st2: State, fnIndex: nat, argc: nat, i: nat,
                 v: Form, fuel: nat, bytes: Emitted)
    requires i < argc && |st.forms| == fnIndex + 1 + argc + 1
    requires bytes == EmitForm(st.forms[fnIndex + 1 + i], true, 0) && bytes.status == Good
    requires st1.forms == st.forms
    requires st2 == st1.(forms := st.forms[fnIndex + 1 + argc := Snoc(st.forms[fnIndex + 1 + argc], v)])
    ensures Run(p, bytes.code, 0, st, fuel) == Done(st1, v) ==>
      EvalArgs(p, st, fnIndex, argc, i, fuel) == EvalArgs(p, st2, fnIndex, argc, i + 1, fuel)
  {
    hide Run, EmitForm, Snoc;
  }

  lemma OneArgMore(p: Inherent, st: State, st1: State, st2: State, fnIndex: nat, argc: nat, i: nat,
                   v: Form, enough1: nat, enough2: nat, fuel: nat, bytes: Emitted)
    requires i < argc && |st.forms| == fnIndex + 1 + argc + 1
    requires bytes == EmitForm(st.forms[fnIndex + 1 + i], true, 0) && bytes.status == Good
    requires st1.forms == st.forms
    requires st2 == st1.(forms := st.forms[fnIndex + 1 + argc := Snoc(st.forms[fnIndex + 1 + argc], v)])
    requires Run(p, bytes.code, 0, st, enough1) == Done(st1, v)
    ensures !EvalArgs(p, st2, fnIndex, argc, i + 1, enough2).OutOfFuel? ==>
      EvalArgs(p, st, fnIndex, argc, i, enough1 + enough2) == EvalArgs(p, st2, fnIndex, argc, i + 1, enough2)
    ensures EvalArgs(p, st2, fnIndex, argc, i + 1, fuel).OutOfFuel? ==> EvalArgs(p, st, fnIndex, argc, i, fuel).OutOfFuel?
  {
    hide *;
    RunMonotone(p, bytes.code, 0, st, enough1, enough1 + enough2);
    ArgsStep(p, st, st1, st2, fnIndex, argc, i, v, enough1 + enough2, bytes);
    ArgsStep(p, st, st1, st2, fnIndex, argc, i, v, fuel, bytes);
    ArgsStop(p, st, fnIndex, argc, i, fuel, bytes);
    if !EvalArgs(p, st2, fnIndex, argc, i + 1, enough2).OutOfFuel? {
      ArgsMonotone(p, st2, fnIndex, argc, i + 1, enough2, enough1 + enough2);
    }
    if !Run(p, bytes.code, 0, st, fuel).OutOfFuel? {
      RunMonotone(p, bytes.code, 0, st, fuel, enough1 + fuel);
      RunMonotone(p, bytes.code, 0, st, enough1, enough1 + fuel);
    }
  }

  lemma JoinArgs(g: Globals, p: Inherent, st: State, st1: State, st2: State, fnIndex: nat, argc: nat, i: nat,
                 done: seq<Form>, v: Form, st': State, enough1: nat, enough2: nat, fuel: nat, tail: ArgsResult, bytes: Emitted)
    requires i < argc && |st.forms| == fnIndex + 1 + argc + 1
    requires bytes == EmitForm(st.forms[fnIndex + 1 + i], true, 0) && bytes.status == Good
    requires Run(p, bytes.code, 0, st, enough1) == Done(st1, v)
    requires Keeps(st, st2) && st1.forms == st.forms
    requires Snoc(st.forms[fnIndex + 1 + argc], v) == ListOf(done + [v])
    requires st2 == st1.(forms := st.forms[fnIndex + 1 + argc := Snoc(st.forms[fnIndex + 1 + argc], v)])
    requires ArgsSimulated(g, p, st2, fnIndex, argc, i + 1, done + [v], st', enough2, fuel, tail)
    ensures ArgsSimulated(g, p, st, fnIndex, argc, i, done, st', enough1 + enough2, fuel, ConsValue(v, tail))
  {
    hide Run, Keeps, EvalArgs, Snoc, ListOf, StoreOf, Inv, EmitForm;
    OneArgMore(p, st, st1, st2, fnIndex, argc, i, v, enough1, enough2, fuel, bytes);
    match tail {
      case Values(list, _) =>
        KeepsTransitive(st, st2, st');
        assert done + Elements(Cons(v, list)) == done + [v] + Elements(list);
      case Timeout =>
        forall m: nat | m <= fuel
          ensures EvalArgs(p, st, fnIndex, argc, i, m).OutOfFuel?
        {
          OneArgMore(p, st, st1, st2, fnIndex, argc, i, v, enough1, enough2, m, bytes);
        }
      case _ =>
    }
  }

  lemma WholeCode(code: seq<Byte>)
    ensures CodeAt(code, 0, code)
  {
    assert code[0..0 + |code|] == code;
  }

  lemma FuelOf(p: Inherent, code: seq<Byte>, pc: nat, st: State, o: Outcome) returns (enough: nat)
    requires Answers(p, code, pc, st, o)
    ensures Run(p, code, pc, st, enough) == o
  {
    enough :| Run(p, code, pc, st, enough) == o;
  }

  lemma ArgFuel(g: Globals, p: Inherent, bytes: Emitted, st: State, st': State, fuel: nat, r: Result) returns (enough: nat)
    requires bytes.status == Good
    requires Simulates(g, p, bytes.code, 0, st, |bytes.code|, st', {}, fuel, r, LastReturn)
    ensures ArgSimulated(g, p, bytes, st, st', enough, fuel, r)
  {
    hide Inv, Keeps, StoreOf, Leads, LeadsToGo, Answers, Run;
    enough := 0;
    match r {
      case Value(v, _) =>
        InvOk(g, st');
        RunEnds(p, bytes.code, st');
        AnswersBack(p, bytes.code, 0, st, |bytes.code|, st', Done(st', v));
        enough := FuelOf(p, bytes.code, 0, st, Done(st', v));
      case Transfer(_, _) =>
      case Error => enough := FuelOf(p, bytes.code, 0, st, Outcome.Error);
      case Timeout =>
    }
  }

  /** Entering a call: a fresh frame without variables or tags, and NIL in the scratch slot. */
  lemma OpenCall(g: Globals, live: set<Form>, st3: State, under: seq<Form>, fn: nat, args: Form) returns (st4: State)
    requires Inv(g, st3) && LiveTags(st3, live) && ProperList(args)
    requires st3.forms == under + [Fn(fn)] + Elements(args)
    ensures st3.frames != [] && st4 == PushEnv(st3, FromFuncall).(forms := st3.forms + [Nil])
    ensures Inv(g, st4) && LiveTags(st4, live) && Inside(st3, st4) && Vars(st4) == Vars(st3)
    ensures st4.envs[|st3.envs|].values == map[]
    ensures CallStack(st4, |under|, |Elements(args)|, 0, args, [])
  {
    hide Inv, LiveTags, Keeps, StoreOf, Elements, EnvsKept, ProperList;
    InvOk(g, st3);
    PushFacts(g, st3, FromFuncall);
    var st1 := PushEnv(st3, FromFuncall);
    st4 := st1.(forms := st3.forms + [Nil]);
    FormsFree(g, st1, st4.forms);
    LiveInside(g, st3, st1, live, {});
    assert live + {} == live;
    LiveKept(g, st1, st4, live);
    InsideKeeps(st3, st1, st4);
    assert st4.forms[|under| + 1..|under| + 1 + |Elements(args)|] == Elements(args);
  }

  /** What a call does, given how the evaluation of its arguments ends. */
  lemma CallByArgs(p: Inherent, st3: State, st4: State, under: seq<Form>, fn: nat, argc: nat, fuel: nat)
    requires |st3.forms| == |under| + 1 + argc && st3.frames != [] && st3.forms[|under|] == Fn(fn)
    requires st4 == PushEnv(st3, FromFuncall).(forms := st3.forms + [Nil])
    ensures Call(p, st3, argc, fuel) ==
      match EvalArgs(p, st4, |under|, argc, 0, fuel)
      case ArgsDone(st') => FinishCall(p, st', fn, argc, |st3.forms|)
      case ArgsGo(st', tag) => GoOut(st', tag)
      case Error => Outcome.Error
      case Stuck => Outcome.Stuck
      case OutOfFuel => Outcome.OutOfFuel
  {
    hide EvalArgs, FinishCall;
  }

  lemma CallFails(p: Inherent, code: seq<Byte>, pc: nat, st3: State, argc: nat, enough: nat)
    requires pc < |code| && code[pc] == Funcall(argc) && |st3.forms| >= 1 + argc && st3.forms[|st3.forms| - 1 - argc].Fn?
    requires Call(p, st3, argc, enough) == Outcome.Error
    ensures Answers(p, code, pc, st3, Outcome.Error)
  {
    hide Call, Exec;
    assert Run(p, code, pc, st3, enough + 1) == Outcome.Error;
  }

  lemma CallTimesOut(p: Inherent, code: seq<Byte>, pc: nat, st3: State, argc: nat, fuel: nat)
    requires pc < |code| && code[pc] == Funcall(argc) && |st3.forms| >= 1 + argc && st3.forms[|st3.forms| - 1 - argc].Fn?
    requires forall m: nat :: m <= fuel ==> Call(p, st3, argc, m).OutOfFuel?
    ensures forall m: nat :: m <= fuel ==> Run(p, code, pc, st3, m).OutOfFuel?
  {
    hide Call, Exec;
    forall m: nat | m <= fuel
      ensures Run(p, code, pc, st3, m).OutOfFuel?
    {
      if m > 0 {
        assert Call(p, st3, argc, m - 1).OutOfFuel?;
      }
    }
  }

  /** The FUNCALL instruction, given the evaluation of the arguments. */
  lemma CallFinish(g: Globals, p: Inherent, code: seq<Byte>, pc: nat, st: State, pc2: nat, st3: State, st4: State, st5: State,
                   fn: nat, args: Form, enough: nat, fuel: nat, r: ArgsResult) returns (st': State)
    requires Inv(g, st) && Inv(g, st3) && st3 == st.(forms := st.forms + [Fn(fn)] + Elements(args))
    requires Leads(p, code, pc, st, pc2, st3) && pc2 < |code| && code[pc2] == Funcall(|Elements(args)|)
    requires st3.frames != [] && st4 == PushEnv(st3, FromFuncall).(forms := st3.forms + [Nil])
    requires Inside(st3, st4) && st4.envs[|st3.envs|].values == map[]
    requires ArgsSimulated(g, p, st4, |st.forms|, |Elements(args)|, 0, [], st5, enough, fuel, r)
    requires r.Values? ==> ProperList(r.list)
    ensures Simulates(g, p, code, pc, st, pc2 + 1, st', {}, fuel, Apply(p, fn, r), OnStack)
  {
    hide Inv, Leads, Elements, ProperList, Keeps, Inside, EvalArgs, Call, FinishCall, StoreOf, Answers, Run, Simulates, EnvsKept, ListOf;
    var argc := |Elements(args)|;
    st' := st;
    CallByArgs(p, st3, st4, st.forms, fn, argc, enough);
    match r {
      case Values(list, store) =>
        assert [] + Elements(list) == Elements(list);
        ElementsAreList(list);
        assert st5.forms == st3.forms + [list];
        InsideKeeps(st3, st4, st5);
        StillEmpty(st3, st4, st5);
        assert st3.forms[..|st.forms|] == st.forms;
        CallClose(g, p, st3, st5, fn, argc, list, st.forms);
        var v := p(fn, list);
        if v.None? {
          CallFails(p, code, pc2, st3, argc, enough);
          AnswersBack(p, code, pc, st, pc2, st3, Outcome.Error);
          ErrorMade(g, p, code, pc, st, pc2 + 1, st', {}, fuel, OnStack);
        } else {
          var st6 := Call(p, st3, argc, enough).st;
          st' := st6.(forms := st6.forms + [v.value]);
          LeadsOneCall(p, code, pc2, st3, argc, st6, v.value, enough);
          LeadsCompose(p, code, pc, st, pc2, st3, pc2 + 1, st');
          FormsFree(g, st, st3.forms);
          FormsFree(g, st6, st'.forms);
          KeepsTransitive(st, st3, st6);
          KeepsTransitive(st, st6, st');
          ValueMade(g, p, code, pc, st, pc2 + 1, st', {}, fuel, Apply(p, fn, r), OnStack);
        }
      case ArgsTransfer(_, _) =>
      case Error =>
        CallFails(p, code, pc2, st3, argc, enough);
        AnswersBack(p, code, pc, st, pc2, st3, Outcome.Error);
        ErrorMade(g, p, code, pc, st, pc2 + 1, st', {}, fuel, OnStack);
      case Timeout =>
        forall m: nat | m <= fuel
          ensures Call(p, st3, argc, m).OutOfFuel?
        {
          CallByArgs(p, st3, st4, st.forms, fn, argc, m);
        }
        CallTimesOut(p, code, pc2, st3, argc, fuel);
        TimeoutBack(p, code, pc, st, pc2, st3, fuel);
        TimeoutMade(g, p, code, pc, st, pc2 + 1, st', {}, fuel, OnStack);
    }
  }

  lemma TimeoutMade(g: Globals, p: Inherent, code: seq<Byte>, pc: nat, st: State, end: nat, st': State,
                    tags: set<Form>, fuel: nat, how: Delivery)
    requires forall m: nat :: m <= fuel ==> Run(p, code, pc, st, m).OutOfFuel?
    ensures Simulates(g, p, code, pc, st, end, st', tags, fuel, Result.Timeout, how)
  {
    hide Run;
  }

  lemma StillEmpty(st3: State, st4: State, st5: State)
    requires Inside(st3, st4) && Keeps(st4, st5) && st4.envs[|st3.envs|].values == map[]
    ensures |st3.envs| < |st5.envs| && st5.envs[|st3.envs|].values == map[]
  {
    assert st5.envs[|st3.envs|].values.Keys == {};
  }
}
