/** The compiler's correctness. */
module Correctness {
  // By induction over forms and restarts, every piece of analyzed code
  // simulates the evaluation of its form.

  import opened Forms
  import opened Bytecode
  import opened TagOrders
  import opened Machine
  import opened Evaluator
  import opened Runs
  import opened FrameChain
  import opened Simulation
  import opened StraightLine
  import opened CallSteps
  import opened Shapes
  import opened LetSteps
  import opened TagbodySteps
  import opened TagTable

  // ---- values: atoms, symbols, calls

  lemma {:induction false} SimValue(g: Globals, p: Inherent, f: Form, live: set<Form>,
                                    code: seq<Byte>, pc: nat, base: nat, st: State, fuel: nat) returns (st': State)
    requires Inv(g, st) && LiveTags(st, live) && CompilableValue(f, live)
    requires CodeAt(code, pc, EmitForm(f, false, base).code)
    ensures Simulates(g, p, code, pc, st, pc + |EmitForm(f, false, base).code|, st', {}, fuel,
                      Eval(g, p, f, Vars(st), live, fuel), OnStack)
    decreases fuel, Size(f), 1
  {
    hide *;
    if f.Cons? {
      st' := SimCall(g, p, f, live, code, pc, base, st, fuel);
    } else if f.Sym? {
      st' := SimSymbol(g, p, f, live, code, pc, base, st, fuel);
    } else {
      st' := SimAtom(g, p, f, live, code, pc, base, st, fuel);
    }
  }

  /** Arguments are evaluated left to right; their values, in order, fill the scratch slot. */
  lemma {:induction false} SimArgs(g: Globals, p: Inherent, rest: Form, live: set<Form>, st: State,
                                   fnIndex: nat, argc: nat, i: nat, done: seq<Form>, fuel: nat)
    returns (st': State, enough: nat)
    requires Inv(g, st) && LiveTags(st, live) && AllCompilable(rest, false, {}, live)
    requires CallStack(st, fnIndex, argc, i, rest, done)
    ensures ArgsSimulated(g, p, st, fnIndex, argc, i, done, st', enough, fuel, EvalArguments(g, p, rest, Vars(st), live, fuel))
    decreases fuel, Size(rest), 3
  {
    hide Eval, EvalArguments, Compilable, Inv, LiveTags, Keeps, StoreOf, Run, EmitForm, EvalArgs, Snoc, ListOf, ArgsSimulated, CallStack;
    st', enough := st, 0;
    if rest.Nil? {
      NoArgs(g, p, rest, live, st, fnIndex, argc, i, done, fuel);
    } else {
      NextArg(st, fnIndex, argc, i, rest, done);
      ArgumentsUnfold(g, p, rest, Vars(st), live, fuel);
      var bytes := EmitForm(rest.car, true, 0);
      var st1, enough1 := SimOneArg(g, p, rest.car, live, st, fuel);
      var r := Eval(g, p, rest.car, Vars(st), live, fuel);
      if r.Value? {
        var st2 := ArgStored(g, live, st, st1, fnIndex, argc, i, rest, done, r.v);
        var enough2;
        st', enough2 := SimArgs(g, p, rest.cdr, live, st2, fnIndex, argc, i + 1, done + [r.v], fuel);
        enough := enough1 + enough2;
        JoinArgs(g, p, st, st1, st2, fnIndex, argc, i, done, r.v, st', enough1, enough2, fuel,
                 EvalArguments(g, p, rest.cdr, r.store, live, fuel), bytes);
      } else {
        enough := enough1;
        BadArg(g, p, st, fnIndex, argc, i, done, st1, st', enough, fuel, bytes, r);
      }
    }
  }

  /** One argument: its form is analyzed on its own and run from the start. */
  lemma {:induction false} SimOneArg(g: Globals, p: Inherent, arg: Form, live: set<Form>, st: State, fuel: nat)
    returns (st': State, enough: nat)
    requires Inv(g, st) && LiveTags(st, live) && Compilable(arg, false, {}, live)
    ensures ArgSimulated(g, p, EmitForm(arg, true, 0), st, st', enough, fuel, Eval(g, p, arg, Vars(st), live, fuel))
    decreases fuel, Size(arg), 3
  {
    hide *;
    CompilableEmits(arg, false, {}, live, true, 0);
    var bytes := EmitForm(arg, true, 0);
    InvOk(g, st);
    WholeCode(bytes.code);
    st' := SimForm(g, p, arg, false, {}, live, bytes.code, 0, 0, st, fuel);
    enough := ArgFuel(g, p, bytes, st, st', fuel, Eval(g, p, arg, Vars(st), live, fuel));
  }

  lemma {:induction false} SimCall(g: Globals, p: Inherent, f: Form, live: set<Form>,
                                   code: seq<Byte>, pc: nat, base: nat, st: State, fuel: nat) returns (st': State)
    requires Inv(g, st) && LiveTags(st, live) && f.Cons? && CompilableValue(f, live)
    requires CodeAt(code, pc, EmitForm(f, false, base).code)
    ensures Simulates(g, p, code, pc, st, pc + |EmitForm(f, false, base).code|, st', {}, fuel,
                      Eval(g, p, f, Vars(st), live, fuel), OnStack)
    decreases fuel, Size(f), 0
  {
    hide *;
    CallCode(f, live, base);
    AllCompilableProper(f.cdr, live);
    CallEval(g, p, f, Vars(st), live, fuel);
    var args := Elements(f.cdr);
    EmitPushesLength(args);
    CallCodeParts(f.car, EmitPushes(args), |args|, code, pc);
    var fn := LookupGlobalFunction(g, f.car.sym);
    FunctionSteps(g, p, f.car, code, pc, st);
    st' := st;
    if fn.None? {
      ErrorMade(g, p, code, pc, st, pc + |EmitForm(f, false, base).code|, st', {}, fuel, OnStack);
    } else {
      CallPrefix(g, p, f.car, fn.value, args, code, pc, st);
      var st3 := st.(forms := st.forms + [Fn(fn.value)] + args);
      FormsFree(g, st, st3.forms);
      LiveKept(g, st, st3, live);
      var st4 := OpenCall(g, live, st3, st.forms, fn.value, f.cdr);
      SizeCdr(f);
      var st5, enough := SimArgs(g, p, f.cdr, live, st4, |st.forms|, |args|, 0, [], fuel);
      ProperValues(g, p, f.cdr, Vars(st), live, fuel);
      st' := CallFinish(g, p, code, pc, st, pc + 2 + |args|, st3, st4, st5, fn.value, f.cdr, enough, fuel,
                        EvalArguments(g, p, f.cdr, Vars(st), live, fuel));
    }
  }

  lemma ProperValues(g: Globals, p: Inherent, args: Form, store: Store, live: set<Form>, fuel: nat)
    ensures var r := EvalArguments(g, p, args, store, live, fuel); r.Values? ==> ProperList(r.list)
  {
    hide *;
    if EvalArguments(g, p, args, store, live, fuel).Values? {
      ValuesAreProper(g, p, args, store, live, fuel);
    }
  }

  lemma EmitPushesLength(args: seq<Form>)
    ensures |EmitPushes(args)| == |args|
  {
  }

  lemma SizeCdr(f: Form)
    requires f.Cons?
    ensures Size(f.car) < Size(f) && Size(f.cdr) < Size(f) && Size(f.car) + Size(f.cdr) < Size(f)
  {
  }

  // ---- forms in value-returning position

  lemma {:induction false} SimForm(g: Globals, p: Inherent, f: Form, nested: bool, tags: set<Form>, live: set<Form>,
                                   code: seq<Byte>, pc: nat, base: nat, st: State, fuel: nat) returns (st': State)
    requires Inv(g, st) && LiveTags(st, live) && Compilable(f, nested, tags, live) && tags <= live
    requires CodeAt(code, pc, EmitForm(f, true, base).code) && (!nested ==> base == pc)
    ensures Simulates(g, p, code, pc, st, pc + |EmitForm(f, true, base).code|, st', tags, fuel,
                      Eval(g, p, f, Vars(st), live, fuel), LastReturn)
    decreases fuel, Size(f), 2
  {
    hide *;
    if IsSpecial(f) {
      st' := SimSpecial(g, p, f, nested, tags, live, code, pc, base, st, fuel);
    } else {
      OrdinaryIsValue(f, nested, tags, live);
      ValueEmits(f, live, base);
      ReturnedCode(f, live, base);
      var value := EmitForm(f, false, base).code;
      CodeAtSplit(code, pc, value, [RetForm]);
      CodeAtIndex(code, pc + |value|, [RetForm], 0);
      var st1 := SimValue(g, p, f, live, code, pc, base, st, fuel);
      st' := ValueReturned(g, p, code, pc, st, pc + |value|, st1, tags, fuel, Eval(g, p, f, Vars(st), live, fuel));
    }
  }

  predicate IsSpecial(f: Form) {
    f.Cons? && f.car.Sym? && SpecialOf(f.car.sym.lexeme) != NotSpecial
  }

  lemma OrdinaryIsValue(f: Form, nested: bool, tags: set<Form>, live: set<Form>)
    requires Compilable(f, nested, tags, live) && !IsSpecial(f)
    ensures CompilableValue(f, live)
  {
    hide AllCompilable;
  }

  lemma {:induction false} SimSpecial(g: Globals, p: Inherent, f: Form, nested: bool, tags: set<Form>, live: set<Form>,
                                      code: seq<Byte>, pc: nat, base: nat, st: State, fuel: nat) returns (st': State)
    requires Inv(g, st) && LiveTags(st, live) && Compilable(f, nested, tags, live) && tags <= live && IsSpecial(f)
    requires CodeAt(code, pc, EmitForm(f, true, base).code) && (!nested ==> base == pc)
    ensures Simulates(g, p, code, pc, st, pc + |EmitForm(f, true, base).code|, st', tags, fuel,
                      Eval(g, p, f, Vars(st), live, fuel), LastReturn)
    decreases fuel, Size(f), 1
  {
    hide Compilable, AllCompilable, CompilableBindings, CompilableStatements, EmitForm, EmitProgn, EmitBindings, Eval,
         EvalSequence, EvalLet, EvalStatements, Inv, LiveTags, CodeAt, Simulates, TagsOf, StoreOf, Size, Repeat, LetCode,
         EmitTagbody;
    var special := SpecialOf(f.car.sym.lexeme);
    var args := f.cdr;
    CompilableParts(f, nested, tags, live);
    SpecialCode(f, base);
    SpecialEval(g, p, f, Vars(st), live, fuel);
    SizeCdr(f);
    match special {
      case Go =>
        SimGo(g, p, args.car, tags, live, code, pc, base, st, fuel);
        st' := st;
      case Quote => st' := SimQuote(g, p, args.car, tags, code, pc, st, fuel);
      case Progn => st' := SimSequence(g, p, args, nested, tags, live, code, pc, base, st, fuel);
      case LetStar =>
        SizeCdr(args);
        LetEmits(args, nested, tags, live, base);
        st' := SimLet(g, p, args.car, args.cdr, nested, tags, live, code, pc, base, st, fuel);
      case Tagbody => st' := SimTagbody(g, p, args, nested, tags, live, code, pc, base, st, fuel);
    }
  }

  lemma LetEmits(args: Form, nested: bool, tags: set<Form>, live: set<Form>, base: nat)
    requires args.Cons? && CompilableBindings(args.car, live) && AllCompilable(args.cdr, nested, tags, live)
    ensures EmitSpecial(LetStar, args, base).code == LetCode(args.car, args.cdr, base)
  {
    hide *;
    BindingsEmit(args.car, live, base);
    SequenceEmits(args.cdr, nested, tags, live, base + |EmitBindings(args.car, base).code|);
    LetStarCode(args, base);
  }

  lemma {:induction false} SimSequence(g: Globals, p: Inherent, forms: Form, nested: bool, tags: set<Form>, live: set<Form>,
                                       code: seq<Byte>, pc: nat, base: nat, st: State, fuel: nat) returns (st': State)
    requires Inv(g, st) && LiveTags(st, live) && tags <= live && forms.Cons? && AllCompilable(forms, nested, tags, live)
    requires CodeAt(code, pc, EmitProgn(forms, base).code) && (!nested ==> base == pc)
    ensures Simulates(g, p, code, pc, st, pc + |EmitProgn(forms, base).code|, st', tags, fuel,
                      EvalSequence(g, p, forms, Vars(st), live, fuel), LastReturn)
    decreases fuel, Size(forms), 3
  {
    hide *;
    AllParts(forms, nested, tags, live);
    CompilableEmits(forms.car, nested, tags, live, true, base);
    SequenceCode(forms, base);
    SequenceEval(g, p, forms, Vars(st), live, fuel);
    SizeCdr(forms);
    var head := EmitForm(forms.car, true, base).code;
    var tail := EmitProgn(forms.cdr, base + |head|).code;
    var end := pc + |head + tail|;
    CodeAtSplit(code, pc, head, tail);
    var st1 := SimForm(g, p, forms.car, nested, tags, live, code, pc, base, st, fuel);
    var r := Eval(g, p, forms.car, Vars(st), live, fuel);
    st' := st1;
    if forms.cdr.Nil? {
      NoForms(base + |head|);
      assert head + [] == head;
    } else if r.Value? {
      ValueParts(g, p, code, pc, st, pc + |head|, st1, tags, fuel, r, LastReturn);
      LiveKept(g, st, st1, live);
      st' := SimSequence(g, p, forms.cdr, nested, tags, live, code, pc + |head|, base + |head|, st1, fuel);
      SimulatesFrom(g, p, code, pc, st, pc + |head|, st1, end, st', tags, fuel,
                    EvalSequence(g, p, forms.cdr, r.store, live, fuel), LastReturn);
    } else {
      NoValueAnywhere(g, p, code, pc, st, pc + |head|, st1, tags, fuel, r, LastReturn, end, tags, LastReturn);
    }
  }

  lemma NoForms(base: nat)
    ensures EmitProgn(Nil, base).code == []
  {
  }

  lemma AllParts(forms: Form, nested: bool, tags: set<Form>, live: set<Form>)
    requires forms.Cons? && AllCompilable(forms, nested, tags, live)
    ensures Compilable(forms.car, nested, tags, live) && AllCompilable(forms.cdr, nested, tags, live)
    ensures forms.cdr.Nil? || forms.cdr.Cons?
  {
    hide Compilable;
  }

  /** The bindings are made one inside the other; each is undone when its body is left. */
  lemma {:induction false} SimLet(g: Globals, p: Inherent, vars: Form, body: Form, nested: bool, tags: set<Form>, live: set<Form>,
                                  code: seq<Byte>, pc: nat, base: nat, st: State, fuel: nat) returns (st': State)
    requires Inv(g, st) && LiveTags(st, live) && tags <= live
    requires CompilableBindings(vars, live) && body.Cons? && AllCompilable(body, nested, tags, live)
    requires CodeAt(code, pc, LetCode(vars, body, base)) && (!nested ==> base == pc)
    ensures Simulates(g, p, code, pc, st, pc + |LetCode(vars, body, base)|, st', tags, fuel,
                      EvalLet(g, p, vars, body, Vars(st), live, fuel), LastReturn)
    decreases fuel, Size(vars) + Size(body), 4
  {
    hide *;
    BindingParts(vars, live);
    LetSizes(vars, body);
    if vars.Nil? {
      LetBodyCode(body, base);
      LetEvalNil(g, p, body, Vars(st), live, fuel);
      st' := SimSequence(g, p, body, nested, tags, live, code, pc, base, st, fuel);
    } else {
      var name := vars.car.car;
      var value := EmitForm(ValueForm(vars.car), false, base + 2).code;
      var rest := LetCode(vars.cdr, body, base + |value| + 4);
      ValueEmits(ValueForm(vars.car), live, base + 2);
      LetCodeCons(vars, body, base);
      LetParts(code, pc, name, value, rest);
      LetEvalCons(g, p, vars, body, Vars(st), live, fuel);
      var end := pc + |value| + 4 + |rest|;
      var st2 := LetEnter(g, p, live, code, pc, st, name);
      var st3 := SimValue(g, p, ValueForm(vars.car), live, code, pc + 2, base + 2, st2, fuel);
      var r := Eval(g, p, ValueForm(vars.car), Vars(st), live, fuel);
      if !r.Value? {
        st' := st3;
        FailureFrom(g, p, code, pc, st, pc + 2, st2, pc + 2 + |value|, st3, fuel, r, OnStack, end + 1, tags, LastReturn);
      } else {
        ValueParts(g, p, code, pc + 2, st2, pc + 2 + |value|, st3, {}, fuel, r, OnStack);
        LetInside(g, st, st2, st3);
        assert st3.forms == st.forms + [name, r.v];
        LeadsCompose(p, code, pc, st, pc + 2, st2, pc + 2 + |value|, st3);
        var st5 := LetBind(g, p, live, code, pc + 2 + |value|, st, st3, name, r.v);
        if !name.Sym? {
          st' := st3;
          AnswersBack(p, code, pc, st, pc + 2 + |value|, st3, Outcome.Error);
          ErrorMade(g, p, code, pc, st, end + 1, st', tags, fuel, LastReturn);
        } else {
          LeadsCompose(p, code, pc, st, pc + 2 + |value|, st3, pc + 4 + |value|, st5);
          var st6 := SimLet(g, p, vars.cdr, body, nested, tags, live, code, pc + 4 + |value|, base + |value| + 4, st5, fuel);
          st' := LetLeave(g, p, code, pc, st, pc + 4 + |value|, st5, end, st6, tags, fuel,
                          EvalLet(g, p, vars.cdr, body, Vars(st5), live, fuel), name.sym, r.v, name.sym !in Vars(st3));
        }
      }
    }
  }

  lemma BindingParts(vars: Form, live: set<Form>)
    requires CompilableBindings(vars, live)
    ensures vars.Nil? || vars.Cons?
    ensures vars.Cons? ==> vars.car.Cons? && (vars.car.cdr.Nil? || vars.car.cdr.Cons?)
    ensures vars.Cons? ==> CompilableValue(ValueForm(vars.car), live) && CompilableBindings(vars.cdr, live)
  {
    hide Compilable;
  }

  lemma LetSizes(vars: Form, body: Form)
    ensures vars.Nil? ==> Size(body) < Size(vars) + Size(body)
    ensures vars.Cons? ==> Size(vars.cdr) < Size(vars)
    ensures vars.Cons? ==> Size(ValueForm(vars.car)) < Size(vars) + Size(body)
  {
  }

  lemma LetParts(code: seq<Byte>, pc: nat, name: Form, value: seq<Byte>, rest: seq<Byte>)
    requires CodeAt(code, pc, [PushLexicalEnv, Push(name)] + value + [BindValue, Pop] + rest + [PopLexicalEnv])
    ensures |[PushLexicalEnv, Push(name)] + value + [BindValue, Pop] + rest + [PopLexicalEnv]| == |value| + |rest| + 5
    ensures pc + |value| + 4 + |rest| < |code|
    ensures code[pc] == PushLexicalEnv && code[pc + 1] == Push(name) && CodeAt(code, pc + 2, value)
    ensures code[pc + 2 + |value|] == BindValue && code[pc + 3 + |value|] == Pop
    ensures CodeAt(code, pc + 4 + |value|, rest) && code[pc + |value| + 4 + |rest|] == PopLexicalEnv
  {
    hide *;
    var enter := [PushLexicalEnv, Push(name)];
    var bind := [BindValue, Pop];
    CodeAtSplit(code, pc, enter + value + bind + rest, [PopLexicalEnv]);
    CodeAtSplit(code, pc, enter + value + bind, rest);
    CodeAtSplit(code, pc, enter + value, bind);
    CodeAtSplit(code, pc, enter, value);
    CodeAtIndex(code, pc, enter, 0);
    CodeAtIndex(code, pc, enter, 1);
    CodeAtIndex(code, pc + |enter + value|, bind, 0);
    CodeAtIndex(code, pc + |enter + value|, bind, 1);
    CodeAtIndex(code, pc + |enter + value + bind + rest|, [PopLexicalEnv], 0);
  }

  /** The value of a binding is evaluated in the new environment, which stays empty meanwhile. */
  lemma LetInside(g: Globals, st: State, st2: State, st3: State)
    requires Inv(g, st) && Inside(st, st2) && Keeps(st2, st3) && Vars(st2) == Vars(st)
    requires st2.envs[|st.envs|].values == map[] && |st.envs| !in st2.tags && Inv(g, st2)
    requires st2.frames[|st.frames|].source == FromBytes
    ensures Inside(st, st3) && st3.envs[|st.envs|].values == map[] && |st.envs| !in st3.tags
    ensures st3.frames[|st.frames|].source == FromBytes
    ensures Vars(st3).Keys == Vars(st).Keys
  {
    hide Inv, StoreOf;
    InsideKeeps(st, st2, st3);
    StillEmpty(st, st2, st3);
    KeysKept(g, st2, st3);
  }

  lemma KeysKept(g: Globals, st: State, st1: State)
    requires Inv(g, st) && Keeps(st, st1)
    ensures Vars(st1).Keys == Vars(st).Keys
  {
    hide GlobalsMatch, Linked, StoreOf, EnvsKept;
    StoreKeysKept(st.envs, st1.envs, st.packages[g.home], g.home, st.frames);
  }

  // ---- TAGBODY

  lemma {:induction false} SimTagbody(g: Globals, p: Inherent, args: Form, nested: bool, tags: set<Form>, live: set<Form>,
                                      code: seq<Byte>, pc: nat, base: nat, st: State, fuel: nat) returns (st': State)
    requires Inv(g, st) && LiveTags(st, live) && tags <= live && args.Cons?
    requires GoodTags(TagsOf(args))
    requires CompilableStatements(args, if nested then tags - TagsOf(args) else TagsOf(args), live + TagsOf(args))
    requires CodeAt(code, pc, EmitSpecial(Tagbody, args, base).code) && (!nested ==> base == pc)
    ensures Simulates(g, p, code, pc, st, pc + |EmitSpecial(Tagbody, args, base).code|, st', tags, fuel,
                      EvalStatements(g, p, args, args, Vars(st), live + TagsOf(args), fuel), LastReturn)
    decreases fuel, Size(args), 4
  {
    hide *;
    var own := TagsOf(args);
    var inner := if nested then tags - own else own;
    StatementsEmit(args, inner, live + own, 0);
    TagbodyCode(args, base);
    var s := EmitStatements(args, 0);
    var tagBytes := EmitTags(s.tags, base + 1 + 2 * |s.tags|);
    TagbodyParts(code, pc, tagBytes, s.code);
    assert |tagBytes| == 2 * |s.tags|;
    var start := pc + 1 + 2 * |s.tags|;
    var st1 := TagbodyEnter(g, p, live, args, nested, code, pc, base, st, s.tags);
    var st2 := SimStatements(g, p, args, args, nested, inner, live + own, code, start, 0, st1, fuel);
    var r := EvalStatements(g, p, args, args, Vars(st), live + own, fuel);
    StatementsNil(g, p, args, args, Vars(st), live + own, fuel);
    st' := TagbodyLeave(g, p, code, pc, st, args, start, nested, start, st1, start + |s.code|, st2, inner - own, fuel, r);
    WiderTags(g, p, code, pc, st, start + |s.code| + 3, st', inner - own, tags, fuel, r, LastReturn);
  }

  lemma WiderTags(g: Globals, p: Inherent, code: seq<Byte>, pc: nat, st: State, end: nat, st': State,
                  tags: set<Form>, tags2: set<Form>, fuel: nat, r: Result, how: Delivery)
    requires Simulates(g, p, code, pc, st, end, st', tags, fuel, r, how) && tags <= tags2
    ensures Simulates(g, p, code, pc, st, end, st', tags2, fuel, r, how)
  {
    hide Inv, Keeps, Leads, LeadsToGo, Answers, Run, StoreOf;
  }

  /** `rest` is a suffix of the TAGBODY's args whose code starts `off` instructions behind `start`. */
  lemma {:induction false} SimStatements(g: Globals, p: Inherent, args: Form, rest: Form, nested: bool, tags: set<Form>, live: set<Form>,
                                         code: seq<Byte>, start: nat, off: nat, st: State, fuel: nat) returns (st': State)
    requires Inv(g, st) && LiveTags(st, live) && tags <= live && TopBinds(st, args, start, nested)
    requires if nested then tags !! TagsOf(args) else tags == TagsOf(args)
    requires CompilableStatements(args, tags, live) && CompilableStatements(rest, tags, live)
    requires CodeAt(code, start, EmitStatements(args, 0).code) && CodeAt(code, start + off, EmitStatements(rest, off).code)
    requires off + |EmitStatements(rest, off).code| == |EmitStatements(args, 0).code|
    ensures Simulates(g, p, code, start + off, st, start + |EmitStatements(args, 0).code|, st', tags - TagsOf(args), fuel,
                      EvalStatements(g, p, args, rest, Vars(st), live, fuel), Nowhere)
    decreases fuel, Size(rest), 3
  {
    hide *;
    var total := start + |EmitStatements(args, 0).code|;
    var outer := tags - TagsOf(args);
    StatementsShape(rest, tags, live);
    st' := st;
    if rest.Nil? {
      StatementsDone(g, p, args, code, start + off, st, total, outer, live, off, fuel);
    } else if !rest.car.Cons? {
      SizeCdr(rest);
      TagCode(rest, off);
      TagEval(g, p, args, rest, Vars(st), live, fuel);
      st' := SimStatements(g, p, args, rest.cdr, nested, tags, live, code, start, off, st, fuel);
    } else {
      SizeCdr(rest);
      CompilableEmits(rest.car, true, tags, live, true, off);
      StatementCode(rest, off);
      StatementsEval(g, p, args, rest, Vars(st), live, fuel);
      var head := EmitForm(rest.car, true, off).code;
      var tail := EmitStatements(rest.cdr, off + |head|).code;
      CodeAtSplit(code, start + off, head, tail);
      assert |head + tail| == |head| + |tail|;
      var st1 := SimForm(g, p, rest.car, true, tags, live, code, start + off, off, st, fuel);
      var r := Eval(g, p, rest.car, Vars(st), live, fuel);
      if r.Value? {
        ValueParts(g, p, code, start + off, st, start + off + |head|, st1, tags, fuel, r, LastReturn);
        LiveKept(g, st, st1, live);
        TopBindsKept(st, st1, args, start, nested);
        st' := SimStatements(g, p, args, rest.cdr, nested, tags, live, code, start, off + |head|, st1, fuel);
        SimulatesFrom(g, p, code, start + off, st, start + off + |head|, st1, total, st', outer, fuel,
                      EvalStatements(g, p, args, rest.cdr, r.store, live, fuel), Nowhere);
      } else if r.Transfer? && r.tag in TagsOf(args) {
        TransferParts(g, p, code, start + off, st, start + off + |head|, st1, tags, fuel, r, LastReturn);
        if fuel == 0 {
          NoFuel(g, p, code, start + off, st, total, st', outer, Nowhere);
        } else {
          StatementsEmit(args, tags, live, 0);
          LiveKept(g, st, st1, live);
          TopBindsKept(st, st1, args, start, nested);
          OwnTagResumes(st1, args, start, r.tag);
          TagTarget(code, start, args, r.tag);
          AfterTagCompilable(args, r.tag, tags, live);
          var at := LastPosition(EmitStatements(args, 0).tags, r.tag).value;
          var behind := AfterTag(args, r.tag);
          st' := SimStatements(g, p, args, behind, nested, tags, live, code, start, at, st1, fuel - 1);
          ResumeFrom(g, p, code, start + off, st, r.tag, start + at, st1, total, st', outer, fuel,
                     EvalStatements(g, p, args, behind, r.store, live, fuel - 1), Nowhere);
        }
      } else {
        st' := st1;
        NoValueAnywhere(g, p, code, start + off, st, start + off + |head|, st1, tags, fuel, r, LastReturn, total, outer, Nowhere);
      }
    }
  }

  lemma StatementsShape(rest: Form, tags: set<Form>, live: set<Form>)
    requires CompilableStatements(rest, tags, live)
    ensures rest.Nil? || rest.Cons?
    ensures rest.Cons? ==> CompilableStatements(rest.cdr, tags, live)
    ensures rest.Cons? && rest.car.Cons? ==> Compilable(rest.car, true, tags, live)
  {
    hide Compilable;
  }

  lemma StatementsDone(g: Globals, p: Inherent, args: Form, code: seq<Byte>, pc: nat, st: State, end: nat, tags: set<Form>,
                       live: set<Form>, off: nat, fuel: nat)
    requires Inv(g, st) && pc + |EmitStatements(Nil, off).code| == end
    ensures Simulates(g, p, code, pc, st, end, st, tags, fuel, EvalStatements(g, p, args, Nil, Vars(st), live, fuel), Nowhere)
  {
    hide Inv, StoreOf, Leads, Keeps;
    LeadsNowhere(p, code, pc, st);
    FormsFree(g, st, st.forms);
  }

  lemma TransferParts(g: Globals, p: Inherent, code: seq<Byte>, pc: nat, st: State, end: nat, st': State,
                      tags: set<Form>, fuel: nat, r: Result, how: Delivery)
    requires Simulates(g, p, code, pc, st, end, st', tags, fuel, r, how) && r.Transfer?
    ensures Inv(g, st') && Keeps(st, st') && Vars(st') == r.store && st'.forms == st.forms && r.tag in tags
    ensures LeadsToGo(p, code, pc, st, r.tag, st')
  {
    hide Inv, Keeps, Leads, LeadsToGo, Answers, Run, StoreOf;
  }

  lemma NoFuel(g: Globals, p: Inherent, code: seq<Byte>, pc: nat, st: State, end: nat, st': State, tags: set<Form>, how: Delivery)
    ensures Simulates(g, p, code, pc, st, end, st', tags, 0, Result.Timeout, how)
  {
    RunZero(p, code, pc, st);
    hide Run;
  }
}
