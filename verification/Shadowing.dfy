/** LET* that shadows. */
module Shadowing {
  // LET* as section 5.3 of the Common Lisp HyperSpec has it: every binding is new, and what it shadowed is
  // back when it is left. The runtime's LET* instead assigns a variable that is already bound.

  import opened Forms
  import opened Machine
  import opened Evaluator
  import opened FrameChain
  import opened Simulation
  import opened CompilerTheorem

  /** Leaving a binding of s: the variable it shadowed, if any, has its old value again. */
  function Restore(r: Result, s: Symbol, outer: Store): Result {
    match r
    case Value(v, store) => Value(v, if s in outer then store[s := outer[s]] else store - {s})
    case Transfer(tag, store) => Transfer(tag, if s in outer then store[s := outer[s]] else store - {s})
    case _ => r
  }

  function ShadowEval(g: Globals, p: Inherent, f: Form, store: Store, live: set<Form>, fuel: nat): Result
    decreases fuel, Size(f), 2
  {
    match f
    case Sym(s) =>
      var v := LookupVariable(g, store, s);
      if v.None? then Result.Error else Value(v.value, store)
    case Cons(Sym(s), args) =>
      (match SpecialOf(s.lexeme)
       case Go => if args.Cons? && args.car in live then Transfer(args.car, store) else Result.Error
       case Quote => if args.Cons? then Value(args.car, store) else Result.Error
       case Progn => ShadowSequence(g, p, args, store, live, fuel)
       case LetStar =>
         if args.Cons? then assert Size(f) > Size(args); ShadowLet(g, p, args.car, args.cdr, store, live, fuel) else Result.Error
       case Tagbody => ShadowStatements(g, p, args, args, store, live + TagsOf(args), fuel)
       case NotSpecial =>
         var fn := LookupGlobalFunction(g, s);
         if fn.None? then Result.Error else Apply(p, fn.value, ShadowArguments(g, p, args, store, live, fuel)))
    case Cons(_, _) => Result.Error
    case _ => Value(f, store)
  }

  function ShadowSequence(g: Globals, p: Inherent, forms: Form, store: Store, live: set<Form>, fuel: nat): Result
    decreases fuel, Size(forms), 3
  {
    match forms
    case Nil => Value(Nil, store)
    case Cons(form, rest) =>
      var r := ShadowEval(g, p, form, store, live, fuel);
      if r.Value? && !rest.Nil? then ShadowSequence(g, p, rest, r.store, live, fuel) else r
    case _ => Result.Error
  }

  function ShadowLet(g: Globals, p: Inherent, vars: Form, body: Form, store: Store, live: set<Form>, fuel: nat): Result
    decreases fuel, Size(vars) + Size(body), 4
  {
    match vars
    case Nil => ShadowSequence(g, p, body, store, live, fuel)
    case Cons(binding, rest) =>
      assert binding.Cons? ==> Size(vars) > Size(binding.cdr);
      var r := ShadowEval(g, p, ValueForm(binding), store, live, fuel);
      if !r.Value? then r
      else if !binding.Cons? || !binding.car.Sym? then Result.Error
      else
        var s := binding.car.sym;
        Restore(ShadowLet(g, p, rest, body, r.store[s := r.v], live, fuel), s, r.store)
    case _ => Result.Error
  }

  function ShadowStatements(g: Globals, p: Inherent, args: Form, rest: Form, store: Store, live: set<Form>, fuel: nat): Result
    decreases fuel, Size(rest), 3
  {
    match rest
    case Nil => Value(Nil, store)
    case Cons(statement, tail) =>
      if !statement.Cons? then ShadowStatements(g, p, args, tail, store, live, fuel)
      else
        var r := ShadowEval(g, p, statement, store, live, fuel);
        if r.Value? then ShadowStatements(g, p, args, tail, r.store, live, fuel)
        else if r.Transfer? && r.tag in TagsOf(args) then
          if fuel == 0 then Result.Timeout
          else ShadowStatements(g, p, args, AfterTag(args, r.tag), r.store, live, fuel - 1)
        else r
    case _ => Result.Error
  }

  function ShadowArguments(g: Globals, p: Inherent, args: Form, store: Store, live: set<Form>, fuel: nat): ArgsResult
    decreases fuel, Size(args), 3
  {
    match args
    case Nil => Values(Nil, store)
    case Cons(arg, rest) =>
      var r := ShadowEval(g, p, arg, store, live, fuel);
      if r.Value? then ConsValue(r.v, ShadowArguments(g, p, rest, r.store, live, fuel)) else NoValue(r)
    case _ => ArgsResult.Error
  }

  // ---- programs whose LET*s bind new names only

  /** No LET* in f binds a name that is bound around it. */
  predicate NewNames(f: Form, bound: set<Symbol>)
    decreases Size(f), 2
  {
    f.Cons? && f.car.Sym? ==>
      match SpecialOf(f.car.sym.lexeme)
      case LetStar => f.cdr.Cons? ==> assert Size(f) > Size(f.cdr); NewInLet(f.cdr.car, f.cdr.cdr, bound)
      case Go => true
      case Quote => true
      case _ => AllNew(f.cdr, bound)
  }

  predicate AllNew(forms: Form, bound: set<Symbol>)
    decreases Size(forms), 3
  {
    forms.Cons? ==> NewNames(forms.car, bound) && AllNew(forms.cdr, bound)
  }

  predicate NewInLet(vars: Form, body: Form, bound: set<Symbol>)
    decreases Size(vars) + Size(body), 4
  {
    if vars.Nil? then AllNew(body, bound)
    else if !vars.Cons? then true
    else
      assert vars.car.Cons? ==> Size(vars) > Size(vars.car.cdr);
      && NewNames(ValueForm(vars.car), bound)
      && (vars.car.Cons? && vars.car.car.Sym? ==>
            vars.car.car.sym !in bound && NewInLet(vars.cdr, body, bound + {vars.car.car.sym}))
  }

  lemma {:induction false} NewAfterTag(args: Form, tag: Form, bound: set<Symbol>)
    requires AllNew(args, bound)
    ensures AllNew(AfterTag(args, tag), bound)
  {
    if args.Cons? { NewAfterTag(args.cdr, tag, bound); }
  }

  /** LET*s leave as many variables as they found. */
  ghost predicate KeysKept(r: Result, keys: set<Symbol>) {
    r.Value? || r.Transfer? ==> r.store.Keys == keys
  }

  lemma {:induction false} SameEval(g: Globals, p: Inherent, f: Form, store: Store, live: set<Form>, fuel: nat)
    requires NewNames(f, store.Keys)
    ensures ShadowEval(g, p, f, store, live, fuel) == Eval(g, p, f, store, live, fuel)
    ensures KeysKept(Eval(g, p, f, store, live, fuel), store.Keys)
    decreases fuel, Size(f), 2
  {
    hide EvalSequence, EvalLet, EvalStatements, EvalArguments, LookupVariable, LookupGlobalFunction, TagsOf, AllNew, NewInLet;
    hide ShadowSequence, ShadowLet, ShadowStatements, ShadowArguments;
    if f.Cons? && f.car.Sym? {
      match SpecialOf(f.car.sym.lexeme) {
        case Progn => SameSequence(g, p, f.cdr, store, live, fuel);
        case LetStar =>
          if f.cdr.Cons? {
            assert Size(f) > Size(f.cdr);
            SameLet(g, p, f.cdr.car, f.cdr.cdr, store, live, fuel);
          }
        case Tagbody => SameStatements(g, p, f.cdr, f.cdr, store, live + TagsOf(f.cdr), fuel);
        case NotSpecial => SameArguments(g, p, f.cdr, store, live, fuel);
        case _ =>
      }
    }
  }

  lemma {:induction false} SameSequence(g: Globals, p: Inherent, forms: Form, store: Store, live: set<Form>, fuel: nat)
    requires AllNew(forms, store.Keys)
    ensures ShadowSequence(g, p, forms, store, live, fuel) == EvalSequence(g, p, forms, store, live, fuel)
    ensures KeysKept(EvalSequence(g, p, forms, store, live, fuel), store.Keys)
    decreases fuel, Size(forms), 3
  {
    hide Eval, ShadowEval, NewNames;
    if forms.Cons? {
      SameEval(g, p, forms.car, store, live, fuel);
      var r := Eval(g, p, forms.car, store, live, fuel);
      if r.Value? && !forms.cdr.Nil? { SameSequence(g, p, forms.cdr, r.store, live, fuel); }
    }
  }

  lemma {:induction false} SameLet(g: Globals, p: Inherent, vars: Form, body: Form, store: Store, live: set<Form>, fuel: nat)
    requires NewInLet(vars, body, store.Keys)
    ensures ShadowLet(g, p, vars, body, store, live, fuel) == EvalLet(g, p, vars, body, store, live, fuel)
    ensures KeysKept(EvalLet(g, p, vars, body, store, live, fuel), store.Keys)
    decreases fuel, Size(vars) + Size(body), 4
  {
    hide Eval, ShadowEval, NewNames, EvalSequence, ShadowSequence, AllNew;
    if vars.Nil? {
      SameSequence(g, p, body, store, live, fuel);
    } else if vars.Cons? {
      var binding := vars.car;
      assert binding.Cons? ==> Size(vars) > Size(binding.cdr);
      SameEval(g, p, ValueForm(binding), store, live, fuel);
      var r := Eval(g, p, ValueForm(binding), store, live, fuel);
      if r.Value? && binding.Cons? && binding.car.Sym? {
        var s := binding.car.sym;
        var inner := r.store[s := r.v];
        assert inner.Keys == store.Keys + {s};
        SameLet(g, p, vars.cdr, body, inner, live, fuel);
        LeavingNew(EvalLet(g, p, vars.cdr, body, inner, live, fuel), s, r.store);
      }
    }
  }

  lemma LeavingNew(r: Result, s: Symbol, outer: Store)
    requires s !in outer && KeysKept(r, outer.Keys + {s})
    ensures Restore(r, s, outer) == Leave(r, s) && KeysKept(Leave(r, s), outer.Keys)
  {
  }

  lemma {:induction false} SameStatements(g: Globals, p: Inherent, args: Form, rest: Form, store: Store, live: set<Form>, fuel: nat)
    requires AllNew(args, store.Keys) && AllNew(rest, store.Keys)
    ensures ShadowStatements(g, p, args, rest, store, live, fuel) == EvalStatements(g, p, args, rest, store, live, fuel)
    ensures KeysKept(EvalStatements(g, p, args, rest, store, live, fuel), store.Keys)
    decreases fuel, Size(rest), 3
  {
    hide Eval, ShadowEval, NewNames, TagsOf, AfterTag;
    if rest.Cons? {
      if !rest.car.Cons? {
        SameStatements(g, p, args, rest.cdr, store, live, fuel);
      } else {
        SameEval(g, p, rest.car, store, live, fuel);
        var r := Eval(g, p, rest.car, store, live, fuel);
        if r.Value? {
          SameStatements(g, p, args, rest.cdr, r.store, live, fuel);
        } else if r.Transfer? && r.tag in TagsOf(args) && fuel > 0 {
          NewAfterTag(args, r.tag, store.Keys);
          SameStatements(g, p, args, AfterTag(args, r.tag), r.store, live, fuel - 1);
        }
      }
    }
  }

  lemma {:induction false} SameArguments(g: Globals, p: Inherent, args: Form, store: Store, live: set<Form>, fuel: nat)
    requires AllNew(args, store.Keys)
    ensures ShadowArguments(g, p, args, store, live, fuel) == EvalArguments(g, p, args, store, live, fuel)
    ensures var r := EvalArguments(g, p, args, store, live, fuel); r.Values? || r.ArgsTransfer? ==> r.store.Keys == store.Keys
    decreases fuel, Size(args), 3
  {
    hide Eval, ShadowEval, NewNames;
    if args.Cons? {
      SameEval(g, p, args.car, store, live, fuel);
      var r := Eval(g, p, args.car, store, live, fuel);
      if r.Value? { SameArguments(g, p, args.cdr, r.store, live, fuel); }
    }
  }

  /**
   A LET* around a constant that binds one name to a constant: the two semantics agree exactly when the name
   is new or already has that value. Otherwise the outer variable is left with the inner value.
   */
  lemma RebindingShows(g: Globals, p: Inherent, s: Symbol, a: Form, b: Form, store: Store, live: set<Form>, fuel: nat)
    requires !a.Cons? && !a.Sym? && !b.Cons? && !b.Sym?
    ensures var vars := Cons(Cons(Sym(s), Cons(a, Nil)), Nil); var body := Cons(b, Nil);
      && ShadowLet(g, p, vars, body, store, live, fuel) == Value(b, store)
      && EvalLet(g, p, vars, body, store, live, fuel) == Value(b, if s in store then store[s := a] else store)
      && (EvalLet(g, p, vars, body, store, live, fuel) == ShadowLet(g, p, vars, body, store, live, fuel)
          <==> s !in store || store[s] == a)
  {
    var vars := Cons(Cons(Sym(s), Cons(a, Nil)), Nil);
    var body := Cons(b, Nil);
    var inner := store[s := a];
    assert EvalSequence(g, p, body, inner, live, fuel) == Value(b, inner);
    assert ShadowSequence(g, p, body, inner, live, fuel) == Value(b, inner);
    assert EvalLet(g, p, Nil, body, inner, live, fuel) == Value(b, inner);
    assert ShadowLet(g, p, Nil, body, inner, live, fuel) == Value(b, inner);
    assert s in store ==> inner[s := store[s]] == store;
    assert s !in store ==> inner - {s} == store;
    assert ValueForm(vars.car) == a;
  }

  /**
   The machine implements shadowing LET* for every compilable program whose LET*s bind new names only,
   also when a GO enters a LET* again.
   */
  lemma InterpretShadows(g: Globals, p: Inherent, st: State, f: Form, fuel: nat)
    requires Idle(g, st) && Compilable(f, false, {}, {}) && NewNames(f, Vars(st).Keys)
    ensures match Interpret(p, st, f, fuel)
      case Done(st', v) => ShadowEval(g, p, f, Vars(st), {}, fuel) == Value(v, Vars(st')) && Vars(st').Keys == Vars(st).Keys
      case Error => ShadowEval(g, p, f, Vars(st), {}, fuel) == Result.Error
      case GoOut(_, _) => false
      case Stuck => false
      case OutOfFuel => true
  {
    hide Interpret, Eval, ShadowEval, Idle, Compilable, NewNames, StoreOf, Finished;
    EvalFollowsInterpret(g, p, st, f, fuel);
    SameEval(g, p, f, Vars(st), {}, fuel);
  }
}
