/** What is no special operator is a call. */
module OrdinaryCalls {
  // For every symbol with another name than the five: what is emitted, what evaluation gives, and so what
  // interpret() does, stated without the function that tells operators from other names.

  import opened Forms
  import opened SpecialForms
  import opened Bytecode
  import opened Machine
  import opened Evaluator
  import opened FrameChain
  import opened Simulation
  import opened CompilerTheorem

  function CallOf(s: Symbol, args: seq<Form>): Form {
    Cons(Sym(s), ListOf(args))
  }

  lemma {:induction false} ListOfElements(args: seq<Form>)
    ensures ProperList(ListOf(args)) && Elements(ListOf(args)) == args
  {
    if args != [] {
      ListOfElements(args[1..]);
      assert [args[0]] + args[1..] == args;
    }
  }

  lemma {:induction false} PushesAt(args: seq<Form>)
    ensures EmitPushes(args) == seq(|args|, i requires 0 <= i < |args| => Push(args[i]))
  {
    if args != [] {
      PushesAt(args[1..]);
      assert EmitPushes(args)[1..] == EmitPushes(args[1..]);
      forall i | 0 <= i < |args| ensures EmitPushes(args)[i] == Push(args[i]) {
        if i > 0 { assert EmitPushes(args)[1..][i - 1] == Push(args[1..][i - 1]); }
      }
    }
  }

  /** The function is looked up first, the arguments are pushed as they are, and all of them are handed to the call. */
  lemma CallCodeIs(s: Symbol, args: seq<Form>, withRet: bool, base: nat)
    requires s.lexeme !in OPERATORS
    ensures var e := EmitForm(CallOf(s, args), withRet, base);
      var n := |args|;
      && e.status == Good
      && |e.code| == n + (if withRet then 4 else 3)
      && e.code[0] == Push(Sym(s)) && e.code[1] == LookupFunction
      && (forall i :: 0 <= i < n ==> e.code[2 + i] == Push(args[i]))
      && e.code[2 + n] == Funcall(n)
      && (withRet ==> e.code[3 + n] == RetForm)
  {
    OperatorsAreThese(s.lexeme);
    ListOfElements(args);
    PushesAt(args);
    var f := CallOf(s, args);
    assert EmitForm(f, withRet, base) == EmitCons(f, withRet, base);
  }

  /** The arguments have the values vs, evaluated in order; the variables go through the given stores. */
  ghost predicate ValuesThrough(g: Globals, p: Inherent, args: seq<Form>, vs: seq<Form>, stores: seq<Store>, live: set<Form>, fuel: nat) {
    && |vs| == |args| && |stores| == |args| + 1
    && forall i :: 0 <= i < |args| ==> Eval(g, p, args[i], stores[i], live, fuel) == Value(vs[i], stores[i + 1])
  }

  lemma {:induction false} ArgumentsAre(g: Globals, p: Inherent, args: seq<Form>, vs: seq<Form>, stores: seq<Store>, live: set<Form>, fuel: nat)
    requires ValuesThrough(g, p, args, vs, stores, live, fuel)
    ensures EvalArguments(g, p, ListOf(args), stores[0], live, fuel) == Values(ListOf(vs), stores[|args|])
    decreases |args|
  {
    hide Eval;
    if args != [] {
      forall i | 0 <= i < |args| - 1
        ensures Eval(g, p, args[1..][i], stores[1..][i], live, fuel) == Value(vs[1..][i], stores[1..][i + 1])
      {
        assert args[1..][i] == args[i + 1] && stores[1..][i] == stores[i + 1];
        assert vs[1..][i] == vs[i + 1] && stores[1..][i + 1] == stores[i + 2];
      }
      ArgumentsAre(g, p, args[1..], vs[1..], stores[1..], live, fuel);
    }
  }

  /** Evaluation applies the global function of that name to the list of the argument values. */
  lemma CallEvalIs(g: Globals, p: Inherent, s: Symbol, args: seq<Form>, vs: seq<Form>, stores: seq<Store>, live: set<Form>, fuel: nat)
    requires s.lexeme !in OPERATORS && ValuesThrough(g, p, args, vs, stores, live, fuel)
    ensures Eval(g, p, CallOf(s, args), stores[0], live, fuel) ==
      var fn := LookupGlobalFunction(g, s);
      if fn.None? then Result.Error
      else
        match p(fn.value, ListOf(vs))
        case None => Result.Error
        case Some(v) => Value(v, stores[|args|])
  {
    hide EvalArguments;
    OperatorsAreThese(s.lexeme);
    ArgumentsAre(g, p, args, vs, stores, live, fuel);
  }

  /** An argument that has no value decides the call: those before it are evaluated, the function is not applied. */
  lemma {:induction false} NoValueDecides(g: Globals, p: Inherent, args: seq<Form>, k: nat, vs: seq<Form>, stores: seq<Store>, live: set<Form>, fuel: nat)
    requires k < |args| && ValuesThrough(g, p, args[..k], vs, stores, live, fuel)
    requires !Eval(g, p, args[k], stores[k], live, fuel).Value?
    ensures EvalArguments(g, p, ListOf(args), stores[0], live, fuel) == NoValue(Eval(g, p, args[k], stores[k], live, fuel))
    decreases k
  {
    hide Eval;
    if k > 0 {
      assert args[..k][0] == args[0];
      forall i | 0 <= i < k - 1
        ensures Eval(g, p, args[1..][..k - 1][i], stores[1..][i], live, fuel) == Value(vs[1..][i], stores[1..][i + 1])
      {
        assert args[1..][..k - 1][i] == args[..k][i + 1] && stores[1..][i] == stores[i + 1];
        assert vs[1..][i] == vs[i + 1] && stores[1..][i + 1] == stores[i + 2];
      }
      NoValueDecides(g, p, args[1..], k - 1, vs[1..], stores[1..], live, fuel);
    }
  }

  lemma CallStops(g: Globals, p: Inherent, s: Symbol, args: seq<Form>, k: nat, vs: seq<Form>, stores: seq<Store>, live: set<Form>, fuel: nat)
    requires s.lexeme !in OPERATORS && LookupGlobalFunction(g, s).Some?
    requires k < |args| && ValuesThrough(g, p, args[..k], vs, stores, live, fuel)
    requires !Eval(g, p, args[k], stores[k], live, fuel).Value?
    ensures Eval(g, p, CallOf(s, args), stores[0], live, fuel) == Eval(g, p, args[k], stores[k], live, fuel)
  {
    hide EvalArguments;
    OperatorsAreThese(s.lexeme);
    NoValueDecides(g, p, args, k, vs, stores, live, fuel);
  }

  lemma {:induction false} AllArgsCompilable(args: seq<Form>)
    requires forall i :: 0 <= i < |args| ==> Compilable(args[i], false, {}, {})
    ensures AllCompilable(ListOf(args), false, {}, {})
  {
    hide Compilable;
    if args != [] { AllArgsCompilable(args[1..]); }
  }

  /**
   interpret() of a call: the function of that name gets the list of the argument values, and its value is the
   answer; without such a function, or if it aborts, the program ends.
   */
  lemma CallInterprets(g: Globals, p: Inherent, st: State, s: Symbol, args: seq<Form>, vs: seq<Form>, stores: seq<Store>, fuel: nat)
    requires Idle(g, st) && s.lexeme !in OPERATORS
    requires forall i :: 0 <= i < |args| ==> Compilable(args[i], false, {}, {})
    requires ValuesThrough(g, p, args, vs, stores, {}, fuel) && stores[0] == Vars(st)
    ensures var fn := LookupGlobalFunction(g, s);
      if fn.None? || p(fn.value, ListOf(vs)).None? then
        exists enough: nat :: Settles(p, st, CallOf(s, args), Outcome.Error, enough)
      else
        var v := p(fn.value, ListOf(vs)).value;
        exists st', enough: nat ::
          Finished(g, st, st', v, stores[|args|]) && Settles(p, st, CallOf(s, args), Done(st', v), enough)
  {
    hide Idle, Eval, Finished, Settles, ValuesThrough, StoreOf, AllCompilable, LookupGlobalFunction;
    OperatorsAreThese(s.lexeme);
    AllArgsCompilable(args);
    var f := CallOf(s, args);
    assert Compilable(f, false, {}, {});
    hide Compilable;
    InterpretFollowsEval(g, p, st, f, fuel);
    assert |stores| == |args| + 1 by { ThroughLength(g, p, args, vs, stores, {}, fuel); }
    CallEvalIs(g, p, s, args, vs, stores, {}, fuel);
  }

  lemma ThroughLength(g: Globals, p: Inherent, args: seq<Form>, vs: seq<Form>, stores: seq<Store>, live: set<Form>, fuel: nat)
    requires ValuesThrough(g, p, args, vs, stores, live, fuel)
    ensures |vs| == |args| && |stores| == |args| + 1
  {
  }
}
