/**
 Forms that cannot be analyzed. Which forms the analyzer rejects, and where a rejection is lost: a TAGBODY with
 a bad statement opens its environment and does nothing else, a LET* with a bad body runs the part in front of
 it.
 */
module FailedAnalysis {
  import opened Forms
  import opened SpecialForms
  import opened Bytecode
  import opened Machine
  import opened Evaluator
  import opened Shapes
  import opened Runs
  import opened CompilerTheorem
  import opened Boundaries

  /** Only a symbol can head a form: a list there is an assertion, any other object a failure. */
  lemma BadHead(car: Form, args: Form, withRet: bool, base: nat)
    requires !car.Sym?
    ensures EmitForm(Cons(car, args), withRet, base) == Emitted([], if car.Cons? then Asserts else Failed)
  {
    var f := Cons(car, args);
    assert EmitForm(f, withRet, base) == EmitCons(f, withRet, base);
  }

  /** GO, QUOTE and LET* without an argument, and the others with an atom for a list, are assertions. */
  lemma BadArguments(s: Symbol, args: Form, withRet: bool, base: nat)
    requires s.lexeme in OPERATORS && !args.Cons? && (s.lexeme in {"PROGN", "TAGBODY"} ==> !args.Nil?)
    ensures EmitForm(Cons(Sym(s), args), withRet, base) == Emitted([], Asserts)
  {
    OperatorsAreThese(s.lexeme);
    var f := Cons(Sym(s), args);
    assert EmitForm(f, withRet, base) == EmitCons(f, withRet, base) == EmitSpecial(SpecialOf(s.lexeme), args, base);
    assert EmitProgn(args, base) == Emitted([], if args.Nil? then Good else Asserts);
    assert EmitTagbody(args, base) == if args.Nil? then Emitted([Push(Nil)], Good) else Emitted([], Asserts);
    assert EmitLetStar(args, base) == Emitted([], Asserts);
  }

  /** A call whose arguments are no proper list is one too. */
  lemma BadCall(s: Symbol, args: Form, withRet: bool, base: nat)
    requires s.lexeme !in OPERATORS && !ProperList(args)
    ensures EmitForm(Cons(Sym(s), args), withRet, base).status == Asserts
  {
    OperatorsAreThese(s.lexeme);
    var f := Cons(Sym(s), args);
    assert EmitForm(f, withRet, base) == EmitCons(f, withRet, base);
  }

  /** interpret() of a form with a bad head ends the program, as evaluation says it should. */
  lemma BadHeadStops(g: Globals, p: Inherent, st: State, car: Form, args: Form, store: Store, live: set<Form>, fuel: nat)
    requires !car.Sym?
    ensures Interpret(p, st, Cons(car, args), fuel) == Outcome.Error
    ensures Eval(g, p, Cons(car, args), store, live, fuel) == Result.Error
  {
    BadHead(car, args, true, 0);
  }

  /** An argument that does not analyze ends the program when its turn comes. */
  lemma BadArgumentStops(p: Inherent, st: State, fnIndex: nat, argc: nat, i: nat, fuel: nat)
    requires i < argc && fnIndex + 1 + i < |st.forms| && EmitForm(st.forms[fnIndex + 1 + i], true, 0).status != Good
    ensures EvalArgs(p, st, fnIndex, argc, i, fuel) == ArgsOutcome.Error
  {
    hide EmitForm;
  }

  /** Behind statements that analyze, a bad one decides the status of the whole. */
  lemma {:induction false} BadStatement(before: seq<Form>, bad: Form, rest: Form, pos: nat)
    requires bad.Cons? && !bad.car.Sym? && !bad.car.Cons?
    requires forall i, base :: 0 <= i < |before| && before[i].Cons? ==> EmitForm(before[i], true, base).status == Good
    ensures EmitStatements(Join(before, Cons(bad, rest)), pos).status == Failed
    decreases |before|
  {
    hide EmitForm;
    if before == [] {
      BadHead(bad.car, bad.cdr, true, pos);
      assert Cons(bad.car, bad.cdr) == bad;
    } else {
      var next := if before[0].Cons? then pos + |EmitForm(before[0], true, pos).code| else pos;
      BadStatement(before[1..], bad, rest, next);
    }
  }

  function Join(s: seq<Form>, rest: Form): Form {
    if s == [] then rest else Cons(s[0], Join(s[1..], rest))
  }

  /**
   A TAGBODY with a statement that fails to analyze succeeds: it opens an environment that is never closed, runs
   none of its statements, and answers NIL.
   */
  lemma BadTagbodyRuns(p: Inherent, st: State, args: Form, fuel: nat)
    requires args.Cons? && EmitStatements(args, 0).status == Failed
    requires st.frames != [] && st.rets != [] && fuel >= 2
    ensures Interpret(p, st, Call1("TAGBODY", args), fuel) == Done(PushEnv(st, FromBytes), Nil)
  {
    hide EmitStatements;
    OperatorsAreThese("TAGBODY");
    SpecialCode(Call1("TAGBODY", args), 0);
    var code := EmitForm(Call1("TAGBODY", args), true, 0).code;
    assert code == [PushLexicalEnv];
    var st1 := PushEnv(st, FromBytes);
    RunStep(p, code, 0, st, st1, fuel);
    assert Run(p, code, 1, st1, fuel - 1) == Done(st1, Nil);
  }

  /** A LET* without bindings around a body that fails to analyze succeeds and runs the part in front of the failure. */
  lemma BadBodyRuns(p: Inherent, st: State, body: Form, fuel: nat)
    requires EmitProgn(body, 0).status == Failed
    ensures Interpret(p, st, Call1("LET*", Cons(Nil, body)), fuel) == Run(p, EmitProgn(body, 0).code, 0, st, fuel)
    ensures Interpret(p, st, Call1("PROGN", body), fuel) == Outcome.Error
  {
    hide EmitProgn, Run;
    OperatorsAreThese("LET*");
    SpecialCode(Call1("LET*", Cons(Nil, body)), 0);
    SpecialCode(Call1("PROGN", body), 0);
    assert EmitBindings(Nil, 0) == Emitted([], Good);
    assert [] + EmitProgn(body, 0).code + [] == EmitProgn(body, 0).code;
    assert Elements(Nil) == [] && Repeat(PopLexicalEnv, 0) == [];
    assert EmitLetStar(Cons(Nil, body), 0) == Emitted(EmitProgn(body, 0).code, Good);
    assert EmitSpecial(LetStar, Cons(Nil, body), 0) == EmitLetStar(Cons(Nil, body), 0);
    assert EmitSpecial(Progn, body, 0) == EmitProgn(body, 0);
  }

  /** A LET* value that fails to analyze is left out: BIND-VALUE follows the name at once. */
  lemma BadValueLeftOut(name: Form, value: Form, rest: Form, base: nat)
    requires value.Cons? && !value.car.Sym? && !value.car.Cons?
    ensures var e := EmitBindings(Cons(Cons(name, Cons(value, Nil)), rest), base);
      var tail := EmitBindings(rest, base + 4);
      e == Emitted([PushLexicalEnv, Push(name), BindValue, Pop] + tail.code, tail.status)
  {
    BadHead(value.car, value.cdr, false, base + 2);
    assert Cons(value.car, value.cdr) == value;
    assert BindingValue(Cons(value, Nil)) == value;
    assert [PushLexicalEnv, Push(name)] + [] + [BindValue, Pop] == [PushLexicalEnv, Push(name), BindValue, Pop];
    hide EmitForm;
  }

  // ---- lists that are none

  /** Behind forms that analyze, an atom where the list should go on or end is an assertion. */
  lemma {:induction false} BadSequence(before: seq<Form>, tail: Form, base: nat)
    requires !tail.Cons? && !tail.Nil?
    requires forall i, k :: 0 <= i < |before| ==> EmitForm(before[i], true, k).status == Good
    ensures EmitProgn(Join(before, tail), base).status == Asserts
    decreases |before|
  {
    hide EmitForm;
    if before != [] { BadSequence(before[1..], tail, base + |EmitForm(before[0], true, base).code|); }
  }

  lemma {:induction false} BadStatements(before: seq<Form>, tail: Form, pos: nat)
    requires !tail.Cons? && !tail.Nil?
    requires forall i, k :: 0 <= i < |before| && before[i].Cons? ==> EmitForm(before[i], true, k).status == Good
    ensures EmitStatements(Join(before, tail), pos).status == Asserts
    decreases |before|
  {
    hide EmitForm;
    if before != [] {
      var next := if before[0].Cons? then pos + |EmitForm(before[0], true, pos).code| else pos;
      BadStatements(before[1..], tail, next);
    }
  }

  /** A binding that is no list of a name and at most a value, or an atom behind the bindings, is one as well. */
  lemma {:induction false} BadBinding(before: seq<Form>, tail: Form, base: nat)
    requires !tail.Nil? && (tail.Cons? ==> !tail.car.Cons? || (!tail.car.cdr.Cons? && !tail.car.cdr.Nil?))
    requires forall i :: 0 <= i < |before| ==> before[i].Cons? && (before[i].cdr.Nil? || before[i].cdr.Cons?)
    requires forall i, k :: 0 <= i < |before| ==> EmitForm(BindingValue(before[i].cdr), false, k).status != Asserts
    ensures EmitBindings(Join(before, tail), base).status == Asserts
    decreases |before|
  {
    hide EmitForm;
    if before != [] {
      var v := EmitForm(BindingValue(before[0].cdr), false, base + 2);
      BadBinding(before[1..], tail, base + |[PushLexicalEnv, Push(before[0].car)] + v.code + [BindValue, Pop]|);
    }
  }

  /** An assertion in any part is an assertion of the whole. */
  lemma AssertionsSpread(vars: Form, body: Form, statements: Form, withRet: bool, base: nat)
    ensures EmitBindings(vars, base).status == Asserts
      || (EmitBindings(vars, base).status == Good && EmitProgn(body, base + |EmitBindings(vars, base).code|).status == Asserts)
      ==> EmitForm(Call1("LET*", Cons(vars, body)), withRet, base).status == Asserts
    ensures EmitProgn(body, base).status == Asserts ==> EmitForm(Call1("PROGN", body), withRet, base).status == Asserts
    ensures statements.Cons? && EmitStatements(statements, 0).status == Asserts
      ==> EmitForm(Call1("TAGBODY", statements), withRet, base).status == Asserts
  {
    hide EmitBindings, EmitProgn, EmitStatements;
    OperatorsAreThese("LET*");
    SpecialIs("LET*", Cons(vars, body), withRet, base);
    SpecialIs("PROGN", body, withRet, base);
    SpecialIs("TAGBODY", statements, withRet, base);
    assert EmitSpecial(LetStar, Cons(vars, body), base) == EmitLetStar(Cons(vars, body), base);
    assert EmitSpecial(Progn, body, base) == EmitProgn(body, base);
    assert EmitSpecial(Tagbody, statements, base) == EmitTagbody(statements, base);
  }

  lemma SpecialIs(name: string, args: Form, withRet: bool, base: nat)
    requires name in OPERATORS
    ensures SpecialOf(name) != NotSpecial
    ensures EmitForm(Call1(name, args), withRet, base) == EmitSpecial(SpecialOf(name), args, base)
  {
    OperatorsAreThese(name);
    var f := Call1(name, args);
    assert EmitForm(f, withRet, base) == EmitCons(f, withRet, base);
  }
}
