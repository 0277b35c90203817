/**
 Special forms as LET* values. Without with_ret an ordinary form leaves its value on the form stack, where
 BIND-VALUE looks for it. Special forms ignore with_ret: their value goes to the last return, and BIND-VALUE finds
 one form too few.
 */
module SpecialValues {
  import opened Forms
  import opened SpecialForms
  import opened Bytecode
  import opened Machine
  import opened Evaluator
  import opened Runs
  import opened FrameChain
  import opened Simulation
  import opened StraightLine
  import opened LetSteps
  import opened Shapes
  import opened Correctness
  import opened CompilerTheorem
  import opened Boundaries

  /** What a special form's code is does not depend on with_ret. */
  lemma RetIgnored(s: Symbol, args: Form, base: nat)
    requires s.lexeme in OPERATORS
    ensures EmitForm(Cons(Sym(s), args), false, base) == EmitForm(Cons(Sym(s), args), true, base)
  {
    OperatorsAreThese(s.lexeme);
    var f := Cons(Sym(s), args);
    forall withRet: bool ensures EmitForm(f, withRet, base) == EmitSpecial(SpecialOf(s.lexeme), args, base) {
      assert EmitForm(f, withRet, base) == EmitCons(f, withRet, base);
    }
  }

  function Binding(name: Form, value: Form, body: Form): Form {
    Call1("LET*", Cons(Cons(Cons(name, Cons(value, Nil)), Nil), body))
  }

  /** The symbol below the name is bound to the name, in the environment the LET* has opened. */
  function BelowBound(st: State, below: Symbol): State
    requires |st.forms| >= 2 && st.frames != []
  {
    var n := |st.forms|;
    st.(forms := st.forms[..n - 2] + [st.forms[n - 1]],
        envs := BindValueIn(st.envs, st.frames[|st.frames| - 1].env, below, st.forms[n - 1]))
  }

  /** What follows where BIND-VALUE stands, with st3 the state it finds. */
  ghost predicate BindsBelow(p: Inherent, code: seq<Byte>, st: State, at: nat, st3: State)
    requires |st3.forms| == |st.forms| + 1 && st3.frames != []
  {
    var n := |st.forms|;
    if n == 0 then Answers(p, code, 0, st, Outcome.Stuck)
    else if !st.forms[n - 1].Sym? then Answers(p, code, 0, st, Outcome.Error)
    else st3.forms[n - 1] == st.forms[n - 1] && Leads(p, code, 0, st, at + 1, BelowBound(st3, st.forms[n - 1].sym))
  }

  /**
   (LET* ((name value)) . body) for every special form with a value: it is computed and goes to the last return.
   BIND-VALUE then takes the name for the value and whatever lies below for the symbol: with nothing there the
   stack underflows, with something that is no symbol the program aborts, and otherwise that symbol is bound.
   */
  lemma SpecialLetValue(g: Globals, p: Inherent, st: State, name: Form, value: Form, body: Form, v: Form, store: Store, fuel: nat)
    returns (st3: State)
    requires Idle(g, st) && value.Cons? && value.car.Sym? && value.car.sym.lexeme in OPERATORS
    requires Compilable(value, false, {}, {}) && Eval(g, p, value, Vars(st), {}, fuel) == Value(v, store)
    requires EmitProgn(body, |EmitForm(value, true, 2).code| + 4).status != Asserts
    ensures EmitForm(Binding(name, value, body), true, 0).status == Good
    ensures st3.forms == st.forms + [name] && st3.frames != [] && st3.rets != [] && st3.rets[|st3.rets| - 1] == v
    ensures Inside(st, st3) && Vars(st3) == store
    ensures BindsBelow(p, EmitForm(Binding(name, value, body), true, 0).code, st, |EmitForm(value, true, 2).code| + 2, st3)
  {
    hide *;
    CompilableEmits(value, false, {}, {}, true, 2);
    IdleInv(g, st);
    RetIgnored(value.car.sym, value.cdr, 2);
    SameCons(value);
    var vc := EmitForm(value, true, 2).code;
    OneBindingCode(name, value, body, vc);
    var code := EmitForm(Binding(name, value, body), true, 0).code;
    BindingIs(name, value, body);
    var rest := EmitProgn(body, |vc| + 4).code + [PopLexicalEnv];
    CodeParts(code, name, vc, rest);
    var st2 := LetEnter(g, p, {}, code, 0, st, name);
    st3 := SimForm(g, p, value, false, {}, {}, code, 2, 2, st2, fuel);
    ValueParts(g, p, code, 2, st2, 2 + |vc|, st3, {}, fuel, Value(v, store), LastReturn);
    InsideKeeps(st, st2, st3);
    InsideStacks(st, st3);
    LeadsCompose(p, code, 0, st, 2, st2, 2 + |vc|, st3);
    Rebinds(p, code, st, name, |vc| + 2, st3);
  }

  lemma IdleInv(g: Globals, st: State)
    requires Idle(g, st)
    ensures Inv(g, st) && LiveTags(st, {})
  {
    hide Inv;
  }

  lemma SameCons(f: Form)
    requires f.Cons? && f.car.Sym?
    ensures Cons(Sym(f.car.sym), f.cdr) == f
  {
  }

  lemma BindingIs(name: Form, value: Form, body: Form)
    ensures Binding(name, value, body) == Call1("LET*", Cons(Cons(Cons(name, Cons(value, Nil)), Nil), body))
  {
  }

  lemma CodeParts(code: seq<Byte>, name: Form, vc: seq<Byte>, rest: seq<Byte>)
    requires code == [PushLexicalEnv, Push(name)] + vc + [BindValue, Pop] + rest
    ensures |code| > |vc| + 3 && code[0] == PushLexicalEnv && code[1] == Push(name)
    ensures CodeAt(code, 2, vc) && code[|vc| + 2] == BindValue
  {
  }

  lemma InsideStacks(st: State, st3: State)
    requires Inside(st, st3)
    ensures st3.frames != [] && |st3.rets| == |st.rets| + 1
  {
  }

  lemma Rebinds(p: Inherent, code: seq<Byte>, st: State, name: Form, at: nat, st3: State)
    requires at < |code| && code[at] == BindValue && st3.frames != []
    requires st3.forms == st.forms + [name] && Leads(p, code, 0, st, at, st3)
    ensures BindsBelow(p, code, st, at, st3)
  {
    hide Leads, Answers, BindValueIn;
    var n := |st.forms|;
    if n > 0 { assert st3.forms[n - 1] == st.forms[n - 1]; }
    if n > 0 && st.forms[n - 1].Sym? {
      var st4 := BelowBound(st3, st.forms[n - 1].sym);
      assert Exec(st3, code[at]) == Next(st4);
      LeadsOneStep(p, code, at, st3, st4);
      LeadsCompose(p, code, 0, st, at, st3, at + 1, st4);
    } else {
      var o := if n == 0 then Outcome.Stuck else Outcome.Error;
      BindFails(p, code, at, st3, o);
      AnswersBack(p, code, 0, st, at, st3, o);
    }
  }

  lemma BindFails(p: Inherent, code: seq<Byte>, at: nat, st: State, o: Outcome)
    requires at < |code| && code[at] == BindValue && st.frames != [] && st.forms != []
    requires o == if |st.forms| == 1 then Outcome.Stuck else Outcome.Error
    requires |st.forms| > 1 ==> !st.forms[|st.forms| - 2].Sym?
    ensures Answers(p, code, at, st, o)
  {
    assert Run(p, code, at, st, 1) == o;
  }
}
