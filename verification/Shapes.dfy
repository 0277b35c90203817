/**
 One-step unfoldings of the analyzer and of the evaluator for each kind of form, so that the proofs about
 whole forms need neither definition: what code a form has in terms of its parts' code, and what its
 evaluation is in terms of theirs.
 */
module Shapes {
  import opened Forms
  import opened Bytecode
  import opened TagOrders
  import opened Machine
  import opened Evaluator

  lemma ReturnedCode(f: Form, live: set<Form>, base: nat)
    requires CompilableValue(f, live) && EmitForm(f, false, base).status == Good
    ensures EmitForm(f, true, base).code == EmitForm(f, false, base).code + [RetForm]
  {
    hide Compilable, Elements, EmitPushes;
    if f.Cons? {
      assert EmitForm(f, false, base) == EmitCons(f, false, base);
      assert EmitForm(f, true, base) == EmitCons(f, true, base);
      var call := [Push(f.car), LookupFunction] + EmitPushes(Elements(f.cdr)) + [Funcall(|Elements(f.cdr)|)];
      assert call + [] == call;
    }
  }

  lemma CallCode(f: Form, live: set<Form>, base: nat)
    requires f.Cons? && CompilableValue(f, live)
    ensures f.car.Sym? && AllCompilable(f.cdr, false, {}, live)
    ensures ProperList(f.cdr) ==>
      EmitForm(f, false, base).code
      == [Push(f.car), LookupFunction] + EmitPushes(Elements(f.cdr)) + [Funcall(|Elements(f.cdr)|)]
  {
    assert [Push(f.car), LookupFunction] + EmitPushes(Elements(f.cdr)) + [Funcall(|Elements(f.cdr)|)] + []
        == [Push(f.car), LookupFunction] + EmitPushes(Elements(f.cdr)) + [Funcall(|Elements(f.cdr)|)];
  }

  lemma CallEval(g: Globals, p: Inherent, f: Form, store: Store, live: set<Form>, fuel: nat)
    requires f.Cons? && CompilableValue(f, live)
    ensures f.car.Sym?
    ensures Eval(g, p, f, store, live, fuel) ==
      var fn := LookupGlobalFunction(g, f.car.sym);
      if fn.None? then Result.Error else Apply(p, fn.value, EvalArguments(g, p, f.cdr, store, live, fuel))
  {
    hide EvalArguments, LookupGlobalFunction, Apply;
  }

  /** The special forms emit what their own analyzer emits. */
  lemma SpecialCode(f: Form, base: nat)
    requires f.Cons? && f.car.Sym? && SpecialOf(f.car.sym.lexeme) != NotSpecial
    ensures EmitForm(f, true, base) == EmitSpecial(SpecialOf(f.car.sym.lexeme), f.cdr, base)
  {
    hide EmitSpecial;
  }

  lemma SpecialEval(g: Globals, p: Inherent, f: Form, store: Store, live: set<Form>, fuel: nat)
    requires f.Cons? && f.car.Sym?
    ensures var special := SpecialOf(f.car.sym.lexeme);
      && (special.Progn? ==> Eval(g, p, f, store, live, fuel) == EvalSequence(g, p, f.cdr, store, live, fuel))
      && (special.LetStar? && f.cdr.Cons? ==>
            Eval(g, p, f, store, live, fuel) == EvalLet(g, p, f.cdr.car, f.cdr.cdr, store, live, fuel))
      && (special.Tagbody? ==>
            Eval(g, p, f, store, live, fuel) == EvalStatements(g, p, f.cdr, f.cdr, store, live + TagsOf(f.cdr), fuel))
      && (special.Quote? && f.cdr.Cons? ==> Eval(g, p, f, store, live, fuel) == Value(f.cdr.car, store))
      && (special.Go? && f.cdr.Cons? ==>
            Eval(g, p, f, store, live, fuel) == if f.cdr.car in live then Transfer(f.cdr.car, store) else Result.Error)
  {
    hide EvalSequence, EvalLet, EvalStatements, TagsOf;
  }

  lemma CompilableParts(f: Form, nested: bool, tags: set<Form>, live: set<Form>)
    requires f.Cons? && Compilable(f, nested, tags, live)
    ensures f.car.Sym?
    ensures var special := SpecialOf(f.car.sym.lexeme);
      && (special != NotSpecial ==> f.cdr.Cons?)
      && (special.NotSpecial? ==> CompilableValue(f, live))
      && (special.Progn? ==> AllCompilable(f.cdr, nested, tags, live))
      && (special.LetStar? ==>
            CompilableBindings(f.cdr.car, live) && f.cdr.cdr.Cons? && AllCompilable(f.cdr.cdr, nested, tags, live))
      && (special.Tagbody? ==>
            GoodTags(TagsOf(f.cdr))
            && CompilableStatements(f.cdr, if nested then tags - TagsOf(f.cdr) else TagsOf(f.cdr), live + TagsOf(f.cdr)))
      && (special.Go? ==> f.cdr.car in tags || f.cdr.car !in live)
  {
    hide AllCompilable, CompilableBindings, CompilableStatements, TagsOf;
  }

  // ---- sequences

  lemma SequenceCode(forms: Form, base: nat)
    requires forms.Cons? && EmitForm(forms.car, true, base).status == Good
    ensures var head := EmitForm(forms.car, true, base).code;
      EmitProgn(forms, base).code == head + EmitProgn(forms.cdr, base + |head|).code
  {
    hide EmitForm;
  }

  lemma SequenceEval(g: Globals, p: Inherent, forms: Form, store: Store, live: set<Form>, fuel: nat)
    requires forms.Cons?
    ensures EvalSequence(g, p, forms, store, live, fuel) ==
      var r := Eval(g, p, forms.car, store, live, fuel);
      if r.Value? && !forms.cdr.Nil? then EvalSequence(g, p, forms.cdr, r.store, live, fuel) else r
  {
    hide Eval;
  }

  // ---- LET*

  /** The code of LET* with these bindings and this body. */
  function LetCode(vars: Form, body: Form, base: nat): seq<Byte> {
    var bindings := EmitBindings(vars, base).code;
    bindings + EmitProgn(body, base + |bindings|).code + Repeat(PopLexicalEnv, |Elements(vars)|)
  }

  lemma LetStarCode(args: Form, base: nat)
    requires args.Cons?
    requires EmitBindings(args.car, base).status == Good
    requires EmitProgn(args.cdr, base + |EmitBindings(args.car, base).code|).status == Good
    ensures EmitSpecial(LetStar, args, base).code == LetCode(args.car, args.cdr, base)
  {
    hide EmitBindings, EmitProgn, Repeat, Elements;
  }

  lemma LetBodyCode(body: Form, base: nat)
    ensures LetCode(Nil, body, base) == EmitProgn(body, base).code
  {
    hide EmitProgn;
    assert EmitBindings(Nil, base).code == [];
    assert [] + EmitProgn(body, base + 0).code + [] == EmitProgn(body, base).code;
  }

  lemma BindingCode(vars: Form, base: nat)
    requires vars.Cons? && vars.car.Cons? && (vars.car.cdr.Nil? || vars.car.cdr.Cons?)
    requires EmitForm(ValueForm(vars.car), false, base + 2).status == Good
    ensures var value := EmitForm(ValueForm(vars.car), false, base + 2).code;
      var head := [PushLexicalEnv, Push(vars.car.car)] + value + [BindValue, Pop];
      EmitBindings(vars, base).code == head + EmitBindings(vars.cdr, base + |head|).code
  {
    hide EmitForm;
  }

  lemma LetCodeCons(vars: Form, body: Form, base: nat)
    requires vars.Cons? && vars.car.Cons? && (vars.car.cdr.Nil? || vars.car.cdr.Cons?)
    requires EmitForm(ValueForm(vars.car), false, base + 2).status == Good
    ensures var value := EmitForm(ValueForm(vars.car), false, base + 2).code;
      LetCode(vars, body, base)
      == [PushLexicalEnv, Push(vars.car.car)] + value + [BindValue, Pop]
         + LetCode(vars.cdr, body, base + |value| + 4) + [PopLexicalEnv]
  {
    hide EmitForm, EmitBindings, EmitProgn, Repeat;
    BindingCode(vars, base);
    RepeatSnoc(PopLexicalEnv, |Elements(vars.cdr)|);
    var value := EmitForm(ValueForm(vars.car), false, base + 2).code;
    var head := [PushLexicalEnv, Push(vars.car.car)] + value + [BindValue, Pop];
    HeadLength(value, vars.car.car);
    var rest := EmitBindings(vars.cdr, base + |head|).code;
    var body' := EmitProgn(body, base + |head| + |rest|).code;
    assert base + |head + rest| == base + |head| + |rest|;
    Regroup(head, rest, body', Repeat(PopLexicalEnv, |Elements(vars.cdr)|), PopLexicalEnv);
  }

  lemma HeadLength(value: seq<Byte>, name: Form)
    ensures |[PushLexicalEnv, Push(name)] + value + [BindValue, Pop]| == |value| + 4
  {
  }

  lemma Regroup(a: seq<Byte>, b: seq<Byte>, c: seq<Byte>, d: seq<Byte>, last: Byte)
    ensures (a + b) + c + (d + [last]) == a + (b + c + d) + [last]
  {
  }

  lemma LetEvalNil(g: Globals, p: Inherent, body: Form, store: Store, live: set<Form>, fuel: nat)
    ensures EvalLet(g, p, Nil, body, store, live, fuel) == EvalSequence(g, p, body, store, live, fuel)
  {
    hide EvalSequence;
  }

  lemma LetEvalCons(g: Globals, p: Inherent, vars: Form, body: Form, store: Store, live: set<Form>, fuel: nat)
    requires vars.Cons? && vars.car.Cons?
    ensures EvalLet(g, p, vars, body, store, live, fuel) ==
      var r := Eval(g, p, ValueForm(vars.car), store, live, fuel);
      if !r.Value? then r
      else if !vars.car.car.Sym? then Result.Error
      else
        var s := vars.car.car.sym;
        var inner := EvalLet(g, p, vars.cdr, body, r.store[s := r.v], live, fuel);
        if s in r.store then inner else Leave(inner, s)
  {
    hide Eval;
  }

  // ---- TAGBODY

  lemma TagbodyCode(args: Form, base: nat)
    requires args.Cons? && EmitStatements(args, 0).status == Good
    ensures var s := EmitStatements(args, 0);
      EmitSpecial(Tagbody, args, base).code
      == [PushLexicalEnv] + EmitTags(s.tags, base + 1 + 2 * |s.tags|) + s.code + [Push(Nil), RetForm, PopLexicalEnv]
  {
    hide EmitStatements, EmitTags;
  }

  lemma StatementCode(args: Form, pos: nat)
    requires args.Cons? && args.car.Cons? && EmitForm(args.car, true, pos).status == Good
    ensures var head := EmitForm(args.car, true, pos).code;
      EmitStatements(args, pos).code == head + EmitStatements(args.cdr, pos + |head|).code
  {
    hide EmitForm;
  }

  lemma TagCode(args: Form, pos: nat)
    requires args.Cons? && !args.car.Cons?
    ensures EmitStatements(args, pos).code == EmitStatements(args.cdr, pos).code
  {
    hide EmitForm;
  }

  lemma StatementsEval(g: Globals, p: Inherent, args: Form, rest: Form, store: Store, live: set<Form>, fuel: nat)
    requires rest.Cons? && rest.car.Cons?
    ensures EvalStatements(g, p, args, rest, store, live, fuel) ==
      var r := Eval(g, p, rest.car, store, live, fuel);
      if r.Value? then EvalStatements(g, p, args, rest.cdr, r.store, live, fuel)
      else if r.Transfer? && r.tag in TagsOf(args) then
        if fuel == 0 then Result.Timeout
        else EvalStatements(g, p, args, AfterTag(args, r.tag), r.store, live, fuel - 1)
      else r
  {
    hide Eval, TagsOf, AfterTag;
  }

  lemma TagEval(g: Globals, p: Inherent, args: Form, rest: Form, store: Store, live: set<Form>, fuel: nat)
    requires rest.Cons? && !rest.car.Cons?
    ensures EvalStatements(g, p, args, rest, store, live, fuel) == EvalStatements(g, p, args, rest.cdr, store, live, fuel)
  {
    hide Eval, TagsOf, AfterTag;
  }
}
