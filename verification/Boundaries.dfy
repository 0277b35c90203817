/** Why Compilable is what it is. */
module Boundaries {
  // For each kind of program it shuts out, what the machine does instead
  // of what the reference evaluator says.

  import opened Forms
  import opened Bytecode
  import opened Machine
  import opened Evaluator
  import opened TagTable
  import opened CompilerTheorem
  import opened Shapes
  import opened Runs

  function Call1(head: string, args: Form): Form {
    Cons(Sym(Symbol(head, "COMMON-LISP", 0)), args)
  }

  // ---- a TAGBODY inside another TAGBODY of the same code list

  /** The index BindTag records for a tag of a TAGBODY analyzed with `base` instructions in its list. */
  function RecordedIndex(args: Form, base: nat, tag: Form): nat
    requires tag in AddTags(map[], EmitStatements(args, 0).tags, base + 1 + 2 * |EmitStatements(args, 0).tags|)
  {
    AddTags(map[], EmitStatements(args, 0).tags, base + 1 + 2 * |EmitStatements(args, 0).tags|)[tag]
  }

  /** Where the statements behind the tag lie once the code of the TAGBODY stands at pc. */
  function TargetIndex(args: Form, pc: nat, tag: Form): nat
    requires LastPosition(EmitStatements(args, 0).tags, tag).Some?
  {
    pc + 1 + 2 * |EmitStatements(args, 0).tags| + LastPosition(EmitStatements(args, 0).tags, tag).value
  }

  /**
   Relocation is right exactly when the code ends up where it was emitted. A TAGBODY that is a statement
   of another one is emitted into form_bytes and moved behind the outer tag bytes: every index of its
   tags is then off by that distance, which is never zero.
   */
  lemma RelocationRightIff(args: Form, base: nat, pc: nat, tag: Form)
    requires EmitStatements(args, 0).status == Good && tag in TagsOf(args)
    ensures LastPosition(EmitStatements(args, 0).tags, tag).Some?
    ensures tag in AddTags(map[], EmitStatements(args, 0).tags, base + 1 + 2 * |EmitStatements(args, 0).tags|)
    ensures RecordedIndex(args, base, tag) == TargetIndex(args, pc, tag) <==> base == pc
    ensures RecordedIndex(args, base, tag) - base == TargetIndex(args, pc, tag) - pc
  {
    hide EmitStatements, TagsOf, AddTags, LastPosition;
    PositionIsAfterTag(args, 0, tag);
    var tags := EmitStatements(args, 0).tags;
    AddTagsLookup(map[], tags, base + 1 + 2 * |tags|, tag);
  }

  /** The nested case: statement at offset `off` of a TAGBODY whose statement code starts at `start`. */
  lemma NestedTagsAlwaysWrong(outer: Form, outerPc: nat, inner: Form, off: nat, tag: Form)
    requires EmitStatements(inner, 0).status == Good && tag in TagsOf(inner)
    ensures LastPosition(EmitStatements(inner, 0).tags, tag).Some?
    ensures tag in AddTags(map[], EmitStatements(inner, 0).tags, off + 1 + 2 * |EmitStatements(inner, 0).tags|)
    ensures var start := outerPc + 1 + 2 * |EmitStatements(outer, 0).tags|;
      && RecordedIndex(inner, off, tag) + start == TargetIndex(inner, start + off, tag)
      && RecordedIndex(inner, off, tag) != TargetIndex(inner, start + off, tag)
  {
    hide EmitStatements, TagsOf, AddTags, LastPosition;
    var start := outerPc + 1 + 2 * |EmitStatements(outer, 0).tags|;
    RelocationRightIff(inner, off, start + off, tag);
  }

  // ---- empty bodies

  /** (TAGBODY) leaves its NIL on the form stack and returns whatever was returned last. */
  lemma EmptyTagbody(g: Globals, p: Inherent, st: State, fuel: nat)
    requires st.rets != [] && fuel >= 2
    ensures Interpret(p, st, Call1("TAGBODY", Nil), fuel) == Done(st.(forms := st.forms + [Nil]), st.rets[|st.rets| - 1])
    ensures Eval(g, p, Call1("TAGBODY", Nil), map[], {}, fuel) == Value(Nil, map[])
  {
    var f := Call1("TAGBODY", Nil);
    SpecialCode(f, 0);
    assert EmitSpecial(Tagbody, Nil, 0) == EmitTagbody(Nil, 0);
    var code := EmitForm(f, true, 0).code;
    assert code == [Push(Nil)] && code[0] == Push(Nil) && EmitForm(f, true, 0).status == Good;
    var st1 := st.(forms := st.forms + [Nil]);
    assert Exec(st, Push(Nil)) == Next(st1);
    assert Step(p, st, code[0], fuel - 1) == Next(st1);
    assert Run(p, code, 1, st1, fuel - 1) == Done(st1, st.rets[|st.rets| - 1]);
    assert Run(p, code, 0, st, fuel) == Run(p, code, 1, st1, fuel - 1);
  }

  /** (PROGN) emits nothing: its value is NIL, as it should be, exactly when the last return was. */
  lemma EmptyProgn(g: Globals, p: Inherent, st: State, fuel: nat)
    requires st.rets != [] && fuel >= 1
    ensures Interpret(p, st, Call1("PROGN", Nil), fuel) == Done(st, st.rets[|st.rets| - 1])
    ensures Eval(g, p, Call1("PROGN", Nil), map[], {}, fuel) == Value(Nil, map[])
  {
    var f := Call1("PROGN", Nil);
    assert EmitForm(f, true, 0) == EmitProgn(Nil, 0);
  }

  /** (LET* ()) emits nothing either. */
  lemma EmptyLet(g: Globals, p: Inherent, st: State, fuel: nat)
    requires st.rets != [] && fuel >= 1
    ensures Interpret(p, st, Call1("LET*", Cons(Nil, Nil)), fuel) == Done(st, st.rets[|st.rets| - 1])
    ensures Eval(g, p, Call1("LET*", Cons(Nil, Nil)), map[], {}, fuel) == Value(Nil, map[])
  {
    var f := Call1("LET*", Cons(Nil, Nil));
    SpecialCode(f, 0);
    assert EmitBindings(Nil, 0) == Emitted([], Good) && EmitProgn(Nil, 0) == Emitted([], Good);
    assert EmitLetStar(Cons(Nil, Nil), 0).code == [];
    assert EvalLet(g, p, Nil, Nil, map[], {}, fuel) == EvalSequence(g, p, Nil, map[], {}, fuel);
  }

  // ---- a special form as LET* value

  /**
   (LET* ((name (QUOTE a))) . body): the value goes to the last return, and BIND-VALUE finds one form too few.
   It then takes `name` for the value and whatever lies below for the symbol: with nothing below it underflows,
   with something that is no symbol the program aborts, and otherwise that symbol is bound to `name`.
   */
  lemma QuotedLetValue(p: Inherent, st: State, name: Form, a: Form, body: Form, fuel: nat)
    requires st.frames != [] && st.rets != [] && fuel >= 5 && EmitProgn(body, 6).status != Asserts
    ensures var f := Call1("LET*", Cons(Cons(Cons(name, Cons(Call1("QUOTE", Cons(a, Nil)), Nil)), Nil), body));
      var r := Interpret(p, st, f, fuel);
      var n := |st.forms|;
      if n == 0 then r.Stuck?
      else if !st.forms[n - 1].Sym? then r.Error?
      else r == Run(p, EmitForm(f, true, 0).code, 5, Misbound(st, name, a), fuel - 5)
  {
    hide Step, Jump, Exec, PushEnv, Misbound, EmitForm, EmitProgn;
    QuotedLetCode(name, a, body);
    var args := Cons(Cons(Cons(name, Cons(Call1("QUOTE", Cons(a, Nil)), Nil)), Nil), body);
    BindingGoesWrong(p, EmitForm(Call1("LET*", args), true, 0).code, st, name, a, fuel);
  }

  /** The new environment is open and returned the quoted form, `name` took the place of the symbol below, and that is bound to it. */
  function Misbound(st: State, name: Form, a: Form): State
    requires st.forms != [] && st.forms[|st.forms| - 1].Sym? && st.frames != [] && st.rets != []
  {
    var n := |st.forms|;
    var st1 := SetLastReturn(PushEnv(st, FromBytes), a);
    st1.(forms := st.forms[..n - 1] + [name],
         envs := BindValueIn(st1.envs, st1.frames[|st1.frames| - 1].env, st.forms[n - 1].sym, name))
  }

  lemma QuotedLetCode(name: Form, a: Form, body: Form)
    requires EmitProgn(body, 6).status != Asserts
    ensures var args := Cons(Cons(Cons(name, Cons(Call1("QUOTE", Cons(a, Nil)), Nil)), Nil), body);
      var e := EmitForm(Call1("LET*", args), true, 0);
      && e.status == Good && |e.code| >= 5
      && e.code[0] == PushLexicalEnv && e.code[1] == Push(name) && e.code[2] == Push(a)
      && e.code[3] == RetForm && e.code[4] == BindValue
  {
    hide *;
    var quoted := Call1("QUOTE", Cons(a, Nil));
    QuoteCode(a, 2);
    OneBindingCode(name, quoted, body, [Push(a), RetForm]);
  }

  lemma QuoteCode(a: Form, base: nat)
    ensures EmitForm(Call1("QUOTE", Cons(a, Nil)), false, base) == Emitted([Push(a), RetForm], Good)
  {
    var f := Call1("QUOTE", Cons(a, Nil));
    assert EmitForm(f, false, base) == EmitCons(f, false, base) == EmitSpecial(Quote, Cons(a, Nil), base);
  }

  /** LET* with one binding: what stands in front of the body. */
  lemma OneBindingCode(name: Form, value: Form, body: Form, code: seq<Byte>)
    requires EmitForm(value, false, 2) == Emitted(code, Good) && EmitProgn(body, |code| + 4).status != Asserts
    ensures var e := EmitForm(Call1("LET*", Cons(Cons(Cons(name, Cons(value, Nil)), Nil), body)), true, 0);
      && e.status == Good
      && e.code == [PushLexicalEnv, Push(name)] + code + [BindValue, Pop] + EmitProgn(body, |code| + 4).code + [PopLexicalEnv]
  {
    hide EmitForm, EmitProgn, EmitBindings, Repeat, LetCode;
    var vars := Cons(Cons(name, Cons(value, Nil)), Nil);
    SpecialCode(Call1("LET*", Cons(vars, body)), 0);
    BindingCode(vars, 0);
    OneBinding(vars, code);
    BodyMayFail(vars, body, 0);
    LetCodeCons(vars, body, 0);
    LetBodyCode(body, |code| + 4);
  }

  lemma OneBinding(vars: Form, code: seq<Byte>)
    requires vars.Cons? && vars.car.Cons? && vars.car.cdr.Cons? && vars.cdr.Nil?
    requires EmitForm(vars.car.cdr.car, false, 2) == Emitted(code, Good)
    ensures EmitBindings(vars, 0).status == Good && |EmitBindings(vars, 0).code| == |code| + 4
  {
    hide EmitForm;
  }

  /** A body that fails to analyze is cut short silently; only an assertion stops the analysis. */
  lemma BodyMayFail(vars: Form, body: Form, base: nat)
    requires EmitBindings(vars, base).status == Good
    requires EmitProgn(body, base + |EmitBindings(vars, base).code|).status != Asserts
    ensures EmitSpecial(LetStar, Cons(vars, body), base) == Emitted(LetCode(vars, body, base), Good)
  {
    hide EmitBindings, EmitProgn, Repeat, Elements;
  }

  lemma BindingGoesWrong(p: Inherent, code: seq<Byte>, st: State, name: Form, a: Form, fuel: nat)
    requires st.frames != [] && st.rets != [] && fuel >= 5 && |code| >= 5
    requires code[0] == PushLexicalEnv && code[1] == Push(name) && code[2] == Push(a) && code[3] == RetForm && code[4] == BindValue
    ensures var r := Run(p, code, 0, st, fuel);
      var n := |st.forms|;
      if n == 0 then r.Stuck?
      else if !st.forms[n - 1].Sym? then r.Error?
      else r == Run(p, code, 5, Misbound(st, name, a), fuel - 5)
  {
    hide Step, Jump, Exec, PushEnv, Misbound;
    PushedFacts(st);
    BindingPrefix(p, code, st, name, fuel);
    var st2 := PushEnv(st, FromBytes).(forms := st.forms + [name]);
    var st4 := SetLastReturn(st2, a);
    ReturnInBinding(p, code, st2, a, fuel - 2);
    BindTakesBelow(st, name, a);
    StepIsExec(p, st4, code[4], fuel - 5);
    if st.forms != [] && st.forms[|st.forms| - 1].Sym? {
      RunStep(p, code, 4, st4, Misbound(st, name, a), fuel - 4);
    } else {
      RunFails(p, code, 4, st4, fuel - 4);
    }
  }

  lemma ReturnInBinding(p: Inherent, code: seq<Byte>, st: State, a: Form, fuel: nat)
    requires st.rets != [] && fuel >= 3 && |code| >= 5 && code[2] == Push(a) && code[3] == RetForm
    ensures Run(p, code, 2, st, fuel) == Run(p, code, 4, SetLastReturn(st, a), fuel - 2)
  {
    hide Step, Jump, Exec;
    var st3 := st.(forms := st.forms + [a]);
    PushAndReturn(st, a);
    RunStep(p, code, 2, st, st3, fuel);
    RunStep(p, code, 3, st3, SetLastReturn(st, a), fuel - 1);
  }

  lemma RunFails(p: Inherent, code: seq<Byte>, i: nat, st: State, fuel: nat)
    requires i < |code| && fuel > 0
    requires Step(p, st, code[i], fuel - 1).Stuck? || Step(p, st, code[i], fuel - 1).Error?
    ensures Step(p, st, code[i], fuel - 1).Stuck? ==> Run(p, code, i, st, fuel).Stuck?
    ensures Step(p, st, code[i], fuel - 1).Error? ==> Run(p, code, i, st, fuel).Error?
  {
    hide Step;
  }

  lemma StepIsExec(p: Inherent, st: State, b: Byte, fuel: nat)
    requires !b.Funcall?
    ensures Step(p, st, b, fuel) == Exec(st, b)
  {
  }

  lemma BindingPrefix(p: Inherent, code: seq<Byte>, st: State, name: Form, fuel: nat)
    requires st.frames != [] && fuel >= 2 && |code| >= 2 && code[0] == PushLexicalEnv && code[1] == Push(name)
    ensures Run(p, code, 0, st, fuel) == Run(p, code, 2, PushEnv(st, FromBytes).(forms := st.forms + [name]), fuel - 2)
  {
    hide Step, Jump;
    var st1 := PushEnv(st, FromBytes);
    RunStep(p, code, 0, st, st1, fuel);
    RunStep(p, code, 1, st1, st1.(forms := st.forms + [name]), fuel - 1);
  }

  lemma PushAndReturn(st: State, a: Form)
    requires st.rets != []
    ensures Exec(st, Push(a)) == Next(st.(forms := st.forms + [a]))
    ensures Exec(st.(forms := st.forms + [a]), RetForm) == Next(SetLastReturn(st, a))
  {
    assert (st.forms + [a])[..|st.forms|] == st.forms;
  }

  lemma BindTakesBelow(st: State, name: Form, a: Form)
    requires st.frames != [] && st.rets != []
    ensures var st2 := PushEnv(st, FromBytes).(forms := st.forms + [name]);
      var n := |st.forms|;
      && st2.rets != []
      && var r := Exec(SetLastReturn(st2, a), BindValue);
      if n == 0 then r.Stuck?
      else if !st.forms[n - 1].Sym? then r.Error?
      else r == Next(Misbound(st, name, a))
  {
    if st.forms != [] { assert (st.forms + [name])[..|st.forms| - 1] == st.forms[..|st.forms| - 1]; }
  }

  // ---- GO out of a call's argument

  /**
   The call neither jumps nor cleans up: its frame and its scratch slot stay behind, and the tag
   itself becomes the value of the call.
   */
  lemma GoOutOfCall(p: Inherent, st: State, under: seq<Form>, fn: nat, tag: Form, fuel: nat)
    requires |st.frames| > 0 && st.forms == under + [Fn(fn), Call1("GO", Cons(tag, Nil))]
    requires ValidTag(st, tag) && fuel >= 2
    requires |st.envs| !in st.tags
    ensures var opened' := PushEnv(st, FromFuncall);
      Step(p, st, Funcall(1), fuel) == Next(opened'.(forms := st.forms + [Nil, tag]))
  {
    hide EmitForm, ValidTag, HandleGo, Run;
    var st1 := PushEnv(st, FromFuncall);
    var st2 := st1.(forms := st.forms + [Nil]);
    StillValid(st, st2, tag);
    GoReturns(p, st2, tag, fuel);
    assert st2.forms[|under| + 1] == Call1("GO", Cons(tag, Nil));
    assert EvalArgs(p, st2, |under|, 1, 0, fuel) == ArgsGo(st2, tag);
    assert Call(p, st, 1, fuel) == GoOut(st2, tag);
    assert st.forms + [Nil] + [tag] == st.forms + [Nil, tag];
  }

  /** A tag stays valid under a call's frame, and the GO is not the call frame's to take. */
  lemma StillValid(st: State, st2: State, tag: Form)
    requires |st.frames| > 0 && ValidTag(st, tag) && |st.envs| !in st.tags
    requires st2 == PushEnv(st, FromFuncall).(forms := st2.forms)
    ensures ValidTag(st2, tag) && HandleGo(st2, tag) == Return(st2)
  {
    var i :| 0 <= i < |st.frames| && Binds(st, st.frames[i].env, tag);
    assert st2.frames[i] == st.frames[i] && Binds(st2, st2.frames[i].env, tag);
  }

  lemma GoReturns(p: Inherent, st: State, tag: Form, fuel: nat)
    requires st.frames != [] && ValidTag(st, tag) && HandleGo(st, tag) == Return(st) && fuel >= 1
    ensures var e := EmitForm(Call1("GO", Cons(tag, Nil)), true, 0);
      e.status == Good && Run(p, e.code, 0, st, fuel) == GoOut(st, tag)
  {
    hide HandleGo, ValidTag;
    var go := Call1("GO", Cons(tag, Nil));
    SpecialCode(go, 0);
    assert EmitForm(go, true, 0).code == [GoReturn(tag)];
  }

  lemma PushedFacts(st: State)
    requires st.frames != []
    ensures var st1 := PushEnv(st, FromBytes);
      && st1.forms == st.forms && st1.packages == st.packages && |st1.rets| == |st.rets| + 1
      && |st1.frames| == |st.frames| + 1 && st1.frames[|st.frames|].env == |st.envs|
  {
  }
}
