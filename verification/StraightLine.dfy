/**
 The fixed instruction patterns, each as a segment of a run: single instructions, the pushes of a call's
 arguments, returns, environment pops, and the jump through a GO. With them atoms, quoted forms and GOs,
 the forms whose code has no parts, already simulate their evaluation.
 */
module StraightLine {
  import opened Forms
  import opened Bytecode
  import opened Machine
  import opened Evaluator
  import opened Runs
  import opened FrameChain
  import opened Simulation

  lemma FormsFree(g: Globals, st: State, forms: seq<Form>)
    requires Inv(g, st)
    ensures var st1 := st.(forms := forms);
      Inv(g, st1) && Keeps(st, st1) && Vars(st1) == Vars(st)
  {
    hide GlobalsMatch, StoreOf;
  }

  lemma ReturnFree(g: Globals, st: State, v: Form, forms: seq<Form>)
    requires Inv(g, st) && st.rets != []
    ensures var st1 := SetLastReturn(st, v).(forms := forms);
      Inv(g, st1) && Keeps(st, st1) && Vars(st1) == Vars(st) && st1.rets[|st1.rets| - 1] == v
  {
    hide GlobalsMatch, StoreOf;
  }

  lemma PushLeads(p: Inherent, code: seq<Byte>, pc: nat, st: State, f: Form)
    requires pc < |code| && code[pc] == Push(f)
    ensures Leads(p, code, pc, st, pc + 1, st.(forms := st.forms + [f]))
  {
    hide Leads;
    LeadsOneStep(p, code, pc, st, st.(forms := st.forms + [f]));
  }

  lemma ErrorStep(p: Inherent, code: seq<Byte>, pc: nat, st: State)
    requires pc < |code| && !code[pc].Funcall? && Exec(st, code[pc]) == StepResult.Error
    ensures Answers(p, code, pc, st, Outcome.Error)
  {
    hide Exec;
    assert Run(p, code, pc, st, 1) == Outcome.Error;
  }

  lemma {:induction false} PushesLead(p: Inherent, code: seq<Byte>, pc: nat, st: State, args: seq<Form>)
    requires CodeAt(code, pc, EmitPushes(args))
    ensures Leads(p, code, pc, st, pc + |args|, st.(forms := st.forms + args))
    decreases |args|
  {
    hide Run, Leads;
    if args == [] {
      assert st.forms + [] == st.forms;
      LeadsNowhere(p, code, pc, st);
    } else {
      var st1 := st.(forms := st.forms + [args[0]]);
      CodeAtIndex(code, pc, EmitPushes(args), 0);
      PushLeads(p, code, pc, st, args[0]);
      CodeAtSplit(code, pc, [Push(args[0])], EmitPushes(args[1..]));
      PushesLead(p, code, pc + 1, st1, args[1..]);
      assert st1.forms + args[1..] == st.forms + args;
      LeadsCompose(p, code, pc, st, pc + 1, st1, pc + |args|, st.(forms := st.forms + args));
    }
  }

  lemma LeadsNowhere(p: Inherent, code: seq<Byte>, pc: nat, st: State)
    ensures Leads(p, code, pc, st, pc, st)
  {
    hide Run;
  }

  /** RetForm moves the value from the form stack to the last return. */
  lemma RetLeads(g: Globals, p: Inherent, code: seq<Byte>, pc: nat, st: State, forms: seq<Form>, v: Form) returns (st1: State)
    requires Inv(g, st) && pc < |code| && code[pc] == RetForm && st.forms == forms + [v]
    ensures Inv(g, st1) && Keeps(st, st1) && Vars(st1) == Vars(st) && st1.forms == forms
    ensures st1.rets[|st1.rets| - 1] == v
    ensures Leads(p, code, pc, st, pc + 1, st1)
  {
    hide GlobalsMatch, Leads;
    assert st.forms[..|st.forms| - 1] == forms;
    st1 := SetLastReturn(st.(forms := forms), v);
    LeadsOneStep(p, code, pc, st, st1);
  }

  /** PopLexicalEnv after code that ended normally inside a pushed environment. */
  lemma PopLeads(g: Globals, p: Inherent, code: seq<Byte>, pc: nat, st: State, st1: State)
    requires Inv(g, st) && Inv(g, st1) && Inside(st, st1)
    requires pc < |code| && code[pc] == PopLexicalEnv
    ensures CanPopEnv(st1) && Leads(p, code, pc, st1, pc + 1, PopEnv(st1))
  {
    PopFacts(g, st, st1);
    hide GlobalsMatch, Leads, Inside, Keeps, Linked;
    LeadsOneStep(p, code, pc, st1, PopEnv(st1));
  }

  lemma JumpThrough(p: Inherent, code: seq<Byte>, st: State, tag: Form, fuel: nat)
    requires CanPopEnv(st)
    requires st.frames[|st.frames| - 1].source == FromBytes && !Binds(st, st.frames[|st.frames| - 1].env, tag)
    ensures Jump(p, code, st, tag, fuel) == Jump(p, code, PopEnv(st), tag, fuel)
  {
    hide Run, Binds;
    assert HandleGo(st, tag) == HandleGo(PopEnv(st), tag);
  }

  /** A GO unwinds through a bytecode environment that does not bind its tag. */
  lemma GoThrough(p: Inherent, code: seq<Byte>, pc: nat, st: State, st1: State, tag: Form)
    requires CanPopEnv(st1)
    requires st1.frames[|st1.frames| - 1].source == FromBytes && !Binds(st1, st1.frames[|st1.frames| - 1].env, tag)
    requires LeadsToGo(p, code, pc, st, tag, st1)
    ensures LeadsToGo(p, code, pc, st, tag, PopEnv(st1))
  {
    hide Run, Answers, Jump, Binds;
    var st2 := PopEnv(st1);
    forall fuel: nat
      ensures Jump(p, code, st1, tag, fuel) == Jump(p, code, st2, tag, fuel)
    {
      JumpThrough(p, code, st1, tag, fuel);
    }
  }

  lemma SimAtom(g: Globals, p: Inherent, f: Form, live: set<Form>,
                code: seq<Byte>, pc: nat, base: nat, st: State, fuel: nat) returns (st': State)
    requires Inv(g, st) && !f.Cons? && !f.Sym? && CodeAt(code, pc, EmitForm(f, false, base).code)
    ensures Simulates(g, p, code, pc, st, pc + |EmitForm(f, false, base).code|, st', {}, fuel,
                      Eval(g, p, f, Vars(st), live, fuel), OnStack)
  {
    hide Inv, Keeps, Leads, StoreOf, CodeAt;
    st' := st.(forms := st.forms + [f]);
    assert EmitForm(f, false, base).code == [Push(f)];
    CodeAtIndex(code, pc, [Push(f)], 0);
    PushLeads(p, code, pc, st, f);
    FormsFree(g, st, st'.forms);
  }

  lemma SimQuote(g: Globals, p: Inherent, f: Form, tags: set<Form>, code: seq<Byte>, pc: nat, st: State, fuel: nat) returns (st': State)
    requires Inv(g, st) && CodeAt(code, pc, [Push(f), RetForm])
    ensures Simulates(g, p, code, pc, st, pc + 2, st', tags, fuel, Value(f, Vars(st)), LastReturn)
  {
    hide *;
    CodeAtIndex(code, pc, [Push(f), RetForm], 0);
    CodeAtIndex(code, pc, [Push(f), RetForm], 1);
    var st1 := st.(forms := st.forms + [f]);
    PushLeads(p, code, pc, st, f);
    FormsFree(g, st, st1.forms);
    st' := RetLeads(g, p, code, pc + 1, st1, st.forms, f);
    KeepsTransitive(st, st1, st');
    LeadsCompose(p, code, pc, st, pc + 1, st1, pc + 2, st');
    InvOk(g, st');
    ValueMade(g, p, code, pc, st, pc + 2, st', tags, fuel, Value(f, Vars(st)), LastReturn);
  }

  /** GO to a live tag starts unwinding; GO to any other form is an error. */
  lemma SimGo(g: Globals, p: Inherent, tag: Form, tags: set<Form>, live: set<Form>,
              code: seq<Byte>, pc: nat, base: nat, st: State, fuel: nat)
    requires Inv(g, st) && LiveTags(st, live) && CodeAt(code, pc, [GoReturn(tag)]) && (tag in tags || tag !in live)
    ensures Simulates(g, p, code, pc, st, pc + 1, st, tags, fuel,
                      if tag in live then Transfer(tag, Vars(st)) else Result.Error, LastReturn)
  {
    hide Inv, Keeps, StoreOf, CodeAt, LeadsToGo, Answers, ValidTag;
    CodeAtIndex(code, pc, [GoReturn(tag)], 0);
    InvOk(g, st);
    assert tag in live <==> ValidTag(st, tag);
    if tag in live {
      LeadsOneGo(p, code, pc, st, tag);
      FormsFree(g, st, st.forms);
    } else {
      ErrorStep(p, code, pc, st);
    }
  }

  /** RetForm after a value on the form stack. */
  lemma ValueReturned(g: Globals, p: Inherent, code: seq<Byte>, pc: nat, st: State, end: nat, st1: State,
                      tags: set<Form>, fuel: nat, r: Result) returns (st': State)
    requires Simulates(g, p, code, pc, st, end, st1, {}, fuel, r, OnStack)
    requires end < |code| && code[end] == RetForm
    ensures Simulates(g, p, code, pc, st, end + 1, st', tags, fuel, r, LastReturn)
  {
    hide *;
    st' := st1;
    if r.Value? {
      ValueParts(g, p, code, pc, st, end, st1, {}, fuel, r, OnStack);
      st' := RetLeads(g, p, code, end, st1, st.forms, r.v);
      KeepsTransitive(st, st1, st');
      LeadsCompose(p, code, pc, st, end, st1, end + 1, st');
      InvOk(g, st');
      ValueMade(g, p, code, pc, st, end + 1, st', tags, fuel, r, LastReturn);
    } else {
      NoValueAnywhere(g, p, code, pc, st, end, st1, {}, fuel, r, OnStack, end + 1, tags, LastReturn);
    }
  }
}
