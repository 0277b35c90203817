/**
 The machine running analyzed code follows the reference evaluator: the relation between an evaluation and
 a run, what pushing and popping an environment does to it, and how the relation is used and rebuilt when
 pieces of code are put together.
 */
module Simulation {
  import opened Forms
  import opened Bytecode
  import opened Machine
  import opened Evaluator
  import opened Runs
  import opened FrameChain

  // ---- analysis of a compilable form succeeds

  lemma {:induction false} CompilableEmits(f: Form, nested: bool, tags: set<Form>, live: set<Form>, withRet: bool, base: nat)
    requires Compilable(f, nested, tags, live)
    ensures EmitForm(f, withRet, base).status == Good
    decreases f, 2
  {
    if f.Cons? {
      var special := SpecialOf(f.car.sym.lexeme);
      if special != NotSpecial {
        assert EmitForm(f, withRet, base) == EmitCons(f, withRet, base) == EmitSpecial(special, f.cdr, base);
      }
      match special {
        case Progn => SequenceEmits(f.cdr, nested, tags, live, base);
        case LetStar =>
          BindingsEmit(f.cdr.car, live, base);
          SequenceEmits(f.cdr.cdr, nested, tags, live, base + |EmitBindings(f.cdr.car, base).code|);
          assert EmitSpecial(LetStar, f.cdr, base) == EmitLetStar(f.cdr, base);
        case Tagbody =>
          var own := TagsOf(f.cdr);
          StatementsEmit(f.cdr, if nested then tags - own else own, live + own, 0);
          assert EmitSpecial(Tagbody, f.cdr, base) == EmitTagbody(f.cdr, base);
        case NotSpecial => AllCompilableProper(f.cdr, live);
        case _ =>
      }
    }
  }

  lemma {:induction false} AllCompilableProper(args: Form, live: set<Form>)
    requires AllCompilable(args, false, {}, live)
    ensures ProperList(args)
  {
    if args.Cons? {
      AllCompilableProper(args.cdr, live);
    }
  }

  lemma {:induction false} SequenceEmits(forms: Form, nested: bool, tags: set<Form>, live: set<Form>, base: nat)
    requires AllCompilable(forms, nested, tags, live)
    ensures EmitProgn(forms, base).status == Good
    decreases forms, 3
  {
    if forms.Cons? {
      CompilableEmits(forms.car, nested, tags, live, true, base);
      SequenceEmits(forms.cdr, nested, tags, live, base + |EmitForm(forms.car, true, base).code|);
    }
  }

  lemma {:induction false} BindingsEmit(vars: Form, live: set<Form>, base: nat)
    requires CompilableBindings(vars, live)
    ensures EmitBindings(vars, base).status == Good
    decreases vars, 3
  {
    if vars.Cons? {
      var value := ValueForm(vars.car);
      ValueEmits(value, live, base + 2);
      BindingsEmit(vars.cdr, live, base + 2 + |EmitForm(value, false, base + 2).code| + 2);
    }
  }

  lemma {:induction false} ValueEmits(f: Form, live: set<Form>, base: nat)
    requires CompilableValue(f, live)
    ensures EmitForm(f, false, base).status == Good
    decreases f, 3
  {
    if f.Cons? {
      AllCompilableProper(f.cdr, live);
    }
  }

  lemma {:induction false} StatementsEmit(statements: Form, tags: set<Form>, live: set<Form>, pos: nat)
    requires CompilableStatements(statements, tags, live)
    ensures EmitStatements(statements, pos).status == Good
    decreases statements, 3
  {
    if statements.Cons? {
      if statements.car.Cons? {
        CompilableEmits(statements.car, true, tags, live, true, pos);
        StatementsEmit(statements.cdr, tags, live, pos + |EmitForm(statements.car, true, pos).code|);
      } else {
        StatementsEmit(statements.cdr, tags, live, pos);
      }
    }
  }

  // ---- pushing and popping an environment

  /** st1 is inside an environment pushed on st. */
  ghost predicate Inside(st: State, st1: State) {
    && |st1.frames| == |st.frames| + 1
    && st1.frames[..|st.frames|] == st.frames
    && st1.frames[|st.frames|].env == |st.envs| < |st1.envs|
    && st1.packages == st.packages
    && st1.order == st.order
    && |st.rets| > 0
    && |st1.rets| == |st.rets| + 1
    && st1.rets[..|st.rets|] == st.rets
    && EnvsKept(st.envs, st1.envs)
    && (forall id :: id < |st.envs| ==>
          (id in st1.tags <==> id in st.tags) && (id in st.tags ==> st1.tags[id] == st.tags[id]))
  }

  ghost function Vars(st: State): Store {
    StoreOf(st.envs, st.frames)
  }

  ghost predicate LiveTags(st: State, live: set<Form>) {
    forall t :: t in live <==> ValidTag(st, t)
  }

  lemma PushInside(st: State, source: Source)
    requires st.frames != [] && |st.rets| > 0
    requires forall id :: id in st.tags ==> id < |st.envs|
    ensures var st1 := PushEnv(st, source); Inside(st, st1) && GlobalsKept(st, st1)
  {
    
  }

  ghost predicate GlobalsKept(st: State, st1: State) {
    st1.packages == st.packages && |st.envs| <= |st1.envs| && st1.envs[..|st.envs|] == st.envs
  }

  lemma GlobalsStillMatch(g: Globals, st: State, st1: State)
    requires GlobalsMatch(g, st.envs, st.packages) && GlobalsKept(st, st1)
    ensures GlobalsMatch(g, st1.envs, st1.packages)
  {
    forall q | q in st.packages
      ensures st.packages[q] < |st.envs| && st1.envs[st.packages[q]] == st.envs[st.packages[q]]
    {
      assert st1.envs[..|st.envs|][st.packages[q]] == st.envs[st.packages[q]];
    }
  }

  lemma PushFacts(g: Globals, st: State, source: Source)
    requires Inv(g, st) && source != FromBase && st.frames != []
    ensures var st1 := PushEnv(st, source);
      && Inv(g, st1)
      && Inside(st, st1)
      && Vars(st1) == Vars(st)
      && st1.envs[|st.envs|].values == map[]
      && |st.envs| !in st1.tags
      && st1.forms == st.forms
  {
    hide GlobalsMatch, Inside, EnvsKept, Linked, StoreOf;
    var st1 := PushEnv(st, source);
    PushInside(st, source);
    GlobalsStillMatch(g, st, st1);
    PushLinked(st, st.packages[g.home], g.home, source);
  }

  lemma PushLinked(st: State, base: nat, home: string, source: Source)
    requires Linked(st.envs, base, home, st.frames) && source != FromBase
    ensures var st1 := PushEnv(st, source);
      Linked(st1.envs, base, home, st1.frames) && Vars(st1) == Vars(st)
  {
    
    var st1 := PushEnv(st, source);
    LinkedBounds(st.envs, base, home, st.frames);
    assert st1.frames[..|st1.frames| - 1] == st.frames;
    LinkedKept(st.envs, st1.envs, base, home, st.frames);
    StoreSame(st.envs, st1.envs, base, home, st.frames);
    assert Vars(st1) == StoreOf(st1.envs, st.frames) + map[];
  }

  lemma InsideKeeps(st: State, a: State, b: State)
    requires Inside(st, a) && Keeps(a, b)
    ensures Inside(st, b)
  {
    assert b.rets[..|st.rets|] == a.rets[..|st.rets|];
    forall i | 0 <= i < |st.envs|
      ensures b.envs[i] == st.envs[i].(values := b.envs[i].values) && b.envs[i].values.Keys == st.envs[i].values.Keys
    {
      assert b.envs[i] == a.envs[i].(values := b.envs[i].values);
    }
  }

  lemma PopKeeps(st: State, st1: State)
    requires Inside(st, st1)
    ensures CanPopEnv(st1) && Keeps(st, PopEnv(st1))
  {
    hide EnvsKept;
    var st2 := PopEnv(st1);
    assert st1.frames[..|st1.frames| - 1] == st.frames;
    assert st2.rets[..|st.rets| - 1] == st1.rets[..|st.rets|][..|st.rets| - 1];
  }

  lemma PopFacts(g: Globals, st: State, st1: State)
    requires Inv(g, st) && Inv(g, st1) && Inside(st, st1)
    ensures CanPopEnv(st1)
    ensures var st2 := PopEnv(st1);
      && Inv(g, st2)
      && Keeps(st, st2)
      && st2.forms == st1.forms
      && st2.rets[|st2.rets| - 1] == st1.rets[|st1.rets| - 1]
      && Vars(st1) == Vars(st2) + st1.envs[|st.envs|].values
      && Vars(st2).Keys == Vars(st).Keys
  {
    PopKeeps(st, st1);
    PopVars(st.packages[g.home], g.home, st, st1);
    hide GlobalsMatch, EnvsKept, Keeps, StoreOf, Linked;
    var st2 := PopEnv(st1);
    assert st2.rets[|st2.rets| - 1] == st1.rets[|st1.rets| - 1];
  }

  lemma PopVars(base: nat, home: string, st: State, st1: State)
    requires Linked(st.envs, base, home, st.frames) && Linked(st1.envs, base, home, st1.frames) && Inside(st, st1)
    ensures CanPopEnv(st1)
    ensures var st2 := PopEnv(st1);
      && Linked(st2.envs, base, home, st2.frames)
      && Vars(st1) == Vars(st2) + st1.envs[|st.envs|].values
      && Vars(st2).Keys == Vars(st).Keys
  {
    hide EnvsKept;
    var st2 := PopEnv(st1);
    assert st1.frames[..|st1.frames| - 1] == st.frames;
    StoreKeysKept(st.envs, st2.envs, base, home, st.frames);
  }

  lemma LiveKept(g: Globals, st: State, st1: State, live: set<Form>)
    requires Inv(g, st) && LiveTags(st, live) && Keeps(st, st1)
    ensures LiveTags(st1, live)
  {
    LinkedBounds(st.envs, st.packages[g.home], g.home, st.frames);
    hide Linked, GlobalsMatch, EnvsKept;
    forall t
      ensures ValidTag(st1, t) <==> ValidTag(st, t)
    {
      forall i | 0 <= i < |st.frames|
        ensures Binds(st1, st.frames[i].env, t) == Binds(st, st.frames[i].env, t)
      {
      }
    }
  }

  /** Inside a pushed environment, its own tags are valid too. */
  lemma LiveInside(g: Globals, st: State, st1: State, live: set<Form>, own: set<Form>)
    requires Inv(g, st) && LiveTags(st, live) && Inside(st, st1)
    requires forall t :: Binds(st1, |st.envs|, t) <==> t in own
    ensures LiveTags(st1, live + own)
  {
    LinkedBounds(st.envs, st.packages[g.home], g.home, st.frames);
    hide Linked, GlobalsMatch, EnvsKept;
    forall t
      ensures ValidTag(st1, t) <==> t in live + own
    {
      assert t in live <==> ValidTag(st, t);
      forall i | 0 <= i < |st.frames|
        ensures st1.frames[i] == st.frames[i] && Binds(st1, st1.frames[i].env, t) == Binds(st, st.frames[i].env, t)
      {
        assert st1.frames[..|st.frames|][i] == st.frames[i];
      }
      if t in own {
        assert Binds(st1, st1.frames[|st.frames|].env, t);
      }
      if ValidTag(st, t) {
        var i :| 0 <= i < |st.frames| && Binds(st, st.frames[i].env, t);
        assert Binds(st1, st1.frames[i].env, t);
      }
    }
  }

  // ---- the relation between an evaluation and a run

  /** Where a piece of code leaves its value. */
  datatype Delivery = OnStack | LastReturn | Nowhere

  /**
   The run from (pc, st) mirrors the evaluation result r. A value is delivered as `how` says. A GO keeps unwinding from st'.
   */
  ghost predicate Simulates(g: Globals, p: Inherent, code: seq<Byte>, pc: nat, st: State, end: nat, st': State,
                            tags: set<Form>, fuel: nat, r: Result, how: Delivery)
  {
    match r
    case Value(v, store) =>
      && Inv(g, st') && Keeps(st, st') && Vars(st') == store
      && st'.forms == (if how.OnStack? then st.forms + [v] else st.forms)
      && (how.LastReturn? ==> st'.rets[|st'.rets| - 1] == v)
      && Leads(p, code, pc, st, end, st')
    case Transfer(tag, store) =>
      && Inv(g, st') && Keeps(st, st') && Vars(st') == store
      && st'.forms == st.forms
      && tag in tags
      && LeadsToGo(p, code, pc, st, tag, st')
    case Error => Answers(p, code, pc, st, Outcome.Error)
    case Timeout => forall m: nat :: m <= fuel ==> Run(p, code, pc, st, m).OutOfFuel?
  }

  lemma SimulatesFrom(g: Globals, p: Inherent, code: seq<Byte>, pc: nat, st: State, pc1: nat, st1: State,
                      end: nat, st': State, tags: set<Form>, fuel: nat, r: Result, how: Delivery)
    requires Keeps(st, st1) && st1.forms == st.forms
    requires Leads(p, code, pc, st, pc1, st1)
    requires Simulates(g, p, code, pc1, st1, end, st', tags, fuel, r, how)
    ensures Simulates(g, p, code, pc, st, end, st', tags, fuel, r, how)
  {
    hide Leads, LeadsToGo, Keeps, Run, Answers, StoreOf, Inv;
    match r {
      case Value(_, _) =>
        KeepsTransitive(st, st1, st');
        LeadsCompose(p, code, pc, st, pc1, st1, end, st');
      case Transfer(tag, _) =>
        KeepsTransitive(st, st1, st');
        LeadsToGoCompose(p, code, pc, st, pc1, st1, tag, st');
      case Error => AnswersBack(p, code, pc, st, pc1, st1, Outcome.Error);
      case Timeout => TimeoutBack(p, code, pc, st, pc1, st1, fuel);
    }
  }

  lemma InvOk(g: Globals, st: State)
    requires Inv(g, st)
    ensures |st.frames| == |st.rets| > 0
  {
  }

  lemma TimeoutBack(p: Inherent, code: seq<Byte>, pc: nat, st: State, pc1: nat, st1: State, fuel: nat)
    requires Leads(p, code, pc, st, pc1, st1)
    requires forall m: nat :: m <= fuel ==> Run(p, code, pc1, st1, m).OutOfFuel?
    ensures forall m: nat :: m <= fuel ==> Run(p, code, pc, st, m).OutOfFuel?
  {
    hide Run, Answers;
  }

  // ---- using and rebuilding the relation

  lemma ValueParts(g: Globals, p: Inherent, code: seq<Byte>, pc: nat, st: State, end: nat, st': State,
                   tags: set<Form>, fuel: nat, r: Result, how: Delivery)
    requires Simulates(g, p, code, pc, st, end, st', tags, fuel, r, how) && r.Value?
    ensures Inv(g, st') && Keeps(st, st') && Vars(st') == r.store
    ensures st'.forms == (if how.OnStack? then st.forms + [r.v] else st.forms)
    ensures how.LastReturn? ==> |st'.rets| > 0 && st'.rets[|st'.rets| - 1] == r.v
    ensures Leads(p, code, pc, st, end, st')
  {
    hide Keeps, Leads, LeadsToGo, Answers, Run, StoreOf;
  }

  lemma ValueMade(g: Globals, p: Inherent, code: seq<Byte>, pc: nat, st: State, end: nat, st': State,
                  tags: set<Form>, fuel: nat, r: Result, how: Delivery)
    requires r.Value? && Inv(g, st') && Keeps(st, st') && Vars(st') == r.store
    requires st'.forms == (if how.OnStack? then st.forms + [r.v] else st.forms)
    requires how.LastReturn? ==> |st'.rets| > 0 && st'.rets[|st'.rets| - 1] == r.v
    requires Leads(p, code, pc, st, end, st')
    ensures Simulates(g, p, code, pc, st, end, st', tags, fuel, r, how)
  {
    hide Keeps, Leads, LeadsToGo, Answers, Run, StoreOf, Inv;
  }

  lemma ErrorMade(g: Globals, p: Inherent, code: seq<Byte>, pc: nat, st: State, end: nat, st': State,
                  tags: set<Form>, fuel: nat, how: Delivery)
    requires Answers(p, code, pc, st, Outcome.Error)
    ensures Simulates(g, p, code, pc, st, end, st', tags, fuel, Result.Error, how)
  {
    hide Answers;
  }

  /** When there is no value, the end of the code does not matter. */
  lemma NoValueAnywhere(g: Globals, p: Inherent, code: seq<Byte>, pc: nat, st: State, end: nat, st': State,
                        tags: set<Form>, fuel: nat, r: Result, how: Delivery, end2: nat, tags2: set<Form>, how2: Delivery)
    requires Simulates(g, p, code, pc, st, end, st', tags, fuel, r, how) && !r.Value?
    requires r.Transfer? && r.tag in tags ==> r.tag in tags2
    ensures Simulates(g, p, code, pc, st, end2, st', tags2, fuel, r, how2)
  {
    hide Keeps, Leads, LeadsToGo, Answers, Run, StoreOf, Inv;
  }

  /** An error or a timeout behind a prefix that changed the stacks. */
  lemma FailureFrom(g: Globals, p: Inherent, code: seq<Byte>, pc: nat, st: State, pc1: nat, st1: State,
                    end: nat, st': State, fuel: nat, r: Result, how: Delivery, end2: nat, tags2: set<Form>, how2: Delivery)
    requires Leads(p, code, pc, st, pc1, st1)
    requires Simulates(g, p, code, pc1, st1, end, st', {}, fuel, r, how) && !r.Value?
    ensures Simulates(g, p, code, pc, st, end2, st', tags2, fuel, r, how2)
  {
    hide Keeps, Leads, LeadsToGo, Answers, Run, StoreOf, Inv;
    if r.Error? {
      AnswersBack(p, code, pc, st, pc1, st1, Outcome.Error);
    } else if r.Timeout? {
      TimeoutBack(p, code, pc, st, pc1, st1, fuel);
    }
  }

  /** A GO that resumes at the tag's index goes on from there, one step later. */
  lemma ResumeFrom(g: Globals, p: Inherent, code: seq<Byte>, pc: nat, st: State, tag: Form, index: nat, st1: State,
                   end: nat, st': State, tags: set<Form>, fuel: nat, r: Result, how: Delivery)
    requires LeadsToGo(p, code, pc, st, tag, st1) && HandleGo(st1, tag) == Resume(st1, index)
    requires Keeps(st, st1) && st1.forms == st.forms && fuel > 0
    requires Simulates(g, p, code, index, st1, end, st', tags, fuel - 1, r, how)
    ensures Simulates(g, p, code, pc, st, end, st', tags, fuel, r, how)
  {
    hide Keeps, StoreOf, Inv, Simulates, Leads, LeadsToGo, HandleGo, Answers, Run;
    ResumeLeads(p, code, pc, st, tag, index, st1);
    if r.Timeout? {
      ResumeTimeout(g, p, code, pc, st, tag, index, st1, end, st', tags, fuel, how);
    } else {
      FuelFree(g, p, code, index, st1, end, st', tags, fuel - 1, r, how, fuel);
      SimulatesFrom(g, p, code, pc, st, index, st1, end, st', tags, fuel, r, how);
    }
  }

  lemma ResumeLeads(p: Inherent, code: seq<Byte>, pc: nat, st: State, tag: Form, index: nat, st1: State)
    requires LeadsToGo(p, code, pc, st, tag, st1) && HandleGo(st1, tag) == Resume(st1, index)
    ensures Leads(p, code, pc, st, index, st1)
  {
    hide Run, HandleGo, Answers;
    forall fuel: nat
      ensures Jump(p, code, st1, tag, fuel) == Run(p, code, index, st1, fuel)
    {
    }
    forall fuel: nat | Run(p, code, index, st1, fuel).OutOfFuel?
      ensures Run(p, code, pc, st, fuel).OutOfFuel?
    {
      assert Jump(p, code, st1, tag, fuel).OutOfFuel?;
      if !Run(p, code, pc, st, fuel).OutOfFuel? {
        RunMonotone(p, code, pc, st, fuel, fuel + 1);
      }
    }
  }

  lemma ResumeTimeout(g: Globals, p: Inherent, code: seq<Byte>, pc: nat, st: State, tag: Form, index: nat, st1: State,
                      end: nat, st': State, tags: set<Form>, fuel: nat, how: Delivery)
    requires LeadsToGo(p, code, pc, st, tag, st1) && HandleGo(st1, tag) == Resume(st1, index) && fuel > 0
    requires Simulates(g, p, code, index, st1, end, st', tags, fuel - 1, Result.Timeout, how)
    ensures Simulates(g, p, code, pc, st, end, st', tags, fuel, Result.Timeout, how)
  {
    hide Run, HandleGo, Answers;
    forall m: nat | m <= fuel
      ensures Run(p, code, pc, st, m).OutOfFuel?
    {
      if m > 0 {
        assert Run(p, code, index, st1, m - 1).OutOfFuel?;
        assert Jump(p, code, st1, tag, m - 1).OutOfFuel?;
      } else {
        RunZero(p, code, pc, st);
      }
    }
  }

  lemma RunZero(p: Inherent, code: seq<Byte>, pc: nat, st: State)
    ensures Run(p, code, pc, st, 0).OutOfFuel?
  {
  }

  lemma FuelFree(g: Globals, p: Inherent, code: seq<Byte>, pc: nat, st: State, end: nat, st': State,
                 tags: set<Form>, fuel: nat, r: Result, how: Delivery, fuel2: nat)
    requires Simulates(g, p, code, pc, st, end, st', tags, fuel, r, how) && !r.Timeout?
    ensures Simulates(g, p, code, pc, st, end, st', tags, fuel2, r, how)
  {
    hide Keeps, StoreOf, Inv, Leads, LeadsToGo, Answers, Run;
  }
}
