/**
 The machine steps of one LET* binding: its environment and name before the value is computed, binding the
 value, and leaving the environment behind the body. What stands between them, the value's code and the
 body's, is evaluated elsewhere.
 */
module LetSteps {
  import opened Forms
  import opened Bytecode
  import opened Machine
  import opened Evaluator
  import opened Runs
  import opened FrameChain
  import opened Simulation
  import opened StraightLine

  /** PushLexicalEnv; PUSH name. */
  lemma LetEnter(g: Globals, p: Inherent, live: set<Form>, code: seq<Byte>, pc: nat, st: State, name: Form) returns (st2: State)
    requires Inv(g, st) && LiveTags(st, live)
    requires pc + 1 < |code| && code[pc] == PushLexicalEnv && code[pc + 1] == Push(name)
    ensures Inv(g, st2) && LiveTags(st2, live) && Inside(st, st2) && Vars(st2) == Vars(st)
    ensures st2.envs[|st.envs|].values == map[] && |st.envs| !in st2.tags
    ensures st2.frames[|st.frames|].source == FromBytes
    ensures st2.forms == st.forms + [name]
    ensures Leads(p, code, pc, st, pc + 2, st2)
  {
    hide Inv, LiveTags, Keeps, StoreOf, EnvsKept, Leads;
    InvOk(g, st);
    PushFacts(g, st, FromBytes);
    var st1 := PushEnv(st, FromBytes);
    LeadsOneStep(p, code, pc, st, st1);
    LiveInside(g, st, st1, live, {});
    assert live + {} == live;
    st2 := st1.(forms := st1.forms + [name]);
    PushLeads(p, code, pc + 1, st1, name);
    LeadsCompose(p, code, pc, st, pc + 1, st1, pc + 2, st2);
    FormsFree(g, st1, st2.forms);
    LiveKept(g, st1, st2, live);
    InsideKeeps(st, st1, st2);
  }

  /** Exactly one environment changes: one of the home package that held s, or else the top. */
  lemma BindOneEnv(g: Globals, st3: State, top: nat, s: Symbol, v: Form) returns (at: nat)
    requires Inv(g, st3) && st3.frames[|st3.frames| - 1].env == top && top < |st3.envs| && st3.envs[top].values == map[]
    ensures at < |st3.envs| && st3.envs[at].package == g.home
    ensures s in st3.envs[at].values || at == top
    ensures at == top <==> s !in Vars(st3)
    ensures BindValueIn(st3.envs, top, s, v) == SetValue(st3.envs, at, s, v)
    ensures StoreOf(SetValue(st3.envs, at, s, v), st3.frames) == Vars(st3)[s := v]
  {
    hide GlobalsMatch;
    BinderStore(st3.envs, st3.packages[g.home], g.home, st3.frames, s, v);
    BindStore(st3.envs, st3.packages[g.home], g.home, st3.frames, s, v);
    var where := Binder(st3.envs, top, s);
    at := if where.Some? then where.value else top;
  }

  lemma SetGlobals(g: Globals, envs: seq<Env>, packages: map<string, nat>, at: nat, s: Symbol, v: Form)
    requires GlobalsMatch(g, envs, packages) && at < |envs| && envs[at].package == g.home
    ensures GlobalsMatch(g, SetValue(envs, at, s, v), packages)
  {
  }

  lemma SetKept(envs: seq<Env>, envs3: seq<Env>, at: nat, s: Symbol, v: Form)
    requires EnvsKept(envs, envs3) && at < |envs3| && (s in envs3[at].values || at >= |envs|)
    ensures EnvsKept(envs, SetValue(envs3, at, s, v))
  {
    var envs' := SetValue(envs3, at, s, v);
    forall i | 0 <= i < |envs|
      ensures envs'[i] == envs[i].(values := envs'[i].values) && envs'[i].values.Keys == envs[i].values.Keys
    {
      if i == at {
        assert envs3[i].values[s := v].Keys == envs3[i].values.Keys;
      }
    }
  }

  /** bind_value in the pushed environment: the store is updated; a new variable lands on top. */
  lemma BindFacts(g: Globals, st: State, st3: State, s: Symbol, v: Form)
    requires Inv(g, st) && Inv(g, st3) && Inside(st, st3) && st3.envs[|st.envs|].values == map[]
    ensures var st4 := st3.(forms := st.forms, envs := BindValueIn(st3.envs, |st.envs|, s, v));
      && Inv(g, st4) && Inside(st, st4) && Vars(st4) == Vars(st3)[s := v]
      && st4.envs[|st.envs|].values == (if s in Vars(st3) then map[] else map[s := v])
  {
    hide GlobalsMatch, StoreOf, BindValueIn, Binder, EnvsKept;
    var top := |st.envs|;
    var base := st3.packages[g.home];
    var at := BindOneEnv(g, st3, top, s, v);
    var envs' := SetValue(st3.envs, at, s, v);
    LinkedKept(st3.envs, envs', base, g.home, st3.frames);
    SetGlobals(g, st3.envs, st3.packages, at, s, v);
    SetKept(st.envs, st3.envs, at, s, v);
  }

  /** BIND-VALUE; POP: from (name, value) on the form stack to a bound variable. */
  lemma LetBind(g: Globals, p: Inherent, live: set<Form>, code: seq<Byte>, pc: nat, st: State, st3: State, name: Form, v: Form)
    returns (st5: State)
    requires Inv(g, st) && LiveTags(st, live) && Inv(g, st3) && Inside(st, st3)
    requires st3.envs[|st.envs|].values == map[] && |st.envs| !in st3.tags
    requires st3.forms == st.forms + [name, v]
    requires pc + 1 < |code| && code[pc] == BindValue && code[pc + 1] == Pop
    ensures !name.Sym? ==> Answers(p, code, pc, st3, Outcome.Error)
    ensures name.Sym? ==>
      && Inv(g, st5) && LiveTags(st5, live) && Inside(st, st5) && Vars(st5) == Vars(st3)[name.sym := v]
      && st5.envs[|st.envs|].values == (if name.sym in Vars(st3) then map[] else map[name.sym := v])
      && st5.frames == st3.frames && |st.envs| !in st5.tags && st5.forms == st.forms
      && Leads(p, code, pc, st3, pc + 2, st5)
  {
    hide Inv, LiveTags, Leads, Keeps, StoreOf, Answers, EnvsKept, BindValueIn;
    InvOk(g, st3);
    st5 := st3;
    assert st3.forms[|st3.forms| - 2] == name && st3.forms[|st3.forms| - 1] == v;
    assert st3.forms[..|st3.forms| - 2] == st.forms;
    if !name.Sym? {
      ErrorStep(p, code, pc, st3);
    } else {
      var envs' := BindValueIn(st3.envs, |st.envs|, name.sym, v);
      var st4 := st3.(forms := st.forms + [v], envs := envs');
      LeadsOneStep(p, code, pc, st3, st4);
      st5 := st3.(forms := st.forms, envs := envs');
      assert st4.forms[..|st4.forms| - 1] == st.forms;
      LeadsOneStep(p, code, pc + 1, st4, st5);
      LeadsCompose(p, code, pc, st3, pc + 1, st4, pc + 2, st5);
      BindFacts(g, st, st3, name.sym, v);
      LiveInside(g, st, st5, live, {});
      assert live + {} == live;
    }
  }

  /** PopLexicalEnv: the variable goes if this binding introduced it. */
  lemma LetLeave(g: Globals, p: Inherent, code: seq<Byte>, pc: nat, st: State, pc5: nat, st5: State, end: nat, st6: State,
                 tags: set<Form>, fuel: nat, inner: Result, s: Symbol, v: Form, added: bool) returns (st': State)
    requires Inv(g, st) && Inside(st, st5) && st5.forms == st.forms
    requires st5.frames[|st.frames|].source == FromBytes && |st.envs| !in st5.tags
    requires st5.envs[|st.envs|].values == (if added then map[s := v] else map[])
    requires added ==> s !in Vars(st)
    requires Leads(p, code, pc, st, pc5, st5)
    requires Simulates(g, p, code, pc5, st5, end, st6, tags, fuel, inner, LastReturn)
    requires end < |code| && code[end] == PopLexicalEnv
    ensures Simulates(g, p, code, pc, st, end + 1, st', tags, fuel, if added then Leave(inner, s) else inner, LastReturn)
  {
    hide Inv, Leads, LeadsToGo, Keeps, StoreOf, Answers, EnvsKept, Run, Inside;
    st' := st;
    match inner {
      case Value(w, store) =>
        InsideKeeps(st, st5, st6);
        PopFacts(g, st, st6);
        PopLeads(g, p, code, end, st, st6);
        st' := PopEnv(st6);
        LeadsCompose(p, code, pc, st, pc5, st5, end, st6);
        LeadsCompose(p, code, pc, st, end, st6, end + 1, st');
        PoppedVars(st, st5, st6, st', s, v, added);
      case Transfer(tag, store) =>
        InsideKeeps(st, st5, st6);
        PopFacts(g, st, st6);
        st' := PopEnv(st6);
        LeadsToGoCompose(p, code, pc, st, pc5, st5, tag, st6);
        InsideTop(st, st5, st6, tag);
        GoThrough(p, code, pc, st, st6, tag);
        PoppedVars(st, st5, st6, st', s, v, added);
      case Error => AnswersBack(p, code, pc, st, pc5, st5, Outcome.Error);
      case Timeout => TimeoutBack(p, code, pc, st, pc5, st5, fuel);
    }
  }

  lemma InsideTop(st: State, st5: State, st6: State, tag: Form)
    requires Inside(st, st5) && Keeps(st5, st6)
    requires st5.frames[|st.frames|].source == FromBytes && |st.envs| !in st5.tags
    ensures st6.frames[|st6.frames| - 1].source == FromBytes && !Binds(st6, st6.frames[|st6.frames| - 1].env, tag)
  {
  }

  lemma PoppedVars(st: State, st5: State, st6: State, st7: State, s: Symbol, v: Form, added: bool)
    requires Inside(st, st5) && Keeps(st5, st6)
    requires st5.envs[|st.envs|].values == (if added then map[s := v] else map[])
    requires |st.envs| < |st6.envs| && Vars(st6) == Vars(st7) + st6.envs[|st.envs|].values
    requires Vars(st7).Keys == Vars(st).Keys && (added ==> s !in Vars(st))
    ensures Vars(st7) == if added then Vars(st6) - {s} else Vars(st6)
  {
    hide StoreOf;
    var top := st6.envs[|st.envs|].values;
    assert top.Keys == st5.envs[|st.envs|].values.Keys;
    if added {
      assert top.Keys == {s};
      assert s !in Vars(st7).Keys;
      DropTop(Vars(st7), top, s);
    } else {
      assert top == map[];
    }
  }

  lemma DropTop(below: Store, top: Store, s: Symbol)
    requires top.Keys == {s} && s !in below
    ensures below + top - {s} == below
  {
  }
}
