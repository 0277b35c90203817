/**
 The machine steps of a TAGBODY: entering its environment and binding its tags, leaving it behind the last
 statement, and resuming at one of its own tags. The statements themselves are evaluated elsewhere.
 */
module TagbodySteps {
  import opened Forms
  import opened Bytecode
  import opened OrderedMaps
  import opened TagOrders
  import opened Machine
  import opened Evaluator
  import opened Runs
  import opened FrameChain
  import opened Simulation
  import opened StraightLine
  import opened TagTable
  import opened LetSteps

  /**
   The top environment binds exactly the TAGBODY's tags. Unless the TAGBODY is nested in another one
   of its code list, every tag's index is the absolute position of the statements behind the tag.
   */
  ghost predicate TopBinds(st: State, args: Form, start: nat, nested: bool) {
    && st.frames != []
    && var env := st.frames[|st.frames| - 1].env;
    && env < |st.envs|
    && (forall t :: Binds(st, env, t) <==> t in TagsOf(args))
    && (!nested ==> forall t :: t in TagsOf(args) ==>
          var at := LastPosition(EmitStatements(args, 0).tags, t);
          at.Some? && TagIndex(st, env, t) == start + at.value)
  }

  lemma TopBindsKept(st: State, st1: State, args: Form, start: nat, nested: bool)
    requires TopBinds(st, args, start, nested) && Keeps(st, st1)
    ensures TopBinds(st1, args, start, nested)
  {
    hide TagsOf, LastPosition, EmitStatements;
    var env := st.frames[|st.frames| - 1].env;
    forall t
      ensures Binds(st1, env, t) == Binds(st, env, t) && TagIndex(st1, env, t) == TagIndex(st, env, t)
    {
    }
  }

  lemma TagbodyParts(code: seq<Byte>, pc: nat, tagBytes: seq<Byte>, body: seq<Byte>)
    requires CodeAt(code, pc, [PushLexicalEnv] + tagBytes + body + [Push(Nil), RetForm, PopLexicalEnv])
    ensures pc + 1 + |tagBytes| + |body| + 2 < |code|
    ensures code[pc] == PushLexicalEnv && CodeAt(code, pc + 1, tagBytes) && CodeAt(code, pc + 1 + |tagBytes|, body)
    ensures var end := pc + 1 + |tagBytes| + |body|;
      code[end] == Push(Nil) && code[end + 1] == RetForm && code[end + 2] == PopLexicalEnv
  {
    hide *;
    var open' := [PushLexicalEnv];
    var close := [Push(Nil), RetForm, PopLexicalEnv];
    CodeAtSplit(code, pc, open' + tagBytes + body, close);
    CodeAtSplit(code, pc, open' + tagBytes, body);
    CodeAtSplit(code, pc, open', tagBytes);
    CodeAtIndex(code, pc, open', 0);
    CodeAtIndex(code, pc + |open' + tagBytes + body|, close, 0);
    CodeAtIndex(code, pc + |open' + tagBytes + body|, close, 1);
    CodeAtIndex(code, pc + |open' + tagBytes + body|, close, 2);
  }

  /** PushLexicalEnv and the tag bytes. */
  lemma TagbodyEnter(g: Globals, p: Inherent, live: set<Form>, args: Form, nested: bool,
                     code: seq<Byte>, pc: nat, base: nat, st: State, tags: seq<(Form, nat)>) returns (st1: State)
    requires Inv(g, st) && LiveTags(st, live) && (!nested ==> base == pc)
    requires EmitStatements(args, 0).status == Good && tags == EmitStatements(args, 0).tags && GoodTags(TagsOf(args))
    requires pc < |code| && code[pc] == PushLexicalEnv
    requires CodeAt(code, pc + 1, EmitTags(tags, base + 1 + 2 * |tags|))
    ensures Inv(g, st1) && Inside(st, st1) && Vars(st1) == Vars(st) && st1.forms == st.forms
    ensures LiveTags(st1, live + TagsOf(args))
    ensures TopBinds(st1, args, pc + 1 + 2 * |tags|, nested)
    ensures st1.envs[|st.envs|].values == map[] && st1.frames[|st.frames|].source == FromBytes
    ensures Leads(p, code, pc, st, pc + 1 + 2 * |tags|, st1)
  {
    hide Inv, LiveTags, Keeps, StoreOf, EnvsKept, Leads, EmitTags, TagsOf, EmitStatements, LastPosition, AddTagsTo, CodeAt, GoodTags, Found, Looked;
    var bump := base + 1 + 2 * |tags|;
    InvOk(g, st);
    PushFacts(g, st, FromBytes);
    var st0 := PushEnv(st, FromBytes);
    LeadsOneStep(p, code, pc, st, st0);
    TagBytesLead(p, code, pc + 1, st0, tags, bump);
    st1 := WithTags(st0, tags, bump);
    LeadsCompose(p, code, pc, st, pc + 1, st0, pc + 1 + 2 * |tags|, st1);
    WithTagsFacts(g, st, st0, args, bump);
    LiveInside(g, st, st1, live, TagsOf(args));
  }

  /** PUSH NIL; RetForm; PopLexicalEnv: the value of a TAGBODY is NIL. */
  lemma TagbodyLeave(g: Globals, p: Inherent, code: seq<Byte>, pc: nat, st: State, args: Form, start: nat, nested: bool,
                     pc1: nat, st1: State, end: nat, st2: State, outer: set<Form>, fuel: nat, r: Result) returns (st': State)
    requires Inv(g, st) && Inside(st, st1) && st1.forms == st.forms && TopBinds(st1, args, start, nested)
    requires st1.envs[|st.envs|].values == map[] && st1.frames[|st.frames|].source == FromBytes
    requires Leads(p, code, pc, st, pc1, st1)
    requires Simulates(g, p, code, pc1, st1, end, st2, outer, fuel, r, Nowhere) && (r.Value? ==> r.v == Nil)
    requires outer !! TagsOf(args)
    requires end + 2 < |code| && code[end] == Push(Nil) && code[end + 1] == RetForm && code[end + 2] == PopLexicalEnv
    ensures Simulates(g, p, code, pc, st, end + 3, st', outer, fuel, r, LastReturn)
  {
    hide Inv, Leads, LeadsToGo, Keeps, StoreOf, Answers, EnvsKept, Run, Inside, TagsOf, TopBinds, Vars;
    st' := st;
    match r {
      case Value(_, store) =>
        InsideKeeps(st, st1, st2);
        var st3 := st2.(forms := st2.forms + [Nil]);
        PushLeads(p, code, end, st2, Nil);
        FormsFree(g, st2, st3.forms);
        var st4 := RetLeads(g, p, code, end + 1, st3, st2.forms, Nil);
        KeepsTransitive(st2, st3, st4);
        KeepsTransitive(st1, st2, st4);
        InsideKeeps(st, st1, st4);
        PopFacts(g, st, st4);
        PopLeads(g, p, code, end + 2, st, st4);
        st' := PopEnv(st4);
        LeadsCompose(p, code, pc, st, pc1, st1, end, st2);
        LeadsCompose(p, code, pc, st, end, st2, end + 1, st3);
        LeadsCompose(p, code, pc, st, end + 1, st3, end + 2, st4);
        LeadsCompose(p, code, pc, st, end + 2, st4, end + 3, st');
        PoppedVars(st, st1, st4, st', Symbol("", "", 0), Nil, false);
      case Transfer(tag, store) =>
        InsideKeeps(st, st1, st2);
        PopFacts(g, st, st2);
        st' := PopEnv(st2);
        LeadsToGoCompose(p, code, pc, st, pc1, st1, tag, st2);
        TopBindsKept(st1, st2, args, start, nested);
        TopDoesNotBind(st, st1, st2, args, start, nested, tag);
        GoThrough(p, code, pc, st, st2, tag);
        PoppedVars(st, st1, st2, st', Symbol("", "", 0), Nil, false);
      case Error => AnswersBack(p, code, pc, st, pc1, st1, Outcome.Error);
      case Timeout => TimeoutBack(p, code, pc, st, pc1, st1, fuel);
    }
  }

  lemma TopDoesNotBind(st: State, st1: State, st2: State, args: Form, start: nat, nested: bool, tag: Form)
    requires Inside(st, st1) && Keeps(st1, st2) && st1.frames[|st.frames|].source == FromBytes
    requires TopBinds(st2, args, start, nested) && tag !in TagsOf(args)
    ensures CanPopEnv(st2)
    ensures st2.frames[|st2.frames| - 1].source == FromBytes && !Binds(st2, st2.frames[|st2.frames| - 1].env, tag)
  {
    hide EnvsKept, TagsOf, LastPosition, EmitStatements;
  }

  /** The innermost TAGBODY resumes a GO to one of its own tags, at the recorded index. */
  lemma OwnTagResumes(st: State, args: Form, start: nat, tag: Form)
    requires TopBinds(st, args, start, false) && tag in TagsOf(args) && EmitStatements(args, 0).status == Good
    ensures var at := LastPosition(EmitStatements(args, 0).tags, tag);
      at.Some? && HandleGo(st, tag) == Resume(st, start + at.value)
  {
    hide EnvsKept, TagsOf, LastPosition, EmitStatements;
    assert Binds(st, st.frames[|st.frames| - 1].env, tag);
  }

  /** The code of the statements behind a tag lies at the tag's position. */
  lemma TagTarget(code: seq<Byte>, start: nat, args: Form, tag: Form)
    requires EmitStatements(args, 0).status == Good && tag in TagsOf(args)
    requires CodeAt(code, start, EmitStatements(args, 0).code)
    ensures var at := LastPosition(EmitStatements(args, 0).tags, tag);
      && at.Some? && at.value <= |EmitStatements(args, 0).code|
      && var behind := EmitStatements(AfterTag(args, tag), at.value);
      && behind.status == Good
      && at.value + |behind.code| == |EmitStatements(args, 0).code|
      && CodeAt(code, start + at.value, behind.code)
  {
    hide TagsOf, LastPosition, EmitStatements, AfterTag;
    PositionIsAfterTag(args, 0, tag);
    var all := EmitStatements(args, 0).code;
    var at := LastPosition(EmitStatements(args, 0).tags, tag).value;
    assert all[..at] + all[at..] == all;
    assert all[at - 0..] == all[at..];
    CodeAtSplit(code, start, all[..at], all[at..]);
  }

  lemma {:induction false} AfterTagCompilable(args: Form, tag: Form, tags: set<Form>, live: set<Form>)
    requires CompilableStatements(args, tags, live)
    ensures CompilableStatements(AfterTag(args, tag), tags, live)
  {
    hide Compilable, TagsOf;
    if args.Cons? {
      AfterTagCompilable(args.cdr, tag, tags, live);
    }
  }

  lemma {:induction false} StatementsNil(g: Globals, p: Inherent, args: Form, rest: Form, store: Store, live: set<Form>, fuel: nat)
    ensures var r := EvalStatements(g, p, args, rest, store, live, fuel);
      r.Value? ==> r.v == Nil
    decreases fuel, Size(rest)
  {
    hide Eval, TagsOf, AfterTag;
    if rest.Cons? {
      if !rest.car.Cons? {
        StatementsNil(g, p, args, rest.cdr, store, live, fuel);
      } else {
        var r := Eval(g, p, rest.car, store, live, fuel);
        if r.Value? {
          StatementsNil(g, p, args, rest.cdr, r.store, live, fuel);
        } else if r.Transfer? && r.tag in TagsOf(args) && fuel > 0 {
          StatementsNil(g, p, args, AfterTag(args, r.tag), r.store, live, fuel - 1);
        }
      }
    }
  }
}
