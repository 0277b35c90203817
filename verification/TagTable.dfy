/** Tag relocation: where BindTag sends a GO. */
module TagTable {
  import opened Forms
  import opened Bytecode
  import opened OrderedMaps
  import opened TagOrders
  import opened Machine
  import opened Evaluator
  import opened Runs
  import opened FrameChain
  import opened Simulation
  import opened StraightLine

  /** The position recorded last for a tag, as map_insert keeps it. */
  function LastPosition(tags: seq<(Form, nat)>, tag: Form): Option<nat> {
    if tags == [] then None
    else
      var later := LastPosition(tags[1..], tag);
      if later.Some? then later
      else if tags[0].0 == tag then Some(tags[0].1)
      else None
  }

  /**
   A tag's recorded position is where the code of the statements after its last occurrence starts;
   for a tag with nothing behind it, that is the end of the statement code.
   */
  lemma {:induction false} PositionIsAfterTag(args: Form, pos: nat, tag: Form)
    requires EmitStatements(args, pos).status == Good
    ensures var s := EmitStatements(args, pos);
      var at := LastPosition(s.tags, tag);
      && (at.Some? <==> tag in TagsOf(args))
      && (at.Some? ==>
            && pos <= at.value <= pos + |s.code|
            && EmitStatements(AfterTag(args, tag), at.value).status == Good
            && EmitStatements(AfterTag(args, tag), at.value).code == s.code[at.value - pos..])
    decreases args
  {
    if args.Cons? {
      var s := EmitStatements(args, pos);
      if args.car.Cons? {
        var head := EmitForm(args.car, true, pos);
        var tail := EmitStatements(args.cdr, pos + |head.code|);
        PositionIsAfterTag(args.cdr, pos + |head.code|, tag);
        var at := LastPosition(s.tags, tag);
        if at.Some? {
          assert s.code[at.value - pos..] == tail.code[at.value - pos - |head.code|..];
        }
      } else {
        var tail := EmitStatements(args.cdr, pos);
        PositionIsAfterTag(args.cdr, pos, tag);
        assert s.tags[0] == (args.car, pos) && s.tags[1..] == tail.tags;
        assert s.code == s.code[0..];
      }
    }
  }

  /** The binding map's meaning after the tag bytes have run. */
  function AddTags(m: map<Form, nat>, tags: seq<(Form, nat)>, bump: nat): map<Form, nat>
    decreases |tags|
  {
    if tags == [] then m else AddTags(m[tags[0].0 := tags[0].1 + bump], tags[1..], bump)
  }

  lemma {:induction false} AddTagsLookup(m: map<Form, nat>, tags: seq<(Form, nat)>, bump: nat, tag: Form)
    ensures var m' := AddTags(m, tags, bump);
      var at := LastPosition(tags, tag);
      if at.Some? then tag in m' && m'[tag] == at.value + bump
      else (tag in m' <==> tag in m) && (tag in m ==> m'[tag] == m[tag])
    decreases |tags|
  {
    if tags != [] {
      AddTagsLookup(m[tags[0].0 := tags[0].1 + bump], tags[1..], bump, tag);
    }
  }

  /** The tag bytes insert the tags one by one. */
  function AddTagsTo(order: (Form, Form) -> int, s: TagArray, tags: seq<(Form, nat)>, bump: nat): TagArray
    decreases |tags|
  {
    if tags == [] then s
    else AddTagsTo(order, Inserted<Form, nat>(order, s, tags[0].0, tags[0].1 + bump), tags[1..], bump)
  }

  lemma {:induction false} AddTagsHold(order: (Form, Form) -> int, s: TagArray, m: map<Form, nat>, tags: seq<(Form, nat)>, bump: nat, all: set<Form>)
    requires OrdersTags(order) && HoldsTags(order, s, m)
    requires GoodTags(all) && m.Keys <= all && forall i :: 0 <= i < |tags| ==> tags[i].0 in all
    ensures HoldsTags(order, AddTagsTo(order, s, tags, bump), AddTags(m, tags, bump))
    decreases |tags|
  {
    hide OrdersTags, HoldsTags, GoodTags, Inserted;
    if tags != [] {
      var tag := tags[0].0;
      var index: nat := tags[0].1 + bump;
      FewerTags(all, m.Keys + {tag});
      TagInserted(order, s, m, tag, index);
      var m1: map<Form, nat> := m[tag := index];
      var s1: TagArray := Inserted(order, s, tag, index);
      assert m1.Keys <= all;
      AddTagsHold(order, s1, m1, tags[1..], bump, all);
    }
  }

  lemma {:induction false} TagNames(args: Form, pos: nat)
    requires EmitStatements(args, pos).status == Good
    ensures forall i :: 0 <= i < |EmitStatements(args, pos).tags| ==> EmitStatements(args, pos).tags[i].0 in TagsOf(args)
    decreases args
  {
    hide EmitForm;
    if args.Cons? {
      TagNames(args.cdr, if args.car.Cons? then pos + |EmitForm(args.car, true, pos).code| else pos);
    }
  }

  function TopTags(st: State): TagArray
    requires st.frames != []
  {
    TagsAt(st, st.frames[|st.frames| - 1].env)
  }

  /** The state after the tag bytes; a TAGBODY without tags creates no binding map. */
  function WithTags(st: State, tags: seq<(Form, nat)>, bump: nat): State
    requires st.frames != []
  {
    if tags == [] then st
    else st.(tags := st.tags[st.frames[|st.frames| - 1].env := AddTagsTo(st.order, TopTags(st), tags, bump)])
  }

  lemma {:induction false} TagBytesLead(p: Inherent, code: seq<Byte>, pc: nat, st: State, tags: seq<(Form, nat)>, bump: nat)
    requires st.frames != [] && CodeAt(code, pc, EmitTags(tags, bump))
    ensures Leads(p, code, pc, st, pc + 2 * |tags|, WithTags(st, tags, bump))
    decreases |tags|
  {
    hide Run, Leads, CodeAt, AddTagsTo, Exec;
    if tags == [] {
      LeadsNowhere(p, code, pc, st);
    } else {
      var st1 := WithTags(st, [tags[0]], bump);
      OneTagLeads(p, code, pc, st, tags[0], bump, EmitTags(tags[1..], bump));
      TagBytesLead(p, code, pc + 2, st1, tags[1..], bump);
      WithTagsStep(st, tags, bump);
      LeadsCompose(p, code, pc, st, pc + 2, st1, pc + 2 * |tags|, WithTags(st, tags, bump));
    }
  }

  lemma WithTagsStep(st: State, tags: seq<(Form, nat)>, bump: nat)
    requires st.frames != [] && tags != []
    ensures WithTags(WithTags(st, [tags[0]], bump), tags[1..], bump) == WithTags(st, tags, bump)
    ensures WithTags(st, [tags[0]], bump).frames == st.frames
  {
    var env := st.frames[|st.frames| - 1].env;
    hide Inserted;
    var s1 := Inserted<Form, nat>(st.order, TopTags(st), tags[0].0, tags[0].1 + bump);
    var st1 := WithTags(st, [tags[0]], bump);
    assert AddTagsTo(st.order, TopTags(st), [tags[0]], bump) == s1;
    assert st1.tags == st.tags[env := s1];
    if |tags| > 1 {
      assert TopTags(st1) == s1;
      var s2 := AddTagsTo(st.order, s1, tags[1..], bump);
      assert st.tags[env := s1][env := s2] == st.tags[env := s2];
    }
  }

  lemma OneTagLeads(p: Inherent, code: seq<Byte>, pc: nat, st: State, tag: (Form, nat), bump: nat, rest: seq<Byte>)
    requires st.frames != []
    requires CodeAt(code, pc, [Push(tag.0), BindTag(tag.1 + bump)] + rest)
    ensures Leads(p, code, pc, st, pc + 2, WithTags(st, [tag], bump))
    ensures CodeAt(code, pc + 2, rest)
  {
    hide Run, Leads, CodeAt, Inserted;
    CodeAtSplit(code, pc, [Push(tag.0), BindTag(tag.1 + bump)], rest);
    CodeAtIndex(code, pc, [Push(tag.0), BindTag(tag.1 + bump)], 0);
    CodeAtIndex(code, pc, [Push(tag.0), BindTag(tag.1 + bump)], 1);
    PushLeads(p, code, pc, st, tag.0);
    var st1 := st.(forms := st.forms + [tag.0]);
    var st2 := WithTags(st, [tag], bump);
    assert st1.forms[..|st1.forms| - 1] == st.forms;
    assert AddTagsTo(st.order, TopTags(st), [tag], bump) == Inserted<Form, nat>(st.order, TopTags(st), tag.0, tag.1 + bump);
    var env := st.frames[|st.frames| - 1].env;
    assert TagsAt(st1, env) == TagsAt(st, env);
    assert Exec(st1, BindTag(tag.1 + bump)) == Next(BindTagIn(st1.(forms := st.forms), env, tag.0, tag.1 + bump));
    LeadsOneStep(p, code, pc + 1, st1, st2);
    LeadsCompose(p, code, pc, st, pc + 1, st1, pc + 2, st2);
  }

  /** With its tag bytes run, an environment binds exactly the TAGBODY's tags, to bumped positions. */
  lemma WithTagsFacts(g: Globals, st0: State, st: State, args: Form, bump: nat)
    requires Inv(g, st) && Inside(st0, st) && |st0.envs| !in st.tags
    requires EmitStatements(args, 0).status == Good && GoodTags(TagsOf(args))
    ensures var tags := EmitStatements(args, 0).tags;
      var st1 := WithTags(st, tags, bump);
      && Inv(g, st1) && Inside(st0, st1) && Vars(st1) == Vars(st)
      && (forall t :: Binds(st1, |st0.envs|, t) <==> t in TagsOf(args))
      && (forall t :: t in TagsOf(args) ==>
            LastPosition(tags, t).Some? && TagIndex(st1, |st0.envs|, t) == LastPosition(tags, t).value + bump)
  {
    hide GlobalsMatch, Linked, StoreOf, EnvsKept, AddTags, AddTagsTo, LastPosition, TagsOf, EmitStatements, OrdersTags, HoldsTags, GoodTags, Found, Looked;
    var tags := EmitStatements(args, 0).tags;
    var env := |st0.envs|;
    var st1 := WithTags(st, tags, bump);
    TagNames(args, 0);
    NoTagsHeld(st.order);
    FewerTags(TagsOf(args), {});
    AddTagsHold(st.order, [], map[], tags, bump, TagsOf(args));
    NothingAdded(st.order, bump);
    assert TagsAt(st1, env) == AddTagsTo(st.order, [], tags, bump);
    forall t
      ensures LastPosition(tags, t).Some? <==> t in TagsOf(args)
    {
      PositionIsAfterTag(args, 0, t);
    }
    forall t
      ensures t in AddTags(map[], tags, bump) <==> t in TagsOf(args)
      ensures t in TagsOf(args) ==> AddTags(map[], tags, bump)[t] == LastPosition(tags, t).value + bump
    {
      AddTagsLookup(map[], tags, bump, t);
    }
    forall t
      ensures Binds(st1, env, t) <==> t in TagsOf(args)
      ensures t in TagsOf(args) ==> TagIndex(st1, env, t) == LastPosition(tags, t).value + bump
    {
      TagLookup(st.order, TagsAt(st1, env), AddTags(map[], tags, bump), t);
    }
  }

  lemma NothingAdded(order: (Form, Form) -> int, bump: nat)
    ensures AddTagsTo(order, [], [], bump) == []
  {
  }
}
