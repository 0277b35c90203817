/** Why tags must be good. */
module TagBoundaries {
  // With a string as tag, or fixnums that the wrapping comparator cannot order, the sorted map loses a tag, and the
  // GO to it ends the program.

  import opened Forms
  import opened OrderedMaps
  import opened TagOrders
  import opened Bytecode
  import opened Machine
  import opened Evaluator
  import opened FormOrder
  import opened FrameChain
  import opened Simulation
  import opened Runs
  import opened StraightLine
  import opened TagTable
  import opened Shapes
  import opened CompilerTheorem
  import opened Boundaries

  /** (TAGBODY (GO tag) tag other) */
  function Jumper(tag: Form, other: Form): Form {
    Call1("TAGBODY", JumperStatements(tag, other))
  }

  function JumperStatements(tag: Form, other: Form): Form {
    Cons(Call1("GO", Cons(tag, Nil)), Cons(tag, Cons(other, Nil)))
  }

  function JumperTags(tag: Form, other: Form): seq<(Form, nat)> {
    [(tag, 1), (other, 1)]
  }

  lemma GoCode(tag: Form)
    ensures EmitForm(Call1("GO", Cons(tag, Nil)), true, 0) == Emitted([GoReturn(tag)], Good)
  {
    SpecialCode(Call1("GO", Cons(tag, Nil)), 0);
  }

  lemma TwoTags(tag: Form, other: Form)
    requires !tag.Cons? && !other.Cons?
    ensures EmitStatements(Cons(tag, Cons(other, Nil)), 1) == Statements(JumperTags(tag, other), [], Good)
  {
    assert EmitStatements(Nil, 1) == Statements([], [], Good);
    assert EmitStatements(Cons(other, Nil), 1) == Statements([(other, 1)], [], Good);
    assert [(tag, 1)] + [(other, 1)] == JumperTags(tag, other);
  }

  lemma JumperCode(tag: Form, other: Form)
    requires !tag.Cons? && !other.Cons?
    ensures var e := EmitForm(Jumper(tag, other), true, 0);
      && e.status == Good
      && e.code == [PushLexicalEnv] + EmitTags(JumperTags(tag, other), 5) + [GoReturn(tag)] + [Push(Nil), RetForm, PopLexicalEnv]
  {
    hide EmitTags, EmitForm;
    var args := JumperStatements(tag, other);
    GoCode(tag);
    TwoTags(tag, other);
    SpecialCode(Jumper(tag, other), 0);
    assert [GoReturn(tag)] + [] == [GoReturn(tag)];
    assert EmitStatements(args, 0) == Statements(JumperTags(tag, other), [GoReturn(tag)], Good);
    TagbodyCode(args, 0);
  }

  lemma JumperEval(g: Globals, p: Inherent, tag: Form, other: Form, store: Store, fuel: nat)
    requires !tag.Cons? && !other.Cons? && tag != other && fuel >= 1
    ensures Eval(g, p, Jumper(tag, other), store, {}, fuel) == Value(Nil, store)
  {
    var args := JumperStatements(tag, other);
    var live := {} + TagsOf(args);
    assert TagsOf(Cons(other, Nil)) == {other};
    assert TagsOf(args) == {tag, other};
    assert AfterTag(args, tag) == Cons(other, Nil);
    assert Eval(g, p, args.car, store, live, fuel) == Transfer(tag, store);
    assert EvalStatements(g, p, args, Nil, store, live, fuel - 1) == Value(Nil, store);
    assert EvalStatements(g, p, args, Cons(other, Nil), store, live, fuel - 1) == Value(Nil, store);
    SpecialEval(g, p, Jumper(tag, other), store, {}, fuel);
  }

  /** The tag map of the program's environment. */
  function JumperArray(order: (Form, Form) -> int, tag: Form, other: Form): TagArray {
    var one: TagArray := Inserted<Form, nat>(order, [], tag, 6);
    Inserted<Form, nat>(order, one, other, 6)
  }

  lemma JumperArrayIs(order: (Form, Form) -> int, tag: Form, other: Form)
    ensures AddTagsTo(order, [], JumperTags(tag, other), 5) == JumperArray(order, tag, other)
  {
    hide Inserted;
    var tags := JumperTags(tag, other);
    var rest: seq<(Form, nat)> := [(other, 1)];
    var none: seq<(Form, nat)> := [];
    assert tags[1..] == rest && rest[1..] == none;
    var one: TagArray := Inserted<Form, nat>(order, [], tag, 6);
    var two := JumperArray(order, tag, other);
    assert AddTagsTo(order, two, none, 5) == two;
    assert AddTagsTo(order, one, rest, 5) == AddTagsTo(order, two, none, 5);
    assert AddTagsTo(order, [], tags, 5) == AddTagsTo(order, one, rest, 5);
  }

  /** If its map has lost the tag, no environment binds it. */
  lemma LostIsInvalid(g: Globals, st: State, tag: Form, other: Form)
    requires Idle(g, st) && !Found(st.order, JumperArray(st.order, tag, other), tag)
    ensures st.frames != []
    ensures var st1 := PushEnv(st, FromBytes);
      !ValidTag(WithTags(st1, JumperTags(tag, other), 5), tag)
  {
    IdleFacts(g, st);
    hide Idle, Found, AddTagsTo, JumperArray;
    var st1 := PushEnv(st, FromBytes);
    var st2 := WithTags(st1, JumperTags(tag, other), 5);
    JumperArrayIs(st.order, tag, other);
    assert TopTags(st1) == [];
    forall i | 0 <= i < |st2.frames| ensures !Binds(st2, st2.frames[i].env, tag) {
      if i < |st.frames| {
        assert st2.frames[i] == st.frames[i] && TagsAt(st2, st.frames[i].env) == TagsAt(st, st.frames[i].env);
        assert !Binds(st, st.frames[i].env, tag);
      }
    }
  }

  lemma IdleFacts(g: Globals, st: State)
    requires Idle(g, st)
    ensures |st.frames| == |st.rets| > 0
    ensures forall id :: id in st.tags ==> id < |st.envs|
    ensures forall i :: 0 <= i < |st.frames| ==> st.frames[i].env < |st.envs|
    ensures forall i, t :: 0 <= i < |st.frames| ==> !Binds(st, st.frames[i].env, t)
    ensures OrdersTags(st.order)
  {
    hide GlobalsMatch, Binds;
    LinkedBounds(st.envs, st.packages[g.home], g.home, st.frames);
    forall i, t | 0 <= i < |st.frames| ensures !Binds(st, st.frames[i].env, t) { assert !ValidTag(st, t); }
  }

  /** Then the GO ends the program with "Tag is unreachable!", where the evaluation would go on. */
  lemma LostTagStops(g: Globals, p: Inherent, st: State, tag: Form, other: Form) returns (enough: nat)
    requires Idle(g, st) && !tag.Cons? && !other.Cons?
    requires !Found(st.order, JumperArray(st.order, tag, other), tag)
    ensures Interpret(p, st, Jumper(tag, other), enough) == Outcome.Error
  {
    hide Idle, Found, JumperArray, WithTags, Leads, Answers, Run, EmitForm, EmitTags, ValidTag, CodeAt, Jumper;
    IdleFacts(g, st);
    JumperCode(tag, other);
    LostIsInvalid(g, st, tag, other);
    var code := EmitForm(Jumper(tag, other), true, 0).code;
    var tags := JumperTags(tag, other);
    var st1 := PushEnv(st, FromBytes);
    var st2 := WithTags(st1, tags, 5);
    JumperParts(code, tag, EmitTags(tags, 5));
    LeadsOneStep(p, code, 0, st, st1);
    TagBytesLead(p, code, 1, st1, tags, 5);
    LeadsCompose(p, code, 0, st, 1, st1, 5, st2);
    FramesStay(st1, tags);
    ErrorStep(p, code, 5, st2);
    AnswersBack(p, code, 0, st, 5, st2, Outcome.Error);
    enough := AnswerFuel(p, code, st);
  }

  lemma FramesStay(st: State, tags: seq<(Form, nat)>)
    requires st.frames != []
    ensures WithTags(st, tags, 5).frames == st.frames
  {
  }

  lemma AnswerFuel(p: Inherent, code: seq<Byte>, st: State) returns (enough: nat)
    requires Answers(p, code, 0, st, Outcome.Error)
    ensures Run(p, code, 0, st, enough) == Outcome.Error
  {
    enough :| Run(p, code, 0, st, enough) == Outcome.Error;
  }

  lemma JumperParts(code: seq<Byte>, tag: Form, tagBytes: seq<Byte>)
    requires code == [PushLexicalEnv] + tagBytes + [GoReturn(tag)] + [Push(Nil), RetForm, PopLexicalEnv] && |tagBytes| == 4
    ensures |code| == 9 && code[0] == PushLexicalEnv && CodeAt(code, 1, tagBytes) && code[5] == GoReturn(tag)
  {
  }

  // ---- strings

  /**
   Two strings in a program are two objects, which the comparator never takes for the same: a GO to a string
   finds no tag.
   */
  lemma StringTag(g: Globals, p: Inherent, st: State, text: string, other: Form, fuel: nat) returns (enough: nat)
    requires Idle(g, st) && !other.Cons? && !other.Str? && fuel >= 1
    requires st.order(Str(text), Str(text)) != 0
    ensures Interpret(p, st, Jumper(Str(text), other), enough) == Outcome.Error
    ensures Eval(g, p, Jumper(Str(text), other), Vars(st), {}, fuel) == Value(Nil, Vars(st))
  {
    IdleFacts(g, st);
    var tag := Str(text);
    hide Idle, Eval, Interpret, Found, JumperArray, StoreOf;
    JumperEval(g, p, tag, other, Vars(st), fuel);
    StringLost(st.order, text, other);
    enough := LostTagStops(g, p, st, tag, other);
  }

  lemma StringLost(order: (Form, Form) -> int, text: string, other: Form)
    requires Distinguishes(order) && order(Str(text), Str(text)) != 0 && !other.Cons? && !other.Str?
    ensures !Found(order, JumperArray(order, Str(text), other), Str(text))
  {
    hide Inserted;
    var tag := Str(text);
    KeysInserted(order, [], tag, 6);
    KeysInserted(order, Inserted<Form, nat>(order, [], tag, 6), other, 6);
    if Found(order, JumperArray(order, tag, other), tag) {
      FoundIsZero(order, JumperArray(order, tag, other), tag);
    }
  }

  /** An insertion adds no key but its own. */
  lemma KeysInserted(order: (Form, Form) -> int, s: TagArray, tag: Form, index: nat)
    ensures var t: TagArray := Inserted<Form, nat>(order, s, tag, index);
      forall i :: 0 <= i < |t| ==> t[i].0 == tag || exists j :: 0 <= j < |s| && s[j].0 == t[i].0
  {
    hide Position;
    PositionInRange(order, s, tag);
    var q := Position(order, s, tag, 0);
    var t: TagArray := Inserted<Form, nat>(order, s, tag, index);
    forall i | 0 <= i < |t| ensures t[i].0 == tag || exists j :: 0 <= j < |s| && s[j].0 == t[i].0 {
      if |t| == |s| {
        assert s[i].0 == t[i].0;
      } else if i < q {
        assert s[i].0 == t[i].0;
      } else if i > q {
        assert s[i - 1].0 == t[i].0;
      }
    }
  }

  lemma PositionInRange(order: (Form, Form) -> int, s: TagArray, tag: Form)
    ensures Position(order, s, tag, 0) <= |s|
  {
  }

  // ---- fixnums

  /** Of two fixnum tags the first is found again if and only if they are not exactly 2^31 apart. */
  lemma FixnumFoundIff(place: Form -> nat, m: Word, n: Word)
    requires m != n
    ensures Found(Compare(place), JumperArray(Compare(place), Fixnum(m), Fixnum(n)), Fixnum(m))
      <==> m != n + HALF_WORD && n != m + HALF_WORD
  {
    var order := Compare(place);
    var tag, other := Fixnum(m), Fixnum(n);
    var one: TagArray := Inserted<Form, nat>(order, [], tag, 6);
    assert Position(order, one, tag, 0) == 0;
    assert one == [(tag, 6)];
    var two := JumperArray(order, tag, other);
    assert order(tag, other) == AsInt(m - n) && order(other, tag) == AsInt(n - m) && order(tag, tag) == 0;
    ZeroOnlyEqual(n, m);
    ZeroOnlyEqual(m, n);
    if order(other, tag) < 0 {
      assert Position(order, one, other, 0) == 0;
      assert two == [(other, 6), (tag, 6)];
      assert order(tag, other) > 0 ==> Position(order, two, tag, 0) == Position(order, two, tag, 1) == 1;
    } else {
      assert Position(order, one, other, 0) == Position(order, one, other, 1) == 1;
      assert two == [(tag, 6), (other, 6)];
      assert Position(order, two, tag, 0) == 0;
    }
  }

  /** If all tags put into a map are found again, the comparator has them in the order in which they lie there. */
  lemma FoundIsOrdered(place: Form -> nat, s: TagArray, x: Form, y: Form)
    requires Placed(place) && x != y && Found(Compare(place), s, x) && Found(Compare(place), s, y)
    ensures var order := Compare(place);
      && Position(order, s, x, 0) != Position(order, s, y, 0)
      && (Position(order, s, x, 0) < Position(order, s, y, 0) ==> order(y, x) > 0)
  {
    hide Compare, Placed;
    var order := Compare(place);
    PositionIs(order, s, x, 0);
    PositionIs(order, s, y, 0);
    CompareSign(place, x, s[Position(order, s, x, 0)].0);
    CompareSign(place, y, s[Position(order, s, y, 0)].0);
  }

  /** So they are good: the earlier is below the later, and never the other way round. */
  lemma AllFoundIsGood(place: Form -> nat, s: TagArray, tags: set<Form>)
    requires Placed(place)
    requires forall t <- tags :: !t.Cons? && !t.Str? && Found(Compare(place), s, t)
    ensures GoodTags(tags)
  {
    hide Found, Position, Compare, Placed;
    var order := Compare(place);
    forall x <- tags, y <- tags | x.Fixnum? && y.Fixnum? && x != y
      ensures TagBelow(x, y) <==> Position(order, s, x, 0) < Position(order, s, y, 0)
    {
      FoundIsOrdered(place, s, x, y);
      FoundIsOrdered(place, s, y, x);
      FixnumSign(place, x.n, y.n);
      FixnumSign(place, y.n, x.n);
    }
    assert forall x: Form :: !TagBelow(x, x);
  }

  lemma FixnumSign(place: Form -> nat, m: Word, n: Word)
    ensures Compare(place)(Fixnum(m), Fixnum(n)) > 0 ==> !Below(m, n) && Below(n, m)
  {
    WrapsBelow(m, n);
  }

  function TagSet(tags: seq<(Form, nat)>): set<Form> {
    set i | 0 <= i < |tags| :: tags[i].0
  }

  /**
   Under form_cmp the environment's map finds every tag put into it if and only if the tags are good: what the
   domain of the compiler theorem asks of fixnum tags is just what the maps need.
   */
  lemma AllFoundIff(place: Form -> nat, tags: seq<(Form, nat)>, bump: nat)
    requires Placed(place) && forall t <- TagSet(tags) :: !t.Cons? && !t.Str?
    ensures (forall t <- TagSet(tags) :: Found(Compare(place), AddTagsTo(Compare(place), [], tags, bump), t))
      <==> GoodTags(TagSet(tags))
  {
    hide Found, Compare, Placed, GoodTags, AddTagsTo, AddTags, HoldsTags, LastPosition;
    var order := Compare(place);
    var all := TagSet(tags);
    var s := AddTagsTo(order, [], tags, bump);
    FormCmpOrders(place);
    if GoodTags(all) {
      NoTagsHeld(order);
      AddTagsHold(order, [], map[], tags, bump, all);
      forall t <- all ensures Found(order, s, t) {
        NamedIsKey(tags, bump, t);
        TagLookup(order, s, AddTags(map[], tags, bump), t);
      }
    }
    if forall t <- all :: Found(order, s, t) {
      AllFoundIsGood(place, s, all);
    }
  }

  lemma NamedIsKey(tags: seq<(Form, nat)>, bump: nat, t: Form)
    requires t in TagSet(tags)
    ensures t in AddTags(map[], tags, bump)
  {
    hide AddTags;
    AddTagsLookup(map[], tags, bump, t);
    HasPosition(tags, t);
  }

  lemma {:induction false} HasPosition(tags: seq<(Form, nat)>, t: Form)
    requires t in TagSet(tags)
    ensures LastPosition(tags, t).Some?
  {
    if tags[0].0 != t {
      var i :| 0 <= i < |tags| && tags[i].0 == t;
      assert tags[1..][i - 1].0 == t;
      HasPosition(tags[1..], t);
    }
  }

  /** With fixnums 2^31 apart the GO to the first ends the program. */
  lemma FixnumTag(g: Globals, p: Inherent, st: State, place: Form -> nat, m: Word, n: Word, fuel: nat) returns (enough: nat)
    requires Idle(g, st) && st.order == Compare(place) && (m == n + HALF_WORD || n == m + HALF_WORD) && fuel >= 1
    ensures Interpret(p, st, Jumper(Fixnum(m), Fixnum(n)), enough) == Outcome.Error
    ensures Eval(g, p, Jumper(Fixnum(m), Fixnum(n)), Vars(st), {}, fuel) == Value(Nil, Vars(st))
  {
    hide Idle, Eval, Interpret, StoreOf, Found, JumperArray, Compare;
    JumperEval(g, p, Fixnum(m), Fixnum(n), Vars(st), fuel);
    FixnumFoundIff(place, m, n);
    enough := LostTagStops(g, p, st, Fixnum(m), Fixnum(n));
  }
}
