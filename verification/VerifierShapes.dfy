/** Analyzed code has a shape everywhere and leaves both stacks as they were. */
module VerifierShapes {
  import opened Forms
  import opened Bytecode
  import opened TagOrders
  import opened Evaluator
  import opened Shapes
  import opened Simulation
  import opened TagTable
  import opened CallSteps
  import opened Verifier

  function WithForm(sh: Shape, f: Option<Form>): Shape {
    sh.(forms := sh.forms + [f])
  }

  function WithFrame(sh: Shape, tags: map<Form, nat>): Shape {
    sh.(frames := sh.frames + [tags])
  }

  /** The tags live where a form of this shape stands. */
  function LiveAt(sh: Shape, live: set<Form>): set<Form> {
    live + TagsIn(sh.frames)
  }

  lemma LiveInFrame(sh: Shape, tags: map<Form, nat>, live: set<Form>)
    ensures LiveAt(WithFrame(sh, tags), live) == LiveAt(sh, live) + tags.Keys
  {
    assert (sh.frames + [tags])[..|sh.frames|] == sh.frames;
  }

  // ---- single instructions

  lemma PushAbstract(sh: Shape, f: Form, live: set<Form>)
    ensures Abstract(sh, Push(f), live) == Some(WithForm(sh, Some(f)))
  {
  }

  lemma TopAbstract(sh: Shape, top: Option<Form>, live: set<Form>)
    ensures Abstract(WithForm(sh, top), RetForm, live) == Some(sh)
    ensures Abstract(WithForm(sh, top), Pop, live) == Some(sh)
    ensures Abstract(WithForm(sh, top), LookupSymbol, live) == Some(WithForm(sh, None))
    ensures Abstract(WithForm(sh, top), LookupFunction, live) == Some(WithForm(sh, None))
  {
    assert (sh.forms + [top])[..|sh.forms|] == sh.forms;
  }

  lemma FrameAbstract(sh: Shape, tags: map<Form, nat>, live: set<Form>)
    ensures Abstract(sh, PushLexicalEnv, live) == Some(WithFrame(sh, map[]))
    ensures Abstract(WithFrame(sh, tags), PopLexicalEnv, live) == Some(sh)
  {
    assert (sh.frames + [tags])[..|sh.frames|] == sh.frames;
  }

  lemma BindValueAbstract(sh: Shape, name: Option<Form>, value: Option<Form>, live: set<Form>)
    ensures Abstract(WithForm(WithForm(sh, name), value), BindValue, live) == Some(WithForm(sh, None))
  {
    assert (sh.forms + [name] + [value])[..|sh.forms|] == sh.forms;
  }

  lemma BindTagAbstract(sh: Shape, tags: map<Form, nat>, tag: Form, index: nat, live: set<Form>)
    requires GoodTags(tags.Keys + {tag})
    ensures Abstract(WithForm(WithFrame(sh, tags), Some(tag)), BindTag(index), live) == Some(WithFrame(sh, tags[tag := index]))
  {
    hide GoodTags;
    assert (sh.forms + [Some(tag)])[..|sh.forms|] == sh.forms;
    assert (sh.frames + [tags])[|sh.frames| := tags[tag := index]] == sh.frames + [tags[tag := index]];
  }

  // ---- two pieces, three pieces

  lemma Fold2(a: seq<Byte>, b: seq<Byte>, sh: Shape, mid: Shape, end: Shape, live: set<Form>)
    requires Fold(a, sh, live) == Some(mid) && Fold(b, mid, live) == Some(end)
    ensures Fold(a + b, sh, live) == Some(end)
  {
    FoldBoth(a, b, sh, live);
  }

  lemma FoldCons(b: Byte, rest: seq<Byte>, sh: Shape, mid: Shape, end: Shape, live: set<Form>)
    requires Abstract(sh, b, live) == Some(mid) && Fold(rest, mid, live) == Some(end)
    ensures Fold([b] + rest, sh, live) == Some(end)
  {
    hide Abstract, Fold;
    FoldOne(b, sh, live);
    Fold2([b], rest, sh, mid, end, live);
  }

  lemma FoldSnoc(code: seq<Byte>, b: Byte, sh: Shape, mid: Shape, end: Shape, live: set<Form>)
    requires Fold(code, sh, live) == Some(mid) && Abstract(mid, b, live) == Some(end)
    ensures Fold(code + [b], sh, live) == Some(end)
  {
    hide Abstract, Fold;
    FoldOne(b, mid, live);
    Fold2(code, [b], sh, mid, end, live);
  }

  // ---- calls and values

  lemma {:induction false} PushesFold(args: seq<Form>, sh: Shape, live: set<Form>)
    ensures Fold(EmitPushes(args), sh, live) == Some(sh.(forms := sh.forms + Known(args)))
    decreases |args|
  {
    hide Abstract;
    if args == [] {
      assert sh.forms + Known(args) == sh.forms;
      assert Fold([], sh, live) == Some(sh);
    } else {
      var sh1 := WithForm(sh, Some(args[0]));
      PushAbstract(sh, args[0], live);
      PushesFold(args[1..], sh1, live);
      KnownFront(args);
      assert sh1.forms + Known(args[1..]) == sh.forms + Known(args);
      FoldCons(Push(args[0]), EmitPushes(args[1..]), sh, sh1, sh.(forms := sh.forms + Known(args)), live);
    }
  }

  lemma {:induction false} KnownFront(args: seq<Form>)
    requires args != []
    ensures Known(args) == [Some(args[0])] + Known(args[1..])
    decreases |args|
  {
    if |args| > 1 {
      KnownFront(args[..|args| - 1]);
      assert args[..|args| - 1][1..] == args[1..][..|args| - 2];
    } else {
      assert args[..0] == [] && args[1..] == [];
    }
  }

  lemma FuncallAbstract(sh: Shape, fn: Option<Form>, args: seq<Form>, live: set<Form>)
    requires AllCompilable(ListOf(args), false, {}, LiveAt(sh, live))
    ensures Abstract(sh.(forms := sh.forms + [fn] + Known(args)), Funcall(|args|), live) == Some(WithForm(sh, None))
  {
    hide *;
    KnownTopIs(sh.forms + [fn], args);
    var sh1 := sh.(forms := sh.forms + [fn] + Known(args));
    LiveAtIs(sh, live);
    CallFitsIs(sh1.forms, args, live + TagsIn(sh.frames));
    FuncallIs(sh1, |args|, live);
    assert sh1.forms[..|sh1.forms| - |args| - 1] == sh.forms;
    WithFormIs(sh, None);
  }

  lemma LiveAtIs(sh: Shape, live: set<Form>)
    ensures LiveAt(sh, live) == live + TagsIn(sh.frames)
  {
  }

  lemma WithFormIs(sh: Shape, f: Option<Form>)
    ensures WithForm(sh, f) == sh.(forms := sh.forms + [f])
  {
  }

  lemma CallFitsIs(forms: seq<Option<Form>>, args: seq<Form>, live: set<Form>)
    requires KnownTop(forms, |args|) == Some(args) && |forms| >= |args| + 1 && AllCompilable(ListOf(args), false, {}, live)
    ensures CallFits(forms, |args|, live)
  {
    hide AllCompilable, KnownTop, ListOf;
  }

  lemma CallFolds(head: Form, args: seq<Form>, sh: Shape, live: set<Form>)
    requires AllCompilable(ListOf(args), false, {}, LiveAt(sh, live))
    ensures Fold([Push(head), LookupFunction] + EmitPushes(args) + [Funcall(|args|)], sh, live) == Some(WithForm(sh, None))
  {
    hide Abstract, Fold, AllCompilable, LiveAt;
    PushAbstract(sh, head, live);
    TopAbstract(sh, Some(head), live);
    FoldOne(Push(head), sh, live);
    var sh1 := WithForm(sh, None);
    FoldSnoc([Push(head)], LookupFunction, sh, WithForm(sh, Some(head)), sh1, live);
    assert [Push(head)] + [LookupFunction] == [Push(head), LookupFunction];
    PushesFold(args, sh1, live);
    var sh2 := sh.(forms := sh.forms + [None] + Known(args));
    Fold2([Push(head), LookupFunction], EmitPushes(args), sh, sh1, sh2, live);
    FuncallAbstract(sh, None, args, live);
    FoldSnoc([Push(head), LookupFunction] + EmitPushes(args), Funcall(|args|), sh, sh2, sh1, live);
  }

  /** What a value leaves on the form stack. */
  function ValueSlot(f: Form): Option<Form> {
    if f.Cons? || f.Sym? then None else Some(f)
  }

  lemma ValueFolds(f: Form, base: nat, sh: Shape, live: set<Form>)
    requires CompilableValue(f, LiveAt(sh, live))
    ensures Fold(EmitForm(f, false, base).code, sh, live) == Some(WithForm(sh, ValueSlot(f)))
  {
    hide Abstract, Fold, AllCompilable, EmitPushes, LiveAt;
    if f.Cons? {
      CallCode(f, LiveAt(sh, live), base);
      AllCompilableProper(f.cdr, LiveAt(sh, live));
      ElementsAreList(f.cdr);
      CallFolds(f.car, Elements(f.cdr), sh, live);
    } else {
      PushAbstract(sh, f, live);
      FoldOne(Push(f), sh, live);
      if f.Sym? {
        TopAbstract(sh, Some(f), live);
        FoldSnoc([Push(f)], LookupSymbol, sh, WithForm(sh, Some(f)), WithForm(sh, None), live);
        assert [Push(f)] + [LookupSymbol] == [Push(f), LookupSymbol] + Ret(false);
      } else {
        assert [Push(f)] + Ret(false) == [Push(f)];
      }
    }
  }

  /** A value that is returned. */
  lemma ReturnFolds(f: Form, base: nat, sh: Shape, live: set<Form>)
    requires CompilableValue(f, LiveAt(sh, live))
    ensures Fold(EmitForm(f, true, base).code, sh, live) == Some(sh)
  {
    hide Abstract, Fold, CompilableValue, EmitForm, LiveAt;
    ValueEmits(f, LiveAt(sh, live), base);
    ReturnedCode(f, LiveAt(sh, live), base);
    ValueFolds(f, base, sh, live);
    TopAbstract(sh, ValueSlot(f), live);
    FoldSnoc(EmitForm(f, false, base).code, RetForm, sh, WithForm(sh, ValueSlot(f)), sh, live);
  }

  // ---- the special forms

  lemma {:induction false} FormFolds(f: Form, nested: bool, tags: set<Form>, base: nat, sh: Shape, live: set<Form>)
    requires Compilable(f, nested, tags, LiveAt(sh, live))
    ensures Fold(EmitForm(f, true, base).code, sh, live) == Some(sh)
    decreases Size(f), 2
  {
    hide Abstract, Fold, EmitForm, LiveAt, Compilable, TagsOf;
    if !f.Cons? {
      AtomIsValue(f, nested, tags, LiveAt(sh, live));
      ReturnFolds(f, base, sh, live);
    } else {
      CompilableParts(f, nested, tags, LiveAt(sh, live));
      var special := SpecialOf(f.car.sym.lexeme);
      if special != NotSpecial { SpecialCode(f, base); }
      match special {
        case NotSpecial => ReturnFolds(f, base, sh, live);
        case Go =>
          assert Abstract(sh, GoReturn(f.cdr.car), live) == Some(sh) by { GoAbstract(sh, f.cdr.car, live); }
          FoldOne(GoReturn(f.cdr.car), sh, live);
        case Quote =>
          QuoteFolds(f.cdr.car, sh, live);
        case Progn =>
          SequenceFolds(f.cdr, nested, tags, base, sh, live);
          SpecialIs(f.cdr, base);
        case LetStar =>
          BindingsEmit(f.cdr.car, LiveAt(sh, live), base);
          SequenceEmits(f.cdr.cdr, nested, tags, LiveAt(sh, live), base + |EmitBindings(f.cdr.car, base).code|);
          LetStarCode(f.cdr, base);
          LetSize(f);
          LetFolds(f.cdr.car, f.cdr.cdr, nested, tags, base, sh, live);
        case Tagbody =>
          TagbodyFolds(f.cdr, if nested then tags - TagsOf(f.cdr) else TagsOf(f.cdr), base, sh, live);
      }
    }
  }

  lemma LetSize(f: Form)
    requires f.Cons? && f.cdr.Cons?
    ensures Size(f.cdr.car) + Size(f.cdr.cdr) < Size(f)
  {
  }

  lemma CdrSize(f: Form)
    requires f.Cons?
    ensures Size(f.cdr) < Size(f)
  {
  }

  lemma AtomIsValue(f: Form, nested: bool, tags: set<Form>, live: set<Form>)
    requires !f.Cons? && Compilable(f, nested, tags, live)
    ensures CompilableValue(f, live)
  {
  }

  lemma GoAbstract(sh: Shape, tag: Form, live: set<Form>)
    ensures Abstract(sh, GoReturn(tag), live) == Some(sh)
  {
  }

  lemma SpecialIs(args: Form, base: nat)
    requires args.Cons?
    ensures EmitSpecial(Progn, args, base) == EmitProgn(args, base)
    ensures EmitSpecial(Quote, args, base).code == [Push(args.car), RetForm]
    ensures EmitSpecial(Go, args, base).code == [GoReturn(args.car)]
  {
  }

  lemma QuoteFolds(f: Form, sh: Shape, live: set<Form>)
    ensures Fold([Push(f), RetForm], sh, live) == Some(sh)
  {
    hide Abstract, Fold;
    PushAbstract(sh, f, live);
    FoldOne(Push(f), sh, live);
    TopAbstract(sh, Some(f), live);
    FoldSnoc([Push(f)], RetForm, sh, WithForm(sh, Some(f)), sh, live);
    assert [Push(f)] + [RetForm] == [Push(f), RetForm];
  }

  lemma {:induction false} SequenceFolds(forms: Form, nested: bool, tags: set<Form>, base: nat, sh: Shape, live: set<Form>)
    requires AllCompilable(forms, nested, tags, LiveAt(sh, live))
    ensures Fold(EmitProgn(forms, base).code, sh, live) == Some(sh)
    decreases Size(forms), 3
  {
    hide Abstract, EmitForm, LiveAt, Compilable;
    if forms.Cons? {
      CompilableEmits(forms.car, nested, tags, LiveAt(sh, live), true, base);
      SequenceCode(forms, base);
      var head := EmitForm(forms.car, true, base).code;
      FormFolds(forms.car, nested, tags, base, sh, live);
      SequenceFolds(forms.cdr, nested, tags, base + |head|, sh, live);
      Fold2(head, EmitProgn(forms.cdr, base + |head|).code, sh, sh, sh, live);
    }
  }

  lemma {:induction false} LetFolds(vars: Form, body: Form, nested: bool, tags: set<Form>, base: nat, sh: Shape, live: set<Form>)
    requires CompilableBindings(vars, LiveAt(sh, live)) && AllCompilable(body, nested, tags, LiveAt(sh, live))
    ensures Fold(LetCode(vars, body, base), sh, live) == Some(sh)
    decreases Size(vars) + Size(body), 4
  {
    hide Abstract, Fold, EmitForm, LiveAt, CompilableValue, AllCompilable, LetCode, EmitProgn;
    if vars.Nil? {
      LetBodyCode(body, base);
      SequenceFolds(body, nested, tags, base, sh, live);
    } else {
      var name := vars.car.car;
      var sh1 := WithFrame(sh, map[]);
      LiveInFrame(sh, map[], live);
      assert LiveAt(sh1, live) == LiveAt(sh, live);
      ValueEmits(ValueForm(vars.car), LiveAt(sh, live), base + 2);
      LetCodeCons(vars, body, base);
      var value := EmitForm(ValueForm(vars.car), false, base + 2).code;
      var rest := LetCode(vars.cdr, body, base + |value| + 4);
      BindingFolds(ValueForm(vars.car), name, base + 2, sh, live);
      LetFolds(vars.cdr, body, nested, tags, base + |value| + 4, sh1, live);
      Fold2([PushLexicalEnv, Push(name)] + value + [BindValue, Pop], rest, sh, sh1, sh1, live);
      FrameAbstract(sh, map[], live);
      FoldSnoc([PushLexicalEnv, Push(name)] + value + [BindValue, Pop] + rest, PopLexicalEnv, sh, sh1, sh, live);
    }
  }

  /** One binding: a new environment, its name and value pushed, bound and popped. */
  lemma BindingFolds(f: Form, name: Form, base: nat, sh: Shape, live: set<Form>)
    requires CompilableValue(f, LiveAt(sh, live))
    ensures Fold([PushLexicalEnv, Push(name)] + EmitForm(f, false, base).code + [BindValue, Pop], sh, live) == Some(WithFrame(sh, map[]))
  {
    hide Abstract, Fold, EmitForm, LiveAt, CompilableValue;
    var sh1 := WithFrame(sh, map[]);
    var sh2 := WithForm(sh1, Some(name));
    var sh3 := WithForm(sh2, ValueSlot(f));
    var sh4 := WithForm(sh1, None);
    var value := EmitForm(f, false, base).code;
    LiveInFrame(sh, map[], live);
    SameLive(sh1, Some(name), live);
    FrameAbstract(sh, map[], live);
    FoldOne(PushLexicalEnv, sh, live);
    PushAbstract(sh1, name, live);
    FoldSnoc([PushLexicalEnv], Push(name), sh, sh1, sh2, live);
    assert [PushLexicalEnv] + [Push(name)] == [PushLexicalEnv, Push(name)];
    assert LiveAt(sh2, live) == LiveAt(sh, live);
    ValueFolds(f, base, sh2, live);
    Fold2([PushLexicalEnv, Push(name)], value, sh, sh2, sh3, live);
    BindValueAbstract(sh1, Some(name), ValueSlot(f), live);
    FoldSnoc([PushLexicalEnv, Push(name)] + value, BindValue, sh, sh3, sh4, live);
    TopAbstract(sh1, None, live);
    FoldSnoc([PushLexicalEnv, Push(name)] + value + [BindValue], Pop, sh, sh4, sh1, live);
    assert [PushLexicalEnv, Push(name)] + value + [BindValue] + [Pop] == [PushLexicalEnv, Push(name)] + value + [BindValue, Pop];
  }

  lemma SameLive(sh: Shape, f: Option<Form>, live: set<Form>)
    ensures LiveAt(WithForm(sh, f), live) == LiveAt(sh, live)
  {
  }

  // ---- TAGBODY

  lemma {:induction false} TagsFold(tags: seq<(Form, nat)>, bump: nat, sh: Shape, bound: map<Form, nat>, all: set<Form>, live: set<Form>)
    requires GoodTags(all) && bound.Keys <= all && forall i :: 0 <= i < |tags| ==> tags[i].0 in all
    ensures Fold(EmitTags(tags, bump), WithFrame(sh, bound), live) == Some(WithFrame(sh, AddTags(bound, tags, bump)))
    decreases |tags|
  {
    hide Abstract, GoodTags;
    if tags != [] {
      var (tag, at) := tags[0];
      FewerTags(all, bound.Keys + {tag});
      var sh1 := WithFrame(sh, bound);
      var sh2 := WithFrame(sh, bound[tag := at + bump]);
      var end := WithFrame(sh, AddTags(bound, tags, bump));
      PushAbstract(sh1, tag, live);
      BindTagAbstract(sh, bound, tag, at + bump, live);
      TagsFold(tags[1..], bump, sh, bound[tag := at + bump], all, live);
      var rest := EmitTags(tags[1..], bump);
      FoldCons(BindTag(at + bump), rest, WithForm(sh1, Some(tag)), sh2, end, live);
      FoldCons(Push(tag), [BindTag(at + bump)] + rest, sh1, WithForm(sh1, Some(tag)), end, live);
      assert [Push(tag)] + ([BindTag(at + bump)] + rest) == [Push(tag), BindTag(at + bump)] + rest;
    }
  }

  /** The tags a TAGBODY's environment ends up with, when its tag bytes start behind instruction `base`. */
  function TagMap(args: Form, base: nat): map<Form, nat> {
    var tags := EmitStatements(args, 0).tags;
    AddTags(map[], tags, base + 1 + 2 * |tags|)
  }

  /** Behind the tag bytes, at the position recorded last for the tag. */
  predicate IsTagIndex(args: Form, base: nat, tag: Form, index: nat) {
    var tags := EmitStatements(args, 0).tags;
    var at := LastPosition(tags, tag);
    at.Some? && index == base + 1 + 2 * |tags| + at.value
  }

  lemma TagMapKeys(args: Form, base: nat)
    requires EmitStatements(args, 0).status == Good
    ensures TagMap(args, base).Keys == TagsOf(args)
    ensures forall t <- TagsOf(args) :: t in TagMap(args, base) && IsTagIndex(args, base, t, TagMap(args, base)[t])
  {
    hide EmitStatements, LastPosition, TagsOf, AddTags;
    var tags := EmitStatements(args, 0).tags;
    forall t
      ensures t in TagMap(args, base) <==> t in TagsOf(args)
      ensures t in TagsOf(args) ==> IsTagIndex(args, base, t, TagMap(args, base)[t])
    {
      PositionIsAfterTag(args, 0, t);
      AddTagsLookup(map[], tags, base + 1 + 2 * |tags|, t);
    }
  }

  lemma {:induction false} StatementsFold(args: Form, tags: set<Form>, pos: nat, sh: Shape, live: set<Form>)
    requires CompilableStatements(args, tags, LiveAt(sh, live))
    ensures Fold(EmitStatements(args, pos).code, sh, live) == Some(sh)
    decreases Size(args), 3
  {
    hide Abstract, EmitForm, LiveAt, Compilable;
    if args.Cons? {
      if args.car.Cons? {
        CompilableEmits(args.car, true, tags, LiveAt(sh, live), true, pos);
        StatementCode(args, pos);
        var head := EmitForm(args.car, true, pos).code;
        FormFolds(args.car, true, tags, pos, sh, live);
        StatementsFold(args.cdr, tags, pos + |head|, sh, live);
        Fold2(head, EmitStatements(args.cdr, pos + |head|).code, sh, sh, sh, live);
      } else {
        TagCode(args, pos);
        StatementsFold(args.cdr, tags, pos, sh, live);
      }
    }
  }

  lemma {:induction false} TagbodyFolds(args: Form, tags: set<Form>, base: nat, sh: Shape, live: set<Form>)
    requires args.Cons? && GoodTags(TagsOf(args)) && CompilableStatements(args, tags, LiveAt(sh, live) + TagsOf(args))
    ensures Fold(EmitSpecial(Tagbody, args, base).code, sh, live) == Some(sh)
    decreases Size(args), 5
  {
    hide Abstract, Fold, LiveAt, CompilableStatements, TagsOf, EmitStatements, EmitTags, TagMap, EmitSpecial, GoodTags;
    StatementsEmit(args, tags, LiveAt(sh, live) + TagsOf(args), 0);
    TagbodyCode(args, base);
    TagMapKeys(args, base);
    var sh1 := WithFrame(sh, TagMap(args, base));
    LiveInFrame(sh, TagMap(args, base), live);
    StatementsFold(args, tags, 0, sh1, live);
    TagbodyPrefixFolds(args, base, sh, live);
    var s := EmitStatements(args, 0);
    var prefix := [PushLexicalEnv] + EmitTags(s.tags, base + 1 + 2 * |s.tags|);
    Fold2(prefix, s.code, sh, sh1, sh1, live);
    QuoteFolds(Nil, sh1, live);
    Fold2(prefix + s.code, [Push(Nil), RetForm], sh, sh1, sh1, live);
    FrameAbstract(sh, TagMap(args, base), live);
    FoldSnoc(prefix + s.code + [Push(Nil), RetForm], PopLexicalEnv, sh, sh1, sh, live);
    assert prefix + s.code + [Push(Nil), RetForm] + [PopLexicalEnv] == prefix + s.code + [Push(Nil), RetForm, PopLexicalEnv];
  }

  lemma TagbodyPrefixFolds(args: Form, base: nat, sh: Shape, live: set<Form>)
    requires EmitStatements(args, 0).status == Good && GoodTags(TagsOf(args))
    ensures var s := EmitStatements(args, 0);
      Fold([PushLexicalEnv] + EmitTags(s.tags, base + 1 + 2 * |s.tags|), sh, live) == Some(WithFrame(sh, TagMap(args, base)))
  {
    hide Abstract, Fold, EmitStatements, EmitTags, AddTags, GoodTags, TagsOf;
    TagNames(args, 0);
    var s := EmitStatements(args, 0);
    FrameAbstract(sh, map[], live);
    TagsFold(s.tags, base + 1 + 2 * |s.tags|, sh, map[], TagsOf(args), live);
    FoldCons(PushLexicalEnv, EmitTags(s.tags, base + 1 + 2 * |s.tags|), sh, WithFrame(sh, map[]), WithFrame(sh, TagMap(args, base)), live);
  }
}
