/** Every GO in analyzed code fits. */
module VerifierGos {
  // Each leads to an instruction of the shape it arrives with: the code verifies.

  import opened Forms
  import opened Bytecode
  import opened TagOrders
  import opened Evaluator
  import opened Shapes
  import opened Simulation
  import opened Runs
  import opened TagTable
  import opened Verifier
  import opened VerifierShapes

  /** A GO to any of these tags fits here. */
  ghost predicate TagsFit(code: seq<Byte>, sh: Shape, tags: set<Form>, live: set<Form>) {
    forall t <- tags :: GoFits(code, sh, t, live)
  }

  lemma InnerFrame(code: seq<Byte>, sh: Shape, bound: map<Form, nat>, tags: set<Form>, live: set<Form>)
    requires TagsFit(code, sh, tags, live)
    ensures TagsFit(code, WithFrame(sh, bound), tags - bound.Keys, live)
  {
    hide ShapeAt;
    forall t <- tags - bound.Keys ensures GoFits(code, WithFrame(sh, bound), t, live) {
      var frames := sh.frames + [bound];
      assert frames[..|frames| - 1] == sh.frames;
      assert Resolve(frames, t) == Resolve(sh.frames, t);
      var j := Resolve(sh.frames, t);
      if j.Some? { assert frames[..j.value + 1] == sh.frames[..j.value + 1]; }
    }
  }

  /** A tag that is bound nowhere fits trivially: the run stops with an error or never leaves. */
  lemma DeadTagFits(code: seq<Byte>, sh: Shape, tag: Form, live: set<Form>)
    requires tag !in LiveAt(sh, live)
    ensures GoFits(code, sh, tag, live)
  {
    hide ShapeAt;
    if Resolve(sh.frames, tag).Some? { ResolveInTags(sh.frames, tag); }
  }

  lemma {:induction false} ResolveInTags(frames: seq<map<Form, nat>>, tag: Form)
    requires Resolve(frames, tag).Some?
    ensures tag in TagsIn(frames)
  {
    if tag !in frames[|frames| - 1] { ResolveInTags(frames[..|frames| - 1], tag); }
  }

  // ---- pieces of code

  lemma GosBoth(code: seq<Byte>, a: nat, b: nat, c: nat, live: set<Form>)
    requires GosFit(code, a, b, live) && GosFit(code, b, c, live)
    ensures GosFit(code, a, c, live)
  {
    hide GoFits, ShapeAt;
  }

  predicate NoGo(part: seq<Byte>) {
    forall i :: 0 <= i < |part| ==> !part[i].GoReturn?
  }

  lemma NoGoBoth(a: seq<Byte>, b: seq<Byte>)
    requires NoGo(a) && NoGo(b)
    ensures NoGo(a + b)
  {
  }

  lemma NoGosFit(code: seq<Byte>, pc: nat, part: seq<Byte>, live: set<Form>)
    requires CodeAt(code, pc, part) && NoGo(part)
    ensures GosFit(code, pc, pc + |part|, live)
  {
    hide GoFits, ShapeAt;
    forall i | pc <= i < pc + |part| ensures !code[i].GoReturn? {
      assert code[i] == part[i - pc];
    }
  }

  lemma {:induction false} PushesNoGo(args: seq<Form>)
    ensures NoGo(EmitPushes(args))
  {
    if args != [] { PushesNoGo(args[1..]); }
  }

  lemma {:induction false} TagsNoGo(tags: seq<(Form, nat)>, bump: nat)
    ensures NoGo(EmitTags(tags, bump))
  {
    if tags != [] { TagsNoGo(tags[1..], bump); }
  }

  lemma ValueNoGo(f: Form, base: nat, live: set<Form>)
    requires CompilableValue(f, live)
    ensures NoGo(EmitForm(f, false, base).code) && NoGo(EmitForm(f, true, base).code)
  {
    hide Compilable, EmitPushes;
    ValueEmits(f, live, base);
    ReturnedCode(f, live, base);
    if f.Cons? {
      CallCode(f, live, base);
      AllCompilableProper(f.cdr, live);
      PushesNoGo(Elements(f.cdr));
    }
  }

  // ---- forms

  lemma {:induction false} FormGos(f: Form, nested: bool, tags: set<Form>, code: seq<Byte>, pc: nat, base: nat, sh: Shape, live: set<Form>)
    requires Compilable(f, nested, tags, LiveAt(sh, live)) && (!nested ==> tags == {} && base == pc)
    requires CodeAt(code, pc, EmitForm(f, true, base).code) && ShapeAt(code, pc, live) == Some(sh) && sh.forms == []
    requires TagsFit(code, sh, tags, live)
    ensures GosFit(code, pc, pc + |EmitForm(f, true, base).code|, live)
    decreases Size(f), 2
  {
    hide *;
    if !f.Cons? {
      AtomIsValue(f, nested, tags, LiveAt(sh, live));
      ValueNoGo(f, base, LiveAt(sh, live));
      NoGosFit(code, pc, EmitForm(f, true, base).code, live);
    } else {
      CdrSize(f);
      CompilableParts(f, nested, tags, LiveAt(sh, live));
      var special := SpecialOf(f.car.sym.lexeme);
      if special != NotSpecial { SpecialCode(f, base); }
      match special {
        case NotSpecial =>
          ValueNoGo(f, base, LiveAt(sh, live));
          NoGosFit(code, pc, EmitForm(f, true, base).code, live);
        case Go => GoGos(f.cdr, tags, code, pc, base, sh, live);
        case Quote =>
          SpecialIs(f.cdr, base);
          QuoteNoGo(f.cdr.car);
          NoGosFit(code, pc, [Push(f.cdr.car), RetForm], live);
        case Progn =>
          SpecialIs(f.cdr, base);
          SequenceGos(f.cdr, nested, tags, code, pc, base, sh, live);
        case LetStar =>
          BindingsEmit(f.cdr.car, LiveAt(sh, live), base);
          SequenceEmits(f.cdr.cdr, nested, tags, LiveAt(sh, live), base + |EmitBindings(f.cdr.car, base).code|);
          LetStarCode(f.cdr, base);
          LetSize(f);
          LetGos(f.cdr.car, f.cdr.cdr, nested, tags, code, pc, base, sh, live);
        case Tagbody =>
          TagbodyGos(f.cdr, nested, tags, code, pc, base, sh, live);
      }
    }
  }

  lemma QuoteNoGo(f: Form)
    ensures NoGo([Push(f), RetForm])
  {
  }

  lemma GoGos(args: Form, tags: set<Form>, code: seq<Byte>, pc: nat, base: nat, sh: Shape, live: set<Form>)
    requires args.Cons? && (args.car in tags || args.car !in LiveAt(sh, live))
    requires CodeAt(code, pc, EmitSpecial(Go, args, base).code) && ShapeAt(code, pc, live) == Some(sh)
    requires TagsFit(code, sh, tags, live)
    ensures GosFit(code, pc, pc + |EmitSpecial(Go, args, base).code|, live)
  {
    hide ShapeAt, GoFits, LiveAt, CodeAt;
    if args.car !in tags { DeadTagFits(code, sh, args.car, live); }
    CodeAtIndex(code, pc, EmitSpecial(Go, args, base).code, 0);
  }

  lemma {:induction false} SequenceGos(forms: Form, nested: bool, tags: set<Form>, code: seq<Byte>, pc: nat, base: nat, sh: Shape, live: set<Form>)
    requires AllCompilable(forms, nested, tags, LiveAt(sh, live)) && (!nested ==> tags == {} && base == pc)
    requires CodeAt(code, pc, EmitProgn(forms, base).code) && ShapeAt(code, pc, live) == Some(sh) && sh.forms == []
    requires TagsFit(code, sh, tags, live)
    ensures GosFit(code, pc, pc + |EmitProgn(forms, base).code|, live)
    decreases Size(forms), 3
  {
    hide EmitForm, LiveAt, Compilable, CodeAt, ShapeAt, TagsFit, GoFits, Fold;
    if forms.Cons? {
      CompilableEmits(forms.car, nested, tags, LiveAt(sh, live), true, base);
      SequenceCode(forms, base);
      var head := EmitForm(forms.car, true, base).code;
      var tail := EmitProgn(forms.cdr, base + |head|).code;
      CodeAtSplit(code, pc, head, tail);
      FormGos(forms.car, nested, tags, code, pc, base, sh, live);
      FormFolds(forms.car, nested, tags, base, sh, live);
      NextShape(code, pc, head, sh, sh, live);
      SequenceGos(forms.cdr, nested, tags, code, pc + |head|, base + |head|, sh, live);
      GosBoth(code, pc, pc + |head|, pc + |head| + |tail|, live);
    }
  }

  lemma NextShape(code: seq<Byte>, pc: nat, part: seq<Byte>, sh: Shape, end: Shape, live: set<Form>)
    requires CodeAt(code, pc, part) && ShapeAt(code, pc, live) == Some(sh) && Fold(part, sh, live) == Some(end)
    ensures ShapeAt(code, pc + |part|, live) == Some(end)
  {
    hide ShapeAt, Fold;
    ShapeAfter(code, pc, part, live);
  }

  lemma {:induction false} LetGos(vars: Form, body: Form, nested: bool, tags: set<Form>, code: seq<Byte>, pc: nat, base: nat, sh: Shape, live: set<Form>)
    requires CompilableBindings(vars, LiveAt(sh, live)) && AllCompilable(body, nested, tags, LiveAt(sh, live))
    requires !nested ==> tags == {} && base == pc
    requires CodeAt(code, pc, LetCode(vars, body, base)) && ShapeAt(code, pc, live) == Some(sh) && sh.forms == []
    requires TagsFit(code, sh, tags, live)
    ensures GosFit(code, pc, pc + |LetCode(vars, body, base)|, live)
    decreases Size(vars) + Size(body), 4
  {
    hide EmitForm, LiveAt, CompilableValue, AllCompilable, LetCode, EmitProgn, CodeAt, ShapeAt, TagsFit, GosFit, Fold;
    if vars.Nil? {
      LetBodyCode(body, base);
      SequenceGos(body, nested, tags, code, pc, base, sh, live);
    } else {
      var sh1 := WithFrame(sh, map[]);
      LiveInFrame(sh, map[], live);
      assert LiveAt(sh1, live) == LiveAt(sh, live);
      ValueEmits(ValueForm(vars.car), LiveAt(sh, live), base + 2);
      LetCodeCons(vars, body, base);
      var value := EmitForm(ValueForm(vars.car), false, base + 2).code;
      var head := [PushLexicalEnv, Push(vars.car.car)] + value + [BindValue, Pop];
      var rest := LetCode(vars.cdr, body, base + |value| + 4);
      HeadLength(value, vars.car.car);
      CodeAtSplit(code, pc, head + rest, [PopLexicalEnv]);
      CodeAtSplit(code, pc, head, rest);
      ValueNoGo(ValueForm(vars.car), base + 2, LiveAt(sh, live));
      BindingNoGo(value, vars.car.car);
      NoGosFit(code, pc, head, live);
      BindingFolds(ValueForm(vars.car), vars.car.car, base + 2, sh, live);
      NextShape(code, pc, head, sh, sh1, live);
      InnerFrame(code, sh, map[], tags, live);
      assert TagsFit(code, sh1, tags, live) by { NoKeys(tags); }
      LetGos(vars.cdr, body, nested, tags, code, pc + |head|, base + |value| + 4, sh1, live);
      NoGosFit(code, pc + |head + rest|, [PopLexicalEnv], live);
      GosBoth(code, pc, pc + |head|, pc + |head| + |rest|, live);
      GosBoth(code, pc, pc + |head| + |rest|, pc + |head| + |rest| + 1, live);
    }
  }

  lemma NoKeys(tags: set<Form>)
    ensures var bound: map<Form, nat> := map[]; tags - bound.Keys == tags
  {
  }

  lemma BindingNoGo(value: seq<Byte>, name: Form)
    requires NoGo(value)
    ensures NoGo([PushLexicalEnv, Push(name)] + value + [BindValue, Pop])
  {
    NoGoBoth([PushLexicalEnv, Push(name)], value);
    NoGoBoth([PushLexicalEnv, Push(name)] + value, [BindValue, Pop]);
  }

  // ---- TAGBODY

  lemma {:induction false} StatementsGos(args: Form, tags: set<Form>, code: seq<Byte>, pc: nat, pos: nat, sh: Shape, live: set<Form>)
    requires CompilableStatements(args, tags, LiveAt(sh, live))
    requires CodeAt(code, pc, EmitStatements(args, pos).code) && ShapeAt(code, pc, live) == Some(sh) && sh.forms == []
    requires TagsFit(code, sh, tags, live)
    ensures GosFit(code, pc, pc + |EmitStatements(args, pos).code|, live)
    decreases Size(args), 3
  {
    hide EmitForm, LiveAt, Compilable, CodeAt, ShapeAt, TagsFit, GoFits, Fold;
    if args.Cons? {
      if args.car.Cons? {
        CompilableEmits(args.car, true, tags, LiveAt(sh, live), true, pos);
        StatementCode(args, pos);
        var head := EmitForm(args.car, true, pos).code;
        var tail := EmitStatements(args.cdr, pos + |head|).code;
        CodeAtSplit(code, pc, head, tail);
        FormGos(args.car, true, tags, code, pc, pos, sh, live);
        FormFolds(args.car, true, tags, pos, sh, live);
        NextShape(code, pc, head, sh, sh, live);
        StatementsGos(args.cdr, tags, code, pc + |head|, pos + |head|, sh, live);
        GosBoth(code, pc, pc + |head|, pc + |head| + |tail|, live);
      } else {
        TagCode(args, pos);
        StatementsGos(args.cdr, tags, code, pc, pos, sh, live);
      }
    }
  }

  /** The statement code in front of a tag's position consists of whole statements. */
  lemma {:induction false} BeforeTagFolds(args: Form, tags: set<Form>, pos: nat, t: Form, sh: Shape, live: set<Form>)
    requires CompilableStatements(args, tags, LiveAt(sh, live)) && EmitStatements(args, pos).status == Good
    requires LastPosition(EmitStatements(args, pos).tags, t).Some?
    ensures var s := EmitStatements(args, pos); var at := LastPosition(s.tags, t).value;
      pos <= at <= pos + |s.code| && Fold(s.code[..at - pos], sh, live) == Some(sh)
    decreases args
  {
    hide EmitForm, LiveAt, Compilable, Abstract, TagsOf, Fold;
    var s := EmitStatements(args, pos);
    PositionInCode(args, pos, t);
    if args.car.Cons? {
      var head := EmitForm(args.car, true, pos).code;
      BeforeTagFolds(args.cdr, tags, pos + |head|, t, sh, live);
      FormFolds(args.car, true, tags, pos, sh, live);
      AfterHead(head, EmitStatements(args.cdr, pos + |head|).code, LastPosition(s.tags, t).value - pos, sh, live);
    } else {
      var tail := EmitStatements(args.cdr, pos);
      assert s.tags[1..] == tail.tags;
      if LastPosition(tail.tags, t).Some? {
        BeforeTagFolds(args.cdr, tags, pos, t, sh, live);
      } else {
        FoldNothing(sh, live);
      }
    }
  }

  lemma PositionInCode(args: Form, pos: nat, t: Form)
    requires EmitStatements(args, pos).status == Good && LastPosition(EmitStatements(args, pos).tags, t).Some?
    ensures var s := EmitStatements(args, pos); pos <= LastPosition(s.tags, t).value <= pos + |s.code|
  {
    hide EmitStatements, LastPosition, TagsOf, AfterTag;
    PositionIsAfterTag(args, pos, t);
  }

  lemma AfterHead(head: seq<Byte>, tail: seq<Byte>, n: nat, sh: Shape, live: set<Form>)
    requires Fold(head, sh, live) == Some(sh) && |head| <= n <= |head| + |tail|
    requires Fold(tail[..n - |head|], sh, live) == Some(sh)
    ensures Fold((head + tail)[..n], sh, live) == Some(sh)
  {
    hide Fold;
    assert (head + tail)[..n] == head + tail[..n - |head|];
    Fold2(head, tail[..n - |head|], sh, sh, sh, live);
  }

  /** The TAGBODY's own tags lead to instructions of the shape its statements have. */
  lemma OwnTagsFit(args: Form, code: seq<Byte>, pc: nat, sh: Shape, live: set<Form>)
    requires EmitStatements(args, 0).status == Good
    requires CompilableStatements(args, TagsOf(args), LiveAt(WithFrame(sh, TagMap(args, pc)), live))
    requires CodeAt(code, pc + 1 + 2 * |EmitStatements(args, 0).tags|, EmitStatements(args, 0).code)
    requires ShapeAt(code, pc + 1 + 2 * |EmitStatements(args, 0).tags|, live) == Some(WithFrame(sh, TagMap(args, pc)))
    ensures TagsFit(code, WithFrame(sh, TagMap(args, pc)), TagsOf(args), live)
  {
    hide EmitStatements, LiveAt, CompilableStatements, CodeAt, ShapeAt, Fold, TagsOf, TagMap, LastPosition;
    var s := EmitStatements(args, 0);
    var start := pc + 1 + 2 * |s.tags|;
    var sh1 := WithFrame(sh, TagMap(args, pc));
    TagMapKeys(args, pc);
    forall t <- TagsOf(args) ensures GoFits(code, sh1, t, live) {
      assert IsTagIndex(args, pc, t, TagMap(args, pc)[t]);
      var at := LastPosition(s.tags, t).value;
      BeforeTagFolds(args, TagsOf(args), 0, t, sh1, live);
      CodeAtPrefix(code, start, s.code, at);
      NextShape(code, start, s.code[..at], sh1, sh1, live);
      OwnTagFits(code, sh, TagMap(args, pc), t, live);
    }
  }

  lemma CodeAtPrefix(code: seq<Byte>, pc: nat, part: seq<Byte>, n: nat)
    requires CodeAt(code, pc, part) && n <= |part|
    ensures CodeAt(code, pc, part[..n])
  {
    assert part == part[..n] + part[n..];
    CodeAtSplit(code, pc, part[..n], part[n..]);
  }

  lemma OwnTagFits(code: seq<Byte>, sh: Shape, bound: map<Form, nat>, t: Form, live: set<Form>)
    requires t in bound && ShapeAt(code, bound[t], live) == Some(WithFrame(sh, bound))
    ensures GoFits(code, WithFrame(sh, bound), t, live)
  {
    hide ShapeAt;
    var frames := sh.frames + [bound];
    assert frames[..|frames|] == frames;
  }

  lemma {:induction false} TagbodyGos(args: Form, nested: bool, tags: set<Form>, code: seq<Byte>, pc: nat, base: nat, sh: Shape, live: set<Form>)
    requires args.Cons? && (!nested ==> tags == {} && base == pc) && GoodTags(TagsOf(args))
    requires CompilableStatements(args, if nested then tags - TagsOf(args) else TagsOf(args), LiveAt(sh, live) + TagsOf(args))
    requires CodeAt(code, pc, EmitSpecial(Tagbody, args, base).code) && ShapeAt(code, pc, live) == Some(sh) && sh.forms == []
    requires TagsFit(code, sh, tags, live)
    ensures GosFit(code, pc, pc + |EmitSpecial(Tagbody, args, base).code|, live)
    decreases Size(args), 5
  {
    hide Abstract, Fold, LiveAt, CompilableStatements, TagsOf, EmitStatements, EmitTags, TagMap, EmitSpecial, ShapeAt, GosFit, TagsFit, CodeAt;
    var tags' := if nested then tags - TagsOf(args) else TagsOf(args);
    StatementsEmit(args, tags', LiveAt(sh, live) + TagsOf(args), 0);
    TagbodyCode(args, base);
    TagMapKeys(args, base);
    var sh1 := WithFrame(sh, TagMap(args, base));
    LiveInFrame(sh, TagMap(args, base), live);
    var s := EmitStatements(args, 0);
    var prefix := [PushLexicalEnv] + EmitTags(s.tags, base + 1 + 2 * |s.tags|);
    var suffix := [Push(Nil), RetForm, PopLexicalEnv];
    CodeAtSplit(code, pc, prefix + s.code, suffix);
    CodeAtSplit(code, pc, prefix, s.code);
    TagbodyPrefixFolds(args, base, sh, live);
    NextShape(code, pc, prefix, sh, sh1, live);
    if nested {
      InnerFrame(code, sh, TagMap(args, base), tags, live);
    } else {
      OwnTagsFit(args, code, pc, sh, live);
    }
    StatementsGos(args, tags', code, pc + |prefix|, 0, sh1, live);
    TagsNoGo(s.tags, base + 1 + 2 * |s.tags|);
    NoGoBoth([PushLexicalEnv], EmitTags(s.tags, base + 1 + 2 * |s.tags|));
    NoGosFit(code, pc, prefix, live);
    NoGosFit(code, pc + |prefix + s.code|, suffix, live);
    GosBoth(code, pc, pc + |prefix|, pc + |prefix| + |s.code|, live);
    GosBoth(code, pc, pc + |prefix| + |s.code|, pc + |prefix| + |s.code| + 3, live);
  }

  /** The code of every compilable form verifies. */
  lemma CompilableVerifies(f: Form, live: set<Form>)
    requires Compilable(f, false, {}, live)
    ensures EmitForm(f, true, 0).status == Good && Verifies(EmitForm(f, true, 0).code, live)
  {
    hide EmitForm, Compilable, GosFit, Fold;
    var code := EmitForm(f, true, 0).code;
    CompilableEmits(f, false, {}, live, true, 0);
    assert LiveAt(FLAT, live) == live;
    FormFolds(f, false, {}, 0, FLAT, live);
    assert code[..|code|] == code && code[..0] == [];
    assert ShapeAt(code, 0, live) == Some(FLAT) by { FoldNothing(FLAT, live); }
    assert CodeAt(code, 0, code) by { assert code[0..0 + |code|] == code; }
    FormGos(f, false, {}, code, 0, 0, FLAT, live);
  }

  lemma FoldNothing(sh: Shape, live: set<Form>)
    ensures Fold([], sh, live) == Some(sh)
  {
  }
}
