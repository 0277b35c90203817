/** The analyze_* functions as they work: appending to code lists, bumping tag indices in place. */
module Analyzer {
  import opened Forms
  import opened Bytecode
  import opened SpecialForms

  class ByteList {
    var bytes: seq<Byte>

    constructor ()
      ensures bytes == []
    {
      bytes := [];
    }

    method Push(b: Byte)
      modifies this
      ensures bytes == old(bytes) + [b]
    {
      bytes := bytes + [b];
    }

    /** list_append: the other list is emptied. */
    method Append(other: ByteList)
      requires other != this
      modifies this, other
      ensures bytes == old(bytes) + old(other.bytes) && other.bytes == []
    {
      bytes := bytes + other.bytes;
      other.bytes := [];
    }

    /** Adds `inc` to the index of every BindTag, in place. */
    method IncrementIndicesBy(inc: nat)
      modifies this
      ensures bytes == Bumped(old(bytes), inc)
    {
      hide Bumped;
      var i := 0;
      ghost var was := bytes;
      BumpStart(was, inc);
      while i < |bytes|
        invariant i <= |bytes| == |was|
        invariant bytes == Bumped(was[..i], inc) + was[i..]
      {
        BumpStep(was, i, inc);
        if bytes[i].BindTag? {
          bytes := bytes[i := BindTag(bytes[i].index + inc)];
        }
        i := i + 1;
      }
      BumpEnd(was, i, inc);
    }
  }

  lemma BumpStart(was: seq<Byte>, inc: nat)
    ensures was == Bumped(was[..0], inc) + was[0..]
  {
  }

  lemma BumpStep(was: seq<Byte>, i: nat, inc: nat)
    requires i < |was|
    ensures var now := Bumped(was[..i], inc) + was[i..];
      && |now| == |was| && now[i] == was[i]
      && now[i := BumpByte(was[i], inc)] == Bumped(was[..i + 1], inc) + was[i + 1..]
      && (!was[i].BindTag? ==> now == Bumped(was[..i + 1], inc) + was[i + 1..])
  {
    hide Bumped;
    BumpedSnoc(was[..i], was[i], inc);
    assert was[..i] + [was[i]] == was[..i + 1];
    var now := Bumped(was[..i], inc) + was[i..];
    assert now[i := BumpByte(was[i], inc)] == Bumped(was[..i], inc) + [BumpByte(was[i], inc)] + was[i + 1..];
    assert !was[i].BindTag? ==> now[i := was[i]] == now;
  }

  lemma BumpEnd(was: seq<Byte>, i: nat, inc: nat)
    requires i == |was|
    ensures Bumped(was[..i], inc) + was[i..] == Bumped(was, inc)
  {
    assert was[..i] == was && was[i..] == [];
    assert Bumped(was, inc) + [] == Bumped(was, inc);
  }

  function BumpByte(b: Byte, inc: nat): Byte {
    if b.BindTag? then BindTag(b.index + inc) else b
  }

  function Bumped(bytes: seq<Byte>, inc: nat): (r: seq<Byte>)
    ensures |r| == |bytes|
  {
    if bytes == [] then [] else Bumped(bytes[..|bytes| - 1], inc) + [BumpByte(bytes[|bytes| - 1], inc)]
  }

  lemma BumpedSnoc(bytes: seq<Byte>, b: Byte, inc: nat)
    ensures Bumped(bytes + [b], inc) == Bumped(bytes, inc) + [BumpByte(b, inc)]
  {
    assert (bytes + [b])[..|bytes|] == bytes;
  }

  lemma {:induction false} BumpedConcat(a: seq<Byte>, b: seq<Byte>, inc: nat)
    ensures Bumped(a + b, inc) == Bumped(a, inc) + Bumped(b, inc)
    decreases |b|
  {
    if b == [] {
      assert a + b == a;
    } else {
      var n := |b| - 1;
      assert a + b == (a + b[..n]) + [b[n]];
      BumpedSnoc(a + b[..n], b[n], inc);
      BumpedConcat(a, b[..n], inc);
    }
  }

  lemma BumpedPair(t: (Form, nat), inc: nat)
    ensures Bumped([Push(t.0), BindTag(t.1)], inc) == [Push(t.0), BindTag(t.1 + inc)]
  {
    hide Bumped;
    assert [Push(t.0), BindTag(t.1)] == [Push(t.0)] + [BindTag(t.1)];
    assert [] + [Push(t.0)] == [Push(t.0)];
    BumpedSnoc([], Push(t.0), inc);
    BumpedSnoc([Push(t.0)], BindTag(t.1), inc);
    BumpedNil(inc);
  }

  lemma BumpedNil(inc: nat)
    ensures Bumped([], inc) == []
  {
  }

  /** Bumping the recorded positions gives the indices that the specification emits. */
  lemma {:induction false} BumpedTags(tags: seq<(Form, nat)>, inc: nat)
    ensures Bumped(EmitTags(tags, 0), inc) == EmitTags(tags, inc)
    decreases |tags|
  {
    hide Bumped;
    if tags == [] {
      BumpedNil(inc);
    } else {
      BumpedConcat([Push(tags[0].0), BindTag(tags[0].1 + 0)], EmitTags(tags[1..], 0), inc);
      BumpedPair(tags[0], inc);
      BumpedTags(tags[1..], inc);
    }
  }

  lemma {:induction false} EmitTagsSnoc(tags: seq<(Form, nat)>, t: (Form, nat), bump: nat)
    ensures EmitTags(tags + [t], bump) == EmitTags(tags, bump) + [Push(t.0), BindTag(t.1 + bump)]
    decreases |tags|
  {
    if tags != [] {
      assert (tags + [t])[1..] == tags[1..] + [t];
      EmitTagsSnoc(tags[1..], t, bump);
    }
  }

  method AnalyzeForm(res: ByteList, form: Form, withRet: bool) returns (status: Status)
    modifies res
    ensures var e := EmitForm(form, withRet, |old(res.bytes)|);
      res.bytes == old(res.bytes) + e.code && status == e.status
    decreases form, 2
  {
    match form
    case Cons(_, _) => status := AnalyzeCons(res, form, withRet);
    case Sym(_) =>
      res.Push(Push(form));
      res.Push(LookupSymbol);
      if withRet { res.Push(RetForm); }
      status := Good;
    case _ =>
      res.Push(Push(form));
      if withRet { res.Push(RetForm); }
      status := Good;
  }

  method AnalyzeCons(res: ByteList, form: Form, withRet: bool) returns (status: Status)
    requires form.Cons?
    modifies res
    ensures var e := EmitCons(form, withRet, |old(res.bytes)|);
      res.bytes == old(res.bytes) + e.code && status == e.status
    decreases form, 1
  {
    match form.car
    case Sym(s) =>
      var special := IsSpecialForm(s.lexeme);
      if special != NotSpecial {
        status := AnalyzeSpecialForm(res, special, form.cdr);
      } else {
        res.Push(Push(form.car));
        res.Push(LookupFunction);
        var argCount;
        argCount, status := PushArgs(res, form.cdr);
        if status == Good {
          res.Push(Funcall(argCount));
          if withRet { res.Push(RetForm); }
        }
      }
    case Cons(_, _) => status := Asserts;
    case _ => status := Failed;
  }

  lemma {:induction false} PushesSnoc(args: seq<Form>, a: Form)
    ensures EmitPushes(args + [a]) == EmitPushes(args) + [Push(a)]
    decreases |args|
  {
    if args != [] {
      assert (args + [a])[1..] == args[1..] + [a];
      PushesSnoc(args[1..], a);
    }
  }

  method PushArgs(res: ByteList, args: Form) returns (count: nat, status: Status)
    modifies res
    ensures res.bytes == old(res.bytes) + EmitPushes(Elements(args))
    ensures status == (if ProperList(args) then Good else Asserts) && count == |Elements(args)|
  {
    count := 0;
    var rest := args;
    ghost var done: seq<Form> := [];
    while rest.Cons?
      invariant done + Elements(rest) == Elements(args) && count == |done|
      invariant ProperList(rest) == ProperList(args)
      invariant res.bytes == old(res.bytes) + EmitPushes(done)
      decreases rest
    {
      res.Push(Push(rest.car));
      PushesSnoc(done, rest.car);
      done := done + [rest.car];
      count := count + 1;
      rest := rest.cdr;
    }
    assert done == Elements(args);
    status := if rest.Nil? then Good else Asserts;
  }

  method AnalyzeSpecialForm(res: ByteList, special: Special, args: Form) returns (status: Status)
    requires special != NotSpecial
    modifies res
    ensures var e := EmitSpecial(special, args, |old(res.bytes)|);
      res.bytes == old(res.bytes) + e.code && status == e.status
    decreases args, 6
  {
    match special
    case Go =>
      if !args.Cons? { status := Asserts; }
      else {
        res.Push(GoReturn(args.car));
        status := Good;
      }
    case Quote =>
      if !args.Cons? { status := Asserts; }
      else {
        res.Push(Push(args.car));
        res.Push(RetForm);
        status := Good;
      }
    case LetStar => status := AnalyzeLetStar(res, args);
    case Progn => status := AnalyzeProgn(res, args);
    case Tagbody => status := AnalyzeTagbody(res, args);
  }

  /** `now` lacks exactly the code of e to become `target`. */
  ghost predicate Lacks(target: seq<Byte>, status: Status, now: seq<Byte>, e: Emitted) {
    target == now + e.code && status == e.status
  }

  lemma Assoc(a: seq<Byte>, b: seq<Byte>, c: seq<Byte>)
    ensures a + (b + c) == a + b + c
  {
  }

  lemma PrognStep(target: seq<Byte>, status: Status, now: seq<Byte>, forms: Form, e: Emitted)
    returns (head: Emitted, tail: Emitted)
    requires forms.Cons? && e == EmitProgn(forms, |now|) && Lacks(target, status, now, e)
    ensures head == EmitForm(forms.car, true, |now|)
    ensures head.status != Good ==> target == now + head.code && status == head.status
    ensures head.status == Good ==>
      tail == EmitProgn(forms.cdr, |now + head.code|) && Lacks(target, status, now + head.code, tail)
  {
    hide EmitForm;
    head := EmitForm(forms.car, true, |now|);
    tail := EmitProgn(forms.cdr, |now| + |head.code|);
    Assoc(now, head.code, tail.code);
  }

  method AnalyzeProgn(res: ByteList, args: Form) returns (status: Status)
    modifies res
    ensures var e := EmitProgn(args, |old(res.bytes)|);
      res.bytes == old(res.bytes) + e.code && status == e.status
    decreases args, 4
  {
    hide EmitForm;
    var rest := args;
    ghost var whole := EmitProgn(args, |res.bytes|);
    ghost var target := res.bytes + whole.code;
    ghost var e := whole;
    while rest.Cons?
      invariant e == EmitProgn(rest, |res.bytes|) && Lacks(target, whole.status, res.bytes, e)
      decreases rest
    {
      ghost var head, tail := PrognStep(target, whole.status, res.bytes, rest, e);
      status := AnalyzeForm(res, rest.car, true);
      if status != Good { return; }
      rest := rest.cdr;
      e := tail;
    }
    status := if rest.Nil? then Good else Asserts;
    assert res.bytes + [] == res.bytes;
  }

  predicate PlainBinding(binding: Form) {
    binding.Cons? && (binding.cdr.Nil? || binding.cdr.Cons?)
  }

  lemma BindingStep(target: seq<Byte>, status: Status, now: seq<Byte>, vars: Form, e: Emitted)
    returns (v: Emitted, tail: Emitted)
    requires vars.Cons? && PlainBinding(vars.car) && e == EmitBindings(vars, |now|) && Lacks(target, status, now, e)
    ensures v == EmitForm(BindingValue(vars.car.cdr), false, |now| + 2)
    ensures var head := now + [PushLexicalEnv] + [Push(vars.car.car)] + v.code;
      if v.status == Asserts then target == head && status == Asserts
      else
        var next := head + [BindValue] + [Pop];
        tail == EmitBindings(vars.cdr, |next|) && Lacks(target, status, next, tail)
  {
    hide EmitForm;
    v := EmitForm(BindingValue(vars.car.cdr), false, |now| + 2);
    var inner := [PushLexicalEnv, Push(vars.car.car)] + v.code;
    tail := EmitBindings(vars.cdr, |now| + |inner + [BindValue, Pop]|);
    RegroupHead(now, vars.car.car, v.code);
    RegroupBinding(now, vars.car.car, v.code, tail.code);
  }

  lemma RegroupHead(now: seq<Byte>, name: Form, v: seq<Byte>)
    ensures now + [PushLexicalEnv] + [Push(name)] + v == now + ([PushLexicalEnv, Push(name)] + v)
  {
  }

  lemma RegroupBinding(now: seq<Byte>, name: Form, v: seq<Byte>, tail: seq<Byte>)
    ensures var next := now + [PushLexicalEnv] + [Push(name)] + v + [BindValue] + [Pop];
      var inner := [PushLexicalEnv, Push(name)] + v + [BindValue, Pop];
      |next| == |now| + |inner| && next + tail == now + (inner + tail)
  {
  }

  method AnalyzeLetStarBindings(res: ByteList, vars: Form) returns (count: nat, status: Status)
    modifies res
    ensures var e := EmitBindings(vars, |old(res.bytes)|);
      res.bytes == old(res.bytes) + e.code && status == e.status
    ensures status == Good ==> count == |Elements(vars)|
    decreases vars, 4
  {
    hide EmitForm;
    count := 0;
    var rest := vars;
    ghost var whole := EmitBindings(vars, |res.bytes|);
    ghost var target := res.bytes + whole.code;
    ghost var e := whole;
    while rest.Cons?
      invariant e == EmitBindings(rest, |res.bytes|) && Lacks(target, whole.status, res.bytes, e)
      invariant count + |Elements(rest)| == |Elements(vars)|
      decreases rest
    {
      if !PlainBinding(rest.car) {
        status := Asserts;
        assert res.bytes + [] == res.bytes;
        return;
      }
      ghost var v, tail := BindingStep(target, whole.status, res.bytes, rest, e);
      res.Push(PushLexicalEnv);
      res.Push(Push(rest.car.car));
      status := AnalyzeForm(res, BindingValue(rest.car.cdr), false);
      if status == Asserts { return; }
      res.Push(BindValue);
      res.Push(Pop);
      count := count + 1;
      rest := rest.cdr;
      e := tail;
    }
    status := if rest.Nil? then Good else Asserts;
    assert res.bytes + [] == res.bytes;
  }

  method AnalyzeLetStar(res: ByteList, args: Form) returns (status: Status)
    modifies res
    ensures var e := EmitLetStar(args, |old(res.bytes)|);
      res.bytes == old(res.bytes) + e.code && status == e.status
    decreases args, 4
  {
    hide EmitBindings, EmitProgn, Repeat, Elements;
    if !args.Cons? {
      status := Asserts;
      return;
    }
    ghost var before := res.bytes;
    var count;
    count, status := AnalyzeLetStarBindings(res, args.car);
    if status == Asserts { return; }
    BindingsNeverFail(args.car, |before|);
    ghost var bindings := EmitBindings(args.car, |before|).code;
    status := AnalyzeProgn(res, args.cdr);
    ghost var body := EmitProgn(args.cdr, |before| + |bindings|).code;
    assert res.bytes == before + (bindings + body);
    if status == Asserts { return; }
    PushPops(res, count);
    assert res.bytes == before + (bindings + body + Repeat(PopLexicalEnv, |Elements(args.car)|));
    status := Good;
  }

  method PushPops(res: ByteList, bindingsCount: nat)
    modifies res
    ensures res.bytes == old(res.bytes) + Repeat(PopLexicalEnv, bindingsCount)
  {
    var count := bindingsCount;
    while count > 0
      invariant 0 <= count <= bindingsCount
      invariant res.bytes == old(res.bytes) + Repeat(PopLexicalEnv, bindingsCount - count)
    {
      res.Push(PopLexicalEnv);
      RepeatSnoc(PopLexicalEnv, bindingsCount - count);
      count := count - 1;
    }
  }

  /** Errors inside a binding's value are swallowed. */
  lemma {:induction false} BindingsNeverFail(vars: Form, base: nat)
    ensures EmitBindings(vars, base).status != Failed
    decreases vars
  {
    hide EmitForm;
    if vars.Cons? && vars.car.Cons? && (vars.car.cdr.Nil? || vars.car.cdr.Cons?) {
      var v := EmitForm(BindingValue(vars.car.cdr), false, base + 2);
      var head := [PushLexicalEnv, Push(vars.car.car)] + v.code + [BindValue, Pop];
      BindingsNeverFail(vars.cdr, base + |head|);
    }
  }

  /** The tags and the code collected so far lack exactly e's. */
  ghost predicate Collects(whole: Statements, tags: seq<(Form, nat)>, code: seq<Byte>, e: Statements) {
    && whole.status == e.status
    && (e.status == Good ==> whole.tags == tags + e.tags && whole.code == code + e.code)
  }

  lemma StatementStep(whole: Statements, tags: seq<(Form, nat)>, code: seq<Byte>, rest: Form, e: Statements)
    returns (head: Emitted, tail: Statements)
    requires rest.Cons? && rest.car.Cons? && e == EmitStatements(rest, |code|) && Collects(whole, tags, code, e)
    ensures head == EmitForm(rest.car, true, |code|)
    ensures head.status != Good ==> whole.status == head.status
    ensures head.status == Good ==>
      tail == EmitStatements(rest.cdr, |code + head.code|) && Collects(whole, tags, code + head.code, tail)
  {
    hide EmitForm;
    head := EmitForm(rest.car, true, |code|);
    tail := EmitStatements(rest.cdr, |code| + |head.code|);
    Assoc(code, head.code, tail.code);
  }

  lemma TagStep(whole: Statements, tags: seq<(Form, nat)>, code: seq<Byte>, rest: Form, e: Statements) returns (tail: Statements)
    requires rest.Cons? && !rest.car.Cons? && e == EmitStatements(rest, |code|) && Collects(whole, tags, code, e)
    ensures tail == EmitStatements(rest.cdr, |code|) && Collects(whole, tags + [(rest.car, |code|)], code, tail)
  {
    hide EmitForm;
    tail := EmitStatements(rest.cdr, |code|);
    assert tags + ([(rest.car, |code|)] + tail.tags) == tags + [(rest.car, |code|)] + tail.tags;
  }

  method AnalyzeTagbody(res: ByteList, args: Form) returns (status: Status)
    modifies res
    ensures var e := EmitTagbody(args, |old(res.bytes)|);
      res.bytes == old(res.bytes) + e.code && status == e.status
    decreases args, 5
  {
    hide EmitStatements, EmitTags, Bumped;
    if args.Nil? {
      res.Push(Push(Nil));
      status := Good;
      return;
    }
    if !args.Cons? {
      status := Asserts;
      return;
    }
    var tagBytes := new ByteList();
    var formBytes := new ByteList();
    res.Push(PushLexicalEnv);
    status := AnalyzeStatements(tagBytes, formBytes, args);
    if status != Good {
      if status == Failed {
        // cleanup: reports success with what has been emitted so far
        status := Good;
      }
      return;
    }
    ghost var whole := EmitStatements(args, 0);
    var bump := |tagBytes.bytes| + |res.bytes|;
    tagBytes.IncrementIndicesBy(bump);
    BumpedTags(whole.tags, bump);
    res.Append(tagBytes);
    res.Append(formBytes);
    res.Push(Push(Nil));
    res.Push(RetForm);
    res.Push(PopLexicalEnv);
    assert res.bytes == old(res.bytes) + ([PushLexicalEnv] + EmitTags(whole.tags, bump) + whole.code
                                          + [Push(Nil), RetForm, PopLexicalEnv]);
  }

  /** The loop over a TAGBODY's atoms and statements, into the two lists. */
  method AnalyzeStatements(tagBytes: ByteList, formBytes: ByteList, args: Form) returns (status: Status)
    requires tagBytes != formBytes && tagBytes.bytes == [] && formBytes.bytes == []
    modifies tagBytes, formBytes
    ensures var e := EmitStatements(args, 0);
      && status == e.status
      && (status == Good ==>
            && tagBytes.bytes == EmitTags(e.tags, 0) && formBytes.bytes == e.code
            && |tagBytes.bytes| == 2 * |e.tags|)
    decreases args, 4
  {
    hide EmitForm, EmitTags;
    ghost var whole := EmitStatements(args, 0);
    ghost var tags: seq<(Form, nat)> := [];
    ghost var e := whole;
    assert [] + whole.code == whole.code && [] + whole.tags == whole.tags;
    NoTagBytes();
    var rest := args;
    while rest.Cons?
      invariant tagBytes.bytes == EmitTags(tags, 0)
      invariant e == EmitStatements(rest, |formBytes.bytes|) && Collects(whole, tags, formBytes.bytes, e)
      decreases rest
    {
      if rest.car.Cons? {
        ghost var head, tail := StatementStep(whole, tags, formBytes.bytes, rest, e);
        status := AnalyzeForm(formBytes, rest.car, true);
        if status != Good { return; }
        e := tail;
      } else {
        var instruction := |formBytes.bytes|;
        e := TagStep(whole, tags, formBytes.bytes, rest, e);
        EmitTagsSnoc(tags, (rest.car, instruction), 0);
        tags := tags + [(rest.car, instruction)];
        tagBytes.Push(Push(rest.car));
        tagBytes.Push(BindTag(instruction));
      }
      rest := rest.cdr;
    }
    assert tags + [] == tags && formBytes.bytes + [] == formBytes.bytes;
    status := if rest.Nil? then Good else Asserts;
  }

  lemma NoTagBytes()
    ensures EmitTags([], 0) == []
  {
  }
}
