/** What the analyzer emits: the specification of the analyze_* functions. */
module Bytecode {
  import opened Forms

  datatype Byte =
    | Nop
    | Push(target: Form)
    | Pop
    | RetForm
    | BindTag(index: nat)
    | BindValue
    | PushLexicalEnv
    | PopLexicalEnv
    | LookupSymbol
    | LookupFunction
    | Funcall(argCount: nat)
    | GoReturn(target: Form)

  /** Failed is the -1 return; Asserts is a failed assertion, which ends the program. */
  datatype Status = Good | Failed | Asserts

  datatype Emitted = Emitted(code: seq<Byte>, status: Status)

  /** A TAGBODY's statements: tag bindings, relative to the start of the statement code. */
  datatype Statements = Statements(tags: seq<(Form, nat)>, code: seq<Byte>, status: Status)

  function Ret(withRet: bool): seq<Byte> {
    if withRet then [RetForm] else []
  }

  /** Emission into a list that already holds `base` instructions. */
  function EmitForm(f: Form, withRet: bool, base: nat): Emitted
    decreases f, 2
  {
    match f
    case Cons(_, _) => EmitCons(f, withRet, base)
    case Sym(_) => Emitted([Push(f), LookupSymbol] + Ret(withRet), Good)
    case _ => Emitted([Push(f)] + Ret(withRet), Good)
  }

  function EmitCons(f: Form, withRet: bool, base: nat): Emitted
    requires f.Cons?
    decreases f, 1
  {
    match f.car
    case Sym(s) =>
      var special := SpecialOf(s.lexeme);
      if special != NotSpecial then EmitSpecial(special, f.cdr, base)
      else if !ProperList(f.cdr) then
        Emitted([Push(f.car), LookupFunction] + EmitPushes(Elements(f.cdr)), Asserts)
      else
        Emitted([Push(f.car), LookupFunction] + EmitPushes(Elements(f.cdr))
                + [Funcall(|Elements(f.cdr)|)] + Ret(withRet), Good)
    case Cons(_, _) => Emitted([], Asserts)
    case _ => Emitted([], Failed)
  }

  /** Arguments are pushed unevaluated. */
  function EmitPushes(args: seq<Form>): (code: seq<Byte>)
    ensures |code| == |args|
  {
    if args == [] then [] else [Push(args[0])] + EmitPushes(args[1..])
  }

  function EmitSpecial(special: Special, args: Form, base: nat): Emitted
    requires special != NotSpecial
    decreases args, 6
  {
    match special
    case Go => if args.Cons? then Emitted([GoReturn(args.car)], Good) else Emitted([], Asserts)
    case Quote => if args.Cons? then Emitted([Push(args.car), RetForm], Good) else Emitted([], Asserts)
    case LetStar => EmitLetStar(args, base)
    case Progn => EmitProgn(args, base)
    case Tagbody => EmitTagbody(args, base)
  }

  function EmitProgn(args: Form, base: nat): Emitted
    decreases args, 4
  {
    match args
    case Nil => Emitted([], Good)
    case Cons(form, rest) =>
      var head := EmitForm(form, true, base);
      if head.status != Good then head
      else
        var tail := EmitProgn(rest, base + |head.code|);
        Emitted(head.code + tail.code, tail.status)
    case _ => Emitted([], Asserts)
  }

  /** (name), (name value): a missing value is NIL. */
  function BindingValue(value: Form): Form {
    if value.Cons? then value.car else Nil
  }

  function EmitBindings(vars: Form, base: nat): Emitted
    decreases vars, 4
  {
    match vars
    case Nil => Emitted([], Good)
    case Cons(Cons(name, value), rest) =>
      if !value.Nil? && !value.Cons? then Emitted([], Asserts)
      else
        // a Failed value is ignored: what it had emitted stays
        var v := EmitForm(BindingValue(value), false, base + 2);
        if v.status == Asserts then Emitted([PushLexicalEnv, Push(name)] + v.code, Asserts)
        else
          var head := [PushLexicalEnv, Push(name)] + v.code + [BindValue, Pop];
          var tail := EmitBindings(rest, base + |head|);
          Emitted(head + tail.code, tail.status)
    case _ => Emitted([], Asserts)
  }

  function Repeat(b: Byte, n: nat): (code: seq<Byte>)
    ensures |code| == n
  {
    if n == 0 then [] else [b] + Repeat(b, n - 1)
  }

  lemma {:induction false} RepeatSnoc(b: Byte, n: nat)
    ensures Repeat(b, n + 1) == Repeat(b, n) + [b]
  {
    if n > 0 {
      RepeatSnoc(b, n - 1);
    }
  }

  function EmitLetStar(args: Form, base: nat): Emitted
    decreases args, 4
  {
    if !args.Cons? then Emitted([], Asserts)
    else
      var bindings := EmitBindings(args.car, base);
      if bindings.status == Asserts then bindings
      else
        var body := EmitProgn(args.cdr, base + |bindings.code|);
        if body.status == Asserts then Emitted(bindings.code + body.code, Asserts)
        else
          // a Failed body is ignored: what it had emitted stays
          Emitted(bindings.code + body.code + Repeat(PopLexicalEnv, |Elements(args.car)|), Good)
  }

  function EmitStatements(args: Form, pos: nat): Statements
    decreases args, 4
  {
    match args
    case Nil => Statements([], [], Good)
    case Cons(car, cdr) =>
      if car.Cons? then
        var head := EmitForm(car, true, pos);
        if head.status != Good then Statements([], head.code, head.status)
        else
          var tail := EmitStatements(cdr, pos + |head.code|);
          Statements(tail.tags, head.code + tail.code, tail.status)
      else
        var tail := EmitStatements(cdr, pos);
        Statements([(car, pos)] + tail.tags, tail.code, tail.status)
    case _ => Statements([], [], Asserts)
  }

  /** Push and bind every tag, its index bumped past the code in front of the statements. */
  function EmitTags(tags: seq<(Form, nat)>, bump: nat): (code: seq<Byte>)
    ensures |code| == 2 * |tags|
  {
    if tags == [] then []
    else [Push(tags[0].0), BindTag(tags[0].1 + bump)] + EmitTags(tags[1..], bump)
  }

  function EmitTagbody(args: Form, base: nat): Emitted
    decreases args, 5
  {
    if args.Nil? then Emitted([Push(Nil)], Good)
    else if !args.Cons? then Emitted([], Asserts)
    else
      var body := EmitStatements(args, 0);
      if body.status == Asserts then Emitted([PushLexicalEnv], Asserts)
      else if body.status == Failed then Emitted([PushLexicalEnv], Good)  // cleanup: returns 0
      else
        Emitted([PushLexicalEnv] + EmitTags(body.tags, base + 1 + 2 * |body.tags|) + body.code
                + [Push(Nil), RetForm, PopLexicalEnv], Good)
  }
}
