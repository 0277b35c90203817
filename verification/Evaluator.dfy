/** The reference semantics. */
module Evaluator {
  // A definitional evaluator on forms, without code, stacks, frames or
  // instruction indices. Variables live in one flat store; GO is an outcome that travels outward.
  // The operators are those of section 5.3 of the Common Lisp HyperSpec (GO, LET*, PROGN, TAGBODY)
  // and section 3.8 (QUOTE), with the one deviation of bind_value: LET* assigns a variable that is
  // already bound. `fuel` bounds how often the GOs of a TAGBODY may restart it.

  import opened Forms
  import opened TagOrders
  import opened Machine

  type Store = map<Symbol, Form>

  /** The home package and the fixed global tables of every package. */
  datatype Globals = Globals(home: string,
                             values: map<string, map<Symbol, Form>>,
                             functions: map<string, map<Symbol, nat>>)

  function LookupVariable(g: Globals, store: Store, s: Symbol): Option<Form> {
    if s.package == g.home then Get(store, s)
    else if s.package in g.values then Get(g.values[s.package], s)
    else None
  }

  function LookupGlobalFunction(g: Globals, s: Symbol): Option<nat> {
    if s.package in g.functions then Get(g.functions[s.package], s) else None
  }

  /** The tags of a TAGBODY: its atoms. */
  function TagsOf(args: Form): set<Form> {
    if !args.Cons? then {}
    else (if args.car.Cons? then {} else {args.car}) + TagsOf(args.cdr)
  }

  /** What follows the last occurrence of a tag. */
  function AfterTag(args: Form, tag: Form): Form {
    if !args.Cons? then Nil
    else if tag in TagsOf(args.cdr) then AfterTag(args.cdr, tag)
    else if args.car == tag then args.cdr
    else AfterTag(args.cdr, tag)
  }

  datatype Result =
    | Value(v: Form, store: Store)
    | Transfer(tag: Form, store: Store)   // a GO on its way to its TAGBODY
    | Error
    | Timeout

  datatype ArgsResult =
    | Values(list: Form, store: Store)
    | ArgsTransfer(tag: Form, store: Store)
    | Error
    | Timeout

  /** `live` holds the tags of the enclosing TAGBODYs. */
  function Eval(g: Globals, p: Inherent, f: Form, store: Store, live: set<Form>, fuel: nat): Result
    decreases fuel, Size(f), 2
  {
    match f
    case Sym(s) =>
      var v := LookupVariable(g, store, s);
      if v.None? then Result.Error else Value(v.value, store)
    case Cons(Sym(s), args) =>
      (match SpecialOf(s.lexeme)
       case Go =>
         if args.Cons? && args.car in live then Transfer(args.car, store) else Result.Error
       case Quote => if args.Cons? then Value(args.car, store) else Result.Error
       case Progn => EvalSequence(g, p, args, store, live, fuel)
       case LetStar =>
         if args.Cons? then assert Size(f) > Size(args); EvalLet(g, p, args.car, args.cdr, store, live, fuel) else Result.Error
       case Tagbody => EvalStatements(g, p, args, args, store, live + TagsOf(args), fuel)
       case NotSpecial =>
         var fn := LookupGlobalFunction(g, s);
         if fn.None? then Result.Error
         else Apply(p, fn.value, EvalArguments(g, p, args, store, live, fuel)))
    case Cons(_, _) => Result.Error
    case _ => Value(f, store)
  }

  function Apply(p: Inherent, fn: nat, args: ArgsResult): Result {
    match args
    case Values(list, store) =>
      var v := p(fn, list);
      if v.None? then Result.Error else Value(v.value, store)
    case ArgsTransfer(tag, store) => Transfer(tag, store)
    case Error => Result.Error
    case Timeout => Result.Timeout
  }

  function EvalSequence(g: Globals, p: Inherent, forms: Form, store: Store, live: set<Form>, fuel: nat): Result
    decreases fuel, Size(forms), 3
  {
    match forms
    case Nil => Value(Nil, store)
    case Cons(form, rest) =>
      var r := Eval(g, p, form, store, live, fuel);
      if r.Value? && !rest.Nil? then EvalSequence(g, p, rest, r.store, live, fuel) else r
    case _ => Result.Error
  }

  /** A variable that LET* introduced disappears however its body is left. */
  function Leave(r: Result, s: Symbol): Result {
    match r
    case Value(v, store) => Value(v, store - {s})
    case Transfer(tag, store) => Transfer(tag, store - {s})
    case _ => r
  }

  /** The value form of a binding (name value) or (name). */
  function ValueForm(binding: Form): Form {
    if binding.Cons? && binding.cdr.Cons? then binding.cdr.car else Nil
  }

  function EvalLet(g: Globals, p: Inherent, vars: Form, body: Form, store: Store, live: set<Form>, fuel: nat): Result
    decreases fuel, Size(vars) + Size(body), 4
  {
    match vars
    case Nil => EvalSequence(g, p, body, store, live, fuel)
    case Cons(binding, rest) =>
      assert binding.Cons? ==> Size(vars) > Size(binding.cdr);
      var r := Eval(g, p, ValueForm(binding), store, live, fuel);
      if !r.Value? then r
      else if !binding.Cons? || !binding.car.Sym? then Result.Error
      else
        var s := binding.car.sym;
        var inner := EvalLet(g, p, rest, body, r.store[s := r.v], live, fuel);
        if s in r.store then inner else Leave(inner, s)
    case _ => Result.Error
  }

  /** Runs `rest`, a suffix of the TAGBODY's `args`. */
  function EvalStatements(g: Globals, p: Inherent, args: Form, rest: Form, store: Store, live: set<Form>, fuel: nat): Result
    decreases fuel, Size(rest), 3
  {
    match rest
    case Nil => Value(Nil, store)
    case Cons(statement, tail) =>
      if !statement.Cons? then EvalStatements(g, p, args, tail, store, live, fuel)
      else
        var r := Eval(g, p, statement, store, live, fuel);
        if r.Value? then EvalStatements(g, p, args, tail, r.store, live, fuel)
        else if r.Transfer? && r.tag in TagsOf(args) then
          if fuel == 0 then Result.Timeout
          else EvalStatements(g, p, args, AfterTag(args, r.tag), r.store, live, fuel - 1)
        else r
    case _ => Result.Error
  }

  function ConsValue(v: Form, rest: ArgsResult): ArgsResult {
    match rest
    case Values(list, store) => Values(Cons(v, list), store)
    case _ => rest
  }

  function NoValue(r: Result): ArgsResult
    requires !r.Value?
  {
    match r
    case Transfer(tag, store) => ArgsTransfer(tag, store)
    case Error => ArgsResult.Error
    case Timeout => ArgsResult.Timeout
  }

  function EvalArguments(g: Globals, p: Inherent, args: Form, store: Store, live: set<Form>, fuel: nat): ArgsResult
    decreases fuel, Size(args), 3
  {
    match args
    case Nil => Values(Nil, store)
    case Cons(arg, rest) =>
      var r := Eval(g, p, arg, store, live, fuel);
      if r.Value? then ConsValue(r.v, EvalArguments(g, p, rest, r.store, live, fuel)) else NoValue(r)
    case _ => ArgsResult.Error
  }

  // ---- the programs the analyzer compiles correctly

  /**
   A form in the value-returning position of one code list.
   nested: it lies inside a TAGBODY compiled into the same code list;
   tags: the tags of the outermost such TAGBODY that no TAGBODY in between rebinds;
   live: the tags of all enclosing TAGBODYs.
   */
  predicate Compilable(f: Form, nested: bool, tags: set<Form>, live: set<Form>)
    decreases f, 2
  {
    !f.Cons? ||
    (f.car.Sym? &&
     match SpecialOf(f.car.sym.lexeme)
     case Go => f.cdr.Cons? && (f.cdr.car in tags || f.cdr.car !in live)
     case Quote => f.cdr.Cons?
     case Progn => f.cdr.Cons? && AllCompilable(f.cdr, nested, tags, live)
     case LetStar =>
       f.cdr.Cons? && CompilableBindings(f.cdr.car, live)
       && f.cdr.cdr.Cons? && AllCompilable(f.cdr.cdr, nested, tags, live)
     case Tagbody =>
       f.cdr.Cons? && GoodTags(TagsOf(f.cdr)) && CompilableStatements(f.cdr,
         if nested then tags - TagsOf(f.cdr) else TagsOf(f.cdr), live + TagsOf(f.cdr))
     case NotSpecial => AllCompilable(f.cdr, false, {}, live))
  }

  predicate AllCompilable(forms: Form, nested: bool, tags: set<Form>, live: set<Form>)
    decreases forms, 3
  {
    match forms
    case Nil => true
    case Cons(form, rest) => Compilable(form, nested, tags, live) && AllCompilable(rest, nested, tags, live)
    case _ => false
  }

  predicate CompilableBindings(vars: Form, live: set<Form>)
    decreases vars, 3
  {
    match vars
    case Nil => true
    case Cons(binding, rest) =>
      && binding.Cons?
      && (binding.cdr.Nil? || binding.cdr.Cons?)
      && CompilableValue(ValueForm(binding), live)
      && CompilableBindings(rest, live)
    case _ => false
  }

  /** A LET* value is an atom or an ordinary call. */
  predicate CompilableValue(f: Form, live: set<Form>)
    decreases f, 3
  {
    f.Cons? ==> f.car.Sym? && SpecialOf(f.car.sym.lexeme).NotSpecial? && Compilable(f, false, {}, live)
  }

  predicate CompilableStatements(statements: Form, tags: set<Form>, live: set<Form>)
    decreases statements, 3
  {
    match statements
    case Nil => true
    case Cons(statement, rest) =>
      (statement.Cons? ==> Compilable(statement, true, tags, live)) && CompilableStatements(rest, tags, live)
    case _ => false
  }
}
