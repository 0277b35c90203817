/** The stack machine. */
module Machine {
  // What interpret_byte, interpret_bytes, handle_go_result and
  // interpret_function_call do to the interpreter's state, as functions.
  //
  // Environments live in a growing heap and are named by their index. `fuel` bounds the number
  // of loop iterations and the depth of calls; OutOfFuel says only that the bound was reached.

  import opened Forms
  import opened Bytecode
  import opened OrderedMaps

  /** Inherent functions: argument list to one value, or an abort. */
  type Inherent = (nat, Form) -> Option<Form>

  datatype Env = Env(parent: Option<nat>, package: string,
                     values: map<Symbol, Form>, functions: map<Symbol, nat>)

  datatype Source = FromFuncall | FromBytes | FromBase

  datatype Frame = Frame(env: nat, source: Source)

  /** An OrderedMap from tags to instruction indices, as its sorted entries. */
  type TagArray = seq<(Form, nat)>

  datatype State = State(
    forms: seq<Form>,                     // form_stack
    rets: seq<Form>,                      // last_return_value
    frames: seq<Frame>,                   // frame_stack
    envs: seq<Env>,
    packages: map<string, nat>,           // package name to its global environment
    tags: map<nat, TagArray>,             // environment_bindings
    order: (Form, Form) -> int)           // the comparator of the tag maps

  // ---- environments

  /**
   The parent link. A child is allocated after its parent and inherits its package; stating this
   here makes the walks along the chain terminate.
   */
  function ParentOf(envs: seq<Env>, id: nat): (r: Option<nat>)
    ensures r.Some? ==> id < |envs| && r.value < id && envs[r.value].package == envs[id].package
  {
    if id < |envs| && envs[id].parent.Some? && envs[id].parent.value < id
       && envs[envs[id].parent.value].package == envs[id].package
    then envs[id].parent else None
  }

  /** find_package(name)->global */
  function GlobalOf(envs: seq<Env>, packages: map<string, nat>, name: string): (r: Option<nat>)
    ensures r.Some? ==> r.value < |envs| && envs[r.value].package == name
  {
    if name in packages && packages[name] < |envs| && envs[packages[name]].package == name
    then Some(packages[name]) else None
  }

  /** symbol_value: a symbol of another package is looked up in that package's globals. */
  function SymbolValue(envs: seq<Env>, packages: map<string, nat>, id: nat, s: Symbol): Option<Form>
    decreases if id < |envs| && envs[id].package != s.package then 1 else 0, id
  {
    if id >= |envs| then None
    else if envs[id].package != s.package then
      var global := GlobalOf(envs, packages, s.package);
      if global.Some? then SymbolValue(envs, packages, global.value, s) else None
    else if s in envs[id].values then Some(envs[id].values[s])
    else
      var parent := ParentOf(envs, id);
      if parent.Some? then SymbolValue(envs, packages, parent.value, s) else None
  }

  function SymbolFunction(envs: seq<Env>, packages: map<string, nat>, id: nat, s: Symbol): Option<nat>
    decreases if id < |envs| && envs[id].package != s.package then 1 else 0, id
  {
    if id >= |envs| then None
    else if envs[id].package != s.package then
      var global := GlobalOf(envs, packages, s.package);
      if global.Some? then SymbolFunction(envs, packages, global.value, s) else None
    else if s in envs[id].functions then Some(envs[id].functions[s])
    else
      var parent := ParentOf(envs, id);
      if parent.Some? then SymbolFunction(envs, packages, parent.value, s) else None
  }

  function SetValue(envs: seq<Env>, id: nat, s: Symbol, v: Form): seq<Env> {
    if id < |envs| then envs[id := envs[id].(values := envs[id].values[s := v])] else envs
  }

  /** The environment on id's parent chain, nearest first, that binds s. */
  function Binder(envs: seq<Env>, id: nat, s: Symbol): Option<nat>
    decreases id
  {
    if id >= |envs| then None
    else if s in envs[id].values then Some(id)
    else
      var parent := ParentOf(envs, id);
      if parent.Some? then Binder(envs, parent.value, s) else None
  }

  /** bind_value: assign where the chain already binds the symbol, else bind here. */
  function BindValueIn(envs: seq<Env>, id: nat, s: Symbol, v: Form): seq<Env> {
    var where := Binder(envs, id, s);
    SetValue(envs, if where.Some? then where.value else id, s, v)
  }

  // ---- frames

  /** push_environment: a fresh environment, child of the top frame's. */
  function PushEnv(st: State, source: Source): State
    requires st.frames != []
  {
    var top := st.frames[|st.frames| - 1].env;
    var package := if top < |st.envs| then st.envs[top].package else "";
    st.(rets := st.rets + [Nil],
        frames := st.frames + [Frame(|st.envs|, source)],
        envs := st.envs + [Env(Some(top), package, map[], map[])])
  }

  /** Both stacks must keep an element: the popped last return overwrites the one below. */
  predicate CanPopEnv(st: State) {
    st.frames != [] && |st.rets| >= 2
  }

  function PopEnv(st: State): State
    requires CanPopEnv(st)
  {
    var n := |st.rets|;
    st.(rets := st.rets[..n - 2] + [st.rets[n - 1]], frames := st.frames[..|st.frames| - 1])
  }

  function SetLastReturn(st: State, v: Form): State
    requires st.rets != []
  {
    st.(rets := st.rets[..|st.rets| - 1] + [v])
  }

  // ---- tags and GO

  function TagsAt(st: State, env: nat): TagArray {
    if env in st.tags then st.tags[env] else []
  }

  /** map_ref on the environment's tags finds the tag. */
  predicate Binds(st: State, env: nat, tag: Form) {
    Found(st.order, TagsAt(st, env), tag)
  }

  function TagIndex(st: State, env: nat, tag: Form): nat {
    var index := Looked(st.order, TagsAt(st, env), tag);
    if index.Some? then index.value else 0
  }

  function BindTagIn(st: State, env: nat, tag: Form, index: nat): State {
    st.(tags := st.tags[env := Inserted<Form, nat>(st.order, TagsAt(st, env), tag, index)])
  }

  /** check_valid_tag: some frame, of whatever source, binds the tag. */
  predicate ValidTag(st: State, tag: Form) {
    exists i :: 0 <= i < |st.frames| && Binds(st, st.frames[i].env, tag)
  }

  datatype GoDecision = Resume(st: State, index: nat) | Return(st: State) | Lost

  function HandleGo(st: State, tag: Form): GoDecision
    decreases |st.frames|
  {
    if st.frames == [] then Lost
    else
      var top := st.frames[|st.frames| - 1];
      if Binds(st, top.env, tag) then Resume(st, TagIndex(st, top.env, tag))
      else if top.source != FromBytes then Return(st)
      else if CanPopEnv(st) then HandleGo(PopEnv(st), tag)
      else Lost
  }

  // ---- instructions

  datatype StepResult =
    | Next(st: State)
    | Jumping(st: State, tag: Form)   // a GO was executed
    | Error                           // the program's own error, reported by an assertion
    | Stuck                           // the stack discipline is broken
    | OutOfFuel

  datatype Outcome =
    | Done(st: State, value: Form)
    | GoOut(st: State, tag: Form)     // GO_RETURN
    | Error
    | Stuck
    | OutOfFuel

  datatype ArgsOutcome =
    | ArgsDone(st: State)
    | ArgsGo(st: State, tag: Form)
    | Error
    | Stuck
    | OutOfFuel

  /** Every instruction except FUNCALL. */
  function Exec(st: State, b: Byte): StepResult
    requires !b.Funcall?
  {
    var n := |st.forms|;
    match b
    case Nop => Next(st)
    case Push(f) => Next(st.(forms := st.forms + [f]))
    case Pop => Next(if n == 0 then st else st.(forms := st.forms[..n - 1]))
    case RetForm =>
      if n == 0 || st.rets == [] then StepResult.Stuck
      else Next(SetLastReturn(st.(forms := st.forms[..n - 1]), st.forms[n - 1]))
    case BindTag(index) =>
      if n == 0 || st.frames == [] then StepResult.Stuck
      else
        Next(BindTagIn(st.(forms := st.forms[..n - 1]), st.frames[|st.frames| - 1].env, st.forms[n - 1], index))
    case BindValue =>
      if n < 2 || st.frames == [] then StepResult.Stuck
      else if !st.forms[n - 2].Sym? then StepResult.Error
      else
        var env := st.frames[|st.frames| - 1].env;
        Next(st.(forms := st.forms[..n - 2] + [st.forms[n - 1]],
                 envs := BindValueIn(st.envs, env, st.forms[n - 2].sym, st.forms[n - 1])))
    case PushLexicalEnv => if st.frames == [] then StepResult.Stuck else Next(PushEnv(st, FromBytes))
    case PopLexicalEnv => if CanPopEnv(st) then Next(PopEnv(st)) else StepResult.Stuck
    case LookupSymbol =>
      if n == 0 || st.frames == [] then StepResult.Stuck
      else if !st.forms[n - 1].Sym? then StepResult.Error
      else
        var v := SymbolValue(st.envs, st.packages, st.frames[|st.frames| - 1].env, st.forms[n - 1].sym);
        if v.None? then StepResult.Error else Next(st.(forms := st.forms[..n - 1] + [v.value]))
    case LookupFunction =>
      if n == 0 || st.frames == [] then StepResult.Stuck
      else if !st.forms[n - 1].Sym? then StepResult.Error
      else
        var f := SymbolFunction(st.envs, st.packages, st.frames[|st.frames| - 1].env, st.forms[n - 1].sym);
        if f.None? then StepResult.Error else Next(st.(forms := st.forms[..n - 1] + [Fn(f.value)]))
    case GoReturn(tag) =>
      if st.frames == [] then StepResult.Stuck
      else if ValidTag(st, tag) then Jumping(st, tag) else StepResult.Error
  }

  function Step(p: Inherent, st: State, b: Byte, fuel: nat): StepResult
    decreases fuel, 3, 0
  {
    if !b.Funcall? then Exec(st, b)
    else if |st.forms| < 1 + b.argCount then StepResult.Stuck
    else if !st.forms[|st.forms| - 1 - b.argCount].Fn? then StepResult.Error
    else
      match Call(p, st, b.argCount, fuel)
      case Done(st', v) => Next(st'.(forms := st'.forms + [v]))
      // a GO out of an argument: its target aliases the returned value, nothing is popped
      case GoOut(st', tag) => Next(st'.(forms := st'.forms + [tag]))
      case Error => StepResult.Error
      case Stuck => StepResult.Stuck
      case OutOfFuel => StepResult.OutOfFuel
  }

  /** interpret_function_call: the function and its argument forms are on the form stack. */
  function Call(p: Inherent, st: State, argc: nat, fuel: nat): Outcome
    decreases fuel, 2, 0
  {
    if |st.forms| < 1 + argc || st.frames == [] then Outcome.Stuck
    else
      var fnIndex := |st.forms| - 1 - argc;
      if !st.forms[fnIndex].Fn? then Outcome.Error
      else
        var called := PushEnv(st, FromFuncall);
        match EvalArgs(p, called.(forms := called.forms + [Nil]), fnIndex, argc, 0, fuel)
        case ArgsDone(st') => FinishCall(p, st', st.forms[fnIndex].fn, argc, fnIndex + 1 + argc)
        case ArgsGo(st', tag) => GoOut(st', tag)
        case Error => Outcome.Error
        case Stuck => Outcome.Stuck
        case OutOfFuel => Outcome.OutOfFuel
  }

  /** Applies the function to the list in the scratch slot and takes the call apart. */
  function FinishCall(p: Inherent, st: State, fn: nat, argc: nat, slot: nat): Outcome
  {
    if slot >= |st.forms| || |st.forms| < argc + 2 || !CanPopEnv(st) then Outcome.Stuck
    else
      var v := p(fn, st.forms[slot]);
      if v.None? then Outcome.Error
      else
        var done := SetLastReturn(st, v.value);
        Done(PopEnv(done.(forms := done.forms[..|done.forms| - (argc + 2)])), v.value)
  }

  /** Each argument is analyzed and run in the call's frame; its value joins the list in the slot. */
  function EvalArgs(p: Inherent, st: State, fnIndex: nat, argc: nat, i: nat, fuel: nat): ArgsOutcome
    requires i <= argc
    decreases fuel, 1, argc - i
  {
    if i == argc then ArgsDone(st)
    else
      var slot := fnIndex + 1 + argc;
      if fnIndex + 1 + i >= |st.forms| then ArgsOutcome.Stuck
      else
        var bytes := EmitForm(st.forms[fnIndex + 1 + i], true, 0);
        if bytes.status != Good then ArgsOutcome.Error
        else
          match Run(p, bytes.code, 0, st, fuel)
          case Done(st', v) =>
            if slot >= |st'.forms| then ArgsOutcome.Stuck
            else EvalArgs(p, st'.(forms := st'.forms[slot := Snoc(st'.forms[slot], v)]), fnIndex, argc, i + 1, fuel)
          case GoOut(st', tag) => ArgsGo(st', tag)
          case Error => ArgsOutcome.Error
          case Stuck => ArgsOutcome.Stuck
          case OutOfFuel => ArgsOutcome.OutOfFuel
  }

  /** interpret_bytes from instruction `pc` on. */
  function Run(p: Inherent, code: seq<Byte>, pc: nat, st: State, fuel: nat): Outcome
    decreases fuel, 0, 0
  {
    if fuel == 0 then Outcome.OutOfFuel
    else if pc >= |code| then
      if st.rets == [] then Outcome.Stuck else Done(st, st.rets[|st.rets| - 1])
    else
      match Step(p, st, code[pc], fuel - 1)
      case Next(st') => Run(p, code, pc + 1, st', fuel - 1)
      case Jumping(st', tag) => Jump(p, code, st', tag, fuel - 1)
      case Error => Outcome.Error
      case Stuck => Outcome.Stuck
      case OutOfFuel => Outcome.OutOfFuel
  }

  /** interpret_bytes after a GO: resume at the tag or hand the GO to the caller. */
  function Jump(p: Inherent, code: seq<Byte>, st: State, tag: Form, fuel: nat): Outcome
    decreases fuel, 0, 1
  {
    match HandleGo(st, tag)
    case Resume(st', index) => Run(p, code, index, st', fuel)
    case Return(st') => GoOut(st', tag)
    case Lost => Outcome.Stuck
  }
}
