/** The interpreter as it works: fields updated in place, loops over bytes, frames and arguments. */
module InterpreterLoop {
  import opened Forms
  import opened Bytecode
  import opened OrderedMaps
  import opened Machine
  import opened Analyzer
  import CompilerTheorem

  /** interpret_byte's return: 0, or 1 after a GO; the other cases end the program. */
  datatype Signal = Fine | GoSignal(tag: Form) | Fails | Breaks | NoFuel

  /** What interpret_bytes and interpret_function_call return. */
  datatype Answer = SingleReturn(value: Form) | GoAnswer(tag: Form) | Fails | Breaks | NoFuel

  datatype GoResponse = ResumeAt(index: nat) | PassOn | OffTheChain

  class Interpreter {
    const inherent: Inherent
    var formStack: seq<Form>
    var lastReturnValue: seq<Form>
    var frameStack: seq<Frame>
    var envs: seq<Env>
    var packages: map<string, nat>
    var environmentBindings: map<nat, TagArray>
    const order: (Form, Form) -> int    // _form_cmp

    constructor (inherent: Inherent, order: (Form, Form) -> int, envs: seq<Env>, packages: map<string, nat>, initialEnv: nat)
      ensures this.inherent == inherent
      ensures St() == State([], [Nil], [Frame(initialEnv, FromBase)], envs, packages, map[], order)
    {
      this.inherent := inherent;
      this.order := order;
      formStack := [];
      lastReturnValue := [Nil];
      frameStack := [Frame(initialEnv, FromBase)];
      this.envs := envs;
      this.packages := packages;
      environmentBindings := map[];
    }

    ghost function St(): State
      reads this
    {
      State(formStack, lastReturnValue, frameStack, envs, packages, environmentBindings, order)
    }

    method PushEnvironment(source: Source)
      requires frameStack != []
      modifies this
      ensures St() == PushEnv(old(St()), source)
    {
      var top := frameStack[|frameStack| - 1].env;
      var package := if top < |envs| then envs[top].package else "";
      envs := envs + [Env(Some(top), package, map[], map[])];
      lastReturnValue := lastReturnValue + [Nil];
      frameStack := frameStack + [Frame(|envs| - 1, source)];
    }

    method PopEnvironment()
      requires CanPopEnv(St())
      modifies this
      ensures St() == PopEnv(old(St()))
    {
      var lastReturn := lastReturnValue[|lastReturnValue| - 1];
      lastReturnValue := lastReturnValue[..|lastReturnValue| - 1];
      frameStack := frameStack[..|frameStack| - 1];
      lastReturnValue := lastReturnValue[..|lastReturnValue| - 1] + [lastReturn];
    }

    /** Updates the nearest binding on the chain; else binds here, if this is where the search began. */
    method BindValueRec(env: nat, sym: Symbol, val: Form, bindHere: bool) returns (bound: bool)
      modifies this`envs
      ensures var where := Binder(old(envs), env, sym);
        && bound == (where.Some? || bindHere)
        && envs == if where.Some? then SetValue(old(envs), where.value, sym, val)
                   else if bindHere then SetValue(old(envs), env, sym, val) else old(envs)
      decreases env
    {
      if env < |envs| && sym in envs[env].values {
        envs := SetValue(envs, env, sym, val);
        return true;
      }
      var parent := ParentOf(envs, env);
      if parent.Some? {
        var boundHigher := BindValueRec(parent.value, sym, val, false);
        if boundHigher { return true; }
      }
      if bindHere {
        envs := SetValue(envs, env, sym, val);
      }
      bound := bindHere;
    }

    /** Checks up the call stack, across frames of every source. */
    method CheckValidTag(target: Form) returns (valid: bool)
      ensures valid == ValidTag(St(), target)
    {
      var i := |frameStack|;
      while i > 0
        invariant 0 <= i <= |frameStack|
        invariant forall j :: i <= j < |frameStack| ==> !Binds(St(), frameStack[j].env, target)
      {
        i := i - 1;
        var env := frameStack[i].env;
        if env in environmentBindings && Found(order, environmentBindings[env], target) {
          assert Binds(St(), frameStack[i].env, target);
          return true;
        }
      }
      valid := false;
    }

    /** Pops bytecode frames until one binds the tag or a frame of another source is reached. */
    method HandleGoResult(target: Form) returns (response: GoResponse)
      modifies this
      ensures match HandleGo(old(St()), target)
        case Resume(st, index) => response == ResumeAt(index) && St() == st
        case Return(st) => response == PassOn && St() == st
        case Lost => response == OffTheChain
    {
      while true
        invariant HandleGo(St(), target) == HandleGo(old(St()), target)
        decreases |frameStack|
      {
        if frameStack == [] { return OffTheChain; }
        var top := frameStack[|frameStack| - 1];
        if top.env in environmentBindings {
          var index := Looked(order, environmentBindings[top.env], target);
          if index.Some? { return ResumeAt(index.value); }
        }
        if top.source != FromBytes { return PassOn; }
        if |lastReturnValue| < 2 { return OffTheChain; }
        PopEnvironment();
      }
    }

    /** The instructions other than FUNCALL. */
    method ExecByte(b: Byte) returns (signal: Signal)
      requires !b.Funcall?
      modifies this
      ensures match Exec(old(St()), b)
        case Next(st) => signal == Fine && St() == st
        case Jumping(st, tag) => signal == GoSignal(tag) && St() == st
        case Error => signal == Signal.Fails
        case Stuck => signal == Signal.Breaks
        case OutOfFuel => false
    {
      hide HandleGo, SymbolValue, SymbolFunction, BindValueIn, Binder, SetValue;
      var n := |formStack|;
      match b
      case Nop => signal := Fine;
      case Push(f) =>
        formStack := formStack + [f];
        signal := Fine;
      case Pop =>
        if n > 0 { formStack := formStack[..n - 1]; }
        signal := Fine;
      case RetForm =>
        if n == 0 || lastReturnValue == [] { return Signal.Breaks; }
        lastReturnValue := lastReturnValue[..|lastReturnValue| - 1] + [formStack[n - 1]];
        formStack := formStack[..n - 1];
        signal := Fine;
      case BindTag(index) => signal := ExecBindTag(index);
      case BindValue => signal := ExecBindValue();
      case PushLexicalEnv =>
        if frameStack == [] { return Signal.Breaks; }
        PushEnvironment(FromBytes);
        signal := Fine;
      case PopLexicalEnv =>
        if frameStack == [] || |lastReturnValue| < 2 { return Signal.Breaks; }
        PopEnvironment();
        signal := Fine;
      case LookupSymbol =>
        if n == 0 || frameStack == [] { return Signal.Breaks; }
        if !formStack[n - 1].Sym? { return Signal.Fails; }
        var v := SymbolValue(envs, packages, frameStack[|frameStack| - 1].env, formStack[n - 1].sym);
        if v.None? { return Signal.Fails; }
        formStack := formStack[..n - 1] + [v.value];
        signal := Fine;
      case LookupFunction =>
        if n == 0 || frameStack == [] { return Signal.Breaks; }
        if !formStack[n - 1].Sym? { return Signal.Fails; }
        var f := SymbolFunction(envs, packages, frameStack[|frameStack| - 1].env, formStack[n - 1].sym);
        if f.None? { return Signal.Fails; }
        formStack := formStack[..n - 1] + [Fn(f.value)];
        signal := Fine;
      case GoReturn(tag) =>
        if frameStack == [] { return Signal.Breaks; }
        var valid := CheckValidTag(tag);
        signal := if valid then GoSignal(tag) else Signal.Fails;
    }

    method ExecBindTag(index: nat) returns (signal: Signal)
      modifies this
      ensures match Exec(old(St()), BindTag(index))
        case Next(st) => signal == Fine && St() == st
        case _ => signal == Signal.Breaks
    {
      var n := |formStack|;
      if n == 0 || frameStack == [] { return Signal.Breaks; }
      var tag := formStack[n - 1];
      var env := frameStack[|frameStack| - 1].env;
      var formToIndex: TagArray := [];
      if env in environmentBindings {
        formToIndex := environmentBindings[env];
      }
      formToIndex := Inserted(order, formToIndex, tag, index);
      environmentBindings := environmentBindings[env := formToIndex];
      formStack := formStack[..n - 1];
      signal := Fine;
    }

    method ExecBindValue() returns (signal: Signal)
      modifies this
      ensures match Exec(old(St()), BindValue)
        case Next(st) => signal == Fine && St() == st
        case Error => signal == Signal.Fails
        case _ => signal == Signal.Breaks
    {
      hide Binder, SetValue;
      var n := |formStack|;
      if n < 2 || frameStack == [] { return Signal.Breaks; }
      var value, name := formStack[n - 1], formStack[n - 2];
      if !name.Sym? { return Signal.Fails; }
      var bound := BindValueRec(frameStack[|frameStack| - 1].env, name.sym, value, true);
      formStack := formStack[..n - 2] + [value];
      signal := Fine;
    }
  
    method InterpretByte(b: Byte, fuel: nat) returns (signal: Signal)
      modifies this
      ensures match Step(inherent, old(St()), b, fuel)
        case Next(st) => signal == Fine && St() == st
        case Jumping(st, tag) => signal == GoSignal(tag) && St() == st
        case Error => signal == Signal.Fails
        case Stuck => signal == Signal.Breaks
        case OutOfFuel => signal == Signal.NoFuel
      decreases fuel, 3, 0
    {
      hide Exec, Call;
      if !b.Funcall? {
        signal := ExecByte(b);
      } else if |formStack| < 1 + b.argCount {
        signal := Signal.Breaks;
      } else if !formStack[|formStack| - 1 - b.argCount].Fn? {
        signal := Signal.Fails;
      } else {
        var answer := InterpretFunctionCall(b.argCount, fuel);
        match answer
        case SingleReturn(v) =>
          formStack := formStack + [v];
          signal := Fine;
        case GoAnswer(tag) =>
          // first_return aliases go_target
          formStack := formStack + [tag];
          signal := Fine;
        case Fails => signal := Signal.Fails;
        case Breaks => signal := Signal.Breaks;
        case NoFuel => signal := Signal.NoFuel;
      }
    }

    method InterpretFunctionCall(argCount: nat, fuel: nat) returns (answer: Answer)
      modifies this
      ensures match Call(inherent, old(St()), argCount, fuel)
        case Done(st, v) => answer == SingleReturn(v) && St() == st
        case GoOut(st, tag) => answer == GoAnswer(tag) && St() == st
        case Error => answer == Answer.Fails
        case Stuck => answer == Answer.Breaks
        case OutOfFuel => answer == Answer.NoFuel
      decreases fuel, 2, 0
    {
      hide EvalArgs, FinishCall;
      if |formStack| < 1 + argCount || frameStack == [] { return Answer.Breaks; }
      var fnIndex := |formStack| - 1 - argCount;
      var fnForm := formStack[fnIndex];
      if !fnForm.Fn? { return Answer.Fails; }
      PushEnvironment(FromFuncall);
      formStack := formStack + [Nil];
      answer := EvaluateArguments(fnIndex, argCount, fuel);
      if answer.SingleReturn? {
        answer := FinishFunctionCall(fnForm.fn, argCount, fnIndex + 1 + argCount);
      }
    }

    /** The loop over the arguments: each value joins the list under construction in the scratch slot. */
    method EvaluateArguments(fnIndex: nat, argCount: nat, fuel: nat) returns (answer: Answer)
      modifies this
      ensures match EvalArgs(inherent, old(St()), fnIndex, argCount, 0, fuel)
        case ArgsDone(st) => answer == SingleReturn(Nil) && St() == st
        case ArgsGo(st, tag) => answer == GoAnswer(tag) && St() == st
        case Error => answer == Answer.Fails
        case Stuck => answer == Answer.Breaks
        case OutOfFuel => answer == Answer.NoFuel
      decreases fuel, 1, 0
    {
      hide Run, EmitForm, Snoc;
      var evaledIndex := fnIndex + 1 + argCount;
      var i := 0;
      while i < argCount
        invariant 0 <= i <= argCount
        invariant EvalArgs(inherent, St(), fnIndex, argCount, i, fuel) == EvalArgs(inherent, old(St()), fnIndex, argCount, 0, fuel)
      {
        if fnIndex + 1 + i >= |formStack| { return Answer.Breaks; }
        var bytes := new ByteList();
        var status := AnalyzeForm(bytes, formStack[fnIndex + 1 + i], true);
        assert bytes.bytes == EmitForm(formStack[fnIndex + 1 + i], true, 0).code;
        if status != Good { return Answer.Fails; }
        answer := InterpretBytes(bytes.bytes, fuel);
        if !answer.SingleReturn? { return; }
        if evaledIndex >= |formStack| { return Answer.Breaks; }
        formStack := formStack[evaledIndex := Snoc(formStack[evaledIndex], answer.value)];
        i := i + 1;
      }
      answer := SingleReturn(Nil);
    }

    method FinishFunctionCall(fn: nat, argCount: nat, evaledIndex: nat) returns (answer: Answer)
      modifies this
      ensures match FinishCall(inherent, old(St()), fn, argCount, evaledIndex)
        case Done(st, v) => answer == SingleReturn(v) && St() == st
        case Error => answer == Answer.Fails
        case Stuck => answer == Answer.Breaks
        case _ => false
    {
      if evaledIndex >= |formStack| || |formStack| < argCount + 2 || frameStack == [] || |lastReturnValue| < 2 {
        return Answer.Breaks;
      }
      var result := inherent(fn, formStack[evaledIndex]);
      if result.None? { return Answer.Fails; }
      lastReturnValue := lastReturnValue[..|lastReturnValue| - 1] + [result.value];
      formStack := formStack[..|formStack| - (argCount + 2)];
      PopEnvironment();
      answer := SingleReturn(result.value);
    }

    method InterpretBytes(bytes: seq<Byte>, fuel: nat) returns (answer: Answer)
      modifies this
      ensures match Run(inherent, bytes, 0, old(St()), fuel)
        case Done(st, v) => answer == SingleReturn(v) && St() == st
        case GoOut(st, tag) => answer == GoAnswer(tag) && St() == st
        case Error => answer == Answer.Fails
        case Stuck => answer == Answer.Breaks
        case OutOfFuel => answer == Answer.NoFuel
      decreases fuel, 0, 0
    {
      hide Step, HandleGo;
      var index := 0;
      var left := fuel;
      while left > 0 && index < |bytes|
        invariant 0 <= left <= fuel && 0 <= index
        invariant Run(inherent, bytes, index, St(), left) == Run(inherent, bytes, 0, old(St()), fuel)
        decreases left
      {
        left := left - 1;
        var signal := InterpretByte(bytes[index], left);
        match signal
        case Fine => index := index + 1;
        case GoSignal(tag) =>
          var response := HandleGoResult(tag);
          match response {
            case ResumeAt(target) => index := target;
            case PassOn => return GoAnswer(tag);
            case OffTheChain => return Answer.Breaks;
          }
        case Fails => return Answer.Fails;
        case Breaks => return Answer.Breaks;
        case NoFuel => return Answer.NoFuel;
      }
      if left == 0 { return Answer.NoFuel; }
      if lastReturnValue == [] { return Answer.Breaks; }
      answer := SingleReturn(lastReturnValue[|lastReturnValue| - 1]);
    }

    /** interpret(): analyze, then run. The theorems of CompilerTheorem are about this function of the state. */
    method InterpretForm(form: Form, fuel: nat) returns (answer: Answer)
      modifies this
      ensures match CompilerTheorem.Interpret(inherent, old(St()), form, fuel)
        case Done(st, v) => answer == SingleReturn(v) && St() == st
        case GoOut(st, tag) => answer == GoAnswer(tag) && St() == st
        case Error => answer == Answer.Fails
        case Stuck => answer == Answer.Breaks
        case OutOfFuel => answer == Answer.NoFuel
    {
      hide Run, EmitForm;
      var bytes := new ByteList();
      var status := AnalyzeForm(bytes, form, true);
      assert bytes.bytes == EmitForm(form, true, 0).code;
      if status != Good { return Answer.Fails; }
      answer := InterpretBytes(bytes.bytes, fuel);
    }
  }
}
