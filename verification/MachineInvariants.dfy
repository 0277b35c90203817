/** What every instruction keeps. */
module MachineInvariants {
  // In every code list, compilable or not, the frame stack and the
  // last-return stack stay parallel, the environments of the frames stay one chain down to the base
  // frame, and no symbol is bound twice along that chain.

  import opened Forms
  import opened Bytecode
  import opened Machine
  import opened Evaluator
  import opened FrameChain
  import opened Simulation
  import opened LetSteps

  /** No symbol is bound in two environments of the frame chain. */
  ghost predicate BoundOnce(envs: seq<Env>, frames: seq<Frame>) {
    forall i, j, s ::
      (0 <= i < j < |frames| && frames[i].env < |envs| && frames[j].env < |envs| && s in envs[frames[i].env].values)
      ==> s !in envs[frames[j].env].values
  }

  ghost predicate Sound(g: Globals, st: State) {
    Inv(g, st) && BoundOnce(st.envs, st.frames)
  }

  lemma PushSound(g: Globals, st: State, source: Source)
    requires Sound(g, st) && source != FromBase
    ensures st.frames != [] && Sound(g, PushEnv(st, source))
  {
    hide Linked, GlobalsMatch, StoreOf, EnvsKept, Inv;
    InvOk(g, st);
    PushFacts(g, st, source);
    FramesInHeap(g, st);
  }

  lemma FramesInHeap(g: Globals, st: State)
    requires Inv(g, st)
    ensures forall i :: 0 <= i < |st.frames| ==> st.frames[i].env < |st.envs|
  {
    hide GlobalsMatch;
    LinkedBounds(st.envs, st.packages[g.home], g.home, st.frames);
  }

  lemma PopSound(g: Globals, st: State)
    requires Sound(g, st) && CanPopEnv(st)
    ensures Sound(g, PopEnv(st))
  {
    hide GlobalsMatch;
    assert Linked(st.envs, st.packages[g.home], g.home, st.frames[..|st.frames| - 1]);
  }

  /** A frame's binding is in the store. */
  lemma {:induction false} FrameInStore(envs: seq<Env>, frames: seq<Frame>, i: nat, s: Symbol)
    requires i < |frames| && frames[i].env < |envs| && s in envs[frames[i].env].values
    ensures s in StoreOf(envs, frames)
    decreases |frames|
  {
    if i < |frames| - 1 {
      FrameInStore(envs, frames[..|frames| - 1], i, s);
    }
  }

  /** bind_value at the top of the chain changes one environment; a new symbol is new to every frame. */
  lemma BindOne(g: Globals, st: State, s: Symbol, v: Form) returns (at: nat)
    requires Inv(g, st)
    ensures st.frames != []
    ensures at < |st.envs| && st.envs[at].package == g.home
    ensures BindValueIn(st.envs, st.frames[|st.frames| - 1].env, s, v) == SetValue(st.envs, at, s, v)
    ensures s in st.envs[at].values || s !in StoreOf(st.envs, st.frames)
    ensures Linked(SetValue(st.envs, at, s, v), st.packages[g.home], g.home, st.frames)
  {
    hide GlobalsMatch, StoreOf;
    var base := st.packages[g.home];
    BinderStore(st.envs, base, g.home, st.frames, s, v);
    LinkedBelow(st.envs, base, g.home, st.frames);
    var top := st.frames[|st.frames| - 1].env;
    var where := Binder(st.envs, top, s);
    at := if where.Some? then where.value else top;
    LinkedKept(st.envs, SetValue(st.envs, at, s, v), base, g.home, st.frames);
  }

  lemma NewToFrames(envs: seq<Env>, frames: seq<Frame>, s: Symbol)
    requires s !in StoreOf(envs, frames)
    ensures forall i :: 0 <= i < |frames| && frames[i].env < |envs| ==> s !in envs[frames[i].env].values
  {
    hide StoreOf;
    forall i | 0 <= i < |frames| && frames[i].env < |envs|
      ensures s !in envs[frames[i].env].values
    {
      if s in envs[frames[i].env].values {
        FrameInStore(envs, frames, i, s);
      }
    }
  }

  lemma BindSound(g: Globals, st: State, s: Symbol, v: Form)
    requires Sound(g, st)
    ensures st.frames != []
    ensures var envs' := BindValueIn(st.envs, st.frames[|st.frames| - 1].env, s, v);
      |envs'| == |st.envs| && Sound(g, st.(envs := envs'))
  {
    hide GlobalsMatch, StoreOf, Linked, BindValueIn, BoundOnce;
    var at := BindOne(g, st, s, v);
    SetGlobals(g, st.envs, st.packages, at, s, v);
    if s !in st.envs[at].values {
      NewToFrames(st.envs, st.frames, s);
    }
    SetBoundOnce(st.envs, st.frames, st.packages[g.home], g.home, at, s, v);
  }

  lemma SetBoundOnce(envs: seq<Env>, frames: seq<Frame>, base: nat, home: string, at: nat, s: Symbol, v: Form)
    requires BoundOnce(envs, frames) && at < |envs| && Linked(envs, base, home, frames)
    requires s in envs[at].values
      || forall i :: 0 <= i < |frames| && frames[i].env < |envs| ==> s !in envs[frames[i].env].values
    ensures BoundOnce(SetValue(envs, at, s, v), frames)
  {
    FramesDistinct(envs, base, home, frames);
    hide Linked;
  }

  lemma {:induction false} FramesDistinct(envs: seq<Env>, base: nat, home: string, frames: seq<Frame>)
    requires Linked(envs, base, home, frames)
    ensures forall i, j :: 0 <= i < j < |frames| ==> frames[i].env < frames[j].env
    decreases |frames|
  {
    if |frames| > 1 {
      FramesDistinct(envs, base, home, frames[..|frames| - 1]);
      LinkedBounds(envs, base, home, frames[..|frames| - 1]);
    }
  }

  lemma SameChain(g: Globals, st: State, st': State)
    requires Sound(g, st) && st'.envs == st.envs && st'.frames == st.frames && st'.packages == st.packages
    requires st'.order == st.order
    requires |st'.rets| == |st.rets| && forall id :: id in st'.tags ==> id < |st.envs|
    ensures Sound(g, st')
  {
    hide Linked, GlobalsMatch;
  }

  /** One instruction, whatever it is. */
  lemma ExecSound(g: Globals, st: State, b: Byte)
    requires Sound(g, st) && !b.Funcall?
    ensures var r := Exec(st, b); r.Next? || r.Jumping? ==> Sound(g, r.st)
  {
    hide Sound, Inv, BindValueIn, SymbolValue, SymbolFunction, ValidTag;
    SoundOk(g, st);
    var r := Exec(st, b);
    if r.Next? {
      match b {
        case BindValue =>
          var n := |st.forms|;
          BindSound(g, st, st.forms[n - 2].sym, st.forms[n - 1]);
          SameChain(g, st.(envs := r.st.envs), r.st);
        case PushLexicalEnv => PushSound(g, st, FromBytes);
        case PopLexicalEnv => PopSound(g, st);
        case GoReturn(_) =>
        case Funcall(_) =>
        case _ => SameChain(g, st, r.st);
      }
    }
  }

  lemma SoundOk(g: Globals, st: State)
    requires Sound(g, st)
    ensures |st.frames| == |st.rets| > 0 && st.frames[|st.frames| - 1].env < |st.envs|
    ensures forall id :: id in st.tags ==> id < |st.envs|
    ensures st.frames[0].source != FromBytes
  {
    hide GlobalsMatch, BoundOnce;
    BaseFrame(st.envs, st.packages[g.home], g.home, st.frames);
  }

  lemma {:induction false} BaseFrame(envs: seq<Env>, base: nat, home: string, frames: seq<Frame>)
    requires Linked(envs, base, home, frames)
    ensures frames[0] == Frame(base, FromBase)
    decreases |frames|
  {
    if |frames| > 1 {
      BaseFrame(envs, base, home, frames[..|frames| - 1]);
    }
  }

  // ---- GO

  ghost function Unwound(st: State, k: nat): State
    requires k < |st.frames| && |st.rets| == |st.frames|
  {
    st.(frames := st.frames[..k + 1], rets := st.rets[..k] + [st.rets[|st.rets| - 1]])
  }

  /** The frame where the search for a tag ends: the first one, from the top, that binds it or is no bytecode frame. */
  ghost predicate Decisive(st: State, tag: Form, k: nat) {
    && k < |st.frames|
    && (Binds(st, st.frames[k].env, tag) || st.frames[k].source != FromBytes)
    && forall j :: k < j < |st.frames| ==> st.frames[j].source == FromBytes && !Binds(st, st.frames[j].env, tag)
  }

  /**
   Every GO is decided: exactly the bytecode frames above the decisive one are popped, everything
   below is untouched, and the search never runs off the chain.
   */
  lemma {:induction false} GoDecides(st: State, tag: Form) returns (k: nat)
    requires |st.rets| == |st.frames| > 0 && st.frames[0].source != FromBytes
    ensures Decisive(st, tag, k)
    ensures HandleGo(st, tag) ==
      if Binds(st, st.frames[k].env, tag) then Resume(Unwound(st, k), TagIndex(st, st.frames[k].env, tag))
      else Return(Unwound(st, k))
    decreases |st.frames|
  {
    hide Binds, Unwound, Decisive;
    var n := |st.frames|;
    var top := st.frames[n - 1];
    if Binds(st, top.env, tag) || top.source != FromBytes {
      k := n - 1;
      TopDecides(st, tag);
    } else {
      var st1 := PopEnv(st);
      k := GoDecides(st1, tag);
      PoppedDecides(st, tag, k);
    }
  }

  lemma TopDecides(st: State, tag: Form)
    requires |st.rets| == |st.frames| > 0
    requires var top := st.frames[|st.frames| - 1]; Binds(st, top.env, tag) || top.source != FromBytes
    ensures Decisive(st, tag, |st.frames| - 1) && Unwound(st, |st.frames| - 1) == st
  {
    var k := |st.frames| - 1;
    assert st.frames[..k + 1] == st.frames && st.rets[..k] + [st.rets[k]] == st.rets;
  }

  lemma PoppedDecides(st: State, tag: Form, k: nat)
    requires |st.rets| == |st.frames| > 1 && Decisive(PopEnv(st), tag, k)
    requires var top := st.frames[|st.frames| - 1]; !Binds(st, top.env, tag) && top.source == FromBytes
    ensures Decisive(st, tag, k) && st.frames[k] == PopEnv(st).frames[k]
    ensures Unwound(PopEnv(st), k) == Unwound(st, k)
    ensures Binds(PopEnv(st), st.frames[k].env, tag) == Binds(st, st.frames[k].env, tag)
    ensures TagIndex(PopEnv(st), st.frames[k].env, tag) == TagIndex(st, st.frames[k].env, tag)
  {
    var st1 := PopEnv(st);
    assert st1.frames[..k + 1] == st.frames[..k + 1];
    assert st1.rets[..k] == st.rets[..k];
  }

  lemma {:induction false} HandleGoSound(g: Globals, st: State, tag: Form)
    requires Sound(g, st)
    ensures var d := HandleGo(st, tag); !d.Lost? && Sound(g, d.st)
    decreases |st.frames|
  {
    hide Sound;
    SoundOk(g, st);
    var top := st.frames[|st.frames| - 1];
    if !Binds(st, top.env, tag) && top.source == FromBytes {
      PopSound(g, st);
      HandleGoSound(g, PopEnv(st), tag);
    }
  }

  // ---- whole runs of arbitrary code

  lemma {:induction false} RunSound(g: Globals, p: Inherent, code: seq<Byte>, pc: nat, st: State, fuel: nat)
    requires Sound(g, st)
    ensures var r := Run(p, code, pc, st, fuel); r.Done? || r.GoOut? ==> Sound(g, r.st)
    decreases fuel, 0, 0
  {
    hide Sound, Step, HandleGo;
    if fuel > 0 && pc < |code| {
      StepSound(g, p, st, code[pc], fuel - 1);
      var r := Step(p, st, code[pc], fuel - 1);
      if r.Next? {
        RunSound(g, p, code, pc + 1, r.st, fuel - 1);
      } else if r.Jumping? {
        HandleGoSound(g, r.st, r.tag);
        var d := HandleGo(r.st, r.tag);
        if d.Resume? {
          RunSound(g, p, code, d.index, d.st, fuel - 1);
        }
      }
    }
  }

  lemma {:induction false} StepSound(g: Globals, p: Inherent, st: State, b: Byte, fuel: nat)
    requires Sound(g, st)
    ensures var r := Step(p, st, b, fuel); r.Next? || r.Jumping? ==> Sound(g, r.st)
    decreases fuel, 3, 0
  {
    hide Sound, Exec, Call;
    if !b.Funcall? {
      ExecSound(g, st, b);
    } else if |st.forms| >= 1 + b.argCount {
      CallSound(g, p, st, b.argCount, fuel);
      var r := Call(p, st, b.argCount, fuel);
      if r.Done? {
        FormsSound(g, r.st, r.st.forms + [r.value]);
      } else if r.GoOut? {
        FormsSound(g, r.st, r.st.forms + [r.tag]);
      }
    }
  }

  lemma FormsSound(g: Globals, st: State, forms: seq<Form>)
    requires Sound(g, st)
    ensures Sound(g, st.(forms := forms))
  {
    hide Sound;
    SoundOk(g, st);
    SameChain(g, st, st.(forms := forms));
  }

  lemma {:induction false} CallSound(g: Globals, p: Inherent, st: State, argc: nat, fuel: nat)
    requires Sound(g, st)
    ensures var r := Call(p, st, argc, fuel); r.Done? || r.GoOut? ==> Sound(g, r.st)
    decreases fuel, 2, 0
  {
    hide Sound, EvalArgs, FinishCall;
    SoundOk(g, st);
    if |st.forms| >= 1 + argc && st.forms[|st.forms| - 1 - argc].Fn? {
      PushSound(g, st, FromFuncall);
      var st1 := PushEnv(st, FromFuncall);
      FormsSound(g, st1, st1.forms + [Nil]);
      var fnIndex := |st.forms| - 1 - argc;
      ArgsSound(g, p, st1.(forms := st1.forms + [Nil]), fnIndex, argc, 0, fuel);
      var r := EvalArgs(p, st1.(forms := st1.forms + [Nil]), fnIndex, argc, 0, fuel);
      if r.ArgsDone? {
        FinishSound(g, p, r.st, st.forms[fnIndex].fn, argc, fnIndex + 1 + argc);
      }
    }
  }

  lemma FinishSound(g: Globals, p: Inherent, st: State, fn: nat, argc: nat, slot: nat)
    requires Sound(g, st)
    ensures var r := FinishCall(p, st, fn, argc, slot); (r.Done? ==> Sound(g, r.st)) && !r.GoOut?
  {
    hide Sound;
    SoundOk(g, st);
    var r := FinishCall(p, st, fn, argc, slot);
    if r.Done? {
      var st1 := SetLastReturn(st, r.value);
      var st2 := st1.(forms := st1.forms[..|st1.forms| - (argc + 2)]);
      SameChain(g, st, st2);
      PopSound(g, st2);
    }
  }

  lemma {:induction false} ArgsSound(g: Globals, p: Inherent, st: State, fnIndex: nat, argc: nat, i: nat, fuel: nat)
    requires Sound(g, st) && i <= argc
    ensures var r := EvalArgs(p, st, fnIndex, argc, i, fuel); r.ArgsDone? || r.ArgsGo? ==> Sound(g, r.st)
    decreases fuel, 1, argc - i
  {
    hide Sound, Run, EmitForm;
    if i < argc && fnIndex + 1 + i < |st.forms| {
      var bytes := EmitForm(st.forms[fnIndex + 1 + i], true, 0);
      RunSound(g, p, bytes.code, 0, st, fuel);
      var r := Run(p, bytes.code, 0, st, fuel);
      var slot := fnIndex + 1 + argc;
      if r.Done? && slot < |r.st.forms| {
        var forms := r.st.forms[slot := Snoc(r.st.forms[slot], r.value)];
        FormsSound(g, r.st, forms);
        ArgsSound(g, p, r.st.(forms := forms), fnIndex, argc, i + 1, fuel);
      }
    }
  }
}
