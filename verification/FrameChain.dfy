/** The environments of the frame stack seen as one flat store of variables. */
module FrameChain {
  import opened Forms
  import opened TagOrders
  import opened Machine
  import opened Evaluator

  /** Every frame's environment is the child of the one below; the base is the home package's. */
  ghost predicate Linked(envs: seq<Env>, base: nat, home: string, frames: seq<Frame>)
    decreases |frames|
  {
    && frames != []
    && var top := frames[|frames| - 1];
    && top.env < |envs|
    && envs[top.env].package == home
    && if |frames| == 1 then top == Frame(base, FromBase) && envs[base].parent.None?
       else
         && top.source != FromBase
         && envs[top.env].parent == Some(frames[|frames| - 2].env)
         && frames[|frames| - 2].env < top.env
         && envs[top.env].functions == map[]
         && Linked(envs, base, home, frames[..|frames| - 1])
  }

  ghost function StoreOf(envs: seq<Env>, frames: seq<Frame>): Store
    decreases |frames|
  {
    if frames == [] then map[]
    else
      var top := frames[|frames| - 1];
      StoreOf(envs, frames[..|frames| - 1]) + (if top.env < |envs| then envs[top.env].values else map[])
  }

  /** envs' extends envs; an old environment may have new values, but for the same symbols. */
  ghost predicate EnvsKept(envs: seq<Env>, envs': seq<Env>) {
    && |envs| <= |envs'|
    && forall i :: 0 <= i < |envs| ==>
         envs'[i] == envs[i].(values := envs'[i].values) && envs'[i].values.Keys == envs[i].values.Keys
  }

  ghost predicate GlobalsMatch(g: Globals, envs: seq<Env>, packages: map<string, nat>) {
    && g.functions.Keys == packages.Keys
    && g.values.Keys == packages.Keys
    && forall q :: q in packages ==>
         && packages[q] < |envs|
         && envs[packages[q]].package == q
         && envs[packages[q]].functions == g.functions[q]
         && envs[packages[q]].parent.None?
         && (q != g.home ==> envs[packages[q]].values == g.values[q])
  }

  /** The invariant of every state in which code starts or ends. */
  ghost predicate Inv(g: Globals, st: State) {
    && |st.rets| == |st.frames|
    && g.home in st.packages
    && Linked(st.envs, st.packages[g.home], g.home, st.frames)
    && (forall id :: id in st.tags ==> id < |st.envs|)
    && OrdersTags(st.order)
    && GlobalsMatch(g, st.envs, st.packages)
  }

  /** What a finished piece of code leaves alone, apart from the form stack and the top last-return. */
  ghost predicate Keeps(st: State, st': State) {
    && st'.frames == st.frames
    && st'.packages == st.packages
    && st'.order == st.order
    && |st'.rets| == |st.rets| && |st.rets| > 0
    && st'.rets[..|st.rets| - 1] == st.rets[..|st.rets| - 1]
    && EnvsKept(st.envs, st'.envs)
    && (forall id :: id < |st.envs| ==>
          (id in st'.tags <==> id in st.tags) && (id in st.tags ==> st'.tags[id] == st.tags[id]))
  }

  lemma KeepsTransitive(a: State, b: State, c: State)
    requires Keeps(a, b) && Keeps(b, c)
    ensures Keeps(a, c)
  {
    assert forall i :: 0 <= i < |a.envs| ==> c.envs[i] == a.envs[i].(values := c.envs[i].values);
  }

  // ---- frames

  lemma {:induction false} LinkedBounds(envs: seq<Env>, base: nat, home: string, frames: seq<Frame>)
    requires Linked(envs, base, home, frames)
    ensures forall i :: 0 <= i < |frames| ==> frames[i].env <= frames[|frames| - 1].env < |envs|
    ensures base <= frames[|frames| - 1].env && base < |envs|
    decreases |frames|
  {
    if |frames| > 1 {
      LinkedBounds(envs, base, home, frames[..|frames| - 1]);
    }
  }

  lemma {:induction false} LinkedKept(envs: seq<Env>, envs': seq<Env>, base: nat, home: string, frames: seq<Frame>)
    requires Linked(envs, base, home, frames) && |envs| <= |envs'|
    requires forall i :: 0 <= i < |envs| ==> envs'[i] == envs[i].(values := envs'[i].values)
    ensures Linked(envs', base, home, frames)
    decreases |frames|
  {
    if |frames| > 1 {
      LinkedKept(envs, envs', base, home, frames[..|frames| - 1]);
    }
  }

  /** The store depends only on the environments up to the topmost one. */
  lemma {:induction false} StoreSame(envs: seq<Env>, envs': seq<Env>, base: nat, home: string, frames: seq<Frame>)
    requires Linked(envs, base, home, frames)
    requires forall i :: 0 <= i <= frames[|frames| - 1].env ==> i < |envs'| && envs'[i].values == envs[i].values
    ensures StoreOf(envs', frames) == StoreOf(envs, frames)
    decreases |frames|
  {
    if |frames| > 1 {
      StoreSame(envs, envs', base, home, frames[..|frames| - 1]);
    } else {
      assert frames[..0] == [];
    }
  }

  lemma {:induction false} StoreKeysKept(envs: seq<Env>, envs': seq<Env>, base: nat, home: string, frames: seq<Frame>)
    requires Linked(envs, base, home, frames) && EnvsKept(envs, envs')
    ensures StoreOf(envs', frames).Keys == StoreOf(envs, frames).Keys
    decreases |frames|
  {
    if |frames| > 1 {
      StoreKeysKept(envs, envs', base, home, frames[..|frames| - 1]);
    }
  }

  // ---- lookup and binding

  lemma {:induction false} LookupStore(envs: seq<Env>, packages: map<string, nat>, base: nat, frames: seq<Frame>, s: Symbol)
    requires Linked(envs, base, s.package, frames)
    ensures SymbolValue(envs, packages, frames[|frames| - 1].env, s) == Get(StoreOf(envs, frames), s)
    decreases |frames|
  {
    if |frames| > 1 {
      LookupStore(envs, packages, base, frames[..|frames| - 1], s);
    } else {
      assert StoreOf(envs, frames[..0]) == map[];
    }
  }

  /** LookupSymbol and the reference lookup agree, for symbols of every package. */
  lemma LookupVariableMatches(g: Globals, st: State, s: Symbol)
    requires Inv(g, st)
    ensures SymbolValue(st.envs, st.packages, st.frames[|st.frames| - 1].env, s)
         == LookupVariable(g, StoreOf(st.envs, st.frames), s)
  {
    if s.package == g.home {
      LookupStore(st.envs, st.packages, st.packages[g.home], st.frames, s);
    }
  }

  lemma {:induction false} HomeFunction(envs: seq<Env>, packages: map<string, nat>, base: nat, frames: seq<Frame>, s: Symbol)
    requires Linked(envs, base, s.package, frames) && base < |envs|
    ensures SymbolFunction(envs, packages, frames[|frames| - 1].env, s) == Get(envs[base].functions, s)
    decreases |frames|
  {
    if |frames| > 1 {
      HomeFunction(envs, packages, base, frames[..|frames| - 1], s);
    }
  }

  lemma LookupFunctionMatches(g: Globals, st: State, s: Symbol)
    requires Inv(g, st)
    ensures SymbolFunction(st.envs, st.packages, st.frames[|st.frames| - 1].env, s) == LookupGlobalFunction(g, s)
  {
    if s.package == g.home {
      HomeFunction(st.envs, st.packages, st.packages[g.home], st.frames, s);
    }
  }

  lemma LinkedBelow(envs: seq<Env>, base: nat, home: string, frames: seq<Frame>)
    requires Linked(envs, base, home, frames)
    ensures frames != [] && frames[|frames| - 1].env < |envs| && envs[frames[|frames| - 1].env].package == home
    ensures |frames| > 1 ==>
      && Linked(envs, base, home, frames[..|frames| - 1])
      && ParentOf(envs, frames[|frames| - 1].env) == Some(frames[|frames| - 2].env)
      && frames[|frames| - 2].env < frames[|frames| - 1].env
    ensures |frames| == 1 ==> ParentOf(envs, frames[0].env) == None
  {
    if |frames| > 1 {
      assert Linked(envs, base, home, frames[..|frames| - 1]);
    }
  }

  lemma SetTopStore(envs: seq<Env>, base: nat, home: string, frames: seq<Frame>, s: Symbol, v: Form)
    requires Linked(envs, base, home, frames)
    ensures StoreOf(SetValue(envs, frames[|frames| - 1].env, s, v), frames) == StoreOf(envs, frames)[s := v]
  {
    LinkedBelow(envs, base, home, frames);
    hide Linked, ParentOf;
    var below := frames[..|frames| - 1];
    var top := frames[|frames| - 1].env;
    var envs' := SetValue(envs, top, s, v);
    assert StoreOf(envs', below) == StoreOf(envs, below) by {
      if |frames| > 1 {
        StoreSame(envs, envs', base, home, below);
      } else {
        assert below == [];
      }
    }
    UpdateRight(StoreOf(envs, below), envs[top].values, s, v);
  }

  lemma UpdateRight(a: Store, b: Store, s: Symbol, v: Form)
    ensures a + b[s := v] == (a + b)[s := v]
  {
  }

  lemma UpdateLeft(a: Store, b: Store, s: Symbol, v: Form)
    requires s !in b
    ensures a[s := v] + b == (a + b)[s := v]
  {
  }

  /** Setting a lower environment's symbol is visible when the top does not hold it. */
  lemma SetBelowStore(envs: seq<Env>, envs': seq<Env>, frames: seq<Frame>, s: Symbol, v: Form)
    requires frames != []
    requires var top := frames[|frames| - 1].env;
      && top < |envs| && top < |envs'| && envs'[top] == envs[top] && s !in envs[top].values
    requires var below := frames[..|frames| - 1];
      StoreOf(envs', below) == StoreOf(envs, below)[s := v]
    ensures StoreOf(envs', frames) == StoreOf(envs, frames)[s := v]
  {
    var below := frames[..|frames| - 1];
    UpdateLeft(StoreOf(envs, below), envs[frames[|frames| - 1].env].values, s, v);
  }

  /** The binder found on the parent chain is the topmost frame environment holding the symbol. */
  lemma {:induction false} BinderStore(envs: seq<Env>, base: nat, home: string, frames: seq<Frame>, s: Symbol, v: Form)
    requires Linked(envs, base, home, frames)
    ensures var where := Binder(envs, frames[|frames| - 1].env, s);
      && (where.Some? <==> s in StoreOf(envs, frames))
      && (where.Some? ==>
            && where.value <= frames[|frames| - 1].env && where.value < |envs|
            && s in envs[where.value].values
            && envs[where.value].package == home
            && StoreOf(SetValue(envs, where.value, s, v), frames) == StoreOf(envs, frames)[s := v])
    decreases |frames|
  {
    LinkedBelow(envs, base, home, frames);
    hide Linked, ParentOf;
    var top := frames[|frames| - 1].env;
    if s in envs[top].values {
      SetTopStore(envs, base, home, frames, s, v);
    } else if |frames| > 1 {
      BinderStore(envs, base, home, frames[..|frames| - 1], s, v);
      var where := Binder(envs, top, s);
      assert where == Binder(envs, frames[|frames| - 2].env, s);
      if where.Some? {
        SetBelowStore(envs, SetValue(envs, where.value, s, v), frames, s, v);
      }
    } else {
      assert frames[..0] == [];
    }
  }

  /** bind_value in the top environment is an update of the store. */
  lemma BindStore(envs: seq<Env>, base: nat, home: string, frames: seq<Frame>, s: Symbol, v: Form)
    requires Linked(envs, base, home, frames)
    ensures StoreOf(BindValueIn(envs, frames[|frames| - 1].env, s, v), frames) == StoreOf(envs, frames)[s := v]
  {
    BinderStore(envs, base, home, frames, s, v);
    SetTopStore(envs, base, home, frames, s, v);
  }
}
