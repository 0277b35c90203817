/** bind_value and symbol_value on an environment chain, in any heap. */
module Environments {
  import opened Forms
  import opened Machine

  /** For a symbol of the environment's package, lookup finds what the nearest binder holds. */
  lemma {:induction false} LookupIsBinder(envs: seq<Env>, packages: map<string, nat>, id: nat, s: Symbol)
    requires id < |envs| && envs[id].package == s.package
    ensures SymbolValue(envs, packages, id, s) ==
      var where := Binder(envs, id, s);
      if where.Some? && where.value < |envs| then Get(envs[where.value].values, s) else None
    ensures Binder(envs, id, s).Some? ==>
      var at := Binder(envs, id, s).value; at < |envs| && s in envs[at].values && envs[at].package == s.package
    decreases id
  {
    var parent := ParentOf(envs, id);
    if s !in envs[id].values && parent.Some? {
      LookupIsBinder(envs, packages, parent.value, s);
    }
  }

  lemma {:induction false} BinderPackage(envs: seq<Env>, id: nat, s: Symbol)
    requires id < |envs| && Binder(envs, id, s).Some?
    ensures var at := Binder(envs, id, s).value;
      at <= id && s in envs[at].values && envs[at].package == envs[id].package
    decreases id
  {
    if s !in envs[id].values {
      BinderPackage(envs, ParentOf(envs, id).value, s);
    }
  }

  /** Setting the value where the chain binds the symbol, or at its start, makes that the binder. */
  lemma {:induction false} BinderAfterSet(envs: seq<Env>, id: nat, at: nat, s: Symbol, v: Form)
    requires id < |envs| && at < |envs|
    requires Binder(envs, id, s) == Some(at) || (Binder(envs, id, s).None? && at == id)
    ensures Binder(SetValue(envs, at, s, v), id, s) == Some(at)
    decreases id
  {
    var envs' := SetValue(envs, at, s, v);
    assert ParentOf(envs', id) == ParentOf(envs, id);
    if s !in envs[id].values && at != id {
      BinderAfterSet(envs, ParentOf(envs, id).value, at, s, v);
    }
  }

  /** Other symbols, in any package, are looked up as before, from every environment. */
  lemma {:induction false} OtherSymbolsKept(envs: seq<Env>, packages: map<string, nat>, at: nat, s: Symbol, v: Form, id: nat, other: Symbol)
    requires other != s
    ensures SymbolValue(SetValue(envs, at, s, v), packages, id, other) == SymbolValue(envs, packages, id, other)
    decreases if id < |envs| && envs[id].package != other.package then 1 else 0, id
  {
    var envs' := SetValue(envs, at, s, v);
    if id < |envs| {
      assert ParentOf(envs', id) == ParentOf(envs, id);
      assert GlobalOf(envs', packages, other.package) == GlobalOf(envs, packages, other.package);
      if envs[id].package != other.package {
        var global := GlobalOf(envs, packages, other.package);
        if global.Some? {
          OtherSymbolsKept(envs, packages, at, s, v, global.value, other);
        }
      } else if other !in envs[id].values && ParentOf(envs, id).Some? {
        OtherSymbolsKept(envs, packages, at, s, v, ParentOf(envs, id).value, other);
      }
    }
  }

  /** A chain of one package is blind to what happens to environments of another package. */
  lemma {:induction false} OtherPackageKept(envs: seq<Env>, packages: map<string, nat>, at: nat, s: Symbol, v: Form, id: nat)
    requires at < |envs| && id < |envs| && envs[id].package == s.package && envs[at].package != s.package
    ensures SymbolValue(SetValue(envs, at, s, v), packages, id, s) == SymbolValue(envs, packages, id, s)
    decreases id
  {
    assert ParentOf(SetValue(envs, at, s, v), id) == ParentOf(envs, id);
    if s !in envs[id].values && ParentOf(envs, id).Some? {
      OtherPackageKept(envs, packages, at, s, v, ParentOf(envs, id).value);
    }
  }

  /**
   symbol_value after bind_value: the bound value, exactly for symbols of the environment's package;
   a symbol of another package keeps the value its own package gives it. Every other symbol is unchanged.
   */
  lemma LookupAfterBind(envs: seq<Env>, packages: map<string, nat>, id: nat, s: Symbol, v: Form, other: Symbol)
    requires id < |envs|
    ensures var envs' := BindValueIn(envs, id, s, v);
      && SymbolValue(envs', packages, id, s)
         == (if s.package == envs[id].package then Some(v) else SymbolValue(envs, packages, id, s))
      && (other != s ==> SymbolValue(envs', packages, id, other) == SymbolValue(envs, packages, id, other))
  {
    var where := Binder(envs, id, s);
    var at := if where.Some? then where.value else id;
    if where.Some? {
      BinderPackage(envs, id, s);
    }
    var envs' := SetValue(envs, at, s, v);
    if s.package == envs[id].package {
      BinderAfterSet(envs, id, at, s, v);
      LookupIsBinder(envs', packages, id, s);
    } else {
      var global := GlobalOf(envs, packages, s.package);
      assert GlobalOf(envs', packages, s.package) == global;
      if global.Some? {
        OtherPackageKept(envs, packages, at, s, v, global.value);
      }
    }
    if other != s {
      OtherSymbolsKept(envs, packages, at, s, v, id, other);
    }
  }

  /** A symbol of another package is looked up once, from that package's global environment, and along its chain only. */
  lemma OneJump(envs: seq<Env>, packages: map<string, nat>, id: nat, s: Symbol)
    requires id < |envs| && envs[id].package != s.package
    ensures SymbolValue(envs, packages, id, s) ==
      var global := GlobalOf(envs, packages, s.package);
      if global.None? then None
      else
        var where := Binder(envs, global.value, s);
        if where.Some? && where.value < |envs| then Get(envs[where.value].values, s) else None
  {
    var global := GlobalOf(envs, packages, s.package);
    if global.Some? { LookupIsBinder(envs, packages, global.value, s); }
  }
}
