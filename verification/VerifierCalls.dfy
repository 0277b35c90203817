/** What a call with compilable arguments does to the stacks. */
module VerifierCalls {
  import opened Forms
  import opened Machine
  import opened Evaluator
  import opened Runs
  import opened FrameChain
  import opened Simulation
  import opened CallSteps
  import opened Correctness

  /** A call with compilable arguments replaces function and arguments by one value and keeps everything else. */
  lemma CallReplaces(g: Globals, p: Inherent, st: State, under: seq<Form>, fn: nat, args: Form, live: set<Form>, fuel: nat)
    requires Inv(g, st) && LiveTags(st, live) && AllCompilable(args, false, {}, live)
    requires ProperList(args) && st.forms == under + [Fn(fn)] + Elements(args)
    ensures var r := Call(p, st, |Elements(args)|, fuel);
      && (r.Done? || r.Error? || r.OutOfFuel?)
      && (r.Done? ==> Inv(g, r.st) && Keeps(st, r.st) && r.st.forms == under)
  {
    hide Inv, LiveTags, AllCompilable, Keeps, Elements, ProperList, EvalArgs, Call, FinishCall, EvalArguments, Inside, EnvsKept, StoreOf;
    var argc := |Elements(args)|;
    var st4 := OpenCall(g, live, st, under, fn, args);
    var st5, enough := SimArgs(g, p, args, live, st4, |under|, argc, 0, [], fuel);
    CallByArgs(p, st, st4, under, fn, argc, fuel);
    if !EvalArgs(p, st4, |under|, argc, 0, fuel).OutOfFuel? {
      var r := EvalArguments(g, p, args, Vars(st4), live, fuel);
      ArgsAgree(g, p, st4, |under|, argc, st5, enough, fuel, r);
      if r.Values? {
        ValuesAreProper(g, p, args, Vars(st4), live, fuel);
        assert [] + Elements(r.list) == Elements(r.list);
        ElementsAreList(r.list);
        assert st5.forms == st.forms + [r.list];
        InsideKeeps(st, st4, st5);
        StillEmpty(st, st4, st5);
        assert st.forms[..|under|] == under;
        CallClose(g, p, st, st5, fn, argc, r.list, under);
      }
    }
  }

  /** With the fuel given, arguments end as their evaluation does. */
  lemma ArgsAgree(g: Globals, p: Inherent, st: State, fnIndex: nat, argc: nat, st': State, enough: nat, fuel: nat, r: ArgsResult)
    requires ArgsSimulated(g, p, st, fnIndex, argc, 0, [], st', enough, fuel, r)
    requires !EvalArgs(p, st, fnIndex, argc, 0, fuel).OutOfFuel?
    ensures r.Values? || r.Error?
    ensures r.Values? ==> EvalArgs(p, st, fnIndex, argc, 0, fuel) == ArgsDone(st')
    ensures r.Error? ==> EvalArgs(p, st, fnIndex, argc, 0, fuel) == ArgsOutcome.Error
  {
    hide EvalArgs, Inv, Keeps, StoreOf, ListOf;
    if !r.Timeout? {
      ArgsMonotone(p, st, fnIndex, argc, 0, fuel, fuel + enough);
      ArgsMonotone(p, st, fnIndex, argc, 0, enough, fuel + enough);
    }
  }
}
