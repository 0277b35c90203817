/** Interning and generating symbols in a package's table, runtime.c. */
module Packages {
  import opened Forms

  /** None is the key of symbols generated without a name. */
  type Table = map<Option<string>, Symbol>

  function NameOf(name: Option<string>): string {
    match name
    case Some(s) => s
    case None => ""
  }

  /** The number the latest symbol generated under a name has; 0 for an interned or unknown one. */
  function LastId(table: Table, name: Option<string>): nat {
    if name in table then table[name].id else 0
  }

  function InternIn(table: Table, package: string, name: string): (Table, Symbol) {
    if Some(name) in table then (table, table[Some(name)])
    else
      var s := Symbol(name, package, 0);
      (table[Some(name) := s], s)
  }

  /** Always a new symbol; it takes the name's place in the table. */
  function GensymIn(table: Table, package: string, name: Option<string>): (Table, Symbol) {
    var s := Symbol(NameOf(name), package, LastId(table, name) + 1);
    (table[name := s], s)
  }

  datatype Request = Interning(name: string) | Generating(prefix: Option<string>)

  function Serve(table: Table, package: string, r: Request): (Table, Symbol) {
    match r
    case Interning(name) => InternIn(table, package, name)
    case Generating(prefix) => GensymIn(table, package, prefix)
  }

  function ServeAll(table: Table, package: string, requests: seq<Request>): Table {
    if requests == [] then table
    else
      var n := |requests| - 1;
      Serve(ServeAll(table, package, requests[..n]), package, requests[n]).0
  }

  function Generated(requests: seq<Request>, name: Option<string>): nat {
    if requests == [] then 0
    else
      var n := |requests| - 1;
      Generated(requests[..n], name) + if requests[n] == Generating(name) then 1 else 0
  }

  /** Every symbol generated under a name counts it up; interning does not. */
  lemma {:induction false} IdsCount(table: Table, package: string, requests: seq<Request>, name: Option<string>)
    ensures LastId(ServeAll(table, package, requests), name) == LastId(table, name) + Generated(requests, name)
  {
    if requests != [] { IdsCount(table, package, requests[..|requests| - 1], name); }
  }

  lemma {:induction false} GeneratedGrows(requests: seq<Request>, i: nat, name: Option<string>)
    requires i < |requests| && requests[i] == Generating(name)
    ensures Generated(requests[..i], name) < Generated(requests, name)
  {
    var init := requests[..|requests| - 1];
    if i < |init| {
      assert init[..i] == requests[..i];
      GeneratedGrows(init, i, name);
    }
  }

  /** Symbols generated under one name in a run are numbered upwards, whatever is interned in between. */
  lemma GensymsDiffer(table: Table, package: string, requests: seq<Request>, i: nat, j: nat, name: Option<string>)
    requires i < j < |requests| && requests[i] == Generating(name) && requests[j] == Generating(name)
    ensures Serve(ServeAll(table, package, requests[..i]), package, requests[i]).1.id
          < Serve(ServeAll(table, package, requests[..j]), package, requests[j]).1.id
  {
    IdsCount(table, package, requests[..i], name);
    IdsCount(table, package, requests[..j], name);
    assert requests[..j][..i] == requests[..i];
    GeneratedGrows(requests[..j], i, name);
  }

  /** The table holds symbols under their own names. */
  ghost predicate Named(table: Table) {
    forall name <- table :: table[name].lexeme == NameOf(name)
  }

  lemma {:induction false} StaysNamed(table: Table, package: string, requests: seq<Request>)
    requires Named(table)
    ensures Named(ServeAll(table, package, requests))
  {
    if requests != [] { StaysNamed(table, package, requests[..|requests| - 1]); }
  }

  /** Every symbol of the table is the package's own, except those that came from elsewhere. */
  ghost predicate Owned(table: Table, package: string, foreign: set<Symbol>) {
    forall name <- table :: table[name].package == package || table[name] in foreign
  }

  /** Over every run the symbols that join the table, interned or generated, are the package's. */
  lemma {:induction false} StaysOwned(table: Table, package: string, foreign: set<Symbol>, requests: seq<Request>)
    requires Owned(table, package, foreign)
    ensures Owned(ServeAll(table, package, requests), package, foreign)
  {
    if requests != [] { StaysOwned(table, package, foreign, requests[..|requests| - 1]); }
  }

  /** From an empty table every symbol is: it belongs to the package, and is numbered 0 unless it was generated. */
  lemma SymbolsFromStart(package: string, requests: seq<Request>, name: Option<string>)
    ensures var table := ServeAll(map[], package, requests);
      name in table ==>
        table[name] == Symbol(NameOf(name), package, Generated(requests, name))
  {
    StaysOwned(map[], package, {}, requests);
    StaysNamed(map[], package, requests);
    IdsCount(map[], package, requests, name);
  }

  /**
   Interning: a name in the table gives the table's symbol and changes nothing; another gives a new symbol with that
   name, of this package and with number 0, and the table differs from before only in having it.
   */
  lemma InternGives(table: Table, package: string, name: string)
    ensures var (t, s) := InternIn(table, package, name);
      && Some(name) in t && t[Some(name)] == s
      && (forall other :: other != Some(name) ==> (other in t <==> other in table) && (other in table ==> t[other] == table[other]))
      && (Some(name) in table ==> s == table[Some(name)])
      && (Some(name) !in table ==> s.lexeme == name && s.package == package && s.id == 0)
  {
  }

  /** Generating: the symbol is none of the table's with that name, and takes its place. */
  lemma GensymGives(table: Table, package: string, name: Option<string>)
    ensures var (t, s) := GensymIn(table, package, name);
      && name in t && t[name] == s
      && (forall other :: other != name ==> (other in t <==> other in table) && (other in table ==> t[other] == table[other]))
      && s.package == package && s.id > 0 && s.lexeme == NameOf(name)
      && (name in table ==> s != table[name])
  {
  }

  /**
   Interning a name again gives the same symbol, whatever has been interned and generated in between, if
   and only if no symbol was generated under that name: interning would then find the generated one.
   */
  lemma {:induction false} InternStable(table: Table, package: string, requests: seq<Request>, name: string)
    ensures var (t, s) := InternIn(table, package, name);
      InternIn(ServeAll(t, package, requests), package, name).1 == s <==> Generated(requests, Some(name)) == 0
  {
    var (t, s) := InternIn(table, package, name);
    IdsCount(t, package, requests, Some(name));
    if Generated(requests, Some(name)) == 0 { Untouched(t, package, requests, name); } else { Replaced(t, package, requests, name); }
  }

  lemma {:induction false} Untouched(table: Table, package: string, requests: seq<Request>, name: string)
    requires Some(name) in table && Generated(requests, Some(name)) == 0
    ensures Some(name) in ServeAll(table, package, requests) && ServeAll(table, package, requests)[Some(name)] == table[Some(name)]
  {
    if requests != [] { Untouched(table, package, requests[..|requests| - 1], name); }
  }

  lemma {:induction false} Replaced(table: Table, package: string, requests: seq<Request>, name: string)
    requires Some(name) in table
    ensures Some(name) in ServeAll(table, package, requests)
  {
    if requests != [] { Replaced(table, package, requests[..|requests| - 1], name); }
  }

  class Package {
    const name: string
    var interned: Table

    constructor (name: string)
      ensures this.name == name && interned == map[]
    {
      this.name := name;
      interned := map[];
    }

    method InternSymbol(lexeme: string) returns (sym: Symbol)
      modifies this
      ensures (interned, sym) == InternIn(old(interned), name, lexeme)
    {
      if Some(lexeme) in interned { return interned[Some(lexeme)]; }
      sym := Symbol(lexeme, name, 0);
      interned := interned[Some(lexeme) := sym];
    }

    method Gensym(lexeme: Option<string>) returns (sym: Symbol)
      modifies this
      ensures (interned, sym) == GensymIn(old(interned), name, lexeme)
    {
      var nextId := 1;
      if lexeme in interned { nextId := interned[lexeme].id + 1; }
      sym := Symbol(NameOf(lexeme), name, nextId);
      interned := interned[lexeme := sym];
    }
  }
}
