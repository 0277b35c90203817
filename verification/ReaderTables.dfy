/** The reader over a package's table. */
module ReaderTables {
  // The reader's context is the table of the current package: reading a name is interning it there. So what is
  // proved of tables over runs holds of the symbols that are read.

  import opened Forms
  import opened Packages
  import opened Reader
  import opened ReadPrint
  import opened CaseConversion

  /** What the reader sees of a package: names that are strings. */
  function ContextOf(readcase: Readcase, package: string, table: Table): Context {
    Context(readcase, package, map key <- table | key.Some? :: key.value := table[key])
  }

  lemma NamesIn(readcase: Readcase, package: string, table: Table, name: string)
    ensures var interned := ContextOf(readcase, package, table).interned;
      && (name in interned <==> Some(name) in table)
      && (name in interned ==> interned[name] == table[Some(name)])
  {
    if Some(name) in table { assert Some(name).Some?; }
  }

  /** The reader's symbol is the one interning gives. */
  lemma ReaderInterns(readcase: Readcase, package: string, table: Table, name: string)
    ensures Intern(ContextOf(readcase, package, table), name) == InternIn(table, package, name).1
  {
    hide ContextOf;
    NamesIn(readcase, package, table, name);
    assert ContextOf(readcase, package, table).package == package by { PackageIs(readcase, package, table); }
  }

  lemma PackageIs(readcase: Readcase, package: string, table: Table)
    ensures ContextOf(readcase, package, table).package == package && ContextOf(readcase, package, table).readcase == readcase
  {
  }

  /** A table that holds symbols under their own names is what the reader's round trip asks for. */
  lemma NamedMatches(readcase: Readcase, package: string, table: Table)
    requires Named(table)
    ensures NamesMatch(ContextOf(readcase, package, table))
  {
    var ctx := ContextOf(readcase, package, table);
    forall name <- ctx.interned ensures ctx.interned[name].lexeme == name {
      NamesIn(readcase, package, table, name);
      assert NameOf(Some(name)) == name;
    }
  }

  /**
   A token that is no number reads as the symbol named by its converted letters. From an empty table, and whatever
   was interned and generated since, that symbol has this name, is the package's, and is numbered by how often a
   symbol was generated under the name: an interned one as long as none was.
   */
  lemma TokenReadsSymbol(readcase: Readcase, package: string, requests: seq<Request>, w: string, name: string, rest: string)
    requires LexicalName(w) && Delimited(rest) && NameFor(readcase, w, name) && exists i :: 0 <= i < |name| && !IsDigit(name[i])
    ensures var ctx := ContextOf(readcase, package, ServeAll(map[], package, requests));
      Read(ctx, w + rest) == Got(Sym(Symbol(name, package, Generated(requests, Some(name)))), rest)
  {
    hide Read, ContextOf, ServeAll, LexicalName, Delimited, NameFor, IsDigit, Generated;
    var table := ServeAll(map[], package, requests);
    var ctx := ContextOf(readcase, package, table);
    NameRead(ctx, w, rest);
    PackageIs(readcase, package, table);
    ConvertsName(readcase, w, name);
    NotDigits(name);
    ReaderInterns(readcase, package, table, name);
    InternedFromStart(package, requests, name);
  }

  lemma {:induction false} NotDigits(s: string)
    requires exists i :: 0 <= i < |s| && !IsDigit(s[i])
    ensures !AllDigits(s)
  {
    if s != "" && IsDigit(s[0]) {
      var i :| 0 <= i < |s| && !IsDigit(s[i]);
      assert s[1..][i - 1] == s[i];
      NotDigits(s[1..]);
    }
  }

  lemma InternedFromStart(package: string, requests: seq<Request>, name: string)
    ensures InternIn(ServeAll(map[], package, requests), package, name).1 == Symbol(name, package, Generated(requests, Some(name)))
  {
    SymbolsFromStart(package, requests, Some(name));
    IdsCount(map[], package, requests, Some(name));
  }

  /** The quote macro's symbol is the one COMMON-LISP's table gives for the name QUOTE, unless one was generated under it. */
  lemma QuoteIsInterned(requests: seq<Request>)
    ensures Sym(InternIn(ServeAll(map[], "COMMON-LISP", requests), "COMMON-LISP", "QUOTE").1) == QUOTE
      <==> Generated(requests, Some("QUOTE")) == 0
  {
    InternedFromStart("COMMON-LISP", requests, "QUOTE");
  }
}
