/** From text to value. */
module ReadEval {
  // What is read is what is interpreted: the quote macro's form evaluates to the form quoted, and the special
  // operators can be written in small letters.

  import opened Forms
  import opened SpecialForms
  import opened Bytecode
  import opened Machine
  import opened Evaluator
  import opened Shapes
  import opened Runs
  import opened CompilerTheorem
  import opened Reader
  import opened ReadPrint
  import opened ReadExactly
  import opened CaseConversion
  import opened ReaderSyntax

  /** interpret() of the quote macro's form gives the form, and changes nothing but the last return. */
  lemma QuoteInterprets(g: Globals, p: Inherent, st: State, f: Form, store: Store, live: set<Form>, fuel: nat)
    requires st.rets != [] && fuel >= 3
    ensures var q := Cons(QUOTE, Cons(f, Nil));
      && Interpret(p, st, q, fuel) == Done(SetLastReturn(st, f), f)
      && Eval(g, p, q, store, live, fuel) == Value(f, store)
  {
    hide Step, Jump, Exec;
    var q := Cons(QUOTE, Cons(f, Nil));
    OperatorsAreThese("QUOTE");
    SpecialCode(q, 0);
    var code := EmitForm(q, true, 0).code;
    assert code == [Push(f), RetForm];
    var st1 := st.(forms := st.forms + [f]);
    PushThenReturn(st, f);
    RunStep(p, code, 0, st, st1, fuel);
    RunStep(p, code, 1, st1, SetLastReturn(st, f), fuel - 1);
  }

  lemma PushThenReturn(st: State, f: Form)
    requires st.rets != []
    ensures Exec(st, Push(f)) == Next(st.(forms := st.forms + [f]))
    ensures Exec(st.(forms := st.forms + [f]), RetForm) == Next(SetLastReturn(st, f))
  {
    assert (st.forms + [f])[..|st.forms|] == st.forms;
  }

  /** Reading a quote and the text of a readable form and interpreting what was read gives the form. */
  lemma QuotedTextGivesForm(p: Inherent, st: State, ctx: Context, f: Form, rest: string, fuel: nat)
    requires NamesMatch(ctx) && Lexical(f) && Readable(ctx, f) && Textual(f) && Parses(f) && (f.Cons? || f.Str? || Delimited(rest))
    requires st.rets != [] && fuel >= 3
    ensures var r := Read(ctx, "'" + Print(f) + rest);
      r.Got? && r.rest == rest && Interpret(p, st, r.form, fuel) == Done(SetLastReturn(st, f), f)
  {
    hide *;
    QuoteRead(ctx, f, rest);
    QuoteInterprets(Globals("", map[], map[]), p, st, f, map[], {}, fuel);
  }

  /** A name of an operator in small letters, or in any mixture, reads as the operator. */
  lemma OperatorsInSmallLetters(ctx: Context, w: string, name: string, rest: string)
    requires ctx.readcase == Upcase && NamesMatch(ctx) && name in OPERATORS && NameFor(Upcase, w, name) && Ends(rest)
    ensures var r := Read(ctx, w + rest);
      r.Got? && r.rest == rest && r.form.Sym? && r.form.sym.lexeme == name && SpecialOf(r.form.sym.lexeme) != NotSpecial
  {
    hide Read, Starts, GoesOn, Ends, DIGITS, SMALL, CAPITALS, MARKS;
    OperatorsAreThese(name);
    OperatorLetters(name);
    forall i | 0 <= i < |w| ensures Starts(w[i]) && GoesOn(w[i]) {
      FromOperator(w[i], name[i]);
    }
    assert name[0] !in DIGITS;
    TokenReads(ctx, w, name, rest);
  }

  lemma OperatorLetters(name: string)
    requires name in OPERATORS
    ensures name != ""
    ensures forall i :: 0 <= i < |name| ==> (name[i] in CAPITALS || name[i] == '*') && name[i] !in DIGITS
  {
    forall i | 0 <= i < |name| ensures (name[i] in CAPITALS || name[i] == '*') && name[i] !in DIGITS {
      assert 'A' <= name[i] <= 'Z' || name[i] == '*';
      InAlphabet(name[i]);
      DigitsAre(name[i]);
    }
  }

  lemma FromOperator(c: char, d: char)
    requires Becomes(Upcase, c, d) && (d in CAPITALS || d == '*')
    ensures Starts(c) && GoesOn(c)
  {
    hide SMALL, CAPITALS, DIGITS;
    assert '*' in MARKS by { assert MARKS[5] == '*'; }
  }
}
