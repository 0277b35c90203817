/** Reading undoes printing, exactly when. */
module ReadExactly {
  // One direction is ReadPrint's. For the other, nothing but a readable form whose text parses comes back: a text
  // that is cut short, or that the parenthesis counter has cut in the wrong place, never gives the form printed.

  import opened Forms
  import opened Reader
  import opened StringReading
  import opened ReadPrint

  /** A part of a printed token is a shorter name. */
  lemma ShortName(ctx: Context, w: string, n: nat)
    requires NamesMatch(ctx) && LexicalName(w) && 0 < n < |w|
    ensures var r := Read(ctx, w[..n]); r.Got? && (r.form.Fixnum? || (r.form.Sym? && |r.form.sym.lexeme| < |w|))
  {
    hide TraitsOf, Read, ConvertCase;
    var v := w[..n];
    assert v[0] == w[0] && v[1..] == w[1..][..n - 1];
    PartOfToken(w[1..], n - 1);
    NameRead(ctx, v, "");
    assert v + "" == v;
    ConvertLength(ctx.readcase, v);
    var name := Convert(ctx.readcase, v);
    assert Intern(ctx, name).lexeme == name;
  }

  lemma {:induction false} PartOfToken(w: string, n: nat)
    requires TokenChars(w) && n <= |w|
    ensures TokenChars(w[..n])
  {
    if n > 0 {
      PartOfToken(w[1..], n - 1);
      assert w[..n][1..] == w[1..][..n - 1];
    }
  }

  lemma {:induction false} ConvertLength(readcase: Readcase, s: string)
    ensures |Convert(readcase, s)| == |s|
  {
    if s != "" { ConvertLength(readcase, s[1..]); }
  }

  /** A list is read by its counter: the text before the parenthesis where it stops. */
  lemma {:induction false} ListReadIs(ctx: Context, s: string)
    ensures var e := Extract(s, 1);
      Read(ctx, "(" + s) ==
        match e
        case None => Hang
        case Some((inner, rest)) =>
          match ReadElements(ctx, inner)
          case Got(list, _) => Got(list, rest)
          case Crash => Crash
          case Hang => Hang
    ensures match Extract(s, 1)
      case None => true
      case Some((inner, rest)) => s == inner + ")" + rest && WellNested(inner)
  {
    assert ("(" + s)[1..] == s;
    var e := Extract(s, 1);
    if e.Some? { ExtractsMatching(s, 1, e.value.0, e.value.1); }
  }

  /** A part of a printed form never gives the form. */
  lemma {:induction false} CutShort(ctx: Context, f: Form, s: string)
    requires NamesMatch(ctx) && Lexical(f) && Textual(f) && s < Print(f)
    ensures var r := Read(ctx, s); r.Got? ==> r.form != f
    decreases f, 1
  {
    hide Read, ReadElements, TraitsOf, LexicalName, NamesMatch, WellNested;
    if s == "" {
      NothingRead(ctx);
    } else if f.Cons? {
      var s1 := s[1..];
      assert s == "(" + s1 && Print(f) == "(" + (PrintCons(f) + ")");
      assert s1 < PrintCons(f) + ")";
      ListReadIs(ctx, s1);
      var e := Extract(s1, 1);
      if e.Some? {
        var (inner, rest) := e.value;
        assert inner <= PrintCons(f) + ")" + "";
        if ReadElements(ctx, inner).Got? && ReadElements(ctx, inner).form == f {
          ListText(ctx, f, inner, "");
        }
      }
    } else if f.Str? {
      var s1 := s[1..];
      assert s == "\"" + s1 && Print(f) == "\"" + (f.text + "\"");
      assert s1 < f.text + "\"";
      StringCutShort(ctx, f.text, s1);
    } else {
      AtomFacts(ctx, f);
      assert s == AtomName(f)[..|s|];
      ShortName(ctx, AtomName(f), |s|);
    }
  }

  lemma NothingRead(ctx: Context)
    ensures Read(ctx, "") == Crash
  {
  }

  lemma {:induction false} StringReadIs(ctx: Context, s: string)
    ensures Read(ctx, "\"" + s) ==
      match StringText(s, "", false)
      case None => Hang
      case Some((chars, rest)) => Got(Str(UpToZero(chars)), rest)
  {
    assert ("\"" + s)[1..] == s;
  }

  lemma StringCutShort(ctx: Context, text: string, s: string)
    requires s < text + "\""
    ensures var r := Read(ctx, "\"" + s); r.Got? ==> r.form != Str(text)
  {
    hide Read, StringText, UpToZero;
    StringReadIs(ctx, s);
    var r := StringText(s, "", false);
    if r.Some? && UpToZero(r.value.0) == text {
      assert s <= text + "\"" + "";
      OnlyPlainComesBack(text, "", s, r.value.0, r.value.1);
    }
  }

  /** Text that begins like a printed list and gives the list's elements is the list's text, and each element came back. */
  lemma {:induction false} ListText(ctx: Context, d: Form, s: string, u: string)
    requires NamesMatch(ctx) && Lexical(d) && Textual(d) && d.Cons?
    requires s <= PrintCons(d) + ")" + u
    requires ReadElements(ctx, s).Got? && ReadElements(ctx, s).form == d
    ensures s == PrintCons(d) && ElementsParse(d)
    ensures Readable(ctx, d.car) && (d.cdr.Nil? || (d.cdr.Cons? && Readable(ctx, d)))
    decreases d, 0
  {
    hide Read, ReadElements, TraitsOf, LexicalName, NamesMatch, WellNested;
    var first := Print(d.car);
    var tail := PrintTail(d.cdr) + ")" + u;
    assert PrintCons(d) + ")" + u == first + tail;
    FirstElement(ctx, s);
    if |s| < |first| {
      assert s < first;
      CutShort(ctx, d.car, s);
      assert false;
    } else {
      var s' := s[|first|..];
      assert s == first + s' && s' <= tail;
      TailDelimits(d.cdr, u, s');
      var r := Read(ctx, s);
      ComesBack(ctx, d.car, s', r.rest);
      TailText(ctx, d.cdr, s', u);
    }
  }

  /** What a list's reading says of its first element and of the rest. */
  lemma FirstElement(ctx: Context, s: string)
    requires ReadElements(ctx, s).Got? && ReadElements(ctx, s).form.Cons?
    ensures var list := ReadElements(ctx, s).form; var r := Read(ctx, s);
      r.Got? && r.form == list.car && ReadElements(ctx, r.rest).Got? && ReadElements(ctx, r.rest).form == list.cdr
  {
    hide Read;
  }

  lemma TailDelimits(d: Form, u: string, s: string)
    requires Textual(d) && s <= PrintTail(d) + ")" + u
    ensures Delimited(s)
  {
    if s != "" { assert s[0] == (PrintTail(d) + ")" + u)[0]; }
  }

  lemma {:induction false} TailText(ctx: Context, d: Form, s: string, u: string)
    requires NamesMatch(ctx) && Lexical(d) && Textual(d)
    requires s <= PrintTail(d) + ")" + u
    requires ReadElements(ctx, s).Got? && ReadElements(ctx, s).form == d
    ensures s == PrintTail(d) && ElementsParse(d) && (d.Nil? || (d.Cons? && Readable(ctx, d)))
    decreases d, 1
  {
    hide Read, TraitsOf, LexicalName, NamesMatch, WellNested;
    if d.Nil? {
      if s != "" {
        TailStarts(s, u);
        CloseCrashes(ctx, s);
      }
    } else if d.Cons? {
      assert s != "" && s[0] == ' ';
      var s' := s[1..];
      assert s == " " + s' && s' <= PrintCons(d) + ")" + u;
      AfterSpace(ctx, s');
      hide ReadElements;
      ListText(ctx, d, s', u);
    } else {
      ListsOnly(ctx, s);
    }
  }

  lemma TailStarts(s: string, u: string)
    requires s <= PrintTail(Nil) + ")" + u && s != ""
    ensures s[0] == ')'
  {
    assert s[0] == (PrintTail(Nil) + ")" + u)[0];
  }

  /** A closing parenthesis where an element should begin aborts the reader. */
  lemma CloseCrashes(ctx: Context, s: string)
    requires s != "" && s[0] == ')'
    ensures ReadElements(ctx, s) == Crash
  {
    assert !AllSpace(s);
  }

  lemma ListsOnly(ctx: Context, s: string)
    ensures ReadElements(ctx, s).Got? ==> ReadElements(ctx, s).form.Nil? || ReadElements(ctx, s).form.Cons?
  {
    hide Read;
  }

  /** If what was printed comes back, it was readable, its text parses, and it was read to its end. */
  lemma {:induction false} ComesBack(ctx: Context, f: Form, t: string, r: string)
    requires NamesMatch(ctx) && Lexical(f) && Textual(f) && (f.Cons? || f.Str? || Delimited(t))
    requires Read(ctx, Print(f) + t) == Got(f, r)
    ensures Readable(ctx, f) && Parses(f) && r == t
    decreases f, 1
  {
    hide Read, ReadElements, TraitsOf, LexicalName, WellNested, Delimited;
    if f.Cons? {
      var s := PrintCons(f) + ")" + t;
      assert Print(f) + t == "(" + s;
      ListReadIs(ctx, s);
      var (inner, rest) := Extract(s, 1).value;
      assert inner <= PrintCons(f) + ")" + t;
      ListText(ctx, f, inner, t);
      assert inner + ")" + rest == PrintCons(f) + ")" + t;
      SameBehind(inner, rest, t);
    } else if f.Str? {
      var s := f.text + "\"" + t;
      assert Print(f) + t == "\"" + s;
      StringReadIs(ctx, s);
      hide StringText, UpToZero;
      var (chars, rest) := StringText(s, "", false).value;
      OnlyPlainComesBack(f.text, t, s, chars, rest);
      SameAfterQuote(f.text, rest, t);
    } else {
      AtomFacts(ctx, f);
      NameRead(ctx, AtomName(f), t);
      AtomComesBack(ctx, f);
    }
  }

  lemma SameBehind(inner: string, rest: string, t: string)
    requires inner + ")" + rest == inner + ")" + t
    ensures rest == t
  {
    assert (inner + ")" + rest)[|inner| + 1..] == rest && (inner + ")" + t)[|inner| + 1..] == t;
  }

  lemma SameAfterQuote(text: string, rest: string, t: string)
    requires text + "\"" + rest == text + "\"" + t
    ensures rest == t
  {
    assert (text + "\"" + rest)[|text| + 1..] == rest && (text + "\"" + t)[|text| + 1..] == t;
  }

  lemma AtomComesBack(ctx: Context, f: Form)
    requires NamesMatch(ctx) && Lexical(f) && !f.Cons? && !f.Str? && NameForm(ctx, AtomName(f)) == f
    ensures Readable(ctx, f)
  {
    if f.Sym? { SymbolReadBack(ctx, f.sym); }
  }

  /**
   Reading undoes printing: for every tree of strings, NIL, T and symbols that print as tokens, the reader gives
   the printed form back, and stops right behind its text, if and only if the form is readable and its text parses.
   */
  lemma ReadUndoesPrint(ctx: Context, f: Form, rest: string)
    requires NamesMatch(ctx) && Lexical(f) && (f.Cons? || f.Str? || Delimited(rest))
    ensures Textual(f)
    ensures Read(ctx, Print(f) + rest) == Got(f, rest) <==> Readable(ctx, f) && Parses(f)
  {
    LexicalIsTree(f);
    hide Read, Print, Readable, ReadBack, Lexical, Delimited, NamesMatch, Parses;
    if Read(ctx, Print(f) + rest) == Got(f, rest) {
      ComesBack(ctx, f, rest, rest);
    }
    if Readable(ctx, f) && Parses(f) {
      PrintRead(ctx, f, rest);
      ReadBackSame(ctx, f);
    }
  }

  /** For trees without strings readability alone decides. */
  lemma ReadUndoesPrintOfSymbols(ctx: Context, f: Form, rest: string)
    requires NamesMatch(ctx) && Lexical(f) && NoStrings(f) && (f.Cons? || Delimited(rest))
    ensures Textual(f)
    ensures Read(ctx, Print(f) + rest) == Got(f, rest) <==> Readable(ctx, f)
  {
    hide Read, Print, Readable, Lexical, Delimited, NamesMatch, Parses;
    ReadUndoesPrint(ctx, f, rest);
    SymbolsParse(ctx, f);
  }

  // ---- strings with parentheses

  /** ("(") is printed with one parenthesis too many for the counter: reading it never ends. */
  lemma OpenInString(ctx: Context)
    ensures var f := Cons(Str("("), Nil);
      Textual(f) && Print(f) == "(\"(\")" && Read(ctx, Print(f)) == Hang
  {
    var f := Cons(Str("("), Nil);
    var s := "\"(\")";
    assert PrintTail(Nil) == "";
    assert PrintCons(f) == "\"(\"";
    assert Print(f) == "(" + s;
    assert Extract("", 1) == None;
    assert ")"[1..] == "" && Extract(")", 2) == None;
    assert "\")"[1..] == ")" && Extract("\")", 2) == None;
    assert "(\")"[1..] == "\")" && Extract("(\")", 1) == None;
    assert s[1..] == "(\")" && Extract(s, 1) == None;
    ListReadIs(ctx, s);
  }

  /** ("(" ")") has a parenthesis in each string, and they answer each other: the list reads back as itself. */
  lemma AnsweredInStrings(ctx: Context, rest: string)
    requires NamesMatch(ctx)
    ensures var f := Cons(Str("("), Cons(Str(")"), Nil)); Textual(f) && Read(ctx, Print(f) + rest) == Got(f, rest)
  {
    var last := Cons(Str(")"), Nil);
    var f := Cons(Str("("), last);
    assert PrintCons(last) == "\")\"";
    assert PrintCons(f) == "\"(\"" + (" " + "\")\"") == "\"(\" \")\"";
    Answered();
    assert PlainText("(") && PlainText(")");
    hide Read, DepthAfter, NamesMatch, PrintCons;
    assert Readable(ctx, last) && Readable(ctx, f);
    assert ElementsParse(last) && Parses(f);
    ReadUndoesPrint(ctx, f, rest);
  }

  lemma Answered()
    ensures WellNested("\"(\" \")\"")
  {
    assert DepthAfter(")\"", 1) == Some(0) by { assert ")\""[1..] == "\"" && "\""[1..] == ""; }
    assert "\" \")\""[1..] == " \")\"" && " \")\""[1..] == "\")\"" && "\")\""[1..] == ")\"";
    assert DepthAfter("\" \")\"", 1) == DepthAfter(" \")\"", 1) == DepthAfter("\")\"", 1) == Some(0);
    assert "\"(\" \")\""[1..] == "(\" \")\"" && "(\" \")\""[1..] == "\" \")\"";
  }

  /** A quote in front of a readable form gives the form quoted. */
  lemma QuoteRead(ctx: Context, f: Form, rest: string)
    requires NamesMatch(ctx) && Lexical(f) && Readable(ctx, f) && Textual(f) && Parses(f) && (f.Cons? || f.Str? || Delimited(rest))
    ensures Read(ctx, "'" + Print(f) + rest) == Got(Cons(QUOTE, Cons(f, Nil)), rest)
  {
    hide *;
    ReadUndoesPrint(ctx, f, rest);
    assert "'" + (Print(f) + rest) == "'" + Print(f) + rest;
    QuotedRead(ctx, Print(f) + rest, f, rest);
  }

  lemma QuotedRead(ctx: Context, s: string, f: Form, rest: string)
    requires Read(ctx, s) == Got(f, rest)
    ensures Read(ctx, "'" + s) == Got(Cons(QUOTE, Cons(f, Nil)), rest)
  {
    assert ("'" + s)[1..] == s;
  }

  // ---- generated symbols

  lemma {:induction false} DigitsOnly(n: nat)
    ensures forall i :: 0 <= i < |Digits(n)| ==> '0' <= Digits(n)[i] <= '9'
  {
    if n >= 10 { DigitsOnly(n / 10); }
  }

  /** A generated symbol prints with a number sign, from which nothing reads. */
  lemma GensymNeverReads(ctx: Context, s: Symbol, rest: string)
    requires s.id > 0
    ensures Read(ctx, Print(Sym(s)) + rest) == Crash
  {
    hide Digits;
    assert (Print(Sym(s)) + rest)[0] == '#';
  }

  /** Two generated symbols print alike if and only if they have one name and one number: the last colon tells. */
  lemma GensymsPrintApart(s: Symbol, t: Symbol)
    requires s.id > 0 && t.id > 0
    ensures Print(Sym(s)) == Print(Sym(t)) <==> s.lexeme == t.lexeme && s.id == t.id
  {
    hide Digits, Decimal;
    if Print(Sym(s)) == Print(Sym(t)) {
      var a, b := Digits(s.id), Digits(t.id);
      DigitsOnly(s.id);
      DigitsOnly(t.id);
      DigitsFacts(Upcase, s.id);
      DigitsFacts(Upcase, t.id);
      if |a| < |b| {
        ColonPlace(s.lexeme, a, t.lexeme, b);
      } else if |b| < |a| {
        ColonPlace(t.lexeme, b, s.lexeme, a);
      } else {
        SameParts("#" + s.lexeme + ":", a, "#" + t.lexeme + ":", b);
        SameParts("#" + s.lexeme, ":", "#" + t.lexeme, ":");
        SameParts("#", s.lexeme, "#", t.lexeme);
      }
    }
  }

  lemma SameParts(s: string, t: string, u: string, v: string)
    requires s + t == u + v && |s| == |u|
    ensures s == u && t == v
  {
    assert (s + t)[..|s|] == s && (u + v)[..|u|] == u && (s + t)[|s|..] == t && (u + v)[|u|..] == v;
  }

  lemma ColonPlace(s: string, a: string, t: string, b: string)
    requires |a| < |b| && forall i :: 0 <= i < |b| ==> '0' <= b[i] <= '9'
    ensures "#" + s + ":" + a != "#" + t + ":" + b
  {
    var u, v := "#" + s + ":" + a, "#" + t + ":" + b;
    var i := |u| - |a| - 1;
    assert u[i] == ':';
    if |v| == |u| { assert v[i] == b[i - (|v| - |b|)]; }
  }
}
