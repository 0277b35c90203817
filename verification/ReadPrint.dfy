/** Reading what was printed. */
module ReadPrint {
  // What reading printed text gives, and that the parenthesis counter stops at the matching one.

  import opened Forms
  import opened Reader
  import opened StringReading

  // ---- the parenthesis counter

  /** The depth behind t when it starts at d; None if it would fall below the start of t. */
  function DepthAfter(t: string, d: nat): Option<nat> {
    if t == "" then Some(d)
    else if t[0] == '(' then DepthAfter(t[1..], d + 1)
    else if t[0] == ')' then (if d == 0 then None else DepthAfter(t[1..], d - 1))
    else DepthAfter(t[1..], d)
  }

  predicate WellNested(t: string) {
    DepthAfter(t, 0) == Some(0)
  }

  lemma {:induction false} DepthOfBoth(t: string, u: string, d: nat)
    ensures DepthAfter(t + u, d) == match DepthAfter(t, d) case None => None case Some(e) => DepthAfter(u, e)
  {
    if t == "" {
      assert t + u == u;
    } else {
      assert (t + u)[1..] == t[1..] + u;
      if t[0] == '(' {
        DepthOfBoth(t[1..], u, d + 1);
      } else if t[0] == ')' {
        if d > 0 { DepthOfBoth(t[1..], u, d - 1); }
      } else {
        DepthOfBoth(t[1..], u, d);
      }
    }
  }

  lemma {:induction false} DepthShifts(t: string, d: nat, e: nat, k: nat)
    requires DepthAfter(t, d) == Some(e)
    ensures DepthAfter(t, d + k) == Some(e + k)
  {
    if t != "" {
      if t[0] == '(' {
        DepthShifts(t[1..], d + 1, e, k);
      } else if t[0] == ')' {
        DepthShifts(t[1..], d - 1, e, k);
      } else {
        DepthShifts(t[1..], d, e, k);
      }
    }
  }

  lemma WellNestedBoth(t: string, u: string)
    requires WellNested(t) && WellNested(u)
    ensures WellNested(t + u)
  {
    DepthOfBoth(t, u, 0);
  }

  lemma WellNestedInParens(t: string)
    requires WellNested(t)
    ensures WellNested("(" + t + ")")
  {
    DepthShifts(t, 0, 0, 1);
    DepthOfBoth(t, ")", 1);
    assert ("(" + t + ")")[1..] == t + ")";
    assert ")"[1..] == "";
  }

  /**
   The counter stops at the parenthesis that matches the one already read: what it extracts is well nested
   and followed by it, and any text of that shape is extracted.
   */
  lemma {:induction false} ExtractsMatching(s: string, depth: nat, inner: string, rest: string)
    requires depth >= 1
    ensures Extract(s, depth) == Some((inner, rest)) <==>
      s == inner + ")" + rest && DepthAfter(inner, depth - 1) == Some(0)
    decreases |s|
  {
    if s == "" {
    } else if s[0] == ')' && depth == 1 {
      StopsHere(s, inner, rest);
    } else {
      var depth' := if s[0] == '(' then depth + 1 else if s[0] == ')' then depth - 1 else depth;
      if inner != "" && inner[0] == s[0] {
        ExtractsMatching(s[1..], depth', inner[1..], rest);
        assert inner == [s[0]] + inner[1..];
        assert s == inner + ")" + rest <==> s[1..] == inner[1..] + ")" + rest by { Peel(s, inner, rest); }
      } else {
        NoStop(s, depth, depth', inner, rest);
      }
    }
  }

  lemma StopsHere(s: string, inner: string, rest: string)
    requires s != "" && s[0] == ')'
    ensures s == inner + ")" + rest && DepthAfter(inner, 0) == Some(0) <==> inner == "" && rest == s[1..]
  {
    if s == inner + ")" + rest && inner != "" {
      assert inner[0] == s[0];
    }
    if inner == "" && rest == s[1..] {
      assert s == inner + ")" + rest;
    }
  }

  lemma Peel(s: string, inner: string, rest: string)
    requires s != "" && inner != "" && s[0] == inner[0]
    ensures s == inner + ")" + rest <==> s[1..] == inner[1..] + ")" + rest
  {
    assert inner + ")" + rest == [s[0]] + (inner[1..] + ")" + rest);
    assert s == [s[0]] + s[1..];
  }

  lemma NoStop(s: string, depth: nat, depth': nat, inner: string, rest: string)
    requires s != "" && depth >= 1 && !(s[0] == ')' && depth == 1)
    requires depth' == if s[0] == '(' then depth + 1 else if s[0] == ')' then depth - 1 else depth
    requires inner == "" || inner[0] != s[0]
    ensures Extract(s, depth) != Some((inner, rest))
    ensures !(s == inner + ")" + rest && DepthAfter(inner, depth - 1) == Some(0))
  {
    if s == inner + ")" + rest && inner == "" {
      assert s[0] == ')';
    }
  }

  // ---- tokens

  /** A character of a token that stands for itself, up to its case. */
  predicate TokenChar(c: char) {
    TraitsOf(c).Constituent? || TraitsOf(c).NonTerminatingMacro?
  }

  predicate TokenChars(s: string) {
    s == "" || (TokenChar(s[0]) && TokenChars(s[1..]))
  }

  /** A name that prints as one token. */
  predicate LexicalName(s: string) {
    s != "" && TraitsOf(s[0]).Constituent? && TokenChars(s[1..])
  }

  /** What may follow a printed symbol. */
  predicate Delimited(rest: string) {
    rest == "" || TraitsOf(rest[0]).Whitespace? || TraitsOf(rest[0]).TerminatingMacro?
  }

  function Convert(readcase: Readcase, s: string): string {
    if s == "" then "" else [ConvertCase(readcase, s[0])] + Convert(readcase, s[1..])
  }

  lemma {:induction false} TokenRead(readcase: Readcase, w: string, rest: string, chars: string, escaped: bool)
    requires TokenChars(w) && Delimited(rest)
    ensures InToken(readcase, w + rest, chars, escaped) == Token(chars + Convert(readcase, w), escaped, rest)
  {
    hide TraitsOf, ConvertCase, IsDigit;
    if w == "" {
      assert w + rest == rest;
      assert chars + Convert(readcase, w) == chars;
    } else {
      assert (w + rest)[1..] == w[1..] + rest && (w + rest)[0] == w[0];
      TokenRead(readcase, w[1..], rest, chars + [ConvertCase(readcase, w[0])], escaped);
      assert chars + [ConvertCase(readcase, w[0])] + Convert(readcase, w[1..]) == chars + Convert(readcase, w);
    }
  }

  lemma NameRead(ctx: Context, w: string, rest: string)
    requires LexicalName(w) && Delimited(rest)
    ensures Read(ctx, w + rest) == Got(TokenForm(ctx, Convert(ctx.readcase, w), false), rest)
  {
    hide TraitsOf, ConvertCase, Convert;
    var c := ConvertCase(ctx.readcase, w[0]);
    assert (w + rest)[1..] == w[1..] + rest && (w + rest)[0] == w[0];
    TokenRead(ctx.readcase, w[1..], rest, [c], false);
    ConvertFirst(ctx.readcase, w);
  }

  lemma ConvertFirst(readcase: Readcase, w: string)
    requires w != ""
    ensures Convert(readcase, w) == [ConvertCase(readcase, w[0])] + Convert(readcase, w[1..])
  {
  }

  /** Token characters are neither space nor parentheses. */
  lemma TokenCharFacts(c: char)
    requires TokenChar(c)
    ensures !IsSpace(c) && c != '(' && c != ')'
  {
  }

  lemma {:induction false} TokenNested(w: string)
    requires TokenChars(w)
    ensures WellNested(w)
  {
    if w != "" {
      TokenCharFacts(w[0]);
      TokenNested(w[1..]);
    }
  }

  // ---- what printing a form and reading the text gives

  /** Trees of strings, NIL, T, and symbols that print as one token each. */
  predicate Lexical(f: Form) {
    match f
    case Cons(car, cdr) => Lexical(car) && Lexical(cdr)
    case Str(_) => true
    case Sym(s) => s.id == 0 && LexicalName(s.lexeme)
    case Nil => true
    case T => true
    case _ => false
  }

  /**
   The printed text can be taken apart again: its strings are plain, and in the text of each list the counter,
   which does not know strings, stops at the list's own parenthesis.
   */
  predicate Parses(f: Form)
    requires Textual(f)
    decreases f, if f.Cons? then 1 else 0
  {
    match f
    case Str(text) => PlainText(text)
    case Cons(_, _) => WellNested(PrintCons(f)) && ElementsParse(f)
    case _ => true
  }

  predicate ElementsParse(d: Form)
    requires Textual(d)
    decreases d, if d.Cons? then 0 else 1
  {
    if d.Cons? then Parses(d.car) && ElementsParse(d.cdr) else Parses(d)
  }

  function NameForm(ctx: Context, name: string): Form {
    TokenForm(ctx, Convert(ctx.readcase, name), false)
  }

  /** The form read back: leaves go through the reader's tokens, a dotted tail becomes two more elements. */
  function ReadBack(ctx: Context, f: Form): Form
    decreases f, 0
  {
    match f
    case Cons(car, cdr) => Cons(ReadBack(ctx, car), ReadBackTail(ctx, cdr))
    case Sym(s) => NameForm(ctx, s.lexeme)
    case Nil => NameForm(ctx, "NIL")
    case Str(_) => f
    case _ => NameForm(ctx, "T")
  }

  function ReadBackTail(ctx: Context, d: Form): Form
    decreases d, 1
  {
    if d.Nil? then Nil
    else if d.Cons? then ReadBack(ctx, d)
    else Cons(NameForm(ctx, "."), Cons(ReadBack(ctx, d), Nil))
  }

  lemma LexicalIsTree(f: Form)
    requires Lexical(f)
    ensures Textual(f)
  {
  }

  lemma ConstantNames()
    ensures LexicalName("NIL") && LexicalName("T")
  {
    assert "NIL"[1..] == "IL" && "IL"[1..] == "L" && "L"[1..] == "" && "T"[1..] == "";
  }

  lemma DotIsName()
    ensures LexicalName(".")
  {
    assert "."[1..] == "" && CONSTITUENTS[8] == '.';
  }

  lemma NameFormIs(ctx: Context, name: string)
    ensures NameForm(ctx, name) == TokenForm(ctx, Convert(ctx.readcase, name), false)
  {
  }

  /** How an atom prints, as a name. */
  function AtomName(f: Form): string {
    match f
    case Sym(s) => s.lexeme
    case Nil => "NIL"
    case _ => "T"
  }

  lemma AtomFacts(ctx: Context, f: Form)
    requires Lexical(f) && !f.Cons? && !f.Str?
    ensures Textual(f) && Print(f) == AtomName(f) && LexicalName(AtomName(f)) && ReadBack(ctx, f) == NameForm(ctx, AtomName(f))
  {
    ConstantNames();
  }

  lemma NameNested(w: string)
    requires LexicalName(w)
    ensures WellNested(w) && !IsSpace(w[0])
  {
    TokenCharFacts(w[0]);
    TokenNested(w[1..]);
  }

  predicate NoStrings(f: Form) {
    !f.Str? && (f.Cons? ==> NoStrings(f.car) && NoStrings(f.cdr))
  }

  /** Without strings every text parses. */
  lemma {:induction false} SymbolsParse(ctx: Context, f: Form)
    requires Lexical(f) && NoStrings(f)
    ensures Textual(f) && Parses(f) && WellNested(Print(f))
    ensures f.Cons? ==> WellNested(PrintCons(f)) && ElementsParse(f)
    decreases f, 0
  {
    LexicalIsTree(f);
    if f.Cons? {
      SymbolsParse(ctx, f.car);
      SymbolTailsParse(ctx, f.cdr);
      hide WellNested;
      WellNestedBoth(Print(f.car), PrintTail(f.cdr));
      WellNestedInParens(PrintCons(f));
    } else {
      AtomFacts(ctx, f);
      NameNested(AtomName(f));
    }
  }

  lemma {:induction false} SymbolTailsParse(ctx: Context, d: Form)
    requires Lexical(d) && NoStrings(d)
    ensures Textual(d) && WellNested(PrintTail(d)) && ElementsParse(d)
    decreases d, 1
  {
    SymbolsParse(ctx, d);
    SpaceNested();
    hide WellNested;
    if d.Cons? {
      WellNestedBoth(" ", PrintCons(d));
    } else if !d.Nil? {
      WellNestedBoth(" . ", Print(d));
    }
  }

  /** A printed form starts with something the reader does not skip. */
  lemma {:induction false} PrintStarts(ctx: Context, f: Form)
    requires Lexical(f)
    ensures Textual(f) && Print(f) != "" && !IsSpace(Print(f)[0])
    ensures f.Cons? ==> PrintCons(f) != "" && !IsSpace(PrintCons(f)[0])
    decreases f
  {
    LexicalIsTree(f);
    if f.Cons? {
      PrintStarts(ctx, f.car);
    } else if !f.Str? {
      AtomFacts(ctx, f);
      NameNested(AtomName(f));
    }
  }

  lemma SpaceNested()
    ensures WellNested("") && WellNested(" ") && WellNested(" . ")
  {
    assert " . "[1..] == ". " && ". "[1..] == " " && " "[1..] == "";
  }

  lemma AfterSpace(ctx: Context, s: string)
    ensures Read(ctx, " " + s) == Read(ctx, s)
    ensures ReadElements(ctx, " " + s) == ReadElements(ctx, s)
  {
    assert (" " + s)[1..] == s;
  }

  lemma ListRead(ctx: Context, inner: string, rest: string, list: Form, end: string)
    requires WellNested(inner) && ReadElements(ctx, inner) == Got(list, end)
    ensures Read(ctx, "(" + inner + ")" + rest) == Got(list, rest)
  {
    hide WellNested, ReadElements;
    var s := "(" + inner + ")" + rest;
    assert s[1..] == inner + ")" + rest;
    ExtractsMatching(s[1..], 1, inner, rest);
    assert DepthAfter(inner, 0) == Some(0) by { Unfold(inner); }
  }

  lemma Unfold(t: string)
    requires WellNested(t)
    ensures DepthAfter(t, 0) == Some(0)
  {
  }

  lemma ElementRead(ctx: Context, s: string, first: Form, rest: string, others: Form, end: string)
    requires s != "" && !IsSpace(s[0]) && Read(ctx, s) == Got(first, rest) && ReadElements(ctx, rest) == Got(others, end)
    ensures ReadElements(ctx, s) == Got(Cons(first, others), end)
  {
    hide Read;
  }

  /** Reading what Print wrote consumes exactly that text. */
  lemma {:induction false} PrintRead(ctx: Context, f: Form, rest: string)
    requires Lexical(f) && Textual(f) && Parses(f) && (f.Cons? || f.Str? || Delimited(rest))
    ensures Read(ctx, Print(f) + rest) == Got(ReadBack(ctx, f), rest)
    decreases f, 1
  {
    hide WellNested, Read, ReadElements, TraitsOf;
    if f.Cons? {
      ConsRead(ctx, f);
      ListRead(ctx, PrintCons(f), rest, ReadBack(ctx, f), "");
      assert Print(f) + rest == "(" + PrintCons(f) + ")" + rest;
    } else if f.Str? {
      StringUndoesPrint(ctx, f.text, rest);
    } else {
      AtomFacts(ctx, f);
      NameRead(ctx, AtomName(f), rest);
    }
  }

  lemma {:induction false} ConsRead(ctx: Context, f: Form)
    requires Lexical(f) && Textual(f) && f.Cons? && ElementsParse(f)
    ensures ReadElements(ctx, PrintCons(f)) == Got(ReadBack(ctx, f), "")
    decreases f, 0
  {
    hide WellNested, Read, ReadElements, TraitsOf;
    PrintStarts(ctx, f.car);
    TailDelimited(f.cdr);
    PrintRead(ctx, f.car, PrintTail(f.cdr));
    TailRead(ctx, f.cdr);
    ElementRead(ctx, PrintCons(f), ReadBack(ctx, f.car), PrintTail(f.cdr), ReadBackTail(ctx, f.cdr), "");
  }

  lemma TailDelimited(d: Form)
    requires Textual(d)
    ensures Delimited(PrintTail(d))
  {
  }

  lemma {:induction false} TailRead(ctx: Context, d: Form)
    requires Lexical(d) && Textual(d) && ElementsParse(d)
    ensures ReadElements(ctx, PrintTail(d)) == Got(ReadBackTail(ctx, d), "")
    decreases d, 4
  {
    if d.Cons? {
      ConsRead(ctx, d);
      AfterSpace(ctx, PrintCons(d));
    } else if !d.Nil? {
      DotRead(ctx, d);
    }
  }

  lemma DotRead(ctx: Context, d: Form)
    requires Lexical(d) && Textual(d) && Parses(d) && !d.Cons? && !d.Nil?
    ensures ReadElements(ctx, " . " + Print(d)) == Got(Cons(NameForm(ctx, "."), Cons(ReadBack(ctx, d), Nil)), "")
    decreases d, 3
  {
    hide *;
    OneElement(ctx, d);
    DotThen(ctx, Print(d), Cons(ReadBack(ctx, d), Nil));
  }

  lemma DotThen(ctx: Context, w: string, others: Form)
    requires ReadElements(ctx, w) == Got(others, "")
    ensures ReadElements(ctx, " . " + w) == Got(Cons(NameForm(ctx, "."), others), "")
  {
    hide *;
    AfterSpace(ctx, w);
    DotName(ctx, " " + w);
    assert "." + (" " + w) == ". " + w && " " + (". " + w) == " . " + w;
    DotIsNoSpace();
    ElementRead(ctx, ". " + w, NameForm(ctx, "."), " " + w, others, "");
    AfterSpace(ctx, ". " + w);
  }

  lemma DotIsNoSpace()
    ensures !IsSpace('.')
  {
  }

  lemma DotName(ctx: Context, rest: string)
    requires rest != "" && rest[0] == ' '
    ensures Read(ctx, "." + rest) == Got(NameForm(ctx, "."), rest)
  {
    hide LexicalName, NameForm, Read, IsSpace;
    DotIsName();
    NameRead(ctx, ".", rest);
    NameFormIs(ctx, ".");
  }

  lemma OneElement(ctx: Context, d: Form)
    requires Lexical(d) && Textual(d) && Parses(d) && !d.Cons?
    ensures ReadElements(ctx, Print(d)) == Got(Cons(ReadBack(ctx, d), Nil), "")
    decreases d, 2
  {
    hide WellNested, Read, TraitsOf;
    PrintStarts(ctx, d);
    PrintRead(ctx, d, "");
    assert Print(d) + "" == Print(d);
    assert ReadElements(ctx, "") == Got(Nil, "");
    ElementRead(ctx, Print(d), ReadBack(ctx, d), "", Nil, "");
  }

  // ---- when reading gives back the form that was printed

  /** Symbols are interned under their own names. */
  ghost predicate NamesMatch(ctx: Context) {
    forall name <- ctx.interned :: ctx.interned[name].lexeme == name
  }

  /** A symbol the reader finds under its name: no case to convert, not a number, of the current package or imported. */
  predicate ReadableSymbol(ctx: Context, s: Symbol) {
    Convert(ctx.readcase, s.lexeme) == s.lexeme && !AllDigits(s.lexeme) && Intern(ctx, s.lexeme) == s
  }

  /** Strings, readable symbols and non-empty proper lists of readable forms. */
  predicate Readable(ctx: Context, f: Form) {
    match f
    case Sym(s) => ReadableSymbol(ctx, s)
    case Str(_) => true
    case Cons(car, cdr) => Readable(ctx, car) && (cdr.Nil? || (cdr.Cons? && Readable(ctx, cdr)))
    case _ => false
  }

  lemma SymbolReadBack(ctx: Context, s: Symbol)
    requires NamesMatch(ctx)
    ensures NameForm(ctx, s.lexeme) == Sym(s) <==> ReadableSymbol(ctx, s)
  {
    var name := Convert(ctx.readcase, s.lexeme);
    assert Intern(ctx, name).lexeme == name;
  }

  lemma {:induction false} ReadBackSame(ctx: Context, f: Form)
    requires NamesMatch(ctx) && Lexical(f)
    ensures ReadBack(ctx, f) == f <==> Readable(ctx, f)
  {
    match f
    case Sym(s) => SymbolReadBack(ctx, s);
    case Cons(car, cdr) =>
      ReadBackSame(ctx, car);
      ReadBackSame(ctx, cdr);
    case Nil =>
    case T =>
    case Str(_) =>
  }

  /** With the standard readtable: nothing from a to y. The letter z survives, as it is not taken for a cased one. */
  lemma {:induction false} UpcaseFixes(s: string)
    ensures Convert(Upcase, s) == s <==> forall c <- s :: !('a' <= c < 'z')
  {
    if s != "" {
      UpcaseFixes(s[1..]);
      var c := ConvertCase(Upcase, s[0]);
      assert c == s[0] <==> !('a' <= s[0] < 'z');
      assert s == [s[0]] + s[1..];
      assert [c] + Convert(Upcase, s[1..]) == [s[0]] + s[1..] <==> c == s[0] && Convert(Upcase, s[1..]) == s[1..] by {
        SameFirst(c, Convert(Upcase, s[1..]), s[0], s[1..]);
      }
      if forall d <- s :: !('a' <= d < 'z') {
        assert s[0] in s;
        forall d <- s[1..] ensures !('a' <= d < 'z') { assert d in s; }
      } else {
        var d :| d in s && 'a' <= d < 'z';
        assert d == s[0] || d in s[1..];
      }
    }
  }

  lemma SameFirst(c: char, s: string, d: char, t: string)
    ensures [c] + s == [d] + t <==> c == d && s == t
  {
    assert ([c] + s)[0] == c && ([d] + t)[0] == d && ([c] + s)[1..] == s && ([d] + t)[1..] == t;
  }

  // ---- numbers

  lemma {:induction false} DigitsFacts(readcase: Readcase, n: nat)
    ensures var d := Digits(n);
      d != "" && Decimal(d) == n && (forall i :: 0 <= i < |d| ==> IsDigit(d[i]))
  {
    if n >= 10 {
      DigitsFacts(readcase, n / 10);
      var d := Digits(n);
      assert d[..|d| - 1] == Digits(n / 10);
    }
  }

  lemma {:induction false} DigitsAreToken(readcase: Readcase, d: string)
    requires forall i :: 0 <= i < |d| ==> IsDigit(d[i])
    ensures TokenChars(d) && AllDigits(d) && Convert(readcase, d) == d
  {
    if d != "" {
      assert forall i :: 0 <= i < |d[1..]| ==> d[1..][i] == d[i + 1];
      DigitsAreToken(readcase, d[1..]);
    }
  }

  /** Zeros in front do not count. */
  lemma {:induction false} DecimalBehindZeros(zeros: string, d: string)
    requires forall i :: 0 <= i < |zeros| ==> zeros[i] == '0'
    ensures Decimal(zeros + d) == Decimal(d)
    decreases |zeros| + |d|
  {
    var s := zeros + d;
    if d != "" {
      assert s[..|s| - 1] == zeros + d[..|d| - 1];
      DecimalBehindZeros(zeros, d[..|d| - 1]);
    } else if zeros != "" {
      assert s[..|s| - 1] == zeros[..|zeros| - 1] + "";
      DecimalBehindZeros(zeros[..|zeros| - 1], "");
    }
  }

  /**
   The decimal digits of a number, zeros in front or not, are read as that number, saturated to 63 bits and then
   cut to a 32-bit word.
   */
  lemma NumberRead(ctx: Context, zeros: string, n: nat, rest: string)
    requires Delimited(rest) && forall i :: 0 <= i < |zeros| ==> zeros[i] == '0'
    ensures Read(ctx, zeros + Digits(n) + rest)
         == Got(Fixnum(if n < 0x8000_0000_0000_0000 then n % 0x1_0000_0000 else 0xffff_ffff), rest)
  {
    hide Read, Delimited, Digits, Decimal;
    var d := zeros + Digits(n);
    DigitsFacts(ctx.readcase, n);
    DecimalBehindZeros(zeros, Digits(n));
    DigitsAreToken(ctx.readcase, d);
    NameRead(ctx, d, rest);
  }

  // ---- interning while reading

  /** intern_symbol's effect on the package. */
  function AfterIntern(ctx: Context, name: string): Context {
    ctx.(interned := ctx.interned[name := Intern(ctx, name)])
  }

  ghost predicate SameNames(ctx: Context, ctx': Context) {
    ctx.readcase == ctx'.readcase && forall name :: Intern(ctx', name) == Intern(ctx, name)
  }

  lemma InternChangesNothing(ctx: Context, name: string)
    ensures SameNames(ctx, AfterIntern(ctx, name))
  {
  }

  /** Symbols interned on the way do not change what is read. */
  lemma ReadAfterIntern(ctx: Context, name: string, s: string)
    ensures Read(AfterIntern(ctx, name), s) == Read(ctx, s)
  {
    InternChangesNothing(ctx, name);
    ReadSame(ctx, AfterIntern(ctx, name), s);
  }

  lemma {:induction false} ReadSame(ctx: Context, ctx': Context, s: string)
    requires SameNames(ctx, ctx')
    ensures Read(ctx', s) == Read(ctx, s)
    decreases |s|, 0
  {
    hide TraitsOf, InToken, InEscape, ReadElements, StringText;
    if s != "" {
      if TraitsOf(s[0]).Whitespace? || (TraitsOf(s[0]).TerminatingMacro? && s[0] == '\'') {
        ReadSame(ctx, ctx', s[1..]);
      } else if TraitsOf(s[0]).TerminatingMacro? && s[0] == '(' {
        var e := Extract(s[1..], 1);
        if e.Some? { ElementsSame(ctx, ctx', e.value.0); }
      }
    }
  }

  lemma {:induction false} ElementsSame(ctx: Context, ctx': Context, s: string)
    requires SameNames(ctx, ctx')
    ensures ReadElements(ctx', s) == ReadElements(ctx, s)
    decreases |s|, 1
  {
    hide Read;
    if !AllSpace(s) {
      ReadSame(ctx, ctx', s);
      var r := Read(ctx, s);
      if r.Got? { ElementsSame(ctx, ctx', r.rest); }
    }
  }
}
