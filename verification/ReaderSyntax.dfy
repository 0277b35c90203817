/** What each character does to the reader. */
module ReaderSyntax {
  // The syntax of characters as laws of reading, over character lists of its own: section 2.1.4 of the Common Lisp
  // HyperSpec, as far as the reader goes.

  import opened Forms
  import opened Reader
  import opened ReadPrint
  import opened CaseConversion

  const DIGITS: string := "0123456789"
  const MARKS: string := "\U{08}!$%&*+-./:<=>?@[]^_{}~"
  const SPACES: string := "\t\n\U{0c}\r "
  const MACROS: string := "()\"'"

  /** A character a token may begin with. */
  predicate Starts(c: char) {
    c in SMALL || c in CAPITALS || c in DIGITS || c in MARKS
  }

  /** It may go on with the number sign as well. */
  predicate GoesOn(c: char) {
    Starts(c) || c == '#'
  }

  predicate Unknown(c: char) {
    !GoesOn(c) && c !in SPACES && c !in MACROS && c != '|'
  }

  lemma MarksAre(c: char)
    ensures c in MARKS <==> c in CONSTITUENTS
  {
  }

  lemma DigitsAre(c: char)
    ensures c in DIGITS <==> IsDigit(c)
  {
    forall i | 0 <= i < 10 ensures DIGITS[i] == '0' + i as char { }
    if IsDigit(c) { assert DIGITS[(c - '0') as nat] == c; }
  }

  lemma SpacesAre(c: char)
    ensures c in SPACES <==> c == '\t' || c == '\n' || c == '\U{0c}' || c == '\r' || c == ' '
    ensures c in MACROS <==> c == '(' || c == ')' || c == '"' || c == '\''
  {
    assert SPACES[0] == '\t' && SPACES[1] == '\n' && SPACES[2] == '\U{0c}' && SPACES[3] == '\r' && SPACES[4] == ' ';
    assert MACROS[0] == '(' && MACROS[1] == ')' && MACROS[2] == '"' && MACROS[3] == '\'';
  }

  /** The classes are disjoint, and these. */
  lemma TraitsAre(c: char)
    ensures TraitsOf(c).Constituent? <==> Starts(c)
    ensures TraitsOf(c).NonTerminatingMacro? <==> c == '#'
    ensures TraitsOf(c).Whitespace? <==> c in SPACES
    ensures TraitsOf(c).TerminatingMacro? <==> c in MACROS
    ensures TraitsOf(c).MultipleEscape? <==> c == '|'
    ensures TraitsOf(c).Invalid? <==> Unknown(c)
    ensures !TraitsOf(c).SingleEscape?
  {
    MarksAre(c);
    DigitsAre(c);
    InAlphabet(c);
    SpacesAre(c);
    OnlyOne(c);
    hide SMALL, CAPITALS, DIGITS, MARKS, SPACES, MACROS, CONSTITUENTS;
  }

  lemma OnlyOne(c: char)
    ensures c in CONSTITUENTS ==> c != '#' && c != '(' && c != ')' && c != '"' && c != '\'' && c != '|'
    ensures c in CONSTITUENTS ==> c != '\t' && c != '\n' && c != '\U{0c}' && c != '\r' && c != ' '
  {
  }

  // ---- one character

  /** White space in front of a form is skipped. */
  lemma SpaceSkipped(ctx: Context, c: char, s: string)
    requires c in SPACES
    ensures Read(ctx, [c] + s) == Read(ctx, s)
  {
    TraitsAre(c);
    assert ([c] + s)[1..] == s;
    hide TraitsOf, SPACES;
  }

  /** The number sign, a closing parenthesis and every unknown character abort where a form should begin. */
  lemma Aborts(ctx: Context, c: char, s: string)
    requires c == '#' || c == ')' || Unknown(c)
    ensures Read(ctx, [c] + s) == Crash
  {
    TraitsAre(c);
    hide TraitsOf;
    assert c == ')' ==> c in MACROS by { assert MACROS[1] == ')'; }
    hide Unknown;
  }

  // ---- tokens

  ghost predicate Token(w: string) {
    w != "" && Starts(w[0]) && forall i :: 0 <= i < |w| ==> GoesOn(w[i])
  }

  ghost predicate Ends(rest: string) {
    rest == "" || rest[0] in SPACES || rest[0] in MACROS
  }

  lemma {:induction false} TokenCharsAre(w: string)
    ensures TokenChars(w) <==> forall i :: 0 <= i < |w| ==> GoesOn(w[i])
  {
    hide TraitsOf, Starts, GoesOn;
    if w != "" {
      TraitsAre(w[0]);
      TokenCharsAre(w[1..]);
      assert GoesOn(w[0]) <==> Starts(w[0]) || w[0] == '#' by { GoesOnIs(w[0]); }
      if forall i :: 0 <= i < |w[1..]| ==> GoesOn(w[1..][i]) {
        forall i | 1 <= i < |w| ensures GoesOn(w[i]) { assert w[1..][i - 1] == w[i]; }
      }
    }
  }

  lemma GoesOnIs(c: char)
    ensures GoesOn(c) <==> Starts(c) || c == '#'
  {
  }

  /** These are the names that print as one token, and what may follow them. */
  lemma TokensAre(w: string)
    ensures LexicalName(w) <==> Token(w)
    ensures Delimited(w) <==> Ends(w)
  {
    hide TraitsOf, Starts, GoesOn, TokenChars, SPACES, MACROS;
    if w != "" {
      TraitsAre(w[0]);
      TokenCharsAre(w[1..]);
      GoesOnIs(w[0]);
      if forall i :: 0 <= i < |w[1..]| ==> GoesOn(w[1..][i]) {
        forall i | 1 <= i < |w| ensures GoesOn(w[i]) { assert w[1..][i - 1] == w[i]; }
      }
    }
  }

  lemma {:induction false} AllDigitsAre(s: string)
    ensures AllDigits(s) <==> forall i :: 0 <= i < |s| ==> s[i] in DIGITS
  {
    hide DIGITS, IsDigit;
    if s != "" {
      DigitsAre(s[0]);
      AllDigitsAre(s[1..]);
      if forall i :: 0 <= i < |s[1..]| ==> s[1..][i] in DIGITS {
        forall i | 1 <= i < |s| ensures s[i] in DIGITS { assert s[1..][i - 1] == s[i]; }
      }
    }
  }

  /** A digit counts by its place among the digits. */
  ghost function PlaceOf(c: char): nat {
    if c in DIGITS then var k: nat :| k < |DIGITS| && DIGITS[k] == c; k else 0
  }

  /** What digits stand for. */
  ghost function ValueOf(s: string): nat {
    if s == "" then 0 else 10 * ValueOf(s[..|s| - 1]) + PlaceOf(s[|s| - 1])
  }

  lemma DigitPlace(c: char)
    requires c in DIGITS
    ensures IsDigit(c) && PlaceOf(c) == (c - '0') as nat
  {
    DigitsAre(c);
    forall k: nat | k < 10 ensures DIGITS[k] == '0' + k as char { }
    assert DIGITS[PlaceOf(c)] == c;
  }

  lemma {:induction false} DecimalIsValue(s: string)
    requires forall i :: 0 <= i < |s| ==> s[i] in DIGITS
    ensures Decimal(s) == ValueOf(s)
  {
    hide DIGITS, IsDigit, PlaceOf;
    if s != "" {
      DecimalIsValue(s[..|s| - 1]);
      DigitPlace(s[|s| - 1]);
    }
  }

  /** The fixnum of a number: saturated to 63 bits, cut to a word. */
  ghost function Stored(n: nat): Form {
    Fixnum(if n < 0x8000_0000_0000_0000 then n % 0x1_0000_0000 else 0xffff_ffff)
  }

  /** A token of digits alone is a number; any other is the symbol named by its converted letters, found or new. */
  lemma TokenReads(ctx: Context, w: string, name: string, rest: string)
    requires Token(w) && Ends(rest) && NameFor(ctx.readcase, w, name)
    ensures var r := Read(ctx, w + rest);
      if forall i :: 0 <= i < |name| ==> name[i] in DIGITS then
        r == Got(Stored(ValueOf(name)), rest)
      else
        r == Got(Sym(if name in ctx.interned then ctx.interned[name] else Symbol(name, ctx.package, 0)), rest)
  {
    hide Token, Ends, NameFor, Read, DIGITS, LexicalName, Delimited, AllDigits, Decimal, ValueOf;
    TokensAre(w);
    TokensAre(rest);
    NameRead(ctx, w, rest);
    ConvertsName(ctx.readcase, w, name);
    AllDigitsAre(name);
    if AllDigits(name) { DecimalIsValue(name); }
  }

  /** A token that runs into an unknown character aborts. */
  lemma TokenAborts(ctx: Context, w: string, c: char, rest: string)
    requires Token(w) && Unknown(c)
    ensures Read(ctx, w + [c] + rest) == Crash
  {
    hide Token, TraitsOf, LexicalName, TokenChars, Starts, Unknown, InToken;
    TokensAre(w);
    LexicalParts(w);
    TraitsAre(c);
    var s := w + [c] + rest;
    assert s[0] == w[0] && s[1..] == w[1..] + ([c] + rest);
    InTokenAborts(ctx.readcase, w[1..], c, rest, [ConvertCase(ctx.readcase, w[0])], false);
  }

  lemma LexicalParts(w: string)
    requires LexicalName(w)
    ensures w != "" && TraitsOf(w[0]).Constituent? && TokenChars(w[1..])
  {
  }

  lemma {:induction false} InTokenAborts(readcase: Readcase, w: string, c: char, rest: string, chars: string, escaped: bool)
    requires TokenChars(w) && TraitsOf(c).Invalid?
    ensures InToken(readcase, w + ([c] + rest), chars, escaped) == BadToken
  {
    hide TraitsOf, ConvertCase;
    var s := w + ([c] + rest);
    if w != "" {
      assert s[0] == w[0] && s[1..] == w[1..] + ([c] + rest);
      InTokenAborts(readcase, w[1..], c, rest, chars + [ConvertCase(readcase, w[0])], escaped);
    } else {
      assert s[0] == c;
    }
  }

  // ---- bars

  /** What may stand between bars: everything known but a bar. */
  ghost predicate Barred(t: string) {
    forall i :: 0 <= i < |t| ==> t[i] != '|' && !Unknown(t[i])
  }

  lemma {:induction false} BarsEnd(readcase: Readcase, t: string, rest: string, chars: string)
    requires Barred(t) && Delimited(rest)
    ensures InEscape(readcase, t + "|" + rest, chars) == Reader.Token(chars + Convert(readcase, t), true, rest)
    decreases |t|
  {
    hide TraitsOf, ConvertCase, Unknown;
    var s := t + "|" + rest;
    if t == "" {
      TraitsAre('|');
      assert s[0] == '|' && s[1..] == rest;
      TokenRead(readcase, "", rest, chars, true);
      assert "" + rest == rest;
    } else {
      TraitsAre(t[0]);
      assert s[0] == t[0] && s[1..] == t[1..] + "|" + rest;
      forall i | 0 <= i < |t| - 1 ensures t[1..][i] != '|' && !Unknown(t[1..][i]) { assert t[1..][i] == t[i + 1]; }
      BarsEnd(readcase, t[1..], rest, chars + [ConvertCase(readcase, t[0])]);
      assert chars + [ConvertCase(readcase, t[0])] + Convert(readcase, t[1..]) == chars + Convert(readcase, t);
    }
  }

  /** Between bars anything known is part of a symbol's name, digits alone as well; the case is converted all the same. */
  lemma BarsRead(ctx: Context, t: string, name: string, rest: string)
    requires Barred(t) && Ends(rest) && NameFor(ctx.readcase, t, name)
    ensures Read(ctx, "|" + t + "|" + rest)
      == Got(Sym(if name in ctx.interned then ctx.interned[name] else Symbol(name, ctx.package, 0)), rest)
  {
    hide Barred, Ends, NameFor, TraitsOf, InEscape, AllDigits, Delimited;
    TokensAre(rest);
    ConvertsName(ctx.readcase, t, name);
    TraitsAre('|');
    var s := "|" + t + "|" + rest;
    assert s[0] == '|' && s[1..] == t + "|" + rest;
    BarsEnd(ctx.readcase, t, rest, "");
    assert "" + name == name;
  }

  // ---- the end of a list

  /** The C library's isspace, which a list's end is found by. */
  const ISSPACE: string := " \t\n\U{0b}\U{0c}\r"

  lemma IsSpaceIs(c: char)
    ensures c in ISSPACE <==> IsSpace(c)
  {
    assert ISSPACE[0] == ' ' && ISSPACE[1] == '\t' && ISSPACE[2] == '\n' && ISSPACE[3] == '\U{0b}' && ISSPACE[4] == '\U{0c}'
      && ISSPACE[5] == '\r';
  }

  lemma {:induction false} AllSpaceIs(s: string)
    ensures AllSpace(s) <==> forall i :: 0 <= i < |s| ==> s[i] in ISSPACE
  {
    hide ISSPACE, IsSpace;
    if s != "" {
      IsSpaceIs(s[0]);
      AllSpaceIs(s[1..]);
      if forall i :: 0 <= i < |s[1..]| ==> s[1..][i] in ISSPACE {
        forall i | 1 <= i < |s| ensures s[i] in ISSPACE { assert s[1..][i - 1] == s[i]; }
      }
    }
  }

  /**
   A vertical tab counts as space where a list ends, but no element may begin with it: in front of the closing
   parenthesis it is skipped, in front of an element it aborts.
   */
  lemma VerticalTab(ctx: Context, s: string)
    ensures ReadElements(ctx, "\U{0b}") == Got(Nil, "")
    ensures !AllSpace(s) ==> ReadElements(ctx, "\U{0b}" + s) == Crash
  {
    assert "\U{0b}"[1..] == "";
    var t := "\U{0b}" + s;
    assert t[0] == '\U{0b}' && t[1..] == s;
  }
}
