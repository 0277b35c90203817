/** Where reading stops or never ends. */
module ReaderEnds {
  // What the reader does with text that breaks off, and how the answer of a part decides the answer of the whole.

  import opened Forms
  import opened Reader
  import opened ReadPrint
  import opened CaseConversion
  import opened ReaderSyntax
  import opened EscapedStrings

  /** A list is read from the well-nested text up to its parenthesis. */
  lemma {:induction false} ListReads(ctx: Context, inner: string, rest: string)
    requires WellNested(inner)
    ensures var r := ReadElements(ctx, inner);
      Read(ctx, "(" + inner + ")" + rest) == if r.Got? then Got(r.form, rest) else r
  {
    var s := inner + ")" + rest;
    assert ("(" + inner + ")" + rest)[1..] == s;
    ExtractsMatching(s, 1, inner, rest);
  }

  /** Without such a parenthesis reading the list never ends. */
  lemma {:induction false} OpenListHangs(ctx: Context, s: string)
    requires forall inner, rest :: WellNested(inner) ==> s != inner + ")" + rest
    ensures Read(ctx, "(" + s) == Hang
  {
    assert ("(" + s)[1..] == s;
    var e := Extract(s, 1);
    if e.Some? { ExtractsMatching(s, 1, e.value.0, e.value.1); }
  }

  /** Nor does reading a string that nothing closes. */
  lemma {:induction false} OpenStringHangs(ctx: Context, s: string)
    requires forall u, t, rest :: WrittenFor(u, t) ==> s != u + "\"" + rest
    ensures Read(ctx, "\"" + s) == Hang
  {
    assert ("\"" + s)[1..] == s;
    var r := StringText(s, "", false);
    if r.Some? { StringReadIff(s, r.value.0, r.value.1); }
  }

  /** Text that ends between bars, or before a form begins, aborts. */
  lemma BreaksOff(ctx: Context, t: string)
    requires Barred(t)
    ensures Read(ctx, "|" + t) == Crash && Read(ctx, "") == Crash
  {
    assert ("|" + t)[1..] == t;
    TraitsAre('|');
    OpenBars(ctx.readcase, t, "");
  }

  lemma {:induction false} OpenBars(readcase: Readcase, t: string, chars: string)
    requires Barred(t)
    ensures InEscape(readcase, t, chars) == BadToken
    decreases |t|
  {
    hide TraitsOf, ConvertCase, Unknown;
    if t != "" {
      TraitsAre(t[0]);
      forall i | 0 <= i < |t| - 1 ensures t[1..][i] != '|' && !Unknown(t[1..][i]) { assert t[1..][i] == t[i + 1]; }
      OpenBars(readcase, t[1..], chars + [ConvertCase(readcase, t[0])]);
    }
  }

  /** A quote fails, or never ends, as what it quotes does. */
  lemma {:induction false} QuoteFollows(ctx: Context, s: string)
    ensures var r := Read(ctx, s);
      Read(ctx, "'" + s) == if r.Got? then Got(Cons(QUOTE, Cons(r.form, Nil)), r.rest) else r
  {
    assert ("'" + s)[1..] == s;
  }

  /** The texts of the elements of a list, one after the other, with what each leaves of the text. */
  ghost predicate ReadsThrough(ctx: Context, texts: seq<string>, forms: seq<Form>) {
    && |texts| == |forms| + 1
    && forall i :: 0 <= i < |forms| ==> !AllSpace(texts[i]) && Read(ctx, texts[i]) == Got(forms[i], texts[i + 1])
  }

  /** The elements are read in turn: the list has them in order, or the first that is none decides. */
  lemma {:induction false} ElementsRead(ctx: Context, texts: seq<string>, forms: seq<Form>)
    requires ReadsThrough(ctx, texts, forms)
    ensures var last := texts[|forms|];
      && (AllSpace(last) ==> ReadElements(ctx, texts[0]) == Got(ListOf(forms), ""))
      && (!AllSpace(last) && !Read(ctx, last).Got? ==> ReadElements(ctx, texts[0]) == Read(ctx, last))
    decreases |forms|
  {
    hide Read, AllSpace;
    if forms != [] {
      forall i | 0 <= i < |forms| - 1
        ensures !AllSpace(texts[1..][i]) && Read(ctx, texts[1..][i]) == Got(forms[1..][i], texts[1..][i + 1])
      {
        assert texts[1..][i] == texts[i + 1] && forms[1..][i] == forms[i + 1] && texts[1..][i + 1] == texts[i + 2];
      }
      ElementsRead(ctx, texts[1..], forms[1..]);
      assert texts[1..][|forms| - 1] == texts[|forms|];
    }
  }
}
