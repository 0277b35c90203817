/** read_form and the reader macros as they run: a stream that moves, a token that grows, a list that is appended to. */
module ReaderMachine {
  import opened Forms
  import opened Reader

  datatype Outcome = Formed(form: Form) | Crashed | Hung

  function OutcomeOf(r: ReadResult): Outcome {
    match r
    case Got(form, _) => Formed(form)
    case Crash => Crashed
    case Hang => Hung
  }

  class Stream {
    const text: string
    var pos: nat

    ghost predicate Valid()
      reads this
    {
      pos <= |text|
    }

    /** The text still to come. */
    ghost function Rest(): string
      reads this
      requires Valid()
    {
      text[pos..]
    }

    constructor (text: string)
      ensures Valid() && Rest() == text
    {
      this.text := text;
      pos := 0;
    }

    method Getc() returns (c: Option<char>)
      requires Valid()
      modifies this
      ensures Valid()
      ensures c == if old(Rest()) == "" then None else Some(old(Rest())[0])
      ensures Rest() == if old(Rest()) == "" then "" else old(Rest())[1..]
      ensures c.Some? ==> pos == old(pos) + 1
    {
      if pos == |text| {
        c := None;
      } else {
        c := Some(text[pos]);
        pos := pos + 1;
      }
    }

    method Ungetc()
      requires Valid() && pos > 0
      modifies this
      ensures Valid() && pos == old(pos) - 1
      ensures Rest() == [text[old(pos) - 1]] + old(Rest())
    {
      pos := pos - 1;
    }

    /** is_whitespace: nothing but space from here on. */
    method OnlySpaceLeft() returns (b: bool)
      requires Valid()
      ensures b == AllSpace(Rest())
    {
      var index := pos;
      while index < |text|
        invariant pos <= index <= |text| && AllSpace(text[pos..]) == AllSpace(text[index..])
      {
        assert text[index..][1..] == text[index + 1..];
        if !IsSpace(text[index]) { return false; }
        index := index + 1;
      }
      b := true;
    }
  }

  /** What steps 8 and 9 have still to read. */
  function TokenFrom(readcase: Readcase, s: string, chars: string, escaped: bool, inEscape: bool): Token {
    if inEscape then InEscape(readcase, s, chars) else InToken(readcase, s, chars, escaped)
  }

  /** One character of a token. */
  lemma TokenStep(readcase: Readcase, s: string, chars: string, escaped: bool, inEscape: bool)
    requires s != ""
    ensures var t := TokenFrom(readcase, s, chars, escaped, inEscape);
      match TraitsOf(s[0])
      case Invalid => t == BadToken
      case SingleEscape =>
        t == if |s| == 1 then BadToken
             else TokenFrom(readcase, s[2..], chars + [ConvertCase(readcase, s[1])], true, inEscape)
      case MultipleEscape => t == TokenFrom(readcase, s[1..], chars, true, !inEscape)
      case traits =>
        t == if !inEscape && (traits.TerminatingMacro? || traits.Whitespace?) then Token(chars, escaped, s)
             else TokenFrom(readcase, s[1..], chars + [ConvertCase(readcase, s[0])], escaped, inEscape)
  {
    hide TraitsOf, ConvertCase;
  }

  lemma TokenEnd(readcase: Readcase, chars: string, escaped: bool, inEscape: bool)
    ensures TokenFrom(readcase, "", chars, escaped, inEscape) == if inEscape then BadToken else Token(chars, escaped, "")
  {
  }

  /** Steps 8 and 9: None for the errors. A delimiter goes back to the stream. */
  method ReadToken(readcase: Readcase, stm: Stream, start: string, hadEscape: bool, inBars: bool)
    returns (r: Option<(string, bool)>)
    requires stm.Valid()
    modifies stm
    ensures stm.Valid()
    ensures var t := TokenFrom(readcase, old(stm.Rest()), start, hadEscape, inBars);
      match r
      case None => t.BadToken?
      case Some((chars, escaped)) => t == Token(chars, escaped, stm.Rest())
  {
    hide TraitsOf, ConvertCase, TokenFrom;
    var chars, escaped, inEscape := start, hadEscape, inBars;
    ghost var t := TokenFrom(readcase, stm.Rest(), chars, escaped, inEscape);
    while true
      invariant stm.Valid() && TokenFrom(readcase, stm.Rest(), chars, escaped, inEscape) == t
      decreases |stm.Rest()|
    {
      ghost var s := stm.Rest();
      if s == "" { TokenEnd(readcase, chars, escaped, inEscape); } else { TokenStep(readcase, s, chars, escaped, inEscape); }
      var y := stm.Getc();
      if y.None? {
        return if inEscape then None else Some((chars, escaped));
      }
      var traits := TraitsOf(y.value);
      if traits.Invalid? {
        return None;
      } else if traits.SingleEscape? {
        var z := stm.Getc();
        if z.None? { return None; }
        chars := chars + [ConvertCase(readcase, z.value)];
        escaped := true;
      } else if traits.MultipleEscape? {
        escaped := true;
        inEscape := !inEscape;
      } else if !inEscape && (traits.TerminatingMacro? || traits.Whitespace?) {
        stm.Ungetc();
        return Some((chars, escaped));
      } else {
        chars := chars + [ConvertCase(readcase, y.value)];
      }
    }
  }

  /** system_read_double_quote; None if the file ends first, which the original never notices. */
  method ReadDoubleQuote(stm: Stream) returns (r: Option<string>)
    requires stm.Valid()
    modifies stm
    ensures stm.Valid()
    ensures match StringText(old(stm.Rest()), "", false)
      case None => r.None?
      case Some((chars, rest)) => r == Some(chars) && stm.Rest() == rest
  {
    var builder, escapedNext := "", false;
    ghost var t := StringText(stm.Rest(), builder, escapedNext);
    while true
      invariant stm.Valid() && StringText(stm.Rest(), builder, escapedNext) == t
      decreases |stm.Rest()|
    {
      var c := stm.Getc();
      if c.None? { return None; }
      if c.value == '"' && !escapedNext {
        return Some(builder);
      } else if c.value == '\\' && !escapedNext {
        escapedNext := true;
      } else {
        builder := builder + [if escapedNext then EscapeChar(c.value) else c.value];
        escapedNext := false;
      }
    }
  }

  function Before(text: string, r: Option<(string, string)>): Option<(string, string)> {
    match r
    case None => None
    case Some((inner, rest)) => Some((text + inner, rest))
  }

  /** The first half of system_read_open_paren: the text up to the matching parenthesis. */
  method ExtractList(stm: Stream) returns (r: Option<string>)
    requires stm.Valid()
    modifies stm
    ensures stm.Valid()
    ensures match Extract(old(stm.Rest()), 1)
      case None => r.None?
      case Some((inner, rest)) => r == Some(inner) && stm.Rest() == rest
  {
    var buffer := "";
    var open: nat := 1;
    ghost var e := Extract(stm.Rest(), 1);
    assert e.Some? ==> "" + e.value.0 == e.value.0;
    while true
      invariant stm.Valid() && open >= 1 && Before(buffer, Extract(stm.Rest(), open)) == e
      decreases |stm.Rest()|
    {
      ghost var s := stm.Rest();
      ghost var depth := open;
      var c := stm.Getc();
      if c.None? { return None; }
      if c.value == '(' {
        open := open + 1;
      } else if c.value == ')' {
        open := open - 1;
        if open == 0 {
          assert buffer + "" == buffer;
          return Some(buffer);
        }
      }
      BeforeBoth(buffer, c.value, Extract(stm.Rest(), open));
      buffer := buffer + [c.value];
    }
  }

  lemma BeforeBoth(buffer: string, c: char, r: Option<(string, string)>)
    ensures Before(buffer, Before([c], r)) == Before(buffer + [c], r)
  {
    if r.Some? { assert buffer + ([c] + r.value.0) == buffer + [c] + r.value.0; }
  }

  /** A list in front of another. */
  function InFront(s: seq<Form>, tail: Form): Form {
    if s == [] then tail else Cons(s[0], InFront(s[1..], tail))
  }

  lemma {:induction false} InFrontSnoc(s: seq<Form>, x: Form, tail: Form)
    ensures InFront(s + [x], tail) == InFront(s, Cons(x, tail))
  {
    if s != [] {
      assert (s + [x])[1..] == s[1..] + [x];
      InFrontSnoc(s[1..], x, tail);
    } else {
      assert ([] + [x])[1..] == [];
    }
  }

  lemma {:induction false} InFrontNil(s: seq<Form>)
    ensures InFront(s, Nil) == ListOf(s)
  {
    if s != [] { InFrontNil(s[1..]); }
  }

  function ElementsAfter(done: seq<Form>, r: ReadResult): Outcome {
    match r
    case Got(list, _) => Formed(InFront(done, list))
    case Crash => Crashed
    case Hang => Hung
  }

  /** The second half: reads the extracted text form by form, appending each to the last cell. */
  method ReadList(ctx: Context, inner: string) returns (r: Outcome)
    ensures r == OutcomeOf(ReadElements(ctx, inner))
    decreases |inner|, 1
  {
    var temp := new Stream(inner);
    var list := Nil;
    ghost var done: seq<Form> := [];
    ghost var e := OutcomeOf(ReadElements(ctx, inner));
    while true
      invariant temp.Valid() && |temp.Rest()| <= |inner|
      invariant list == ListOf(done) && ElementsAfter(done, ReadElements(ctx, temp.Rest())) == e
      decreases |temp.Rest()|
    {
      hide Read;
      ghost var s := temp.Rest();
      var finished := temp.OnlySpaceLeft();
      if finished {
        InFrontNil(done);
        return Formed(list);
      }
      r := ReadForm(ctx, temp);
      if !r.Formed? { return; }
      ghost var after := ReadElements(ctx, temp.Rest());
      if after.Got? { InFrontSnoc(done, r.form, after.form); }
      SnocListOf(done, r.form);
      list := Snoc(list, r.form);
      done := done + [r.form];
    }
  }

  method ReadForm(ctx: Context, stm: Stream) returns (r: Outcome)
    requires stm.Valid()
    modifies stm
    ensures stm.Valid()
    ensures r == OutcomeOf(Read(ctx, old(stm.Rest())))
    ensures r.Formed? ==> Read(ctx, old(stm.Rest())) == Got(r.form, stm.Rest())
    decreases |stm.Rest()|, 0
  {
    hide TraitsOf, ConvertCase, InToken, InEscape, Extract, ReadElements, StringText, UpToZero, TokenForm;
    ghost var s := stm.Rest();
    while true
      invariant stm.Valid() && |stm.Rest()| <= |s| && Read(ctx, stm.Rest()) == Read(ctx, s)
      decreases |stm.Rest()|
    {
      var x := stm.Getc();
      if x.None? { return Crashed; }
      var traits := TraitsOf(x.value);
      if traits.Invalid? || traits.NonTerminatingMacro? {
        return Crashed;
      } else if traits.TerminatingMacro? {
        r := ReadMacro(ctx, x.value, stm);
        return;
      } else if !traits.Whitespace? {
        var start := if traits.Constituent? then [ConvertCase(ctx.readcase, x.value)] else "";
        var t := ReadToken(ctx.readcase, stm, start, !traits.Constituent?, traits.MultipleEscape?);
        return if t.None? then Crashed else Formed(TokenForm(ctx, t.value.0, t.value.1));
      }
    }
  }

  /** The reader macro functions. */
  method ReadMacro(ctx: Context, c: char, stm: Stream) returns (r: Outcome)
    requires stm.Valid() && TraitsOf(c).TerminatingMacro?
    modifies stm
    ensures stm.Valid()
    ensures r == OutcomeOf(Read(ctx, [c] + old(stm.Rest())))
    ensures r.Formed? ==> Read(ctx, [c] + old(stm.Rest())) == Got(r.form, stm.Rest())
    decreases |stm.Rest()|, 2
  {
    hide TraitsOf, Extract, StringText, ReadElements;
    ghost var s := stm.Rest();
    assert ([c] + s)[1..] == s;
    if c == '(' {
      var inner := ExtractList(stm);
      if inner.None? { return Hung; }
      r := ReadList(ctx, inner.value);
    } else if c == '"' {
      var text := ReadDoubleQuote(stm);
      if text.None? { return Hung; }
      r := Formed(Str(UpToZero(text.value)));
    } else if c == '\'' {
      r := ReadForm(ctx, stm);
      if r.Formed? { r := Formed(Cons(QUOTE, Cons(r.form, Nil))); }
    } else {
      r := Crashed;
    }
  }
}
