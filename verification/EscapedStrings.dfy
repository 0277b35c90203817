/** Strings written with escapes. */
module EscapedStrings {
  // What may be written between the quotes for a text, as a relation of its own; the reader gets a text exactly from
  // what is written for it, up to the closing quote. So every text can be written, though print_form does not.

  import opened Forms
  import opened Reader

  /** The characters that stand for another one behind a backslash. */
  const ESCAPES: seq<(char, char)> := [
    ('a', '\U{07}'), ('b', '\U{08}'), ('f', '\U{0c}'), ('n', '\n'), ('r', '\r'), ('t', '\t'), ('v', '\U{0b}'),
    ('0', '\0'), ('1', '\U{01}'), ('2', '\U{02}'), ('3', '\U{03}'), ('4', '\U{04}'), ('5', '\U{05}'), ('6', '\U{06}'),
    ('7', '\U{07}')]

  ghost predicate Listed(e: char) {
    exists i :: 0 <= i < |ESCAPES| && ESCAPES[i].0 == e
  }

  /** A backslash in front of e means c. */
  ghost predicate Means(e: char, c: char) {
    (e, c) in ESCAPES || (!Listed(e) && e == c)
  }

  lemma EscapeCharMeans(e: char, c: char)
    ensures EscapeChar(e) == c <==> Means(e, c)
  {
    forall i | 0 <= i < |ESCAPES| ensures EscapeChar(ESCAPES[i].0) == ESCAPES[i].1 { EntryIs(i); }
    if !Listed(e) {
      NotListed(e);
    } else {
      var i :| 0 <= i < |ESCAPES| && ESCAPES[i].0 == e;
      assert (e, EscapeChar(e)) == ESCAPES[i];
      hide ESCAPES;
    }
  }

  lemma EntryIs(i: nat)
    requires i < |ESCAPES|
    ensures EscapeChar(ESCAPES[i].0) == ESCAPES[i].1
  {
  }

  lemma NotListed(e: char)
    requires !Listed(e)
    ensures EscapeChar(e) == e
  {
    forall i | 0 <= i < |ESCAPES| ensures e != ESCAPES[i].0 { }
    assert e != ESCAPES[0].0 && e != ESCAPES[1].0 && e != ESCAPES[2].0 && e != ESCAPES[3].0 && e != ESCAPES[4].0;
    assert e != ESCAPES[5].0 && e != ESCAPES[6].0 && e != ESCAPES[7].0 && e != ESCAPES[8].0 && e != ESCAPES[9].0;
    assert e != ESCAPES[10].0 && e != ESCAPES[11].0 && e != ESCAPES[12].0 && e != ESCAPES[13].0 && e != ESCAPES[14].0;
  }

  /** u may be written for t: each character as itself, unless it is a quote or a backslash, or escaped. */
  ghost predicate WrittenFor(u: string, t: string) {
    if u == "" then t == ""
    else if u[0] == '\\' then |u| >= 2 && t != "" && Means(u[1], t[0]) && WrittenFor(u[2..], t[1..])
    else u[0] != '"' && t != "" && t[0] == u[0] && WrittenFor(u[1..], t[1..])
  }

  lemma {:induction false} WrittenIsRead(u: string, t: string, rest: string, chars: string)
    requires WrittenFor(u, t)
    ensures StringText(u + "\"" + rest, chars, false) == Some((chars + t, rest))
    decreases |u|
  {
    hide Means, EscapeChar;
    var s := u + "\"" + rest;
    if u == "" {
      assert s[1..] == rest && chars + t == chars;
    } else if u[0] == '\\' {
      EscapeCharMeans(u[1], t[0]);
      assert s[1..][0] == u[1] && s[1..][1..] == u[2..] + "\"" + rest;
      WrittenIsRead(u[2..], t[1..], rest, chars + [t[0]]);
      assert chars + [t[0]] + t[1..] == chars + t;
    } else {
      assert s[1..] == u[1..] + "\"" + rest;
      WrittenIsRead(u[1..], t[1..], rest, chars + [t[0]]);
      assert chars + [t[0]] + t[1..] == chars + t;
    }
  }

  /** What was read was written for the text. */
  lemma {:induction false} ReadWasWritten(s: string, chars: string, r: string, rest: string) returns (u: string, t: string)
    requires StringText(s, chars, false) == Some((r, rest))
    ensures WrittenFor(u, t) && s == u + "\"" + rest && r == chars + t
    decreases |s|
  {
    hide Means, EscapeChar;
    if s[0] == '"' {
      u, t := "", "";
      assert s == "" + "\"" + s[1..] && chars + "" == chars;
    } else {
      var k := if s[0] == '\\' then 2 else 1;
      assert s[0] == '\\' ==> |s| >= 2 && s[1..][1..] == s[2..] && s[1..][0] == s[1];
      var c := if s[0] == '\\' then EscapeChar(s[1]) else s[0];
      var u', t' := ReadWasWritten(s[k..], chars + [c], r, rest);
      u, t := s[..k] + u', [c] + t';
      assert u[k..] == u' && t[1..] == t';
      if s[0] == '\\' { EscapeCharMeans(s[1], c); }
      assert s == s[..k] + s[k..] && chars + [c] + t' == chars + t;
    }
  }

  /** The text read is t, with rest behind the closing quote, if and only if what stands there was written for t. */
  lemma StringReadIff(s: string, t: string, rest: string)
    ensures StringText(s, "", false) == Some((t, rest)) <==> exists u :: WrittenFor(u, t) && s == u + "\"" + rest
  {
    if StringText(s, "", false) == Some((t, rest)) {
      var u, t' := ReadWasWritten(s, "", t, rest);
      assert "" + t' == t';
    }
    if u :| WrittenFor(u, t) && s == u + "\"" + rest {
      WrittenIsRead(u, t, rest, "");
      assert "" + t == t;
    }
  }

  // ---- one way to write every text

  /** Quotes and backslashes behind a backslash, the first few control characters by letter or digit. */
  function EscapeFor(c: char): string {
    if c == '"' || c == '\\' then ['\\', c]
    else if c == '\n' then "\\n"
    else if c == '\t' then "\\t"
    else if c == '\r' then "\\r"
    else if c == '\U{07}' then "\\a"
    else if c == '\U{08}' then "\\b"
    else if c == '\U{0b}' then "\\v"
    else if c == '\U{0c}' then "\\f"
    else if c < '\U{07}' then ['\\', '0' + c]
    else [c]
  }

  function Escaped(t: string): string {
    if t == "" then "" else EscapeFor(t[0]) + Escaped(t[1..])
  }

  lemma EscapeForMeans(c: char)
    ensures var e := EscapeFor(c);
      if |e| == 2 then e[0] == '\\' && Means(e[1], c) else e == [c] && c != '"' && c != '\\'
  {
    var e := EscapeFor(c);
    if |e| == 2 { EscapeCharMeans(e[1], c); }
  }

  lemma {:induction false} EscapedIsWritten(t: string)
    ensures WrittenFor(Escaped(t), t)
  {
    hide Means, EscapeFor;
    if t != "" {
      EscapeForMeans(t[0]);
      EscapedIsWritten(t[1..]);
      var e := EscapeFor(t[0]);
      assert (e + Escaped(t[1..]))[|e|..] == Escaped(t[1..]);
    }
  }

  lemma {:induction false} UpToZeroIs(u: string, v: string)
    requires '\0' !in u
    ensures UpToZero(u) == u && UpToZero(u + "\0" + v) == u
  {
    if u != "" {
      UpToZeroIs(u[1..], v);
      assert (u + "\0" + v)[1..] == u[1..] + "\0" + v && u == [u[0]] + u[1..];
    }
  }

  /** Every text without a zero character, written with escapes, reads back, up to exactly the closing quote. */
  lemma EscapedReadsBack(ctx: Context, t: string, rest: string)
    requires '\0' !in t
    ensures Read(ctx, "\"" + Escaped(t) + "\"" + rest) == Got(Str(t), rest)
  {
    hide Escaped, UpToZero;
    var s := Escaped(t) + "\"" + rest;
    assert ("\"" + Escaped(t) + "\"" + rest)[1..] == s;
    EscapedIsWritten(t);
    WrittenIsRead(Escaped(t), t, rest, "");
    assert "" + t == t;
    UpToZeroIs(t, "");
  }

  /** A zero character, which can be written too, ends the string that is kept, though not the text that is read. */
  lemma ZeroCutsShort(ctx: Context, t: string, behind: string, rest: string)
    requires '\0' !in t
    ensures Read(ctx, "\"" + Escaped(t + "\0" + behind) + "\"" + rest) == Got(Str(t), rest)
  {
    hide Escaped, UpToZero;
    var text := t + "\0" + behind;
    var s := Escaped(text) + "\"" + rest;
    assert ("\"" + Escaped(text) + "\"" + rest)[1..] == s;
    EscapedIsWritten(text);
    WrittenIsRead(Escaped(text), text, rest, "");
    assert "" + text == text;
    UpToZeroIs(t, behind);
  }
}
