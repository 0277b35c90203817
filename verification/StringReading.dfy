/** Reading a printed string. */
module StringReading {
  // print_form writes a string's text between quotes as it is. The reader gets it back exactly when nothing in it
  // ends, escapes or cuts short a string; and it never gets it back from a part of what was written.

  import opened Forms
  import opened Reader

  /** Nothing that ends, escapes or cuts short a string. */
  predicate PlainText(t: string) {
    t == "" || (t[0] != '"' && t[0] != '\\' && t[0] != '\0' && PlainText(t[1..]))
  }

  lemma {:induction false} PlainRead(t: string, rest: string, chars: string)
    requires PlainText(t)
    ensures StringText(t + "\"" + rest, chars, false) == Some((chars + t, rest))
    ensures UpToZero(t) == t
  {
    var s := t + "\"" + rest;
    if t == "" {
      assert s[1..] == rest && chars + t == chars;
    } else {
      assert s[1..] == t[1..] + "\"" + rest;
      PlainRead(t[1..], rest, chars + [t[0]]);
      assert chars + [t[0]] + t[1..] == chars + t;
    }
  }

  function Behind(chars: string, r: Option<(string, string)>): Option<(string, string)> {
    match r
    case None => None
    case Some((text, rest)) => Some((chars + text, rest))
  }

  lemma BehindTwice(s: string, t: string, r: Option<(string, string)>)
    ensures Behind(s, Behind(t, r)) == Behind(s + t, r)
  {
    if r.Some? { assert s + (t + r.value.0) == s + t + r.value.0; }
  }

  lemma {:induction false} CharsInFront(s: string, chars: string, escapedNext: bool)
    ensures StringText(s, chars, escapedNext) == Behind(chars, StringText(s, "", escapedNext))
  {
    if s != "" {
      if s[0] == '"' && !escapedNext {
        assert chars + "" == chars;
      } else if s[0] == '\\' && !escapedNext {
        CharsInFront(s[1..], chars, true);
      } else {
        var c := if escapedNext then EscapeChar(s[0]) else s[0];
        CharsInFront(s[1..], chars + [c], false);
        CharsInFront(s[1..], [c], false);
        assert "" + [c] == [c];
        BehindTwice(chars, [c], StringText(s[1..], "", false));
      }
    }
  }

  /** The next character of a string's text, in front of the rest. */
  lemma NextChar(s: string)
    requires s != "" && s[0] != '"' && s[0] != '\\'
    ensures StringText(s, "", false) == Behind([s[0]], StringText(s[1..], "", false))
  {
    CharsInFront(s[1..], [s[0]], false);
    assert "" + [s[0]] == [s[0]];
  }

  lemma NextEscaped(s: string)
    requires |s| >= 2 && s[0] == '\\'
    ensures StringText(s, "", false) == Behind([EscapeChar(s[1])], StringText(s[2..], "", false))
  {
    var e := EscapeChar(s[1]);
    assert s[1..][1..] == s[2..] && s[1..][0] == s[1];
    CharsInFront(s[2..], [e], false);
    assert "" + [e] == [e];
  }

  lemma OnlySlashGivesSlash(c: char)
    ensures EscapeChar(c) == '\\' <==> c == '\\'
  {
  }

  function Slashes(k: nat): string {
    if k == 0 then "" else "\\" + Slashes(k - 1)
  }

  lemma {:induction false} SlashesSnoc(k: nat)
    ensures Slashes(k) + "\\" == Slashes(k + 1)
  {
    if k > 0 { SlashesSnoc(k - 1); }
    assert k == 0 ==> "" + "\\" == "\\" + "";
  }

  /** A reader that has fallen behind by one backslash or more never catches up: each takes two to make one. */
  lemma {:induction false} NeverCatchesUp(k: nat, w: string, t: string, s: string, c: string, r: string)
    requires k >= 1 && s <= w + "\"" + t
    requires StringText(s, "", false) == Some((c, r))
    ensures UpToZero(c) != Slashes(k) + w
    decreases |w|
  {
    if UpToZero(c) == Slashes(k) + w {
      assert UpToZero(c)[0] == '\\' && c[0] == '\\';
      assert s != "" && s[0] == (w + "\"" + t)[0];
      if s[0] != '"' && s[0] != '\\' {
        NextChar(s);
      }
      assert s[0] == '\\' && w[0] == '\\';
      assert |s| >= 2;
      NextEscaped(s);
      OnlySlashGivesSlash(s[1]);
      assert c[0] == EscapeChar(s[1]);
      assert s[1] == (w + "\"" + t)[1];
      assert w[1] == '\\';
      assert s[2..] <= w[2..] + "\"" + t;
      SlashesSnoc(k - 1);
      SlashesSnoc(k);
      assert w == "\\\\" + w[2..];
      assert Slashes(k)[1..] == Slashes(k - 1);
      assert (Slashes(k) + w)[1..] == Slashes(k - 1) + "\\" + "\\" + w[2..] == Slashes(k + 1) + w[2..];
      NeverCatchesUp(k + 1, w[2..], t, s[2..], c[1..], r);
    }
  }

  /** Whatever part of a written string is read: if the text comes out, it was plain and was read to its closing quote. */
  lemma {:induction false} OnlyPlainComesBack(text: string, t: string, s: string, c: string, r: string)
    requires s <= text + "\"" + t
    requires StringText(s, "", false) == Some((c, r)) && UpToZero(c) == text
    ensures PlainText(text) && s == text + "\"" + r
    decreases |text|
  {
    assert s != "" && s[0] == (text + "\"" + t)[0];
    if text == "" {
      assert s == "\"" + s[1..];
    } else {
      assert c != "" && c[0] == text[0] && c[0] != '\0' && UpToZero(c[1..]) == text[1..];
      if s[0] == '\\' {
        assert |s| >= 2;
        NextEscaped(s);
        OnlySlashGivesSlash(s[1]);
        assert c[0] == EscapeChar(s[1]);
        assert s[1] == (text + "\"" + t)[1];
        assert |text| >= 2;
        assert s[2..] <= text[2..] + "\"" + t;
        assert text[1..] == Slashes(1) + text[2..] by { assert Slashes(1) == "\\" + ""; }
        NeverCatchesUp(1, text[2..], t, s[2..], c[1..], r);
      } else {
        NextChar(s);
        assert s[1..] <= text[1..] + "\"" + t;
        OnlyPlainComesBack(text[1..], t, s[1..], c[1..], r);
        assert s == [s[0]] + s[1..];
      }
    }
  }

  /** A printed string reads back, up to exactly its closing quote, if and only if its text is plain: it is printed without escapes. */
  lemma StringUndoesPrint(ctx: Context, t: string, rest: string)
    ensures Read(ctx, "\"" + t + "\"" + rest) == Got(Str(t), rest) <==> PlainText(t)
  {
    var s := "\"" + t + "\"" + rest;
    assert s[1..] == t + "\"" + rest;
    if PlainText(t) {
      PlainRead(t, rest, "");
      assert "" + t == t;
    } else {
      var r := StringText(s[1..], "", false);
      if r.Some? && UpToZero(r.value.0) == t {
        OnlyPlainComesBack(t, rest, s[1..], r.value.0, r.value.1);
      }
    }
  }
}
