/** is_special_form: a search in a sorted table. */
module SpecialForms {
  // The loop compares with strcmp and stops at the first entry that is not smaller, so that it finds the five
  // names and nothing else only because the table is sorted.

  import opened Forms

  const SPECIAL_FORMS: seq<(string, Special)> :=
    [("GO", Go), ("LET*", LetStar), ("PROGN", Progn), ("QUOTE", Quote), ("TAGBODY", Tagbody)]

  /** The names of the special operators of section 3.1.2.1.2.1 of the Common Lisp HyperSpec that are implemented. */
  const OPERATORS: set<string> := {"GO", "LET*", "PROGN", "QUOTE", "TAGBODY"}

  /** strcmp: the difference at the first place where the two differ, an end being smaller than any character. */
  function StrCmp(s: string, t: string): int {
    if s == "" && t == "" then 0
    else if s == "" then -1
    else if t == "" then 1
    else if s[0] != t[0] then s[0] as int - t[0] as int
    else StrCmp(s[1..], t[1..])
  }

  lemma {:induction false} StrCmpZero(s: string, t: string)
    ensures StrCmp(s, t) == 0 <==> s == t
  {
    if s != "" && t != "" && s[0] == t[0] {
      StrCmpZero(s[1..], t[1..]);
      assert s == [s[0]] + s[1..] && t == [t[0]] + t[1..];
    }
  }

  lemma {:induction false} StrCmpTransitive(s: string, t: string, u: string)
    requires StrCmp(s, t) < 0 && StrCmp(t, u) < 0
    ensures StrCmp(s, u) < 0
  {
    if s != "" && t != "" && u != "" && s[0] == t[0] == u[0] {
      StrCmpTransitive(s[1..], t[1..], u[1..]);
    }
  }

  lemma TableSorted(i: nat, j: nat)
    requires i < j < |SPECIAL_FORMS|
    ensures StrCmp(SPECIAL_FORMS[i].0, SPECIAL_FORMS[j].0) < 0
  {
  }

  /** The table's entries are what SpecialOf knows, no more and no less. */
  lemma TableIsSpecialOf(lexeme: string)
    ensures forall i :: 0 <= i < |SPECIAL_FORMS| && SPECIAL_FORMS[i].0 == lexeme ==> SpecialOf(lexeme) == SPECIAL_FORMS[i].1
    ensures SpecialOf(lexeme) != NotSpecial ==> exists i :: 0 <= i < |SPECIAL_FORMS| && SPECIAL_FORMS[i].0 == lexeme
  {
    if SpecialOf(lexeme) != NotSpecial {
      var i := match SpecialOf(lexeme) case Go => 0 case LetStar => 1 case Progn => 2 case Quote => 3 case _ => 4;
      assert SPECIAL_FORMS[i].0 == lexeme;
    }
  }

  method IsSpecialForm(lexeme: string) returns (special: Special)
    ensures special == SpecialOf(lexeme)
    ensures special != NotSpecial <==> lexeme in OPERATORS
  {
    var cmp := 1;
    var i := 0;
    while i < |SPECIAL_FORMS|
      invariant i <= |SPECIAL_FORMS|
      invariant forall j :: 0 <= j < i ==> SPECIAL_FORMS[j].0 != lexeme
      invariant i == |SPECIAL_FORMS| ==> cmp > 0
    {
      hide StrCmp, SPECIAL_FORMS;
      cmp := StrCmp(lexeme, SPECIAL_FORMS[i].0);
      StrCmpZero(lexeme, SPECIAL_FORMS[i].0);
      if cmp <= 0 { break; }
      i := i + 1;
    }
    TableIsSpecialOf(lexeme);
    OperatorsAreThese(lexeme);
    if cmp == 0 { return SPECIAL_FORMS[i].1; }
    if i < |SPECIAL_FORMS| { NotLater(lexeme, i); }
    special := NotSpecial;
  }

  /** What comes before an entry of the table is none of the entries from there on. */
  lemma NotLater(lexeme: string, i: nat)
    requires i < |SPECIAL_FORMS| && StrCmp(lexeme, SPECIAL_FORMS[i].0) < 0
    ensures forall j :: i <= j < |SPECIAL_FORMS| ==> SPECIAL_FORMS[j].0 != lexeme
  {
    hide StrCmp, SPECIAL_FORMS;
    forall j | i <= j < |SPECIAL_FORMS| ensures SPECIAL_FORMS[j].0 != lexeme {
      StrCmpZero(lexeme, SPECIAL_FORMS[j].0);
      if i < j {
        TableSorted(i, j);
        StrCmpTransitive(lexeme, SPECIAL_FORMS[i].0, SPECIAL_FORMS[j].0);
      }
    }
  }

  /** A symbol is a special operator if and only if its name is one of the five, and each name is its own operator. */
  lemma OperatorsAreThese(lexeme: string)
    ensures SpecialOf(lexeme) != NotSpecial <==> lexeme in OPERATORS
    ensures SpecialOf("GO") == Go && SpecialOf("LET*") == LetStar && SpecialOf("PROGN") == Progn
    ensures SpecialOf("QUOTE") == Quote && SpecialOf("TAGBODY") == Tagbody
  {
  }
}
