/** What case conversion makes of each letter. */
module CaseConversion {
  // Letter by letter against the alphabet: under Upcase a to y become the capital at the same place, under Downcase
  // every capital the small letter there, under Invert both; everything else stays. The letter z never becomes Z.

  import opened Forms
  import opened Reader
  import opened ReadPrint

  const SMALL: string := "abcdefghijklmnopqrstuvwxyz"
  const CAPITALS: string := "ABCDEFGHIJKLMNOPQRSTUVWXYZ"

  lemma Alphabet(k: nat)
    requires k < 26
    ensures |SMALL| == |CAPITALS| == 26
    ensures SMALL[k] == 'a' + k as char && CAPITALS[k] == 'A' + k as char
  {
  }

  /** c is the k-th letter of the alphabet. */
  ghost predicate SmallAt(c: char, k: nat) {
    k < |SMALL| && SMALL[k] == c
  }

  ghost predicate CapitalAt(c: char, k: nat) {
    k < |CAPITALS| && CAPITALS[k] == c
  }

  /** d is what c becomes. */
  ghost predicate Becomes(readcase: Readcase, c: char, d: char) {
    if (readcase.Upcase? || readcase.Invert?) && c != 'z' && c in SMALL then
      exists k :: SmallAt(c, k) && CapitalAt(d, k)
    else if (readcase.Downcase? || readcase.Invert?) && c in CAPITALS then
      exists k :: CapitalAt(c, k) && SmallAt(d, k)
    else d == c
  }

  lemma InAlphabet(c: char)
    ensures c in SMALL <==> 'a' <= c <= 'z'
    ensures c in CAPITALS <==> 'A' <= c <= 'Z'
    ensures 'a' <= c <= 'z' ==> SmallAt(c, (c - 'a') as nat)
    ensures 'A' <= c <= 'Z' ==> CapitalAt(c, (c - 'A') as nat)
  {
    forall k: nat | k < 26 ensures SMALL[k] == 'a' + k as char && CAPITALS[k] == 'A' + k as char { Alphabet(k); }
    hide SMALL, CAPITALS;
    Alphabet(0);
  }

  lemma SamePlace(c: char, k: nat)
    ensures SmallAt(c, k) ==> 'a' <= c <= 'z' && k == (c - 'a') as nat
    ensures CapitalAt(c, k) ==> 'A' <= c <= 'Z' && k == (c - 'A') as nat
  {
    hide SMALL, CAPITALS;
    Alphabet(0);
    if k < 26 { Alphabet(k); }
  }

  /** Conversion gives each character what it becomes, and nothing else. */
  lemma ConvertsLetter(readcase: Readcase, c: char, d: char)
    ensures ConvertCase(readcase, c) == d <==> Becomes(readcase, c, d)
  {
    hide SMALL, CAPITALS, SmallAt, CapitalAt;
    InAlphabet(c);
    forall k: nat
      ensures SmallAt(c, k) ==> 'a' <= c <= 'z' && k == (c - 'a') as nat
      ensures CapitalAt(c, k) ==> 'A' <= c <= 'Z' && k == (c - 'A') as nat
      ensures SmallAt(d, k) ==> 'a' <= d <= 'z' && k == (d - 'a') as nat
      ensures CapitalAt(d, k) ==> 'A' <= d <= 'Z' && k == (d - 'A') as nat
    {
      SamePlace(c, k);
      SamePlace(d, k);
    }
    InAlphabet(d);
  }

  /** name is the name read for the characters w. */
  ghost predicate NameFor(readcase: Readcase, w: string, name: string) {
    |name| == |w| && forall i :: 0 <= i < |w| ==> Becomes(readcase, w[i], name[i])
  }

  /** A token's name is letter by letter what the letters become: this name and no other. */
  lemma {:induction false} ConvertsName(readcase: Readcase, w: string, name: string)
    ensures Convert(readcase, w) == name <==> NameFor(readcase, w, name)
  {
    hide ConvertCase, Becomes;
    if w != "" {
      if name != "" {
        ConvertsLetter(readcase, w[0], name[0]);
        ConvertsName(readcase, w[1..], name[1..]);
        assert name == [name[0]] + name[1..];
        assert NameFor(readcase, w, name) <==> Becomes(readcase, w[0], name[0]) && NameFor(readcase, w[1..], name[1..]) by {
          if Becomes(readcase, w[0], name[0]) && NameFor(readcase, w[1..], name[1..]) {
            forall i | 0 <= i < |w| ensures Becomes(readcase, w[i], name[i]) {
              if i > 0 { assert w[i] == w[1..][i - 1] && name[i] == name[1..][i - 1]; }
            }
          }
        }
      }
    }
  }

  /** Inverting twice gives every name back that has no capital Z: it comes back small. */
  lemma {:induction false} InvertTwice(w: string)
    ensures Convert(Invert, Convert(Invert, w)) == w <==> 'Z' !in w
  {
    if w != "" {
      InvertTwice(w[1..]);
      assert Convert(Invert, w)[1..] == Convert(Invert, w[1..]);
      assert w == [w[0]] + w[1..];
      assert ConvertCase(Invert, ConvertCase(Invert, w[0])) == w[0] <==> w[0] != 'Z';
    }
  }
}
