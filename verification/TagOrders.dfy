/** Which tags a comparator tells apart and puts in order. */
module TagOrders {
  // Tags are kept in sorted arrays, under form_cmp. Two things must hold of the comparator: on the tags of one
  // TAGBODY it is a lawful order, and it is zero on no two different forms one of which can be a tag.

  import opened Forms
  import opened OrderedMaps

  /** Subtracting fixnums wraps around beyond this distance. */
  const HALF_WORD: nat := 0x8000_0000

  /** The difference of two fixnums, taken for an int, is negative. */
  predicate Below(m: Word, n: Word) {
    if m < n then n - m <= HALF_WORD else m - n >= HALF_WORD
  }

  predicate TagBelow(s: Form, t: Form) {
    s.Fixnum? && t.Fixnum? && Below(s.n, t.n)
  }

  /**
   Atoms that one TAGBODY can have as tags: no strings, of which equal ones are still different objects, and
   fixnums that their wrapping differences put in order, with no two below each other and none going round.
   */
  predicate GoodTags(tags: set<Form>) {
    && (forall t <- tags :: !t.Cons? && !t.Str?)
    && (forall s <- tags, t <- tags :: TagBelow(s, t) ==> !TagBelow(t, s))
    && (forall s <- tags, t <- tags, u <- tags :: TagBelow(s, t) && TagBelow(t, u) ==> TagBelow(s, u))
  }

  /** Fixnums less than 2^31 apart are in order. */
  lemma NearTagsGood(tags: set<Form>)
    requires forall t <- tags :: !t.Cons? && !t.Str?
    requires forall s <- tags, t <- tags :: s.Fixnum? && t.Fixnum? ==> s.n < t.n + HALF_WORD
    ensures GoodTags(tags)
  {
    assert forall s <- tags, t <- tags :: s.Fixnum? && t.Fixnum? ==> (TagBelow(s, t) <==> s.n < t.n);
  }

  ghost function DomainOf(tags: set<Form>): iset<Form> {
    iset t | t in tags
  }

  ghost predicate Distinguishes(order: (Form, Form) -> int) {
    forall x: Form, y: Form :: !y.Cons? && !y.Str? && x != y ==> order(x, y) != 0
  }

  ghost predicate OrdersTags(order: (Form, Form) -> int) {
    Distinguishes(order) && forall tags: set<Form> :: GoodTags(tags) ==> Lawful(order, DomainOf(tags))
  }

  /** The sorted array of a TAGBODY's tags, standing for the map m. */
  ghost predicate HoldsTags(order: (Form, Form) -> int, s: seq<(Form, nat)>, m: map<Form, nat>) {
    GoodTags(m.Keys) && Sorted(order, s) && KeysIn(s, DomainOf(m.Keys)) && MapOf(s) == m
  }

  lemma FewerTags(tags: set<Form>, some: set<Form>)
    requires GoodTags(tags) && some <= tags
    ensures GoodTags(some)
  {
  }

  lemma NoTagsHeld(order: (Form, Form) -> int)
    ensures HoldsTags(order, [], map[])
  {
  }

  /** In a sorted array of good tags the early-exit search finds exactly the tags, with their indices. */
  lemma TagLookup(order: (Form, Form) -> int, s: seq<(Form, nat)>, m: map<Form, nat>, t: Form)
    requires OrdersTags(order) && HoldsTags(order, s, m)
    ensures Looked(order, s, t) == Get(m, t)
    ensures Found(order, s, t) <==> t in m
  {
    hide Sorted, KeysIn, Lawful, MapOf;
    if t in m {
      LookupRefines(order, DomainOf(m.Keys), s, t);
    } else if Found(order, s, t) {
      FoundIsZero(order, s, t);
      KeyIsTag(s, m.Keys, Position(order, s, t, 0));
    }
  }

  lemma FoundIsZero(order: (Form, Form) -> int, s: seq<(Form, nat)>, t: Form)
    requires Found(order, s, t)
    ensures Position(order, s, t, 0) < |s| && order(t, s[Position(order, s, t, 0)].0) == 0
  {
  }

  lemma KeyIsTag(s: seq<(Form, nat)>, tags: set<Form>, i: nat)
    requires KeysIn(s, DomainOf(tags)) && i < |s|
    ensures s[i].0 in tags
  {
  }

  /** Binding one more good tag, or one of them again. */
  lemma TagInserted(order: (Form, Form) -> int, s: seq<(Form, nat)>, m: map<Form, nat>, t: Form, index: nat)
    requires OrdersTags(order) && HoldsTags(order, s, m) && GoodTags(m.Keys + {t})
    ensures HoldsTags(order, Inserted(order, s, t, index), m[t := index])
  {
    hide Sorted, Lawful, MapOf, Inserted, GoodTags;
    var tags := m.Keys + {t};
    WiderKeys(s, m.Keys, tags);
    assert t in DomainOf(tags);
    InsertMeaning(order, DomainOf(tags), s, t, index);
    InsertSorted(order, DomainOf(tags), s, t, index);
    assert m[t := index].Keys == tags;
  }

  lemma WiderKeys(s: seq<(Form, nat)>, some: set<Form>, tags: set<Form>)
    requires KeysIn(s, DomainOf(some)) && some <= tags
    ensures KeysIn(s, DomainOf(tags))
  {
  }
}
