/** The comparator of the tag maps. */
module FormOrder {
  // form_cmp of types.c, the comparator of the maps from tags to instructions, with the machine's wrapping arithmetic.

  import opened Forms
  import opened Arenas
  import opened OrderedMaps
  import opened TagOrders

  /** A LishpForm as the comparator sees it: objects are told apart by address. */
  datatype Key =
    | FixnumKey(n: nat)       // a uint32_t
    | CharKey(c: int)         // a char
    | NilKey
    | TKey
    | ObjectKey(address: nat)

  /** The enumeration's order. */
  function TypeOf(k: Key): int {
    match k
    case FixnumKey(_) => 0
    case CharKey(_) => 1
    case NilKey => 2
    case TKey => 3
    case ObjectKey(_) => 4
  }

  /** A uint32_t taken for an int. */
  function AsInt(n: int): int {
    var w := n % WORD;
    if w < HALF_WORD then w else w - WORD
  }

  /** Pointers to LishpObject differ by whole objects, of four bytes. */
  const OBJECT: nat := 4

  function FormCmp(l: Key, r: Key): int {
    if TypeOf(l) != TypeOf(r) then TypeOf(l) - TypeOf(r)
    else
      match (l, r)
      case (FixnumKey(m), FixnumKey(n)) => AsInt(m - n)
      case (CharKey(c), CharKey(d)) => c - d
      case (ObjectKey(a), ObjectKey(b)) => (a - b) / OBJECT
      case _ => 0
  }

  /** Fixnums below the bound, chars, NIL, T, and the objects of the given chunks. */
  predicate IsTag(bound: nat, chunks: set<nat>, k: Key) {
    match k
    case FixnumKey(n) => n < bound
    case CharKey(c) => -128 <= c < 128
    case NilKey => true
    case TKey => true
    case ObjectKey(a) => a in chunks
  }

  ghost function Tags(bound: nat, chunks: set<nat>): iset<Key> {
    iset k | IsTag(bound, chunks, k)
  }

  /** Distinct objects lie at least an object apart. */
  ghost predicate Apart(chunks: set<nat>) {
    forall a <- chunks, b <- chunks :: a < b ==> a + OBJECT <= b
  }

  lemma ChunksApart(sizes: map<nat, nat>)
    requires Tiled(sizes)
    ensures Apart(sizes.Keys)
  {
  }

  lemma ZeroOnlyEqual(m: int, n: int)
    requires 0 <= m < WORD && 0 <= n < WORD
    ensures AsInt(m - n) == 0 <==> m == n
  {
  }

  /** The sign of a difference of addresses survives the division. */
  lemma ApartSign(a: nat, b: nat)
    requires a == b || a + OBJECT <= b || b + OBJECT <= a
    ensures (a - b) / OBJECT < 0 <==> a < b
    ensures (a - b) / OBJECT > 0 <==> a > b
  {
  }

  /** Both are forms of one program: a uint32_t each, or objects that do not overlap. */
  predicate Together(l: Key, r: Key) {
    && (l.FixnumKey? && r.FixnumKey? ==> l.n < WORD && r.n < WORD)
    && (l.ObjectKey? && r.ObjectKey? ==> l == r || l.address + OBJECT <= r.address || r.address + OBJECT <= l.address)
  }

  /** form_cmp is zero exactly on identical forms, whatever the fixnums. */
  lemma ZeroIffSame(l: Key, r: Key)
    requires Together(l, r)
    ensures FormCmp(l, r) == 0 <==> l == r
  {
    if l.FixnumKey? && r.FixnumKey? { ZeroOnlyEqual(l.n, r.n); }
    if l.ObjectKey? && r.ObjectKey? { ApartSign(l.address, r.address); }
  }

  lemma ZeroIffIdentical(chunks: set<nat>, l: Key, r: Key)
    requires Apart(chunks) && l in Tags(WORD, chunks) && r in Tags(WORD, chunks)
    ensures FormCmp(l, r) == 0 <==> l == r
  {
    ZeroIffSame(l, r);
  }

  /** What form_cmp's sign says: the lexicographic order on type and content, but for fixnums where they wrap. */
  ghost predicate Less(l: Key, r: Key) {
    TypeOf(l) < TypeOf(r)
    || match (l, r)
       case (FixnumKey(m), FixnumKey(n)) => m < WORD && n < WORD && Below(m, n)
       case (CharKey(c), CharKey(d)) => c < d
       case (ObjectKey(a), ObjectKey(b)) => a < b
       case _ => false
  }

  lemma SignIsLess(l: Key, r: Key)
    requires Together(l, r)
    ensures FormCmp(l, r) < 0 <==> Less(l, r)
  {
    if l.FixnumKey? && r.FixnumKey? { WrapsBelow(l.n, r.n); }
    if l.ObjectKey? && r.ObjectKey? { ApartSign(l.address, r.address); }
  }

  lemma WrapsBelow(m: Word, n: Word)
    ensures AsInt(m - n) < 0 <==> Below(m, n)
    ensures AsInt(m - n) > 0 <==> m != n && !Below(m, n)
  {
  }

  /**
   The wrapping subtraction makes form_cmp a lawful order exactly as long as every fixnum is below 2^31:
   with larger ones 0 and 2^31 are each less than the other.
   */
  lemma LawfulIff(bound: nat, chunks: set<nat>)
    requires Apart(chunks) && bound <= WORD
    ensures Lawful(FormCmp, Tags(bound, chunks)) <==> bound <= HALF_WORD
  {
    if bound <= HALF_WORD {
      LawfulBelow(bound, chunks);
    } else {
      var zero, half := FixnumKey(0), FixnumKey(HALF_WORD);
      assert zero in Tags(bound, chunks) && half in Tags(bound, chunks);
      assert FormCmp(zero, half) < 0 && FormCmp(half, zero) < 0;
    }
  }

  lemma LawfulBelow(bound: nat, chunks: set<nat>)
    requires Apart(chunks) && bound <= HALF_WORD
    ensures Lawful(FormCmp, Tags(bound, chunks))
  {
    var tags := Tags(bound, chunks);
    forall x, y | x in tags && y in tags
      ensures FormCmp(x, y) == 0 <==> x == y
      ensures FormCmp(x, y) < 0 <==> FormCmp(y, x) > 0
    {
      ZeroIffSame(x, y);
      SignIsLess(x, y);
      SignIsLess(y, x);
    }
    forall x, y, z | x in tags && y in tags && z in tags && FormCmp(x, y) < 0 && FormCmp(y, z) < 0
      ensures FormCmp(x, z) < 0
    {
      SignIsLess(x, y);
      SignIsLess(y, z);
      SignIsLess(x, z);
    }
  }

  // ---- the comparator of the interpreter's tag maps

  /** Objects are compared by address; place says where they are. */
  function KeyOf(place: Form -> nat, f: Form): Key {
    match f
    case Nil => NilKey
    case T => TKey
    case Fixnum(n) => FixnumKey(n)
    case Char(c) => CharKey(SignedChar(c))
    case _ => ObjectKey(place(f))
  }

  function SignedChar(c: char): int {
    var n := c as int;
    if 128 <= n < 256 then n - 256 else n
  }

  predicate IsObject(f: Form) {
    f.Sym? || f.Str? || f.Fn? || f.Object? || f.Cons?
  }

  /** Different objects are in different places, at least an object apart. */
  ghost predicate Placed(place: Form -> nat) {
    forall x: Form, y: Form :: IsObject(x) && IsObject(y) && x != y ==>
      place(x) + OBJECT <= place(y) || place(y) + OBJECT <= place(x)
  }

  function Compare(place: Form -> nat): (Form, Form) -> int {
    (l: Form, r: Form) => FormCmp(KeyOf(place, l), KeyOf(place, r))
  }

  lemma KeysTogether(place: Form -> nat, x: Form, y: Form)
    requires Placed(place)
    ensures Together(KeyOf(place, x), KeyOf(place, y))
    ensures KeyOf(place, x) == KeyOf(place, y) <==> x == y
  {
  }

  /** form_cmp meets what the tag maps of the machine need: it tells forms apart, and orders every good set of tags. */
  lemma FormCmpOrders(place: Form -> nat)
    requires Placed(place)
    ensures OrdersTags(Compare(place))
  {
    var order := Compare(place);
    forall x: Form, y: Form ensures order(x, y) == 0 <==> x == y {
      CompareSign(place, x, y);
    }
    forall tags: set<Form> | GoodTags(tags) ensures Lawful(order, DomainOf(tags)) {
      GoodTagsLawful(place, tags);
    }
  }

  lemma CompareSign(place: Form -> nat, x: Form, y: Form)
    requires Placed(place)
    ensures Compare(place)(x, y) == 0 <==> x == y
    ensures Compare(place)(x, y) < 0 <==> Less(KeyOf(place, x), KeyOf(place, y))
  {
    KeysTogether(place, x, y);
    ZeroIffSame(KeyOf(place, x), KeyOf(place, y));
    SignIsLess(KeyOf(place, x), KeyOf(place, y));
  }

  lemma LessOneWay(place: Form -> nat, x: Form, y: Form)
    requires Placed(place) && x != y && (TagBelow(x, y) ==> !TagBelow(y, x))
    ensures Less(KeyOf(place, x), KeyOf(place, y)) <==> !Less(KeyOf(place, y), KeyOf(place, x))
  {
    KeysTogether(place, x, y);
  }

  lemma LessOnward(place: Form -> nat, x: Form, y: Form, z: Form)
    requires TagBelow(x, y) && TagBelow(y, z) ==> TagBelow(x, z)
    requires Less(KeyOf(place, x), KeyOf(place, y)) && Less(KeyOf(place, y), KeyOf(place, z))
    ensures Less(KeyOf(place, x), KeyOf(place, z))
  {
  }

  /** Fixnums come first, then characters, NIL, T, and objects by address, counted in objects of four bytes. */
  lemma TypesInOrder(n: nat, c: int, a: nat, k: int)
    requires a + 4 * k >= 0
    ensures FormCmp(FixnumKey(n), CharKey(c)) < 0 && FormCmp(CharKey(c), NilKey) < 0
    ensures FormCmp(NilKey, TKey) < 0 && FormCmp(TKey, ObjectKey(a)) < 0
    ensures FormCmp(ObjectKey(a + 4 * k), ObjectKey(a)) == k
  {
  }

  /** A char is signed: those from 128 to 255 come before those below 128. */
  lemma CharsInOrder(place: Form -> nat, c: char, d: char)
    requires c as int < 256 && d as int < 256
    ensures Compare(place)(Char(c), Char(d)) < 0 <==> if (c < '\U{80}') == (d < '\U{80}') then c < d else d < '\U{80}'
  {
  }

  lemma GoodTagsLawful(place: Form -> nat, tags: set<Form>)
    requires Placed(place) && GoodTags(tags)
    ensures Lawful(Compare(place), DomainOf(tags))
  {
    hide Compare, Less, KeyOf, Placed, TagBelow;
    var order := Compare(place);
    forall x: Form, y: Form | x in tags && y in tags
      ensures order(x, y) == 0 <==> x == y
      ensures order(x, y) < 0 <==> order(y, x) > 0
    {
      CompareSign(place, x, y);
      CompareSign(place, y, x);
      if x != y { LessOneWay(place, x, y); }
    }
    forall x: Form, y: Form, z: Form | x in tags && y in tags && z in tags && order(x, y) < 0 && order(y, z) < 0
      ensures order(x, z) < 0
    {
      CompareSign(place, x, y);
      CompareSign(place, y, z);
      CompareSign(place, x, z);
      LessOnward(place, x, y, z);
    }
  }

  /** A map of tags whose fixnums are below 2^31 answers every lookup as the mathematical map does. */
  lemma TagMapRefines<V>(sizes: map<nat, nat>, ops: seq<Operation<Key, V>>, tag: Key)
    requires Tiled(sizes) && tag in Tags(HALF_WORD, sizes.Keys)
    requires forall op <- ops :: op.key in Tags(HALF_WORD, sizes.Keys)
    ensures Looked(FormCmp, AppliedAll(FormCmp, [], ops), tag) == Get(MeantAll(map[], ops), tag)
  {
    ChunksApart(sizes);
    LawfulBelow(HALF_WORD, sizes.Keys);
    OperationsRefine(FormCmp, Tags(HALF_WORD, sizes.Keys), [], ops, tag);
  }

  /** Beyond it a tag that was put in is not found again. */
  lemma TagLost<V>(a: V, b: V)
    ensures var zero, half := FixnumKey(0), FixnumKey(HALF_WORD);
      var s := Inserted(FormCmp, Inserted(FormCmp, [], half, a), zero, b);
      Looked(FormCmp, s, half) == None
  {
    var zero, half := FixnumKey(0), FixnumKey(HALF_WORD);
    var s := Inserted(FormCmp, [], half, a);
    assert s == [(half, a)];
    assert FormCmp(zero, half) < 0 && FormCmp(half, zero) < 0;
    assert Position(FormCmp, s, zero, 0) == 0;
    assert Inserted(FormCmp, s, zero, b) == [(zero, b), (half, a)];
  }
}
