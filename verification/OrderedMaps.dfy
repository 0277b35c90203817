/** Sorted-array maps. */
module OrderedMaps {
  // The sorted-array map of map.c over the shifting loop of util.c, and the mathematical map it stands for.

  import opened Forms

  /** A total order on the keys of `domain`: what the map needs of its comparator. */
  ghost predicate Lawful<K(!new)>(cmp: (K, K) -> int, domain: iset<K>) {
    && (forall x, y :: x in domain && y in domain ==> (cmp(x, y) == 0 <==> x == y))
    && (forall x, y :: x in domain && y in domain ==> (cmp(x, y) < 0 <==> cmp(y, x) > 0))
    && (forall x, y, z :: x in domain && y in domain && z in domain && cmp(x, y) < 0 && cmp(y, z) < 0 ==> cmp(x, z) < 0)
  }

  // ---- sorted sequences of pairs

  /** Where the search for a key stops, from index i on. */
  function Position<K, V>(cmp: (K, K) -> int, s: seq<(K, V)>, key: K, i: nat): (p: nat)
    ensures i <= |s| ==> i <= p <= |s|
    decreases |s| - i
  {
    if i >= |s| || cmp(key, s[i].0) <= 0 then i else Position(cmp, s, key, i + 1)
  }

  predicate Found<K, V>(cmp: (K, K) -> int, s: seq<(K, V)>, key: K) {
    var p := Position(cmp, s, key, 0);
    p < |s| && cmp(key, s[p].0) == 0
  }

  function Inserted<K, V>(cmp: (K, K) -> int, s: seq<(K, V)>, key: K, value: V): seq<(K, V)> {
    var p := Position(cmp, s, key, 0);
    if Found(cmp, s, key) then s[p := (s[p].0, value)] else s[..p] + [(key, value)] + s[p..]
  }

  function Removed<K, V>(cmp: (K, K) -> int, s: seq<(K, V)>, key: K): seq<(K, V)> {
    var p := Position(cmp, s, key, 0);
    if Found(cmp, s, key) then s[..p] + s[p + 1..] else s
  }

  function Looked<K, V>(cmp: (K, K) -> int, s: seq<(K, V)>, key: K): Option<V> {
    if Found(cmp, s, key) then Some(s[Position(cmp, s, key, 0)].1) else None
  }

  ghost predicate Sorted<K(!new), V>(cmp: (K, K) -> int, s: seq<(K, V)>) {
    forall i, j :: 0 <= i < j < |s| ==> cmp(s[i].0, s[j].0) < 0
  }

  ghost predicate KeysIn<K(!new), V>(s: seq<(K, V)>, domain: iset<K>) {
    forall i :: 0 <= i < |s| ==> s[i].0 in domain
  }

  /** The mathematical map a sequence of pairs stands for. */
  function MapOf<K, V>(s: seq<(K, V)>): map<K, V> {
    if s == [] then map[] else MapOf(s[1..])[s[0].0 := s[0].1]
  }

  lemma {:induction false} MapOfHas<K, V>(s: seq<(K, V)>, key: K)
    ensures key in MapOf(s) <==> exists i :: 0 <= i < |s| && s[i].0 == key
  {
    if s != [] {
      MapOfHas(s[1..], key);
      if i :| 0 <= i < |s| && s[i].0 == key { if i > 0 { assert s[1..][i - 1].0 == key; } }
      if key in MapOf(s[1..]) {
        var i :| 0 <= i < |s[1..]| && s[1..][i].0 == key;
        assert s[i + 1].0 == key;
      }
    }
  }

  lemma {:induction false} MapOfAt<K(!new), V>(s: seq<(K, V)>, i: nat)
    requires i < |s| && forall j, k :: 0 <= j < k < |s| ==> s[j].0 != s[k].0
    ensures s[i].0 in MapOf(s) && MapOf(s)[s[i].0] == s[i].1
  {
    if i > 0 {
      MapOfAt(s[1..], i - 1);
      assert s[0].0 != s[i].0;
    }
  }

  lemma {:induction false} PositionIs<K(!new), V>(cmp: (K, K) -> int, s: seq<(K, V)>, key: K, i: nat)
    requires i <= |s| && forall j :: 0 <= j < i ==> cmp(key, s[j].0) > 0
    ensures var p := Position(cmp, s, key, i);
      p <= |s| && (forall j :: 0 <= j < p ==> cmp(key, s[j].0) > 0) && (p < |s| ==> cmp(key, s[p].0) <= 0)
    decreases |s| - i
  {
    if i < |s| && cmp(key, s[i].0) > 0 { PositionIs(cmp, s, key, i + 1); }
  }

  /** What the search knows: keys before p are smaller; at p an equal key or only greater ones. */
  lemma SearchFacts<K(!new), V>(cmp: (K, K) -> int, domain: iset<K>, s: seq<(K, V)>, key: K)
    requires Lawful(cmp, domain) && Sorted(cmp, s) && KeysIn(s, domain) && key in domain
    ensures var p := Position(cmp, s, key, 0);
      && p <= |s|
      && (forall j :: 0 <= j < p ==> cmp(s[j].0, key) < 0)
      && (Found(cmp, s, key) ==> p < |s| && s[p].0 == key)
      && (!Found(cmp, s, key) ==> forall j :: p <= j < |s| ==> cmp(key, s[j].0) < 0)
  {
    PositionIs(cmp, s, key, 0);
    var p := Position(cmp, s, key, 0);
    if p < |s| && cmp(key, s[p].0) < 0 {
      forall j | p <= j < |s| ensures cmp(key, s[j].0) < 0 {
        if p < j { assert cmp(s[p].0, s[j].0) < 0; }
      }
    }
  }

  lemma SortedDistinct<K(!new), V>(cmp: (K, K) -> int, domain: iset<K>, s: seq<(K, V)>)
    requires Lawful(cmp, domain) && Sorted(cmp, s) && KeysIn(s, domain)
    ensures forall j, k :: 0 <= j < k < |s| ==> s[j].0 != s[k].0
  {
  }

  /** The search finds exactly the keys of the map, and their values: stopping early misses nothing. */
  lemma LookupRefines<K(!new), V>(cmp: (K, K) -> int, domain: iset<K>, s: seq<(K, V)>, key: K)
    requires Lawful(cmp, domain) && Sorted(cmp, s) && KeysIn(s, domain) && key in domain
    ensures Looked(cmp, s, key) == Get(MapOf(s), key)
  {
    SearchFacts(cmp, domain, s, key);
    MapOfHas(s, key);
    if Found(cmp, s, key) {
      SortedDistinct(cmp, domain, s);
      MapOfAt(s, Position(cmp, s, key, 0));
    } else {
      KeyAbsent(cmp, domain, s, key, Position(cmp, s, key, 0));
    }
  }

  lemma KeyAbsent<K(!new), V>(cmp: (K, K) -> int, domain: iset<K>, s: seq<(K, V)>, key: K, p: nat)
    requires Lawful(cmp, domain) && KeysIn(s, domain) && key in domain && p <= |s|
    requires forall j :: 0 <= j < p ==> cmp(s[j].0, key) < 0
    requires forall j :: p <= j < |s| ==> cmp(key, s[j].0) < 0
    ensures forall j :: 0 <= j < |s| ==> s[j].0 != key
  {
    forall j | 0 <= j < |s| ensures s[j].0 != key {
      if j < p { assert cmp(s[j].0, key) < 0; } else { assert cmp(key, s[j].0) < 0; }
      assert cmp(key, key) == 0;
    }
  }

  // ---- insert and remove refine the map's update and removal

  lemma {:induction false} MapOfSplit<K(!new), V>(s: seq<(K, V)>, t: seq<(K, V)>)
    ensures MapOf(s + t) == MapOf(t) + MapOf(s)
  {
    if s == [] {
      assert s + t == t;
    } else {
      assert (s + t)[1..] == s[1..] + t;
      MapOfSplit(s[1..], t);
    }
  }

  lemma MapOfOne<K, V>(key: K, value: V)
    ensures MapOf([(key, value)]) == map[key := value]
  {
    assert [(key, value)][1..] == [];
  }

  /** Putting a pair between s and t, neither of which has the key. */
  lemma MapOfBetween<K(!new), V>(s: seq<(K, V)>, t: seq<(K, V)>, key: K, value: V)
    requires key !in MapOf(s) && key !in MapOf(t)
    ensures MapOf(s + [(key, value)] + t) == MapOf(s + t)[key := value]
    ensures MapOf(s + t) == MapOf(s + [(key, value)] + t) - {key}
  {
    hide MapOf;
    MapOfSplit(s + [(key, value)], t);
    MapOfSplit(s, [(key, value)]);
    MapOfSplit(s, t);
    MapOfOne(key, value);
    Overlay(MapOf(s), MapOf(t), key, value);
  }

  lemma Overlay<K(!new), V>(m: map<K, V>, n: map<K, V>, key: K, value: V)
    requires key !in m && key !in n
    ensures n + (map[key := value] + m) == (n + m)[key := value]
    ensures n + m == (n + m)[key := value] - {key}
  {
  }

  lemma NotInParts<K(!new), V>(s: seq<(K, V)>, key: K, p: nat, q: nat)
    requires p <= q <= |s|
    requires forall j :: 0 <= j < p ==> s[j].0 != key
    requires forall j :: q <= j < |s| ==> s[j].0 != key
    ensures key !in MapOf(s[..p]) && key !in MapOf(s[q..])
  {
    MapOfHas(s[..p], key);
    MapOfHas(s[q..], key);
  }

  /** The key is neither before the place where the search stops nor behind it. */
  lemma KeyElsewhere<K(!new), V>(cmp: (K, K) -> int, domain: iset<K>, s: seq<(K, V)>, key: K)
    requires Lawful(cmp, domain) && Sorted(cmp, s) && KeysIn(s, domain) && key in domain
    ensures var p := Position(cmp, s, key, 0);
      && p <= |s| && key !in MapOf(s[..p])
      && (if Found(cmp, s, key) then p < |s| && s[p].0 == key && key !in MapOf(s[p + 1..]) else key !in MapOf(s[p..]))
  {
    SearchFacts(cmp, domain, s, key);
    var p := Position(cmp, s, key, 0);
    if Found(cmp, s, key) {
      SortedDistinct(cmp, domain, s);
      NotInParts(s, key, p, p + 1);
    } else {
      KeyAbsent(cmp, domain, s, key, p);
      NotInParts(s, key, p, p);
    }
  }

  lemma SplitAt<K, V>(s: seq<(K, V)>, p: nat, value: V)
    requires p < |s|
    ensures s == s[..p] + [s[p]] + s[p + 1..]
    ensures s[p := (s[p].0, value)] == s[..p] + [(s[p].0, value)] + s[p + 1..]
  {
  }

  lemma InsertMeaning<K(!new), V>(cmp: (K, K) -> int, domain: iset<K>, s: seq<(K, V)>, key: K, value: V)
    requires Lawful(cmp, domain) && Sorted(cmp, s) && KeysIn(s, domain) && key in domain
    ensures MapOf(Inserted(cmp, s, key, value)) == MapOf(s)[key := value]
  {
    hide Found, Position, Lawful, Sorted, KeysIn, MapOf;
    KeyElsewhere(cmp, domain, s, key);
    var p := Position(cmp, s, key, 0);
    if Found(cmp, s, key) {
      SplitAt(s, p, value);
      MapOfBetween(s[..p], s[p + 1..], key, s[p].1);
      MapOfBetween(s[..p], s[p + 1..], key, value);
      assert s[p] == (key, s[p].1);
      assert MapOf(s)[key := value] == (MapOf(s) - {key})[key := value];
    } else {
      MapOfBetween(s[..p], s[p..], key, value);
      assert s == s[..p] + s[p..];
    }
  }

  lemma RemoveMeaning<K(!new), V>(cmp: (K, K) -> int, domain: iset<K>, s: seq<(K, V)>, key: K)
    requires Lawful(cmp, domain) && Sorted(cmp, s) && KeysIn(s, domain) && key in domain
    ensures MapOf(Removed(cmp, s, key)) == MapOf(s) - {key}
  {
    hide Found, Position, Lawful, Sorted, KeysIn, MapOf;
    KeyElsewhere(cmp, domain, s, key);
    var p := Position(cmp, s, key, 0);
    if Found(cmp, s, key) {
      SplitAt(s, p, s[p].1);
      MapOfBetween(s[..p], s[p + 1..], key, s[p].1);
      assert s[p] == (key, s[p].1);
    } else {
      MapOfSplit(s[..p], s[p..]);
      assert s == s[..p] + s[p..];
    }
  }

  lemma SortedBoth<K(!new), V>(cmp: (K, K) -> int, s: seq<(K, V)>, t: seq<(K, V)>)
    requires Sorted(cmp, s) && Sorted(cmp, t)
    requires forall i, j :: 0 <= i < |s| && 0 <= j < |t| ==> cmp(s[i].0, t[j].0) < 0
    ensures Sorted(cmp, s + t)
  {
    forall i, j | 0 <= i < j < |s + t| ensures cmp((s + t)[i].0, (s + t)[j].0) < 0 {
      if j < |s| {
        assert cmp(s[i].0, s[j].0) < 0;
      } else if i < |s| {
        assert cmp(s[i].0, t[j - |s|].0) < 0;
      } else {
        assert cmp(t[i - |s|].0, t[j - |s|].0) < 0;
      }
    }
  }

  lemma SortedPart<K(!new), V>(cmp: (K, K) -> int, s: seq<(K, V)>, p: nat, q: nat)
    requires Sorted(cmp, s) && p <= q <= |s|
    ensures Sorted(cmp, s[..p]) && Sorted(cmp, s[q..])
    ensures forall i, j :: 0 <= i < p && 0 <= j < |s| - q ==> cmp(s[..p][i].0, s[q..][j].0) < 0
  {
    forall i, j | 0 <= i < j < |s| - q ensures cmp(s[q..][i].0, s[q..][j].0) < 0 {
      assert cmp(s[q + i].0, s[q + j].0) < 0;
    }
    forall i, j | 0 <= i < p && 0 <= j < |s| - q ensures cmp(s[..p][i].0, s[q..][j].0) < 0 {
      assert cmp(s[i].0, s[q + j].0) < 0;
    }
  }

  lemma InsertSorted<K(!new), V>(cmp: (K, K) -> int, domain: iset<K>, s: seq<(K, V)>, key: K, value: V)
    requires Lawful(cmp, domain) && Sorted(cmp, s) && KeysIn(s, domain) && key in domain
    ensures Sorted(cmp, Inserted(cmp, s, key, value)) && KeysIn(Inserted(cmp, s, key, value), domain)
  {
    hide Position, Lawful, Found;
    SearchFacts(cmp, domain, s, key);
    var p := Position(cmp, s, key, 0);
    if !Found(cmp, s, key) {
      SortedPart(cmp, s, p, p);
      hide Sorted;
      SortedOne(cmp, key, value);
      SortedBoth(cmp, s[..p], [(key, value)]);
      SortedBoth(cmp, s[..p] + [(key, value)], s[p..]);
    }
  }

  lemma SortedOne<K(!new), V>(cmp: (K, K) -> int, key: K, value: V)
    ensures Sorted(cmp, [(key, value)])
  {
  }

  lemma RemoveSorted<K(!new), V>(cmp: (K, K) -> int, domain: iset<K>, s: seq<(K, V)>, key: K)
    requires Lawful(cmp, domain) && Sorted(cmp, s) && KeysIn(s, domain) && key in domain
    ensures Sorted(cmp, Removed(cmp, s, key)) && KeysIn(Removed(cmp, s, key), domain)
  {
    hide Position, Lawful, Found, Sorted;
    SearchFacts(cmp, domain, s, key);
    var p := Position(cmp, s, key, 0);
    if Found(cmp, s, key) {
      SortedPart(cmp, s, p, p + 1);
      SortedBoth(cmp, s[..p], s[p + 1..]);
    }
  }

  // ---- any sequence of operations

  datatype Operation<K, V> = Insert(key: K, value: V) | Remove(key: K)

  function Applied<K, V>(cmp: (K, K) -> int, s: seq<(K, V)>, op: Operation<K, V>): seq<(K, V)> {
    match op
    case Insert(key, value) => Inserted(cmp, s, key, value)
    case Remove(key) => Removed(cmp, s, key)
  }

  function Meant<K, V>(m: map<K, V>, op: Operation<K, V>): map<K, V> {
    match op
    case Insert(key, value) => m[key := value]
    case Remove(key) => m - {key}
  }

  function AppliedAll<K, V>(cmp: (K, K) -> int, s: seq<(K, V)>, ops: seq<Operation<K, V>>): seq<(K, V)>
    decreases |ops|
  {
    if ops == [] then s else AppliedAll(cmp, Applied(cmp, s, ops[0]), ops[1..])
  }

  function MeantAll<K, V>(m: map<K, V>, ops: seq<Operation<K, V>>): map<K, V>
    decreases |ops|
  {
    if ops == [] then m else MeantAll(Meant(m, ops[0]), ops[1..])
  }

  /** After any sequence of inserts and removes a lookup answers what the mathematical map would. */
  lemma {:induction false} OperationsRefine<K(!new), V>(cmp: (K, K) -> int, domain: iset<K>, s: seq<(K, V)>, ops: seq<Operation<K, V>>, key: K)
    requires Lawful(cmp, domain) && Sorted(cmp, s) && KeysIn(s, domain) && key in domain
    requires forall op <- ops :: op.key in domain
    ensures Looked(cmp, AppliedAll(cmp, s, ops), key) == Get(MeantAll(MapOf(s), ops), key)
    decreases |ops|
  {
    hide Lawful, Sorted, KeysIn, Inserted, Removed, Looked;
    if ops == [] {
      LookupRefines(cmp, domain, s, key);
    } else {
      var op := ops[0];
      assert op in ops;
      match op {
        case Insert(k, v) => InsertMeaning(cmp, domain, s, k, v); InsertSorted(cmp, domain, s, k, v);
        case Remove(k) => RemoveMeaning(cmp, domain, s, k); RemoveSorted(cmp, domain, s, k);
      }
      OperationsRefine(cmp, domain, Applied(cmp, s, op), ops[1..], key);
    }
  }
}
