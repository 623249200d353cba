/** The sorted maps of src/json_schema2/map.hpp.

    map<Key, Value, Size, Comp> holds Size pairs in a fixed array. The
    array is sorted in place by Comp when the map is built, and looked up
    with std::lower_bound. The comparator defaults to std::less<void>;
    the JSON parser builds its multi_type_maps with lex_comp (a
    lexicographic compare of the keys). Sorting applies it to whole
    pairs, so it compares the keys and then the values; lookup applies it
    to keys alone. Both relations are parameters here: `less` on keys and
    `vless` on values.

    multi_type_map holds keys of one type and values of many. Its Keys and
    Mapping are computed at compile time: Keys is sorted, and Mapping[j]
    is the original position of Keys[j]. The values are kept in their
    original order. Here the values share one Dafny type V.

    std::lower_bound is specified only on a range partitioned by the
    comparator, and there it returns the first element that is not
    below the key. LowerBound is that first element on any range.
    LowerBoundPartitioned shows that every later element of a sorted
    range is not below the key either. */
module KhctMap {
  import opened Basics
  import opened Sorting
  import opened KhctCommon

  /** A total order tells every two distinct elements apart. */
  ghost predicate Trichotomous<T(!new)>(less: (T, T) -> bool) {
    forall a, b :: a == b || less(a, b) || less(b, a)
  }

  // ---------------------------------------------------------------------
  // lower_bound

  /** The position of the first element that comp does not place below x. */
  function LowerBound<T, U>(s: seq<T>, x: U, comp: (T, U) -> bool): (r: nat)
    ensures r <= |s|
    ensures forall i :: 0 <= i < r ==> comp(s[i], x)
    ensures r < |s| ==> !comp(s[r], x)
  {
    if s == [] || !comp(s[0], x) then 0 else 1 + LowerBound(s[1..], x, comp)
  }

  /** On a range sorted by a strict weak order, no element from the lower
      bound on is below x: the standard's answer for a partitioned range. */
  lemma {:induction false} LowerBoundPartitioned<T(!new)>(s: seq<T>, x: T, less: (T, T) -> bool)
    requires StrictWeakOrder(less) && Sorted(s, less)
    ensures forall i :: LowerBound(s, x, less) <= i < |s| ==> !less(s[i], x)
  {
    var r := LowerBound(s, x, less);
    forall i | r < i < |s|
      ensures !less(s[i], x)
    {
      assert !less(s[i], s[r]) && !less(s[r], x);
    }
  }

  // ---------------------------------------------------------------------
  // map

  /** A map's values_ array: its pairs, in the order the map keeps them. */
  datatype Map<K, V> = Map(values: seq<(K, V)>)

  /** std::less<void> on two pairs: by key, then by value. */
  function PairLess<K, V>(less: (K, K) -> bool, vless: (V, V) -> bool): ((K, V), (K, V)) -> bool {
    (p: (K, V), q: (K, V)) => less(p.0, q.0) || (!less(q.0, p.0) && vless(p.1, q.1))
  }

  /** Comparing a stored pair's key with the key looked up. */
  function KeyBelow<K, V>(less: (K, K) -> bool): ((K, V), K) -> bool {
    (p: (K, V), k: K) => less(p.0, k)
  }

  /** Comparing pairs key first is a strict weak order when the orders on
      keys and on values are. */
  lemma {:induction false} PairLessOrder<K(!new), V(!new)>(less: (K, K) -> bool, vless: (V, V) -> bool)
    requires StrictWeakOrder(less) && StrictWeakOrder(vless)
    ensures StrictWeakOrder(PairLess(less, vless))
  {
    var pl := PairLess(less, vless);
    forall x: (K, V)
      ensures !pl(x, x)
    {
      assert !less(x.0, x.0) && !vless(x.1, x.1);
    }
    forall x: (K, V), y: (K, V), z: (K, V) | pl(x, y) && pl(y, z)
      ensures pl(x, z)
    {
      if !less(x.0, z.0) {
        assert !less(x.0, y.0) || !less(y.0, z.0);
      }
    }
    forall x: (K, V), y: (K, V), z: (K, V) | !pl(x, y) && !pl(y, z)
      ensures !pl(x, z)
    {
      assert !less(x.0, y.0) && !less(y.0, z.0);
      if less(y.0, x.0) {
        assert less(y.0, z.0) || less(z.0, x.0);
      } else if less(z.0, y.0) {
        assert less(z.0, x.0) || less(x.0, y.0);
      } else {
        assert !vless(x.1, y.1) && !vless(y.1, z.1);
      }
    }
  }

  /** The constructor (and make_map, which calls it): copy the pairs into
      the array, then sort the array in place. */
  method MakeMap<K, V>(init: seq<(K, V)>, less: (K, K) -> bool, vless: (V, V) -> bool) returns (m: Map<K, V>)
    ensures m.values == InsertionSort(init, PairLess(less, vless))
  {
    var values := new (K, V)[|init|](i requires 0 <= i < |init| => init[i]);
    assert values[..] == init;
    SortInPlace(values, PairLess(less, vless));
    m := Map(values[..]);
  }

  /** The map holds exactly the Size given pairs, sorted. */
  lemma {:induction false} MakeMapMeaning<K(!new), V(!new)>(init: seq<(K, V)>, less: (K, K) -> bool, vless: (V, V) -> bool)
    requires StrictWeakOrder(less) && StrictWeakOrder(vless)
    ensures Sorted(InsertionSort(init, PairLess(less, vless)), PairLess(less, vless))
    ensures multiset(InsertionSort(init, PairLess(less, vless))) == multiset(init)
  {
    PairLessOrder(less, vless);
    InsertionSortCorrect(init, PairLess(less, vless));
  }

  /** merge: the pairs of lhs, then those of rhs, in a map of size
      Size1 + Size2, sorted in place. */
  method Merge<K, V>(lhs: Map<K, V>, rhs: Map<K, V>, less: (K, K) -> bool, vless: (V, V) -> bool)
    returns (m: Map<K, V>)
    ensures m.values == InsertionSort(lhs.values + rhs.values, PairLess(less, vless))
  {
    var n1, n2 := |lhs.values|, |rhs.values|;
    var values := new (K, V)[n1 + n2](i requires 0 <= i < n1 + n2 =>
      if i < n1 then lhs.values[i] else rhs.values[i - n1]);
    assert values[..] == lhs.values + rhs.values;
    SortInPlace(values, PairLess(less, vless));
    m := Map(values[..]);
  }

  /** The merged map has Size1 + Size2 pairs: the multiset union of the
      two maps' pairs, sorted. */
  lemma {:induction false} MergeMeaning<K(!new), V(!new)>(lhs: Map<K, V>, rhs: Map<K, V>, less: (K, K) -> bool, vless: (V, V) -> bool)
    requires StrictWeakOrder(less) && StrictWeakOrder(vless)
    ensures |InsertionSort(lhs.values + rhs.values, PairLess(less, vless))| == |lhs.values| + |rhs.values|
    ensures Sorted(InsertionSort(lhs.values + rhs.values, PairLess(less, vless)), PairLess(less, vless))
    ensures multiset(InsertionSort(lhs.values + rhs.values, PairLess(less, vless)))
         == multiset(lhs.values) + multiset(rhs.values)
  {
    MakeMapMeaning(lhs.values + rhs.values, less, vless);
  }

  /** operator[]: the value of the lower bound's pair, with no check that
      its key is the key looked up; none only past the end. */
  function Lookup<K, V>(m: Map<K, V>, k: K, less: (K, K) -> bool): (r: Option<V>)
  {
    var i := LowerBound(m.values, k, KeyBelow(less));
    if i == |m.values| then None else Some(m.values[i].1)
  }

  /** Pairs sorted key first have their keys sorted. */
  lemma {:induction false} KeysSorted<K, V>(s: seq<(K, V)>, less: (K, K) -> bool, vless: (V, V) -> bool)
    requires Sorted(s, PairLess(less, vless))
    ensures forall i, j :: 0 <= i < j < |s| ==> !less(s[j].0, s[i].0)
  {
    forall i, j | 0 <= i < j < |s|
      ensures !less(s[j].0, s[i].0)
    {
      assert !PairLess(less, vless)(s[j], s[i]);
    }
  }

  /** Lookup gives none exactly when every stored key is below k. */
  lemma {:induction false} LookupNone<K, V>(m: Map<K, V>, k: K, less: (K, K) -> bool)
    ensures Lookup(m, k, less).None? <==> forall i :: 0 <= i < |m.values| ==> less(m.values[i].0, k)
  {
    var i := LowerBound(m.values, k, KeyBelow(less));
    assert i < |m.values| ==> !KeyBelow(less)(m.values[i], k);
  }

  /** In a sorted map, a stored key finds a pair with that key. */
  lemma {:induction false} LookupPresent<K(!new), V(!new)>(m: Map<K, V>, k: K, less: (K, K) -> bool, vless: (V, V) -> bool)
    requires StrictWeakOrder(less) && Trichotomous(less)
    requires Sorted(m.values, PairLess(less, vless))
    requires exists i :: 0 <= i < |m.values| && m.values[i].0 == k
    ensures Lookup(m, k, less).Some?
    ensures (k, Lookup(m, k, less).value) in m.values
  {
    var p :| 0 <= p < |m.values| && m.values[p].0 == k;
    KeysSorted(m.values, less, vless);
    var r := LowerBound(m.values, k, KeyBelow(less));
    assert !less(m.values[p].0, k);
    assert r <= p;
    assert !less(m.values[r].0, k);
    assert r < p ==> !less(m.values[p].0, m.values[r].0);
    assert m.values[r].0 == k;
  }

  /** The defect: in a sorted map, a key that is not stored but lies below
      some stored key gets the value of the least stored key above it. */
  lemma {:induction false} LookupNeighbour<K(!new), V(!new)>(m: Map<K, V>, k: K, less: (K, K) -> bool, vless: (V, V) -> bool)
    requires StrictWeakOrder(less) && Trichotomous(less)
    requires Sorted(m.values, PairLess(less, vless))
    requires forall i :: 0 <= i < |m.values| ==> m.values[i].0 != k
    requires exists i :: 0 <= i < |m.values| && less(k, m.values[i].0)
    ensures Lookup(m, k, less).Some?
    ensures exists j :: 0 <= j < |m.values| && less(k, m.values[j].0)
                     && Lookup(m, k, less).value == m.values[j].1
                     && forall i :: 0 <= i < |m.values| && less(k, m.values[i].0) ==> !less(m.values[i].0, m.values[j].0)
  {
    var p :| 0 <= p < |m.values| && less(k, m.values[p].0);
    KeysSorted(m.values, less, vless);
    var r := LowerBound(m.values, k, KeyBelow(less));
    assert !less(m.values[p].0, k);
    assert r <= p;
    assert !less(m.values[r].0, k);
    assert less(k, m.values[r].0);
    forall i | 0 <= i < |m.values| && less(k, m.values[i].0)
      ensures !less(m.values[i].0, m.values[r].0)
    {
      assert r <= i;
    }
  }

  /** A map of {3: 30, 1: 10} looks 2 up as 30. */
  lemma {:induction false} LookupNeighbourExample()
    ensures InsertionSort([(3, 30), (1, 10)], PairLess((a: int, b: int) => a < b, (a: int, b: int) => a < b))
         == [(1, 10), (3, 30)]
    ensures Lookup(Map([(1, 10), (3, 30)]), 2, (a: int, b: int) => a < b) == Some(30)
  {
    var less := (a: int, b: int) => a < b;
    assert InsertionSort([(3, 30)], PairLess(less, less)) == [(3, 30)];
    assert [(3, 30), (1, 10)][..1] == [(3, 30)];
    assert Lookup(Map([(1, 10), (3, 30)]), 2, less) == Some([(1, 10), (3, 30)][1].1) by {
      var s := [(1, 10), (3, 30)];
      assert KeyBelow(less)(s[0], 2);
      assert s[1..] == [(3, 30)];
      assert LowerBound(s[1..], 2, KeyBelow(less)) == 0;
    }
  }

  /** operator[] as evidently intended: none also when the lower bound's
      key is not the key looked up. */
  function LookupChecked<K(==), V>(m: Map<K, V>, k: K, less: (K, K) -> bool): (r: Option<V>)
  {
    var i := LowerBound(m.values, k, KeyBelow(less));
    if i == |m.values| || m.values[i].0 != k then None else Some(m.values[i].1)
  }

  /** In a sorted map the checked lookup finds exactly the stored keys, and
      yields a value stored with the key. */
  lemma {:induction false} LookupCheckedMeaning<K(!new), V(!new)>(m: Map<K, V>, k: K, less: (K, K) -> bool, vless: (V, V) -> bool)
    requires StrictWeakOrder(less) && Trichotomous(less)
    requires Sorted(m.values, PairLess(less, vless))
    ensures LookupChecked(m, k, less).Some? <==> exists i :: 0 <= i < |m.values| && m.values[i].0 == k
    ensures LookupChecked(m, k, less).Some? ==> (k, LookupChecked(m, k, less).value) in m.values
  {
    var r := LowerBound(m.values, k, KeyBelow(less));
    if exists i :: 0 <= i < |m.values| && m.values[i].0 == k {
      var p :| 0 <= p < |m.values| && m.values[p].0 == k;
      KeysSorted(m.values, less, vless);
      assert !less(m.values[p].0, k);
      assert r <= p;
      assert !less(m.values[r].0, k);
      assert r < p ==> !less(m.values[p].0, m.values[r].0);
      assert m.values[r].0 == k;
    }
  }

  /** The map {3: 30, 1: 10} has nothing for 2. */
  lemma {:induction false} LookupCheckedExample()
    ensures LookupChecked(Map([(1, 10), (3, 30)]), 2, (a: int, b: int) => a < b) == None
  {
    var less := (a: int, b: int) => a < b;
    var s := [(1, 10), (3, 30)];
    assert KeyBelow(less)(s[0], 2);
    assert s[1..] == [(3, 30)];
    assert LowerBound(s[1..], 2, KeyBelow(less)) == 0;
  }

  // ---------------------------------------------------------------------
  // multi_type_map

  /** multi_type_map's template arguments: Keys, Mapping and Values. */
  datatype MultiTypeMap<K, V> = MultiTypeMap(keys: seq<K>, mapping: seq<nat>, values: seq<V>)

  /** The requires clause sizeof...(Values) == Size, and every Mapping entry
      naming one of the values, as std::get<Mapping[index]> demands. */
  ghost predicate WellFormed<K, V>(m: MultiTypeMap<K, V>) {
    && |m.keys| == |m.mapping| == |m.values|
    && forall j :: 0 <= j < |m.mapping| ==> m.mapping[j] < |m.values|
  }

  /** size() and tuple_size: Size. */
  function Size<K, V>(m: MultiTypeMap<K, V>): nat {
    |m.keys|
  }

  /** 0, 1, ..., n - 1, as std::iota fills indexes. */
  function Iota(n: nat): (r: seq<nat>)
    ensures |r| == n && forall i :: 0 <= i < n ==> r[i] == i
  {
    seq(n, i requires 0 <= i < n => i)
  }

  /** The index comparator: indexes compare by the keys at those indexes. */
  function IndexLess<K>(keys: seq<K>, less: (K, K) -> bool): (nat, nat) -> bool {
    (a: nat, b: nat) => a < |keys| && b < |keys| && less(keys[a], keys[b])
  }

  function Keys<K, V>(pairs: seq<Pair<K, V>>): (r: seq<K>)
    ensures |r| == |pairs| && forall i :: 0 <= i < |pairs| ==> r[i] == pairs[i].first
  {
    seq(|pairs|, i requires 0 <= i < |pairs| => pairs[i].first)
  }

  function Values<K, V>(pairs: seq<Pair<K, V>>): (r: seq<V>)
    ensures |r| == |pairs| && forall i :: 0 <= i < |pairs| ==> r[i] == pairs[i].second
  {
    seq(|pairs|, i requires 0 <= i < |pairs| => pairs[i].second)
  }

  /** What make_multi_type_map returns: the keys sorted, the indexes sorted
      by their keys, and the values in their original order. */
  function Built<K, V>(pairs: seq<Pair<K, V>>, less: (K, K) -> bool): MultiTypeMap<K, V> {
    MultiTypeMap(InsertionSort(Keys(pairs), less),
                 InsertionSort(Iota(|pairs|), IndexLess(Keys(pairs), less)),
                 Values(pairs))
  }

  /** make_multi_type_map: fill indexes with iota and copy the keys, sort
      the indexes by their keys, then sort the keys. */
  method MakeMultiTypeMap<K, V>(pairs: seq<Pair<K, V>>, less: (K, K) -> bool) returns (m: MultiTypeMap<K, V>)
    ensures m == Built(pairs, less)
  {
    var n := |pairs|;
    var indexes := new nat[n](i requires 0 <= i < n => i);
    var keys := new K[n](i requires 0 <= i < n => pairs[i].first);
    assert indexes[..] == Iota(n);
    assert keys[..] == Keys(pairs);
    var original := keys[..];
    SortInPlace(indexes, IndexLess(original, less));
    SortInPlace(keys, less);
    m := MultiTypeMap(keys[..], indexes[..], Values(pairs));
  }

  /** The keys looked up through an index, with a fallback outside the range. */
  function KeyAt<K>(keys: seq<K>, fallback: K): nat -> K {
    (i: nat) => if i < |keys| then keys[i] else fallback
  }

  /** Keys is sorted and holds the original keys; Mapping is a permutation
      of 0..n-1; Keys[j] is the original key at Mapping[j]. */
  lemma {:induction false} BuiltMeaning<K(!new), V>(pairs: seq<Pair<K, V>>, less: (K, K) -> bool)
    requires StrictWeakOrder(less)
    ensures Sorted(Built(pairs, less).keys, less)
    ensures multiset(Built(pairs, less).keys) == multiset(Keys(pairs))
    ensures multiset(Built(pairs, less).mapping) == multiset(Iota(|pairs|))
    ensures WellFormed(Built(pairs, less))
    ensures forall j :: 0 <= j < |pairs| ==> Built(pairs, less).keys[j] == pairs[Built(pairs, less).mapping[j]].first
  {
    var m := Built(pairs, less);
    var n := |pairs|;
    InsertionSortCorrect(Keys(pairs), less);
    InsertionSortPermutes(Iota(n), IndexLess(Keys(pairs), less));
    forall j | 0 <= j < n
      ensures m.mapping[j] < n
    {
      assert m.mapping[j] in multiset(Iota(n));
    }
    if n > 0 {
      var f := KeyAt(Keys(pairs), pairs[0].first);
      InsertionSortApply(f, Iota(n), IndexLess(Keys(pairs), less), less);
      assert Apply(f, Iota(n)) == Keys(pairs);
      forall j | 0 <= j < n
        ensures m.keys[j] == pairs[m.mapping[j]].first
      {
        assert Apply(f, m.mapping)[j] == f(m.mapping[j]);
      }
    }
  }

  /** get_key<K>: nil when the lower bound is past the end or its key is
      not K; otherwise the value at Mapping[index]. */
  function GetKey<K(==), V>(m: MultiTypeMap<K, V>, k: K, less: (K, K) -> bool): (r: NilOr<V>)
    requires WellFormed(m)
  {
    var j := LowerBound(m.keys, k, less);
    if j == |m.keys| || m.keys[j] != k then Nil else Other(m.values[m.mapping[j]])
  }

  /** get_key finds exactly the keys that were given, and yields a value
      that was given with that key. */
  lemma {:induction false} GetKeyMeaning<K(!new), V>(pairs: seq<Pair<K, V>>, k: K, less: (K, K) -> bool)
    requires StrictWeakOrder(less) && Trichotomous(less)
    ensures WellFormed(Built(pairs, less))
    ensures GetKey(Built(pairs, less), k, less).Nil? <==> k !in Keys(pairs)
    ensures GetKey(Built(pairs, less), k, less).Other? ==>
              Pair(k, GetKey(Built(pairs, less), k, less).value) in pairs
  {
    var m := Built(pairs, less);
    BuiltMeaning(pairs, less);
    var j := LowerBound(m.keys, k, less);
    if k in Keys(pairs) {
      assert k in multiset(m.keys);
      var p :| 0 <= p < |m.keys| && m.keys[p] == k;
      LowerBoundPartitioned(m.keys, k, less);
      assert j <= p;
      assert j < p ==> !less(m.keys[p], m.keys[j]);
      assert m.keys[j] == k;
      assert pairs[m.mapping[j]] == Pair(k, m.values[m.mapping[j]]);
    } else if j < |m.keys| {
      assert m.keys[j] in multiset(Keys(pairs));
    }
  }

  /** get<I>: the key at Mapping[I] beside the I-th value; an index past
      the end does not compile. */
  function Get<K, V>(m: MultiTypeMap<K, V>, i: nat): (r: Option<Pair<K, V>>)
    requires WellFormed(m)
    ensures r.Some? <==> i < Size(m)
  {
    if i < |m.values| then Some(Pair(m.keys[m.mapping[i]], m.values[i])) else None
  }

  /** get<I> gives back the I-th pair when Mapping is its own inverse. */
  lemma {:induction false} GetWhenSelfInverse<K(!new), V>(pairs: seq<Pair<K, V>>, less: (K, K) -> bool)
    requires StrictWeakOrder(less)
    requires forall j :: 0 <= j < |pairs| ==>
      Built(pairs, less).mapping[j] < |pairs| && Built(pairs, less).mapping[Built(pairs, less).mapping[j]] == j
    ensures WellFormed(Built(pairs, less))
    ensures forall i: nat :: i < |pairs| ==> Get(Built(pairs, less), i) == Some(pairs[i])
  {
    BuiltMeaning(pairs, less);
  }

  /** A permutation of at most two indexes is its own inverse. */
  lemma {:induction false} SmallPermutationSelfInverse(mapping: seq<nat>)
    requires |mapping| <= 2 && multiset(mapping) == multiset(Iota(|mapping|))
    ensures forall j :: 0 <= j < |mapping| ==> mapping[j] < |mapping| && mapping[mapping[j]] == j
  {
    if |mapping| == 1 {
      assert mapping[0] in multiset(Iota(1));
    } else if |mapping| == 2 {
      assert mapping == [0, 1] || mapping == [1, 0] by {
        TwoPermutations(mapping);
      }
    }
  }

  lemma {:induction false} TwoPermutations(mapping: seq<nat>)
    requires |mapping| == 2 && multiset(mapping) == multiset(Iota(2))
    ensures mapping == [0, 1] || mapping == [1, 0]
  {
    assert Iota(2) == [0, 1];
    assert multiset(mapping) == multiset{mapping[0], mapping[1]} by {
      assert mapping == [mapping[0]] + [mapping[1]];
    }
    TwoDistinct(mapping[0], mapping[1]);
  }

  lemma {:induction false} TwoDistinct(a: nat, b: nat)
    requires multiset{a, b} == multiset{0, 1}
    ensures a != b && a <= 1 && b <= 1
  {
    assert a in multiset{0, 1} && b in multiset{0, 1};
    assert multiset{a, b}[a] == (if a == b then 2 else 1);
  }

  /** With at most two keys get<I> gives back the I-th pair. */
  lemma {:induction false} GetSmallMaps<K(!new), V>(pairs: seq<Pair<K, V>>, less: (K, K) -> bool)
    requires StrictWeakOrder(less) && |pairs| <= 2
    ensures WellFormed(Built(pairs, less))
    ensures forall i: nat :: i < |pairs| ==> Get(Built(pairs, less), i) == Some(pairs[i])
  {
    BuiltMeaning(pairs, less);
    SmallPermutationSelfInverse(Built(pairs, less).mapping);
    GetWhenSelfInverse(pairs, less);
  }

  /** Keys c, a, b: Keys is a, b, c and Mapping is 1, 2, 0, so get<0> pairs
      "b" with the value given for "c". */
  lemma {:induction false} GetMisPairs()
    ensures Built([Pair("c", 1), Pair("a", 2), Pair("b", 3)], LexLess) == MultiTypeMap(["a", "b", "c"], [1, 2, 0], [1, 2, 3])
    ensures Get(MultiTypeMap(["a", "b", "c"], [1, 2, 0], [1, 2, 3]), 0) == Some(Pair("b", 1))
  {
    var pairs := [Pair("c", 1), Pair("a", 2), Pair("b", 3)];
    var ks := Keys(pairs);
    assert ks == ["c", "a", "b"];
    assert LexLess("a", "c") && LexLess("b", "c") && LexLess("a", "b");
    assert !LexLess("c", "a") && !LexLess("c", "b") && !LexLess("b", "a");
    assert ks[..2] == ["c", "a"] && ks[..2][..1] == ["c"];
    assert InsertionSort(["c"], LexLess) == ["c"];
    assert InsertionSort(["c", "a"], LexLess) == ["a", "c"];
    assert Insert("b", ["a", "c"], LexLess) == ["a", "b", "c"] by {
      assert ["a", "c"][..1] == ["a"];
    }
    var il := IndexLess(ks, LexLess);
    var io := Iota(3);
    assert io == [0, 1, 2];
    assert io[..2] == [0, 1] && io[..2][..1] == [0];
    assert il(1, 0) && il(2, 0) && il(1, 2) && !il(0, 1) && !il(0, 2) && !il(2, 1);
    assert InsertionSort<nat>([0], il) == [0];
    assert InsertionSort<nat>([0, 1], il) == [1, 0];
    assert Insert<nat>(2, [1, 0], il) == [1, 2, 0] by {
      assert [1, 0][..1] == [1];
    }
    assert Values(pairs) == [1, 2, 3];
  }

  /** The first position at which s holds x. */
  function IndexOf(s: seq<nat>, x: nat): (j: nat)
    requires x in s
    ensures j < |s| && s[j] == x
    ensures forall i :: 0 <= i < j ==> s[i] != x
  {
    if s[0] == x then 0 else 1 + IndexOf(s[1..], x)
  }

  /** get<I> as evidently intended: the I-th value beside the key whose
      Mapping entry is I, that is, through the inverse of Mapping. */
  function GetByInverse<K, V>(m: MultiTypeMap<K, V>, i: nat): (r: Option<Pair<K, V>>)
    requires WellFormed(m)
    ensures r.Some? ==> i < Size(m) && i in m.mapping
  {
    if i < |m.values| && i in m.mapping then Some(Pair(m.keys[IndexOf(m.mapping, i)], m.values[i])) else None
  }

  /** For every number of pairs, get<I> through the inverse gives back the
      I-th pair. */
  lemma {:induction false} GetByInverseBuilt<K(!new), V>(pairs: seq<Pair<K, V>>, less: (K, K) -> bool)
    requires StrictWeakOrder(less)
    ensures WellFormed(Built(pairs, less))
    ensures forall i: nat :: i < |pairs| ==> GetByInverse(Built(pairs, less), i) == Some(pairs[i])
  {
    var m := Built(pairs, less);
    BuiltMeaning(pairs, less);
    forall i: nat | i < |pairs|
      ensures GetByInverse(m, i) == Some(pairs[i])
    {
      assert Iota(|pairs|)[i] == i;
      assert i in multiset(m.mapping);
      var j := IndexOf(m.mapping, i);
      assert m.keys[j] == pairs[i].first;
    }
  }

  /** size() and tuple_size are the number of pairs. */
  lemma {:induction false} SizeMeaning<K, V>(pairs: seq<Pair<K, V>>, less: (K, K) -> bool)
    ensures Size(Built(pairs, less)) == |pairs|
  {
  }
}
