/** The value-level utilities of src/json_schema2/common.hpp: nil, a pair
    usable as a template argument, indexing into a pack, and a tuple with
    indexed access, concatenation and element-wise cross-type equality.
    The library's values have many C++ types; here a tuple's elements share
    one Dafny type T, and comparing two elements is a parameter `eq`
    standing for the element types' own operator==. An index out of range,
    which is a compile-time error in the source, is None. */
module KhctCommon {
  import opened Basics

  // ---------------------------------------------------------------------
  // nil

  /** A value of type nil_t, or of some other type. */
  datatype NilOr<T> = Nil | Other(value: T)

  /** operator== with nil on either side: nil equals nil and nothing else;
      two other values compare by their own ==. */
  function NilEqual<T>(a: NilOr<T>, b: NilOr<T>, eq: (T, T) -> bool): (r: bool)
    ensures a.Nil? && b.Nil? ==> r
    ensures a.Nil? != b.Nil? ==> !r
  {
    match (a, b)
    case (Nil, Nil) => true
    case (Other(x), Other(y)) => eq(x, y)
    case _ => false
  }

  /** The three overloads agree in either order. */
  lemma {:induction false} NilEqualSymmetric<T>(a: NilOr<T>, b: NilOr<T>, eq: (T, T) -> bool)
    requires forall x, y :: eq(x, y) == eq(y, x)
    ensures NilEqual(a, b, eq) == NilEqual(b, a, eq)
  {
  }

  // ---------------------------------------------------------------------
  // pair

  datatype Pair<A, B> = Pair(first: A, second: B)

  /** What pair::get<I>() yields: first, second, or the throw that ends
      constant evaluation. */
  datatype Member<A, B> = First(a: A) | Second(b: B) | InvalidIndex

  function PairGet<A, B>(p: Pair<A, B>, i: nat): (r: Member<A, B>)
    ensures i == 0 <==> r == First(p.first)
    ensures i == 1 <==> r == Second(p.second)
    ensures i >= 2 <==> r.InvalidIndex?
  {
    if i == 0 then First(p.first) else if i == 1 then Second(p.second) else InvalidIndex
  }

  // ---------------------------------------------------------------------
  // get_at_index and tuple

  /** get_at_index<I, First, Rest...>(): First when I is 0, otherwise the
      same on Rest with I - 1; an empty pack has no First. */
  function GetAtIndex<T>(pack: seq<T>, i: nat): (r: Option<T>)
    ensures r.Some? <==> i < |pack|
    ensures r.Some? ==> r.value == pack[i]
  {
    if pack == [] then None
    else if i == 0 then Some(pack[0])
    else GetAtIndex(pack[1..], i - 1)
  }

  /** khct::tuple<Ts...>, built from its constructor arguments. */
  datatype Tuple<T> = Tuple(elems: seq<T>)

  /** tuple::size: sizeof...(Ts). */
  function Size<T>(t: Tuple<T>): nat {
    |t.elems|
  }

  /** get<I>(t): the base holding index I, found with get_at_index. */
  function Get<T>(t: Tuple<T>, i: nat): Option<T> {
    GetAtIndex(t.elems, i)
  }

  /** The tuple's size is its argument count and get<I> gives back the I-th
      constructor argument. */
  lemma {:induction false} TupleMeaning<T>(args: seq<T>)
    ensures Size(Tuple(args)) == |args|
    ensures forall i: nat :: i < |args| ==> Get(Tuple(args), i) == Some(args[i])
    ensures forall i: nat :: i >= |args| ==> Get(Tuple(args), i).None?
  {
  }

  /** tuple_cat(t1, t2): a tuple built from t1.get<Is1>()... then
      t2.get<Is2>()... */
  function TupleCat<T>(t1: Tuple<T>, t2: Tuple<T>): (r: Tuple<T>)
    ensures Size(r) == Size(t1) + Size(t2)
  {
    Tuple(seq(Size(t1) + Size(t2), i requires 0 <= i < Size(t1) + Size(t2) =>
      if i < Size(t1) then Get(t1, i).value else Get(t2, i - Size(t1)).value))
  }

  /** Element I of the concatenation comes from t1 below t1's size and is
      t2's element I - n1 after it: the concatenation of the elements. */
  lemma {:induction false} TupleCatMeaning<T>(t1: Tuple<T>, t2: Tuple<T>)
    ensures forall i: nat :: i < Size(t1) ==> Get(TupleCat(t1, t2), i) == Get(t1, i)
    ensures forall i: nat :: Size(t1) <= i ==> Get(TupleCat(t1, t2), i) == Get(t2, i - Size(t1))
    ensures TupleCat(t1, t2).elems == t1.elems + t2.elems
  {
    var r := TupleCat(t1, t2);
    assert forall i :: 0 <= i < Size(t1) ==> r.elems[i] == t1.elems[i];
    forall i | Size(t1) <= i < Size(r)
      ensures r.elems[i] == t2.elems[i - Size(t1)]
    {
      assert Get(t2, i - Size(t1)) == GetAtIndex(t2.elems, i - Size(t1));
    }
  }

  /** The cross-type operator==: it exists only for tuples of one arity,
      and is the conjunction of the elements' == from left to right. */
  function TupleEqual<T>(a: Tuple<T>, b: Tuple<T>, eq: (T, T) -> bool): (r: Option<bool>)
    ensures r.Some? <==> Size(a) == Size(b)
  {
    if Size(a) != Size(b) then None else Some(AllEqual(a.elems, b.elems, eq))
  }

  /** The fold ((a0 == b0) && ... && (an == bn)). */
  function AllEqual<T>(a: seq<T>, b: seq<T>, eq: (T, T) -> bool): bool
    requires |a| == |b|
  {
    if a == [] then true else eq(a[0], b[0]) && AllEqual(a[1..], b[1..], eq)
  }

  /** Tuples of one arity are equal exactly when every pair of elements at
      the same index is. */
  lemma {:induction false} AllEqualMeaning<T>(a: seq<T>, b: seq<T>, eq: (T, T) -> bool)
    requires |a| == |b|
    ensures AllEqual(a, b, eq) <==> forall i :: 0 <= i < |a| ==> eq(a[i], b[i])
  {
    if a != [] {
      AllEqualMeaning(a[1..], b[1..], eq);
      if AllEqual(a[1..], b[1..], eq) && eq(a[0], b[0]) {
        forall i | 0 <= i < |a|
          ensures eq(a[i], b[i])
        {
          if i > 0 {
            assert a[1..][i - 1] == a[i] && b[1..][i - 1] == b[i];
          }
        }
      }
    }
  }

  lemma {:induction false} TupleEqualMeaning<T>(a: Tuple<T>, b: Tuple<T>, eq: (T, T) -> bool)
    requires Size(a) == Size(b)
    ensures TupleEqual(a, b, eq) == Some(forall i :: 0 <= i < Size(a) ==> eq(a.elems[i], b.elems[i]))
  {
    AllEqualMeaning(a.elems, b.elems, eq);
  }
}
