/** fixed_string<N> of src/common.hpp: N characters of storage, used as a
    template argument. A string literal of n characters gives N = n + 1,
    the last one the terminator. Equality compares all N stored characters;
    view() reads up to the first '\0'. */
module FixedString {
  import opened Basics

  datatype FixedStr = FixedStr(storage: seq<char>)

  /** size(): N, the terminator included. */
  function Size(f: FixedStr): nat {
    |f.storage|
  }

  /** N characters '\0'. */
  function Zeros(n: nat): (r: seq<char>)
    ensures |r| == n && forall k :: 0 <= k < n ==> r[k] == '\0'
  {
    seq(n, _ => '\0')
  }

  /** The fixed_string a string literal makes: its characters, then '\0'. */
  function Lit(s: string): FixedStr {
    FixedStr(s + ['\0'])
  }

  /** view(): string_view from the array, which stops at the first '\0';
      one must be there. */
  function View(f: FixedStr): (v: string)
    requires '\0' in f.storage
    ensures |v| < Size(f) && v == f.storage[..|v|] && f.storage[|v|] == '\0' && '\0' !in v
  {
    f.storage[..CStrLen(f.storage)]
  }

  // ---------------------------------------------------------------------
  // Constructors and widening, each filling an array as the source does

  /** The default constructor: std::ranges::fill with '\0'. */
  method Default(n: nat) returns (f: FixedStr)
    ensures f.storage == Zeros(n)
  {
    var storage := new char[n];
    var i := 0;
    while i < n
      invariant 0 <= i <= n
      invariant storage[..i] == Zeros(i)
    {
      storage[i] := '\0';
      i := i + 1;
    }
    f := FixedStr(storage[..]);
  }

  /** The range constructor: delegates to the default one, then copies the
      range to the front. Copying more than N characters overruns the
      storage, which constant evaluation rejects. */
  method FromRange(n: nat, r: seq<char>) returns (f: FixedStr)
    requires |r| <= n
    ensures f.storage == r + Zeros(n - |r|)
  {
    var zeros := Default(n);
    var storage := new char[n];
    CopyTo(storage, 0, zeros.storage);
    CopyTo(storage, 0, r);
    f := FixedStr(storage[..]);
    assert f.storage == r + Zeros(n - |r|);
  }

  /** Widening to fixed_string<toSize>: a default one of the new size with
      the old storage copied to its front. Only larger sizes convert. */
  method Widen(f: FixedStr, toSize: nat) returns (w: FixedStr)
    requires toSize > Size(f)
    ensures w == Widened(f, toSize)
  {
    w := FromRange(toSize, f.storage);
  }

  function Widened(f: FixedStr, toSize: nat): (w: FixedStr)
    requires toSize >= Size(f)
  {
    FixedStr(f.storage + Zeros(toSize - Size(f)))
  }

  /** std::ranges::copy of `src` into `dst` from index `at`; the rest of
      `dst` keeps its content. */
  method CopyTo(dst: array<char>, at: nat, src: seq<char>)
    requires at + |src| <= dst.Length
    modifies dst
    ensures dst[..] == old(dst[..])[..at] + src + old(dst[..])[at + |src|..]
  {
    ghost var before := dst[..];
    var j := 0;
    while j < |src|
      invariant 0 <= j <= |src|
      invariant dst[..] == before[..at] + src[..j] + before[at + j..]
    {
      dst[at + j] := src[j];
      assert src[..j + 1] == src[..j] + [src[j]];
      j := j + 1;
    }
    assert src[..|src|] == src;
  }

  /** Widening keeps the view. */
  lemma {:induction false} WidenedView(f: FixedStr, toSize: nat)
    requires '\0' in f.storage && toSize >= Size(f)
    ensures '\0' in Widened(f, toSize).storage && View(Widened(f, toSize)) == View(f)
  {
    var w := Widened(f, toSize);
    var n := CStrLen(f.storage);
    assert w.storage[n] == '\0';
    assert forall k :: 0 <= k < n ==> w.storage[k] == f.storage[k];
  }

  // ---------------------------------------------------------------------
  // Comparison

  /** The defaulted operator==, between two fixed_strings of one size. */
  function Equal(a: FixedStr, b: FixedStr): bool
    requires Size(a) == Size(b)
  {
    forall k :: 0 <= k < Size(a) ==> a.storage[k] == b.storage[k]
  }

  /** `a == b` for any two sizes: the hidden friend of the larger type is
      found, and the smaller operand widens to it. */
  function CrossEqual(a: FixedStr, b: FixedStr): bool {
    if Size(a) == Size(b) then Equal(a, b)
    else if Size(a) < Size(b) then Equal(Widened(a, Size(b)), b)
    else Equal(a, Widened(b, Size(a)))
  }

  /** Equal compares storage, not views: the same text with more padding is
      a different value, unlike string<N> in the schema library. */
  lemma {:induction false} EqualIsStorage(a: FixedStr, b: FixedStr)
    requires Size(a) == Size(b)
    ensures Equal(a, b) <==> a == b
  {
    if Equal(a, b) {
      assert a.storage == b.storage;
    }
  }

  lemma {:induction false} PaddingMatters()
    ensures Size(Lit("ab")) == Size(FixedStr("ab\0\0")) - 1
    ensures View(FixedStr("ab\0\0")) == View(Lit("ab"))
    ensures !Equal(FixedStr("ab\0\0"), FixedStr("ab\0b"))
    ensures View(FixedStr("ab\0\0")) == View(FixedStr("ab\0b"))
  {
    assert CStrLen("ab\0\0") == 2;
    assert CStrLen("ab\0b") == 2;
    assert CStrLen("ab\0") == 2;
    assert FixedStr("ab\0\0").storage[3] != FixedStr("ab\0b").storage[3];
  }

  /** For literals, == of any two sizes is equality of the text. */
  lemma {:induction false} CrossEqualLiterals(s: string, t: string)
    requires '\0' !in s && '\0' !in t
    ensures CrossEqual(Lit(s), Lit(t)) <==> s == t
  {
    var a, b := Lit(s), Lit(t);
    if |s| < |t| {
      assert Widened(a, Size(b)).storage[|s|] == '\0' != t[|s|] == b.storage[|s|];
    } else if |t| < |s| {
      assert a.storage[|t|] == s[|t|] != '\0' == Widened(b, Size(a)).storage[|t|];
    } else if Equal(a, b) {
      assert forall k :: 0 <= k < |s| ==> s[k] == a.storage[k] == b.storage[k] == t[k];
    }
  }

  // ---------------------------------------------------------------------
  // shrink_fixed_string, make_uniform_fixed_strings, append_fixed_strings

  /** shrink_fixed_string: storage up to and including the first '\0'.
      Without one the span would reach past the end. */
  function Shrink(f: FixedStr): (r: FixedStr)
    requires '\0' in f.storage
    ensures '\0' in r.storage && Size(r) == CStrLen(f.storage) + 1 && View(r) == View(f)
  {
    var end := CStrLen(f.storage);
    var r := FixedStr(f.storage[..end + 1]);
    assert r.storage[end] == '\0';
    assert forall k :: 0 <= k < end ==> r.storage[k] == f.storage[k];
    r
  }

  function MaxSize(strs: seq<FixedStr>): (m: nat)
    ensures forall i :: 0 <= i < |strs| ==> Size(strs[i]) <= m
    ensures strs != [] ==> exists i :: 0 <= i < |strs| && Size(strs[i]) == m
  {
    if strs == [] then 0
    else
      var rest := MaxSize(strs[1..]);
      assert forall i :: 1 <= i < |strs| ==> strs[i] == strs[1..][i - 1];
      if Size(strs[0]) >= rest then Size(strs[0]) else rest
  }

  /** make_uniform_fixed_strings: every string widened to the largest size,
      in order. std::ranges::max of no sizes is undefined. */
  function MakeUniform(strs: seq<FixedStr>): (r: seq<FixedStr>)
    requires strs != []
    ensures |r| == |strs|
    ensures forall i :: 0 <= i < |r| ==> Size(r[i]) == MaxSize(strs) && r[i] == Widened(strs[i], MaxSize(strs))
  {
    var m := MaxSize(strs);
    seq(|strs|, i requires 0 <= i < |strs| => Widened(strs[i], m))
  }

  lemma {:induction false} MakeUniformViews(strs: seq<FixedStr>)
    requires strs != [] && forall i :: 0 <= i < |strs| ==> '\0' in strs[i].storage
    ensures forall i :: 0 <= i < |strs| ==>
      '\0' in MakeUniform(strs)[i].storage && View(MakeUniform(strs)[i]) == View(strs[i])
  {
    forall i | 0 <= i < |strs|
      ensures '\0' in MakeUniform(strs)[i].storage && View(MakeUniform(strs)[i]) == View(strs[i])
    {
      WidenedView(strs[i], MaxSize(strs));
    }
  }

  function SumSizes(strs: seq<FixedStr>): nat {
    if strs == [] then 0 else Size(strs[0]) + SumSizes(strs[1..])
  }

  function ConcatViews(strs: seq<FixedStr>): string
    requires forall i :: 0 <= i < |strs| ==> '\0' in strs[i].storage
  {
    if strs == [] then [] else View(strs[0]) + ConcatViews(strs[1..])
  }

  /** What append_fixed_strings returns: the views one after another, then
      '\0' up to the size sum(N) - count + 1. */
  function Appended(strs: seq<FixedStr>): (r: FixedStr)
    requires strs != [] && forall i :: 0 <= i < |strs| ==> '\0' in strs[i].storage
    ensures Size(r) == SumSizes(strs) - |strs| + 1
    ensures '\0' in r.storage && View(r) == ConcatViews(strs)
  {
    ViewsFit(strs);
    NoTerminatorInViews(strs);
    var text := ConcatViews(strs);
    var size := SumSizes(strs) - |strs| + 1;
    PaddedView(text, size - |text|, FixedStr(text + Zeros(size - |text|)));
    FixedStr(text + Zeros(size - |text|))
  }

  /** Two strings appended: the two views, then '\0' up to the size N1 + N2 - 1. */
  lemma {:induction false} AppendedTwo(a: FixedStr, b: FixedStr)
    requires '\0' in a.storage && '\0' in b.storage
    ensures Appended([a, b]).storage == View(a) + View(b) + Zeros(Size(a) + Size(b) - 1 - |View(a)| - |View(b)|)
  {
    var strs := [a, b];
    assert strs[1..] == [b] && strs[1..][1..] == [];
    assert ConcatViews(strs[1..][1..]) == [];
    assert ConcatViews(strs[1..]) == View(b) + [];
    assert ConcatViews(strs) == View(a) + (View(b) + []);
    assert SumSizes(strs[1..][1..]) == 0;
    assert SumSizes(strs[1..]) == Size(b) + 0;
    assert SumSizes(strs) == Size(a) + (Size(b) + 0);
    assert View(a) + (View(b) + []) == View(a) + View(b);
  }

  /** append_fixed_strings: a zero-filled string of size sum(N) - count + 1
      into which each view is copied after the previous one. The fold over
      no sizes does not compile. */
  method AppendFixedStrings(strs: seq<FixedStr>) returns (toRet: FixedStr)
    requires strs != [] && forall i :: 0 <= i < |strs| ==> '\0' in strs[i].storage
    ensures toRet == Appended(strs)
    ensures Size(toRet) == SumSizes(strs) - |strs| + 1
    ensures '\0' in toRet.storage && View(toRet) == ConcatViews(strs)
  {
    ViewsFit(strs);
    ghost var text := ConcatViews(strs);
    var size := SumSizes(strs) - |strs| + 1;
    var zeros := Default(size);
    var storage := Storage(zeros);
    var uniform := MakeUniform(strs);
    MakeUniformViews(strs);
    WriteViews(storage, uniform, strs);
    toRet := FixedStr(storage[..]);
    NoTerminatorInViews(strs);
    PaddedView(text, size - |text|, toRet);
  }

  /** The mutable storage of a fixed_string: a fresh array holding its characters. */
  method Storage(f: FixedStr) returns (a: array<char>)
    ensures fresh(a) && a[..] == f.storage
  {
    a := new char[|f.storage|];
    CopyTo(a, 0, f.storage);
  }

  /** A text without '\0' followed by at least one '\0' is the view. */
  lemma {:induction false} PaddedView(v: string, pad: nat, f: FixedStr)
    requires '\0' !in v && pad > 0 && f.storage == v + Zeros(pad)
    ensures '\0' in f.storage && View(f) == v
  {
    TerminatedView(v, pad);
  }

  /** The loop of append_fixed_strings: each view copied where the last ended. */
  method WriteViews(storage: array<char>, uniform: seq<FixedStr>, strs: seq<FixedStr>)
    requires |uniform| == |strs| && forall i :: 0 <= i < |strs| ==> '\0' in strs[i].storage
    requires forall i :: 0 <= i < |strs| ==> '\0' in uniform[i].storage && View(uniform[i]) == View(strs[i])
    requires storage[..] == Zeros(storage.Length) && |ConcatViews(strs)| <= storage.Length
    modifies storage
    ensures storage[..] == ConcatViews(strs) + Zeros(storage.Length - |ConcatViews(strs)|)
  {
    var size := storage.Length;
    var writeLoc := 0;
    var i := 0;
    assert storage[..] == ConcatViews(strs[..0]) + Zeros(size);
    while i < |uniform|
      invariant 0 <= i <= |uniform|
      invariant writeLoc == |ConcatViews(strs[..i])| <= |ConcatViews(strs)|
      invariant storage[..] == ConcatViews(strs[..i]) + Zeros(size - writeLoc)
    {
      writeLoc := WriteView(storage, uniform[i], strs, i, writeLoc);
      i := i + 1;
    }
    assert strs[..|strs|] == strs;
  }

  /** One turn of that loop: the view of strs[i] copied to writeLoc. */
  method WriteView(storage: array<char>, u: FixedStr, strs: seq<FixedStr>, i: nat, writeLoc: nat)
    returns (next: nat)
    requires i < |strs| && forall j :: 0 <= j < |strs| ==> '\0' in strs[j].storage
    requires '\0' in u.storage && View(u) == View(strs[i])
    requires writeLoc == |ConcatViews(strs[..i])| <= |ConcatViews(strs)| <= storage.Length
    requires storage[..] == ConcatViews(strs[..i]) + Zeros(storage.Length - writeLoc)
    modifies storage
    ensures next == |ConcatViews(strs[..i + 1])| <= |ConcatViews(strs)|
    ensures storage[..] == ConcatViews(strs[..i + 1]) + Zeros(storage.Length - next)
  {
    ConcatViewsSnoc(strs, i);
    var v := View(u);
    ghost var prefix := ConcatViews(strs[..i]);
    ghost var before := storage[..];
    CopyTo(storage, writeLoc, v);
    SpliceZeros(before, storage[..], prefix, v, storage.Length - writeLoc);
    next := writeLoc + |v|;
  }

  lemma {:induction false} ViewsFit(strs: seq<FixedStr>)
    requires forall i :: 0 <= i < |strs| ==> '\0' in strs[i].storage
    ensures |ConcatViews(strs)| + |strs| <= SumSizes(strs)
  {
    if strs != [] {
      ViewsFit(strs[1..]);
    }
  }

  lemma {:induction false} ConcatViewsSnoc(strs: seq<FixedStr>, i: nat)
    requires i < |strs| && forall j :: 0 <= j < |strs| ==> '\0' in strs[j].storage
    ensures ConcatViews(strs[..i + 1]) == ConcatViews(strs[..i]) + View(strs[i])
    ensures |ConcatViews(strs[..i + 1])| <= |ConcatViews(strs)|
  {
    ConcatViewsAppend(strs[..i], [strs[i]]);
    assert strs[..i] + [strs[i]] == strs[..i + 1];
    ConcatViewsAppend(strs[..i + 1], strs[i + 1..]);
    assert strs[..i + 1] + strs[i + 1..] == strs;
  }

  lemma {:induction false} ConcatViewsAppend(a: seq<FixedStr>, b: seq<FixedStr>)
    requires forall j :: 0 <= j < |a| ==> '\0' in a[j].storage
    requires forall j :: 0 <= j < |b| ==> '\0' in b[j].storage
    ensures ConcatViews(a + b) == ConcatViews(a) + ConcatViews(b)
  {
    if a != [] {
      assert (a + b)[1..] == a[1..] + b;
      ConcatViewsAppend(a[1..], b);
    } else {
      assert a + b == b;
    }
  }

  lemma {:induction false} NoTerminatorInViews(strs: seq<FixedStr>)
    requires forall i :: 0 <= i < |strs| ==> '\0' in strs[i].storage
    ensures '\0' !in ConcatViews(strs)
  {
    if strs != [] {
      NoTerminatorInViews(strs[1..]);
    }
  }

  /** Writing v over the zeros that follow p. */
  lemma {:induction false} SpliceZeros(before: seq<char>, after: seq<char>, p: seq<char>, v: seq<char>, n: nat)
    requires |v| <= n && before == p + Zeros(n)
    requires after == before[..|p|] + v + before[|p| + |v|..]
    ensures after == p + v + Zeros(n - |v|)
  {
    assert before[..|p|] == p;
    assert before[|p| + |v|..] == Zeros(n - |v|);
  }

  lemma {:induction false} TerminatedView(v: string, pad: nat)
    requires '\0' !in v && pad > 0
    ensures '\0' in v + Zeros(pad) && CStrLen(v + Zeros(pad)) == |v|
  {
    var s := v + Zeros(pad);
    assert s[|v|] == '\0';
    assert forall k :: 0 <= k < |v| ==> s[k] == v[k];
  }

  /** The view of a literal is its text. */
  lemma {:induction false} LitView(s: string)
    requires '\0' !in s
    ensures '\0' in Lit(s).storage && View(Lit(s)) == s
  {
    TerminatedView(s, 1);
  }

  /** append_fixed_strings<"ab", "c", "">(): size 3 + 2 + 1 - 3 + 1 = 4 ... */
  lemma {:induction false} AppendExampleSize()
    ensures SumSizes([Lit("ab"), Lit("c"), Lit("")]) - 3 + 1 == 4
  {
    var strs := [Lit("ab"), Lit("c"), Lit("")];
    assert strs[1..] == [Lit("c"), Lit("")] && strs[1..][1..] == [Lit("")] && strs[1..][1..][1..] == [];
  }

  /** ... and view "abc". */
  lemma {:induction false} AppendExample()
    ensures ConcatViews([Lit("ab"), Lit("c"), Lit("")]) == "abc"
  {
    LitView("ab");
    LitView("c");
    LitView("");
    var strs := [Lit("ab"), Lit("c"), Lit("")];
    assert strs[1..] == [Lit("c"), Lit("")] && strs[1..][1..] == [Lit("")] && strs[1..][1..][1..] == [];
    assert ConcatViews(strs) == "ab" + ("c" + ("" + []));
  }
}
