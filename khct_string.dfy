/** khct::string<N> of src/json_schema2/string.hpp: N characters of storage
    (N >= 1), built from a string literal with its terminator. Unlike
    fixed_string, equality and ordering look only at the view, the
    characters before the first '\0'. splice, pad_left, pad_right and
    operator+ fill a fresh value-initialised buffer with copies and fills;
    split and strip_leading_whitespace are recursion over template
    arguments. */
module KhctString {
  import opened Basics
  import FixedString
  import JsonParse

  /** The storage of a string<N>; a zero-sized array does not exist. */
  type Str = s: seq<char> | |s| >= 1 witness ['\0']

  /** A string<N> made by the literal constructor or by a splice: both end
      the storage with '\0', and every string the JSON parser of
      src/json_schema2/json.hpp handles is made one of these two ways. */
  type CStr = s: Str | s[|s| - 1] == '\0' witness ['\0']

  /** string(const char (&)[N]): the literal's characters and its '\0'. */
  function Lit(t: string): Str {
    t + ['\0']
  }

  /** size(): N - 1. */
  function Size(s: Str): nat {
    |s| - 1
  }

  /** empty(): size() == 0. */
  predicate Empty(s: Str) {
    Size(s) == 0
  }

  /** The characters before the first '\0', or all of them. */
  function UpToNul(v: seq<char>): string {
    if v == [] || v[0] == '\0' then [] else [v[0]] + UpToNul(v[1..])
  }

  /** The view is the longest prefix without '\0': it is followed by the
      first '\0', or it is all of the storage. */
  lemma {:induction false} UpToNulMeaning(v: seq<char>)
    ensures var r := UpToNul(v);
      |r| <= |v| && r == v[..|r|] && '\0' !in r && (|r| == |v| || v[|r|] == '\0')
  {
    if v != [] && v[0] != '\0' {
      UpToNulMeaning(v[1..]);
      assert v == [v[0]] + v[1..];
    }
  }

  /** view(): string_view from begin() to the first '\0' or end(). */
  function View(s: Str): string {
    UpToNul(s)
  }

  /** The view ends at the first '\0' that a prefix holds. */
  lemma {:induction false} UpToNulOf(p: seq<char>, rest: seq<char>)
    requires '\0' !in p
    ensures UpToNul(p + rest) == p + UpToNul(rest)
  {
    if p != [] {
      assert p[0] != '\0' && (p + rest)[0] == p[0];
      assert (p + rest)[1..] == p[1..] + rest;
      UpToNulOf(p[1..], rest);
      assert UpToNul(p + rest) == [p[0]] + (p[1..] + UpToNul(rest));
      assert [p[0]] + (p[1..] + UpToNul(rest)) == ([p[0]] + p[1..]) + UpToNul(rest);
      assert p == [p[0]] + p[1..];
    } else {
      assert p + rest == rest;
    }
  }

  lemma {:induction false} UpToNulAt(p: seq<char>, rest: seq<char>)
    requires '\0' !in p
    ensures UpToNul(p + ['\0'] + rest) == p
  {
    UpToNulOf(p, ['\0'] + rest);
    assert p + ['\0'] + rest == p + (['\0'] + rest);
  }

  /** A literal's size is its length, its view its text, and it is empty
      exactly when the text is. */
  lemma {:induction false} LitMeaning(t: string)
    requires '\0' !in t
    ensures Size(Lit(t)) == |t| && View(Lit(t)) == t && (Empty(Lit(t)) <==> t == [])
  {
    UpToNulAt(t, []);
    assert t + ['\0'] + [] == Lit(t);
  }

  // ---------------------------------------------------------------------
  // Buffer operations

  /** A fresh string<n> {}: value-initialised, all '\0'. */
  method Blank(n: nat) returns (buf: array<char>)
    ensures fresh(buf) && buf[..] == FixedString.Zeros(n)
  {
    buf := new char[n](_ => '\0');
  }

  /** std::fill of [from, to) with c. */
  method Fill(buf: array<char>, from: nat, to: nat, c: char)
    requires from <= to <= buf.Length
    modifies buf
    ensures buf[..] == old(buf[..])[..from] + Repeat(c, to - from) + old(buf[..])[to..]
  {
    ghost var before := buf[..];
    var i := from;
    while i < to
      invariant from <= i <= to
      invariant buf[..] == before[..from] + Repeat(c, i - from) + before[i..]
    {
      buf[i] := c;
      RepeatSnoc(c, i - from);
      i := i + 1;
    }
  }

  function Repeat(c: char, n: nat): (r: seq<char>)
    ensures |r| == n && forall k :: 0 <= k < n ==> r[k] == c
  {
    seq(n, _ => c)
  }

  lemma {:induction false} RepeatSnoc(c: char, n: nat)
    ensures Repeat(c, n + 1) == Repeat(c, n) + [c]
  {
  }

  /** splice<Start, End>(): the characters [Start, End) and a '\0'. The
      static_asserts demand Start <= End <= N. */
  function Spliced(s: Str, start: nat, end: nat): Str
    requires start <= end <= |s|
  {
    s[start..end] + ['\0']
  }

  method Splice(s: Str, start: nat, end: nat) returns (r: Str)
    requires start <= end <= |s|
    ensures r == Spliced(s, start, end)
  {
    var buf := Blank(end - start + 1);
    FixedString.CopyTo(buf, 0, s[start..end]);
    r := buf[..];
  }

  /** A splice of characters without '\0' views as exactly those, and its
      size is End - Start. */
  lemma {:induction false} SplicedView(s: Str, start: nat, end: nat)
    requires start <= end <= |s| && '\0' !in s[start..end]
    ensures View(Spliced(s, start, end)) == s[start..end]
    ensures Size(Spliced(s, start, end)) == end - start
  {
    UpToNulAt(s[start..end], []);
    assert s[start..end] + ['\0'] + [] == Spliced(s, start, end);
  }

  /** pad_left<P, F>(): P copies of F, then the N characters. */
  function PaddedLeft(s: Str, p: nat, filler: char): Str {
    Repeat(filler, p) + s
  }

  method PadLeft(s: Str, p: nat, filler: char) returns (r: Str)
    ensures r == PaddedLeft(s, p, filler)
  {
    var buf := Blank(p + |s|);
    ghost var zeros := buf[..];
    Fill(buf, 0, p, filler);
    ghost var filled := buf[..];
    FixedString.CopyTo(buf, p, s);
    r := buf[..];
    LeftPadded(zeros, filled, r, s, p, filler);
  }

  lemma {:induction false} LeftPadded(zeros: seq<char>, filled: seq<char>, copied: seq<char>, s: Str, p: nat, filler: char)
    requires zeros == FixedString.Zeros(p + |s|)
    requires filled == zeros[..0] + Repeat(filler, p) + zeros[p..]
    requires copied == filled[..p] + s + filled[p + |s|..]
    ensures copied == PaddedLeft(s, p, filler)
  {
    assert filled[..p] == Repeat(filler, p);
  }

  /** Padding on the left with a visible character prefixes the view; with
      '\0' it empties the view. */
  lemma {:induction false} PaddedLeftView(s: Str, p: nat, filler: char)
    ensures filler != '\0' ==> View(PaddedLeft(s, p, filler)) == Repeat(filler, p) + View(s)
    ensures filler == '\0' && p > 0 ==> View(PaddedLeft(s, p, filler)) == []
    ensures Size(PaddedLeft(s, p, filler)) == Size(s) + p
  {
    if filler != '\0' {
      UpToNulOf(Repeat(filler, p), s);
    }
  }

  /** pad_right<P, F>(): all N characters copied, then [N-1, N+P-1) filled
      with F. The last character stays the terminator only when P > 0
      overwrites the copy's last character with F and leaves the final
      value-initialised '\0'. */
  function PaddedRight(s: Str, p: nat, filler: char): Str {
    s[..|s| - 1] + Repeat(filler, p) + [if p == 0 then s[|s| - 1] else '\0']
  }

  method PadRight(s: Str, p: nat, filler: char) returns (r: Str)
    ensures r == PaddedRight(s, p, filler)
  {
    var buf := Blank(p + |s|);
    ghost var zeros := buf[..];
    FixedString.CopyTo(buf, 0, s);
    ghost var copied := buf[..];
    Fill(buf, |s| - 1, p + |s| - 1, filler);
    r := buf[..];
    RightPadded(zeros, copied, r, s, p, filler);
  }

  lemma {:induction false} RightPadded(zeros: seq<char>, copied: seq<char>, filled: seq<char>, s: Str, p: nat, filler: char)
    requires zeros == FixedString.Zeros(p + |s|)
    requires copied == zeros[..0] + s + zeros[|s|..]
    requires filled == copied[..|s| - 1] + Repeat(filler, p) + copied[p + |s| - 1..]
    ensures filled == PaddedRight(s, p, filler)
  {
    assert copied[..|s| - 1] == s[..|s| - 1];
    if p == 0 {
      assert copied[|s| - 1..] == [s[|s| - 1]];
    } else {
      assert copied[p + |s| - 1..] == ['\0'];
    }
  }

  /** Padding a literal on the right appends F to its view. */
  lemma {:induction false} PaddedRightView(t: string, p: nat, filler: char)
    requires '\0' !in t && filler != '\0'
    ensures View(PaddedRight(Lit(t), p, filler)) == t + Repeat(filler, p)
    ensures Size(PaddedRight(Lit(t), p, filler)) == |t| + p
  {
    var r := PaddedRight(Lit(t), p, filler);
    assert Lit(t)[..|Lit(t)| - 1] == t;
    assert r == t + Repeat(filler, p) + ['\0'] + [];
    UpToNulAt(t + Repeat(filler, p), []);
  }

  /** operator string<NewSize>(), for NewSize > N: pad_right with '\0'. */
  function Widened(s: Str, newSize: nat): Str
    requires newSize > |s|
  {
    PaddedRight(s, newSize - |s|, '\0')
  }

  method Widen(s: Str, newSize: nat) returns (r: Str)
    requires newSize > |s|
    ensures r == Widened(s, newSize) && |r| == newSize
  {
    r := PadRight(s, newSize - |s|, '\0');
  }

  /** Widening a string that holds a '\0' keeps its view. */
  lemma {:induction false} WidenedView(s: Str, newSize: nat)
    requires newSize > |s| && '\0' in s
    ensures View(Widened(s, newSize)) == View(s)
  {
    var w := Widened(s, newSize);
    var v := View(s);
    UpToNulMeaning(s);
    assert w[..|s| - 1] == s[..|s| - 1];
    if |v| < |s| - 1 {
      assert s == v + ['\0'] + s[|v| + 1..];
      assert w == v + ['\0'] + w[|v| + 1..];
      UpToNulAt(v, s[|v| + 1..]);
      UpToNulAt(v, w[|v| + 1..]);
    } else {
      assert |v| == |s| - 1;
      assert v == s[..|s| - 1];
      assert w == v + ['\0'] + w[|v| + 1..];
      UpToNulAt(v, w[|v| + 1..]);
    }
  }

  // ---------------------------------------------------------------------
  // Comparison

  datatype Ordering = Less | Equivalent | Greater

  /** operator==: the views are equal. */
  predicate Equal(a: Str, b: Str) {
    View(a) == View(b)
  }

  /** operator<=>: the three-way comparison of the views. */
  function Compare(a: Str, b: Str): Ordering {
    if LexLess(View(a), View(b)) then Less
    else if View(a) == View(b) then Equivalent
    else Greater
  }

  /** The ordering is total and antisymmetric, equivalence is equality of
      views, and reversing the operands reverses the answer. */
  lemma {:induction false} CompareMeaning(a: Str, b: Str)
    ensures Compare(a, b) == Equivalent <==> Equal(a, b)
    ensures Compare(a, b) == Less <==> Compare(b, a) == Greater
  {
    LexLessTotal(View(a), View(b));
    if LexLess(View(a), View(b)) {
      LexLessAsymmetric(View(a), View(b));
    }
    if LexLess(View(b), View(a)) {
      LexLessAsymmetric(View(b), View(a));
    }
    if View(a) == View(b) {
      LexLessIrreflexive(View(a));
    }
  }

  /** Strings of different sizes with the same text compare equal. */
  lemma {:induction false} EqualIgnoresPadding(t: string, pad: nat)
    requires '\0' !in t && pad > 0
    ensures |Widened(Lit(t), |t| + 1 + pad)| != |Lit(t)|
    ensures Equal(Widened(Lit(t), |t| + 1 + pad), Lit(t))
    ensures Compare(Widened(Lit(t), |t| + 1 + pad), Lit(t)) == Equivalent
  {
    WidenedView(Lit(t), |t| + 1 + pad);
    CompareMeaning(Widened(Lit(t), |t| + 1 + pad), Lit(t));
  }

  // ---------------------------------------------------------------------
  // Concatenation

  /** lhs + rhs: a string<SizeL + SizeR - 1> with lhs copied to its front
      and rhs copied over lhs's last character. */
  function Concatenated(a: Str, b: Str): Str {
    a[..|a| - 1] + b
  }

  method Concat(a: Str, b: Str) returns (r: Str)
    ensures r == Concatenated(a, b) && |r| == |a| + |b| - 1
  {
    var buf := Blank(|a| + |b| - 1);
    FixedString.CopyTo(buf, 0, a);
    FixedString.CopyTo(buf, |a| - 1, b);
    r := buf[..];
    assert r == Concatenated(a, b);
  }

  /** When lhs has no '\0' before its last character, the view of the
      concatenation is lhs's characters followed by rhs's view. */
  lemma {:induction false} ConcatenatedView(a: Str, b: Str)
    requires '\0' !in a[..|a| - 1]
    ensures View(Concatenated(a, b)) == a[..|a| - 1] + View(b)
    ensures Size(Concatenated(a, b)) == Size(a) + Size(b)
  {
    UpToNulOf(a[..|a| - 1], b);
  }

  lemma {:induction false} ConcatenatedLiterals(s: string, t: string)
    requires '\0' !in s && '\0' !in t
    ensures Concatenated(Lit(s), Lit(t)) == Lit(s + t)
    ensures View(Concatenated(Lit(s), Lit(t))) == View(Lit(s)) + View(Lit(t))
  {
    assert Lit(s)[..|Lit(s)| - 1] == s;
    LitMeaning(s);
    LitMeaning(t);
    LitMeaning(s + t);
  }

  // ---------------------------------------------------------------------
  // split

  /** std::ranges::find over all N characters: the first index holding c,
      or N. */
  function Find(s: seq<char>, c: char): (i: nat)
    ensures i <= |s| && (i < |s| ==> s[i] == c) && forall k :: 0 <= k < i ==> s[k] != c
  {
    if s == [] then 0
    else if s[0] == c then 0
    else 1 + Find(s[1..], c)
  }

  /** split_helper<Str, C, MaxSplits>(): no C anywhere in the storage gives
      the string itself; otherwise the part before the first C and the
      rest, splice<Index + 1, size()>, either as the last piece (when
      MaxSplits is 1) or split again with one split fewer (0 stays 0, no
      limit). A C in the last storage slot makes that splice fail its
      static_assert: None. */
  function Split(s: Str, c: char, maxSplits: nat): (r: Option<seq<Str>>)
    ensures r.Some? ==> |r.value| >= 1
    decreases |s|
  {
    var at := Find(s, c);
    if at == |s| then Some([s])
    else if at == |s| - 1 then None
    else
      var piece := Spliced(s, 0, at);
      var rest := Spliced(s, at + 1, |s| - 1);
      if maxSplits == 1 then Some([piece, rest])
      else
        match Split(rest, c, if maxSplits == 0 then 0 else maxSplits - 1)
        case None => None
        case Some(pieces) => Some([piece] + pieces)
  }

  /** The pieces' views joined with C. */
  function Join(views: seq<string>, c: char): string
    requires |views| >= 1
  {
    if |views| == 1 then views[0] else views[0] + [c] + Join(views[1..], c)
  }

  function Views(pieces: seq<Str>): (r: seq<string>)
    ensures |r| == |pieces| && forall i :: 0 <= i < |pieces| ==> r[i] == View(pieces[i])
  {
    seq(|pieces|, i requires 0 <= i < |pieces| => View(pieces[i]))
  }

  /** The number of occurrences of c. */
  function Count(t: string, c: char): nat {
    if t == [] then 0 else (if t[0] == c then 1 else 0) + Count(t[1..], c)
  }

  /** The pieces are literals of text without '\0'. */
  predicate LitPieces(pieces: seq<Str>) {
    forall i :: 0 <= i < |pieces| ==> pieces[i] == Lit(View(pieces[i])) && '\0' !in View(pieces[i])
  }

  /** No piece's view holds c. */
  predicate FreeOf(pieces: seq<Str>, c: char) {
    forall i :: 0 <= i < |pieces| ==> c !in View(pieces[i])
  }

  /** The smaller of two counts. */
  function MinCount(a: nat, b: nat): (m: nat)
    ensures m <= a && m <= b && (m == a || m == b)
  {
    if a < b then a else b
  }

  /** What splitting t on c with the given limit promises of the pieces:
      joining their views with c gives back t and each is a literal; a
      limit k splits at the first min(Cs, k) occurrences, so there is one
      piece more than that and no piece before the last holds C; without
      a limit there is one piece more than there are Cs and no piece holds
      C. */
  predicate SplitsInto(t: string, c: char, maxSplits: nat, pieces: seq<Str>) {
    && |pieces| >= 1
    && Join(Views(pieces), c) == t
    && LitPieces(pieces)
    && (maxSplits > 0 ==>
          |pieces| == MinCount(Count(t, c), maxSplits) + 1 && FreeOf(pieces[..|pieces| - 1], c))
    && (maxSplits == 0 ==> |pieces| == Count(t, c) + 1 && FreeOf(pieces, c))
  }

  /** Splitting a literal on a visible character always compiles, and its
      pieces are as SplitsInto says. */
  lemma {:induction false} SplitMeaning(t: string, c: char, maxSplits: nat)
    requires '\0' !in t && c != '\0'
    ensures Split(Lit(t), c, maxSplits).Some?
    ensures SplitsInto(t, c, maxSplits, Split(Lit(t), c, maxSplits).value)
    decreases |t|
  {
    var at := Find(t, c);
    if at == |t| {
      SplitWhole(t, c, maxSplits);
    } else if maxSplits == 1 {
      SplitLast(t, c, at);
    } else {
      var next := if maxSplits == 0 then 0 else maxSplits - 1;
      SplitStep(t, c, maxSplits, at, next);
      NoNulSlice(t, at + 1);
      SplitMeaning(t[at + 1..], c, next);
      SplitCons(t, c, maxSplits, at, next, Split(Lit(t[at + 1..]), c, next).value);
      assert Split(Lit(t), c, maxSplits).value == [Lit(t[..at])] + Split(Lit(t[at + 1..]), c, next).value;
    }
  }

  /** The first C of a literal is the first C of its text. */
  lemma {:induction false} FindInLit(t: string, c: char)
    requires '\0' !in t && c != '\0'
    ensures Find(t, c) == |t| ==> Find(Lit(t), c) == |Lit(t)|
    ensures Find(t, c) < |t| ==> Find(Lit(t), c) == Find(t, c)
  {
    var at := Find(t, c);
    assert Lit(t)[|t|] == '\0';
    assert forall k :: 0 <= k < |t| ==> Lit(t)[k] == t[k];
    if at < |t| {
      FindIs(Lit(t), c, at);
    }
  }

  lemma {:induction false} FindIs(s: seq<char>, c: char, i: nat)
    requires i < |s| && s[i] == c && forall k :: 0 <= k < i ==> s[k] != c
    ensures Find(s, c) == i
  {
  }

  lemma {:induction false} SplitWhole(t: string, c: char, maxSplits: nat)
    requires '\0' !in t && c != '\0' && Find(t, c) == |t|
    ensures Split(Lit(t), c, maxSplits) == Some([Lit(t)])
    ensures SplitsInto(t, c, maxSplits, [Lit(t)])
  {
    FindInLit(t, c);
    LitMeaning(t);
    assert c !in t;
    CountNone(t, c);
  }

  lemma {:induction false} SplitLast(t: string, c: char, at: nat)
    requires '\0' !in t && c != '\0' && at == Find(t, c) < |t|
    ensures Split(Lit(t), c, 1) == Some([Lit(t[..at]), Lit(t[at + 1..])])
    ensures SplitsInto(t, c, 1, [Lit(t[..at]), Lit(t[at + 1..])])
  {
    var head, tail := t[..at], t[at + 1..];
    SplitOnce(t, c, at);
    assert '\0' !in head && '\0' !in tail by {
      NoNulSlice(t, at + 1);
      NoNulSlice(t, at);
    }
    LitMeaning(head);
    LitMeaning(tail);
    assert t == head + [c] + tail;
    assert Join(Views([Lit(head), Lit(tail)]), c) == t by {
      JoinTwo(Lit(head), Lit(tail), c);
    }
    assert c !in head;
    CountSplit(head, tail, c);
    assert [Lit(head), Lit(tail)][..1] == [Lit(head)];
  }

  lemma {:induction false} NoNulSlice(t: string, from: nat)
    requires '\0' !in t && from <= |t|
    ensures '\0' !in t[from..] && '\0' !in t[..from]
  {
    assert forall k :: 0 <= k < |t| - from ==> t[from..][k] == t[from + k];
  }

  lemma {:induction false} SplitOnce(t: string, c: char, at: nat)
    requires '\0' !in t && c != '\0' && at == Find(t, c) < |t|
    ensures Split(Lit(t), c, 1) == Some([Lit(t[..at]), Lit(t[at + 1..])])
  {
    FindInLit(t, c);
    assert Spliced(Lit(t), 0, at) == Lit(t[..at]);
    assert Spliced(Lit(t), at + 1, |Lit(t)| - 1) == Lit(t[at + 1..]);
  }

  lemma {:induction false} JoinTwo(a: Str, b: Str, c: char)
    ensures Join(Views([a, b]), c) == View(a) + [c] + View(b)
  {
    var views := Views([a, b]);
    assert views[1..] == [View(b)];
  }

  /** Before the last split: the part before the first C, then the split
      of the rest. */
  lemma {:induction false} SplitStep(t: string, c: char, maxSplits: nat, at: nat, next: nat)
    requires '\0' !in t && c != '\0' && at == Find(t, c) < |t| && maxSplits != 1
    requires next == if maxSplits == 0 then 0 else maxSplits - 1
    ensures Split(Lit(t), c, maxSplits) ==
      match Split(Lit(t[at + 1..]), c, next)
      case None => None
      case Some(pieces) => Some([Lit(t[..at])] + pieces)
  {
    FindInLit(t, c);
    assert Spliced(Lit(t), 0, at) == Lit(t[..at]);
    assert Spliced(Lit(t), at + 1, |Lit(t)| - 1) == Lit(t[at + 1..]);
  }

  lemma {:induction false} SplitCons(t: string, c: char, maxSplits: nat, at: nat, next: nat, rest: seq<Str>)
    requires '\0' !in t && c != '\0' && at == Find(t, c) < |t| && maxSplits != 1
    requires next == if maxSplits == 0 then 0 else maxSplits - 1
    requires SplitsInto(t[at + 1..], c, next, rest)
    ensures SplitsInto(t, c, maxSplits, [Lit(t[..at])] + rest)
  {
    var head, tail := t[..at], t[at + 1..];
    var pieces := [Lit(head)] + rest;
    assert '\0' !in head by {
      NoNulSlice(t, at);
    }
    PiecesCons(head, rest, pieces);
    assert t == head + [c] + tail;
    JoinCons(head, c, Views(rest), Views(pieces));
    CountSplit(head, tail, c);
    if maxSplits == 0 {
      FreeOfCons(head, c, rest, pieces);
    } else {
      assert pieces[..|pieces| - 1] == [Lit(head)] + rest[..|rest| - 1];
      FreeOfCons(head, c, rest[..|rest| - 1], pieces[..|pieces| - 1]);
    }
  }

  /** A literal piece in front of literal pieces. */
  lemma {:induction false} PiecesCons(head: string, rest: seq<Str>, pieces: seq<Str>)
    requires '\0' !in head && LitPieces(rest) && pieces == [Lit(head)] + rest
    ensures LitPieces(pieces) && Views(pieces) == [head] + Views(rest)
  {
    LitMeaning(head);
    forall i | 0 <= i < |pieces|
      ensures pieces[i] == Lit(View(pieces[i])) && '\0' !in View(pieces[i])
    {
      if i > 0 {
        assert pieces[i] == rest[i - 1];
      }
    }
    assert Views(pieces) == [head] + Views(rest);
  }

  lemma {:induction false} JoinCons(head: string, c: char, vs: seq<string>, all: seq<string>)
    requires |vs| >= 1 && all == [head] + vs
    ensures Join(all, c) == head + [c] + Join(vs, c)
  {
    assert all[1..] == vs;
  }

  lemma {:induction false} FreeOfCons(head: string, c: char, rest: seq<Str>, pieces: seq<Str>)
    requires '\0' !in head && c !in head && FreeOf(rest, c) && pieces == [Lit(head)] + rest
    ensures FreeOf(pieces, c)
  {
    LitMeaning(head);
    forall i | 0 <= i < |pieces|
      ensures c !in View(pieces[i])
    {
      if i > 0 {
        assert pieces[i] == rest[i - 1];
      }
    }
  }

  lemma {:induction false} CountSplit(head: string, tail: string, c: char)
    requires c !in head
    ensures Count(head + [c] + tail, c) == Count(tail, c) + 1
  {
    if head == [] {
      assert ([c] + tail)[1..] == tail;
    } else {
      assert (head + [c] + tail)[1..] == head[1..] + [c] + tail;
      CountSplit(head[1..], tail, c);
    }
  }

  lemma {:induction false} CountNone(t: string, c: char)
    requires c !in t
    ensures Count(t, c) == 0
  {
    if t != [] {
      CountNone(t[1..], c);
    }
  }

  /** split<"a,b,c", ','>() gives "a", "b", "c"; with MaxSplits 1 the last
      piece keeps its comma. */
  lemma {:induction false} SplitExample()
    ensures Split(Lit("a,b,c"), ',', 0) == Some([Lit("a"), Lit("b"), Lit("c")])
    ensures Split(Lit("a,b,c"), ',', 1) == Some([Lit("a"), Lit("b,c")])
  {
    SplitRestExample();
    FindIs("a,b,c", ',', 1);
    assert "a,b,c"[..1] == "a" && "a,b,c"[2..] == "b,c";
    SplitStep("a,b,c", ',', 0, 1, 0);
    assert [Lit("a")] + [Lit("b"), Lit("c")] == [Lit("a"), Lit("b"), Lit("c")];
    SplitOnce("a,b,c", ',', 1);
  }

  lemma {:induction false} SplitRestExample()
    ensures Split(Lit("b,c"), ',', 0) == Some([Lit("b"), Lit("c")])
  {
    FindIs("b,c", ',', 1);
    assert "b,c"[..1] == "b" && "b,c"[2..] == "c";
    assert Find("c", ',') == 1;
    SplitWhole("c", ',', 0);
    SplitStep("b,c", ',', 0, 1, 0);
    assert [Lit("b")] + [Lit("c")] == [Lit("b"), Lit("c")];
  }

  /** Splitting on '\0' finds the terminator and fails to compile. */
  lemma {:induction false} SplitOnTerminator(t: string)
    requires '\0' !in t
    ensures Split(Lit(t), '\0', 0).None?
  {
    forall k | 0 <= k < |t|
      ensures Lit(t)[k] != '\0'
    {
      assert Lit(t)[k] == t[k] && t[k] in t;
    }
    assert Lit(t)[|t|] == '\0';
    FindIs(Lit(t), '\0', |t|);
  }

  // ---------------------------------------------------------------------
  // strip_leading_whitespace

  /** The first index holding a character outside the whitespace set, or N. */
  function FindNonWs(s: seq<char>): (i: nat)
    ensures i <= |s| && (i < |s| ==> !IsWhitespace(s[i])) && forall k :: 0 <= k < i ==> IsWhitespace(s[k])
  {
    if s == [] || !IsWhitespace(s[0]) then 0 else 1 + FindNonWs(s[1..])
  }

  /** strip_leading_whitespace<Str>(): string{""} when every stored
      character is whitespace, otherwise splice<Index, size()>. */
  function StripLeadingWhitespace(s: Str): (r: Str)
    ensures |r| <= |s|
  {
    var at := FindNonWs(s);
    if at == |s| then Lit("") else Spliced(s, at, |s| - 1)
  }

  /** On a literal, stripping views as the JSON parser's own strip: the
      text from its first non-whitespace character; a blank text gives the
      empty string. */
  lemma {:induction false} StripMeaning(t: string)
    requires '\0' !in t
    ensures View(StripLeadingWhitespace(Lit(t))) == JsonParse.StripWs(t)
    ensures StripLeadingWhitespace(Lit(t)) == Lit(JsonParse.StripWs(t))
  {
    var s := Lit(t);
    var at := FindNonWs(s);
    assert s[|t|] == '\0';
    assert at <= |t|;
    assert s[at..|s| - 1] == t[at..];
    StripsTo(t, at);
    LitMeaning(t[at..]);
  }

  lemma {:induction false} StripsTo(t: string, at: nat)
    requires at <= |t| && (at < |t| ==> !IsWhitespace(t[at]))
    requires forall k :: 0 <= k < at ==> IsWhitespace(t[k])
    ensures JsonParse.StripWs(t) == t[at..]
  {
    if at > 0 {
      assert t[1..][at - 1..] == t[at..];
      StripsTo(t[1..], at - 1);
    }
  }
}
