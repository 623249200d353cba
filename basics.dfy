/** Small shared vocabulary: an Option type, the whitespace set the parsers
    skip, the length of a NUL-terminated string, and the lexicographic order
    on character sequences that std::ranges::lexicographical_compare and the
    ordering of strings give. */
module Basics {

  datatype Option<+T> = None | Some(value: T)

  /** The six characters both JSON parsers treat as whitespace
      (space, form feed, newline, carriage return, tab, vertical tab);
      the same set as std::isspace in the "C" locale. */
  predicate IsWhitespace(c: char) {
    c == ' ' || c == '\U{000C}' || c == '\n' || c == '\r' || c == '\t' || c == '\U{000B}'
  }

  predicate AllWhitespace(s: string) {
    forall i :: 0 <= i < |s| ==> IsWhitespace(s[i])
  }

  /** The number of characters before the first '\0'. */
  function CStrLen(s: seq<char>): (r: nat)
    requires '\0' in s
    ensures r < |s| && s[r] == '\0' && forall k :: 0 <= k < r ==> s[k] != '\0'
  {
    if s[0] == '\0' then 0 else 1 + CStrLen(s[1..])
  }

  /** Strict lexicographic order: a proper prefix is smaller, otherwise
      the first differing character decides. */
  predicate LexLess(a: seq<char>, b: seq<char>)
    decreases |a|
  {
    if |b| == 0 then false
    else if |a| == 0 then true
    else if a[0] != b[0] then a[0] < b[0]
    else LexLess(a[1..], b[1..])
  }

  lemma {:induction false} LexLessIrreflexive(a: seq<char>)
    ensures !LexLess(a, a)
  {
    if |a| > 0 {
      LexLessIrreflexive(a[1..]);
    }
  }

  lemma {:induction false} LexLessTransitive(a: seq<char>, b: seq<char>, c: seq<char>)
    requires LexLess(a, b) && LexLess(b, c)
    ensures LexLess(a, c)
  {
    if |a| > 0 && a[0] == b[0] && b[0] == c[0] {
      LexLessTransitive(a[1..], b[1..], c[1..]);
    }
  }

  lemma {:induction false} LexLessTotal(a: seq<char>, b: seq<char>)
    ensures a == b || LexLess(a, b) || LexLess(b, a)
  {
    if |a| > 0 && |b| > 0 && a[0] == b[0] {
      LexLessTotal(a[1..], b[1..]);
      if a[1..] == b[1..] {
        assert a == [a[0]] + a[1..] && b == [b[0]] + b[1..];
      }
    }
  }

  lemma {:induction false} LexLessAsymmetric(a: seq<char>, b: seq<char>)
    requires LexLess(a, b)
    ensures !LexLess(b, a)
  {
    if |a| > 0 && a[0] == b[0] {
      LexLessAsymmetric(a[1..], b[1..]);
    }
  }
}
