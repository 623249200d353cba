/** The integer conversions of src/json_schema2/json.hpp: to_unsigned_num
    reads the run of digits at the front of a string into a std::uint64_t,
    and to_signed_num reads an optional '-' and then such a run into a
    std::int64_t. Both compute in 64-bit unsigned arithmetic, written out
    here modulo 2^64. The overflow check in to_unsigned_num compares the
    new value with the bound and with the old value, which misses some
    wrap-arounds: the result is the decimal value only below 2^64. */
module KhctJsonNumber {
  import opened Basics
  import opened KhctString
  import JsonParse

  const Two63: nat := 0x8000_0000_0000_0000
  const Two64: nat := 0x1_0000_0000_0000_0000
  /** std::numeric_limits<std::uint64_t>::max(). */
  const UInt64Max: nat := Two64 - 1

  predicate IsNonzeroDigit(c: char) {
    '1' <= c <= '9'
  }

  ghost predicate AllDigits(run: seq<char>) {
    forall i :: 0 <= i < |run| ==> JsonParse.IsDigit(run[i])
  }

  /** The digits at the front of s. */
  function DigitPrefix(s: seq<char>): (run: seq<char>)
    ensures AllDigits(run) && |run| <= |s| && run == s[..|run|]
    ensures |run| == |s| || !JsonParse.IsDigit(s[|run|])
  {
    s[..JsonParse.DigitRun(s, 0)]
  }

  /** The loop of to_unsigned_num over the digit run: each step computes
      to_ret * 10 + digit modulo 2^64 and stops with nothing when that is
      above the bound or below the previous value. */
  function Scan(run: seq<char>, max: nat): (r: Option<nat>)
    requires AllDigits(run)
    ensures r.Some? ==> r.value <= max && r.value < Two64
  {
    if run == [] then Some(0)
    else match Scan(run[..|run| - 1], max)
      case None => None
      case Some(t) =>
        var next := (t * 10 + JsonParse.DigitValue(run[|run| - 1])) % Two64;
        if next > max || next < t then None else Some(next)
  }

  /** to_unsigned_num<Str>(max_value): nothing when Str[0] is not a digit,
      otherwise the scan of the leading digits. */
  function ToUnsignedNum(s: Str, max: nat): Option<nat> {
    if !JsonParse.IsDigit(s[0]) then None else Scan(DigitPrefix(s), max)
  }

  /** The loop itself, with an iterator running over all N stored
      characters while they are digits. */
  method ComputeUnsignedNum(s: Str, max: nat) returns (r: Option<nat>)
    ensures r == ToUnsignedNum(s, max)
  {
    if !JsonParse.IsDigit(s[0]) {
      return None;
    }
    ghost var run := DigitPrefix(s);
    var toRet: nat := 0;
    var i := 0;
    while i < |s| && JsonParse.IsDigit(s[i])
      invariant i <= |run|
      invariant Scan(run[..i], max) == Some(toRet)
    {
      var next := (toRet * 10 + JsonParse.DigitValue(s[i])) % Two64;
      ScanStep(run, i, max, toRet, next);
      if next > max || next < toRet {
        ScanNoneStays(run, i + 1, max);
        return None;
      }
      toRet := next;
      i := i + 1;
    }
    assert run[..i] == run;
    r := Some(toRet);
  }

  /** One step of the scan. */
  lemma {:induction false} ScanStep(run: seq<char>, i: nat, max: nat, t: nat, next: nat)
    requires AllDigits(run) && i < |run| && Scan(run[..i], max) == Some(t)
    requires next == (t * 10 + JsonParse.DigitValue(run[i])) % Two64
    ensures Scan(run[..i + 1], max) == if next > max || next < t then None else Some(next)
  {
    assert run[..i + 1][..i] == run[..i];
  }

  /** Once the scan has stopped with nothing, longer runs stop too. */
  lemma {:induction false} ScanNoneStays(run: seq<char>, k: nat, max: nat)
    requires AllDigits(run) && k <= |run| && Scan(run[..k], max).None?
    ensures Scan(run, max).None?
  {
    if k < |run| {
      assert run[..|run| - 1][..k] == run[..k];
      ScanNoneStays(run[..|run| - 1], k, max);
    } else {
      assert run[..k] == run;
    }
  }

  /** Below 2^64 no step wraps, so the scan is the decimal value when that
      is within the bound and nothing otherwise. */
  lemma {:induction false} ScanExact(run: seq<char>, max: nat)
    requires AllDigits(run) && JsonParse.DecimalValue(run) < Two64
    ensures Scan(run, max) == if JsonParse.DecimalValue(run) <= max then Some(JsonParse.DecimalValue(run)) else None
  {
    if run != [] {
      ScanExact(run[..|run| - 1], max);
    }
  }

  /** to_unsigned_num on a string whose digit run has a value below 2^64. */
  lemma {:induction false} ToUnsignedNumExact(s: Str, max: nat)
    requires JsonParse.DecimalValue(DigitPrefix(s)) < Two64
    ensures ToUnsignedNum(s, max) ==
      if DigitPrefix(s) == [] || JsonParse.DecimalValue(DigitPrefix(s)) > max then None
      else Some(JsonParse.DecimalValue(DigitPrefix(s)))
  {
    ScanExact(DigitPrefix(s), max);
  }

  /** The loop of to_unsigned_num with an overflow check that cannot miss:
      the step is refused before it is taken when the digit alone is above
      the bound or to_ret > (max - digit) / 10. The bound is a uint64. */
  function ScanChecked(run: seq<char>, max: nat): (r: Option<nat>)
    requires AllDigits(run) && max < Two64
    ensures r.Some? ==> r.value <= max
  {
    if run == [] then Some(0)
    else match ScanChecked(run[..|run| - 1], max)
      case None => None
      case Some(t) =>
        var d := JsonParse.DigitValue(run[|run| - 1]);
        if d > max || t > (max - d) / 10 then None else Some(t * 10 + d)
  }

  /** The check before the step says exactly that the step would pass the
      bound. */
  lemma StepAbove(t: nat, d: nat, max: nat)
    requires d <= max
    ensures t > (max - d) / 10 <==> t * 10 + d > max
  {
    var q := (max - d) / 10;
    assert max - d == q * 10 + (max - d) % 10;
    if t > q {
      assert t * 10 >= q * 10 + 10;
    } else {
      assert t * 10 <= q * 10;
    }
  }

  /** For every run of digits, however long, the checked scan is the
      decimal value when that is within the bound and nothing otherwise. */
  lemma {:induction false} ScanCheckedExact(run: seq<char>, max: nat)
    requires AllDigits(run) && max < Two64
    ensures ScanChecked(run, max) ==
      if JsonParse.DecimalValue(run) <= max then Some(JsonParse.DecimalValue(run)) else None
  {
    if run != [] {
      var init := run[..|run| - 1];
      ScanCheckedExact(init, max);
      var d := JsonParse.DigitValue(run[|run| - 1]);
      assert JsonParse.DecimalValue(run) == JsonParse.DecimalValue(init) * 10 + d;
      if d <= max {
        StepAbove(JsonParse.DecimalValue(init), d, max);
      }
    }
  }

  /** to_unsigned_num<Str>(max_value) with the checked scan. */
  function ToUnsignedNumChecked(s: Str, max: nat): Option<nat>
    requires max < Two64
  {
    if !JsonParse.IsDigit(s[0]) then None else ScanChecked(DigitPrefix(s), max)
  }

  /** ToUnsignedNumExact's conclusion, for every string: no run of digits
      is too long for the checked conversion. */
  lemma {:induction false} ToUnsignedNumCheckedExact(s: Str, max: nat)
    requires max < Two64
    ensures ToUnsignedNumChecked(s, max) ==
      if DigitPrefix(s) == [] || JsonParse.DecimalValue(DigitPrefix(s)) > max then None
      else Some(JsonParse.DecimalValue(DigitPrefix(s)))
  {
    ScanCheckedExact(DigitPrefix(s), max);
  }

  /** The run that wraps without being noticed is refused by the checked
      conversion. */
  lemma {:induction false} WrapRefused()
    ensures ToUnsignedNumChecked(Lit("20500000000000000000"), UInt64Max) == None
  {
    var t := "20500000000000000000";
    assert t[..19] == "2050000000000000000";
    ValueOf2050000000000000000();
    DigitPrefixOf20500000000000000000();
    ToUnsignedNumCheckedExact(Lit(t), UInt64Max);
  }

  /** The wrap-around the check misses: 20500000000000000000 is above
      2^64 - 1, and 20500000000000000000 mod 2^64 = 2053255926290448384 is
      neither above the bound nor below 2050000000000000000. */
  lemma {:induction false} MissedWrap()
    ensures JsonParse.DecimalValue("20500000000000000000") == 20500000000000000000 > UInt64Max
    ensures ToUnsignedNum(Lit("20500000000000000000"), UInt64Max) == Some(2053255926290448384)
  {
    var t := "20500000000000000000";
    assert t[..19] == "2050000000000000000";
    ValueOf2050000000000000000();
    assert JsonParse.DecimalValue(t) == 20500000000000000000;
    assert Scan(t, UInt64Max) == Some(2053255926290448384) by {
      ScanExact(t[..19], UInt64Max);
    }
    assert ToUnsignedNum(Lit(t), UInt64Max) == Scan(t, UInt64Max) by {
      DigitPrefixOf20500000000000000000();
    }
  }

  lemma {:induction false} ValueOf2050000000000000000()
    ensures JsonParse.DecimalValue("2050000000000000000") == 2050000000000000000
  {
    DigitsOf2050000000000000000();
    JsonParse.DecimalValueOfDigits(2050000000000000000);
  }

  lemma {:induction false} DigitPrefixOf20500000000000000000()
    ensures DigitPrefix(Lit("20500000000000000000")) == "20500000000000000000"
  {
    var t := "20500000000000000000";
    assert Lit(t)[..20] == t;
    assert forall i :: 0 <= i < 20 ==> JsonParse.IsDigit(Lit(t)[i]);
    DigitRunIs(Lit(t), 20);
  }

  /** The digit run of s is its first n characters. */
  lemma {:induction false} DigitRunIs(s: seq<char>, n: nat)
    requires n <= |s| && (forall i :: 0 <= i < n ==> JsonParse.IsDigit(s[i]))
    requires n == |s| || !JsonParse.IsDigit(s[n])
    ensures JsonParse.DigitRun(s, 0) == n
  {
    var r := JsonParse.DigitRun(s, 0);
  }

  /** What to_signed_num<Str>() gives: a value, nothing, or no constant at
      all when negating the cast value overflows. */
  datatype Signed = Number(n: int) | NoNumber | NegationOverflows

  /** to_signed_num<Str>(): drop a leading '-', scan with the bound
      std::numeric_limits<std::int64_t>::lowest() converted to uint64
      (2^63), cast to int64 (2^63 becomes -2^63) and negate when there was a
      '-'. */
  function ToSignedNum(s: CStr): Signed {
    var hasMinus := s[0] == '-';
    var noMinus := Spliced(s, if hasMinus then 1 else 0, |s| - 1);
    match ToUnsignedNum(noMinus, Two63)
    case None => NoNumber
    case Some(v) =>
      var cast: int := if v < Two63 then v else v - Two64;
      if hasMinus && cast == -(Two63 as int) then NegationOverflows
      else Number(if hasMinus then -cast else cast)
  }

  /** The digit run after a '-' of a terminated string is the one its
      splice without the '-' starts with. */
  lemma {:induction false} NoMinusRun(s: CStr)
    requires s[0] == '-'
    ensures DigitPrefix(Spliced(s, 1, |s| - 1)) == DigitPrefix(s[1..])
  {
    var a, b := Spliced(s, 1, |s| - 1), s[1..];
    assert |a| == |b| && a[|a| - 1] == '\0' && b[|b| - 1] == '\0';
    assert forall i :: 0 <= i < |a| ==> a[i] == b[i];
    assert a == b;
  }

  /** After a '-', a run below 2^63 gives its negation; 2^63 itself does not
      compile, because negating the cast value -2^63 overflows; a run
      from 2^63 + 1 to 2^64 - 1 gives nothing. */
  lemma {:induction false} ToSignedNumMeaning(s: CStr, d: nat)
    requires s[0] == '-' && DigitPrefix(s[1..]) != []
    requires d == JsonParse.DecimalValue(DigitPrefix(s[1..])) < Two64
    ensures ToSignedNum(s) == if d < Two63 then Number(-(d as int)) else if d == Two63 then NegationOverflows else NoNumber
  {
    NoMinusRun(s);
    var noMinus := Spliced(s, 1, |s| - 1);
    assert DigitPrefix(noMinus)[0] == noMinus[0];
    ToUnsignedNumExact(noMinus, Two63);
  }

  /** -2^63, the smallest int64, is one of the inputs that do not compile. */
  lemma {:induction false} LowestDoesNotCompile()
    ensures ToSignedNum(Lit("-9223372036854775808")) == NegationOverflows
  {
    var s := Lit("-9223372036854775808");
    var d := "9223372036854775808";
    assert s[1..] == d + ['\0'];
    DigitRunIs(s[1..], 19);
    assert DigitPrefix(s[1..]) == d;
    assert JsonParse.DecimalValue(d) == Two63 by {
      DigitsOfTwo63();
      JsonParse.DecimalValueOfDigits(Two63);
    }
    ToSignedNumMeaning(s, Two63);
  }

  /** to_signed_num<Str>() as evidently intended: after a '-' the bound is
      2^63 and the value is negated as a whole number, without a '-' the
      bound is 2^63 - 1, and the conversion is the checked one. */
  function ToSignedNumFixed(s: CStr): Signed {
    var hasMinus := s[0] == '-';
    var noMinus := Spliced(s, if hasMinus then 1 else 0, |s| - 1);
    match ToUnsignedNumChecked(noMinus, if hasMinus then Two63 else Two63 - 1)
    case None => NoNumber
    case Some(v) => Number(if hasMinus then -(v as int) else v)
  }

  /** The splice without a '-' is the string itself. */
  lemma {:induction false} NoMinusSplice(s: CStr)
    ensures Spliced(s, 0, |s| - 1) == s
  {
    assert s[..|s| - 1] + [s[|s| - 1]] == s;
  }

  /** Every signed literal reads as its value exactly when that value is in
      the int64 range [-2^63, 2^63 - 1], and as nothing otherwise. */
  lemma {:induction false} ToSignedNumFixedMeaning(s: CStr)
    ensures var digits := DigitPrefix(if s[0] == '-' then s[1..] else s);
      ToSignedNumFixed(s) ==
        if digits == [] then NoNumber
        else if s[0] == '-' then
          (if JsonParse.DecimalValue(digits) <= Two63 then Number(-(JsonParse.DecimalValue(digits) as int)) else NoNumber)
        else
          (if JsonParse.DecimalValue(digits) < Two63 then Number(JsonParse.DecimalValue(digits)) else NoNumber)
  {
    if s[0] == '-' {
      NoMinusRun(s);
      var noMinus := Spliced(s, 1, |s| - 1);
      if DigitPrefix(noMinus) != [] {
        assert DigitPrefix(noMinus)[0] == noMinus[0];
      }
      ToUnsignedNumCheckedExact(noMinus, Two63);
    } else {
      NoMinusSplice(s);
      if DigitPrefix(s) != [] {
        assert DigitPrefix(s)[0] == s[0];
      }
      ToUnsignedNumCheckedExact(s, Two63 - 1);
    }
  }

  /** -2^63, the smallest int64, reads as itself. */
  lemma {:induction false} LowestFixed()
    ensures ToSignedNumFixed(Lit("-9223372036854775808")) == Number(-(Two63 as int))
  {
    var s := Lit("-9223372036854775808");
    var d := "9223372036854775808";
    assert s[1..] == d + ['\0'];
    DigitRunIs(s[1..], 19);
    assert DigitPrefix(s[1..]) == d;
    assert JsonParse.DecimalValue(d) == Two63 by {
      DigitsOfTwo63();
      JsonParse.DecimalValueOfDigits(Two63);
    }
    ToSignedNumFixedMeaning(s);
  }

  /** Without a '-' the bound 2^63 is one too high: 9223372036854775808
      passes it and the cast turns it into -2^63. The corrected conversion
      gives nothing for it. */
  lemma {:induction false} UnsignedTwo63Wraps()
    ensures ToSignedNum(Lit("9223372036854775808")) == Number(-(Two63 as int))
    ensures ToSignedNumFixed(Lit("9223372036854775808")) == NoNumber
  {
    var s := Lit("9223372036854775808");
    var d := "9223372036854775808";
    assert s[..19] == d;
    DigitRunIs(s, 19);
    assert DigitPrefix(s) == d;
    assert JsonParse.DecimalValue(d) == Two63 by {
      DigitsOfTwo63();
      JsonParse.DecimalValueOfDigits(Two63);
    }
    NoMinusSplice(s);
    ToUnsignedNumExact(s, Two63);
    ToSignedNumFixedMeaning(s);
  }

  /** The decimal digits of the two constants above, one digit at a time. */
  lemma {:induction false} DigitsOf2050000000000000000()
    ensures JsonParse.Digits(2050000000000000000) == "2050000000000000000"
  {
    assert JsonParse.Digits(2) == "2";
    assert JsonParse.Digits(20) == "20";
    assert JsonParse.Digits(205) == "205";
    assert JsonParse.Digits(2050) == "2050";
    assert JsonParse.Digits(20500) == "20500";
    assert JsonParse.Digits(205000) == "205000";
    assert JsonParse.Digits(2050000) == "2050000";
    assert JsonParse.Digits(20500000) == "20500000";
    assert JsonParse.Digits(205000000) == "205000000";
    assert JsonParse.Digits(2050000000) == "2050000000";
    assert JsonParse.Digits(20500000000) == "20500000000";
    assert JsonParse.Digits(205000000000) == "205000000000";
    assert JsonParse.Digits(2050000000000) == "2050000000000";
    assert JsonParse.Digits(20500000000000) == "20500000000000";
    assert JsonParse.Digits(205000000000000) == "205000000000000";
    assert JsonParse.Digits(2050000000000000) == "2050000000000000";
    assert JsonParse.Digits(20500000000000000) == "20500000000000000";
    assert JsonParse.Digits(205000000000000000) == "205000000000000000";
    assert JsonParse.Digits(2050000000000000000) == "2050000000000000000";
  }

  lemma {:induction false} DigitsOfTwo63()
    ensures JsonParse.Digits(Two63) == "9223372036854775808"
  {
    assert JsonParse.Digits(9) == "9";
    assert JsonParse.Digits(92) == "92";
    assert JsonParse.Digits(922) == "922";
    assert JsonParse.Digits(9223) == "9223";
    assert JsonParse.Digits(92233) == "92233";
    assert JsonParse.Digits(922337) == "922337";
    assert JsonParse.Digits(9223372) == "9223372";
    assert JsonParse.Digits(92233720) == "92233720";
    assert JsonParse.Digits(922337203) == "922337203";
    assert JsonParse.Digits(9223372036) == "9223372036";
    assert JsonParse.Digits(92233720368) == "92233720368";
    assert JsonParse.Digits(922337203685) == "922337203685";
    assert JsonParse.Digits(9223372036854) == "9223372036854";
    assert JsonParse.Digits(92233720368547) == "92233720368547";
    assert JsonParse.Digits(922337203685477) == "922337203685477";
    assert JsonParse.Digits(9223372036854775) == "9223372036854775";
    assert JsonParse.Digits(92233720368547758) == "92233720368547758";
    assert JsonParse.Digits(922337203685477580) == "922337203685477580";
    assert JsonParse.Digits(9223372036854775808) == "9223372036854775808";
  }
}
