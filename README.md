# A Dafny model of the p2996 reflection playground

The playground is a set of C++26 programs that run almost entirely at
compile time (`consteval`/`constexpr`), using static reflection to turn
JSON documents and schemas into C++ types, to look up and set struct
members by name, and to call functions and constructors with named
arguments. This project models what is left once the reflection calls
that emit types (`define_aggregate`, `substitute`, `data_member_spec`)
are replaced by their effect: deterministic, sequential logic over
strings and sequences. Most ways the source stops compile-time evaluation
(a `throw`, a failing `static_assert` or `assert`, undefined behaviour, a
loop that never ends) are error values of the model. The exceptions are
the preconditions and the unchecked member names listed under
"## Left out".

One Dafny module per source file:

- `Basics` (basics.dfy): `Option`, the six-character whitespace set both
  JSON parsers skip, and the lexicographic order on character sequences.
- `Sorting` (sorting.dfy): `std::ranges::sort` on a small array, as an
  in-place insertion sort proved sorted and a permutation.
- `FixedString` (fixed_string.dfy): `fixed_string<N>` of src/common.hpp,
  with widening, `==` over all stored characters, `view`,
  `shrink_fixed_string`, `make_uniform_fixed_strings` and
  `append_fixed_strings`.
- `KhctString`, `KhctCommon`, `KhctMap`, `KhctJsonNumber`, `KhctJson`
  and `KhctJsonDocs`: the `khct` library under src/json_schema2/. That is
  `string<N>` with `splice`, `pad_left`, `pad_right`, `+`, `split` and
  `strip_leading_whitespace`; `nil`, `pair` and `tuple`; the sorted `map`
  and `multi_type_map`; the integer conversions; and the template JSON
  parser, with a round trip for a printable document language.
- `JsonParse` (json_parse.dfy): the recursive-descent parser of
  src/json_parse.hpp. Its loops are methods proved equal to specification
  functions. The module also has a printer whose output the parser reads
  back.
- `JsonStruct` and `JsonStructSample`: src/json_struct.cpp, which builds
  a struct's member list from a "format" object and its values from a
  "data" array, with the file's sample worked through.
- `SchemaTypes`, `JsonSchema1`, `JsonSchema2` and `JsonSchema3`: the three
  JSON Schema compilers (src/json_schema.cpp, src/json_schema2/main.cpp,
  src/json_schema3.cpp). Their records are
  `FieldType = Prim | Rec | Vec | Opt | Bag` member lists, and
  `define_aggregate` is an insertion into a registry of records.
- `RuntimeSetter` (runtime_setter.dfy): `set_by_name`, `get_by_name`,
  `get_variant_of_unique_types` and `assign_variant_by_name` over a struct
  given as a list of named, typed members. Assignability is a given
  relation.
- `Commands` (commands.dfy) and `RuntimeNameSetter`
  (runtime_name_setter.dfy): whitespace tokenizing, command dispatch with
  arity checks, the `'|'`-joined command list and the `set`/`view` editor.
- `Etc` (etc.dfy): `named_variant`, a tagged union with a mutable index,
  and `delim_outputter`.
- `NamedParams`, `NamedParams2` and `NamedConstruct`: the permutation from
  argument names to parameter slots, with positional arguments first, and
  constructor selection.

The defects of the source are modelled as written. The last section
lists them, each with the lemma that exhibits it and a corrected member
whose intended property is proved.

## Model

| member | source | states |
|---|---|---|
| FixedString.View | src/common.hpp:33 | the view is the storage up to, not including, the first '\0'; it holds no '\0' and is shorter than the size |
| FixedString.Default | src/common.hpp:11 | the default fixed_string holds N characters '\0' |
| FixedString.FromRange | src/common.hpp:15-20 | the range is copied to the front of an all-'\0' storage; the rest stays '\0' |
| FixedString.Widen | src/common.hpp:22-29 | widening to a larger size copies the old storage to the front of a default one of the new size |
| FixedString.WidenedView | src/common.hpp:22-29 | widening keeps the view |
| FixedString.EqualIsStorage | src/common.hpp:31 | the defaulted == between two strings of one size is equality of the whole storage |
| FixedString.PaddingMatters | src/common.hpp:31 | two strings with the same view but different bytes after the '\0' compare unequal |
| FixedString.CrossEqualLiterals | src/common.hpp:22-31 | for two literals of any sizes, == holds exactly when their texts are equal |
| FixedString.Shrink | src/common.hpp:40-45 | shrink_fixed_string has size (length of the text) + 1 and the same view |
| FixedString.MakeUniform | src/common.hpp:47-52 | one string per input, in order, each widened to the largest size |
| FixedString.MakeUniformViews | src/common.hpp:47-52 | make_uniform_fixed_strings keeps every view |
| FixedString.AppendFixedStrings | src/common.hpp:54-66 | the result's size is the sum of the sizes minus the count plus one, and its view is the views concatenated in order |
| FixedString.Appended | src/common.hpp:54-66 | append_fixed_strings gives a string of size sum(N) - count + 1 that holds a '\0' and whose view is the views concatenated in order |
| FixedString.AppendedTwo | src/common.hpp:54-66 | two strings appended store the first view, the second view, then '\0' up to the size N1 + N2 - 1 |
| FixedString.WriteViews | src/common.hpp:62-64 | the copy loop writes every view where the previous one ended and leaves '\0' after them |
| FixedString.AppendExample | src/common.hpp:54-66 | appending "ab", "c" and "" gives the view "abc" |
| Sorting.InsertionSortCorrect | src/json_schema2/map.hpp:24 | for a strict weak order, the sorted sequence is ordered and a permutation of the input |
| Sorting.InsertionSortPermutes | src/json_schema2/map.hpp:24 | sorting permutes its input whatever the comparator |
| Sorting.InsertionSortApply | src/json_schema2/map.hpp:113-114 | sorting indexes by their keys and then sorting the keys leaves the keys in the order of the sorted indexes |
| Sorting.InsertionSortOfSorted | src/json_schema2/map.hpp:24 | an already sorted sequence is left as it is |
| Sorting.SortInPlace | src/json_schema2/map.hpp:24 | sorting the array in place leaves the sorted sequence of its old contents |
| KhctMap.LowerBound | src/json_schema2/map.hpp:29-30 | std::lower_bound: every element before the result is below the key, and the result is the first that is not |
| KhctMap.LowerBoundPartitioned | src/json_schema2/map.hpp:29-30 | on a range sorted by a strict weak order, no element from the lower bound on is below the key |
| KhctMap.PairLessOrder | src/json_schema2/map.hpp:24 | comparing pairs key first, then value, is a strict weak order when both orders are |
| KhctMap.MakeMap | src/json_schema2/map.hpp:21-25 | the constructor copies the pairs and sorts them in place |
| KhctMap.MakeMapMeaning | src/json_schema2/map.hpp:57-63 | make_map holds exactly the given pairs (as a multiset), sorted |
| KhctMap.Merge | src/json_schema2/map.hpp:46-55 | merge holds the pairs of lhs then those of rhs, sorted in place |
| KhctMap.MergeMeaning | src/json_schema2/map.hpp:46-55 | the merged map has Size1 + Size2 pairs, the multiset union of both, sorted |
| KhctMap.KeysSorted | src/json_schema2/map.hpp:24 | pairs sorted key first have their keys sorted |
| KhctMap.LookupNone | src/json_schema2/map.hpp:27-35 | operator[] gives nullopt exactly when every stored key is below the key looked up |
| KhctMap.LookupPresent | src/json_schema2/map.hpp:27-35 | in a sorted map a stored key finds a pair with that key |
| KhctMap.LookupNeighbour | src/json_schema2/map.hpp:27-35 | as written: a key not stored, below some stored key, gets the value of the least stored key above it |
| KhctMap.LookupNeighbourExample | src/json_schema2/map.hpp:27-35 | a map of {3: 30, 1: 10} looks 2 up as 30 |
| KhctMap.LookupChecked | src/json_schema2/map.hpp:27-35 | corrected: operator[] with the `loc->first == k` test, none when the lower bound's key differs |
| KhctMap.LookupCheckedMeaning | src/json_schema2/map.hpp:27-35 | corrected: in a sorted map the checked lookup has a value exactly when the key is stored, and the value is stored with that key |
| KhctMap.LookupCheckedExample | src/json_schema2/map.hpp:27-35 | corrected: the map {3: 30, 1: 10} has nothing for 2 |
| KhctMap.Iota | src/json_schema2/map.hpp:110 | std::iota fills 0, 1, ..., n - 1 |
| KhctMap.MakeMultiTypeMap | src/json_schema2/map.hpp:103-120 | make_multi_type_map fills the indexes with iota, sorts them by their keys, then sorts the keys |
| KhctMap.BuiltMeaning | src/json_schema2/map.hpp:103-120 | Keys is sorted and holds the original keys; Mapping is a permutation of 0..n-1; Keys[j] is the original key at Mapping[j] |
| KhctMap.GetKeyMeaning | src/json_schema2/map.hpp:75-89 | get_key finds exactly the keys that were given and yields a value given with that key; other keys give nil |
| KhctMap.Get | src/json_schema2/map.hpp:91-96 | get<I> compiles exactly for an index below the size |
| KhctMap.GetWhenSelfInverse | src/json_schema2/map.hpp:91-96 | get<I> gives back the I-th pair when Mapping is its own inverse |
| KhctMap.GetSmallMaps | src/json_schema2/map.hpp:91-96 | with at most two keys get<I> gives back the I-th pair |
| KhctMap.GetMisPairs | src/json_schema2/map.hpp:91-96 | as written: for keys c, a, b, get<0> pairs "b" with the value given for "c" |
| KhctMap.IndexOf | src/json_schema2/map.hpp:91-96 | the first position at which Mapping holds I, with no earlier one |
| KhctMap.GetByInverse | src/json_schema2/map.hpp:91-96 | corrected: get<I> pairs the I-th value with the key whose Mapping entry is I; it gives a pair only for an index below the size that Mapping holds |
| KhctMap.GetByInverseBuilt | src/json_schema2/map.hpp:91-96 | corrected: for every number of pairs, get<I> through the inverse of Mapping gives back the I-th pair |
| KhctMap.SizeMeaning | src/json_schema2/map.hpp:98 | size() is the number of pairs |
| Basics.LexLessIrreflexive | src/json_schema2/string.hpp:82-86 | no view orders before itself under the lexicographic order of <=> |
| Basics.LexLessTransitive | src/json_schema2/string.hpp:82-86 | the lexicographic order of views is transitive |
| Basics.LexLessTotal | src/json_schema2/string.hpp:82-86 | two different views are ordered one way or the other |
| Basics.LexLessAsymmetric | src/json_schema2/string.hpp:82-86 | two views are never each below the other |
| KhctString.UpToNulMeaning | src/json_schema2/string.hpp:65 | the string_view conversion is the longest prefix without '\0', ended by a '\0' or the end of the storage |
| KhctString.UpToNulOf | src/json_schema2/string.hpp:65 | a '\0'-free prefix is kept whole in front of the view of the rest |
| KhctString.LitMeaning | src/json_schema2/string.hpp:20 | a literal's size() is its text length, its view is its text, and empty() holds exactly for "" |
| KhctString.Blank | src/json_schema2/string.hpp:18 | the default string is all '\0' |
| KhctString.Fill | src/json_schema2/string.hpp:44 | std::fill writes the filler over the range and nothing else |
| KhctString.Splice | src/json_schema2/string.hpp:30-38 | splice<Start, End> copies value_[Start..End) to the front of a zero string of size End - Start + 1 |
| KhctString.SplicedView | src/json_schema2/string.hpp:30-38 | a splice of '\0'-free characters has exactly those characters as its view and End - Start as its size |
| KhctString.PadLeft | src/json_schema2/string.hpp:40-47 | pad_left fills Padsize characters and copies the string after them |
| KhctString.LeftPadded | src/json_schema2/string.hpp:43-45 | the fill and then the copy, one after the other, give the padded string |
| KhctString.PaddedLeftView | src/json_schema2/string.hpp:40-47 | the view is Padsize fillers then the old view, or empty when the filler is '\0'; the size grows by Padsize |
| KhctString.PadRight | src/json_schema2/string.hpp:49-56 | pad_right copies the string, then fills from its terminator up to the last character |
| KhctString.RightPadded | src/json_schema2/string.hpp:52-54 | the copy and then the fill, one after the other, give the padded string |
| KhctString.PaddedRightView | src/json_schema2/string.hpp:49-56 | the view of a padded literal is its text then Padsize fillers; the size grows by Padsize |
| KhctString.Widen | src/json_schema2/string.hpp:58-63 | widening to NewSize is pad_right with '\0' and has NewSize characters |
| KhctString.WidenedView | src/json_schema2/string.hpp:58-63 | widening keeps the view |
| KhctString.CompareMeaning | src/json_schema2/string.hpp:80-86 | <=> is equivalent exactly when == holds, and is antisymmetric |
| KhctString.EqualIgnoresPadding | src/json_schema2/string.hpp:80-86 | strings of different sizes with the same view are == and equivalent |
| KhctString.Concat | src/json_schema2/string.hpp:89-97 | operator+ has SizeL + SizeR - 1 characters |
| KhctString.ConcatenatedView | src/json_schema2/string.hpp:89-97 | the view of a + b is a's text then b's view, and the sizes add |
| KhctString.ConcatenatedLiterals | src/json_schema2/string.hpp:89-97 | two literals added are the literal of the two texts |
| KhctString.Find | src/json_schema2/string.hpp:104 | std::ranges::find gives the first position holding the character, or the end |
| KhctString.SplitMeaning | src/json_schema2/string.hpp:99-128 | splitting a literal on a visible character compiles; the pieces' views joined by the character give the text back; with a limit k the text is split at its first min(occurrences, k) occurrences: there are that many pieces plus one, and no piece before the last holds the character; without one there is one piece more than occurrences and no piece holds the character |
| KhctString.FindInLit | src/json_schema2/string.hpp:104 | in a literal, find stops where it stops in the text, or at the end when the text lacks the character |
| KhctString.SplitWhole | src/json_schema2/string.hpp:105-107 | a text without the character is one piece, itself |
| KhctString.SplitOnce | src/json_schema2/string.hpp:109-113 | with a limit of one, the pieces are the text before the first occurrence and the text after it |
| KhctString.CountSplit | src/json_schema2/string.hpp:109-117 | each split consumes exactly one occurrence of the character |
| KhctString.SplitExample | src/json_schema2/string.hpp:124-128 | "a,b,c" splits into "a", "b", "c", and with a limit of one into "a", "b,c" |
| KhctString.SplitOnTerminator | src/json_schema2/string.hpp:105-111 | splitting on '\0' finds the terminator and the rest splice fails its static_assert, so the call does not compile |
| KhctString.FindNonWs | src/json_schema2/string.hpp:134-136 | find_if_not gives the first non-whitespace position, with only whitespace before it |
| KhctString.StripLeadingWhitespace | src/json_schema2/string.hpp:130-144 | the result is never longer than the input |
| KhctString.StripMeaning | src/json_schema2/string.hpp:130-144 | on a literal, the result is the literal of the text without its leading whitespace (an all-whitespace text gives "") |
| KhctCommon.NilEqual | src/json_schema2/common.hpp:11-28 | nil equals nil, and nil never equals a value of another type |
| KhctCommon.NilEqualSymmetric | src/json_schema2/common.hpp:11-28 | comparing with nil gives the same answer from either side |
| KhctCommon.PairGet | src/json_schema2/common.hpp:40-50 | pair::get<0> is first, get<1> is second, any other index throws |
| KhctCommon.GetAtIndex | src/json_schema2/common.hpp:65-74 | get_at_index<I> is the I-th value of the pack, and there is none past its end |
| KhctCommon.TupleMeaning | src/json_schema2/common.hpp:126-137 | a tuple built from values has their count as size and gives the I-th value for get<I>, nothing past the end |
| KhctCommon.TupleCat | src/json_schema2/common.hpp:150-156 | tuple_cat's size is the sum of the sizes |
| KhctCommon.TupleCatMeaning | src/json_schema2/common.hpp:150-156 | tuple_cat holds t1's values and then t2's, at shifted indexes |
| KhctCommon.TupleEqual | src/json_schema2/common.hpp:139-148 | tuples compare only when they have the same size |
| KhctCommon.AllEqualMeaning | src/json_schema2/common.hpp:145-147 | the fold of == over the index sequence holds exactly when every pair of elements is equal |
| KhctCommon.TupleEqualMeaning | src/json_schema2/common.hpp:139-148 | two tuples of one size are == exactly when they are equal element by element |
| KhctJson.SkipOne | src/json_schema2/json.hpp:186-190 | dropping the first character and stripping what follows gives a shorter string |
| KhctJson.ClosingQuoteIs | src/json_schema2/json.hpp:211-224 | the end of a string is the first '"' from the given index on that no backslash precedes, or the end of the storage |
| KhctJson.FindStringEnd | src/json_schema2/json.hpp:211-224 | the search loop returns the first unescaped closing quote after the opening one, or the end |
| KhctJson.ParseJsonString | src/json_schema2/json.hpp:204-233 | parse_json_string yields a string or invalid_string, and an error comes with string{""} |
| KhctJson.ParseJsonStringOf | src/json_schema2/json.hpp:204-233 | a quoted body whose quotes are all escaped reads back as that body, escapes untouched, with the rest after the closing quote |
| KhctJson.ParseJsonStringText | src/json_schema2/json.hpp:204-233 | conversely, a string that parses was its quoted body followed by the rest |
| KhctJson.ParseJsonStringFails | src/json_schema2/json.hpp:207-226 | invalid_string exactly when the first character is not '"' or no closing quote follows |
| KhctJson.EscapedQuote | src/json_schema2/json.hpp:215-222 | "a\"b" keeps its escaped quote in the body |
| KhctJson.NumberEnd | src/json_schema2/json.hpp:312-313 | the number lookahead stops at the first character that is not a digit, '-', '.', 'e', 'E' or '+' |
| KhctJson.ParseNumber | src/json_schema2/json.hpp:310-347 | a number's rest is no longer than the input, and an error comes with string{""} |
| KhctJson.ParseValue | src/json_schema2/json.hpp:279-363 | parse_json_value's rest is no longer than its input, and an error comes with string{""} |
| KhctJson.ParseObject | src/json_schema2/json.hpp:282-300 | the '{' branch gives a map or unexpected_input or unexpected_end_of_input |
| KhctJson.ParseArray | src/json_schema2/json.hpp:301-309 | the '[' branch gives a tuple or unexpected_input |
| KhctJson.ParseArrayValue | src/json_schema2/json.hpp:179-202 | the elements form a tuple with no error among them, or the result is unexpected_input |
| KhctJson.ParseMember | src/json_schema2/json.hpp:238-261 | a member is a string key with a non-error value, or the error is unexpected_input or unexpected_end_of_input |
| KhctJson.ParseObjectValue | src/json_schema2/json.hpp:235-276 | the members form a tuple of string-keyed pairs, or the result is unexpected_input or unexpected_end_of_input |
| KhctJson.ObjectPairs | src/json_schema2/json.hpp:294-296 | make_multi_type_map gets one key-value pair per member, keyed by the member's view |
| KhctJson.UnexpectedStart | src/json_schema2/json.hpp:360-361 | input that starts no value (a leading '0', '+' or '.' among them) is unexpected_input |
| KhctJson.Keywords | src/json_schema2/json.hpp:348-356 | true, false and null are matched as prefixes and whatever follows is the rest |
| KhctJson.ParseValueNumber | src/json_schema2/json.hpp:310 | a nonzero digit or '-' starts a number |
| KhctJson.UnsignedNumber | src/json_schema2/json.hpp:337-345 | digits below 2^64 give their value, with the rest after every number character |
| KhctJson.NegativeNumber | src/json_schema2/json.hpp:107-120 | after '-', digits below 2^63 give their negation; 2^63 does not compile; larger values below 2^64 are number_too_large |
| KhctJson.SignedBranch | src/json_schema2/json.hpp:328-336 | the signed branch gives what to_signed_num gives, number_too_large for no number, and does not compile when the negation overflows |
| KhctJson.MinusWithoutDigits | src/json_schema2/json.hpp:93-95 | a '-' without digits after it is number_too_large |
| KhctJson.FloatingNumber | src/json_schema2/json.hpp:316-326 | a '.', 'e' or 'E' in the number sends the whole input to to_double, and the rest starts after the number |
| KhctJson.KeyErrorMasked | src/json_schema2/json.hpp:238-245 | as written: a key that is not a string gives unexpected_input, since is_json_error on the pair is false |
| KhctJson.ValueErrorMasked | src/json_schema2/json.hpp:249-257 | as written: a value error inside an object gives unexpected_end_of_input, since is_json_error on the pair is false |
| KhctJson.MemberValueError | src/json_schema2/json.hpp:249-257 | after a key and ':', a value error ends the member with unexpected_end_of_input |
| KhctJson.ParseMemberChecked | src/json_schema2/json.hpp:238-257 | corrected: a member that parses has a string key, a value that is not an error, and a strictly shorter rest |
| KhctJson.ParseObjectValueChecked | src/json_schema2/json.hpp:236-278 | corrected: the result is the object's members or an error with an empty rest, and the rest is never longer than the input |
| KhctJson.KeyErrorReported | src/json_schema2/json.hpp:238-241 | corrected: a key that is not a string gives invalid_string |
| KhctJson.ValueErrorReported | src/json_schema2/json.hpp:249-252 | corrected: a value error inside an object is passed on as the value's own result |
| KhctJson.MemberValueErrorChecked | src/json_schema2/json.hpp:249-252 | corrected: after a key and ':', the member ends in the value's own error |
| KhctJson.CheckedMembersAgree | src/json_schema2/json.hpp:236-278 | wherever parse_object_value yields members, the checked version yields the same members and rest |
| KhctJson.ParseJsonOf | src/json_schema2/json.hpp:367-378 | parse_json gives the value, or remaining_input when anything but whitespace follows it |
| KhctJson.EmptyContainers | src/json_schema2/json.hpp:284-305 | "{}" is the empty map and "[]" the empty tuple, with the rest after them |
| KhctJsonNumber.DigitPrefix | src/json_schema2/json.hpp:97 | the digits at the front of the string: all digits, a prefix, followed by a non-digit or the end |
| KhctJsonNumber.Scan | src/json_schema2/json.hpp:96-104 | a value the scan accepts is within the bound and below 2^64 |
| KhctJsonNumber.ComputeUnsignedNum | src/json_schema2/json.hpp:90-105 | the loop of to_unsigned_num computes the digit scan: nothing without a leading digit, nothing when a step passes the bound or falls below the previous value |
| KhctJsonNumber.ScanStep | src/json_schema2/json.hpp:98-102 | one step multiplies by 10 modulo 2^64, adds the digit, and stops with nothing above the bound or below the previous value |
| KhctJsonNumber.ScanNoneStays | src/json_schema2/json.hpp:99-101 | once the scan has returned nothing, no longer run changes that |
| KhctJsonNumber.ScanExact | src/json_schema2/json.hpp:96-104 | for a digit run whose value is below 2^64 the scan is that value when within the bound, otherwise nothing |
| KhctJsonNumber.ToUnsignedNumExact | src/json_schema2/json.hpp:90-105 | to_unsigned_num of a run below 2^64 is its decimal value, or nothing when there are no digits or it exceeds the bound |
| KhctJsonNumber.MissedWrap | src/json_schema2/json.hpp:98-99 | as written: "20500000000000000000" exceeds 2^64 - 1 yet wraps to 2053255926290448384, which the overflow check misses |
| KhctJsonNumber.ScanChecked | src/json_schema2/json.hpp:96-104 | corrected: a step is refused before it is taken when to_ret > (max - digit) / 10; an accepted value is within the bound |
| KhctJsonNumber.StepAbove | src/json_schema2/json.hpp:98-99 | corrected: the test before the step holds exactly when the step would pass the bound |
| KhctJsonNumber.ScanCheckedExact | src/json_schema2/json.hpp:96-104 | corrected: for every digit run, however long, the checked scan is its decimal value when within the bound, otherwise nothing |
| KhctJsonNumber.ToUnsignedNumCheckedExact | src/json_schema2/json.hpp:90-105 | corrected: ToUnsignedNumExact's conclusion for every string, without the below-2^64 premise |
| KhctJsonNumber.WrapRefused | src/json_schema2/json.hpp:98-101 | corrected: "20500000000000000000" gives nothing with the bound 2^64 - 1 |
| KhctJsonNumber.ToSignedNumMeaning | src/json_schema2/json.hpp:107-120 | after '-', digits below 2^63 give their negation, exactly 2^63 overflows the negation, and values above it give nothing |
| KhctJsonNumber.LowestDoesNotCompile | src/json_schema2/json.hpp:112-115 | as written: "-9223372036854775808", the smallest int64, overflows the negation and does not compile |
| KhctJsonNumber.UnsignedTwo63Wraps | src/json_schema2/json.hpp:112-115 | as written: without '-', "9223372036854775808" passes the bound 2^63 and is cast to -2^63; the corrected conversion gives nothing |
| KhctJsonNumber.ToSignedNumFixedMeaning | src/json_schema2/json.hpp:107-120 | corrected: a literal gives its value exactly when the value is in the int64 range [-2^63, 2^63 - 1], and nothing otherwise |
| KhctJsonNumber.LowestFixed | src/json_schema2/json.hpp:107-120 | corrected: "-9223372036854775808" gives -2^63 |
| KhctJsonDocs.Print | src/json_schema2/json.hpp:279-363 | every document's text starts with a character parse_json_value dispatches on |
| KhctJsonDocs.TextReadsBack | src/json_schema2/json.hpp:204-233 | a quoted body reads back as that string, leaving what follows |
| KhctJsonDocs.ElemsReadBack | src/json_schema2/json.hpp:179-202 | the elements' texts joined by commas and closed by ']' parse to the tuple of their values |
| KhctJsonDocs.ArrayReadsBack | src/json_schema2/json.hpp:301-309 | an array's text reads back as the tuple of its elements' values, the empty tuple for "[]" |
| KhctJsonDocs.MembersReadBackAll | src/json_schema2/json.hpp:235-276 | members' texts joined by commas and closed by '}' parse to the tuple of key-value pairs |
| KhctJsonDocs.PairsOfMembers | src/json_schema2/json.hpp:294-296 | the pairs handed to make_multi_type_map are the members' keys and values, in order |
| KhctJsonDocs.ObjectReadsBack | src/json_schema2/json.hpp:282-300 | an object's text reads back as the multi_type_map built from its members with lex_comp, the empty map for "{}" |
| KhctJsonDocs.EmptyDocs | src/json_schema2/json.hpp:284-305 | the empty array prints "[]" with the empty tuple as value, the empty object "{}" with the empty map |
| KhctJsonDocs.RoundTrip | src/json_schema2/json.hpp:279-363 | every document's text, followed by any text that does not start with whitespace, parses to the document's value and leaves exactly that text |
| KhctJsonDocs.ParseJsonRoundTrip | src/json_schema2/json.hpp:367-378 | parse_json of a document's text gives the document's value |
| KhctJsonDocs.TextAlone | src/json_schema2/json.hpp:367-378 | a text that reads as a value with nothing after it is that value for parse_json |
| JsonSchema2.GetKey | src/json_schema2/main.cpp:53 | get_key on a schema map yields one of its own values (a smaller value), or nil |
| JsonSchema2.Property | src/json_schema2/main.cpp:53-56 | each pair the `template for` visits holds one of the map's own values |
| JsonSchema2.DefineObject | src/json_schema2/main.cpp:48-73 | handle_object's loop, pushing one member per non-array property and recursing into nested objects, gives what the handle_object specification gives; a "properties" value without elements defines the record with no members |
| JsonSchema2.PushMember | src/json_schema2/main.cpp:55-69 | one iteration fails exactly when the property's type fails, and otherwise pushes the promised member with the registry after any nested record |
| JsonSchema2.DefineSchemaRecords | src/json_schema2/main.cpp:91-105 | define_schema_types from the schema text gives what its specification gives |
| JsonSchema2.HandleFieldMeaning | src/json_schema2/main.cpp:75-83 | handle_field compiles exactly when "type" is one of the five type_mapping names, and yields that entry |
| JsonSchema2.PropertyTypeMeaning | src/json_schema2/main.cpp:57-69 | a property that compiles gives the promised member; the registry only grows, stays unique and gets only plain records |
| JsonSchema2.FieldsMeaning | src/json_schema2/main.cpp:53-70 | the loop from get<i> on yields the promised members, each a type_mapping entry or an earlier record |
| JsonSchema2.FieldsRejects | src/json_schema2/main.cpp:57-69 | a property with no "type" string, or with a type that is neither "object", "array" nor a type_mapping name, makes the whole loop fail |
| JsonSchema2.HandleObjectMeaning | src/json_schema2/main.cpp:48-73 | a compiling handle_object has a "properties" map or a "properties" value without elements, and defines StructName last, with the promised members (none for a value without elements), after the records of nested objects |
| JsonSchema2.MembersMeaning | src/json_schema2/main.cpp:53-70 | the `template for` over "properties" compiles only over a map or a value without elements (missing, true, false, null, []) and yields the promised members, each a type_mapping entry or an earlier record |
| JsonSchema2.EmptyRecord | src/json_schema2/main.cpp:52-72 | with "properties" missing, true, false, null or [], the `template for` expands zero times and StructName is defined with no members, unless it already is |
| JsonSchema2.EmptyArrayProperties | src/json_schema2/main.cpp:53 | "properties": [] (the empty tuple) defines the record with no members |
| JsonSchema2.MissingProperties | src/json_schema2/main.cpp:53 | a schema without "properties" (get_key gives nil, a class without members) defines the record with no members |
| JsonSchema2.EmptyMapProperties | src/json_schema2/main.cpp:53 | "properties": {} defines the record with no members |
| JsonSchema2.ArrayOfNamesProperties | src/json_schema2/main.cpp:55 | "properties": ["a"] does not compile, as its element has no first |
| JsonSchema2.HandleObjectRejects | src/json_schema2/main.cpp:53-69 | handle_object fails when "properties" is neither a map nor a value without elements, and with any rejected property |
| JsonSchema2.PaddedNestedName | src/json_schema2/main.cpp:59 | as written: the name of a record two levels down keeps the '\0' padding of a widened key, so beside a sibling key "painful" the name root::pain + "::" + inner views as root::pain |
| JsonSchema2.DefineFromJsonMeaning | src/json_schema2/main.cpp:94-104 | only a root of type "object" defines records, its record last; another type string does not compile; a root without a type defines nothing |
| JsonSchema2.DefineSchemaTypesMeaning | src/json_schema2/main.cpp:91-105 | DefPrefix changes nothing; a schema that does not parse does not compile; records are added only for a root of type "object", ending with StructName, names kept unique |
| JsonSchema2.PrimitiveProperty | src/json_schema2/main.cpp:65-68 | a property {"type": t} with t a type_mapping name gives a member of that entry |
| JsonSchema2.PrimitiveFields | src/json_schema2/main.cpp:53-70 | properties that are all primitive give their type_mapping entries under the names get<I> pairs them with |
| JsonSchema2.CabFields | src/json_schema2/main.cpp:53-56 | as written: properties c: string, a: number, b: boolean come out as members b: string, c: double, a: bool |
| JsonSchema2.CabRecord | src/json_schema2/main.cpp:48-73 | as written: handle_object of that schema defines the record with those mis-paired members |
| JsonSchema2.NestedSchemaBuilt | src/json_schema2/main.cpp:6-20 | on the tree of basic_nested_schema: it is the map make_multi_type_map builds for its "$schema", "type" and "properties" members |
| JsonSchema2.NestedExample | src/json_schema2/main.cpp:107 | on the tree of basic_nested_schema, the definitions append the records root::pain (member sadness: double) and root (member pain: root::pain) |
| JsonSchema2.MemberIndex | src/json_schema2/main.cpp:111 | the first member with the designator's name from a position on, or none |
| JsonSchema2.NestedInitializer | src/json_schema2/main.cpp:109-111 | root{.pain = {.sadness = 10.0}} initializes the generated record, and a designator root lacks does not |
| JsonParse.OneOf | src/json_parse.hpp:68-78 | one_of holds exactly when the value is among the listed ones |
| JsonParse.StripLeadingWhitespace | src/json_parse.hpp:80-87 | the loop gives the strip specification |
| JsonParse.StripWsMeaning | src/json_parse.hpp:80-87 | the result is a suffix of the input, only whitespace was removed, and it starts with no whitespace |
| JsonParse.StripWsIdempotent | src/json_parse.hpp:80-87 | stripping twice is stripping once |
| JsonParse.StripWsPrefix | src/json_parse.hpp:80-87 | any whitespace before a text that does not start with whitespace is removed and nothing else |
| JsonParse.LookupFirstMatch | src/json_parse.hpp:49-58 | the lookup finds nothing exactly when no key matches, and otherwise the value of the first matching pair |
| JsonParse.GetByKey | src/json_parse.hpp:49-58 | get_by_key returns the first matching value or throws "no matching key found" |
| JsonParse.FindQuote | src/json_parse.hpp:95 | find('"', from) gives the first quote from that index on, or none when there is none |
| JsonParse.FindQuoteFirst | src/json_parse.hpp:95 | a quote with no quote before it from the start index is the one found |
| JsonParse.ParseStr | src/json_parse.hpp:91-106 | a parsed string leaves a strictly shorter rest |
| JsonParse.ParseJsonStr | src/json_parse.hpp:91-106 | the loop of parse_json_str gives the ParseStr specification: the key and rest, a throw without a closing quote, or endless looping on an escaped quote |
| JsonParse.ParseStrOk | src/json_parse.hpp:91-106 | a parsed string is the text between the opening quote and the first quote, which no backslash precedes, and the rest follows that quote |
| JsonParse.ParseStrEscapedQuoteDiverges | src/json_parse.hpp:94-104 | as written: a backslash before the first closing quote makes the loop find that same quote forever |
| JsonParse.ClosingQuote | src/json_parse.hpp:94-104 | corrected: the quote found is the first at or after the start with no backslash before it; none means there is no such quote |
| JsonParse.ParseStrResumed | src/json_parse.hpp:91-106 | corrected: never diverges; it succeeds exactly when some quote after position 0 has no backslash before it, giving the text up to the first such quote and the rest after it |
| JsonParse.ParseJsonStrResumed | src/json_parse.hpp:91-106 | corrected: the loop that resumes one past each escaped quote computes ParseStrResumed |
| JsonParse.ParseStrResumedAgrees | src/json_parse.hpp:91-106 | wherever parse_json_str ends, the corrected version gives the same result |
| JsonParse.EscapedQuoteResumed | src/json_parse.hpp:94-104 | corrected: the string "a\"b" parses as one key, a\"b, with nothing after it |
| JsonParse.DigitRun | src/json_parse.hpp:114 | the digit run from an index: all digits, followed by a non-digit or the end |
| JsonParse.FromChars | src/json_parse.hpp:113-118 | std::from_chars into int64 gives a value within int64 and a shorter rest |
| JsonParse.IntTextRoundTrip | src/json_parse.hpp:113-118 | from_chars reads back the decimal text of any int64, leaving what follows |
| JsonParse.SignedDigitsRoundTrip | src/json_parse.hpp:113-118 | an optional '-' and digits whose value fits int64 read back as that value |
| JsonParse.ParseValue | src/json_parse.hpp:108-175 | parse_json_value leaves a strictly shorter rest |
| JsonParse.ParseJsonValue | src/json_parse.hpp:108-175 | the recursive parser method gives the ParseValue specification |
| JsonParse.ParseObjectEntries | src/json_parse.hpp:124-154 | the object loop gives the entries specification |
| JsonParse.ParseArrayElements | src/json_parse.hpp:155-173 | the array loop gives the elements specification |
| JsonParse.ParseJson | src/json_parse.hpp:177-185 | parse_json gives the value, or throws when anything but whitespace follows it |
| JsonParse.EmptyObjectRejected | src/json_parse.hpp:126-129 | "{}" throws "expected string for JSON key" |
| JsonParse.EmptyArrayRejected | src/json_parse.hpp:157-161 | "[]" throws "unexpected token", since ']' starts no value |
| JsonParse.LiteralsRejected | src/json_parse.hpp:174 | true, false and null are unexpected tokens |
| JsonParse.FractionRejected | src/json_parse.hpp:113-118 | "1.5" reads 1 and leaves ".5", so parse_json throws |
| JsonParse.EscapedQuoteDiverges | src/json_parse.hpp:94-104 | as written: the document "a\"b" never finishes parsing |
| JsonParse.TextRoundTrip | src/json_parse.hpp:108-175 | every value without escaped quotes, laid out with any whitespace, parses back to itself with the rest left over |
| JsonParse.PairsRoundTrip | src/json_parse.hpp:133-153 | the object loop reads back every pair in order |
| JsonParse.ElemsRoundTrip | src/json_parse.hpp:159-172 | the array loop reads back every element in order |
| JsonParse.ParseText | src/json_parse.hpp:177-185 | parse_json reads a value back whatever whitespace surrounds it |
| JsonParse.ParsePrint | src/json_parse.hpp:177-185 | parse_json of a value's compact text is that value |
| JsonParse.DuplicateKeysKept | src/json_parse.hpp:141 | {"a":1,"a":2} keeps both pairs, in order |
| JsonStruct.Modulus | src/json_struct.cpp:11-20 | each type_mapping integer type holds a positive number of values, 2 to its width |
| JsonStruct.Convert | src/json_struct.cpp:44 | storing an int64 into a member keeps the value modulo 2 to the member's width and lands in the member's range |
| JsonStruct.ConvertKeepsFitting | src/json_struct.cpp:44 | a value the member type can hold is stored unchanged |
| JsonStruct.MakeStructFromJson | src/json_struct.cpp:22-32 | make_struct_from_json gives one member per "format" entry, or the failure of parse_json, get_by_key, std::get or the type lookup |
| JsonStruct.FormatMembersMeaning | src/json_struct.cpp:27-30 | the member list is built exactly when every "format" value is a string naming a type_mapping entry, one member per entry, in order |
| JsonStruct.TypeMappingNames | src/json_struct.cpp:11-20 | type_mapping knows exactly i8, i16, i32, i64, u8, u16, u32 and u64 |
| JsonStruct.Unwrap | src/json_struct.cpp:46 | a record whose members are all set yields their values in order |
| JsonStruct.MakeDataFromJson | src/json_struct.cpp:34-49 | make_data_from_json gives one record per "data" element, or the first failure |
| JsonStruct.MakeRecord | src/json_struct.cpp:41-46 | one element: a default struct, set_by_name for each pair, then the copy, which fails on an indeterminate member |
| JsonStruct.DataRecordsInOrder | src/json_struct.cpp:40-47 | the records are produced exactly when every element yields one, one per element, in order |
| JsonStruct.UnknownKeyIgnored | src/json_struct.cpp:42-45 | a key that names no member is skipped, since set_by_name's false result is discarded |
| JsonStruct.SetStoresConverted | src/json_struct.cpp:44 | a value outside a member's range is stored modulo the width |
| JsonStruct.ParseNumberExample | src/json_struct.cpp:5 | parse_json("123") is 123 |
| JsonStruct.ParseStringExample | src/json_struct.cpp:6 | parse_json(" \"123\" ") is the string 123 |
| JsonStruct.ParseArrayExample | src/json_struct.cpp:7 | parse_json("[1, 2, 3]") is the array 1, 2, 3 |
| JsonStruct.ParseObjectExample | src/json_struct.cpp:8-9 | parse_json("{\"a\": 123}") is the one pair a: 123 |
| JsonStructSample.StructInfoParses | src/json_struct.cpp:51-69 | struct_info parses to its format and data objects |
| JsonStructSample.SampleStruct | src/json_struct.cpp:71-72 | point gets the members x and y, both int32 |
| JsonStructSample.SamplePoint | src/json_struct.cpp:59-66 | each data element {"x": n, "y": n} gives the record (n, n) |
| JsonStructSample.SampleData | src/json_struct.cpp:73-75 | data holds (1, 1) and (2, 2), as the static_assert states |
| RuntimeSetter.CanSetWithType | src/runtime_setter_stuff.hpp:4-16 | can_set_with_type holds exactly when some member is assignable from T |
| RuntimeSetter.SetTargetFrom | src/runtime_setter_stuff.hpp:24-33 | the member set is the first one from a position on with the name and an assignable type; none means no such member |
| RuntimeSetter.SetByNameMeaning | src/runtime_setter_stuff.hpp:18-34 | set_by_name succeeds exactly when a member of that name is assignable; it sets that member to the converted value and leaves every other member, and all of them on failure |
| RuntimeSetter.Record.SetByName | src/runtime_setter_stuff.hpp:18-34 | the method on a struct's fields gives the SetByNameMeaning result and new values |
| RuntimeSetter.Record.AssignVariantByName | src/runtime_setter_stuff.hpp:73-93 | std::visit sets by name with the type of the active alternative |
| RuntimeSetter.GetVariantOfUniqueTypes | src/runtime_setter_stuff.hpp:36-49 | the loop gives the members' types with later repeats dropped |
| RuntimeSetter.UniqueTypesCorrect | src/runtime_setter_stuff.hpp:36-49 | the variant's alternatives are distinct, are exactly the members' types, and come in order of first appearance |
| RuntimeSetter.GetByName | src/runtime_setter_stuff.hpp:95-127 | get_by_name finds a member with that name, and nullopt exactly when no member has it |
| RuntimeSetter.GetByNameUnique | src/runtime_setter_stuff.hpp:95-127 | with unique member names, get_by_name points at the member of that name |
| RuntimeSetter.Alternative | src/runtime_setter_stuff.hpp:98 | each member's pointer has an alternative of the variant with that member's type |
| SchemaTypes.TypeMappingExact | src/json_schema.cpp:8-13 | get_by_key on type_mapping finds a primitive for exactly the five JSON type names "null", "boolean", "number", "integer" and "string", and nothing for any other name |
| SchemaTypes.FindMeaning | src/json_schema.cpp:140-142 | a type name is already completed exactly when some record in the registry carries that name |
| SchemaTypes.DefineMeaning | src/json_schema.cpp:142 | define_aggregate on a name already completed fails; otherwise it appends the one record, keeps every earlier record, keeps names distinct and makes the new name find its own members |
| SchemaTypes.FindAfter | src/json_schema.cpp:142 | records appended after a registry that lacks a name are the only ones that can supply it |
| SchemaTypes.LookupAt | src/json_parse.hpp:49-58 | get_by_key returns the value of the first pair whose key matches |
| SchemaTypes.LookupMissing | src/json_parse.hpp:49-58 | get_by_key finds nothing (and throws) when no key matches |
| SchemaTypes.NamedGrows | src/json_schema.cpp:137-143 | a name defined once stays defined as later definitions are appended |
| JsonSchema1.ParseSchemaTypeLoop | src/json_schema.cpp:99-120 | the two loops of parse_schema_type compute exactly the members specified by ParseSchemaType |
| JsonSchema1.PrefixedTwice | src/json_schema.cpp:116-118 | pushing one member and then the rest equals pushing the longer prefix and then the rest |
| JsonSchema1.MaxNameLength | src/json_schema.cpp:65-70 | the longest "$defs" key length bounds every key's length and is attained by some key |
| JsonSchema1.StoredName | src/json_schema.cpp:72-82 | a name stored in a fixed_string<longest + 1> has that capacity and ends in '\0' |
| JsonSchema1.GetDefNames | src/json_schema.cpp:72-82 | get_def_names stores one name per "$defs" entry, in order, each padded to longest + 1 |
| JsonSchema1.StoredNameView | src/json_schema.cpp:72-82 | the view of a stored name is the key itself when the key holds no '\0' |
| JsonSchema1.DefineSchemaRecords | src/json_schema.cpp:122-147 | the steps of define_schema_types compute exactly the registry specified by DefineFromValue |
| JsonSchema1.CheckDefsLoop | src/json_schema.cpp:128-135 | the check loop's outcome is exactly the one CheckDefs specifies |
| JsonSchema1.DefineEachLoop | src/json_schema.cpp:136-143 | the define loop's outcome is exactly the one DefineEach specifies |
| JsonSchema1.DefineSchemaTypesFromText | src/json_schema.cpp:122-147 | define_schema_types on the schema text parses it and then behaves as DefineSchemaTypes specifies |
| JsonSchema1.SingleSchemaTypeMeaning | src/json_schema.cpp:86-97 | a property yields a member exactly when its "type" names a primitive; the member has the property's name and is std::optional exactly when the name is not required; a type name outside type_mapping throws |
| JsonSchema1.MembersMeaning | src/json_schema.cpp:115-118 | members come out one per property, in order, each the promised member, and the loop succeeds exactly when every property is an object with a primitive type |
| JsonSchema1.RequiredStringsMeaning | src/json_schema.cpp:107-114 | the required names are the elements of "required" in order, and it succeeds exactly when every element is a string |
| JsonSchema1.ParseSchemaTypeMeaning | src/json_schema.cpp:99-120 | "required" and then "properties" are mandatory (get_by_key throws without them); on success "required" is an array of strings and there is one promised member per property, in order |
| JsonSchema1.CheckDefsMeaning | src/json_schema.cpp:128-135 | the check loop passes exactly when every definition is an object whose "type" is "object" |
| JsonSchema1.DefineEachMeaning | src/json_schema.cpp:136-143 | the define loop keeps the registry as a prefix, keeps names distinct and appends, for each stored key in turn, the record built from the definition get_by_key finds under that key, named by DefPrefix followed by the key's whole padded storage |
| JsonSchema1.DefineFirst | src/json_schema.cpp:137-142 | the first expansion of the define loop appends exactly one record, named DefPrefix + the first key's padded storage, and the rest of the loop continues from there |
| JsonSchema1.DefinedShift | src/json_schema.cpp:137-143 | the record of the first key followed by the records of the other keys are the records of all keys, in order |
| JsonSchema1.DefNameOf | src/json_schema.cpp:139 | append_fixed_strings<DefPrefix, name> stores DefPrefix, then the key, then the key's '\0' padding from get_def_names, in |DefPrefix| + longest + 1 characters |
| JsonSchema1.PaddedDefName | src/json_schema.cpp:139 | a key shorter than the longest key gives a record name that differs from the literal DefPrefix + key, because its storage keeps the padding; the longest key gives exactly that literal |
| JsonSchema1.ExactDefName | src/json_schema.cpp:139 | the longest key, stored with only its final '\0', gives the record name of the literal DefPrefix + key |
| JsonSchema1.UnpaddedName | src/json_schema.cpp:77-80 | DefPrefix followed by the longest key's storage is the storage of the literal DefPrefix + key |
| JsonSchema1.DistinctKeysLookup | src/json_parse.hpp:49-58 | with distinct keys, get_by_key finds each entry under its own key |
| JsonSchema1.AddedInOrder | src/json_schema.cpp:136-143 | records appended under distinct names, one per definition, are each defined from their own entry, in order, under DefPrefix + the key's padded storage |
| JsonSchema1.DefineFromValueMeaning | src/json_schema.cpp:122-147 | "$defs" is mandatory and may not be empty (std::ranges::max of nothing); on success every definition is an object schema, and exactly one record per definition is appended, in order, named DefPrefix followed by the key padded with '\0' to the longest key's length + 1 |
| JsonSchema1.NamesDefined | src/json_schema.cpp:126-143 | the names get_def_names stores are the "$defs" keys padded to the longest, so the define loop defines one record per definition in order, each under DefPrefix + its padded key |
| JsonSchema1.RootNotDefined | src/json_schema.cpp:144-146 | the root type StructName is never defined, unless DefPrefix + some "$defs" key's padded storage spells it |
| JsonSchema1.RequiredPrimitive | src/json_schema.cpp:94-96 | a required property {"type": t} of a primitive type t yields a plain member of that type |
| JsonSchema1.VeggieMembers | src/json_schema.cpp:15-50 | the veggie definition yields the required members veggieName (std::string) and veggieLike (bool) |
| JsonSchema1.VeggieDefs | src/json_schema.cpp:15-50 | the example's "$defs" holds only veggie, the longest name at six characters |
| JsonSchema1.VeggieRecord | src/json_schema.cpp:141-142 | get_by_key finds veggie's definition, and define_aggregate on the empty registry defines json_schema_types<"test_veggie"> from it |
| JsonSchema1.VeggieName | src/json_schema.cpp:139-151 | appending "test_" and the stored name "veggie" (the longest key, so without padding) gives the fixed_string "test_veggie" that main names |
| JsonSchema1.TestVeggieName | src/json_schema.cpp:151 | "test_" followed by the storage of "veggie" is the storage of the literal "test_veggie" |
| JsonSchema1.VeggieDefined | src/json_schema.cpp:137-143 | the define loop over the one stored name "veggie" defines exactly json_schema_types<"test_veggie"> |
| JsonSchema1.VeggieExample | src/json_schema.cpp:149-151 | define_schema_types<"fruits_and_veggies", "test_", basic_array_schema> defines only json_schema_types<"test_veggie">, the type main initialises, with members veggieName and veggieLike, and not the root |
| JsonSchema3.LookupSize | src/json_schema3.cpp:108-110 | a value get_by_key finds is no larger than the object it was found in, so the recursion into nested property schemas terminates |
| JsonSchema3.HandleObjectGrows | src/json_schema3.cpp:97-139 | handle_object yields the record named struct_name as the type, keeps every earlier record, puts its own record last after the records of its nested objects, and never defines a name twice |
| JsonSchema3.PropertyTypeGrows | src/json_schema3.cpp:113-123 | one property's type keeps every earlier record and never defines a name twice |
| JsonSchema3.PropertiesGrows | src/json_schema3.cpp:108-131 | the property loop keeps every earlier record and never defines a name twice |
| JsonSchema3.PropertyTypeMeaning | src/json_schema3.cpp:108-123 | a property's "type" is mandatory; a nested object's type is the record named struct_name::name, which is then defined; an array or primitive property defines nothing; the type is never an optional or the bag |
| JsonSchema3.PropertiesShape | src/json_schema3.cpp:108-131 | the members follow "properties" in order, each named after its property and std::optional exactly when not required; every nested object's record is defined; without nested objects nothing is defined |
| JsonSchema3.HandleObjectMeaning | src/json_schema3.cpp:97-139 | "properties" is mandatory and an object; additionalProperties, if present, is a boolean; the last record is struct_name, with one member per property, followed by additional_properties exactly when additionalProperties is absent or true |
| JsonSchema3.PropertiesMandatory | src/json_schema3.cpp:108 | an object schema without "properties" throws at get_by_key |
| JsonSchema3.HandleFieldMeaning | src/json_schema3.cpp:141-147 | handle_field succeeds exactly on the five type_mapping names, with their types; any other type string fails the assert |
| JsonSchema3.NestedItemsFail | src/json_schema3.cpp:153-157 | array items whose "type" is "object" or "array" fail handle_field's assert |
| JsonSchema3.PrimitiveItems | src/json_schema3.cpp:153-157 | array items with a primitive "type" give a vector of that primitive |
| JsonSchema3.ReferenceItems | src/json_schema3.cpp:158-166 | items without "type" give a vector of the record named after "#/$defs/" in their "$ref"; a reference without that prefix fails the assert; every record vector comes from such a reference |
| JsonSchema3.DefsLoopGrows | src/json_schema3.cpp:173-179 | the "$defs" loop requires every entry to be an object, defines a record under each entry's key, keeps every earlier record and never defines a name twice |
| JsonSchema3.DefsBeforeRoot | src/json_schema3.cpp:169-182 | every "$defs" entry is defined, as the record named by its key, before the root record, which comes last under struct_name; no name is defined twice |
| JsonSchema3.RootTypeUnchecked | src/json_schema3.cpp:180 | the root's "type" must be a string but its value does not change the outcome |
| JsonSchema3.EmbedLookup | src/json_parse.hpp:49-58 | get_by_key on a parsed object and on its embedding into the schema tree find the same value |
| JsonSchema3.ParsedSchemaKeepsBag | src/json_schema3.cpp:132-135 | in the model's wider tree, a schema embedded from parse_json (which has no booleans) is handled only when it leaves out additionalProperties, and its record then ends with the additional_properties member |
| JsonSchema3.AheadTwice | src/json_schema3.cpp:124-130 | pushing one member and then the rest equals pushing the longer prefix and then the rest |
| JsonSchema3.DefineObjectRecord | src/json_schema3.cpp:97-139 | handle_object's loop, with its recursion into nested objects, the bag and define_aggregate, computes exactly what HandleObject specifies |
| JsonSchema3.DefineSchemaRecords | src/json_schema3.cpp:169-182 | the "$defs" loop and then the root compute exactly what DefineOn specifies |
| JsonSchema3.DefineSchemaTypesFromText | src/json_schema3.cpp:169-182 | define_schema_types on the schema text parses it and then behaves as DefineSchemaTypes specifies |
| JsonSchema3.PrimitiveProperty | src/json_schema3.cpp:120-122 | a property schema {"type": t} of a primitive t has type t and defines nothing |
| JsonSchema3.OneString | src/json_schema3.cpp:100-107 | a one-string "required" array gives that one name |
| JsonSchema3.PainRecord | src/json_schema3.cpp:16-34 | on the tree of basic_nested_schema (not its text, which does not parse), the nested pain schema defines root::pain with the one required double sadness and no bag |
| JsonSchema3.NestedExample | src/json_schema3.cpp:192-200 | on the tree of basic_nested_schema (not its text, which does not parse), `define_schema_types` defines root::pain and then root, whose one required member pain has type root::pain; neither has the bag |
| JsonSchema3.VeggieDefined | src/json_schema3.cpp:52-64 | the veggie definition gives the record veggie with its two required members and the bag |
| JsonSchema3.ArrayMembers | src/json_schema3.cpp:40-50 | fruits is a vector of std::string and vegetables a vector of veggie; neither defines anything |
| JsonSchema3.ArrayRoot | src/json_schema3.cpp:36-66 | the root of basic_array_schema is defined after veggie |
| JsonSchema3.ArrayExample | src/json_schema3.cpp:193-205 | basic_array_schema defines veggie, then veggies_and_fruits with optional vectors fruits and vegetables and the bag |
| Commands.FindNonSpace | src/commands.cpp:55-57 | find_if_not(isspace) returns the first position from `from` on that is not whitespace, or the end |
| Commands.FindSpace | src/commands.cpp:61 | find_if(isspace) returns the first whitespace position from `from` on, or the end |
| Commands.SplitByWhitespace | src/commands.cpp:52-66 | split_by_whitespace's loop collects exactly the tokens of the line, in order |
| Commands.TokensAreTokens | src/commands.cpp:57-62 | every piece split_by_whitespace pushes is non-empty and holds no whitespace |
| Commands.TokensBlank | src/commands.cpp:52-66 | a line gives no tokens exactly when it is all whitespace |
| Commands.TokensCons | src/commands.cpp:57-63 | whitespace, a token, then the end or more whitespace: that token comes first and the rest is split on its own |
| Commands.TokensAfter | src/commands.cpp:63 | splitting a + b from the end of a is splitting b |
| Commands.TokensJoinRoundTrip | src/commands.cpp:52-66 | splitting tokens joined by single spaces gives back exactly those tokens |
| Commands.TokensSkip | src/commands.cpp:55-57 | leading whitespace does not change the tokens |
| Commands.FindCommand | src/commands.cpp:104 | std::ranges::find over the command names returns the first command with that name, or none when no command has it |
| Commands.CopyArguments | src/commands.cpp:43-44 | the argument array receives the tokens after the command name, in order |
| Commands.Invoke | src/commands.cpp:33-46 | a command's callable reports the arity error or calls with the arguments, as Invocation specifies |
| Commands.ExecuteLine | src/commands.cpp:95-126 | execute splits the line, looks the first token up and dispatches exactly as Execute specifies |
| Commands.ExecuteMeaning | src/commands.cpp:95-126 | "No command given" exactly for a blank line; help exactly when the first token is "help" and no command takes that name; "No command" exactly for another unknown name; an arity error only with the found command's parameter count differing from the argument count; a call only of the first command with that name, with the remaining tokens as arguments and the count matching |
| Commands.ExecuteCalls | src/commands.cpp:104-125 | the first command with the line's first token as name is called with the remaining tokens whenever their number is its parameter count |
| Commands.ExecuteJoined | src/commands.cpp:95-126 | a line made of a command's name and its arguments joined by spaces calls that command with those arguments |
| Commands.HelpListing | src/commands.cpp:107-117 | the help listing has one line per command, in declaration order |
| Commands.ParamListJoined | src/commands.cpp:113-115 | a help line's name followed by its parameter list is the name and parameters joined by spaces |
| Commands.HelpLineTokens | src/commands.cpp:113-116 | a help line splits back into the command's name and its parameters' identifiers |
| Commands.GreetCalled | src/commands.cpp:129-133 | "greet Bob" calls greet with the argument Bob |
| Commands.GreetWithoutName | src/commands.cpp:38-41 | "greet" alone is an arity error: 0 given, 1 expected |
| Commands.GoodbyeWithArgument | src/commands.cpp:38-41 | "goodbye now" is an arity error: 1 given, 0 expected |
| Commands.HelpListed | src/commands.cpp:106-117 | " help " prints the heading and the lines for goodbye and for greet with its parameter name |
| Commands.HelpTokens | src/commands.cpp:52-66 | " help " splits into the one token help |
| Commands.HelpLines | src/commands.cpp:113-116 | the listing of test_commands is "      goodbye" and "      greet name" |
| Commands.UnknownCommand | src/commands.cpp:119-121 | "hello" is reported as an unknown command |
| Commands.GreetWithoutNameText | src/commands.cpp:39-40 | the arity error for "greet" reads "Error: Got 0 parameters, expected 1." |
| Commands.GoodbyeWithArgumentText | src/commands.cpp:39-40 | the arity error for "goodbye now" reads "Error: Got 1 parameter, expected 0." |
| Commands.UnknownCommandText | src/commands.cpp:120 | the unknown command hello is reported as "Error: No command hello." |
| RuntimeNameSetter.ConstexprStrlen | src/runtime_name_setter.cpp:242-254 | constexpr_strlen's loop counts the characters before the first '\0' |
| RuntimeNameSetter.PipedAppend | src/runtime_name_setter.cpp:328-332 | writing two lists of names, each followed by a bar, is writing the first list and then the second |
| RuntimeNameSetter.PipedLength | src/runtime_name_setter.cpp:319-332 | the names each followed by a bar fill exactly total_len characters: the number of names plus the sum of their lengths |
| RuntimeNameSetter.PipedNoTerminator | src/runtime_name_setter.cpp:328-332 | names free of '\0' written with their separators hold no '\0' |
| RuntimeNameSetter.ArgumentsStringLength | src/runtime_name_setter.cpp:325-336 | arguments_string has total_len characters and one terminator, at its end, so the static_assert that its C-string length is its size minus one holds |
| RuntimeNameSetter.BuildArgumentsString | src/runtime_name_setter.cpp:325-335 | the lambda fills an array of total_len characters with the names joined by a bar, the last bar overwritten by '\0' |
| RuntimeNameSetter.CopyName | src/runtime_name_setter.cpp:329-331 | one turn of the copy loop writes the next name and a bar after what was already written |
| RuntimeNameSetter.PipedSnoc | src/runtime_name_setter.cpp:328-332 | one more name adds its characters and a bar at the end |
| RuntimeNameSetter.CopyInto | src/runtime_name_setter.cpp:329 | std::ranges::copy writes the name's characters at copy_loc and keeps what came before |
| RuntimeNameSetter.CommandNamesString | src/runtime_name_setter.cpp:259-336 | for set, view and view_all, arguments_string is the three names joined by bars and its terminator, 18 characters |
| RuntimeNameSetter.SetCommand | src/runtime_name_setter.cpp:261-293 | the set command changes the record's values exactly as SetSpec specifies and nothing else |
| RuntimeNameSetter.HandleLine | src/runtime_name_setter.cpp:345-357 | one line of main's loop changes the record exactly as LineSpec specifies |
| RuntimeNameSetter.SetMeaning | src/runtime_name_setter.cpp:261-293 | a missing field name, a missing value, an unknown field, a field that cannot be read from a stream, and a failed extraction each leave every value unchanged, each reported on exactly its condition; a successful set stores the extracted value in the field named by the second token and changes nothing else |
| RuntimeNameSetter.SetThenView | src/runtime_name_setter.cpp:294-308 | after a stored set, view of the same field finds that field, which holds the extracted value |
| RuntimeNameSetter.LineMeaning | src/runtime_name_setter.cpp:345-357 | a blank line prints the usage with the three names joined by bars; exactly a first token that is not a command name is an invalid command; only set changes a value |
| RuntimeNameSetter.UsageLiteral | src/runtime_name_setter.cpp:347 | the usage line reads "Usage: ", the three names joined by bars, then " [field_name] [value]" |
| RuntimeNameSetter.SetWalrusRejected | src/runtime_name_setter.cpp:288-290 | `set walrus hi` reports that the const char* field cannot be set and changes nothing |
| RuntimeNameSetter.SetXStored | src/runtime_name_setter.cpp:279-286 | `set x 5` stores 5 in x and changes no other field |
| Etc.IndexByName | src/etc.cpp:61-70 | get_index_by_name returns the first member whose name compares equal to Name, and none (the "Name not found" throw) exactly when no member's name does |
| Etc.GetIndexByName | src/etc.cpp:61-70 | the template for over the indices, with its early return, computes exactly IndexByName |
| Etc.IndexByLiteral | src/etc.cpp:61-70 | with names given as literals, the index found is that of the first member spelled the same |
| Etc.Lits | src/etc.cpp:264 | the member names of a named_variant, one fixed_string per literal, in order |
| Etc.NamedVariant.Create | src/etc.cpp:73-78 | create<Name> stores the value under the index of Name, which must be a member name |
| Etc.NamedVariant.Get | src/etc.cpp:94-112 | get<Name> yields a value exactly when Name's index is the variant's current index |
| Etc.NamedVariant.Set | src/etc.cpp:114-120 | after set<Name>, get<Name> yields the new value and get of any other name yields a value exactly when it has the same index |
| Etc.MainExample | src/etc.cpp:264-273 | the calls of main: a holds 10 under wow and nothing under wow2; after set<"wow2">(10) b has nothing under wow and 10 under wow2; after set<"double">(20) it holds 20.0 under double |
| Etc.DelimOutputter.Call | src/etc.cpp:154-163 | delim_outputter writes nothing on its first call and ", " on every later call |
| Etc.WriteSeparated | src/etc.cpp:207-236 | calling the outputter before each item writes the items separated by ", " |
| Etc.SeparatedLength | src/etc.cpp:207-236 | n items separated by ", " take their lengths plus two characters for each of the n - 1 separators |
| Etc.LengthsSnoc | src/etc.cpp:207-236 | one more item adds its own length |
| NamedParams.FindParam | src/named_params.cpp:28-32 | std::ranges::find by identifier returns the first parameter with the name, or the parameter count when none has it |
| NamedParams.Finish | src/named_params.cpp:24-37 | the array is a constant exactly when every slot was written, and the mapping is then the written slots |
| NamedParams.GetParamMapping | src/named_params.cpp:20-38 | get_param_mapping's loop computes exactly ParamMapping |
| NamedParams.MapFromStep | src/named_params.cpp:26-36 | one turn of the loop writes the name's index into its parameter's slot |
| NamedParams.MapFromMapped | src/named_params.cpp:26-37 | with every name a parameter, the loop ends with a mapping whose slot j names parameter j, or with an unwritten slot |
| NamedParams.MappedSlots | src/named_params.cpp:20-38 | a successful mapping's slot j holds the index of the argument named after parameter j |
| NamedParams.MappedInRange | src/named_params.cpp:24-37 | a successful mapping has one slot per name, each the index of a name |
| NamedParams.ParamMappingMeaning | src/named_params.cpp:20-38 | get_param_mapping succeeds exactly when there are names, every name is a parameter in the window, and the names are distinct; the slots then name each parameter's argument |
| NamedParams.Onto | src/named_params.cpp:24-37 | n distinct slot values below n cover every slot |
| NamedParams.DistinctFillsAll | src/named_params.cpp:24-37 | with distinct names every slot gets written, so the mapping succeeds |
| NamedParams.MapFromOutside | src/named_params.cpp:28-34 | a name that is not a parameter in the window never yields a mapping |
| NamedParams.UnknownNameMeaning | src/named_params.cpp:33 | the "Illegal parameter name" static_assert fires exactly when the first name that stops the loop is not a parameter, and it is reported for that name |
| NamedParams.MapFromUnknown | src/named_params.cpp:33 | the loop stops at an unknown name when the names before it are parameters |
| NamedParams.MapFromUnknownAt | src/named_params.cpp:33 | an unknown-name stop names the first name that stops the loop |
| NamedParams.MappedIsDistinct | src/named_params.cpp:24-37 | a successful mapping means every name is a parameter and no name repeats |
| NamedParams.TupleParams | src/named_params.cpp:40-46 | get_tuple_params forwards, at position I, the argument the mapping puts at I |
| NamedParams.Names | src/named_params.cpp:85 | the names of the arguments, in call order |
| NamedParams.Values | src/named_params.cpp:91 | the values of the arguments, in call order |
| NamedParams.AllParamsHaveIdentifiers | src/named_params.cpp:59-68 | the loop answers true exactly when every parameter has an identifier |
| NamedParams.Identifiers | src/named_params.cpp:29-30 | the identifiers of parameters that all have one, in order |
| NamedParams.CallPermutation | src/named_params.cpp:70-101 | with one distinct parameter name per argument, the call compiles, passes the object first for a member function, and gives every parameter the value of the argument named after it |
| NamedParams.ObjectFirst | src/named_params.cpp:87-91 | the object of a member function goes in front of the reordered arguments |
| NamedParams.CallMapped | src/named_params.cpp:95-99 | such a call applies the function to the arguments reordered by the mapping |
| NamedParams.ArgumentsNamed | src/named_params.cpp:40-46 | the arguments reordered by a successful mapping give each parameter the argument named after it |
| NamedParams.NamesFound | src/named_params.cpp:28-33 | names that are all parameters, as many as there are parameters, lie in the window |
| NamedParams.TestCall | src/named_params.cpp:117 | test is called with a = 1, b = 2, see = 3 and the pointer, whatever the order of the named arguments |
| NamedParams.FindsOfTest | src/named_params.cpp:103 | see, a, ptr and b are parameters 2, 0, 3 and 1 of test |
| NamedParams.MappingOfTest | src/named_params.cpp:117 | the names see, a, ptr, b map test's slots to arguments 1, 3, 0, 2 |
| NamedParams.TupleOfTest | src/named_params.cpp:117 | the reordered arguments of that call are 1, 2, 3 and the pointer |
| NamedParams.Func2Call | src/named_params.cpp:118 | s::func2 called with c = 10 and b = 5 receives b = 5 and c = 10 |
| NamedParams.MemberCalls | src/named_params.cpp:119-120 | s::func receives its object, an s or a derived, first and x after it |
| NamedParams.DuplicateNameLeavesSlotUnset | src/named_params.cpp:24-37 | naming b twice in a call of s::func2 leaves c's slot unwritten, so the call does not compile |
| NamedParams.RejectedCalls | src/named_params.cpp:23-33 | an unknown name is rejected by the static_assert, and a call with no names does not compile |
| NamedParams2.FirstNamed | src/named_params2.cpp:69-70 | first_named_param is the index of the first named argument, every argument before it positional, or the argument count |
| NamedParams2.LastPositional | src/named_params2.cpp:74-75 | last_value_param is one past the last positional argument, every argument from it on named, or 0 |
| NamedParams2.LastNamed | src/named_params2.cpp:72-73 | last_named_param is one past the last named argument, every argument from it on positional, or 0 |
| NamedParams2.OrderCheckMeaning | src/named_params2.cpp:76 | the static_assert first_named_param >= last_value_param holds exactly when no positional argument follows a named one |
| NamedParams2.IndexRange | src/named_params2.cpp:54-64 | make_index_seq<Low, High> is Low, Low + 1, ..., High - 1, and empty when High <= Low |
| NamedParams2.MakeIndexSeq | src/named_params2.cpp:54-61 | make_index_seq_impl's loop pushes exactly IndexRange(low, high) |
| NamedParams2.PositionalValues | src/named_params2.cpp:78-80 | get_value_params over make_index_sequence<last_value_param> forwards the first last_value_param arguments' values, in order |
| NamedParams2.NamedArgs | src/named_params2.cpp:81-86 | get_named_params sees the arguments at the indices make_index_seq<first_named_param, last_named_param> |
| NamedParams2.NamedArgsAreTheRest | src/named_params2.cpp:81-93 | with positional arguments first, get_named_params sees every argument from the first named one on, all of them named |
| NamedParams2.ParamNames | src/named_params2.cpp:83 | the names of the named arguments, in call order |
| NamedParams2.ArgValues | src/named_params2.cpp:85 | the values of the named arguments, in call order |
| NamedParams2.AssembleMeaning | src/named_params2.cpp:78-101 | the call compiles exactly when the named arguments name the remaining parameters, each once; it then passes the prefix, the positional values in order, and for every later parameter the value of the named argument that bears its name |
| NamedParams2.AssembleCallsIff | src/named_params2.cpp:81-86 | assembling compiles exactly when the named arguments name the remaining parameters, each once |
| NamedParams2.AssembleCalls | src/named_params2.cpp:88-101 | a compiled call passes the prefix, then the positional values, then each remaining parameter's named value |
| NamedParams2.Shape | src/named_params2.cpp:90-100 | the tuple_cat of prefix, positional values and reordered named values puts each value in its parameter's place |
| NamedParams2.CallMeaning | src/named_params2.cpp:105-122 | call_with_param_names fails its arity static_assert exactly when the argument count is not the parameter count; the order check fails exactly when, with the right count, a positional argument follows a named one; the call compiles exactly when the count is right, the order is right and the named arguments name the remaining parameters, each once |
| NamedParams2.AllPositionalRejected | src/named_params2.cpp:27-44 | a call without named arguments does not compile, as get_param_mapping gets no names |
| NamedParams2.NamingPositionalParameter | src/named_params2.cpp:40 | a named argument naming a parameter already given positionally makes the slot index wrap and the call does not compile |
| NamedParams2.PositionalNameOutside | src/named_params2.cpp:40 | such named arguments do not name the remaining parameters |
| NamedParams2.HasAnnotation | src/named_params2.cpp:127-136 | has_annotation's loop answers true exactly when the annotation is among the constructor's annotations |
| NamedParams2.NamedConstructors | src/named_params2.cpp:143-148 | the constructors kept are exactly those annotated named_constructor |
| NamedParams2.NamedConstructUsesAnnotated | src/named_params2.cpp:139-183 | with one annotated constructor and positional arguments first, named_construct assembles the arguments against that constructor's parameter names |
| NamedParams2.NamedConstructArity | src/named_params2.cpp:154-182 | a named_construct that assembles passes as many arguments as were given, and no more than the annotated constructor has parameters; no arity check is made |
| NamedParams2.AbcFound | src/named_params2.cpp:185 | a, b and c are parameters 0, 1 and 2 of func |
| NamedParams2.AssembleOf | src/named_params2.cpp:88-101 | once the mapping is known, the call passes the prefix, the positional values and the values reordered by the mapping |
| NamedParams2.MappingCb | src/named_params2.cpp:201 | after one positional argument, the names c and b map b's slot to the second named argument and c's to the first |
| NamedParams2.FuncCall | src/named_params2.cpp:201 | func(10, c = 30, b = 20) receives a = 10, b = 20, c = 30 |
| NamedParams2.ConstructS | src/named_params2.cpp:204 | named_construct<s>(10, c = 30, b = 20) passes 10, 20, 30 to the constructor |
| NamedParams2.CbCall | src/named_params2.cpp:201 | the arguments 10, c = 30, b = 20 pass the order check and assemble to 10, 20, 30 after any prefix |
| NamedParams2.MemberFuncCall | src/named_params2.cpp:202 | s::func(s{}, 10, 20, c = 30) receives the object, then 10, 20, 30 |
| NamedParams2.MappingC | src/named_params2.cpp:202 | after two positional arguments, the name c maps the one remaining slot to it |
| NamedParams2.AddCall | src/named_params2.cpp:203 | add(rhs = 20, lhs = 10) receives lhs = 10 and rhs = 20 and returns 30 |
| NamedParams2.MappingAdd | src/named_params2.cpp:203 | the names rhs, lhs map add's slots to arguments 1 and 0 |
| NamedParams2.RejectedCalls | src/named_params2.cpp:27-76 | func(1, 2, 3) names nothing and does not compile; func(c = 30, 10, 20) fails the order check |
| NamedConstruct.Candidates | src/named_construct.cpp:78-88 | the constructors kept are exactly those whose parameter count is the argument count |
| NamedConstruct.IdentifierStop | src/named_construct.cpp:36-40 | std::ranges::find stops at the first parameter that has no identifier or is named the name, or at the end when there is none |
| NamedConstruct.FirstUnreadable | src/named_construct.cpp:34-41 | some name's search reaches a parameter without an identifier exactly when one is reported, and the one reported is such a name |
| NamedConstruct.IdsAgree | src/named_construct.cpp:38-39 | a search that reaches no parameter without an identifier finds the same index as find over the identifiers |
| NamedConstruct.MappingOf | src/named_construct.cpp:28-48 | a constructor's mapping fails to compile exactly when some name's search calls identifier_of on a parameter without an identifier; otherwise it is valid exactly when get_param_mapping maps the names, and nullopt exactly when the loop stops at an unknown name |
| NamedConstruct.Mappings | src/named_construct.cpp:103-113 | param_mappings holds one mapping per candidate constructor, in order |
| NamedConstruct.FillMappings | src/named_construct.cpp:103-113 | the template for fills a fresh array with exactly the candidates' mappings |
| NamedConstruct.ValidIndex | src/named_construct.cpp:115-130 | the index lambda's loop computes exactly what Scan specifies |
| NamedConstruct.ValidIndexMeaning | src/named_construct.cpp:115-130 | exactly one valid mapping yields its index; no valid mapping yields size_t(-1); a second valid mapping stops at the assert, naming the first two |
| NamedConstruct.ScanNone | src/named_construct.cpp:117-122 | the loop with nothing found yet ends with the only valid index, with -1 when there is none, or at the assert with two valid mappings |
| NamedConstruct.ScanOne | src/named_construct.cpp:117-122 | the loop after finding index k ends with k when no later mapping is valid, or at the assert with the next valid one |
| NamedConstruct.FirstFailure | src/named_construct.cpp:34-44 | some candidate's mapping is a compile error (an unnamed parameter reached, an index below the offset, a slot left unwritten) exactly when a failure is reported, and the failure reported is one of them |
| NamedConstruct.Choose | src/named_construct.cpp:102-147 | a build uses the one candidate with a valid mapping and passes its assembled call; no valid mapping means no candidate; a failing mapping is reported exactly when some mapping fails |
| NamedConstruct.BuildsAssembled | src/named_construct.cpp:135-147 | a valid mapping for a candidate means its arguments assemble |
| NamedConstruct.NamedConstructMeaning | src/named_construct.cpp:74-148 | the order check fails exactly when a positional argument follows a named one; a build uses a constructor with as many parameters as arguments, whose names the named arguments cover, as the only candidate that covers them, and passes the assembled call |
| NamedConstruct.ChooseBuilds | src/named_construct.cpp:115-135 | the constructor built is a candidate, and no other candidate covers the named arguments |
| NamedConstruct.MappingAbsentMeaning | src/named_construct.cpp:34-43 | a mapping is nullopt exactly when no name's search reaches a parameter without an identifier and the first name that stops the loop is unknown; some name is then the identifier of none of the constructor's parameters |
| NamedConstruct.TwoCoverOf | src/named_construct.cpp:117-122 | two different candidates that cover the named arguments make two covering candidates |
| NamedConstruct.ChooseCases | src/named_construct.cpp:102-135 | a mapping fails exactly when one is a compile error; otherwise it builds exactly when one candidate alone covers the named arguments, has no candidate exactly when none covers them, and stops at the assert exactly when two do |
| NamedConstruct.ChooseFails | src/named_construct.cpp:103-113 | a mapping fails exactly when some candidate's mapping is a compile error |
| NamedConstruct.ChooseBuildsIff | src/named_construct.cpp:115-135 | it builds exactly when no mapping fails and exactly one candidate covers the named arguments |
| NamedConstruct.ChooseNoCandidateIff | src/named_construct.cpp:115-135 | it has no candidate exactly when no mapping fails and no candidate covers the named arguments |
| NamedConstruct.ChooseSecondIff | src/named_construct.cpp:117-122 | it stops at the assert exactly when no mapping fails and two candidates cover the named arguments |
| NamedConstruct.NamedConstructCases | src/named_construct.cpp:74-148 | with the order right: a failing mapping exactly when a candidate's mapping is a compile error, an unnamed parameter reached by a search among them; otherwise a build exactly when one candidate alone covers the named arguments, no candidate exactly when none does, and the assert exactly when two do |
| NamedConstruct.TwoCandidatesRejected | src/named_construct.cpp:119 | two candidates that both cover the named arguments stop at the assert, unless a mapping fails first |
| NamedConstruct.MakeS | src/named_construct.cpp:150-157 | s(x, y) stores x and y; s(x, y, mult) stores x * mult and y * mult; no other argument count constructs an s |
| NamedConstruct.ConstructByNames | src/named_construct.cpp:161-162 | named_construct<s>(y = 20, x = 10) picks s(int x, int y) and builds x == 10, y == 20 |
| NamedConstruct.ByNamesArgs | src/named_construct.cpp:90-97 | for y = 20, x = 10 every argument is named, the order check passes and the names are y, x |
| NamedConstruct.ByNamesAssembled | src/named_construct.cpp:135-147 | y = 20, x = 10 assemble against (x, y) as 10, 20 |
| NamedConstruct.TwoArgCandidates | src/named_construct.cpp:78-88 | s's two-parameter candidate is (x, y), its three-parameter candidate is (x, y, mult), and its one-parameter candidates are the implicit copy and move constructors, without identifiers |
| NamedConstruct.MappingYx | src/named_construct.cpp:28-48 | the names y, x map (x, y)'s slots to arguments 1 and 0 |
| NamedConstruct.MappingOfYx | src/named_construct.cpp:28-48 | every parameter of (x, y) has an identifier, so the names y, x map its slots to arguments 1 and 0 |
| NamedConstruct.ConstructWithMult | src/named_construct.cpp:163-164 | named_construct<s>(10, 20, mult = 2) picks s(int x, int y, int mult) and builds x == 20, y == 40 |
| NamedConstruct.MultAssembled | src/named_construct.cpp:143-147 | 10, 20, mult = 2 assemble against (x, y, mult) as 10, 20, 2 |
| NamedConstruct.MultArgs | src/named_construct.cpp:90-101 | for 10, 20, mult = 2 the named arguments start at 2, the order check passes, the positional values are 10, 20 and the one name is mult |
| NamedConstruct.MappingMult | src/named_construct.cpp:28-48 | after two positional arguments, the name mult maps the one remaining slot to it |
| NamedConstruct.MappingOfMult | src/named_construct.cpp:28-48 | every parameter of (x, y, mult) has an identifier, so after two positional arguments the name mult maps the remaining slot to it |
| NamedConstruct.UnnamedFirstRejects | src/named_construct.cpp:34-40 | a candidate whose first parameter has no identifier, such as an implicit copy or move constructor, makes every call with a named argument fail to compile |
| NamedConstruct.ImplicitCopyRejects | src/named_construct.cpp:34-40 | for struct t { t(int v); }, named_construct<t>(v = 1) does not compile: the search for v in the implicit copy constructor calls identifier_of on its unnamed parameter |
| NamedConstruct.OneNamedArg | src/named_construct.cpp:90-101 | for v = 1 the one argument is named, the order check passes and the one name is v |
| NamedConstruct.TCandidates | src/named_construct.cpp:78-88 | all three constructors of t, t(int v) and the implicit copy and move constructors, take one parameter and are candidates |
| NamedConstruct.TMappings | src/named_construct.cpp:34-44 | t(int v) maps v without failing, and the copy constructor's mapping is the first failure: a search for v reaching its unnamed parameter |

## Left out

- `to_double` (src/json_schema2/json.hpp:122-174) and the floating-point branch of number parsing are floating-point arithmetic. `KhctJson.ParseNumber` gives a number written with `.` or `e` as an uninterpreted `Double` of its text.
- `Sorting.SortInPlace` stands in for `std::ranges::sort` with a stable insertion sort. `std::sort` is not stable. The difference shows only for elements the comparator cannot tell apart, such as duplicate keys in `KhctMap`, where it changes only the order of their indexes.
- Characters are compared as code points. The platform's signedness of `char` is not modelled.
- Console input and output are not modelled. That covers the `std::getline` loops, `std::print`, `print_named_value`, the output of `view_all`, and the `std::formatter` specialisations of src/etc.cpp:169-257. Of the formatter, only the separator logic (`delim_outputter`) is modelled. Reading a value from a `std::stringstream` in the `set` command is a given oracle.
- Reflection is replaced by its effect. A struct is its list of named, typed members. A function or constructor is the list of its parameters' identifiers. `define_aggregate` is an insertion into a registry of records. The reflection primitives of src/common.hpp:68-105 (`reflect_constant`, `define_static_array`) are not modelled.
- `make_min_size` (src/runtime_name_setter.cpp:195-229) is not modelled, because it relies on the alignment and sizes the compiler supplies.
- The destructor of `named_variant` and its `delete_cur_index` (src/etc.cpp:50-88) only end the lifetime of the live member. They change no observable value, so they are not modelled.
- Forwarding, `noexcept` and value categories (`std::forward_like`, the rvalue overloads) have no effect at the value level and are not modelled.
- src/dyn_traits.cpp, src/my_tuple.hpp and src/module_test_main.cpp are not part of this model. They are type-erasure and module mechanics with no behaviour beyond constant strings and indexed storage.
- `{Names.size...}` at src/named_params2.cpp:30 and src/named_construct.cpp:31 lacks the call parentheses that src/named_params.cpp:23 has, so as written those two files do not compile. The model reads it as `.size()`.
- The `assert`s at src/named_params2.cpp:149, src/named_construct.cpp:119, src/json_schema.cpp:134 and src/json_schema3.cpp:145 and :162 are compiled out when `NDEBUG` is defined. The model takes the build in which they are checked: the last three give `AssertionFailed`.
- NamedConstruct.MakeS: the coordinates of `s(x, y, mult)` are unbounded integers here. The model does not capture the `int` overflow the source would meet in constant evaluation.
- NamedParams2.NamedConstruct: the source passes the assembled arguments to `ToConstruct(args...)`, so ordinary overload resolution chooses among all constructors; the annotated one only supplies the parameter names. The model's `Calls` outcome is the argument list that reaches that call, assembled by the annotated constructor's parameter names (`NamedParams2.NamedConstructArity` bounds its length by that constructor's parameter count). Whether some constructor accepts that list, which overload resolution decides, is not modelled, so `Calls` is also given for an argument count no constructor takes.
- NamedParams.CallWithParamNames: two conditions are preconditions, not error outcomes. These are the `requires` clause of `call_with_param_names` (src/named_params.cpp:71-72), that every parameter is named, and its arity `static_assert` (src/named_params.cpp:82 and :97).
- FixedString.View: a storage without '\0' is a precondition. `std::string_view{storage_}` would read past the array, which constant evaluation rejects; the model has no error value for it.
- FixedString.FromRange: a range longer than the size (src/common.hpp:15-20) is a precondition. Copying it overruns the storage, which constant evaluation rejects; the model has no error value for it.
- FixedString.Widen: the target size must be larger (src/common.hpp:23-24). That is the conversion's own `requires` clause, so the conversion does not exist otherwise; the model takes it as a precondition.
- FixedString.Shrink: a storage without '\0' (src/common.hpp:40-45) is a precondition. The span of `end + 1` characters would then read past the array; the model has no error value for it.
- FixedString.MakeUniform: an empty pack (src/common.hpp:47-52) is a precondition. `std::ranges::max` of an empty list is not a constant expression; the model has no error value for it.
- FixedString.AppendFixedStrings: an empty pack (src/common.hpp:54-66) is a precondition. The `+` fold over an empty pack does not compile; the model has no error value for it.
- KhctString.Spliced: `Start <= End <= N` is a precondition. It stands for the two `static_assert`s at src/json_schema2/string.hpp:33-34; the model has no error value for them. `KhctString.Split` never calls it outside that range and reports the one failing splice it can reach (a C in the last slot) as none.
- KhctString.Splice: the same precondition as `KhctString.Spliced`, for the same `static_assert`s.
- RuntimeSetter.Record.AssignVariantByName: every alternative of the variant is passed to `set_by_name`, whose `static_assert` must hold for each of them at compile time, even for alternatives the runtime index never selects. The model takes this as a precondition over all alternatives, not an error outcome.
- NamedConstruct.NamedConstruct: once a candidate is chosen, the source calls `ToConstruct(args...)`, and C++ overload resolution picks the constructor. That may be a different constructor with the same arity. The model reports the chosen candidate and its assembled arguments, not the result of overload resolution.
- RuntimeSetter.Record.SetByName: the `static_assert` that some member is assignable from the argument type (src/runtime_setter_stuff.hpp:21) is a precondition, not an error outcome.
- JsonStruct.MakeDataFromJson: the struct is required to have a member. That is the same `static_assert` of `set_by_name`, since every integer member is assignable from `std::int64_t`.
- JsonSchema3.HandleObject: `get_by_key_opt` is defined in no file of the repository. It is modelled as a first-match lookup that gives none for an absent key, like `get_by_key` without the throw. `std::get<bool>` on `additionalProperties` cannot be fed by src/json_parse.hpp, whose values have no boolean. The schema walker therefore runs over a wider JSON tree with a boolean alternative, into which the parser's values embed. As written, `std::get<bool>(*add_prop)` at src/json_schema3.cpp:133 names an alternative that `json_value` does not have, so the source does not compile at that line for any input; `JsonSchema3.ParsedSchemaKeepsBag` is a statement about the model's wider tree, not about the source.
- JsonSchema2.DefineSchemaTypes: `[[no_unique_address]]` is not modelled. `handle_array` is never instantiated by the source and is modelled as adding no member. A missing `"properties"` key, like `true`, `false`, `null` and `[]`, gives a `template for` that expands zero times (their structured binding size is 0), so the record has no members. The examples start from parsed trees.
- JsonSchema2.PropertyType: a nested record is named by joining the views of StructName, "::" and the property's key. In the source the name is the whole storage `operator+` builds (src/json_schema2/string.hpp:90-97), and a key shorter than the longest key of its map keeps the '\0' padding it was widened with. A record two levels down under such a key therefore has a name whose view stops after the shorter key (`JsonSchema2.PaddedNestedName`). The model's joined views are not that storage.
- Etc.NamedVariant.Create: Name being a member name is a precondition. It stands for the "Name not found" throw of `get_index_by_name` (src/etc.cpp:69), which every call site of the source avoids.
- Etc.NamedVariant.Get: the same precondition as `Etc.NamedVariant.Create`, for the same throw.
- Etc.NamedVariant.Set: the same precondition as `Etc.NamedVariant.Create`, for the same throw.
- RuntimeNameSetter.ConstexprStrlen: a '\0' in the characters is a precondition. Without one the loop reads past the array (src/runtime_name_setter.cpp:245-248); the model has no error value for it.
- RuntimeNameSetter.BuildArgumentsString: a non-empty command list is a precondition. With none, `total_len` is 0 and writing `back()` of the empty array (src/runtime_name_setter.cpp:333) is undefined; the model has no error value for it.
- RuntimeNameSetter.ArgumentsString: the same precondition as `RuntimeNameSetter.BuildArgumentsString`.
- RuntimeNameSetter.ArgumentsStringLength: the same precondition as `RuntimeNameSetter.BuildArgumentsString`.
- KhctJsonDocs.RoundTrip: the round trip covers documents written without whitespace and without numbers. Numbers have their own lemmas in `KhctJsonNumber` and `KhctJson`.
- SchemaTypes.Define: `define_aggregate` and `data_member_spec` also reject member names that are not identifiers (such as `first-name`), keywords, and two members with the same name. The model has no error value for these, so SchemaTypes.DefineMeaning promises nothing about member names.
- JsonStruct.MakeStructFromJson: a "format" key that is not an identifier or a keyword, or a key that occurs twice, makes `define_aggregate` fail in the source. `JsonParse` keeps duplicate keys, and the model builds the member list anyway; JsonStruct.FormatMembersMeaning says when the list is built, not when the source compiles.
- JsonSchema1.DefineSchemaTypes: property names that are not identifiers, keywords or duplicates are not rejected, for the same reason as SchemaTypes.Define. The same holds for JsonSchema2.DefineSchemaTypes and JsonSchema3.DefineSchemaTypes.
- JsonSchema1.DefineFromValueMeaning: the record names are stated for a DefPrefix and "$defs" keys without '\0'. With an embedded '\0' the view of the appended fixed_string stops early; the model has no lemma for that case.
- JsonSchema1.DefineSchemaTypes: the root schema itself is never defined, as in the source. Only the `$defs` entries become records.

## Findings

Each defect is modelled as written, with a lemma that exhibits it, and beside it a corrected member with the evidently intended property proved for all inputs. The rest of the model keeps the as-written behaviour, since that is what the source does.

| source | as written | input that shows it | evidently intended | confidence | as-written member | corrected member |
|---|---|---|---|---|---|---|
| src/json_parse.hpp:94-104 | after an escaped quote the search restarts at that same quote, so the loop never advances | the string `"a\"b"` | resume one past the escaped quote; end at the first quote with no backslash before it | not executed | `JsonParse.ParseStrEscapedQuoteDiverges` | `JsonParse.ParseStrResumed` |
| src/json_schema2/json.hpp:98-101 | the overflow check compares the wrapped value with the bound and the old value, and misses some wrap-arounds | `20500000000000000000`, read as 2053255926290448384 | refuse the step when to_ret > (max - digit) / 10 | not executed | `KhctJsonNumber.MissedWrap` | `KhctJsonNumber.ToUnsignedNumCheckedExact` |
| src/json_schema2/json.hpp:110-115 | the bound 2^63 is cast to -2^63 and negated, which overflows; without '-' the same bound lets 2^63 through as -2^63 | `-9223372036854775808`; `9223372036854775808` | bound 2^63 after '-', 2^63 - 1 without it, negate the whole value | not executed | `KhctJsonNumber.LowestDoesNotCompile` | `KhctJsonNumber.ToSignedNumFixedMeaning` |
| src/json_schema2/json.hpp:238-257 | `is_json_error` is asked of a `pair`, so key and value errors inside an object resurface as other errors | `{1:2}` gives unexpected_input; a bad value gives unexpected_end_of_input | ask it of `.first`, as parse_json_value does, and pass each error on | not executed | `KhctJson.KeyErrorMasked` | `KhctJson.KeyErrorReported` |
| src/json_schema2/map.hpp:27-35 | `operator[]` does not compare the found key with the key looked up | 2 in {3: 30, 1: 10} gives 30 | nothing unless `loc->first == k` | not executed | `KhctMap.LookupNeighbourExample` | `KhctMap.LookupCheckedMeaning` |
| src/json_schema2/map.hpp:91-96 | `get<I>` pairs `Keys[Mapping[I]]` with the I-th value, which is right only when Mapping is its own inverse | keys c, a, b: get<0> gives ("b", value of "c") | pair the I-th value with the key at the inverse of Mapping | not executed | `KhctMap.GetMisPairs` | `KhctMap.GetByInverseBuilt` |
| src/json_schema3.cpp:16-34 | the nested sample carries `"additionalProperties": false`, and src/json_parse.hpp has no boolean value, so `define_schema_types` on that text (src/json_schema3.cpp:194) does not compile | the sample's `false` | the sample parses; only its tree is used in the examples | not executed | `JsonParse.LiteralsRejected` | `JsonSchema3.ParsedSchemaKeepsBag` |
| src/named_params.cpp:24-37 | a name given twice overwrites one slot and leaves another unwritten | two arguments named `b` | reject repeated names | not executed | `NamedParams.DuplicateNameLeavesSlotUnset` | `NamedParams.ParamMappingMeaning` |
