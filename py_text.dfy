/**
 * The few pieces of Python's string semantics that the converter relies on:
 * `str.strip()`, `str.split(sep)`, the `in` substring test, `startswith`,
 * `endswith`, `str.isdigit()`, `int(str)`, `"{:d}".format(n)` and slicing
 * with negative or out-of-range bounds.
 */
module PyText {
  import opened Wrappers

  /** The characters for which Python's `str.isspace()` holds; `strip()` removes exactly these. */
  predicate IsSpace(c: char) {
    var n := c as int;
    (9 <= n <= 13) || (28 <= n <= 32) || n == 0x85 || n == 0xA0 || n == 0x1680
    || (0x2000 <= n <= 0x200A) || n == 0x2028 || n == 0x2029 || n == 0x202F
    || n == 0x205F || n == 0x3000
  }

  predicate AllSpace(s: string) {
    forall i :: 0 <= i < |s| ==> IsSpace(s[i])
  }

  /** The index of the first non-space character of `s` at or after `i`, or `|s|`. */
  function SpaceEnd(s: string, i: nat): (k: nat)
    requires i <= |s|
    ensures i <= k <= |s|
    ensures k == |s| || !IsSpace(s[k])
    decreases |s| - i
  {
    if i < |s| && IsSpace(s[i]) then SpaceEnd(s, i + 1) else i
  }

  /** Everything `SpaceEnd` skips is whitespace. */
  lemma {:induction false} SpaceEndSkipsSpace(s: string, i: nat)
    requires i <= |s|
    ensures forall j :: i <= j < SpaceEnd(s, i) ==> IsSpace(s[j])
    decreases |s| - i
  {
    if i < |s| && IsSpace(s[i]) {
      SpaceEndSkipsSpace(s, i + 1);
    }
  }

  /** The index just after the last non-space character of `s` before `j`, and not below `lo`. */
  function SpaceStart(s: string, lo: nat, j: nat): (k: nat)
    requires lo <= j <= |s|
    ensures lo <= k <= j
    ensures k == lo || !IsSpace(s[k - 1])
    decreases j - lo
  {
    if j > lo && IsSpace(s[j - 1]) then SpaceStart(s, lo, j - 1) else j
  }

  /** Everything `SpaceStart` skips is whitespace. */
  lemma {:induction false} SpaceStartSkipsSpace(s: string, lo: nat, j: nat)
    requires lo <= j <= |s|
    ensures forall i :: SpaceStart(s, lo, j) <= i < j ==> IsSpace(s[i])
    decreases j - lo
  {
    if j > lo && IsSpace(s[j - 1]) {
      SpaceStartSkipsSpace(s, lo, j - 1);
    }
  }

  /** Python's `s.strip()`: the text between the leading and the trailing whitespace. */
  function Strip(s: string): (r: string)
    ensures |r| <= |s|
    ensures r == [] || (!IsSpace(r[0]) && !IsSpace(r[|r| - 1]))
    ensures r == [] <==> AllSpace(s)
  {
    var a := SpaceEnd(s, 0);
    var b := SpaceStart(s, a, |s|);
    SpaceEndSkipsSpace(s, 0);
    SpaceStartSkipsSpace(s, a, |s|);
    s[a..b]
  }

  /** Stripping twice is stripping once. */
  lemma StripIdempotent(s: string)
    ensures Strip(Strip(s)) == Strip(s)
  {
    StripUnchanged(Strip(s));
  }

  /** A string without surrounding whitespace is its own strip. */
  lemma StripUnchanged(s: string)
    requires s == [] || (!IsSpace(s[0]) && !IsSpace(s[|s| - 1]))
    ensures Strip(s) == s
  {
  }

  /** Python's `sub in s`. */
  predicate Contains(s: string, sub: string)
    decreases |s|
  {
    StartsWith(s, sub) || (|s| > 0 && Contains(s[1..], sub))
  }

  predicate StartsWith(s: string, prefix: string) {
    |prefix| <= |s| && s[..|prefix|] == prefix
  }

  predicate EndsWith(s: string, suffix: string) {
    |suffix| <= |s| && s[|s| - |suffix|..] == suffix
  }

  /** `sub` occurs in `s` starting at index `i`. */
  predicate OccursAt(s: string, sub: string, i: int) {
    0 <= i <= |s| - |sub| && s[i..i + |sub|] == sub
  }

  /** `Contains` is the substring relation: `sub` occurs at some position of `s`. */
  lemma {:induction false} ContainsIff(s: string, sub: string)
    ensures Contains(s, sub) <==> exists i :: OccursAt(s, sub, i)
    decreases |s|
  {
    if StartsWith(s, sub) {
      assert OccursAt(s, sub, 0);
    } else if |s| > 0 {
      ContainsIff(s[1..], sub);
      if Contains(s[1..], sub) {
        var i :| OccursAt(s[1..], sub, i);
        assert s[1..][i..i + |sub|] == s[i + 1..i + 1 + |sub|];
        assert OccursAt(s, sub, i + 1);
      }
      if exists i :: OccursAt(s, sub, i) {
        var i :| OccursAt(s, sub, i);
        assert i != 0;
        assert s[1..][i - 1..i - 1 + |sub|] == s[i..i + |sub|];
        assert OccursAt(s[1..], sub, i - 1);
      }
    }
  }

  /** A string occurs in anything that ends with it. */
  lemma ContainsSuffix(s: string, t: string)
    ensures Contains(t + s, s)
  {
    ContainsIff(t + s, s);
    assert (t + s)[|t|..|t| + |s|] == s;
    assert OccursAt(t + s, s, |t|);
  }

  /** The index of the first `c` in `s`, or `|s|` when there is none. */
  function IndexOf<T(==)>(s: seq<T>, c: T): (k: nat)
    ensures k <= |s|
    ensures k < |s| ==> s[k] == c
    ensures forall i :: 0 <= i < k ==> s[i] != c
    ensures k == |s| <==> c !in s
  {
    if |s| == 0 then 0 else if s[0] == c then 0 else 1 + IndexOf(s[1..], c)
  }

  /** Python's `s.split(sep)` for a one-character separator. */
  function Split(s: string, sep: char): (parts: seq<string>)
    ensures |parts| >= 1
    ensures forall i :: 0 <= i < |parts| ==> sep !in parts[i]
    ensures |parts| == 1 <==> sep !in s
    decreases |s|
  {
    var k := IndexOf(s, sep);
    if k == |s| then [s] else [s[..k]] + Split(s[k + 1..], sep)
  }

  /** Python's `sep.join(parts)`. */
  function Join(parts: seq<string>, sep: char): string {
    if |parts| == 0 then "" else if |parts| == 1 then parts[0] else parts[0] + [sep] + Join(parts[1..], sep)
  }

  /** Splitting and joining are inverse: joining the pieces gives back the string ... */
  lemma {:induction false} JoinSplit(s: string, sep: char)
    ensures Join(Split(s, sep), sep) == s
    decreases |s|
  {
    var k := IndexOf(s, sep);
    if k < |s| {
      var rest := s[k + 1..];
      JoinSplit(rest, sep);
      var parts := Split(rest, sep);
      var all := [s[..k]] + parts;
      assert Split(s, sep) == all;
      assert |all| > 1 && all[0] == s[..k] && all[1..] == parts;
      assert Join(all, sep) == s[..k] + [sep] + Join(parts, sep);
      CutAt(s, k);
    }
  }

  lemma CutAt<T>(s: seq<T>, k: nat)
    requires k < |s|
    ensures s == s[..k] + [s[k]] + s[k + 1..]
  {
  }

  /** ... and splitting a join of separator-free pieces gives back the pieces. */
  lemma {:induction false} SplitJoin(parts: seq<string>, sep: char)
    requires |parts| >= 1
    requires forall i :: 0 <= i < |parts| ==> sep !in parts[i]
    ensures Split(Join(parts, sep), sep) == parts
  {
    if |parts| > 1 {
      var rest := parts[1..];
      assert forall i :: 0 <= i < |rest| ==> sep !in rest[i] by {
        forall i | 0 <= i < |rest| ensures sep !in rest[i] {
          assert rest[i] == parts[i + 1];
        }
      }
      SplitJoin(rest, sep);
      assert Join(parts, sep) == parts[0] + [sep] + Join(rest, sep);
      SplitCons(parts[0], Join(rest, sep), sep);
      assert parts == [parts[0]] + rest;
    }
  }

  /** Splitting a separator-free head, a separator and a tail gives the head, then the tail's pieces. */
  lemma SplitCons(a: string, tail: string, sep: char)
    requires sep !in a
    ensures Split(a + [sep] + tail, sep) == [a] + Split(tail, sep)
  {
    var s := a + [sep] + tail;
    IndexOfPrefix(a, tail, sep);
    assert s[..|a|] == a;
    assert s[|a| + 1..] == tail;
  }

  lemma IndexOfPrefix(a: string, b: string, sep: char)
    requires sep !in a
    ensures IndexOf(a + [sep] + b, sep) == |a|
  {
    var s := a + [sep] + b;
    assert forall i :: 0 <= i < |a| ==> s[i] == a[i];
    assert s[|a|] == sep;
  }

  /** The length of a join: the pieces plus one separator between each two. */
  lemma {:induction false} JoinLength(parts: seq<string>, sep: char)
    requires |parts| >= 1
    ensures |Join(parts, sep)| + 1 == SumWidths(parts)
  {
    if |parts| > 1 {
      JoinLength(parts[1..], sep);
    }
  }

  /** The sum over the pieces of their length plus one. */
  function SumWidths(parts: seq<string>): nat {
    if parts == [] then 0 else |parts[0]| + 1 + SumWidths(parts[1..])
  }

  predicate IsDigit(c: char) {
    '0' <= c <= '9'
  }

  predicate AllDigits(s: string) {
    forall i :: 0 <= i < |s| ==> IsDigit(s[i])
  }

  /** Python's `s.isdigit()`, restricted to ASCII digits: non-empty and all digits. */
  predicate IsDigits(s: string) {
    |s| > 0 && AllDigits(s)
  }

  function DigitValue(c: char): (d: nat)
    requires IsDigit(c)
    ensures d < 10
  {
    (c as int) - ('0' as int)
  }

  function DigitChar(d: nat): (c: char)
    requires d < 10
    ensures IsDigit(c) && DigitValue(c) == d
  {
    (('0' as int) + d) as char
  }

  /** The value of a string of decimal digits, most significant first. */
  function DecimalValue(s: string): nat
    requires AllDigits(s)
  {
    if |s| == 0 then 0 else 10 * DecimalValue(s[..|s| - 1]) + DigitValue(s[|s| - 1])
  }

  /** The digit groups accepted by `int()`: digits, with single underscores between them. */
  predicate DigitGroups(r: string)
    decreases |r|
  {
    && |r| > 0 && IsDigit(r[0])
    && (|r| == 1 || if r[1] == '_' then DigitGroups(r[2..]) else DigitGroups(r[1..]))
  }

  /** The digits of the groups, underscores dropped. */
  function GroupDigits(r: string): (d: string)
    requires DigitGroups(r)
    ensures |d| > 0 && AllDigits(d)
    decreases |r|
  {
    var rest := if |r| == 1 then [] else if r[1] == '_' then GroupDigits(r[2..]) else GroupDigits(r[1..]);
    assert forall i :: 0 < i <= |rest| ==> ([r[0]] + rest)[i] == rest[i - 1];
    [r[0]] + rest
  }

  /** A plain digit string is a single group, and keeps all its digits. */
  lemma {:induction false} DigitsAreGroups(s: string)
    requires IsDigits(s)
    ensures DigitGroups(s) && GroupDigits(s) == s
    decreases |s|
  {
    if |s| > 1 {
      assert IsDigit(s[1]);
      DigitsAreGroups(s[1..]);
      assert s == [s[0]] + s[1..];
    }
  }

  /**
   * Python's `int(s)` in base 10: surrounding whitespace, an optional sign and a
   * digit group; `None` where Python raises `ValueError`.
   */
  function ParseInt(s: string): (r: Option<int>)
    ensures r.Some? ==> Strip(s) != []
  {
    ParseSigned(Strip(s))
  }

  /** `int` on text without surrounding whitespace: an optional sign and a digit group. */
  function ParseSigned(t: string): (r: Option<int>)
    ensures r.Some? ==> t != []
  {
    var negative := |t| > 0 && t[0] == '-';
    var body := if |t| > 0 && (t[0] == '-' || t[0] == '+') then t[1..] else t;
    match Unsigned(body)
    case Some(v) => var n: int := v; Some(if negative then -n else n)
    case None => None
  }

  /** `int` on an unsigned digit group: its decimal value, underscores ignored. */
  function Unsigned(body: string): (r: Option<nat>)
    ensures r.Some? <==> DigitGroups(body)
  {
    if DigitGroups(body) then Some(DecimalValue(GroupDigits(body))) else None
  }

  /** `int` ignores surrounding whitespace: parsing the stripped text gives the same result. */
  lemma ParseIntStripped(s: string)
    ensures ParseInt(Strip(s)) == ParseInt(s)
  {
    StripIdempotent(s);
  }

  /** Python's `"{:d}".format(n)` for a natural number. */
  function NatToStr(n: nat): (s: string)
    ensures IsDigits(s)
  {
    if n < 10 then [DigitChar(n)] else NatToStr(n / 10) + [DigitChar(n % 10)]
  }

  /** Python's `"{:d}".format(n)` / `str(n)`. */
  function IntToStr(n: int): (s: string)
    ensures |s| > 0 && !IsSpace(s[0]) && !IsSpace(s[|s| - 1])
  {
    if n < 0 then "-" + NatToStr(-n) else NatToStr(n)
  }

  lemma {:induction false} NatToStrValue(n: nat)
    ensures DecimalValue(NatToStr(n)) == n
  {
    if n >= 10 {
      NatToStrValue(n / 10);
      var s := NatToStr(n);
      assert s[..|s| - 1] == NatToStr(n / 10);
    }
  }

  /** `int(str(n)) == n`: formatting an integer and parsing it back is the identity. */
  lemma ParseIntToStr(n: int)
    ensures ParseInt(IntToStr(n)) == Some(n)
  {
    var s := IntToStr(n);
    StripUnchanged(s);
    var m := if n < 0 then -n else n;
    var body := NatToStr(m);
    NatToStrValue(m);
    if n < 0 {
      assert s[1..] == body;
    }
    DigitsAreGroups(body);
  }

  /** Parsing a plain digit string gives its decimal value. */
  lemma ParseIntDigits(s: string)
    requires IsDigits(s)
    ensures ParseInt(s) == Some(DecimalValue(s) as int)
  {
    StripUnchanged(s);
    UnsignedDigits(s);
    assert IsDigit(s[0]);
  }

  /** An unsigned digit string parses to its decimal value. */
  lemma UnsignedDigits(s: string)
    requires IsDigits(s)
    ensures Unsigned(s) == Some(DecimalValue(s))
  {
    DigitsAreGroups(s);
  }

  /** Python's `s.upper()` on ASCII letters (other characters are kept). */
  function Upper(s: string): (r: string)
    ensures |r| == |s|
    ensures forall i :: 0 <= i < |s| ==> !('a' <= r[i] <= 'z')
    ensures forall i :: 0 <= i < |s| && !('a' <= s[i] <= 'z') ==> r[i] == s[i]
  {
    if s == [] then []
    else [if 'a' <= s[0] <= 'z' then (s[0] as int - 32) as char else s[0]] + Upper(s[1..])
  }

  /** Text without lower-case letters is its own upper case. */
  lemma UpperUnchanged(s: string)
    requires forall i :: 0 <= i < |s| ==> !('a' <= s[i] <= 'z')
    ensures Upper(s) == s
  {
  }

  /** Python's `s.lower()` on ASCII letters (other characters are kept). */
  function Lower(s: string): (r: string)
    ensures |r| == |s|
    ensures forall i :: 0 <= i < |s| ==> !('A' <= r[i] <= 'Z')
    ensures forall i :: 0 <= i < |s| && !('A' <= s[i] <= 'Z') ==> r[i] == s[i]
  {
    if s == [] then []
    else [if 'A' <= s[0] <= 'Z' then (s[0] as int + 32) as char else s[0]] + Lower(s[1..])
  }

  /** Text without upper-case letters is its own lower case. */
  lemma LowerUnchanged(s: string)
    requires forall i :: 0 <= i < |s| ==> !('A' <= s[i] <= 'Z')
    ensures Lower(s) == s
  {
  }

  /** The index a Python slice bound denotes in a sequence of length `n`. */
  function SliceBound(i: int, n: nat): (r: nat)
    ensures r <= n
    ensures 0 <= i <= n ==> r == i
  {
    if i < 0 then (if i + n < 0 then 0 else i + n) else if i > n then n else i
  }

  /** Python's `s[start:end]`, where `None` as the end means "to the end". */
  function Slice<T>(s: seq<T>, start: int, end: Option<int>): (r: seq<T>)
    ensures |r| <= |s|
    ensures 0 <= start && end.Some? && start <= end.value <= |s| ==> r == s[start..end.value]
    ensures 0 <= start <= |s| && end.None? ==> r == s[start..]
  {
    var a := SliceBound(start, |s|);
    var b := if end.None? then |s| else SliceBound(end.value, |s|);
    if a < b then s[a..b] else []
  }

  /** Python's `s[i]`, which also accepts `-len(s) <= i < 0`. */
  function At<T>(s: seq<T>, i: int): T
    requires -|s| <= i < |s|
  {
    if i < 0 then s[|s| + i] else s[i]
  }
}
