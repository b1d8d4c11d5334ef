/** General helpers: optional values, first-match search over a table, JavaScript
    whitespace trimming and decimal rendering of integers (`BigInt.prototype.toString`). */
module Prelude {

  datatype Option<+T> = None | Some(value: T) {
    function GetOr(default: T): T {
      if Some? then value else default
    }
  }

  /** Index of the first element satisfying `p`: a database `findFirst` returns the first
      row of the table that matches its `where` clause. */
  function FirstMatch<T>(s: seq<T>, p: T -> bool): (r: Option<nat>)
    ensures r.Some? ==> r.value < |s| && p(s[r.value])
    ensures r.Some? ==> forall j :: 0 <= j < r.value ==> !p(s[j])
    ensures r.None? <==> forall j :: 0 <= j < |s| ==> !p(s[j])
  {
    if |s| == 0 then None
    else if p(s[0]) then Some(0)
    else match FirstMatch(s[1..], p)
      case None => None
      case Some(k) => Some(k + 1)
  }

  /** Appending rows never changes which row is the first match, once there is one. */
  lemma {:induction false} FirstMatchAppend<T>(s: seq<T>, u: seq<T>, p: T -> bool)
    ensures FirstMatch(s, p).Some? ==> FirstMatch(s + u, p) == FirstMatch(s, p)
    ensures FirstMatch(s, p).None? && FirstMatch(u, p).Some? ==>
              FirstMatch(s + u, p) == Some(|s| + FirstMatch(u, p).value)
    ensures FirstMatch(s, p).None? && FirstMatch(u, p).None? ==> FirstMatch(s + u, p).None?
  {
    if |s| == 0 {
      assert s + u == u;
    } else {
      assert (s + u)[0] == s[0];
      assert (s + u)[1..] == s[1..] + u;
      if !p(s[0]) {
        FirstMatchAppend(s[1..], u, p);
      }
    }
  }

  /** The first match depends only on which elements match: rewriting rows without
      changing whether they match leaves it where it was. */
  lemma {:induction false} FirstMatchSameMask<T>(s: seq<T>, u: seq<T>, p: T -> bool)
    requires |s| == |u|
    requires forall j :: 0 <= j < |s| ==> p(s[j]) == p(u[j])
    ensures FirstMatch(s, p) == FirstMatch(u, p)
  {
    if |s| > 0 && !p(s[0]) {
      FirstMatchSameMask(s[1..], u[1..], p);
    }
  }

  /** The elements of `s` satisfying `p`, in table order (a `findMany` with a `where` clause). */
  function Filter<T(!new)>(s: seq<T>, p: T -> bool): (r: seq<T>)
    ensures |r| <= |s|
    ensures forall x :: x in r <==> x in s && p(x)
    ensures multiset(r) <= multiset(s)
    ensures forall x :: multiset(r)[x] == if p(x) then multiset(s)[x] else 0
  {
    if |s| == 0 then []
    else
      assert s == [s[0]] + s[1..];
      if p(s[0]) then [s[0]] + Filter(s[1..], p) else Filter(s[1..], p)
  }

  /** `s` ordered by `key`, largest first (an `orderBy: { column: "desc" }`). */
  predicate SortedDesc<T>(s: seq<T>, key: T -> int) {
    forall i, j :: 0 <= i < j < |s| ==> key(s[i]) >= key(s[j])
  }

  /** `x` put in front of the first element whose key is below its own. */
  function InsertDesc<T>(x: T, s: seq<T>, key: T -> int): (r: seq<T>)
    ensures multiset(r) == multiset(s) + multiset{x}
    ensures |r| == |s| + 1
  {
    if s == [] || key(x) >= key(s[0]) then [x] + s
    else
      assert s == [s[0]] + s[1..];
      [s[0]] + InsertDesc(x, s[1..], key)
  }

  /** Inserting into a sequence sorted by `key` keeps it sorted. */
  lemma {:induction false} InsertDescSorted<T>(x: T, s: seq<T>, key: T -> int)
    requires SortedDesc(s, key)
    ensures SortedDesc(InsertDesc(x, s, key), key)
  {
    if s != [] && key(x) < key(s[0]) {
      InsertDescSorted(x, s[1..], key);
      var rest := InsertDesc(x, s[1..], key);
      forall j | 0 <= j < |rest|
        ensures key(s[0]) >= key(rest[j])
      {
        assert rest[j] in multiset(rest);
        if rest[j] != x {
          assert rest[j] in multiset(s[1..]);
          var k :| 0 <= k < |s[1..]| && s[1..][k] == rest[j];
          assert s[k + 1] == rest[j];
        }
      }
      var r := [s[0]] + rest;
      forall i, j | 0 <= i < j < |r|
        ensures key(r[i]) >= key(r[j])
      {
        assert r[j] == rest[j - 1];
        if i > 0 {
          assert r[i] == rest[i - 1];
        }
      }
    }
  }

  /** The same elements, each as often, largest key first; elements with equal keys come
      in an order the caller must not rely on. */
  function SortDesc<T>(s: seq<T>, key: T -> int): (r: seq<T>)
    ensures SortedDesc(r, key)
    ensures multiset(r) == multiset(s)
  {
    if s == [] then []
    else
      assert s == [s[0]] + s[1..];
      var rest := SortDesc(s[1..], key);
      InsertDescSorted(s[0], rest, key);
      InsertDesc(s[0], rest, key)
  }

  /** The elements a filtered and sorted query returns are exactly those that pass the filter. */
  lemma SortedFilterMembers<T(!new)>(s: seq<T>, p: T -> bool, key: T -> int)
    ensures forall x :: x in SortDesc(Filter(s, p), key) <==> x in s && p(x)
  {
    var r := SortDesc(Filter(s, p), key);
    forall x ensures x in r <==> x in Filter(s, p) {
      assert x in r <==> x in multiset(r);
    }
  }

  // ---------------------------------------------------------------- strings

  /** The white-space and line-terminator characters `String.prototype.trim` removes
      (the Unicode space separators beyond these are not modelled). */
  predicate IsJsWhitespace(c: char) {
    c == ' ' || c == '\t' || c == '\n' || c == '\r' || c == '\U{000B}' || c == '\U{000C}'
    || c == '\U{00A0}' || c == '\U{FEFF}' || c == '\U{2028}' || c == '\U{2029}'
  }

  function LeadingSpace(s: string): (n: nat)
    ensures n <= |s|
    ensures forall k :: 0 <= k < n ==> IsJsWhitespace(s[k])
    ensures n < |s| ==> !IsJsWhitespace(s[n])
  {
    if |s| == 0 || !IsJsWhitespace(s[0]) then 0 else 1 + LeadingSpace(s[1..])
  }

  function TrailingSpace(s: string): (n: nat)
    ensures n <= |s|
    ensures forall k :: |s| - n <= k < |s| ==> IsJsWhitespace(s[k])
    ensures n < |s| ==> !IsJsWhitespace(s[|s| - n - 1])
  {
    if |s| == 0 || !IsJsWhitespace(s[|s| - 1]) then 0 else 1 + TrailingSpace(s[..|s| - 1])
  }

  /** `s.trim()`: the longest infix of `s` that neither starts nor ends with white space. */
  function Trim(s: string): (r: string)
    ensures |r| <= |s|
    ensures r == [] <==> forall k :: 0 <= k < |s| ==> IsJsWhitespace(s[k])
    ensures r != [] ==> !IsJsWhitespace(r[0]) && !IsJsWhitespace(r[|r| - 1])
    ensures LeadingSpace(s) + |r| <= |s| && r == s[LeadingSpace(s)..LeadingSpace(s) + |r|]
  {
    var t := s[LeadingSpace(s)..];
    var r := t[..|t| - TrailingSpace(t)];
    assert r == [] ==> LeadingSpace(s) == |s| by {
      if LeadingSpace(s) < |s| {
        assert t[0] == s[LeadingSpace(s)];
      }
    }
    r
  }

  /** `s.trim().length === 0` (equivalently `s.trim() === ""`). */
  predicate IsBlank(s: string) {
    Trim(s) == []
  }

  // ---------------------------------------------------------------- decimal numbers

  predicate IsDigit(c: char) {
    '0' <= c <= '9'
  }

  function DigitChar(d: nat): (c: char)
    requires d < 10
    ensures IsDigit(c) && c as int - '0' as int == d
  {
    (d + '0' as int) as char
  }

  /** Decimal digits of `n`, most significant first, without leading zeros. */
  function NatToDecimal(n: nat): (r: string)
    ensures |r| >= 1
    ensures forall k :: 0 <= k < |r| ==> IsDigit(r[k])
  {
    if n < 10 then [DigitChar(n)] else NatToDecimal(n / 10) + [DigitChar(n % 10)]
  }

  /** `x.toString()` for a `bigint` x. */
  function IntToDecimal(i: int): string {
    if i < 0 then "-" + NatToDecimal(-i) else NatToDecimal(i)
  }

  /** Value of a string of decimal digits. */
  function DigitsValue(s: string): nat
    requires forall k :: 0 <= k < |s| ==> IsDigit(s[k])
  {
    if |s| == 0 then 0
    else
      assert IsDigit(s[|s| - 1]);
      DigitsValue(s[..|s| - 1]) * 10 + (s[|s| - 1] as int - '0' as int)
  }

  predicate AllDigits(s: string) {
    |s| >= 1 && forall k :: 0 <= k < |s| ==> IsDigit(s[k])
  }

  /** An optional sign followed by one or more decimal digits. */
  function ParseDecimal(s: string): (r: Option<int>)
    ensures r.Some? <==> AllDigits(s) || (|s| >= 1 && (s[0] == '-' || s[0] == '+') && AllDigits(s[1..]))
  {
    if AllDigits(s) then Some(DigitsValue(s) as int)
    else if |s| >= 1 && s[0] == '-' && AllDigits(s[1..]) then Some(-(DigitsValue(s[1..]) as int))
    else if |s| >= 1 && s[0] == '+' && AllDigits(s[1..]) then Some(DigitsValue(s[1..]))
    else None
  }

  /** The value `ParseDecimal` reads: the digits' value, negated after a minus sign; a plus
      sign is dropped. */
  lemma ParseDecimalValue(s: string)
    ensures AllDigits(s) ==> ParseDecimal(s) == Some(DigitsValue(s))
    ensures |s| >= 1 && s[0] == '-' && AllDigits(s[1..]) ==> ParseDecimal(s) == Some(-(DigitsValue(s[1..]) as int))
    ensures |s| >= 1 && s[0] == '+' && AllDigits(s[1..]) ==> ParseDecimal(s) == Some(DigitsValue(s[1..]))
  {
    if |s| >= 1 && (s[0] == '-' || s[0] == '+') && AllDigits(s[1..]) {
      SignedDecimalValue(s);
    }
  }

  /** A sign is not a digit, so a signed string is read by its sign branch. */
  lemma SignedDecimalValue(s: string)
    requires |s| >= 1 && (s[0] == '-' || s[0] == '+') && AllDigits(s[1..])
    ensures ParseDecimal(s) == Some(if s[0] == '-' then -(DigitsValue(s[1..]) as int) else DigitsValue(s[1..]))
  {
    assert !AllDigits(s) by { assert !IsDigit(s[0]); }
  }

  /** A leading zero does not change the value of a digit string, so `BigInt` reads "007"
      as 7 (with `ParseDecimalValue`). */
  lemma {:induction false} LeadingZeroValue(s: string)
    requires forall k :: 0 <= k < |s| ==> IsDigit(s[k])
    ensures DigitsValue("0" + s) == DigitsValue(s)
  {
    if |s| > 0 {
      var z := "0" + s;
      assert z[..|z| - 1] == "0" + s[..|s| - 1];
      assert z[|z| - 1] == s[|s| - 1];
      LeadingZeroValue(s[..|s| - 1]);
    }
  }

  /** A signed zero is zero, and an explicit plus sign is dropped. */
  lemma SignedDigits()
    ensures ParseDecimal("-0") == Some(0) && ParseDecimal("+5") == Some(5)
  {
    assert "-0"[1..] == "0" && "+5"[1..] == "5";
    assert !AllDigits("-0") by { assert !IsDigit("-0"[0]); }
    assert !AllDigits("+5") by { assert !IsDigit("+5"[0]); }
    assert DigitsValue("0") == 0 by { assert "0"[..0] == ""; }
    assert DigitsValue("5") == 5 by { assert "5"[..0] == ""; }
  }

  lemma {:induction false} NatDecimalRoundTrip(n: nat)
    ensures DigitsValue(NatToDecimal(n)) == n
  {
    if n >= 10 {
      var r := NatToDecimal(n);
      assert r[..|r| - 1] == NatToDecimal(n / 10);
      NatDecimalRoundTrip(n / 10);
    }
  }

  /** Rendering an integer in decimal and reading it back gives the integer: the decimal
      rendering used by task snapshots loses nothing. */
  lemma DecimalRoundTrip(i: int)
    ensures ParseDecimal(IntToDecimal(i)) == Some(i)
  {
    if i < 0 {
      var d := NatToDecimal(-i);
      assert ("-" + d)[1..] == d;
      assert !AllDigits("-" + d) by { assert !IsDigit(("-" + d)[0]); }
      NatDecimalRoundTrip(-i);
    } else {
      NatDecimalRoundTrip(i);
    }
  }

  /** Distinct integers have distinct renderings. */
  lemma DecimalInjective(i: int, j: int)
    requires IntToDecimal(i) == IntToDecimal(j)
    ensures i == j
  {
    DecimalRoundTrip(i);
    DecimalRoundTrip(j);
  }
}
