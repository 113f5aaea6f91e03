/*
 * Shared vocabulary of the model: optional values, and the handful of
 * JavaScript string operations the client and the server rely on
 * (String.prototype.trim, toLowerCase, number-to-string, padStart, includes).
 */
module Base {

  /** A value that may be null or undefined in the source. */
  datatype Option<T> = None | Some(value: T)

  /** The code points String.prototype.trim removes: the WhiteSpace and
      LineTerminator productions of ECMAScript. */
  predicate IsJsWhitespace(c: char) {
    || c == '\t' || c == '\n' || c == '\r' || c == ' '
    || c == '\U{000B}' || c == '\U{000C}' || c == '\U{00A0}' || c == '\U{FEFF}'
    || c == '\U{1680}' || ('\U{2000}' <= c <= '\U{200A}')
    || c == '\U{2028}' || c == '\U{2029}' || c == '\U{202F}' || c == '\U{205F}'
    || c == '\U{3000}'
  }

  /** String.prototype.length: the number of UTF-16 code units, two for a
      code point beyond the Basic Multilingual Plane. */
  function Utf16Length(s: string): (n: nat)
    ensures |s| <= n <= 2 * |s|
  {
    if s == [] then 0 else (if s[0] as int > 0xFFFF then 2 else 1) + Utf16Length(s[1..])
  }

  /** Lengths add up over concatenation. */
  lemma {:induction false} Utf16LengthAppend(a: string, b: string)
    ensures Utf16Length(a + b) == Utf16Length(a) + Utf16Length(b)
  {
    if a != [] {
      assert (a + b)[1..] == a[1..] + b;
      Utf16LengthAppend(a[1..], b);
    } else {
      assert a + b == b;
    }
  }

  /** On the Basic Multilingual Plane a code unit is a code point. */
  lemma {:induction false} Utf16LengthBmp(s: string)
    requires forall k :: 0 <= k < |s| ==> s[k] as int <= 0xFFFF
    ensures Utf16Length(s) == |s|
  {
    if s != [] {
      Utf16LengthBmp(s[1..]);
    }
  }

  /** The largest magnitude of a Date's time value: beyond it a Date is
      invalid (its time value is NaN) and toISOString throws a RangeError. */
  const MaxTimeValue := 8_640_000_000_000_000

  predicate IsTimeValue(t: int) {
    -MaxTimeValue <= t <= MaxTimeValue
  }

  /** Number of whitespace characters at the start of `s`. */
  function LeadingSpace(s: string): (n: nat)
    ensures n <= |s|
    ensures forall k :: 0 <= k < n ==> IsJsWhitespace(s[k])
    ensures n == |s| || !IsJsWhitespace(s[n])
  {
    if |s| > 0 && IsJsWhitespace(s[0]) then 1 + LeadingSpace(s[1..]) else 0
  }

  /** Number of whitespace characters at the end of `s`. */
  function TrailingSpace(s: string): (n: nat)
    ensures n <= |s|
    ensures forall k :: |s| - n <= k < |s| ==> IsJsWhitespace(s[k])
    ensures n == |s| || !IsJsWhitespace(s[|s| - n - 1])
  {
    if |s| > 0 && IsJsWhitespace(s[|s| - 1]) then 1 + TrailingSpace(s[..|s| - 1]) else 0
  }

  /** String.prototype.trim. */
  function Trim(s: string): (r: string)
    ensures |r| <= |s|
    ensures r == [] <==> forall k :: 0 <= k < |s| ==> IsJsWhitespace(s[k])
    ensures r != [] ==> !IsJsWhitespace(r[0]) && !IsJsWhitespace(r[|r| - 1])
    ensures r != [] ==> r == s[LeadingSpace(s)..|s| - TrailingSpace(s)]
  {
    var lead := LeadingSpace(s);
    if lead == |s| then []
    else
      var trail := TrailingSpace(s);
      assert !IsJsWhitespace(s[|s| - trail - 1]);
      s[lead..|s| - trail]
  }

  /** Trimming twice is trimming once. */
  lemma TrimIdempotent(s: string)
    ensures Trim(Trim(s)) == Trim(s)
  {
    var t := Trim(s);
    if t != [] {
      assert LeadingSpace(t) == 0;
      assert TrailingSpace(t) == 0;
    }
  }

  /** String.prototype.toLowerCase, restricted to the ASCII letters. */
  function LowerChar(c: char): (r: char)
    ensures 'A' <= c <= 'Z' ==> r as int == c as int + 32
    ensures !('A' <= c <= 'Z') ==> r == c
  {
    if 'A' <= c <= 'Z' then (c as int + 32) as char else c
  }

  function ToLower(s: string): (r: string)
    ensures |r| == |s|
    ensures forall k :: 0 <= k < |r| ==> r[k] == LowerChar(s[k])
  {
    seq(|s|, k requires 0 <= k < |s| => LowerChar(s[k]))
  }

  /** Lower-casing neither makes nor unmakes whitespace. */
  lemma LowerCharSpace(c: char)
    ensures IsJsWhitespace(LowerChar(c)) <==> IsJsWhitespace(c)
  {
  }

  /** Lower-casing twice is lower-casing once. */
  lemma ToLowerIdempotent(s: string)
    ensures ToLower(ToLower(s)) == ToLower(s)
  {
  }

  /** Two strings with whitespace at the same places. */
  predicate SameSpacing(s: string, l: string) {
    |s| == |l| && forall k :: 0 <= k < |s| ==> (IsJsWhitespace(l[k]) <==> IsJsWhitespace(s[k]))
  }

  /** Strings with whitespace at the same places have the same leading and
      trailing whitespace. */
  lemma SameSpacingEnds(s: string, l: string)
    requires SameSpacing(s, l)
    ensures LeadingSpace(l) == LeadingSpace(s)
    ensures TrailingSpace(l) == TrailingSpace(s)
  {
  }

  /** Trimming and lower-casing commute, since lower-casing neither makes nor
      unmakes whitespace. */
  lemma TrimToLower(s: string)
    ensures Trim(ToLower(s)) == ToLower(Trim(s))
  {
    var l := ToLower(s);
    LowerSameSpacing(s);
    SameSpacingEnds(s, l);
    var a, t := LeadingSpace(s), TrailingSpace(s);
    if a < |s| {
      SliceLower(s, a, |s| - t);
      assert Trim(l) == l[a..|s| - t];
      assert Trim(s) == s[a..|s| - t];
    } else {
      assert Trim(l) == [] && Trim(s) == [];
    }
  }

  /** Lower-casing keeps whitespace where it was. */
  lemma LowerSameSpacing(s: string)
    ensures SameSpacing(s, ToLower(s))
  {
    forall k | 0 <= k < |s| ensures IsJsWhitespace(ToLower(s)[k]) <==> IsJsWhitespace(s[k]) {
      LowerCharSpace(s[k]);
    }
  }

  /** Lower-casing a slice is slicing the lower case. */
  lemma SliceLower(s: string, i: nat, j: nat)
    requires i <= j <= |s|
    ensures ToLower(s)[i..j] == ToLower(s[i..j])
  {
  }

  /** A string with no upper-case ASCII letter is its own lower case. */
  lemma ToLowerNoUpper(s: string)
    requires forall k :: 0 <= k < |s| ==> !('A' <= s[k] <= 'Z')
    ensures ToLower(s) == s
  {
  }

  /** A string with no whitespace at either end is left alone by trim. */
  lemma TrimOfTrimmed(s: string)
    requires s != [] ==> !IsJsWhitespace(s[0]) && !IsJsWhitespace(s[|s| - 1])
    ensures Trim(s) == s
  {
    if s != [] {
      assert LeadingSpace(s) == 0;
      assert TrailingSpace(s) == 0;
    }
  }

  /** One whitespace character before a string that starts and ends with
      something else is exactly what trim removes. */
  lemma TrimOneLeading(c: char, s: string)
    requires IsJsWhitespace(c)
    requires s != [] && !IsJsWhitespace(s[0]) && !IsJsWhitespace(s[|s| - 1])
    ensures Trim([c] + s) == s
  {
    var p := [c] + s;
    assert p[1] == s[0];
    assert p[|p| - 1] == s[|s| - 1];
    assert LeadingSpace(p) == 1;
    assert TrailingSpace(p) == 0;
    assert p[1..|p|] == s;
  }

  predicate IsDigit(c: char) {
    '0' <= c <= '9'
  }

  function DigitChar(d: nat): (c: char)
    requires d < 10
    ensures IsDigit(c) && c as int - '0' as int == d
  {
    ('0' as int + d) as char
  }

  /** The decimal numeral of `n`, as Number.prototype.toString(10) writes a
      non-negative integer. */
  function NatToString(n: nat): (r: string)
    ensures |r| >= 1
    ensures forall k :: 0 <= k < |r| ==> IsDigit(r[k])
    ensures r[0] == '0' ==> n == 0
    ensures n < 10 <==> |r| == 1
  {
    if n < 10 then [DigitChar(n)] else NatToString(n / 10) + [DigitChar(n % 10)]
  }

  /** Value of a string of decimal digits. */
  function DigitsValue(s: string): nat
    requires forall k :: 0 <= k < |s| ==> IsDigit(s[k])
  {
    if s == [] then 0
    else
      assert IsDigit(s[|s| - 1]);
      10 * DigitsValue(s[..|s| - 1]) + (s[|s| - 1] as int - '0' as int)
  }

  /** The numeral reads back as the number it was written from. */
  lemma {:induction false} NatToStringRoundTrip(n: nat)
    ensures DigitsValue(NatToString(n)) == n
  {
    if n >= 10 {
      var r := NatToString(n);
      assert r[..|r| - 1] == NatToString(n / 10);
      NatToStringRoundTrip(n / 10);
    }
  }

  /** Distinct numbers have distinct numerals. */
  lemma NatToStringInjective(a: nat, b: nat)
    requires NatToString(a) == NatToString(b)
    ensures a == b
  {
    NatToStringRoundTrip(a);
    NatToStringRoundTrip(b);
  }

  /** The template-literal rendering of an integer. */
  function IntToString(i: int): (r: string)
    ensures |r| >= 1
    ensures i >= 0 ==> r == NatToString(i)
    ensures i < 0 ==> r == "-" + NatToString(-i)
  {
    if i < 0 then "-" + NatToString(-i) else NatToString(i)
  }

  /** `n.toString().padStart(2, '0')`. */
  function Pad2(n: nat): (r: string)
    ensures n < 100 ==> |r| == 2 && IsDigit(r[0]) && IsDigit(r[1])
    ensures n < 100 ==> DigitsValue(r) == n
    ensures n >= 100 ==> r == NatToString(n)
  {
    var d := NatToString(n);
    NatToStringRoundTrip(n);
    if |d| < 2 then
      assert ['0'] + d == ['0', d[0]];
      "0" + d
    else
      assert n < 100 ==> d == [DigitChar(n / 10), DigitChar(n % 10)];
      d
  }

  /** `s` has `sub` starting at index `i`. */
  predicate OccursAt(s: string, sub: string, i: nat) {
    i + |sub| <= |s| && s[i..i + |sub|] == sub
  }

  /** String.prototype.includes. */
  predicate Contains(s: string, sub: string) {
    exists i: nat :: i <= |s| && OccursAt(s, sub, i)
  }

  /** Array.prototype.filter. */
  function Filter<T>(p: T -> bool, s: seq<T>): (r: seq<T>)
    ensures |r| <= |s|
    ensures forall k :: 0 <= k < |r| ==> r[k] in s && p(r[k])
    ensures forall k :: 0 <= k < |s| && p(s[k]) ==> s[k] in r
  {
    if s == [] then [] else (if p(s[0]) then [s[0]] else []) + Filter(p, s[1..])
  }

  /** One unfolding of Filter on a non-empty sequence. */
  lemma FilterStep<T>(p: T -> bool, s: seq<T>)
    requires s != []
    ensures Filter(p, s) == (if p(s[0]) then [s[0]] else []) + Filter(p, s[1..])
  {
  }

  /** Dropping the head of a concatenation whose left part is non-empty. */
  lemma ConcatTail<T>(a: seq<T>, b: seq<T>)
    requires a != []
    ensures (a + b)[0] == a[0] && (a + b)[1..] == a[1..] + b
  {
  }

  /** The inductive step of FilterAppend: peeling the head off `a`. */
  lemma FilterAppendStep<T>(p: T -> bool, a: seq<T>, b: seq<T>)
    requires a != []
    requires Filter(p, a[1..] + b) == Filter(p, a[1..]) + Filter(p, b)
    ensures Filter(p, a + b) == Filter(p, a) + Filter(p, b)
  {
    var head, t := if p(a[0]) then [a[0]] else [], a[1..];
    calc {
      Filter(p, a + b);
    == { ConcatTail(a, b); FilterStep(p, a + b); }
      head + Filter(p, t + b);
    ==
      (head + Filter(p, t)) + Filter(p, b);
    == { FilterStep(p, a); }
      Filter(p, a) + Filter(p, b);
    }
  }

  lemma {:induction false} FilterAppend<T>(p: T -> bool, a: seq<T>, b: seq<T>)
    ensures Filter(p, a + b) == Filter(p, a) + Filter(p, b)
  {
    if a != [] {
      FilterAppend(p, a[1..], b);
      FilterAppendStep(p, a, b);
    } else {
      assert a + b == b;
    }
  }

  /** `a` is `b` with some elements dropped and the rest kept in order. */
  predicate IsSubsequence<T(==)>(a: seq<T>, b: seq<T>)
    decreases |b|
  {
    if a == [] then true
    else if b == [] then false
    else (a[0] == b[0] && IsSubsequence(a[1..], b[1..])) || IsSubsequence(a, b[1..])
  }

  /** Filter keeps the elements it passes in their original order. */
  lemma {:induction false} FilterSubsequence<T>(p: T -> bool, s: seq<T>)
    ensures IsSubsequence(Filter(p, s), s)
  {
    if s != [] {
      FilterStep(p, s);
      FilterSubsequence(p, s[1..]);
      var r := Filter(p, s);
      if p(s[0]) {
        assert r[0] == s[0] && r[1..] == Filter(p, s[1..]);
      } else {
        assert r == Filter(p, s[1..]);
      }
    }
  }

  /** Filter keeps every occurrence of an element it passes and none of one
      it drops. */
  lemma {:induction false} FilterCounts<T>(p: T -> bool, s: seq<T>)
    ensures forall x :: multiset(Filter(p, s))[x] == if p(x) then multiset(s)[x] else 0
  {
    if s != [] {
      FilterStep(p, s);
      FilterCounts(p, s[1..]);
      assert s == [s[0]] + s[1..];
      assert multiset(s) == multiset{s[0]} + multiset(s[1..]);
    }
  }

  /** Filtering with a predicate every element meets keeps the sequence. */
  lemma {:induction false} FilterKeepsAll<T>(p: T -> bool, s: seq<T>)
    requires forall k :: 0 <= k < |s| ==> p(s[k])
    ensures Filter(p, s) == s
  {
    if s != [] {
      FilterKeepsAll(p, s[1..]);
    }
  }

  /** Filtering with a predicate no element meets leaves nothing. */
  lemma {:induction false} FilterNone<T>(p: T -> bool, s: seq<T>)
    requires forall k :: 0 <= k < |s| ==> !p(s[k])
    ensures Filter(p, s) == []
  {
    if s != [] {
      FilterNone(p, s[1..]);
    }
  }

  /** Dropping an element the predicate rejects does not change the filter. */
  lemma {:induction false} FilterWithout<T>(p: T -> bool, s: seq<T>, i: nat)
    requires i < |s| && !p(s[i])
    ensures Filter(p, s[..i] + s[i + 1..]) == Filter(p, s)
  {
    var t := s[..i] + s[i + 1..];
    if i == 0 {
      assert t == s[1..];
    } else {
      FilterWithout(p, s[1..], i - 1);
      assert t[0] == s[0];
      assert t[1..] == s[1..][..i - 1] + s[1..][i..];
    }
  }

  /** Replacing a rejected element by another rejected one does not change
      the filter. */
  lemma FilterReplace<T>(p: T -> bool, s: seq<T>, i: nat, x: T)
    requires i < |s| && !p(s[i]) && !p(x)
    ensures Filter(p, s[i := x]) == Filter(p, s)
  {
    var t := s[i := x];
    assert t[..i] + t[i + 1..] == s[..i] + s[i + 1..];
    FilterWithout(p, t, i);
    FilterWithout(p, s, i);
  }

  /** Array.prototype.slice(0, end), where a negative `end` counts back from
      the end of the array. */
  function SliceTo<T>(s: seq<T>, end: int): (r: seq<T>)
    ensures end >= 0 ==> |r| == if end < |s| then end else |s|
    ensures end < 0 ==> |r| == if |s| + end > 0 then |s| + end else 0
    ensures r == s[..|r|]
  {
    var stop := if end >= 0 then (if end < |s| then end else |s|)
                else (if |s| + end > 0 then |s| + end else 0);
    s[..stop]
  }
}
