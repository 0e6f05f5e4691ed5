/**
 * The PHP string builtins the query builder leans on: `explode` with a
 * one-character separator, `implode` as its inverse, `array_filter`'s
 * notion of a falsy string, and the `(int)` cast of a numeric string.
 */
module PhpStrings {

  /** explode(sep, s): the pieces of `s` between occurrences of `sep`. */
  function Explode(sep: char, s: string): (parts: seq<string>)
    ensures |parts| >= 1
    ensures forall i :: 0 <= i < |parts| ==> sep !in parts[i]
    decreases |s|
  {
    if s == [] then [""]
    else
      var rest := Explode(sep, s[1..]);
      if s[0] == sep then [""] + rest
      else [[s[0]] + rest[0]] + rest[1..]
  }

  /** implode(sep, parts) for a non-empty list of pieces. */
  function Join(sep: char, parts: seq<string>): string
    requires |parts| >= 1
    decreases |parts|
  {
    if |parts| == 1 then parts[0] else parts[0] + [sep] + Join(sep, parts[1..])
  }

  lemma {:induction false} JoinPrepend(sep: char, a: string, parts: seq<string>)
    requires |parts| >= 1
    ensures Join(sep, [a + parts[0]] + parts[1..]) == a + Join(sep, parts)
  {
    var q := [a + parts[0]] + parts[1..];
    assert q[1..] == parts[1..];
  }

  /** Splitting then joining gives back the original string. */
  lemma {:induction false} JoinExplode(sep: char, s: string)
    ensures Join(sep, Explode(sep, s)) == s
    decreases |s|
  {
    if s != [] {
      var rest := Explode(sep, s[1..]);
      JoinExplode(sep, s[1..]);
      if s[0] == sep {
        assert ([""] + rest)[1..] == rest;
        assert s == [sep] + s[1..];
      } else {
        JoinPrepend(sep, [s[0]], rest);
        assert s == [s[0]] + s[1..];
      }
    }
  }

  lemma {:induction false} ExplodePrefix(sep: char, a: string, t: string)
    requires sep !in a
    ensures Explode(sep, a + t) == [a + Explode(sep, t)[0]] + Explode(sep, t)[1..]
    decreases |a|
  {
    if a != [] {
      ExplodePrefix(sep, a[1..], t);
      assert (a + t)[1..] == a[1..] + t;
      assert (a + t)[0] == a[0];
      assert [a[0]] + (a[1..] + Explode(sep, t)[0]) == a + Explode(sep, t)[0];
    } else {
      var e := Explode(sep, t);
      assert a + t == t;
      assert a + e[0] == e[0];
      assert e == [e[0]] + e[1..];
    }
  }

  /** A string without the separator is a single piece. */
  lemma ExplodeWhole(sep: char, s: string)
    requires sep !in s
    ensures Explode(sep, s) == [s]
  {
    ExplodePrefix(sep, s, "");
    assert s + "" == s;
  }

  /** Joining pieces free of the separator and splitting again gives back the pieces. */
  lemma {:induction false} ExplodeJoin(sep: char, parts: seq<string>)
    requires |parts| >= 1
    requires forall i :: 0 <= i < |parts| ==> sep !in parts[i]
    ensures Explode(sep, Join(sep, parts)) == parts
    decreases |parts|
  {
    if |parts| == 1 {
      ExplodeWhole(sep, parts[0]);
    } else {
      var t := [sep] + Join(sep, parts[1..]);
      assert Join(sep, parts) == parts[0] + t;
      ExplodePrefix(sep, parts[0], t);
      ExplodeJoin(sep, parts[1..]);
      assert t[1..] == Join(sep, parts[1..]);
      assert Explode(sep, t) == [""] + parts[1..];
      assert parts[0] + "" == parts[0];
      assert parts == [parts[0]] + parts[1..];
    }
  }

  /** `count(explode(sep, s)) > 1` exactly when `s` contains the separator. */
  lemma {:induction false} ExplodeSplits(sep: char, s: string)
    ensures |Explode(sep, s)| > 1 <==> sep in s
    decreases |s|
  {
    if s != [] {
      ExplodeSplits(sep, s[1..]);
      assert s == [s[0]] + s[1..];
      assert sep in s <==> s[0] == sep || sep in s[1..];
    }
  }

  /** PHP's `array_filter` without a callback drops the falsy strings: "" and "0". */
  predicate IsFalsy(s: string)
  {
    s == "" || s == "0"
  }

  /** The values `array_filter` keeps, in order. */
  function Kept(parts: seq<string>): (r: seq<string>)
    ensures |r| <= |parts|
    ensures forall i :: 0 <= i < |r| ==> !IsFalsy(r[i]) && r[i] in parts
    ensures forall x :: x in parts && !IsFalsy(x) ==> x in r
    decreases |parts|
  {
    if parts == [] then []
    else
      var rest := Kept(parts[1..]);
      assert forall x :: x in parts && x != parts[0] ==> x in parts[1..];
      (if IsFalsy(parts[0]) then [] else [parts[0]]) + rest
  }

  /** `array_filter` keeps the order of the pieces: filtering a concatenation filters each part. */
  lemma {:induction false} KeptConcat(a: seq<string>, b: seq<string>)
    ensures Kept(a + b) == Kept(a) + Kept(b)
    decreases |a|
  {
    if a == [] {
      assert a + b == b;
    } else {
      assert (a + b)[0] == a[0] && (a + b)[1..] == a[1..] + b;
      KeptConcat(a[1..], b);
    }
  }

  /** When no piece is falsy, `array_filter` keeps them all. */
  lemma {:induction false} KeptAll(parts: seq<string>)
    requires forall i :: 0 <= i < |parts| ==> !IsFalsy(parts[i])
    ensures Kept(parts) == parts
    decreases |parts|
  {
    if parts != [] {
      KeptAll(parts[1..]);
      assert parts == [parts[0]] + parts[1..];
    }
  }

  predicate IsDigit(c: char)
  {
    '0' <= c <= '9'
  }

  predicate AllDigits(s: string)
  {
    forall i :: 0 <= i < |s| ==> IsDigit(s[i])
  }

  function DigitValue(c: char): nat
    requires IsDigit(c)
  {
    (c as int) - ('0' as int)
  }

  function DigitChar(d: nat): (c: char)
    requires d < 10
    ensures IsDigit(c) && DigitValue(c) == d
  {
    (('0' as int) + d) as char
  }

  /** The longest prefix of `s` made of decimal digits. */
  function LeadingDigits(s: string): (d: string)
    ensures d <= s && AllDigits(d)
    ensures |d| < |s| ==> !IsDigit(s[|d|])
    decreases |s|
  {
    if s == [] || !IsDigit(s[0]) then [] else [s[0]] + LeadingDigits(s[1..])
  }

  /** The value of a string of decimal digits, most significant first. */
  function DigitsValue(d: string): nat
    requires AllDigits(d)
    decreases |d|
  {
    if d == [] then 0 else DigitsValue(d[..|d| - 1]) * 10 + DigitValue(d[|d| - 1])
  }

  /** PHP's `(int)` cast of a string: an optional sign, then the leading digits; 0 if none. */
  function ToInt(s: string): int
  {
    if |s| > 0 && s[0] == '-' then 0 - DigitsValue(LeadingDigits(s[1..]))
    else if |s| > 0 && s[0] == '+' then DigitsValue(LeadingDigits(s[1..]))
    else DigitsValue(LeadingDigits(s))
  }

  /** The decimal representation of a natural number. */
  function Decimal(n: nat): (s: string)
    ensures |s| >= 1 && AllDigits(s)
  {
    if n < 10 then [DigitChar(n)] else Decimal(n / 10) + [DigitChar(n % 10)]
  }

  /** The decimal representation of an integer, with a leading '-' when negative. */
  function IntToString(n: int): string
  {
    if n < 0 then "-" + Decimal(-n) else Decimal(n)
  }

  lemma {:induction false} LeadingDigitsOfDigits(s: string)
    requires AllDigits(s)
    ensures LeadingDigits(s) == s
    decreases |s|
  {
    if s != [] {
      LeadingDigitsOfDigits(s[1..]);
    }
  }

  lemma {:induction false} DecimalValue(n: nat)
    ensures DigitsValue(Decimal(n)) == n
  {
    if n >= 10 {
      var s := Decimal(n);
      DecimalValue(n / 10);
      assert s[..|s| - 1] == Decimal(n / 10);
    }
  }

  /** Casting the decimal representation of an integer back with `(int)` gives the integer. */
  lemma ToIntRoundTrip(n: int)
    ensures ToInt(IntToString(n)) == n
  {
    var m := if n < 0 then -n else n;
    LeadingDigitsOfDigits(Decimal(m));
    DecimalValue(m);
    var d := Decimal(m);
    assert IsDigit(d[0]);
    if n < 0 {
      assert ("-" + d)[1..] == d;
    }
  }
}
