/**
 * The string operations the parser uses from Python's built-ins: `in` on strings,
 * `str.lower()` (ASCII only), `str.split(sep)[0]`, `int(s)` and `str(n)`.
 */
module Text {
  import opened Wrappers

  // ----- substring test: Python's `sub in s` -----

  /** `sub` occurs somewhere in `s` (the empty string occurs in every string). */
  predicate IsSubstring(sub: string, s: string)
    decreases |s|
  {
    sub <= s || (|s| > 0 && IsSubstring(sub, s[1..]))
  }

  /** IsSubstring is the usual "some suffix starts with sub". */
  lemma {:induction false} IsSubstringAt(sub: string, s: string)
    ensures IsSubstring(sub, s) <==> exists i :: 0 <= i <= |s| && sub <= s[i..]
    decreases |s|
  {
    if sub <= s {
      assert s[0..] == s;
    } else if |s| > 0 {
      IsSubstringAt(sub, s[1..]);
      if IsSubstring(sub, s[1..]) {
        var i :| 0 <= i <= |s[1..]| && sub <= s[1..][i..];
        assert s[1..][i..] == s[i + 1..];
      } else {
        forall i | 1 <= i <= |s| ensures s[i..] == s[1..][i - 1..] { }
        assert s[0..] == s;
      }
    } else {
      assert forall i :: 0 <= i <= |s| ==> s[i..] == s;
    }
  }

  /** A string whose first character does not occur in `s` is not a substring of `s`. */
  lemma {:induction false} NotSubstringWithoutFirstChar(sub: string, s: string)
    requires sub != [] && sub[0] !in s
    ensures !IsSubstring(sub, s)
    decreases |s|
  {
    if s != [] {
      assert sub[0] != s[0];
      NotSubstringWithoutFirstChar(sub, s[1..]);
    }
  }

  lemma {:induction false} IsSubstringReflexive(s: string)
    ensures IsSubstring(s, s)
  {
  }

  // ----- ASCII lowering: Python's str.lower() restricted to ASCII -----

  function LowerChar(c: char): char
  {
    if 'A' <= c <= 'Z' then (c as int + 32) as char else c
  }

  /** The string with every ASCII upper-case letter replaced by its lower-case letter. */
  function Lower(s: string): (r: string)
    ensures |r| == |s|
  {
    seq(|s|, i requires 0 <= i < |s| => LowerChar(s[i]))
  }

  /** Lowering keeps every occurrence: a case-sensitive match is also a case-insensitive one. */
  lemma {:induction false} LowerKeepsSubstring(sub: string, s: string)
    requires IsSubstring(sub, s)
    ensures IsSubstring(Lower(sub), Lower(s))
    decreases |s|
  {
    if sub <= s {
      assert Lower(sub) == Lower(s)[..|sub|];
    } else {
      LowerKeepsSubstring(sub, s[1..]);
      assert Lower(s)[1..] == Lower(s[1..]);
    }
  }

  // ----- Python's str.split(sep)[0] -----

  /** The part of `s` before the first occurrence of `sep`, or all of `s` when `sep` does not occur. */
  function UpTo(s: string, sep: char): string
  {
    if s == [] then []
    else if s[0] == sep then []
    else [s[0]] + UpTo(s[1..], sep)
  }

  /** UpTo is the longest prefix without `sep`: the next character, if any, is `sep`. */
  lemma {:induction false} UpToSpec(s: string, sep: char)
    ensures UpTo(s, sep) <= s
    ensures sep !in UpTo(s, sep)
    ensures |UpTo(s, sep)| == |s| || s[|UpTo(s, sep)|] == sep
  {
    if s != [] && s[0] != sep {
      UpToSpec(s[1..], sep);
    }
  }

  // ----- Python's int(s) and str(n) for decimal integers -----

  predicate IsDigit(c: char)
  {
    '0' <= c <= '9'
  }

  /** A non-empty run of ASCII decimal digits. */
  predicate IsDigits(s: string)
  {
    |s| > 0 && forall i :: 0 <= i < |s| ==> IsDigit(s[i])
  }

  function DigitValue(c: char): nat
    requires IsDigit(c)
  {
    c as int - '0' as int
  }

  /** The number a run of decimal digits denotes. */
  function DigitsValue(s: string): nat
    requires forall i :: 0 <= i < |s| ==> IsDigit(s[i])
  {
    if s == [] then 0 else 10 * DigitsValue(s[..|s| - 1]) + DigitValue(s[|s| - 1])
  }

  /** `int(s)`: an optional sign followed by decimal digits; None stands for the ValueError. */
  function ParseInt(s: string): Option<int>
  {
    if |s| > 0 && (s[0] == '-' || s[0] == '+') then
      if IsDigits(s[1..]) then
        var v: int := DigitsValue(s[1..]);
        Some(if s[0] == '-' then -v else v)
      else None
    else if IsDigits(s) then Some(DigitsValue(s))
    else None
  }

  function DigitChar(d: nat): char
    requires d < 10
  {
    ('0' as int + d) as char
  }

  function NatToString(n: nat): string
  {
    if n < 10 then [DigitChar(n)] else NatToString(n / 10) + [DigitChar(n % 10)]
  }

  /** `str(n)`: a minus sign for negative numbers, then the digits without leading zeros. */
  function IntToString(n: int): string
  {
    if n < 0 then "-" + NatToString(-n) else NatToString(n)
  }

  /** The form `str` produces: no sign but a minus, no leading zero, no "-0". */
  predicate IsCanonical(s: string)
  {
    || (IsDigits(s) && (s[0] != '0' || |s| == 1))
    || (|s| > 1 && s[0] == '-' && IsDigits(s[1..]) && s[1] != '0')
  }

  lemma {:induction false} NatToStringDigits(n: nat)
    ensures IsDigits(NatToString(n))
    ensures NatToString(n)[0] != '0' || n == 0
    ensures DigitsValue(NatToString(n)) == n
  {
    var s := NatToString(n);
    if n >= 10 {
      NatToStringDigits(n / 10);
      assert s[..|s| - 1] == NatToString(n / 10);
    }
  }

  /** int(str(n)) == n for every integer. */
  lemma ParseIntOfIntToString(n: int)
    ensures IsCanonical(IntToString(n))
    ensures ParseInt(IntToString(n)) == Some(n)
  {
    if n < 0 {
      NatToStringDigits(-n);
      assert IntToString(n)[1..] == NatToString(-n);
    } else {
      NatToStringDigits(n);
    }
  }

  lemma {:induction false} DigitsValuePositive(s: string)
    requires IsDigits(s) && s[0] != '0'
    ensures DigitsValue(s) > 0
    decreases |s|
  {
    if |s| > 1 {
      DigitsValuePositive(s[..|s| - 1]);
    }
  }

  lemma {:induction false} NatToStringOfDigits(s: string)
    requires IsDigits(s) && (s[0] != '0' || |s| == 1)
    ensures NatToString(DigitsValue(s)) == s
    decreases |s|
  {
    if |s| > 1 {
      var p := s[..|s| - 1];
      NatToStringOfDigits(p);
      DigitsValuePositive(p);
      assert s == p + [s[|s| - 1]];
    }
  }

  /** str(int(s)) == s exactly when s is already in canonical form. */
  lemma IntToStringOfParseInt(s: string)
    requires IsCanonical(s)
    ensures ParseInt(s).Some? && IntToString(ParseInt(s).value) == s
  {
    if s[0] == '-' {
      NatToStringOfDigits(s[1..]);
      DigitsValuePositive(s[1..]);
      assert s == "-" + s[1..];
    } else {
      NatToStringOfDigits(s);
    }
  }
}
