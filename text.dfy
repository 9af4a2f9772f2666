/**
 * The pieces of Python's `str` behaviour the loader and the query console rely on:
 * `strip`, `rstrip(ch)`, `lower`, `split(sep)`, `sep.join`, `ljust`, `str(int)` and `int(str)`.
 * Characters are Unicode code points; only the ASCII part of Python's whitespace
 * and case tables is modelled.
 */
module Text {
  import opened Wrappers

  type String = seq<char>

  /** Python's `str.isspace()` restricted to ASCII (tab, newline, VT, FF, CR, FS, GS, RS, US, space). */
  predicate IsSpace(c: char)
  {
    c == ' ' || (9 <= c as int <= 13) || (28 <= c as int <= 31)
  }

  /** The end of the run of whitespace that starts at `i`. */
  function SpaceRunEnd(s: String, i: nat): (j: nat)
    requires i <= |s|
    ensures i <= j <= |s| && (j == |s| || !IsSpace(s[j]))
    ensures forall k :: i <= k < j ==> IsSpace(s[k])
    decreases |s| - i
  {
    if i == |s| || !IsSpace(s[i]) then i else SpaceRunEnd(s, i + 1)
  }

  /** The start of the run of whitespace that ends just before `j`. */
  function SpaceRunStart(s: String, j: nat): (i: nat)
    requires j <= |s|
    ensures i <= j && (i == 0 || !IsSpace(s[i - 1]))
    ensures forall k :: i <= k < j ==> IsSpace(s[k])
  {
    if j == 0 || !IsSpace(s[j - 1]) then j else SpaceRunStart(s, j - 1)
  }

  /** Python's `s.lstrip()`: what follows the leading whitespace. */
  function LStrip(s: String): (r: String)
    ensures |r| <= |s| && r == s[|s| - |r|..]
    ensures r == [] || !IsSpace(r[0])
    ensures forall i :: 0 <= i < |s| - |r| ==> IsSpace(s[i])
  {
    s[SpaceRunEnd(s, 0)..]
  }

  /** Python's `s.rstrip()`: what precedes the trailing whitespace. */
  function RStrip(s: String): (r: String)
    ensures |r| <= |s| && r == s[..|r|]
    ensures r == [] || !IsSpace(r[|r| - 1])
    ensures forall i :: |r| <= i < |s| ==> IsSpace(s[i])
  {
    s[..SpaceRunStart(s, |s|)]
  }

  /** Python's `s.strip()`: leading and trailing whitespace removed. */
  function Strip(s: String): (r: String)
  {
    RStrip(LStrip(s))
  }

  /** The stripped string is the slice of `s` that follows the leading whitespace. */
  lemma StripSlice(s: String)
    ensures var r := Strip(s);
      var off := |s| - |LStrip(s)|;
      off + |r| <= |s| && r == s[off..off + |r|]
  {
    var l := LStrip(s);
    var r := RStrip(l);
    var off := |s| - |l|;
    assert l == s[off..];
    assert r == l[..|r|];
  }

  /** The stripped string neither starts nor ends with whitespace. */
  lemma StripEnds(s: String)
    ensures var r := Strip(s);
      r == [] || (!IsSpace(r[0]) && !IsSpace(r[|r| - 1]))
  {
    var l := LStrip(s);
    var r := RStrip(l);
    if r != [] {
      assert r[0] == l[0];
    }
  }

  /** A stripped string is left alone by a second strip. */
  lemma StripIdempotent(s: String)
    ensures Strip(Strip(s)) == Strip(s)
  {
    StripEnds(s);
    var r := Strip(s);
    assert LStrip(r) == r;
    assert RStrip(r) == r;
  }

  /** Stripping never introduces a character that was not there. */
  lemma StripKeepsAbsence(s: String, c: char)
    requires c !in s
    ensures c !in Strip(s)
  {
    StripSlice(s);
  }

  /** A character that is not whitespace is never stripped away. */
  lemma StripKeepsNonSpace(s: String, p: int)
    requires 0 <= p < |s| && !IsSpace(s[p])
    ensures s[p] in Strip(s)
  {
    var l := LStrip(s);
    var off := |s| - |l|;
    assert p >= off;
    assert l[p - off] == s[p];
    var r := RStrip(l);
    assert p - off < |r|;
    assert r[p - off] == s[p];
  }

  /** Python's `s.rstrip(ch)`: every trailing `ch` removed. */
  function RStripChar(s: String, ch: char): (r: String)
    ensures |r| <= |s| && r == s[..|r|]
    ensures r == [] || r[|r| - 1] != ch
    ensures forall i :: |r| <= i < |s| ==> s[i] == ch
  {
    if s == [] || s[|s| - 1] != ch then s else RStripChar(s[..|s| - 1], ch)
  }

  function LowerChar(c: char): char
  {
    if 'A' <= c <= 'Z' then (c as int + 32) as char else c
  }

  /** Python's `s.lower()` on ASCII letters; every other character is kept. */
  function Lower(s: String): (r: String)
    ensures |r| == |s|
    ensures forall i :: 0 <= i < |s| ==> r[i] == LowerChar(s[i])
  {
    seq(|s|, i requires 0 <= i < |s| => LowerChar(s[i]))
  }

  lemma LowerIdempotent(s: String)
    ensures Lower(Lower(s)) == Lower(s)
  {
  }

  /** Python's `s.split(sep)`: the pieces between occurrences of `sep`, always at least one. */
  function Split(s: String, sep: char): (r: seq<String>)
    ensures |r| >= 1
    ensures forall i :: 0 <= i < |r| ==> sep !in r[i]
  {
    if s == [] then [[]]
    else if s[0] == sep then [[]] + Split(s[1..], sep)
    else
      var rest := Split(s[1..], sep);
      [[s[0]] + rest[0]] + rest[1..]
  }

  /** Python's `sep.join(parts)`. */
  function Join(parts: seq<String>, sep: String): String
  {
    if parts == [] then []
    else if |parts| == 1 then parts[0]
    else parts[0] + sep + Join(parts[1..], sep)
  }

  /** Joining the pieces of a split with the same separator gives back the original text. */
  lemma {:induction false} JoinSplit(s: String, sep: char)
    ensures Join(Split(s, sep), [sep]) == s
  {
    if s == [] {
    } else if s[0] == sep {
      JoinSplit(s[1..], sep);
      assert s == [sep] + s[1..];
    } else {
      var rest := Split(s[1..], sep);
      JoinSplit(s[1..], sep);
      if |rest| == 1 {
        assert s == [s[0]] + rest[0];
      } else {
        assert Join(rest, [sep]) == rest[0] + [sep] + Join(rest[1..], [sep]);
        assert s == [s[0]] + s[1..];
      }
    }
  }

  /** Text without the separator splits into itself alone. */
  lemma {:induction false} SplitNoSep(s: String, sep: char)
    requires sep !in s
    ensures Split(s, sep) == [s]
  {
    if s != [] {
      SplitNoSep(s[1..], sep);
      assert s == [s[0]] + s[1..];
    }
  }

  /** Splitting around one separator splits the two sides independently. */
  lemma {:induction false} SplitAround(a: String, sep: char, b: String)
    ensures Split(a + [sep] + b, sep) == Split(a, sep) + Split(b, sep)
  {
    if a == [] {
      assert a + [sep] + b == [sep] + b;
      assert ([sep] + b)[1..] == b;
    } else {
      var s := a + [sep] + b;
      assert s[1..] == a[1..] + [sep] + b;
      SplitAround(a[1..], sep, b);
      if a[0] == sep {
      } else {
        var rest := Split(a[1..], sep);
        assert Split(s[1..], sep)[0] == rest[0];
        assert Split(s[1..], sep)[1..] == rest[1..] + Split(b, sep);
      }
    }
  }

  /** Splitting a join of separator-free pieces gives the pieces back. */
  lemma {:induction false} SplitJoin(parts: seq<String>, sep: char)
    requires parts != [] && forall i :: 0 <= i < |parts| ==> sep !in parts[i]
    ensures Split(Join(parts, [sep]), sep) == parts
    decreases |parts|
  {
    if |parts| == 1 {
      SplitNoSep(parts[0], sep);
    } else {
      var rest := parts[1..];
      assert forall i :: 0 <= i < |rest| ==> sep !in rest[i] by {
        forall i | 0 <= i < |rest| ensures sep !in rest[i] {
          assert rest[i] == parts[i + 1];
        }
      }
      SplitJoin(rest, sep);
      SplitAround(parts[0], sep, Join(rest, [sep]));
      SplitNoSep(parts[0], sep);
      assert parts == [parts[0]] + rest;
    }
  }

  /** `n` copies of `c` (Python's `c * n`). */
  function Repeat(c: char, n: nat): (r: String)
    ensures |r| == n
    ensures forall i :: 0 <= i < n ==> r[i] == c
  {
    seq(n, _ => c)
  }

  /** Python's `s.ljust(w)`: padded with spaces on the right to width `w`, never truncated. */
  function LJust(s: String, w: int): (r: String)
    ensures |r| == if |s| < w then w else |s|
    ensures r[..|s|] == s
    ensures forall i :: |s| <= i < |r| ==> r[i] == ' '
  {
    if |s| < w then s + Repeat(' ', w - |s|) else s
  }

  predicate IsDigit(c: char)
  {
    '0' <= c <= '9'
  }

  predicate AllDigits(s: String)
  {
    forall i :: 0 <= i < |s| ==> IsDigit(s[i])
  }

  /** Decimal value of a string of ASCII digits. */
  function DigitsValue(s: String): (n: nat)
    requires AllDigits(s)
  {
    if s == [] then 0 else 10 * DigitsValue(s[..|s| - 1]) + (s[|s| - 1] as int - '0' as int)
  }

  /** The body of an integer literal that Python's `int()` accepts: an optional sign, then one or more digits. */
  predicate IsIntLiteral(s: String)
  {
    if s != [] && (s[0] == '+' || s[0] == '-') then s[1..] != [] && AllDigits(s[1..])
    else s != [] && AllDigits(s)
  }

  /** An integer literal is made of digits and at most a leading sign. */
  lemma IntLiteralChars(t: String)
    requires IsIntLiteral(t)
    ensures forall c :: c in t ==> IsDigit(c) || c == '+' || c == '-'
  {
    forall c | c in t ensures IsDigit(c) || c == '+' || c == '-' {
      var i :| 0 <= i < |t| && t[i] == c;
      if i > 0 && (t[0] == '+' || t[0] == '-') {
        assert t[1..][i - 1] == c;
      }
    }
  }

  /**
   * Python's `int(s)`: surrounding whitespace is ignored, then an optional sign and
   * decimal digits; anything else is a ValueError, here `None`.
   */
  function ParseInt(s: String): (r: Option<int>)
    ensures r.Some? <==> IsIntLiteral(Strip(s))
  {
    var t := Strip(s);
    if t != [] && t[0] == '-' && t[1..] != [] && AllDigits(t[1..]) then Some(0 - DigitsValue(t[1..]) as int)
    else if t != [] && t[0] == '+' && t[1..] != [] && AllDigits(t[1..]) then Some(DigitsValue(t[1..]))
    else if t != [] && AllDigits(t) then Some(DigitsValue(t))
    else None
  }

  /** Decimal digits of a natural number, most significant first, no leading zeros. */
  function NatToString(n: nat): (s: String)
    ensures s != [] && AllDigits(s)
    ensures s[0] != '0' || n == 0
  {
    if n < 10 then [('0' as int + n) as char]
    else NatToString(n / 10) + [('0' as int + n % 10) as char]
  }

  /** Python's `str(n)` for an integer. */
  function IntToString(n: int): (s: String)
    ensures s != [] && ' ' !in s && '/' !in s && ';' !in s && ',' !in s
  {
    var r := if n < 0 then "-" + NatToString(-n) else NatToString(n);
    assert forall i :: 0 <= i < |r| ==> IsDigit(r[i]) || r[i] == '-';
    r
  }

  lemma {:induction false} NatToStringValue(n: nat)
    ensures DigitsValue(NatToString(n)) == n
  {
    if n >= 10 {
      NatToStringValue(n / 10);
      var s := NatToString(n);
      assert s[..|s| - 1] == NatToString(n / 10);
    }
  }

  /** A string that neither starts nor ends with whitespace is its own strip. */
  lemma StripFixed(s: String)
    requires s != [] && !IsSpace(s[0]) && !IsSpace(s[|s| - 1])
    ensures Strip(s) == s
  {
    assert LStrip(s) == s;
  }

  /** A run of digits parses to its value. */
  lemma ParseDigits(d: String)
    requires d != [] && AllDigits(d)
    ensures ParseInt(d) == Some(DigitsValue(d))
  {
    assert IsDigit(d[0]) && IsDigit(d[|d| - 1]);
    StripFixed(d);
  }

  /** A run of digits after a `-` parses to the negated value. */
  lemma ParseNegDigits(d: String, v: nat)
    requires d != [] && AllDigits(d) && DigitsValue(d) == v
    ensures ParseInt(['-'] + d) == Some(0 - v)
  {
    var m := ['-'] + d;
    assert m[1..] == d && m[|m| - 1] == d[|d| - 1];
    assert IsDigit(m[|m| - 1]);
    StripFixed(m);
    assert m[0] == '-' && m[1..] != [] && AllDigits(m[1..]);
  }

  lemma ParseNegOf(n: int)
    requires n < 0
    ensures ParseInt(['-'] + NatToString(-n)) == Some(n)
  {
    NatToStringValue(-n);
    ParseNegDigits(NatToString(-n), -n);
  }

  /** `str(n)` of a negative number is a minus sign before the digits of its magnitude. */
  lemma IntToStringNeg(n: int)
    requires n < 0
    ensures IntToString(n) == ['-'] + NatToString(-n)
  {
  }

  lemma IntRoundTripNeg(n: int)
    requires n < 0
    ensures ParseInt(IntToString(n)) == Some(n)
  {
    IntToStringNeg(n);
    ParseNegOf(n);
  }

  lemma IntRoundTripNat(n: int)
    requires n >= 0
    ensures ParseInt(IntToString(n)) == Some(n)
  {
    var d := NatToString(n);
    assert IntToString(n) == d;
    ParseDigits(d);
    NatToStringValue(n);
  }

  /** `int(str(n)) == n`: printing an integer and parsing it back is the identity. */
  lemma IntRoundTrip(n: int)
    ensures ParseInt(IntToString(n)) == Some(n)
  {
    if n < 0 { IntRoundTripNeg(n); } else { IntRoundTripNat(n); }
  }
}
