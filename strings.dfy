/** Python's `str.strip`, `str.lower`, `str.join`, `str(int)` and `int(str)`,
    as the ingestion and recommendation code use them. */
module Strings {
  import opened Common

  /** The characters Python's `str.strip()` removes and the regular expression
      class `\s` matches (`str.isspace`): ASCII whitespace, the separators
      U+001C..U+001F, and the Unicode spaces and line separators. */
  predicate IsSpace(c: char)
  {
    var k := c as int;
    (9 <= k <= 13) || (28 <= k <= 32) || k == 0x85 || k == 0xA0 || k == 0x1680
    || (0x2000 <= k <= 0x200A) || k == 0x2028 || k == 0x2029 || k == 0x202F
    || k == 0x205F || k == 0x3000
  }

  predicate AllSpace(s: string)
  {
    forall i :: 0 <= i < |s| ==> IsSpace(s[i])
  }

  /** `s.lstrip()`: the suffix of `s` left after its leading whitespace. */
  function LStrip(s: string): (r: string)
    ensures |r| <= |s| && r == s[|s| - |r|..] && AllSpace(s[..|s| - |r|])
    ensures r == [] || !IsSpace(r[0])
  {
    if s != [] && IsSpace(s[0]) then
      var t := LStrip(s[1..]);
      LStripStep(s, t);
      t
    else s
  }

  lemma LStripStep(s: string, t: string)
    requires s != [] && IsSpace(s[0])
    requires |t| <= |s| - 1 && t == s[1..][|s| - 1 - |t|..] && AllSpace(s[1..][..|s| - 1 - |t|])
    ensures t == s[|s| - |t|..] && AllSpace(s[..|s| - |t|])
  {
    var n := |s| - |t|;
    forall i | 0 <= i < n ensures IsSpace(s[..n][i]) {
      if i > 0 {
        assert s[..n][i] == s[1..][..n - 1][i - 1];
      }
    }
  }

  /** `s.rstrip()`: the prefix of `s` left before its trailing whitespace. */
  function RStrip(s: string): (r: string)
    ensures |r| <= |s| && r == s[..|r|] && AllSpace(s[|r|..])
    ensures r == [] || !IsSpace(r[|r| - 1])
  {
    if s != [] && IsSpace(s[|s| - 1]) then
      var t := RStrip(s[..|s| - 1]);
      RStripStep(s, t);
      t
    else s
  }

  lemma RStripStep(s: string, t: string)
    requires s != [] && IsSpace(s[|s| - 1])
    requires |t| <= |s| - 1 && t == s[..|s| - 1][..|t|] && AllSpace(s[..|s| - 1][|t|..])
    ensures t == s[..|t|] && AllSpace(s[|t|..])
  {
    var n := |t|;
    forall i | 0 <= i < |s| - n ensures IsSpace(s[n..][i]) {
      if n + i < |s| - 1 {
        assert s[n..][i] == s[..|s| - 1][n..][i];
      }
    }
  }

  /** A string that does not end in whitespace is its own `rstrip`. */
  lemma RStripNoTrailingSpace(s: string)
    requires s != [] && !IsSpace(s[|s| - 1])
    ensures RStrip(s) == s
  {
  }

  /** `s` has no whitespace at either end. */
  predicate Trimmed(s: string)
  {
    s == [] || (!IsSpace(s[0]) && !IsSpace(s[|s| - 1]))
  }

  /** `s.strip()`. */
  function Strip(s: string): (r: string)
    ensures Trimmed(r)
  {
    RStrip(LStrip(s))
  }

  /** A string with no whitespace at either end is its own strip, and so
      stripping twice is stripping once. */
  lemma StripTrimmed(s: string)
    requires Trimmed(s)
    ensures Strip(s) == s
  {
  }

  lemma StripIdempotent(s: string)
    ensures Strip(Strip(s)) == Strip(s)
  {
    StripTrimmed(Strip(s));
  }

  /** A single blank is whitespace. */
  lemma OneSpace()
    ensures AllSpace(" ")
  {
    assert IsSpace(' ');
  }

  /** Leading whitespace is already gone after one `lstrip`. */
  lemma LStripStripped(s: string)
    ensures LStrip(LStrip(s)) == LStrip(s) && Strip(LStrip(s)) == Strip(s)
  {
    var l := LStrip(s);
    assert l == [] || !IsSpace(l[0]);
  }

  /** Removing whitespace from the front does not change the stripped string. */
  lemma {:induction false} StripAfterLeadingSpace(w: string, s: string)
    requires AllSpace(w)
    ensures LStrip(w + s) == LStrip(s) && Strip(w + s) == Strip(s)
  {
    if w != [] {
      assert (w + s)[0] == w[0];
      assert (w + s)[1..] == w[1..] + s;
      StripAfterLeadingSpace(w[1..], s);
    } else {
      assert w + s == s;
    }
  }

  /** Removing whitespace from the back does not change the stripped string. */
  lemma {:induction false} RStripTrailingSpace(s: string, w: string)
    requires AllSpace(w)
    ensures RStrip(s + w) == RStrip(s)
  {
    if w != [] {
      var n := |w| - 1;
      assert (s + w)[..|s + w| - 1] == s + w[..n];
      RStripTrailingSpace(s, w[..n]);
    } else {
      assert s + w == s;
    }
  }

  /** Leading whitespace is stripped across a concatenation: when `t` holds a
      non-space character, what follows it is kept as is. */
  lemma {:induction false} LStripAppend(t: string, w: string)
    ensures LStrip(t + w) == if LStrip(t) == [] then LStrip(w) else LStrip(t) + w
  {
    if t == [] {
      assert t + w == w;
    } else if IsSpace(t[0]) {
      assert (t + w)[1..] == t[1..] + w;
      LStripAppend(t[1..], w);
    } else {
      assert (t + w)[0] == t[0];
    }
  }

  lemma {:induction false} LStripAllSpace(w: string)
    requires AllSpace(w)
    ensures LStrip(w) == []
  {
    if w != [] {
      LStripAllSpace(w[1..]);
    }
  }

  /** Whitespace appended to a string does not change its strip. */
  lemma StripTrailingSpace(t: string, w: string)
    requires AllSpace(w)
    ensures Strip(t + w) == Strip(t)
  {
    LStripAppend(t, w);
    if LStrip(t) == [] {
      LStripAllSpace(w);
    } else {
      RStripTrailingSpace(LStrip(t), w);
    }
  }

  /** Python's `str.lower()` on the ASCII letters. */
  function LowerChar(c: char): char
  {
    if 'A' <= c <= 'Z' then (c as int + 32) as char else c
  }

  function Lower(s: string): (r: string)
    ensures |r| == |s|
    ensures forall i :: 0 <= i < |s| ==> r[i] == LowerChar(s[i])
  {
    seq(|s|, i requires 0 <= i < |s| => LowerChar(s[i]))
  }

  /** `sep.join(parts)`. */
  function Join(parts: seq<string>, sep: string): string
  {
    if parts == [] then ""
    else if |parts| == 1 then parts[0]
    else parts[0] + sep + Join(parts[1..], sep)
  }

  predicate IsDigit(c: char)
  {
    '0' <= c <= '9'
  }

  function DigitChar(d: nat): (c: char)
    requires d < 10
    ensures IsDigit(c) && c as int - '0' as int == d
  {
    ('0' as int + d) as char
  }

  /** `str(n)` for a natural number: its decimal digits, without leading zeros. */
  function NatToString(n: nat): (r: string)
    ensures r != [] && forall i :: 0 <= i < |r| ==> IsDigit(r[i])
    ensures |r| > 1 ==> r[0] != '0'
  {
    if n < 10 then [DigitChar(n)] else NatToString(n / 10) + [DigitChar(n % 10)]
  }

  /** `str(x)` for an integer. */
  function IntToString(x: int): (r: string)
    ensures r != [] && forall i :: 0 <= i < |r| ==> IsDigit(r[i]) || (i == 0 && r[i] == '-')
  {
    if x < 0 then "-" + NatToString(-x) else NatToString(x)
  }

  /** The value of a non-empty string of decimal digits. */
  function DigitsValue(ds: string): nat
    requires forall i :: 0 <= i < |ds| ==> IsDigit(ds[i])
  {
    if ds == [] then 0
    else
      assert IsDigit(ds[|ds| - 1]);
      DigitsValue(ds[..|ds| - 1]) * 10 + (ds[|ds| - 1] as int - '0' as int)
  }

  predicate AllDigits(ds: string)
  {
    ds != [] && forall i :: 0 <= i < |ds| ==> IsDigit(ds[i])
  }

  /** Python's `int(s)` in base 10: surrounding whitespace is ignored, one
      optional sign, then one or more ASCII digits; anything else is the
      `ValueError` the source lets through, here `None`. */
  function ParseInt(s: string): Option<int>
  {
    ParseSigned(Strip(s))
  }

  /** `int` on a string already stripped. */
  function ParseSigned(t: string): Option<int>
  {
    if t != [] && (t[0] == '-' || t[0] == '+') then
      if AllDigits(t[1..]) then
        var v: int := DigitsValue(t[1..]);
        Some(if t[0] == '-' then -v else v)
      else None
    else if AllDigits(t) then Some(DigitsValue(t))
    else None
  }

  lemma {:induction false} DigitsValueOfNat(n: nat)
    ensures DigitsValue(NatToString(n)) == n
  {
    var r := NatToString(n);
    if n >= 10 {
      DigitsValueOfNat(n / 10);
      assert r[..|r| - 1] == NatToString(n / 10);
    }
  }

  lemma ParseSignedOfIntToString(x: int)
    ensures ParseSigned(IntToString(x)) == Some(x)
  {
    if x < 0 {
      var d := NatToString(-x);
      assert ("-" + d)[0] == '-' && ("-" + d)[1..] == d;
      assert AllDigits(d);
      DigitsValueOfNat(-x);
    } else {
      var d := NatToString(x);
      assert AllDigits(d) && d[0] != '-' && d[0] != '+';
      DigitsValueOfNat(x);
    }
  }

  /** `int(str(x)) == x`: decimal printing and parsing are inverse. */
  lemma ParseIntOfIntToString(x: int)
    ensures ParseInt(IntToString(x)) == Some(x)
  {
    var r := IntToString(x);
    assert Trimmed(r) by {
      assert !IsSpace(r[0]) && !IsSpace(r[|r| - 1]);
    }
    StripTrimmed(r);
    ParseSignedOfIntToString(x);
  }

  /** Hence distinct integers print as distinct strings. */
  lemma IntToStringInjective(x: int, y: int)
    requires IntToString(x) == IntToString(y)
    ensures x == y
  {
    ParseIntOfIntToString(x);
    ParseIntOfIntToString(y);
  }
}
