/**
 * The few pieces of Python's string behaviour the crawler relies on:
 * `str.strip()`, decimal rendering of integers, three-digit zero padding (format `03d`) and the
 * `str()` coercion applied to item titles.
 */
module PyStr {
  import opened Json

  /** The characters for which Python's `str.isspace()` holds. */
  predicate IsSpace(c: char)
  {
    || c == ' '
    || ('\t' <= c <= '\r')
    || ('\U{1c}' <= c <= '\U{1f}')
    || c == '\U{85}' || c == '\U{a0}' || c == '\U{1680}'
    || ('\U{2000}' <= c <= '\U{200a}')
    || c == '\U{2028}' || c == '\U{2029}' || c == '\U{202f}' || c == '\U{205f}' || c == '\U{3000}'
  }

  predicate AllSpace(s: string)
  {
    forall k :: 0 <= k < |s| ==> IsSpace(s[k])
  }

  /** Drops the leading whitespace of `s`. */
  function TrimStart(s: string): string
  {
    if s != [] && IsSpace(s[0]) then TrimStart(s[1..]) else s
  }

  /** Drops the trailing whitespace of `s`. */
  function TrimEnd(s: string): string
  {
    if s != [] && IsSpace(s[|s| - 1]) then TrimEnd(s[..|s| - 1]) else s
  }

  /** `TrimStart` cuts a whitespace prefix and leaves a suffix that does not start with whitespace. */
  lemma {:induction false} TrimStartFacts(s: string)
    ensures var r := TrimStart(s);
      && |r| <= |s| && r == s[|s| - |r|..] && AllSpace(s[..|s| - |r|])
      && (r != [] ==> !IsSpace(r[0]))
  {
    if s != [] && IsSpace(s[0]) {
      TrimStartFacts(s[1..]);
      TrimStartStep(s, TrimStart(s[1..]));
    }
  }

  /** `TrimEnd` cuts a whitespace suffix and leaves a prefix that does not end with whitespace. */
  lemma {:induction false} TrimEndFacts(s: string)
    ensures var r := TrimEnd(s);
      && |r| <= |s| && r == s[..|r|] && AllSpace(s[|r|..])
      && (r != [] ==> !IsSpace(r[|r| - 1]))
  {
    if s != [] && IsSpace(s[|s| - 1]) {
      var init := s[..|s| - 1];
      TrimEndFacts(init);
      var r := TrimEnd(init);
      assert init[..|r|] == s[..|r|];
      assert s[|r|..] == init[|r|..] + [s[|s| - 1]];
      AllSpaceConcat(init[|r|..], [s[|s| - 1]]);
    }
  }

  /** One leading space more than `s[1..]`: its trimmed suffix is also a suffix of `s`. */
  lemma TrimStartStep(s: string, r: string)
    requires s != [] && IsSpace(s[0]) && |r| <= |s| - 1
    requires r == s[1..][|s| - 1 - |r|..] && AllSpace(s[1..][..|s| - 1 - |r|])
    ensures r == s[|s| - |r|..] && AllSpace(s[..|s| - |r|])
  {
    var tail := s[1..];
    var n := |s| - |r|;
    assert tail[n - 1..] == s[n..];
    forall k | 0 <= k < n ensures IsSpace(s[..n][k]) {
      if k > 0 {
        assert s[..n][k] == tail[..n - 1][k - 1];
      }
    }
  }

  lemma AllSpaceConcat(a: string, b: string)
    requires AllSpace(a) && AllSpace(b)
    ensures AllSpace(a + b)
  {
    assert forall k :: 0 <= k < |a + b| ==> (a + b)[k] == if k < |a| then a[k] else b[k - |a|];
  }

  /**
   * `s.strip()`: the result is a slice of `s`, everything cut off is
   * whitespace, the result neither starts nor ends with whitespace, and it is
   * empty exactly when `s` is all whitespace.
   */
  function Strip(s: string): (r: string)
    ensures var i := LeadingSpaces(s);
      i + |r| <= |s| && r == s[i..i + |r|] && AllSpace(s[..i]) && AllSpace(s[i + |r|..])
    ensures r != [] ==> !IsSpace(r[0]) && !IsSpace(r[|r| - 1])
    ensures r == [] <==> AllSpace(s)
  {
    var t := TrimStart(s);
    TrimStartFacts(s);
    TrimEndFacts(t);
    StripFacts(s, t, TrimEnd(t));
    TrimEnd(t)
  }

  /** How many leading whitespace characters `s.strip()` removes. */
  function LeadingSpaces(s: string): nat
  {
    TrimStartFacts(s);
    |s| - |TrimStart(s)|
  }

  /** What `Strip` promises, derived from the contracts of its two halves. */
  lemma StripFacts(s: string, t: string, r: string)
    requires |t| <= |s| && t == s[|s| - |t|..] && AllSpace(s[..|s| - |t|])
    requires t != [] ==> !IsSpace(t[0])
    requires |r| <= |t| && r == t[..|r|] && AllSpace(t[|r|..])
    requires r != [] ==> !IsSpace(r[|r| - 1])
    ensures var i := |s| - |t|; r == s[i..i + |r|] && AllSpace(s[..i]) && AllSpace(s[i + |r|..])
    ensures r != [] ==> !IsSpace(r[0])
    ensures r == [] <==> AllSpace(s)
  {
    var i := |s| - |t|;
    assert s[i..i + |r|] == t[..|r|];
    assert s[i + |r|..] == t[|r|..];
    if r == [] {
      assert s == s[..i] + t;
      assert t[|r|..] == t;
    } else {
      assert s[i] == t[0] == r[0];
    }
  }

  lemma {:induction false} StripIdempotent(s: string)
    ensures Strip(Strip(s)) == Strip(s)
  {
    var r := Strip(s);
    if r != [] {
      assert TrimStart(r) == r;
      assert TrimEnd(r) == r;
    }
  }

  predicate IsDigit(c: char)
  {
    '0' <= c <= '9'
  }

  function DigitChar(d: nat): (c: char)
    requires d < 10
    ensures IsDigit(c) && (c as int) - ('0' as int) == d
  {
    "0123456789"[d]
  }

  /** `str(n)` for a non-negative integer: its decimal digits, most significant first. */
  function Decimal(n: nat): (r: string)
    ensures r != [] && forall k :: 0 <= k < |r| ==> IsDigit(r[k])
    ensures DigitsValue(r) == n
    ensures n > 0 ==> r[0] != '0'
  {
    if n < 10 then [DigitChar(n)]
    else
      var p := Decimal(n / 10);
      var r := p + [DigitChar(n % 10)];
      assert r[..|r| - 1] == p;
      r
  }

  /** The number a string of decimal digits denotes (a non-digit reads as 0). */
  function DigitsValue(s: string): nat
  {
    if s == [] then 0
    else DigitsValue(s[..|s| - 1]) * 10 + DigitValue(s[|s| - 1])
  }

  function DigitValue(c: char): nat
  {
    if IsDigit(c) then (c as int) - ('0' as int) else 0
  }

  lemma {:induction false} LeadingZero(s: string)
    ensures DigitsValue("0" + s) == DigitsValue(s)
  {
    if s != [] {
      assert ("0" + s)[..|"0" + s| - 1] == "0" + s[..|s| - 1];
      LeadingZero(s[..|s| - 1]);
    }
  }

  /**
   * Formatting `n` with `03d`: exactly three digits, zero-padded on the left,
   * below 1000, and the plain decimal from then on; either way the digits
   * denote `n`.
   */
  function Pad3(n: nat): (r: string)
    ensures |r| >= 3 && forall k :: 0 <= k < |r| ==> IsDigit(r[k])
    ensures DigitsValue(r) == n
    ensures n < 1000 ==> |r| == 3
    ensures n >= 1000 ==> r == Decimal(n)
  {
    if n < 1000 then DecimalBelow1000(n); ZeroPad(Decimal(n))
    else DecimalFrom100(n); ZeroPad(Decimal(n))
  }

  /** Numbers below 1000 have at most three decimal digits. */
  lemma DecimalBelow1000(n: nat)
    requires n < 1000
    ensures |Decimal(n)| <= 3
  {
    if n >= 10 {
      assert n / 10 < 100;
      if n / 10 >= 10 {
        assert n / 10 / 10 < 10;
        assert |Decimal(n / 10)| == |Decimal(n / 10 / 10)| + 1 == 2;
      }
    }
  }

  /** Numbers from 100 on have at least three decimal digits. */
  lemma DecimalFrom100(n: nat)
    requires n >= 100
    ensures |Decimal(n)| >= 3
  {
    assert n / 10 >= 10;
    assert |Decimal(n / 10)| >= 2;
  }

  /** Left-pads a digit string with zeros up to three characters. */
  function ZeroPad(s: string): (r: string)
    requires forall k :: 0 <= k < |s| ==> IsDigit(s[k])
    ensures |r| >= 3 && forall k :: 0 <= k < |r| ==> IsDigit(r[k])
    ensures DigitsValue(r) == DigitsValue(s)
    ensures |s| <= 3 ==> |r| == 3
    ensures |s| >= 3 ==> r == s
    decreases 3 - |s|
  {
    if |s| >= 3 then s
    else
      LeadingZero(s);
      ZeroPad("0" + s)
  }

  /** `str(i)` for any integer. */
  function IntText(i: int): (r: string)
    ensures r != [] && !IsSpace(r[0])
  {
    if i < 0 then "-" + Decimal(-i) else Decimal(i)
  }

  /**
   * `str(v)` for a title that is neither `None` nor a float (the crawler tests
   * those first and never coerces them). The text of a list or dict is only
   * represented by its opening and closing bracket.
   */
  function Str(v: Json): (r: string)
    requires !v.JNull? && !v.JFloat?
    ensures v.JString? ==> r == v.s
    ensures !v.JString? ==> r != [] && !IsSpace(r[0])
  {
    match v
    case JBool(b) => if b then "True" else "False"
    case JInt(i) => IntText(i)
    case JString(s) => s
    case JArray(_) => "[...]"
    case JObject(_) => "{...}"
  }
}
