/**
 * The decimal text of a 32-bit signed integer, as the .NET runtime writes it
 * (`int.ToString()`, used when the API version is put into a URL) and reads it
 * back (`int.TryParse` with the default integer style, used on the
 * `X-TokenLifetimeRemaining` response header).
 */
module Int32Text {
  import opened Outcomes

  const MinInt32: int := -0x8000_0000
  const MaxInt32: int := 0x7fff_ffff

  /** C#'s `int`. */
  newtype int32 = x: int | -0x8000_0000 <= x <= 0x7fff_ffff

  predicate IsDigit(c: char) { '0' <= c <= '9' }

  /** The white space `int.TryParse` skips around a number: U+0009 to U+000D and U+0020. */
  predicate IsWhite(c: char) { c == ' ' || '\t' <= c <= '\r' }

  predicate AllDigits(s: string) { forall i :: 0 <= i < |s| ==> IsDigit(s[i]) }

  function DigitValue(c: char): (d: nat)
    requires IsDigit(c)
    ensures d < 10
  {
    c as int - '0' as int
  }

  function DigitChar(d: nat): (c: char)
    requires d < 10
    ensures IsDigit(c) && DigitValue(c) == d
  {
    ('0' as int + d) as char
  }

  /** The value of a run of decimal digits, most significant digit first. */
  function DigitsValue(s: string): nat
    requires AllDigits(s)
  {
    if s == [] then 0 else DigitsValue(s[..|s| - 1]) * 10 + DigitValue(s[|s| - 1])
  }

  /** The shortest decimal digits of `n`. */
  function NatDigits(n: nat): (s: string)
    ensures |s| > 0 && AllDigits(s)
  {
    if n < 10 then [DigitChar(n)] else NatDigits(n / 10) + [DigitChar(n % 10)]
  }

  /** `int.ToString()` under the invariant culture: a minus sign for negative values, then the digits. */
  function FormatInt(n: int): string
  {
    if n < 0 then "-" + NatDigits(-n) else NatDigits(n)
  }

  function TrimStart(s: string): (t: string)
    ensures |t| <= |s| && t == s[|s| - |t|..]
    ensures t == [] || !IsWhite(t[0])
  {
    if s != [] && IsWhite(s[0]) then TrimStart(s[1..]) else s
  }

  function TrimEnd(s: string): (t: string)
    ensures |t| <= |s| && t == s[..|t|]
    ensures t == [] || !IsWhite(t[|t| - 1])
  {
    if s != [] && IsWhite(s[|s| - 1]) then TrimEnd(s[..|s| - 1]) else s
  }

  /**
   * `int.TryParse(s, out v)`: surrounding white space, then an optional sign,
   * then one or more ASCII digits whose value fits in 32 bits; anything else
   * fails (None).
   */
  function ParseInt32(s: string): Option<int32>
  {
    ParseSignedDigits(TrimEnd(TrimStart(s)))
  }

  /** An optional sign followed by one or more digits, in range. */
  function ParseSignedDigits(t: string): Option<int32>
  {
    var signed := |t| > 0 && (t[0] == '-' || t[0] == '+');
    var digits := if signed then t[1..] else t;
    if digits == [] || !AllDigits(digits) then None
    else
      var magnitude: int := DigitsValue(digits);
      var v := if signed && t[0] == '-' then -magnitude else magnitude;
      if MinInt32 <= v <= MaxInt32 then Some(v as int32) else None
  }

  lemma {:induction false} DigitsValueOfNatDigits(n: nat)
    ensures DigitsValue(NatDigits(n)) == n
  {
    var s := NatDigits(n);
    if n >= 10 {
      DigitsValueOfNatDigits(n / 10);
      assert s[..|s| - 1] == NatDigits(n / 10);
    }
  }

  lemma FormatIntHasNoWhite(n: int)
    ensures var s := FormatInt(n); |s| > 0 && !IsWhite(s[0]) && !IsWhite(s[|s| - 1])
  {
  }

  /**
   * Reading back what `int.ToString()` wrote gives the same number exactly
   * when it fits in 32 bits; a wider value is refused rather than wrapped.
   */
  lemma {:induction false} ParseFormatRoundTrip(n: int)
    ensures ParseInt32(FormatInt(n)) == if MinInt32 <= n <= MaxInt32 then Some(n as int32) else None
  {
    var s := FormatInt(n);
    FormatIntHasNoWhite(n);
    assert TrimStart(s) == s;
    assert TrimEnd(s) == s;
    DigitsValueOfNatDigits(if n < 0 then -n else n);
    if n < 0 {
      assert s[1..] == NatDigits(-n);
    } else {
      assert IsDigit(s[0]);
    }
  }

  predicate AllWhite(s: string) { forall i :: 0 <= i < |s| ==> IsWhite(s[i]) }

  lemma {:induction false} TrimStartSkipsWhite(w: string, s: string)
    requires AllWhite(w) && s != [] && !IsWhite(s[0])
    ensures TrimStart(w + s) == s
  {
    if w != [] {
      assert (w + s)[1..] == w[1..] + s;
      TrimStartSkipsWhite(w[1..], s);
    }
  }

  lemma {:induction false} TrimEndSkipsWhite(s: string, w: string)
    requires AllWhite(w) && s != [] && !IsWhite(s[|s| - 1])
    ensures TrimEnd(s + w) == s
  {
    if w != [] {
      assert (s + w)[..|s + w| - 1] == s + w[..|w| - 1];
      TrimEndSkipsWhite(s, w[..|w| - 1]);
    }
  }

  /** White space around the text is ignored, as the default integer style allows. */
  lemma ParseIgnoresSurroundingWhite(before: string, s: string, after: string)
    requires AllWhite(before) && AllWhite(after)
    requires s != [] && !IsWhite(s[0]) && !IsWhite(s[|s| - 1])
    ensures ParseInt32(before + s + after) == ParseInt32(s)
  {
    var tail := s + after;
    assert before + s + after == before + tail;
    assert !IsWhite(tail[0]);
    TrimStartSkipsWhite(before, tail);
    TrimEndSkipsWhite(s, after);
    TrimStartSkipsWhite([], s);
    TrimEndSkipsWhite(s, []);
    assert [] + s == s && s + [] == s;
  }
}
