/** Decimal digit strings: Python's str(n), str.zfill, int() on digit strings, the numeric
    coercion pandas applies to a text cell, and the search for a run of eight digits that the
    scripts use to pull a YYYYMMDD token out of a file name. */
module Decimal {
  import opened Wrappers

  predicate IsDigit(c: char) { '0' <= c <= '9' }

  predicate AllDigits(s: string) { forall i :: 0 <= i < |s| ==> IsDigit(s[i]) }

  function DigitChar(d: nat): (c: char)
    requires d < 10
    ensures IsDigit(c) && c as int - '0' as int == d
  {
    ('0' as int + d) as char
  }

  function DigitValue(c: char): nat
    requires IsDigit(c)
  {
    c as int - '0' as int
  }

  /** The number a digit string denotes, most significant digit first. */
  function ValueOf(s: string): nat
    requires AllDigits(s)
  {
    if s == [] then 0 else ValueOf(s[..|s| - 1]) * 10 + DigitValue(s[|s| - 1])
  }

  /** Number of digits Python's str(n) prints for n. */
  function DigitCount(n: nat): nat
  {
    if n < 10 then 1 else 1 + DigitCount(n / 10)
  }

  /** Python's str(n) for a non-negative integer: no sign, no leading zero. */
  function DecimalString(n: nat): (s: string)
    ensures |s| == DigitCount(n) && AllDigits(s)
    ensures ValueOf(s) == n
    ensures |s| > 1 ==> s[0] != '0'
  {
    if n < 10 then [DigitChar(n)]
    else
      var front := DecimalString(n / 10);
      var s := front + [DigitChar(n % 10)];
      assert s[..|s| - 1] == front;
      s
  }

  lemma TwoDigitCount(n: nat)
    requires 10 <= n < 100
    ensures DigitCount(n) == 2
  {
  }

  lemma DigitCountBelow100(n: nat)
    requires n < 100
    ensures DigitCount(n) <= 2
  {
  }

  lemma FourDigitCount(n: nat)
    requires 1000 <= n < 10000
    ensures DigitCount(n) == 4
  {
    assert DigitCount(n / 10) == 3 by {
      TwoDigitCount(n / 100);
    }
  }

  function Zeros(k: nat): (z: string)
    ensures |z| == k && AllDigits(z)
  {
    if k == 0 then [] else ['0'] + Zeros(k - 1)
  }

  lemma {:induction false} ZerosValue(k: nat)
    ensures ValueOf(Zeros(k)) == 0
  {
    if k > 0 {
      assert Zeros(k)[..k - 1] == Zeros(k - 1) by {
        assert Zeros(k) == Zeros(k - 1) + ['0'] by { ZerosSnoc(k); }
      }
      ZerosValue(k - 1);
    }
  }

  lemma {:induction false} ZerosSnoc(k: nat)
    requires k > 0
    ensures Zeros(k) == Zeros(k - 1) + ['0']
  {
    if k > 1 {
      ZerosSnoc(k - 1);
      assert Zeros(k) == ['0'] + (Zeros(k - 2) + ['0']);
    }
  }

  /** Leading zeros do not change the number a digit string denotes. */
  lemma {:induction false} LeadingZerosValue(k: nat, s: string)
    requires AllDigits(s)
    ensures AllDigits(Zeros(k) + s) && ValueOf(Zeros(k) + s) == ValueOf(s)
  {
    var z := Zeros(k) + s;
    if s == [] {
      assert z == Zeros(k);
      ZerosValue(k);
    } else {
      LeadingZerosValue(k, s[..|s| - 1]);
      assert z[..|z| - 1] == Zeros(k) + s[..|s| - 1];
    }
  }

  /** Python's str.zfill(width) on an unsigned digit string. */
  function ZeroPad(s: string, width: nat): (r: string)
    requires AllDigits(s)
    ensures |r| == (if |s| < width then width else |s|)
    ensures AllDigits(r) && ValueOf(r) == ValueOf(s)
    ensures |s| >= width ==> r == s
  {
    LeadingZerosValue(if |s| < width then width - |s| else 0, s);
    if |s| < width then Zeros(width - |s|) + s else s
  }

  /** str(n).zfill(2): the two-character day and month tokens of file names. */
  function TwoDigits(n: nat): (r: string)
    requires n < 100
    ensures |r| == 2 && AllDigits(r) && ValueOf(r) == n
  {
    DigitCountBelow100(n);
    ZeroPad(DecimalString(n), 2)
  }

  /** int(s) on text that is meant to hold an unsigned number; None where int() raises.
      Surrounding white space and underscores, which int() also accepts, are not modelled. */
  function ParseNat(s: string): (r: Option<nat>)
    ensures r.Some? <==> |s| > 0 && AllDigits(s)
    ensures r.Some? ==> r.value == ValueOf(s)
  {
    if |s| > 0 && AllDigits(s) then Some(ValueOf(s)) else None
  }

  /** int(s) with an optional sign. */
  function ParseInt(s: string): (r: Option<int>)
    ensures AllDigits(s) ==> r == (match ParseNat(s) case Some(n) => Some(n as int) case None => None)
  {
    if |s| > 0 && s[0] == '-' then
      match ParseNat(s[1..]) case Some(n) => Some(-(n as int)) case None => None
    else if |s| > 0 && s[0] == '+' then
      match ParseNat(s[1..]) case Some(n) => Some(n as int) case None => None
    else
      match ParseNat(s) case Some(n) => Some(n as int) case None => None
  }

  lemma ParseDecimalString(n: nat)
    ensures ParseNat(DecimalString(n)) == Some(n) && ParseInt(DecimalString(n)) == Some(n as int)
  {
  }

  function Pow10(k: nat): (p: nat)
    ensures p >= 1
  {
    if k == 0 then 1 else 10 * Pow10(k - 1)
  }

  /** Numeric coercion of a text cell (pandas.to_numeric with errors='coerce'): a decimal
      number with an optional sign and an optional fractional part; any other text is missing. */
  function ToNumeric(s: string): (r: Option<real>)
    ensures r.Some? ==> |s| > 0 && exists i :: 0 <= i < |s| && IsDigit(s[i])
  {
    if |s| > 0 && (s[0] == '-' || s[0] == '+') then
      match UnsignedDecimal(s[1..])
      case Some(v) => Some(if s[0] == '-' then -v else v)
      case None => None
    else UnsignedDecimal(s)
  }

  function UnsignedDecimal(s: string): (r: Option<real>)
    ensures r.Some? ==> exists i :: 0 <= i < |s| && IsDigit(s[i])
    ensures r.Some? ==> r.value >= 0.0
  {
    var dot := FirstIndexOf(s, '.');
    var whole := s[..dot];
    var frac := if dot < |s| then s[dot + 1..] else [];
    if AllDigits(whole) && AllDigits(frac) && |whole| + |frac| > 0 then
      assert |whole| > 0 ==> IsDigit(s[0]);
      assert |whole| == 0 ==> IsDigit(s[dot + 1]);
      Some(DecimalValue(whole, frac))
    else None
  }

  /** The number whole digits w and fraction digits f denote: w + f / 10^|f|. */
  function DecimalValue(w: string, f: string): (v: real)
    requires AllDigits(w) && AllDigits(f)
    ensures v >= 0.0
    ensures f == [] ==> v == ValueOf(w) as real
  {
    ValueOf(w) as real + ValueOf(f) as real / Pow10(|f|) as real
  }

  /** Index of the first c in s, or |s| when there is none. */
  function FirstIndexOf(s: string, c: char): (i: nat)
    ensures i <= |s| && (i < |s| ==> s[i] == c)
    ensures forall j :: 0 <= j < i ==> s[j] != c
  {
    if s == [] then 0 else if s[0] == c then 0 else 1 + FirstIndexOf(s[1..], c)
  }

  /** The first c after a stretch free of c is found where that stretch ends. */
  lemma {:induction false} FirstIndexAfter(w: string, c: char, rest: string)
    requires forall j :: 0 <= j < |w| ==> w[j] != c
    ensures FirstIndexOf(w + rest, c) == |w| + FirstIndexOf(rest, c)
  {
    if w == [] {
      assert w + rest == rest;
    } else {
      assert (w + rest)[1..] == w[1..] + rest;
      FirstIndexAfter(w[1..], c, rest);
    }
  }

  lemma ToNumericOfDecimalString(n: nat)
    ensures ToNumeric(DecimalString(n)) == Some(n as real)
  {
    var s := DecimalString(n);
    assert FirstIndexOf(s, '.') == |s| by {
      if FirstIndexOf(s, '.') < |s| { assert false; }
    }
    assert s[..|s|] == s;
  }

  /** The value an optional sign gives a coerced number. */
  function Signed(sign: string, v: real): real
  {
    if sign == "-" then -v else v
  }

  /** A signed decimal coerces to its value: the whole digits, plus the fraction digits read
      as tenths, hundredths and so on, negated after a minus sign. With a point either digit
      run may be empty, though not both; without one the whole digits stand alone. */
  lemma {:induction false} ToNumericOfDecimal(sign: string, w: string, f: string)
    requires sign == "" || sign == "-" || sign == "+"
    requires AllDigits(w) && AllDigits(f) && |w| + |f| > 0
    ensures ToNumeric(sign + w + "." + f) == Some(Signed(sign, DecimalValue(w, f)))
    ensures |w| > 0 ==> ToNumeric(sign + w) == Some(Signed(sign, ValueOf(w) as real))
  {
    var t := w + "." + f;
    assert sign + w + "." + f == sign + t;
    UnsignedOfPointed(w, f);
    assert t[0] == '.' || IsDigit(t[0]);
    SignedNumeric(sign, t);
    assert ToNumeric(sign + t) == Some(Signed(sign, DecimalValue(w, f)));
    if |w| > 0 {
      UnsignedOfWhole(w);
      SignedNumeric(sign, w);
    }
  }

  lemma UnsignedOfPointed(w: string, f: string)
    requires AllDigits(w) && AllDigits(f) && |w| + |f| > 0
    ensures UnsignedDecimal(w + "." + f) == Some(DecimalValue(w, f))
  {
    var t := w + "." + f;
    FirstIndexAfter(w, '.', "." + f);
    assert t == w + ("." + f);
    assert t[..|w|] == w && t[|w| + 1..] == f;
  }

  lemma UnsignedOfWhole(w: string)
    requires AllDigits(w) && |w| > 0
    ensures UnsignedDecimal(w) == Some(ValueOf(w) as real)
  {
    FirstIndexAfter(w, '.', "");
    assert w + "" == w && w[..|w|] == w;
  }

  /** A sign in front of a text that starts with a digit or a point applies to its value. */
  lemma SignedNumeric(sign: string, t: string)
    requires sign == "" || sign == "-" || sign == "+"
    requires |t| > 0 && (t[0] == '.' || IsDigit(t[0]))
    ensures ToNumeric(sign + t) == match UnsignedDecimal(t) case Some(v) => Some(Signed(sign, v)) case None => None
  {
    if sign != "" {
      assert (sign + t)[1..] == t;
    } else {
      assert sign + t == t;
    }
  }

  /** re.search('\d{4}\d{2}\d{2}', s).group(): the leftmost run of eight ASCII digits, or
      None where the search finds nothing (and .group() would raise). */
  function FirstEightDigitRun(s: string): (r: Option<string>)
    ensures r.Some? ==> |r.value| == 8 && AllDigits(r.value)
    decreases |s|
  {
    if |s| < 8 then None
    else if AllDigits(s[..8]) then Some(s[..8])
    else FirstEightDigitRun(s[1..])
  }

  predicate NoDigits(s: string) { forall i :: 0 <= i < |s| ==> !IsDigit(s[i]) }

  /** After a digit-free prefix, the search lands on the first eight digits that follow it. */
  lemma {:induction false} FirstEightDigitRunAfter(prefix: string, token: string, rest: string)
    requires NoDigits(prefix) && |token| == 8 && AllDigits(token)
    ensures FirstEightDigitRun(prefix + token + rest) == Some(token)
  {
    var s := prefix + token + rest;
    if prefix == [] {
      assert s[..8] == token;
    } else {
      assert !AllDigits(s[..8]) by { assert s[0] == prefix[0]; }
      assert s[1..] == prefix[1..] + token + rest;
      FirstEightDigitRunAfter(prefix[1..], token, rest);
    }
  }
}
