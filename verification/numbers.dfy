/** Python's `int(text)` and `float(text)` on a string, modelled as partial
    parsers: `None` stands for the `ValueError` Python raises. The value of a
    float literal is kept exact, as a `Decimal`. */
module Numbers {
  import opened Wrappers
  import opened Text

  /** Index of the first character of `s` that is one of `marks`, or `|s|`
      if there is none. */
  function FindFirst(s: string, marks: set<char>): (i: nat)
    ensures i <= |s|
    ensures forall k | 0 <= k < i :: s[k] !in marks
    ensures i < |s| ==> s[i] in marks
  {
    if |s| == 0 then 0 else if s[0] in marks then 0 else 1 + FindFirst(s[1..], marks)
  }

  const Point: set<char> := {'.'}
  const ExponentMark: set<char> := {'e', 'E'}

  predicate HasDigit(s: string) {
    exists i | 0 <= i < |s| :: IsDigit(s[i])
  }

  /** Characters of a sub-multiset of `s` come from `s`, digits included. */
  lemma HasDigitFrom(t: string, s: string)
    requires multiset(t) <= multiset(s)
    requires HasDigit(t)
    ensures HasDigit(s)
  {
    var i :| 0 <= i < |t| && IsDigit(t[i]);
    assert t[i] in multiset(t);
    assert t[i] in s;
    var j :| 0 <= j < |s| && s[j] == t[i];
  }

  /** Splits one optional leading `+` or `-` off `t`. */
  function SplitSign(t: string): (r: (bool, string))
    ensures r.1 == t || (|t| >= 1 && r.1 == t[1..] && (t[0] == '+' || t[0] == '-'))
    ensures r.0 <==> |t| >= 1 && t[0] == '-'
    ensures multiset(r.1) <= multiset(t)
  {
    if |t| >= 1 && (t[0] == '+' || t[0] == '-') then
      assert t == [t[0]] + t[1..];
      (t[0] == '-', t[1..])
    else (false, t)
  }

  function Negate(negative: bool, n: int): int {
    if negative then -n else n
  }

  /** CPython's default `sys.int_max_str_digits`: `int()` of a decimal text
      with more digits than this raises `ValueError`, and so does `str()` of
      an integer that needs more. */
  const MaxStrDigits := 4300

  /** Python's `int(text)` in base 10: surrounding whitespace is ignored, one
      optional sign, then at least one and at most `MaxStrDigits` decimal
      digits and nothing else. */
  function ParseInt(s: string): (r: Option<int>)
    ensures !HasDigit(s) ==> r.None?
    ensures r.Some? && r.value < 0 ==> '-' in s
  {
    var (negative, body) := SplitSign(Strip(s));
    if 1 <= |body| <= MaxStrDigits && AllDigits(body) then
      assert HasDigit(body) by { assert IsDigit(body[0]); }
      HasDigitFrom(body, s);
      assert negative ==> '-' in multiset(Strip(s));
      Some(Negate(negative, DigitsValue(body)))
    else None
  }

  /** An exact decimal number: `mantissa` times ten to the power `exponent`.
      It keeps the digits a float literal spells, so "10.00" is
      `Decimal(1000, -2)` while "10" is `Decimal(10, 0)`: two spellings of
      one number are different `Decimal`s with the same `Value`. */
  datatype Decimal = Decimal(mantissa: int, exponent: int)

  /** Ten to the power `e`, for an exponent of either sign. */
  function Scale(e: int): (r: real)
    ensures r > 0.0
  {
    if e >= 0 then Pow10(e) as real else 1.0 / (Pow10(-e) as real)
  }

  /** The number a `Decimal` stands for. */
  function Value(d: Decimal): real {
    d.mantissa as real * Scale(d.exponent)
  }

  /** One more power of ten. */
  lemma ScaleStep(e: int)
    ensures Scale(e) == 10.0 * Scale(e - 1)
  {
    if e <= 0 {
      var p := Pow10(-e) as real;
      assert Pow10(1 - e) as real == 10.0 * p;
      assert Scale(e - 1) == 1.0 / (10.0 * p);
    }
  }

  /** A trailing zero in the mantissa, balanced by one more place in the
      exponent, spells the same number: "10.0" and "10.00" are one value. */
  lemma TrailingZeroSameValue(m: int, e: int)
    ensures Value(Decimal(m * 10, e - 1)) == Value(Decimal(m, e))
  {
    ScaleStep(e);
  }

  /** The digits-and-point part of a float literal: digits, optionally a point
      and more digits, with at least one digit on either side of the point.
      The value is all the digits read as one integer, shifted right by the
      number of fractional digits. */
  function ParseMantissa(m: string): (r: Option<Decimal>)
    ensures r.Some? ==> HasDigit(m) && r.value.mantissa >= 0
  {
    var dot := FindFirst(m, Point);
    var ip := m[..dot];
    var fp := if dot < |m| then m[dot + 1..] else [];
    if AllDigits(ip) && AllDigits(fp) && |ip| + |fp| >= 1 then
      assert HasDigit(m) by {
        if |ip| >= 1 { assert IsDigit(m[0]); } else { assert IsDigit(m[dot + 1]); }
      }
      Some(Decimal(DigitsValue(ip + fp), -|fp|))
    else None
  }

  /** The exponent after `e` or `E`: an optional sign and at least one digit. */
  function ParseExponent(x: string): Option<int> {
    var (negative, digits) := SplitSign(x);
    if |digits| >= 1 && AllDigits(digits) then Some(Negate(negative, DigitsValue(digits))) else None
  }

  /** An unsigned float literal: a mantissa and an optional exponent part. */
  function ParseUnsignedFloat(u: string): (r: Option<Decimal>)
    ensures r.Some? ==> HasDigit(u) && r.value.mantissa >= 0
  {
    var e := FindFirst(u, ExponentMark);
    if e == |u| then ParseMantissa(u)
    else
      var m :- ParseMantissa(u[..e]);
      var x :- ParseExponent(u[e + 1..]);
      assert HasDigit(u) by {
        var i :| 0 <= i < |u[..e]| && IsDigit(u[..e][i]);
        assert IsDigit(u[i]);
      }
      Some(Decimal(m.mantissa, m.exponent + x))
  }

  /** Python's `float(text)` on decimal literals: surrounding whitespace is
      ignored, one optional sign, a mantissa, an optional exponent. */
  function ParseFloat(s: string): (r: Option<Decimal>)
    ensures !HasDigit(s) ==> r.None?
    ensures r.Some? && r.value.mantissa < 0 ==> '-' in s
  {
    var (negative, body) := SplitSign(Strip(s));
    match ParseUnsignedFloat(body)
    case None => None
    case Some(d) =>
      HasDigitFrom(body, s);
      assert negative ==> '-' in multiset(Strip(s));
      Some(Decimal(Negate(negative, d.mantissa), d.exponent))
  }

  /** The number of decimal digits of `|n|`. */
  function DigitCount(n: int): nat {
    |NatToDigits(if n < 0 then -n else n)|
  }

  /** How Python's `str` writes an integer; it raises `ValueError` beyond
      `MaxStrDigits` digits. */
  function IntToString(n: int): string
    requires DigitCount(n) <= MaxStrDigits
  {
    if n < 0 then "-" + NatToDigits(-n) else NatToDigits(n)
  }

  /** `int()` reads back every integer that `str()` writes. */
  lemma {:induction false} ParseIntRoundTrip(n: int)
    requires DigitCount(n) <= MaxStrDigits
    ensures ParseInt(IntToString(n)) == Some(n)
  {
    var s := IntToString(n);
    var d := NatToDigits(if n < 0 then -n else n);
    assert IsDigit(d[0]) && IsDigit(d[|d| - 1]);
    if n < 0 {
      assert s == "-" + d;
      assert s[|s| - 1] == d[|d| - 1];
      assert s[1..] == d;
    } else {
      assert s == d;
    }
    StripUnchanged(s);
    var sp := SplitSign(s);
    assert sp.0 == (n < 0) && sp.1 == d;
    assert 1 <= |sp.1| <= MaxStrDigits && AllDigits(sp.1);
    assert Negate(sp.0, DigitsValue(sp.1)) == n;
  }

  /** No exponent mark and no point: the whole literal is an integer mantissa. */
  lemma {:induction false} ParseUnsignedFloatOfDigits(u: string)
    requires |u| >= 1 && AllDigits(u)
    ensures ParseUnsignedFloat(u) == Some(Decimal(DigitsValue(u), 0))
  {
    var dot := FindFirst(u, Point);
    assert u[..dot] == u;
    assert u + [] == u;
  }

  /** `float()` accepts every text `int()` accepts, with the same value. */
  lemma {:induction false} ParseFloatExtendsParseInt(s: string, n: int)
    requires ParseInt(s) == Some(n)
    ensures ParseFloat(s) == Some(Decimal(n, 0))
  {
    var sp := SplitSign(Strip(s));
    assert |sp.1| >= 1 && AllDigits(sp.1);
    assert n == Negate(sp.0, DigitsValue(sp.1));
    ParseUnsignedFloatOfDigits(sp.1);
    assert ParseUnsignedFloat(sp.1) == Some(Decimal(DigitsValue(sp.1), 0));
  }

  /** The digits-and-point part `ip.fp` reads as the digits of `ip` and
      `fp` together, scaled down by the number of fractional digits. */
  lemma ParseMantissaFixedPoint(ip: string, fp: string)
    requires AllDigits(ip) && AllDigits(fp) && |ip| + |fp| >= 1
    ensures ParseMantissa(ip + "." + fp) == Some(Decimal(DigitsValue(ip + fp), -|fp|))
  {
    var m := ip + "." + fp;
    forall k | 0 <= k < |ip| ensures m[k] !in Point { assert m[k] == ip[k]; }
    assert m[|ip|] in Point;
    var dot := FindFirst(m, Point);
    assert dot == |ip|;
    assert m[..dot] == ip;
    assert m[dot + 1..] == fp;
  }

  /** Every character of `ip.fp` is a digit or the point. */
  lemma FixedPointChars(ip: string, fp: string)
    requires AllDigits(ip) && AllDigits(fp)
    ensures forall k | 0 <= k < |ip + "." + fp| :: IsDigit((ip + "." + fp)[k]) || (ip + "." + fp)[k] == '.'
  {
    var s := ip + "." + fp;
    forall k | 0 <= k < |s| ensures IsDigit(s[k]) || s[k] == '.' {
      if k < |ip| { assert s[k] == ip[k]; } else if k > |ip| { assert s[k] == fp[k - |ip| - 1]; }
    }
  }

  /** A fixed-point literal `ip.fp` with a digit on at least one side of the
      point is read by `float()` as its mantissa: no sign, no exponent, no
      whitespace. */
  lemma ParseFloatFixedPoint(ip: string, fp: string)
    requires AllDigits(ip) && AllDigits(fp) && |ip| + |fp| >= 1
    ensures ParseFloat(ip + "." + fp) == Some(Decimal(DigitsValue(ip + fp), -|fp|))
  {
    var s := ip + "." + fp;
    FixedPointChars(ip, fp);
    StripUnchanged(s);
    assert SplitSign(s) == (false, s);
    assert FindFirst(s, ExponentMark) == |s|;
    ParseMantissaFixedPoint(ip, fp);
    assert ParseUnsignedFloat(s) == ParseMantissa(s);
  }

  /** `int()` rejects a digit string exactly when it is longer than
      `MaxStrDigits`. */
  lemma ParseIntDigitLimit(d: string)
    requires |d| >= 1 && AllDigits(d)
    ensures ParseInt(d).Some? <==> |d| <= MaxStrDigits
  {
  }

  /** The characters `int()` can accept: digits, whitespace and signs. */
  predicate IntChar(c: char) {
    IsDigit(c) || IsSpace(c) || c == '+' || c == '-'
  }

  /** The characters `float()` can accept in a decimal literal: those of
      `int()`, the point and the exponent marks. */
  predicate FloatChar(c: char) {
    IntChar(c) || c == '.' || c == 'e' || c == 'E'
  }

  /** Whatever `int()` accepts is spelled with digits, whitespace and signs
      only. */
  lemma ParseIntOnlyIntChars(s: string)
    ensures ParseInt(s).Some? ==> forall j | 0 <= j < |s| :: IntChar(s[j])
  {
    if ParseInt(s).Some? {
      var t := Strip(s);
      var sp := SplitSign(t);
      assert |sp.1| >= 1 && AllDigits(sp.1);
      SignedDigitsChars(t, sp.1);
      StripKeepsIntChars(s);
    }
  }

  /** Whitespace around `int()` characters keeps them `int()` characters. */
  lemma StripKeepsIntChars(s: string)
    requires forall k | 0 <= k < |Strip(s)| :: IntChar(Strip(s)[k])
    ensures forall j | 0 <= j < |s| :: IntChar(s[j])
  {
    var t := Strip(s);
    var a, b :| Trims(s, a, b) && t == s[a..b];
    forall j | 0 <= j < |s| ensures IntChar(s[j]) {
      if a <= j < b {
        assert s[j] == t[j - a];
      }
    }
  }

  /** A sign followed by digits, or digits alone, is spelled with `int()`
      characters. */
  lemma SignedDigitsChars(t: string, body: string)
    requires body == t || (|t| >= 1 && body == t[1..] && (t[0] == '+' || t[0] == '-'))
    requires AllDigits(body)
    ensures forall k | 0 <= k < |t| :: IntChar(t[k])
  {
    forall k | 0 <= k < |t| ensures IntChar(t[k]) {
      if body == t {
        assert IsDigit(body[k]);
      } else if k > 0 {
        assert t[k] == body[k - 1];
        assert IsDigit(body[k - 1]);
      }
    }
  }

  /** `int()` raises on a text holding any character other than a digit,
      whitespace or a sign, such as "4x" or "4.0". */
  lemma ParseIntRejectsJunk(s: string, j: int)
    requires 0 <= j < |s| && !IntChar(s[j])
    ensures ParseInt(s).None?
  {
    ParseIntOnlyIntChars(s);
  }

  /** A mantissa `float()` accepts is spelled with digits and the point. */
  lemma ParseMantissaChars(m: string)
    ensures ParseMantissa(m).Some? ==> forall k | 0 <= k < |m| :: FloatChar(m[k])
  {
    if ParseMantissa(m).Some? {
      var dot := FindFirst(m, Point);
      var ip := m[..dot];
      var fp := if dot < |m| then m[dot + 1..] else [];
      assert AllDigits(ip) && AllDigits(fp);
      forall k | 0 <= k < |m| ensures FloatChar(m[k]) {
        if k < dot {
          assert m[k] == ip[k];
        } else if k > dot {
          assert m[k] == fp[k - dot - 1];
        } else {
          assert m[k] in Point;
        }
      }
    }
  }

  /** An exponent `float()` accepts is spelled with a sign and digits. */
  lemma ParseExponentChars(x: string)
    ensures ParseExponent(x).Some? ==> forall k | 0 <= k < |x| :: FloatChar(x[k])
  {
    if ParseExponent(x).Some? {
      var sp := SplitSign(x);
      assert AllDigits(sp.1);
      forall k | 0 <= k < |x| ensures FloatChar(x[k]) {
        if sp.1 == x {
          assert IsDigit(sp.1[k]);
        } else if k > 0 {
          assert x[k] == sp.1[k - 1];
          assert IsDigit(sp.1[k - 1]);
        }
      }
    }
  }

  /** An unsigned literal `float()` accepts is spelled with float
      characters only. */
  lemma ParseUnsignedFloatChars(u: string)
    ensures ParseUnsignedFloat(u).Some? ==> forall k | 0 <= k < |u| :: FloatChar(u[k])
  {
    if ParseUnsignedFloat(u).Some? {
      var e := FindFirst(u, ExponentMark);
      if e == |u| {
        ParseMantissaChars(u);
      } else {
        var m, x := u[..e], u[e + 1..];
        assert ParseMantissa(m).Some? && ParseExponent(x).Some?;
        ParseMantissaChars(m);
        ParseExponentChars(x);
        forall k | 0 <= k < |u| ensures FloatChar(u[k]) {
          if k < e {
            assert u[k] == m[k];
          } else if k > e {
            assert u[k] == x[k - e - 1];
          } else {
            assert u[k] in ExponentMark;
          }
        }
      }
    }
  }

  /** Whatever `float()` accepts is spelled with float characters only. */
  lemma ParseFloatOnlyFloatChars(s: string)
    ensures ParseFloat(s).Some? ==> forall j | 0 <= j < |s| :: FloatChar(s[j])
  {
    if ParseFloat(s).Some? {
      var t := Strip(s);
      var sp := SplitSign(t);
      assert ParseUnsignedFloat(sp.1).Some?;
      ParseUnsignedFloatChars(sp.1);
      SignedFloatChars(t, sp.1);
      StripKeepsFloatChars(s);
    }
  }

  /** Whitespace around float characters keeps them float characters. */
  lemma StripKeepsFloatChars(s: string)
    requires forall k | 0 <= k < |Strip(s)| :: FloatChar(Strip(s)[k])
    ensures forall j | 0 <= j < |s| :: FloatChar(s[j])
  {
    var t := Strip(s);
    var a, b :| Trims(s, a, b) && t == s[a..b];
    forall j | 0 <= j < |s| ensures FloatChar(s[j]) {
      if a <= j < b {
        assert s[j] == t[j - a];
      }
    }
  }

  /** A sign in front of float characters keeps them float characters. */
  lemma SignedFloatChars(t: string, body: string)
    requires body == t || (|t| >= 1 && body == t[1..] && (t[0] == '+' || t[0] == '-'))
    requires forall k | 0 <= k < |body| :: FloatChar(body[k])
    ensures forall k | 0 <= k < |t| :: FloatChar(t[k])
  {
    forall k | 0 <= k < |t| ensures FloatChar(t[k]) {
      if body != t && k > 0 {
        assert t[k] == body[k - 1];
      }
    }
  }

  /** `float()` raises on a text holding any character other than a digit,
      whitespace, a sign, the point or an exponent mark, such as "12abc". */
  lemma ParseFloatRejectsJunk(s: string, j: int)
    requires 0 <= j < |s| && !FloatChar(s[j])
    ensures ParseFloat(s).None?
  {
    ParseFloatOnlyFloatChars(s);
  }
}
