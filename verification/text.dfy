/** Character-level string operations the scraper relies on: the
    whitespace trimming of Python's `int()` and `float()`, `str.replace(c, "")`,
    and decimal digit strings. */
module Text {

  /** The ASCII characters CPython's `int()` and `float()` skip around a
      literal (`Py_ISSPACE`): tab, line feed, vertical tab, form feed,
      carriage return and space. The information separators 0x1C-0x1F, which
      `str.isspace` accepts, are not among them. */
  predicate IsSpace(c: char) {
    var n := c as int;
    (9 <= n <= 13) || n == 32
  }

  /** Drops the leading whitespace of `s`. */
  function StripLeft(s: string): (r: string)
    ensures |r| <= |s| && r == s[|s| - |r|..]
    ensures multiset(r) <= multiset(s)
    ensures forall k | 0 <= k < |s| - |r| :: IsSpace(s[k])
    ensures r == [] || !IsSpace(r[0])
  {
    if |s| > 0 && IsSpace(s[0]) then
      assert s == [s[0]] + s[1..];
      StripLeft(s[1..])
    else s
  }

  /** Drops the trailing whitespace of `s`. */
  function StripRight(s: string): (r: string)
    ensures |r| <= |s| && r == s[..|r|]
    ensures multiset(r) <= multiset(s)
    ensures forall k | |r| <= k < |s| :: IsSpace(s[k])
    ensures r == [] || !IsSpace(r[|r| - 1])
  {
    if |s| > 0 && IsSpace(s[|s| - 1]) then
      assert s == s[..|s| - 1] + [s[|s| - 1]];
      StripRight(s[..|s| - 1])
    else s
  }

  /** `s[i..j]` is what is left of `s` once leading and trailing whitespace
      is dropped: everything before `i` and from `j` on is whitespace. */
  predicate Trims(s: string, i: int, j: int) {
    && 0 <= i <= j <= |s|
    && (forall k | 0 <= k < i :: IsSpace(s[k]))
    && (forall k | j <= k < |s| :: IsSpace(s[k]))
  }

  /** The whitespace trimming `int()` and `float()` do before reading a
      literal: the longest infix of `s` that neither starts nor ends with
      whitespace. */
  function Strip(s: string): (r: string)
    ensures |r| <= |s| && multiset(r) <= multiset(s)
    ensures r == [] || (!IsSpace(r[0]) && !IsSpace(r[|r| - 1]))
    ensures exists i, j | Trims(s, i, j) :: r == s[i..j]
  {
    var left := StripLeft(s);
    var r := StripRight(left);
    TrimsBoth(s, left, r);
    assert Trims(s, |s| - |left|, |s| - |left| + |r|);
    r
  }

  /** Stripping the left, then the right, leaves an infix between two runs
      of whitespace. */
  lemma TrimsBoth(s: string, left: string, r: string)
    requires |left| <= |s| && left == s[|s| - |left|..]
    requires forall k | 0 <= k < |s| - |left| :: IsSpace(s[k])
    requires |r| <= |left| && r == left[..|r|]
    requires forall k | |r| <= k < |left| :: IsSpace(left[k])
    ensures Trims(s, |s| - |left|, |s| - |left| + |r|)
    ensures r == s[|s| - |left|..|s| - |left| + |r|]
  {
    var i := |s| - |left|;
    forall k | i + |r| <= k < |s| ensures IsSpace(s[k]) {
      assert s[k] == left[k - i];
    }
  }

  /** A string that neither starts nor ends with whitespace is its own strip. */
  lemma StripUnchanged(s: string)
    requires s == [] || (!IsSpace(s[0]) && !IsSpace(s[|s| - 1]))
    ensures Strip(s) == s
  {
  }

  /** Python's `s.replace(c, "")` for a one-character `c`: no `c` is left. */
  function RemoveAll(s: string, c: char): (r: string)
    ensures c !in r
    ensures |r| <= |s|
  {
    if |s| == 0 then []
    else (if s[0] == c then [] else [s[0]]) + RemoveAll(s[1..], c)
  }

  /** Only `c` is removed: every other character keeps its multiplicity,
      and exactly the occurrences of `c` are missing from the length. */
  lemma {:induction false} RemoveAllKeepsOthers(s: string, c: char)
    ensures forall d | d != c :: multiset(RemoveAll(s, c))[d] == multiset(s)[d]
    ensures |RemoveAll(s, c)| == |s| - multiset(s)[c]
    decreases |s|
  {
    if |s| > 0 {
      assert s == [s[0]] + s[1..];
      RemoveAllKeepsOthers(s[1..], c);
    }
  }

  /** Removal works character by character, so it keeps the order of what is
      left: removing from a concatenation removes from each part. */
  lemma {:induction false} RemoveAllAppend(a: string, b: string, c: char)
    ensures RemoveAll(a + b, c) == RemoveAll(a, c) + RemoveAll(b, c)
    decreases |a|
  {
    if |a| == 0 {
      assert a + b == b;
    } else {
      assert (a + b)[1..] == a[1..] + b;
      RemoveAllAppend(a[1..], b, c);
    }
  }

  /** Removing a character that does not occur changes nothing. */
  lemma {:induction false} RemoveAllAbsent(s: string, c: char)
    requires c !in s
    ensures RemoveAll(s, c) == s
    decreases |s|
  {
    if |s| > 0 {
      assert s[0] != c;
      assert c !in s[1..];
      RemoveAllAbsent(s[1..], c);
      assert s == [s[0]] + s[1..];
    }
  }

  /** Two removals commute: the order of two `replace` calls is irrelevant. */
  lemma {:induction false} RemoveAllCommutes(s: string, c: char, d: char)
    ensures RemoveAll(RemoveAll(s, c), d) == RemoveAll(RemoveAll(s, d), c)
    decreases |s|
  {
    if |s| > 0 {
      var h := [s[0]];
      assert s == h + s[1..];
      RemoveAllAppend(h, s[1..], c);
      RemoveAllAppend(h, s[1..], d);
      RemoveAllAppend(RemoveAll(h, c), RemoveAll(s[1..], c), d);
      RemoveAllAppend(RemoveAll(h, d), RemoveAll(s[1..], d), c);
      RemoveAllCommutes(s[1..], c, d);
    }
  }

  predicate IsDigit(c: char) {
    '0' <= c <= '9'
  }

  predicate AllDigits(s: string) {
    forall i | 0 <= i < |s| :: IsDigit(s[i])
  }

  function DigitValue(c: char): (v: nat)
    requires IsDigit(c)
    ensures v < 10
  {
    c as int - '0' as int
  }

  function DigitChar(v: nat): (c: char)
    requires v < 10
    ensures IsDigit(c) && DigitValue(c) == v
  {
    ('0' as int + v) as char
  }

  /** The number a string of decimal digits denotes, most significant first;
      leading zeros are allowed, as Python's `int()` and `float()` allow them. */
  function DigitsValue(s: string): nat
    requires AllDigits(s)
  {
    if |s| == 0 then 0 else DigitsValue(s[..|s| - 1]) * 10 + DigitValue(s[|s| - 1])
  }

  /** The canonical decimal spelling of `n`, as Python's `str(n)` writes it. */
  function NatToDigits(n: nat): (r: string)
    ensures |r| >= 1 && AllDigits(r)
    ensures DigitsValue(r) == n
    ensures |r| > 1 ==> r[0] != '0'
  {
    if n < 10 then [DigitChar(n)]
    else
      var r := NatToDigits(n / 10) + [DigitChar(n % 10)];
      assert r[..|r| - 1] == NatToDigits(n / 10);
      r
  }

  function Pow10(k: nat): (r: nat)
    ensures r >= 1
  {
    if k == 0 then 1 else 10 * Pow10(k - 1)
  }

  lemma Regroup(a: int, p: int, b: int, x: int)
    ensures (a * p + b) * 10 + x == a * (p * 10) + (b * 10 + x)
  {
  }

  /** Reading two digit strings side by side: the left part's value is
      shifted by one decimal place per digit of the right part. */
  lemma {:induction false} DigitsValueAppend(a: string, b: string)
    requires AllDigits(a) && AllDigits(b)
    ensures AllDigits(a + b)
    ensures DigitsValue(a + b) == DigitsValue(a) * Pow10(|b|) + DigitsValue(b)
    decreases |b|
  {
    assert AllDigits(a + b) by {
      forall i | 0 <= i < |a + b| ensures IsDigit((a + b)[i]) {
        if i >= |a| { assert (a + b)[i] == b[i - |a|]; }
      }
    }
    if |b| == 0 {
      assert a + b == a;
    } else {
      var b' := b[..|b| - 1];
      var x := DigitValue(b[|b| - 1]);
      assert (a + b)[..|a + b| - 1] == a + b';
      DigitsValueAppend(a, b');
      var A, P, B := DigitsValue(a), Pow10(|b'|), DigitsValue(b');
      assert DigitsValue(a + b) == (A * P + B) * 10 + x;
      assert Pow10(|b|) == P * 10;
      Regroup(A, P, B, x);
    }
  }
}
