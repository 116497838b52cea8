/** Text helpers shared by the parsers: C's atoi, decimal rendering
    (printf "%u"), and substring search (strstr/memmem, memrchr, Python's
    `in`, `startswith` and `rindex`). */
module Text {
  import opened Common

  predicate IsDigit(c: char) { '0' <= c <= '9' }

  /** isspace() in the C locale: space, \t, \n, \v, \f, \r. */
  predicate IsSpace(c: char) { c == ' ' || 9 <= c as int <= 13 }

  predicate AllDigits(s: string) { forall k :: 0 <= k < |s| ==> IsDigit(s[k]) }

  function DigitValue(c: char): nat
    requires IsDigit(c)
  {
    (c as int) - ('0' as int)
  }

  function Pow10(k: nat): (r: nat)
    ensures r >= 1
  {
    if k == 0 then 1 else 10 * Pow10(k - 1)
  }

  /** The value of a string of decimal digits, most significant first. */
  function DigitsValue(s: string): nat
    requires AllDigits(s)
  {
    if s == [] then 0 else 10 * DigitsValue(s[..|s| - 1]) + DigitValue(s[|s| - 1])
  }

  lemma {:induction false} DigitsValueBound(s: string)
    requires AllDigits(s)
    ensures DigitsValue(s) < Pow10(|s|)
  {
    if s != [] {
      DigitsValueBound(s[..|s| - 1]);
    }
  }

  lemma {:induction false} DigitsValueConcat(a: string, b: string)
    requires AllDigits(a) && AllDigits(b)
    ensures AllDigits(a + b)
    ensures DigitsValue(a + b) == DigitsValue(a) * Pow10(|b|) + DigitsValue(b)
  {
    var ab := a + b;
    assert AllDigits(ab) by {
      forall k | 0 <= k < |ab| ensures IsDigit(ab[k]) {
        if k < |a| { assert ab[k] == a[k]; } else { assert ab[k] == b[k - |a|]; }
      }
    }
    if b == [] {
      assert ab == a;
    } else {
      var b' := b[..|b| - 1];
      assert ab[..|ab| - 1] == a + b';
      assert ab[|ab| - 1] == b[|b| - 1];
      DigitsValueConcat(a, b');
      assert DigitsValue(b) == 10 * DigitsValue(b') + DigitValue(b[|b| - 1]);
      ShiftDigit(DigitsValue(a), Pow10(|b'|), DigitsValue(b'), DigitValue(b[|b| - 1]));
    }
  }

  lemma ShiftDigit(x: nat, p: nat, y: nat, d: nat)
    ensures 10 * (x * p + y) + d == x * (10 * p) + (10 * y + d)
  {
  }

  /** Length of the run of decimal digits at the start of s. */
  function DigitRun(s: string): (r: nat)
    ensures r <= |s|
    ensures AllDigits(s[..r])
    ensures r < |s| ==> !IsDigit(s[r])
  {
    if s == [] || !IsDigit(s[0]) then 0
    else
      var r := 1 + DigitRun(s[1..]);
      assert s[..r] == [s[0]] + s[1..][..r - 1];
      r
  }

  /** Length of the run of white space at the start of s. */
  function SpaceRun(s: string): (r: nat)
    ensures r <= |s|
    ensures forall k :: 0 <= k < r ==> IsSpace(s[k])
    ensures r < |s| ==> !IsSpace(s[r])
  {
    if s == [] || !IsSpace(s[0]) then 0 else 1 + SpaceRun(s[1..])
  }

  /** C's atoi: skip white space, an optional sign, then the longest run of
      digits; no digits gives 0. */
  function Atoi(s: string): int
  {
    var t := s[SpaceRun(s)..];
    var neg := |t| > 0 && t[0] == '-';
    var u := if |t| > 0 && (t[0] == '-' || t[0] == '+') then t[1..] else t;
    var v: int := DigitsValue(u[..DigitRun(u)]);
    if neg then -v else v
  }

  /** atoi of a string of digits (possibly followed by a non-digit) is its value. */
  lemma AtoiDigits(d: string, rest: string)
    requires d != [] && AllDigits(d)
    requires rest == [] || !IsDigit(rest[0])
    ensures Atoi(d + rest) == DigitsValue(d)
  {
    var s := d + rest;
    assert s[0] == d[0];
    assert SpaceRun(s) == 0;
    assert s[SpaceRun(s)..] == s;
    DigitRunOf(d, rest);
    assert s[..|d|] == d;
  }

  lemma {:induction false} DigitRunOf(d: string, rest: string)
    requires AllDigits(d)
    requires rest == [] || !IsDigit(rest[0])
    ensures DigitRun(d + rest) == |d|
  {
    if d != [] {
      assert (d + rest)[1..] == d[1..] + rest;
      DigitRunOf(d[1..], rest);
    } else {
      assert d + rest == rest;
    }
  }

  /** Decimal rendering of a natural number, as printf's "%u" gives it. */
  function Decimal(n: nat): (s: string)
    ensures s != [] && AllDigits(s)
    ensures DigitsValue(s) == n
    ensures |s| > 1 ==> s[0] != '0'
  {
    if n < 10 then [('0' as int + n) as char]
    else
      var p := Decimal(n / 10);
      var s := p + [('0' as int + n % 10) as char];
      assert s[..|s| - 1] == p;
      s
  }

  predicate StartsWith(s: string, p: string) { |p| <= |s| && s[..|p|] == p }

  /** k occurs in s at position i. */
  predicate IsAt(s: string, k: string, i: int)
  {
    0 <= i && i + |k| <= |s| && s[i..i + |k|] == k
  }

  predicate Contains(s: string, k: string) { exists i :: 0 <= i <= |s| && IsAt(s, k, i) }

  function FindFrom(s: string, k: string, from: nat): (r: Option<nat>)
    requires from <= |s| + 1
    decreases |s| + 1 - from
    ensures r.Some? ==> from <= r.value && IsAt(s, k, r.value)
    ensures r.Some? ==> forall j :: from <= j < r.value ==> !IsAt(s, k, j)
    ensures r.None? ==> forall j :: from <= j ==> !IsAt(s, k, j)
  {
    if from + |k| > |s| then None
    else if s[from..from + |k|] == k then Some(from)
    else FindFrom(s, k, from + 1)
  }

  /** First occurrence of k in s (memmem, memchr, strchr). */
  function Find(s: string, k: string): (r: Option<nat>)
    ensures r.Some? <==> Contains(s, k)
    ensures r.Some? ==> IsAt(s, k, r.value) && forall j :: 0 <= j < r.value ==> !IsAt(s, k, j)
  {
    FindFrom(s, k, 0)
  }

  function RFindBelow(s: string, k: string, below: nat): (r: Option<nat>)
    ensures r.Some? ==> r.value < below && IsAt(s, k, r.value)
    ensures r.Some? ==> forall j :: r.value < j < below ==> !IsAt(s, k, j)
    ensures r.None? ==> forall j :: 0 <= j < below ==> !IsAt(s, k, j)
  {
    if below == 0 then None
    else if IsAt(s, k, below - 1) then Some(below - 1)
    else RFindBelow(s, k, below - 1)
  }

  /** Last occurrence of k in s (memrchr, Python's rindex). */
  function RFind(s: string, k: string): (r: Option<nat>)
    ensures r.Some? <==> Contains(s, k)
    ensures r.Some? ==> IsAt(s, k, r.value) && forall j :: r.value < j ==> !IsAt(s, k, j)
  {
    RFindBelow(s, k, |s| + 1)
  }

  /** atoi reads back what %u prints. */
  lemma AtoiDecimal(n: nat)
    ensures Atoi(Decimal(n)) == n
  {
    AtoiDigits(Decimal(n), []);
    assert Decimal(n) + [] == Decimal(n);
  }
}
