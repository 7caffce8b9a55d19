/** Decimal text and numbers: the parts of JavaScript's `parseFloat`, `Number.prototype.toString`,
    `String.prototype.padStart` and `String.prototype.replace` that the tracker uses on amounts
    and dates. Amounts are exact `real`s; floating point is not modelled. */
module Numbers {
  import opened Optional
  import opened Text

  predicate IsDigit(c: char) {
    '0' <= c <= '9'
  }

  predicate AllDigits(s: string) {
    forall i :: 0 <= i < |s| ==> IsDigit(s[i])
  }

  function DigitValue(c: char): nat
    requires IsDigit(c)
  {
    c as int - '0' as int
  }

  function DigitChar(d: nat): (c: char)
    requires d < 10
    ensures IsDigit(c) && DigitValue(c) == d
  {
    ('0' as int + d) as char
  }

  /** The value of a run of decimal digits, most significant first (the empty run is 0). */
  function DigitsValue(s: string): nat
    requires AllDigits(s)
  {
    if s == [] then 0 else DigitsValue(s[..|s| - 1]) * 10 + DigitValue(s[|s| - 1])
  }

  /** `n.toString()` for a non-negative integer: its decimal digits without leading zeros. */
  function NatToString(n: nat): string
  {
    if n < 10 then [DigitChar(n)] else NatToString(n / 10) + [DigitChar(n % 10)]
  }

  /** `NatToString` writes digits only, at least one, whose value is `n`, and starts with `0`
      only for zero. */
  lemma {:induction false} NatToStringDigits(n: nat)
    ensures var r := NatToString(n);
            |r| >= 1 && AllDigits(r) && DigitsValue(r) == n && (r[0] == '0' ==> n == 0)
  {
    if n >= 10 {
      var p := NatToString(n / 10);
      var r := NatToString(n);
      NatToStringDigits(n / 10);
      assert r[..|r| - 1] == p;
      assert r[0] == p[0];
    }
  }

  /** `i.toString()` for any integer: a `-` before the digits of a negative number. */
  function IntToString(i: int): string
  {
    if i < 0 then "-" + NatToString(-i) else NatToString(i)
  }

  /** The number of decimal digits of `n`. */
  function NumDigits(n: nat): (k: nat)
    ensures k >= 1
  {
    if n < 10 then 1 else 1 + NumDigits(n / 10)
  }

  lemma {:induction false} NatToStringLength(n: nat)
    ensures |NatToString(n)| == NumDigits(n)
  {
    if n >= 10 {
      NatToStringLength(n / 10);
    }
  }

  /** A leading zero does not change the value of a digit run. */
  lemma {:induction false} DigitsValueLeadingZero(s: string)
    requires AllDigits(s)
    ensures AllDigits("0" + s) && DigitsValue("0" + s) == DigitsValue(s)
  {
    if s != [] {
      var t := "0" + s;
      assert t[..|t| - 1] == "0" + s[..|s| - 1];
      DigitsValueLeadingZero(s[..|s| - 1]);
    }
  }

  /** On digit runs of the same length, string order is numeric order. */
  lemma {:induction false} LexLessDigits(s: string, t: string)
    requires AllDigits(s) && AllDigits(t) && |s| == |t|
    ensures LexLess(s, t) <==> DigitsValue(s) < DigitsValue(t)
    decreases |s|
  {
    if s != [] {
      var s', t' := s[..|s| - 1], t[..|t| - 1];
      var c, d := s[|s| - 1], t[|t| - 1];
      assert s == s' + [c] && t == t' + [d];
      LexLessConcat(s', [c], t', [d]);
      LexLessDigits(s', t');
      if s' != t' {
        LexLessTotal(s', t');
        LexLessDigits(t', s');
      }
    }
  }

  /** `s.padStart(width, c)`. */
  function PadStart(s: string, width: nat, c: char): string
  {
    if |s| >= width then s else seq(width - |s|, _ => c) + s
  }

  /** `PadStart` fills up to `width` with `c` on the left and keeps `s` at the end. */
  lemma PadStartShape(s: string, width: nat, c: char)
    ensures var r := PadStart(s, width, c);
            |r| == (if |s| >= width then |s| else width)
            && r[|r| - |s|..] == s
            && forall i :: 0 <= i < |r| - |s| ==> r[i] == c
  {
  }

  /** Leading zeros do not change the value of a digit run. */
  lemma {:induction false} LeadingZeros(z: string, s: string)
    requires forall i :: 0 <= i < |z| ==> z[i] == '0'
    requires AllDigits(s)
    ensures AllDigits(z + s) && DigitsValue(z + s) == DigitsValue(s)
  {
    if z != [] {
      LeadingZeros(z[1..], s);
      assert z + s == "0" + (z[1..] + s);
      DigitsValueLeadingZero(z[1..] + s);
    } else {
      assert z + s == s;
    }
  }

  /** Zero padding on the left keeps a number's value. */
  lemma PaddedDigits(n: nat, width: nat)
    ensures AllDigits(PadStart(NatToString(n), width, '0'))
    ensures DigitsValue(PadStart(NatToString(n), width, '0')) == n
  {
    var s := NatToString(n);
    var r := PadStart(s, width, '0');
    NatToStringDigits(n);
    PadStartShape(s, width, '0');
    var z := r[..|r| - |s|];
    assert r == z + s;
    LeadingZeros(z, s);
  }

  /** The number of decimal digits `s` starts with. */
  function DigitRun(s: string): (n: nat)
    ensures n <= |s| && AllDigits(s[..n])
    ensures forall i :: 0 <= i < n ==> IsDigit(s[i])
    ensures n == |s| || !IsDigit(s[n])
  {
    if s != [] && IsDigit(s[0]) then
      var n := 1 + DigitRun(s[1..]);
      assert s[..n] == [s[0]] + s[1..][..n - 1];
      n
    else 0
  }

  lemma DigitRunOfDigitsThen(p: string, q: string)
    requires AllDigits(p)
    requires q == [] || !IsDigit(q[0])
    ensures DigitRun(p + q) == |p|
  {
    var s := p + q;
    assert forall i :: 0 <= i < |p| ==> s[i] == p[i];
    assert |p| == |s| || s[|p|] == q[0];
  }

  /** The number `n` times ten to the power `e`: the value of a decimal literal whose digits,
      read without the point, make `n`. */
  function Decimal(n: nat, e: int): real
    decreases if e < 0 then -e else e
  {
    if e == 0 then n as real
    else if e > 0 then 10.0 * Decimal(n, e - 1)
    else Decimal(n, e + 1) / 10.0
  }

  /** The exponent of an exponent part `e`/`E`, optional sign, at least one digit, at the start
      of `t`; 0 when `t` does not start with one. */
  function ExponentOf(t: string): int
  {
    if |t| >= 2 && (t[0] == 'e' || t[0] == 'E') then
      var u := t[1..];
      var v := if u[0] == '-' || u[0] == '+' then u[1..] else u;
      var c := DigitRun(v);
      if c == 0 then 0
      else if u[0] == '-' then -(DigitsValue(v[..c]) as int)
      else DigitsValue(v[..c])
    else 0
  }

  /** `t` without one leading `+` or `-`. */
  function Unsigned(t: string): (u: string)
    ensures |u| <= |t| && u == t[|t| - |u|..]
  {
    if |t| > 0 && (t[0] == '-' || t[0] == '+') then t[1..] else t
  }

  /** Whether `u` begins a decimal literal: a digit, or a point followed by a digit. */
  predicate BeginsDecimal(u: string) {
    (|u| > 0 && IsDigit(u[0])) || (|u| > 1 && u[0] == '.' && IsDigit(u[1]))
  }

  lemma BeginsDecimalRuns(u: string, a: nat, b: nat)
    requires a == DigitRun(u)
    requires b == if a < |u| && u[a] == '.' then DigitRun(u[a + 1..]) else 0
    ensures BeginsDecimal(u) <==> a > 0 || b > 0
  {
    if a == 0 && |u| > 1 && u[0] == '.' {
      assert u[a + 1..][0] == u[1];
    }
  }

  /** The unsigned part of `parseFloat`: the longest prefix of `u` of the form
      `digits [. digits] [(e|E) [+-] digits]` with at least one digit before the exponent. */
  function ParseUnsigned(u: string): Option<real>
  {
    var a := DigitRun(u);
    var rest := u[a..];
    var hasDot := |rest| > 0 && rest[0] == '.';
    var b := if hasDot then DigitRun(rest[1..]) else 0;
    if a == 0 && b == 0 then
      None
    else
      var frac := if hasDot then rest[1..1 + b] else "";
      var after := if hasDot then rest[1 + b..] else rest;
      Some(Decimal(DigitsValue(u[..a] + frac), ExponentOf(after) - b))
  }

  /** `parseFloat(s)`: leading white space is skipped, then an optional sign and the unsigned
      literal are read. `None` stands for `NaN`. */
  function ParseFloat(s: string): Option<real>
  {
    ParseSigned(TrimStart(s))
  }

  /** An optional sign and the unsigned literal, read at the very start of `t`. */
  function ParseSigned(t: string): Option<real>
  {
    match ParseUnsigned(Unsigned(t))
    case None => None
    case Some(magnitude) => Some(if |t| > 0 && t[0] == '-' then -magnitude else magnitude)
  }

  /** `parseFloat` gives a number exactly when, after the white space and the sign, a digit
      or a point and a digit follow; otherwise it gives `NaN`. */
  lemma ParseFloatIsNumber(s: string)
    ensures ParseFloat(s).Some? <==> BeginsDecimal(Unsigned(TrimStart(s)))
  {
    ParseSignedIsNumber(TrimStart(s));
    ParseUnsignedIsNumber(Unsigned(TrimStart(s)));
  }

  lemma ParseSignedIsNumber(t: string)
    ensures ParseSigned(t).Some? <==> ParseUnsigned(Unsigned(t)).Some?
  {
  }

  lemma ParseUnsignedIsNumber(u: string)
    ensures ParseUnsigned(u).Some? <==> BeginsDecimal(u)
  {
    var a := DigitRun(u);
    var rest := u[a..];
    var b := if |rest| > 0 && rest[0] == '.' then DigitRun(rest[1..]) else 0;
    BeginsDecimalRuns(u, a, b);
  }

  /** Amounts the model writes out exactly: whole numbers of cents. */
  predicate WholeCents(x: real) {
    (x * 100.0).Floor as real == x * 100.0
  }

  /** The digits after the point for a number of cents below 100: none for 0, one digit when the
      second would be a trailing zero, two otherwise. */
  function CentsText(frac: nat): (r: string)
    requires frac < 100
  {
    if frac == 0 then ""
    else if frac % 10 == 0 then ['.', DigitChar(frac / 10)]
    else ['.', DigitChar(frac / 10), DigitChar(frac % 10)]
  }

  /** The digits of a number of cents: the integral part, then `CentsText`. */
  function CentsDigits(cents: nat): string
  {
    NatToString(cents / 100) + CentsText(cents % 100)
  }

  /** `'' + x` for an amount, to cent precision: optional `-`, the integral digits, and the
      cents without trailing zeros. */
  function FormatNumber(x: real): string
  {
    var magnitude := if x < 0.0 then -x else x;
    var cents := (magnitude * 100.0).Floor;
    var digits := CentsDigits(cents);
    if x < 0.0 && cents != 0 then "-" + digits else digits
  }

  /** `FormatNumber` writes digits, at most one `-` in front and a point, and writes `0`
      exactly for the amounts below one cent in magnitude. */
  lemma FormatNumberText(x: real)
    ensures var r := FormatNumber(x);
            |r| >= 1
            && (forall i :: 0 <= i < |r| ==> IsDigit(r[i]) || r[i] == '.' || r[i] == '-')
            && (IsDigit(r[0]) || r[0] == '-')
            && (r == "0" <==> -0.01 < x < 0.01)
  {
    var magnitude := if x < 0.0 then -x else x;
    var cents := (magnitude * 100.0).Floor;
    var digits := CentsDigits(cents);
    CentsDigitsText(cents);
    assert cents == 0 <==> -0.01 < x < 0.01 by { BelowOneCent(x, magnitude, cents); }
    var r := FormatNumber(x);
    if x < 0.0 && cents != 0 {
      assert r == "-" + digits;
      assert forall i :: 0 < i < |r| ==> r[i] == digits[i - 1];
    } else {
      assert r == digits;
    }
  }

  /** The number of cents of an amount is zero exactly below one cent in magnitude. */
  lemma BelowOneCent(x: real, magnitude: real, cents: int)
    requires magnitude == (if x < 0.0 then -x else x) && cents == (magnitude * 100.0).Floor
    ensures cents >= 0
    ensures cents == 0 <==> -0.01 < x < 0.01
  {
  }

  /** The digits of a number of cents are digits and at most a point, begin with a digit, and
      are `0` exactly for no cents. */
  lemma CentsDigitsText(cents: nat)
    ensures var r := CentsDigits(cents);
            |r| >= 1 && IsDigit(r[0])
            && (forall i :: 0 <= i < |r| ==> IsDigit(r[i]) || r[i] == '.')
            && (r == "0" <==> cents == 0)
  {
    var w, f := NatToString(cents / 100), CentsText(cents % 100);
    assert CentsDigits(cents) == w + f;
    NatToStringDigits(cents / 100);
    CentsTextChars(cents % 100);
    assert cents / 100 == 0 ==> w == "0";
    DigitsThenFraction(w, f, cents / 100, cents % 100);
  }

  /** Integral digits followed by a fraction text. */
  lemma DigitsThenFraction(w: string, f: string, n: nat, frac: nat)
    requires |w| >= 1 && AllDigits(w) && DigitsValue(w) == n && (n == 0 ==> w == "0")
    requires (f == "" <==> frac == 0) && forall i :: 0 <= i < |f| ==> IsDigit(f[i]) || f[i] == '.'
    ensures var r := w + f;
            |r| >= 1 && IsDigit(r[0])
            && (forall i :: 0 <= i < |r| ==> IsDigit(r[i]) || r[i] == '.')
            && (r == "0" <==> n == 0 && frac == 0)
  {
    var r := w + f;
    assert forall i :: |w| <= i < |r| ==> r[i] == f[i - |w|];
    assert forall i :: 0 <= i < |w| ==> r[i] == w[i];
    if f == "" {
      assert r == w;
      assert n != 0 ==> w != "0" by {
        assert DigitsValue("0") == 0;
      }
    } else {
      assert |r| >= 2;
    }
  }

  lemma CentsTextChars(frac: nat)
    requires frac < 100
    ensures var f := CentsText(frac);
            (f == "" <==> frac == 0) && forall i :: 0 <= i < |f| ==> IsDigit(f[i]) || f[i] == '.'
  {
  }

  /** The unsigned reading of integral digits `w` with nothing after them. */
  lemma ParseUnsignedWhole(w: string)
    requires |w| >= 1 && AllDigits(w)
    ensures ParseUnsigned(w) == Some(Decimal(DigitsValue(w), 0))
  {
    DigitRunOfDigitsThen(w, "");
    assert w + "" == w;
    assert w[..|w|] == w;
    assert ExponentOf(w[|w|..]) == 0;
  }

  /** The unsigned reading of integral digits `w`, a point and the fraction digits `d`, with
      nothing after them. */
  lemma ParseUnsignedPoint(w: string, d: string, u: string)
    requires |w| >= 1 && AllDigits(w) && |d| >= 1 && AllDigits(d)
    requires u == w + ("." + d)
    ensures ParseUnsigned(u) == Some(Decimal(DigitsValue(w + d), -|d|))
  {
    PointRuns(w, d, u);
    var rest := u[|w|..];
    assert rest[1..1 + |d|] == d && rest[1 + |d|..] == "";
    assert ExponentOf("") == 0;
  }

  lemma PointRuns(w: string, d: string, u: string)
    requires AllDigits(w) && AllDigits(d)
    requires u == w + ("." + d)
    ensures DigitRun(u) == |w| && u[..|w|] == w && u[|w|..] == "." + d
    ensures DigitRun(u[|w|..][1..]) == |d|
  {
    DigitRunOfDigitsThen(w, "." + d);
    assert u[|w|..][1..] == d + "";
    DigitRunOfDigitsThen(d, "");
  }

  /** The same decimal value written with a scale of 1, 10 or 100. */
  lemma DecimalCents(n: nat, e: int, a: nat)
    requires (e == 0 && a == n * 100) || (e == -1 && a == n * 10) || (e == -2 && a == n)
    ensures Decimal(n, e) == Decimal(a, -2)
  {
    CentsValue(a);
  }

  /** `Decimal(a, -2)` is the amount of `a` cents. */
  lemma CentsValue(a: nat)
    ensures Decimal(a, -2) == a as real / 100.0
  {
  }

  /** The unsigned reading of the digits of `a` cents is the amount of `a` cents. */
  lemma ParseUnsignedCents(a: nat)
    ensures ParseUnsigned(CentsDigits(a)) == Some(Decimal(a, -2))
  {
    var w := NatToString(a / 100);
    NatToStringDigits(a / 100);
    if a % 100 == 0 {
      ParseWholeCents(w, a);
    } else if a % 10 == 0 {
      ParseTenthsCents(w, a);
    } else {
      ParseHundredthsCents(w, a);
    }
  }

  lemma ParseWholeCents(w: string, a: nat)
    requires |w| >= 1 && AllDigits(w) && DigitsValue(w) == a / 100 && a % 100 == 0
    ensures ParseUnsigned(w + CentsText(a % 100)) == Some(Decimal(a, -2))
  {
    assert w + CentsText(a % 100) == w;
    ParseUnsignedWhole(w);
    DecimalCents(a / 100, 0, a);
  }

  lemma ParseTenthsCents(w: string, a: nat)
    requires |w| >= 1 && AllDigits(w) && DigitsValue(w) == a / 100
    requires a % 100 != 0 && a % 10 == 0
    ensures ParseUnsigned(w + CentsText(a % 100)) == Some(Decimal(a, -2))
  {
    var d := [DigitChar(a % 100 / 10)];
    TenthsValue(w, a, d);
    ParseUnsignedPoint(w, d, w + CentsText(a % 100));
  }

  lemma ParseHundredthsCents(w: string, a: nat)
    requires |w| >= 1 && AllDigits(w) && DigitsValue(w) == a / 100
    requires a % 10 != 0
    ensures ParseUnsigned(w + CentsText(a % 100)) == Some(Decimal(a, -2))
  {
    var d := [DigitChar(a % 100 / 10), DigitChar(a % 10)];
    HundredthsValue(w, a, d);
    ParseUnsignedPoint(w, d, w + CentsText(a % 100));
  }

  /** One fraction digit: the text is `w.d` and denotes `a` cents. */
  lemma TenthsValue(w: string, a: nat, d: string)
    requires AllDigits(w) && DigitsValue(w) == a / 100 && a % 100 != 0 && a % 10 == 0
    requires d == [DigitChar(a % 100 / 10)]
    ensures w + CentsText(a % 100) == w + ("." + d)
    ensures AllDigits(d) && |d| >= 1
    ensures AllDigits(w + d) && Decimal(DigitsValue(w + d), -|d|) == Decimal(a, -2)
  {
    DigitsValueAppend(w, d[0]);
    DecimalCents(DigitsValue(w + d), -1, a);
  }

  /** Two fraction digits: the text is `w.dd` and denotes `a` cents. */
  lemma HundredthsValue(w: string, a: nat, d: string)
    requires AllDigits(w) && DigitsValue(w) == a / 100 && a % 10 != 0
    requires d == [DigitChar(a % 100 / 10), DigitChar(a % 10)]
    ensures w + CentsText(a % 100) == w + ("." + d)
    ensures AllDigits(d) && |d| >= 1
    ensures AllDigits(w + d) && Decimal(DigitsValue(w + d), -|d|) == Decimal(a, -2)
  {
    var hi, lo := d[0], d[1];
    DigitsValueAppend(w, hi);
    DigitsValueAppend(w + [hi], lo);
    assert w + d == w + [hi] + [lo];
    var m := DigitsValue(w + [hi]);
    assert m == a / 10;
    assert DigitsValue(w + d) == m * 10 + a % 10;
    DecimalCents(DigitsValue(w + d), -2, a);
  }

  lemma DigitsValueAppend(s: string, c: char)
    requires AllDigits(s) && IsDigit(c)
    ensures AllDigits(s + [c]) && DigitsValue(s + [c]) == DigitsValue(s) * 10 + DigitValue(c)
  {
    assert (s + [c])[..|s|] == s;
  }

  /** The magnitude of a whole-cent amount is its number of cents, as `FormatNumber` finds
      it, as an amount. */
  lemma MagnitudeCents(x: real, m: real, a: int)
    requires WholeCents(x)
    requires m == (if x < 0.0 then -x else x) && a == (m * 100.0).Floor
    ensures a >= 0 && Decimal(a, -2) == m
  {
    var k := (x * 100.0).Floor;
    if x < 0.0 {
      FloorOfWhole(m * 100.0, -k);
    } else {
      FloorOfWhole(m * 100.0, k);
    }
    CentsValue(a);
  }

  lemma FloorOfWhole(r: real, k: int)
    requires r == k as real
    ensures r.Floor == k
  {
  }

  lemma ParseFloatUnsigned(digits: string, m: real)
    requires |digits| > 0 && IsDigit(digits[0])
    requires ParseUnsigned(digits) == Some(m)
    ensures ParseFloat(digits) == Some(m)
  {
    assert !IsSpace(digits[0]);
    assert Unsigned(digits) == digits;
    ParseFloatUnspaced(digits, Some(m));
  }

  lemma ParseFloatNegative(digits: string, m: real)
    requires |digits| > 0 && IsDigit(digits[0])
    requires ParseUnsigned(digits) == Some(m)
    ensures ParseFloat("-" + digits) == Some(-m)
  {
    var s := "-" + digits;
    assert s[0] == '-' && !IsSpace(s[0]);
    assert Unsigned(s) == digits by {
      assert s[1..] == digits;
    }
    ParseFloatUnspaced(s, Some(m));
  }

  /** `parseFloat` on a text that does not start with white space. */
  lemma ParseFloatUnspaced(s: string, magnitude: Option<real>)
    requires s != [] ==> !IsSpace(s[0])
    requires ParseUnsigned(Unsigned(s)) == magnitude
    ensures ParseFloat(s) == match magnitude
                             case None => None
                             case Some(v) => Some(if s != [] && s[0] == '-' then -v else v)
  {
    TrimStartUnspaced(s);
    ParseSignedOf(s, magnitude);
  }

  lemma ParseSignedOf(t: string, magnitude: Option<real>)
    requires ParseUnsigned(Unsigned(t)) == magnitude
    ensures ParseSigned(t) == match magnitude
                              case None => None
                              case Some(v) => Some(if t != [] && t[0] == '-' then -v else v)
  {
  }

  /** Reading back what `FormatNumber` writes gives the amount again, for whole cents. */
  lemma ParseFormatNumber(x: real)
    requires WholeCents(x)
    ensures ParseFloat(FormatNumber(x)) == Some(x)
  {
    var m := if x < 0.0 then -x else x;
    var a := (m * 100.0).Floor;
    MagnitudeCents(x, m, a);
    if x < 0.0 {
      ParseFormatNegative(x, a);
    } else {
      ParseFormatPositive(x, a);
    }
  }

  lemma ParseFormatNegative(x: real, a: nat)
    requires x < 0.0 && x == -Decimal(a, -2)
    ensures ParseFloat(FormatNumber(x)) == Some(x)
  {
    var digits, m := CentsDigits(a), Decimal(a, -2);
    FormatNegativeCents(x, a);
    ParseCentsDigits(a, digits, m);
    ParseFloatNegative(digits, m);
  }

  lemma ParseFormatPositive(x: real, a: nat)
    requires x == Decimal(a, -2)
    ensures ParseFloat(FormatNumber(x)) == Some(x)
  {
    FormatPositiveCents(x, a);
    ParsePositiveCents(a);
  }

  lemma FormatNegativeCents(x: real, a: nat)
    requires x < 0.0 && x == -Decimal(a, -2)
    ensures FormatNumber(x) == "-" + CentsDigits(a)
  {
    CentsValue(a);
    FloorOfWhole(-x * 100.0, a);
    FormatNumberOfCents(x, -x, a);
  }

  lemma FormatPositiveCents(x: real, a: nat)
    requires x == Decimal(a, -2)
    ensures FormatNumber(x) == CentsDigits(a)
  {
    CentsValue(a);
    FloorOfWhole(x * 100.0, a);
    FormatNumberOfCents(x, x, a);
  }

  /** The digits of `a` cents read back as the amount of `a` cents. */
  lemma ParsePositiveCents(a: nat)
    ensures ParseFloat(CentsDigits(a)) == Some(Decimal(a, -2))
  {
    var digits, m := CentsDigits(a), Decimal(a, -2);
    ParseCentsDigits(a, digits, m);
    ParseFloatUnsigned(digits, m);
  }

  lemma ParseCentsDigits(a: nat, digits: string, m: real)
    requires digits == CentsDigits(a) && m == Decimal(a, -2)
    ensures |digits| > 0 && IsDigit(digits[0]) && ParseUnsigned(digits) == Some(m)
  {
    ParseUnsignedCents(a);
    NatToStringDigits(a / 100);
  }

  lemma FormatNumberOfCents(x: real, magnitude: real, cents: nat)
    requires magnitude == if x < 0.0 then -x else x
    requires cents == (magnitude * 100.0).Floor
    ensures x < 0.0 && cents != 0 ==> FormatNumber(x) == "-" + CentsDigits(cents)
    ensures !(x < 0.0 && cents != 0) ==> FormatNumber(x) == CentsDigits(cents)
  {
    if !(x < 0.0 && cents != 0) {
      assert "" + CentsDigits(cents) == CentsDigits(cents);
    }
  }

  /** `s.replace(from, to)` with a one-character string pattern: only the first occurrence. */
  function ReplaceFirst(s: string, from: char, to: char): (r: string)
    ensures |r| == |s|
    ensures from !in s ==> r == s
    ensures from in s ==> exists i :: 0 <= i < |s| && s[i] == from && from !in s[..i] && r == s[..i] + [to] + s[i + 1..]
  {
    if from !in s then s else s[IndexOf(s, from) := to]
  }

  /** The unsigned reading of a digit alone. */
  lemma ParseUnsignedDigit(s: string, d: nat)
    requires |s| == 1 && IsDigit(s[0]) && DigitValue(s[0]) == d
    ensures ParseUnsigned(s) == Some(d as real)
  {
    assert DigitsValue(s) == d by {
      assert s[..0] == [];
    }
    ParseUnsignedWhole(s);
  }

  /** `parseFloat` of a digit alone. */
  lemma ParseDigit(s: string, d: nat)
    requires |s| == 1 && IsDigit(s[0]) && DigitValue(s[0]) == d
    ensures ParseFloat(s) == Some(d as real)
  {
    ParseUnsignedDigit(s, d);
    ParseFloatUnsigned(s, d as real);
  }

  /** `parseFloat` of a `-` and a digit. */
  lemma ParseMinusDigit(digit: string, d: nat)
    requires |digit| == 1 && IsDigit(digit[0]) && DigitValue(digit[0]) == d
    ensures ParseFloat("-" + digit) == Some(-(d as real))
  {
    ParseUnsignedDigit(digit, d);
    ParseFloatNegative(digit, d as real);
  }

  /** `parseFloat('-5')` is -5. */
  lemma ParseMinusFive()
    ensures ParseFloat("-5") == Some(-5.0)
  {
    ParseMinusDigit("5", 5);
    assert "-5" == "-" + "5";
  }

  /** `parseFloat` of a text that starts with a letter is `NaN`. */
  lemma ParseWord(s: string)
    requires s != [] && 'a' <= s[0] <= 'z'
    ensures ParseFloat(s) == None
  {
    assert Unsigned(s) == s && !BeginsDecimal(s);
    ParseUnsignedIsNumber(s);
    ParseFloatUnspaced(s, None);
  }
}
