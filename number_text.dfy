/** JavaScript's conversions between numbers and text, on exact reals:
    `Number(text)`, which reads the StringNumericLiteral grammar of section
    7.1.4.1.1 of ECMA-262 (whitespace around, `Infinity`, an optional sign,
    decimal digits with a point and an exponent, and `0x`/`0o`/`0b`
    integers), and `String(x)` for a number, which follows Number::toString
    of section 6.1.6.1.20 (positional notation between 10^-7 and 10^21,
    exponent notation outside). */
module NumberText {
  import opened Wrappers
  import opened Text
  import Numbers

  /** A JavaScript number: a finite value, an infinity, or NaN. */
  datatype Number = Finite(x: real) | Infinite(negative: bool) | NaN

  /** Unary minus. */
  function Negate(v: Number): (r: Number)
    ensures v.Finite? <==> r.Finite?
    ensures v.Finite? ==> r.x == -v.x
    ensures v.Infinite? ==> r == Infinite(!v.negative)
    ensures v.NaN? <==> r.NaN?
  {
    match v
    case Finite(x) => Finite(-x)
    case Infinite(neg) => Infinite(!neg)
    case NaN => NaN
  }

  // ---------------------------------------------------------------------
  // Number(text)

  /** The base an `0x`, `0o` or `0b` prefix names, or 0 for any other
      character. */
  function Radix(c: char): (b: nat)
    ensures b == 0 || b == 2 || b == 8 || b == 16
  {
    if c == 'x' || c == 'X' then 16
    else if c == 'o' || c == 'O' then 8
    else if c == 'b' || c == 'B' then 2
    else 0
  }

  /** The value of `c` as a digit in base `radix`, if it is one. */
  function RadixDigit(c: char, radix: nat): (r: Option<nat>)
    ensures r.Some? ==> r.value < radix
    ensures IsDigit(c) && DigitValue(c) < radix ==> r == Some(DigitValue(c))
  {
    var d: Option<nat> :=
      if '0' <= c <= '9' then Some(c as int - '0' as int)
      else if 'a' <= c <= 'f' then Some(c as int - 'a' as int + 10)
      else if 'A' <= c <= 'F' then Some(c as int - 'A' as int + 10)
      else None;
    if d.Some? && d.value < radix then d else None
  }

  /** The value of a run of digits in base `radix`; `None` when some
      character is not such a digit. */
  function RadixValue(s: string, radix: nat): (r: Option<nat>)
    decreases |s|
  {
    if s == [] then Some(0)
    else
      match (RadixValue(s[..|s| - 1], radix), RadixDigit(s[|s| - 1], radix))
      case (Some(v), Some(d)) => Some(v * radix + d)
      case _ => None
  }

  /** The index of the first `c` in `s` at or after `from`, or |s|. */
  function IndexFrom(s: string, c: char, from: nat): (k: nat)
    requires from <= |s|
    ensures from <= k <= |s|
    ensures k < |s| ==> s[k] == c
    decreases |s| - from
  {
    if from == |s| || s[from] == c then from else IndexFrom(s, c, from + 1)
  }

  /** The index of the first `c` in `s`, or |s|. */
  function IndexOfChar(s: string, c: char): (k: nat)
    ensures k <= |s|
    ensures k < |s| ==> s[k] == c
  {
    IndexFrom(s, c, 0)
  }

  /** The index of the first `e` or `E`, or |s|. */
  function ExponentAt(s: string): (k: nat)
    ensures k <= |s|
    ensures k < |s| ==> s[k] == 'e' || s[k] == 'E'
  {
    var a := IndexOfChar(s, 'e');
    var b := IndexOfChar(s, 'E');
    if a <= b then a else b
  }

  /** No `c` comes between `from` and the index `IndexFrom` finds. */
  lemma {:induction false} IndexFromFirst(s: string, c: char, from: nat, i: nat)
    requires from <= |s| && from <= i < IndexFrom(s, c, from)
    ensures s[i] != c
    decreases |s| - from
  {
    if i > from {
      IndexFromFirst(s, c, from + 1, i);
    }
  }

  /** `IndexFrom` passes over a stretch with no `c`. */
  lemma {:induction false} IndexFromPast(s: string, c: char, from: nat, k: nat)
    requires from <= k <= |s| && forall i :: from <= i < k ==> s[i] != c
    ensures IndexFrom(s, c, from) >= k
    decreases k - from
  {
    if from < k {
      IndexFromPast(s, c, from + 1, k);
    }
  }

  /** `IndexOfChar` passes over a prefix with no `c`. */
  lemma {:induction false} IndexOfCharPast(s: string, c: char, k: nat)
    requires k <= |s| && forall i :: 0 <= i < k ==> s[i] != c
    ensures IndexOfChar(s, c) >= k
  {
    IndexFromPast(s, c, 0, k);
  }

  /** The index of `c` in a text whose first `c` is at `k` (or that has none,
      when `k == |s|`). */
  lemma {:induction false} IndexOfCharIs(s: string, c: char, k: nat)
    requires k <= |s| && (k < |s| ==> s[k] == c)
    requires forall i :: 0 <= i < k ==> s[i] != c
    ensures IndexOfChar(s, c) == k
  {
    IndexOfCharPast(s, c, k);
    if k < |s| && IndexOfChar(s, c) > k {
      IndexFromFirst(s, c, 0, k);
    }
  }

  /** The same for `ExponentAt`. */
  lemma {:induction false} ExponentAtIs(s: string, k: nat)
    requires k <= |s| && (k < |s| ==> s[k] == 'e')
    requires forall i :: 0 <= i < k ==> s[i] != 'e' && s[i] != 'E'
    ensures ExponentAt(s) == k
  {
    IndexOfCharIs(s, 'e', k);
    IndexOfCharPast(s, 'E', k);
    if k < |s| {
      IndexOfCharPast(s, 'E', k + 1);
    }
  }

  /** `v * 10^p`: the value of the digits `v` with the point moved `p`
      places, one place at a time. */
  function Scaled(v: nat, p: int): (r: real)
    ensures r >= 0.0
    decreases if p >= 0 then p else -p
  {
    if p == 0 then v as real
    else if p > 0 then 10.0 * Scaled(v, p - 1)
    else Scaled(v, p + 1) / 10.0
  }

  /** A decimal literal read as digits and a power of ten: `Decimal(v, p)`
      stands for `v * 10^p`. */
  datatype Decimal = Malformed | Decimal(digits: nat, exp: int)

  /** A decimal mantissa: digits, at most one point, and at least one
      digit. `v` is the value of all the digits and the power of ten is
      minus the number of them after the point. */
  function Mantissa(a: string): (r: Decimal)
    ensures r.Decimal? ==> r.exp <= 0
  {
    var k := IndexOfChar(a, '.');
    var whole := a[..k];
    var frac := if k < |a| then a[k + 1..] else [];
    var digits := whole + frac;
    if digits == [] then Malformed
    else match RadixValue(digits, 10)
      case Some(v) => Decimal(v, -(|frac| as int))
      case None => Malformed
  }

  /** The part after `e`: an optional sign and at least one digit. */
  function ExponentValue(b: string): (r: Option<int>)
  {
    var signed := b != [] && (b[0] == '+' || b[0] == '-');
    var digits := if signed then b[1..] else b;
    if digits == [] then None
    else match RadixValue(digits, 10)
      case Some(d) =>
        var n: int := d;
        if signed && b[0] == '-' then Some(-n) else Some(n)
      case None => None
  }

  /** An unsigned decimal literal, with or without an exponent. */
  function DecimalText(u: string): (r: Decimal)
  {
    var e := ExponentAt(u);
    var m := Mantissa(u[..e]);
    if m.Malformed? || e == |u| then m
    else match ExponentValue(u[e + 1..])
      case Some(p) => Decimal(m.digits, m.exp + p)
      case None => Malformed
  }

  /** An unsigned StrDecimalLiteral: `Infinity` or a decimal literal. */
  function Unsigned(u: string): (r: Number)
    ensures r.Finite? ==> r.x >= 0.0
    ensures r.Infinite? ==> !r.negative
  {
    if u == "Infinity" then Infinite(false)
    else match DecimalText(u)
      case Decimal(v, p) => Finite(Scaled(v, p))
      case Malformed => NaN
  }

  /** `Number(s)`: the surrounding whitespace is ignored, blank text is 0, an
      `0x`/`0o`/`0b` prefix introduces an integer in that base, and
      otherwise an optionally signed decimal literal or `Infinity` is read;
      any other text is NaN. Values are exact: no rounding to the nearest
      double. */
  function ReadNumber(s: string): (r: Number)
  {
    var t := Trim(s);
    if t == [] then Finite(0.0)
    else if |t| >= 2 && t[0] == '0' && Radix(t[1]) != 0 then
      if t[2..] == [] then NaN
      else match RadixValue(t[2..], Radix(t[1]))
        case Some(v) => Finite(v as real)
        case None => NaN
    else if t[0] == '-' then Negate(Unsigned(t[1..]))
    else if t[0] == '+' then Unsigned(t[1..])
    else Unsigned(t)
  }

  // ---------------------------------------------------------------------
  // Reading, lemmas

  /** Characters that occur in no numeric literal. */
  predicate Foreign(c: char) {
    !IsSpace(c) && !IsDigit(c) && !('a' <= c <= 'f') && !('A' <= c <= 'F')
    && c !in ".+-xXoOIinty"
  }

  lemma {:induction false} RadixValueForeign(s: string, radix: nat, c: char)
    requires c in s && Foreign(c)
    ensures RadixValue(s, radix).None?
    decreases |s|
  {
    if s[|s| - 1] != c {
      assert c in s[..|s| - 1];
      RadixValueForeign(s[..|s| - 1], radix, c);
    }
  }

  lemma {:induction false} MantissaForeign(a: string, c: char)
    requires c in a && Foreign(c)
    ensures Mantissa(a).Malformed?
  {
    var k := IndexOfChar(a, '.');
    var frac := if k < |a| then a[k + 1..] else [];
    var digits := a[..k] + frac;
    var i :| 0 <= i < |a| && a[i] == c;
    if i < k {
      assert digits[i] == c;
    } else {
      assert i > k && digits[i - 1] == c;
    }
    RadixValueForeign(digits, 10, c);
  }

  lemma {:induction false} ExponentValueForeign(b: string, c: char)
    requires c in b && Foreign(c)
    ensures ExponentValue(b).None?
  {
    var i :| 0 <= i < |b| && b[i] == c;
    if b[0] == '+' || b[0] == '-' {
      assert b[1..][i - 1] == c;
      RadixValueForeign(b[1..], 10, c);
    } else {
      RadixValueForeign(b, 10, c);
    }
  }

  lemma {:induction false} UnsignedForeign(u: string, c: char)
    requires c in u && Foreign(c)
    ensures Unsigned(u).NaN?
  {
    assert u != "Infinity";
    var e := ExponentAt(u);
    var i :| 0 <= i < |u| && u[i] == c;
    if e == |u| {
      assert u[..e] == u;
      MantissaForeign(u, c);
    } else if i < e {
      assert u[..e][i] == c;
      MantissaForeign(u[..e], c);
    } else {
      assert u[e + 1..][i - e - 1] == c;
      ExponentValueForeign(u[e + 1..], c);
    }
  }

  /** A text holding a character no numeric literal has is NaN: a comma,
      a letter other than those of `Infinity`, hexadecimal digits and
      prefixes, a bracket. */
  lemma {:induction false} ReadNumberForeign(s: string, c: char)
    requires c in s && Foreign(c)
    ensures ReadNumber(s).NaN?
  {
    var t := Trim(s);
    TrimKeeps(s, c);
    var i :| 0 <= i < |t| && t[i] == c;
    if |t| >= 2 && t[0] == '0' && Radix(t[1]) != 0 {
      assert t[2..][i - 2] == c;
      RadixValueForeign(t[2..], Radix(t[1]), c);
    } else if t[0] == '-' || t[0] == '+' {
      assert t[1..][i - 1] == c;
      UnsignedForeign(t[1..], c);
    } else {
      UnsignedForeign(t, c);
    }
  }

  /** A run of digits with no point is its decimal value. */
  lemma {:induction false} MantissaOfDigits(t: string)
    requires t != [] && AllDigits(t)
    ensures Mantissa(t) == Decimal(DigitsValue(t), 0)
  {
    IndexOfCharIs(t, '.', |t|);
    assert t[..|t|] + [] == t;
    DecimalDigits(t);
  }

  /** Decimal digits read in base 10 are their decimal value. */
  lemma {:induction false} DecimalDigits(s: string)
    requires AllDigits(s)
    ensures RadixValue(s, 10) == Some(DigitsValue(s))
    decreases |s|
  {
    if s != [] {
      UnfoldDigits(s);
      DecimalDigits(s[..|s| - 1]);
    }
  }

  /** An unsigned literal without an exponent is its mantissa. */
  lemma {:induction false} UnsignedOfMantissa(u: string)
    requires u != [] && IsDigit(u[0])
    requires forall i :: 0 <= i < |u| ==> u[i] != 'e' && u[i] != 'E'
    ensures Unsigned(u) == match Mantissa(u)
      case Decimal(v, p) => Finite(Scaled(v, p))
      case Malformed => NaN
  {
    assert u != "Infinity" by { assert u[0] != 'I'; }
    ExponentAtIs(u, |u|);
    assert u[..|u|] == u;
  }

  /** A text that starts with a digit, ends in a digit and has no base
      prefix is read as an unsigned literal. */
  lemma {:induction false} ReadUnsigned(t: string)
    requires t != [] && IsDigit(t[0]) && IsDigit(t[|t| - 1])
    requires |t| >= 2 ==> Radix(t[1]) == 0
    ensures ReadNumber(t) == Unsigned(t)
  {
    TrimOfTrimmed(t);
  }

  /** The same, after a minus sign. */
  lemma {:induction false} ReadNegated(t: string)
    requires t != [] && IsDigit(t[|t| - 1])
    ensures ReadNumber("-" + t) == Negate(Unsigned(t))
  {
    var m := "-" + t;
    assert m[0] == '-' && m[|m| - 1] == t[|t| - 1];
    TrimOfTrimmed(m);
    assert m[1..] == t;
  }

  /** The text of a natural number reads back as that number. */
  lemma {:induction false} ReadDigits(t: string)
    requires t != [] && AllDigits(t)
    ensures ReadNumber(t) == Finite(DigitsValue(t) as real)
  {
    ReadUnsigned(t);
    UnsignedDigits(t);
  }

  /** The same after a minus sign. */
  lemma {:induction false} ReadNegatedDigits(t: string)
    requires t != [] && AllDigits(t)
    ensures ReadNumber("-" + t) == Finite(-(DigitsValue(t) as real))
  {
    var u := Unsigned(t);
    assert ReadNumber("-" + t) == Negate(u) by { ReadNegated(t); }
    assert u == Finite(DigitsValue(t) as real) by { UnsignedDigits(t); }
  }

  /** Digits alone are an unsigned literal worth their decimal value. */
  lemma {:induction false} UnsignedDigits(t: string)
    requires t != [] && AllDigits(t)
    ensures Unsigned(t) == Finite(DigitsValue(t) as real)
  {
    UnsignedOfMantissa(t);
    MantissaOfDigits(t);
    ScaledZero(DigitsValue(t));
  }

  lemma {:induction false} ScaledZero(v: nat)
    ensures Scaled(v, 0) == v as real
  {
  }

  /** One more place moves the point once more, whatever the sign of `p`. */
  lemma {:induction false} ScaledStep(v: nat, p: int)
    ensures Scaled(v, p) == 10.0 * Scaled(v, p - 1)
  {
  }

  /** Ten times the digits is ten times the value. */
  lemma {:induction false} ScaledTimesTen(v: nat, p: int)
    ensures Scaled(10 * v, p) == 10.0 * Scaled(v, p)
    decreases if p >= 0 then p else -p
  {
    if p > 0 {
      ScaledTimesTen(v, p - 1);
    } else if p < 0 {
      ScaledTimesTen(v, p + 1);
    }
  }

  // ---------------------------------------------------------------------
  // String(x)

  /** Every finite JavaScript number is a whole multiple of 2^-1074, so its
      decimal expansion ends within 1074 places. */
  const MaxPlaces: nat := 1074

  /** The least number of places `j <= left` such that `x * 10^j` is a
      whole number `m`, with that `m`, if there is one. */
  function Places(x: real, left: nat): (r: Option<(nat, nat)>)
    requires x > 0.0
    ensures r.Some? ==> r.value.0 <= left && r.value.1 >= 1
    decreases left
  {
    if x == x.Floor as real then Some((0, x.Floor as nat))
    else if left == 0 then None
    else
      match Places(x * 10.0, left - 1)
      case Some((j, m)) => Some((j + 1, m))
      case None => None
  }

  /** `d` without its trailing zeros. */
  function DropTrailingZeros(d: string): (s: string)
    ensures |s| <= |d| && s == d[..|s|]
    ensures forall i :: |s| <= i < |d| ==> d[i] == '0'
    ensures s == [] || s[|s| - 1] != '0'
    ensures d != [] && d[0] != '0' ==> s != []
    decreases |d|
  {
    if d != [] && d[|d| - 1] == '0' then
      var s := DropTrailingZeros(d[..|d| - 1]);
      assert d[..|d| - 1][..|s|] == d[..|s|];
      s
    else d
  }

  /** `n` zeros. */
  function Zeros(n: nat): (z: string)
    ensures |z| == n && forall i :: 0 <= i < n ==> z[i] == '0'
    decreases n
  {
    if n == 0 then [] else Zeros(n - 1) + "0"
  }

  /** The text of a number whose significant digits are `s` (no leading or
      trailing zero) and whose decimal point comes after the first `n` of
      them, by the cases of Number::toString. */
  function Layout(s: string, n: int): (r: string)
    requires s != []
  {
    var k := |s|;
    if k <= n <= 21 then s + Zeros(n - k)
    else if 0 < n <= 21 then s[..n] + "." + s[n..]
    else if -6 < n <= 0 then "0." + Zeros(-n) + s
    else PointAfterFirst(s) + "e" + SignedExponent(n - 1)
  }

  /** The digits with a point after the first, when there are more. */
  function PointAfterFirst(s: string): (r: string)
    requires s != []
  {
    if |s| == 1 then s else s[..1] + "." + s[1..]
  }

  /** An exponent with its sign: `+` for zero and above, `-` below. */
  function SignedExponent(e: int): (r: string)
  {
    (if e >= 0 then "+" else "-") + NatToString(if e >= 0 then e else -e)
  }

  /** `String(x)` for a positive number. */
  function PositiveString(x: real): (r: Option<string>)
    requires x > 0.0
  {
    match Places(x, MaxPlaces)
    case None => None
    case Some((j, m)) =>
      var d := NatToString(m);
      Some(Layout(DropTrailingZeros(d), |d| - j))
  }

  /** `String(x)` for a number: `None` only for a real with no decimal
      expansion ending within `MaxPlaces` places, which no JavaScript number
      has. The digits are those of the exact value. */
  function NumberString(x: real): (r: Option<string>)
  {
    if x == 0.0 then Some("0")
    else if x < 0.0 then
      match PositiveString(-x)
      case Some(t) => Some("-" + t)
      case None => None
    else PositiveString(x)
  }

  // ---------------------------------------------------------------------
  // Writing, lemmas

  lemma {:induction false} AllDigitsAppend(a: string, b: string)
    requires AllDigits(a) && AllDigits(b)
    ensures AllDigits(a + b)
  {
    var ab := a + b;
    forall i | 0 <= i < |ab| ensures IsDigit(ab[i]) {
      if i >= |a| {
        assert ab[i] == b[i - |a|];
      }
    }
  }

  lemma {:induction false} UnfoldDigits(s: string)
    requires AllDigits(s) && s != []
    ensures AllDigits(s[..|s| - 1]) && IsDigit(s[|s| - 1])
    ensures DigitsValue(s) == DigitsValue(s[..|s| - 1]) * 10 + DigitValue(s[|s| - 1])
  {
    assert forall i :: 0 <= i < |s| - 1 ==> s[..|s| - 1][i] == s[i];
  }

  lemma {:induction false} UnfoldAppend(a: string, b: string)
    requires AllDigits(a) && AllDigits(b) && b != []
    ensures AllDigits(b[..|b| - 1]) && AllDigits(a + b) && AllDigits(a + b[..|b| - 1])
    ensures IsDigit(b[|b| - 1])
    ensures DigitsValue(a + b) == DigitsValue(a + b[..|b| - 1]) * 10 + DigitValue(b[|b| - 1])
    ensures DigitsValue(b) == DigitsValue(b[..|b| - 1]) * 10 + DigitValue(b[|b| - 1])
  {
    var ab := a + b;
    AllDigitsAppend(a, b);
    assert ab[..|ab| - 1] == a + b[..|b| - 1] && ab[|ab| - 1] == b[|b| - 1];
    UnfoldDigits(ab);
    UnfoldDigits(b);
  }

  /** Appending digits shifts the value: v(a + b) = v(a) * 10^|b| + v(b). */
  lemma {:induction false} DigitsValueAppend(a: string, b: string)
    requires AllDigits(a) && AllDigits(b)
    ensures AllDigits(a + b)
    ensures DigitsValue(a + b) == DigitsValue(a) * Numbers.Pow10(|b|) + DigitsValue(b)
    decreases |b|
  {
    if b == [] {
      assert a + b == a;
    } else {
      var b0 := b[..|b| - 1];
      UnfoldAppend(a, b);
      DigitsValueAppend(a, b0);
      TimesTen(DigitsValue(a), Numbers.Pow10(|b0|), Numbers.Pow10(|b|));
    }
  }

  lemma {:induction false} TimesTen(u: int, p: int, q: int)
    requires q == 10 * p
    ensures u * q == 10 * (u * p)
  {
  }

  lemma {:induction false} ZerosValue(n: nat)
    ensures AllDigits(Zeros(n)) && DigitsValue(Zeros(n)) == 0
    decreases n
  {
    if n > 0 {
      assert Zeros(n)[..n - 1] == Zeros(n - 1);
      ZerosValue(n - 1);
    }
  }

  lemma {:induction false} ZerosPrepend(z: nat)
    ensures "0" + Zeros(z) == Zeros(z + 1)
  {
    var a, b := "0" + Zeros(z), Zeros(z + 1);
    assert forall i :: 0 <= i < z + 1 ==> a[i] == '0' == b[i];
  }

  /** Leading zeros do not change the value of digits. */
  lemma {:induction false} LeadingZeros(z: nat, s: string)
    requires AllDigits(s)
    ensures AllDigits(Zeros(z) + s) && DigitsValue(Zeros(z) + s) == DigitsValue(s)
  {
    ZerosValue(z);
    DigitsValueAppend(Zeros(z), s);
  }

  /** Trailing zeros multiply the value of digits by a power of ten. */
  lemma {:induction false} TrailingZeros(s: string, z: nat)
    requires AllDigits(s)
    ensures AllDigits(s + Zeros(z)) && DigitsValue(s + Zeros(z)) == DigitsValue(s) * Numbers.Pow10(z)
  {
    ZerosValue(z);
    DigitsValueAppend(s, Zeros(z));
  }

  /** The same value written with `z` more digits and `z` more places. */
  lemma {:induction false} ScaledShift(v: nat, z: nat, p: int)
    ensures Scaled(v * Numbers.Pow10(z), p - z) == Scaled(v, p)
    decreases z
  {
    if z > 0 {
      var u := v * Numbers.Pow10(z - 1);
      TimesTen(v, Numbers.Pow10(z - 1), Numbers.Pow10(z));
      assert v * Numbers.Pow10(z) == 10 * u;
      ScaledTimesTen(u, p - z);
      ScaledStep(u, p - (z - 1));
      ScaledShift(v, z - 1, p);
    }
  }

  /** Trailing zeros, counted as places: `v(s + 0^z) * 10^q == v(s) * 10^p`
      when `q == p - z`. */
  lemma {:induction false} ZerosScaled(s: string, z: nat, p: int, q: int)
    requires AllDigits(s) && q == p - z
    ensures AllDigits(s + Zeros(z)) && Scaled(DigitsValue(s + Zeros(z)), q) == Scaled(DigitsValue(s), p)
  {
    TrailingZeros(s, z);
    ScaledShift(DigitsValue(s), z, p);
  }

  /** Digits with a point after the first `p` of them. */
  lemma {:induction false} MantissaPointed(s: string, p: nat)
    requires AllDigits(s) && 0 < p < |s|
    ensures Mantissa(s[..p] + "." + s[p..]) == Decimal(DigitsValue(s), p - |s|)
  {
    var t := s[..p] + "." + s[p..];
    assert forall i :: 0 <= i < p ==> t[i] == s[i];
    assert t[p] == '.';
    IndexOfCharIs(t, '.', p);
    assert t[..p] == s[..p] && t[p + 1..] == s[p..];
    assert s[..p] + s[p..] == s;
    DecimalDigits(s);
  }

  /** "0." and zeros before the digits. */
  lemma {:induction false} MantissaFraction(s: string, z: nat)
    requires AllDigits(s) && s != []
    ensures Mantissa("0." + Zeros(z) + s) == Decimal(DigitsValue(s), -(z + |s|))
  {
    var t := "0." + Zeros(z) + s;
    var frac := Zeros(z) + s;
    assert t[0] == '0' && t[1] == '.';
    IndexOfCharIs(t, '.', 1);
    assert t[..1] == "0" && t[2..] == frac;
    ZerosPrepend(z);
    assert "0" + frac == Zeros(z + 1) + s;
    LeadingZeros(z + 1, s);
    DecimalDigits(Zeros(z + 1) + s);
  }

  /** The digits and the exponent a layout stands for, `v(s) * 10^(n - |s|)`,
      and the shape of its text: it starts and ends with a digit and has no
      base prefix. */
  predicate ReadsAs(t: string, s: string, n: int)
    requires AllDigits(s)
  {
    t != [] && IsDigit(t[0]) && IsDigit(t[|t| - 1]) && (|t| >= 2 ==> Radix(t[1]) == 0)
    && Unsigned(t) == Finite(Scaled(DigitsValue(s), n - |s|))
  }

  /** Every layout reads back as the value it stands for. */
  lemma {:induction false} ReadLayout(s: string, n: int)
    requires AllDigits(s) && s != []
    ensures ReadsAs(Layout(s, n), s, n)
  {
    var k := |s|;
    if k <= n <= 21 {
      ReadWholeLayout(s, n);
    } else if 0 < n <= 21 {
      ReadPointedLayout(s, n);
    } else if -6 < n <= 0 {
      ReadFractionLayout(s, n);
    } else {
      ReadExponentLayout(s, n);
    }
  }

  lemma {:induction false} ReadWholeLayout(s: string, n: int)
    requires AllDigits(s) && s != [] && |s| <= n
    ensures ReadsAs(s + Zeros(n - |s|), s, n)
  {
    var k := |s|;
    var t := s + Zeros(n - k);
    ZerosScaled(s, n - k, n - k, 0);
    assert t[0] == s[0] && IsDigit(t[|t| - 1]);
    UnsignedOfMantissa(t);
    MantissaOfDigits(t);
  }

  lemma {:induction false} ReadPointedLayout(s: string, n: int)
    requires AllDigits(s) && s != [] && 0 < n < |s|
    ensures ReadsAs(s[..n] + "." + s[n..], s, n)
  {
    var k := |s|;
    var t := s[..n] + "." + s[n..];
    assert t[0] == s[0] && t[|t| - 1] == s[k - 1];
    assert t[1] == '.' || t[1] == s[1];
    PointedShape(s, n);
    MantissaPointed(s, n);
    UnsignedOfMantissa(t);
  }

  lemma {:induction false} ReadFractionLayout(s: string, n: int)
    requires AllDigits(s) && s != [] && n <= 0
    ensures ReadsAs("0." + Zeros(-n) + s, s, n)
  {
    FractionShape(-n, s);
    FractionValue(-n, s, n - |s|);
  }

  /** The value of "0.", `z` zeros and the digits `s`. */
  lemma {:induction false} FractionValue(z: nat, s: string, p: int)
    requires AllDigits(s) && s != [] && p == -(z + |s|)
    ensures Unsigned("0." + Zeros(z) + s) == Finite(Scaled(DigitsValue(s), p))
  {
    FractionShape(z, s);
    MantissaFraction(s, z);
    UnsignedOfMantissa("0." + Zeros(z) + s);
  }

  /** "0." and zeros before digits: digits and one point, ending in the
      last digit. */
  lemma {:induction false} FractionShape(z: nat, s: string)
    requires AllDigits(s) && s != []
    ensures var t := "0." + Zeros(z) + s;
      t[0] == '0' && t[1] == '.' && t[|t| - 1] == s[|s| - 1]
      && forall i :: 0 <= i < |t| ==> t[i] == '.' || IsDigit(t[i])
  {
    var t := "0." + Zeros(z) + s;
    forall i | 0 <= i < |t| ensures t[i] == '.' || IsDigit(t[i]) {
      if 2 <= i < z + 2 {
        assert t[i] == Zeros(z)[i - 2];
      } else if i >= z + 2 {
        assert t[i] == s[i - z - 2];
      }
    }
  }

  lemma {:induction false} ReadExponentLayout(s: string, n: int)
    requires AllDigits(s) && s != []
    ensures ReadsAs(PointAfterFirst(s) + "e" + SignedExponent(n - 1), s, n)
  {
    var k := |s|;
    var e := n - 1;
    var mantissa := PointAfterFirst(s);
    var digits := NatToString(if e >= 0 then e else -e);
    var tail := SignedExponent(e);
    assert tail == (if e >= 0 then "+" else "-") + digits;
    if k == 1 {
      MantissaOfDigits(s);
    } else {
      PointedShape(s, 1);
      MantissaPointed(s, 1);
    }
    ExponentOfSign(e);
    assert tail[|tail| - 1] == digits[|digits| - 1];
    ExponentReadsAs(mantissa, tail, s, n);
  }

  /** A mantissa of the digits `s` with the point after the first, `e`,
      and the exponent `n - 1`. */
  lemma {:induction false} ExponentReadsAs(mantissa: string, tail: string, s: string, n: int)
    requires AllDigits(s) && s != []
    requires mantissa != [] && mantissa[0] == s[0] && (|mantissa| >= 2 ==> mantissa[1] == '.')
    requires forall i :: 0 <= i < |mantissa| ==> mantissa[i] == '.' || IsDigit(mantissa[i])
    requires Mantissa(mantissa) == Decimal(DigitsValue(s), 1 - |s|) && ExponentValue(tail) == Some(n - 1)
    requires tail != [] && IsDigit(tail[|tail| - 1])
    ensures ReadsAs(mantissa + "e" + tail, s, n)
  {
    UnsignedExponent(mantissa, tail, DigitsValue(s), 1 - |s|, n - 1, n - |s|);
    ExponentShape(mantissa, tail);
  }

  /** A mantissa, `e` and an exponent start and end with a digit and have
      no base prefix. */
  lemma {:induction false} ExponentShape(mantissa: string, tail: string)
    requires mantissa != [] && IsDigit(mantissa[0]) && (|mantissa| >= 2 ==> mantissa[1] == '.')
    requires tail != [] && IsDigit(tail[|tail| - 1])
    ensures var t := mantissa + "e" + tail;
      IsDigit(t[0]) && IsDigit(t[|t| - 1]) && Radix(t[1]) == 0
  {
    var t := mantissa + "e" + tail;
    assert t[0] == mantissa[0] && t[|t| - 1] == tail[|tail| - 1];
    assert t[1] == '.' || t[1] == 'e';
  }

  /** A point after the first `p` digits keeps the digits around it. */
  lemma {:induction false} PointedShape(s: string, p: nat)
    requires AllDigits(s) && 0 < p < |s|
    ensures var t := s[..p] + "." + s[p..];
      |t| == |s| + 1 && t[0] == s[0] && t[|t| - 1] == s[|s| - 1]
      && (forall i :: 0 <= i < |t| ==> t[i] == '.' || IsDigit(t[i]))
  {
    var t := s[..p] + "." + s[p..];
    forall i | 0 <= i < |t| ensures t[i] == '.' || IsDigit(t[i]) {
      if i < p {
        assert t[i] == s[i];
      } else if i > p {
        assert t[i] == s[i - 1];
      }
    }
  }

  /** The text of a whole exponent, with its sign, reads back as it. */
  lemma {:induction false} ExponentOfSign(e: int)
    ensures ExponentValue(SignedExponent(e)) == Some(e)
  {
    var a: nat := if e >= 0 then e else -e;
    var digits := NatToString(a);
    var tail := SignedExponent(e);
    assert tail[0] == '+' || tail[0] == '-';
    assert tail[1..] == digits;
    DecimalDigits(digits);
    NatToStringValue(a);
  }

  /** A mantissa, `e` and an exponent. */
  lemma {:induction false} UnsignedExponent(mantissa: string, tail: string, v: nat, f: int, e: int, p: int)
    requires mantissa != [] && IsDigit(mantissa[0])
    requires forall i :: 0 <= i < |mantissa| ==> mantissa[i] == '.' || IsDigit(mantissa[i])
    requires Mantissa(mantissa) == Decimal(v, f) && ExponentValue(tail) == Some(e) && p == f + e
    ensures Unsigned(mantissa + "e" + tail) == Finite(Scaled(v, p))
  {
    var t := mantissa + "e" + tail;
    var k := |mantissa|;
    assert t[k] == 'e';
    assert forall i :: 0 <= i < k ==> t[i] == mantissa[i];
    ExponentAtIs(t, k);
    assert t[..k] == mantissa && t[k + 1..] == tail;
    DecimalOfExponent(t, k, v, f, e);
    assert t != "Infinity" by {
      assert t[0] == mantissa[0];
    }
    UnsignedOfDecimal(t, v, p);
  }

  lemma {:induction false} DecimalOfExponent(u: string, k: nat, v: nat, f: int, e: int)
    requires ExponentAt(u) == k < |u|
    requires Mantissa(u[..k]) == Decimal(v, f) && ExponentValue(u[k + 1..]) == Some(e)
    ensures DecimalText(u) == Decimal(v, f + e)
  {
  }

  lemma {:induction false} UnsignedOfDecimal(u: string, v: nat, p: int)
    requires u != "Infinity" && DecimalText(u) == Decimal(v, p)
    ensures Unsigned(u) == Finite(Scaled(v, p))
  {
  }

  /** The significant digits `s` of a positive whole number `m`, and the
      number `z` of zeros after them. */
  lemma {:induction false} SignificantDigits(m: nat, s: string, z: nat)
    requires m >= 1
    requires s == DropTrailingZeros(NatToString(m)) && z == |NatToString(m)| - |s|
    ensures s != [] && AllDigits(s) && m == DigitsValue(s) * Numbers.Pow10(z)
  {
    var d := NatToString(m);
    assert AllDigits(s) by {
      forall i | 0 <= i < |s| ensures IsDigit(s[i]) {
        assert s[i] == d[i];
      }
    }
    assert d == s + Zeros(z);
    TrailingZeros(s, z);
    NatToStringValue(m);
  }

  /** A whole number `m * 10^-j` is its significant digits `s` times
      `10^(z - j)`. */
  lemma {:induction false} SignificantScaled(m: nat, s: string, z: nat, j: nat)
    requires m >= 1
    requires s == DropTrailingZeros(NatToString(m)) && z == |NatToString(m)| - |s|
    ensures s != [] && AllDigits(s) && Scaled(m, -(j as int)) == Scaled(DigitsValue(s), z - j)
  {
    SignificantDigits(m, s, z);
    ScaledShift(DigitsValue(s), z, z - j);
    assert (z - j) - z == -(j as int);
  }

  /** The places and the whole number `Places` finds: `x == m * 10^-j`. */
  lemma {:induction false} PlacesValue(x: real, left: nat) returns (j: nat, m: nat)
    requires x > 0.0 && Places(x, left).Some?
    ensures Places(x, left) == Some((j, m)) && m >= 1 && x == Scaled(m, -(j as int))
    decreases left
  {
    if x == x.Floor as real {
      j, m := 0, x.Floor as nat;
    } else {
      var i;
      i, m := PlacesValue(x * 10.0, left - 1);
      j := i + 1;
      ScaledStep(m, -(i as int));
    }
  }

  /** `String(x)` for a positive `x` is the layout of the significant digits
      of the whole number `m` with `x == m * 10^-j` that `Places` finds. */
  lemma {:induction false} PositiveStringOf(x: real, j: nat, m: nat)
    requires x > 0.0 && Places(x, MaxPlaces) == Some((j, m))
    ensures PositiveString(x) == Some(Layout(DropTrailingZeros(NatToString(m)), |NatToString(m)| - j))
  {
  }

  /** A real whose expansion ends within `MaxPlaces` places is the value
      of the layout of its significant digits; the lemma returns the
      digits and the position of the point. */
  lemma {:induction false} PositiveStringValue(x: real) returns (s: string, n: int)
    requires x > 0.0 && Places(x, MaxPlaces).Some?
    ensures s != [] && AllDigits(s) && PositiveString(x) == Some(Layout(s, n))
    ensures Scaled(DigitsValue(s), n - |s|) == x
  {
    var j, m := PlacesValue(x, MaxPlaces);
    PositiveStringOf(x, j, m);
    SignificantValue(x, j, m);
    s := DropTrailingZeros(NatToString(m));
    n := |NatToString(m)| - j;
  }

  /** The significant digits of `m` with the point moved back `j` places
      are `m * 10^-j`. */
  lemma {:induction false} SignificantValue(x: real, j: nat, m: nat)
    requires m >= 1 && x == Scaled(m, -(j as int))
    ensures var d := NatToString(m); var s := DropTrailingZeros(d);
      s != [] && AllDigits(s) && Scaled(DigitsValue(s), (|d| - j) - |s|) == x
  {
    var d := NatToString(m);
    var s := DropTrailingZeros(d);
    var z := |d| - |s|;
    SignificantScaled(m, s, z, j);
    assert (|d| - j) - |s| == z - j;
  }

  /** The text of a positive number starts and ends with a digit, has no
      base prefix and is the unsigned literal of that number. */
  lemma {:induction false} PositiveStringUnsigned(x: real)
    requires x > 0.0 && PositiveString(x).Some?
    ensures var t := PositiveString(x).value;
      t != [] && IsDigit(t[0]) && IsDigit(t[|t| - 1]) && (|t| >= 2 ==> Radix(t[1]) == 0)
      && Unsigned(t) == Finite(x)
  {
    var s, n := PositiveStringValue(x);
    ReadLayout(s, n);
  }

  /** Reading back the text of a positive number. */
  lemma {:induction false} ReadPositiveString(x: real)
    requires x > 0.0 && PositiveString(x).Some?
    ensures ReadNumber(PositiveString(x).value) == Finite(x)
  {
    PositiveStringUnsigned(x);
    ReadUnsigned(PositiveString(x).value);
  }

  /** `Number(String(x)) == x` for every number `String` renders. */
  lemma {:induction false} ReadNumberString(x: real)
    requires NumberString(x).Some?
    ensures ReadNumber(NumberString(x).value) == Finite(x)
  {
    if x == 0.0 {
      assert ReadNumber("0") == Finite(0.0) by { ReadDigits("0"); }
    } else if x < 0.0 {
      ReadNegativeString(x);
    } else {
      ReadPositiveString(x);
    }
  }

  /** The same for a negative number, whose text is a minus sign and the
      text of its magnitude. */
  lemma {:induction false} ReadNegativeString(x: real)
    requires x < 0.0 && NumberString(x).Some?
    ensures ReadNumber(NumberString(x).value) == Finite(x)
  {
    var t := PositiveString(-x).value;
    assert NumberString(x) == Some("-" + t);
    assert Unsigned(t) == Finite(-x) && t != [] && IsDigit(t[|t| - 1]) by {
      PositiveStringUnsigned(-x);
    }
    assert ReadNumber("-" + t) == Negate(Unsigned(t)) by { ReadNegated(t); }
  }

  /** A positive whole number moved any number of places is positive. */
  lemma {:induction false} ScaledPositive(m: nat, p: int)
    requires m >= 1
    ensures Scaled(m, p) > 0.0
    decreases if p >= 0 then p else -p
  {
    if p > 0 {
      ScaledPositive(m, p - 1);
    } else if p < 0 {
      ScaledPositive(m, p + 1);
    }
  }

  /** `Places` finds the places of `m * 10^-j` when `j` is within reach. */
  lemma {:induction false} PlacesOfScaled(m: nat, j: nat, left: nat)
    requires m >= 1 && j <= left
    ensures Scaled(m, -(j as int)) > 0.0
    ensures Places(Scaled(m, -(j as int)), left).Some?
    decreases j
  {
    var x := Scaled(m, -(j as int));
    ScaledPositive(m, -(j as int));
    if x != x.Floor as real {
      assert j > 0;
      ScaledStep(m, 1 - j);
      PlacesOfScaled(m, j - 1, left - 1);
    }
  }

  /** `String` renders every number with at most `MaxPlaces` decimal places,
      which is every JavaScript number, with either sign. */
  lemma {:induction false} NumberStringDefined(m: nat, j: nat)
    requires j <= MaxPlaces
    ensures NumberString(Scaled(m, -(j as int))).Some?
    ensures NumberString(-Scaled(m, -(j as int))).Some?
  {
    if m >= 1 {
      PlacesOfScaled(m, j, MaxPlaces);
    } else {
      ScaledOfNothing(j);
    }
  }

  /** Zero moved any number of places to the right is zero. */
  lemma {:induction false} ScaledOfNothing(j: nat)
    ensures Scaled(0, -(j as int)) == 0.0
    decreases j
  {
    if j > 0 {
      ScaledOfNothing(j - 1);
    }
  }
}
