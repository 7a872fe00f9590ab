/** The numeric conversions the forms rely on: `parseInt` and `parseFloat`
    on the ASCII subset (leading white space, an optional sign, decimal
    digits and, for `parseFloat`, one decimal point), the falsy-to-zero idiom
    `parseFloat(x) || 0`, and comparisons that are false on NaN. */
module Numbers {
  import opened Wrappers
  import Text
  import StringOrder

  /** A number obtained from text: finite, or NaN when nothing parsed. */
  datatype Number = Finite(value: real) | NaN {
    /** `n || 0` */
    function OrZero(): real
    {
      if Finite? then value else 0.0
    }

    /** `n <= r`, which is false for NaN. */
    predicate AtMost(r: real)
    {
      Finite? && value <= r
    }

    /** `n > r`, which is false for NaN. */
    predicate Above(r: real)
    {
      Finite? && value > r
    }
  }

  predicate IsDigit(c: char)
  {
    '0' <= c <= '9'
  }

  predicate AllDigits(s: string)
  {
    forall i :: 0 <= i < |s| ==> IsDigit(s[i])
  }

  function DigitValue(c: char): nat
    requires IsDigit(c)
  {
    c as int - '0' as int
  }

  function Pow10(n: nat): (p: nat)
    ensures p >= 1
  {
    if n == 0 then 1 else 10 * Pow10(n - 1)
  }

  /** The value of a decimal numeral, most significant digit first: ten
      times the value of all but the last digit, plus the last digit. */
  function DigitsValue(s: string): nat
    requires AllDigits(s)
  {
    if s == [] then 0
    else 10 * DigitsValue(s[..|s| - 1]) + DigitValue(s[|s| - 1])
  }

  /** A numeral of `n` digits is below `10^n`. */
  lemma {:induction false} DigitsBound(s: string)
    requires AllDigits(s)
    ensures DigitsValue(s) < Pow10(|s|)
    decreases |s|
  {
    if s != [] {
      DigitsBound(s[..|s| - 1]);
    }
  }

  /** The longest run of digits at the start of `s`. */
  function DigitPrefix(s: string): (r: string)
    ensures Text.IsPrefix(r, s) && AllDigits(r)
    ensures |r| < |s| ==> !IsDigit(s[|r|])
  {
    if s == [] || !IsDigit(s[0]) then []
    else [s[0]] + DigitPrefix(s[1..])
  }

  lemma DigitPrefixOfDigits(s: string)
    requires AllDigits(s)
    ensures DigitPrefix(s) == s
  {
  }

  /** An optional leading sign: whether it was `-`, and what follows it. */
  function SplitSign(s: string): (bool, string)
  {
    if s != [] && s[0] == '-' then (true, s[1..])
    else if s != [] && s[0] == '+' then (false, s[1..])
    else (false, s)
  }

  /** `parseInt(s)` (radix 10): `None` stands for NaN. */
  function ParseInt(s: string): (r: Option<int>)
    ensures r.None? <==> DigitPrefix(SplitSign(Text.TrimStart(s)).1) == []
  {
    var (negative, rest) := SplitSign(Text.TrimStart(s));
    var digits := DigitPrefix(rest);
    var magnitude: int := if digits == [] then 0 else DigitsValue(digits);
    if digits == [] then None
    else Some(if negative then -magnitude else magnitude)
  }

  /** The value of the digits after a decimal point: the first digit in
      tenths, the next in hundredths, and so on. */
  function FractionValue(f: string): real
    requires AllDigits(f)
  {
    if f == [] then 0.0 else (DigitValue(f[0]) as real + FractionValue(f[1..])) / 10.0
  }

  /** The value of the numeral `w.f`. */
  function DecimalValue(w: string, f: string): real
    requires AllDigits(w) && AllDigits(f)
  {
    DigitsValue(w) as real + FractionValue(f)
  }

  /** The unsigned numeral at the start of `s`: digits, optionally a point
      and more digits; `None` when neither part has a digit. */
  function UnsignedDecimal(s: string): (r: Option<real>)
    ensures s == [] ==> r.None?
  {
    var whole := DigitPrefix(s);
    var after := s[|whole|..];
    var fraction := if after != [] && after[0] == '.' then DigitPrefix(after[1..]) else [];
    if whole == [] && fraction == [] then None
    else Some(DecimalValue(whole, fraction))
  }

  /** `parseFloat(s)`, without exponents and without `Infinity`. */
  function ParseFloat(s: string): (r: Number)
    ensures s == [] ==> r.NaN?
  {
    var (negative, rest) := SplitSign(Text.TrimStart(s));
    match UnsignedDecimal(rest)
    case None => NaN
    case Some(magnitude) => Finite(if negative then -magnitude else magnitude)
  }

  /** A plain numeral parses to its value under `parseInt`. */
  lemma ParseIntDigits(s: string)
    requires s != [] && AllDigits(s)
    ensures ParseInt(s) == Some(DigitsValue(s) as int)
  {
    assert !IsDigit(s[0]) || !Text.IsSpace(s[0]);
    assert Text.TrimStart(s) == s;
    assert SplitSign(s) == (false, s);
    DigitPrefixOfDigits(s);
  }

  /** A plain numeral reads as its value, with no fraction. */
  lemma UnsignedDigits(s: string)
    requires s != [] && AllDigits(s)
    ensures UnsignedDecimal(s) == Some(DigitsValue(s) as real)
  {
    DigitPrefixOfDigits(s);
    assert s[|s|..] == [];
  }

  /** A plain numeral parses to its value under `parseFloat`. */
  lemma ParseFloatDigits(s: string)
    requires s != [] && AllDigits(s)
    ensures ParseFloat(s) == Finite(DigitsValue(s) as real)
  {
    assert Text.TrimStart(s) == s;
    assert SplitSign(s) == (false, s);
    UnsignedDigits(s);
  }

  /** The digit run at the start of a numeral followed by a non-digit is the
      numeral. */
  lemma {:induction false} DigitPrefixStops(w: string, tail: string)
    requires AllDigits(w) && (tail == [] || !IsDigit(tail[0]))
    ensures DigitPrefix(w + tail) == w
    decreases |w|
  {
    if w != [] {
      assert (w + tail)[0] == w[0] && (w + tail)[1..] == w[1..] + tail;
      DigitPrefixStops(w[1..], tail);
    } else {
      assert w + tail == tail;
    }
  }

  /** After white space and a sign, `parseFloat` reads the unsigned
      numeral that follows and applies the sign. */
  lemma ParseFloatSigned(pad: string, sign: string, u: string)
    requires Text.IsBlank(pad) && (sign == "" || sign == "-" || sign == "+")
    requires u != [] && (IsDigit(u[0]) || u[0] == '.')
    ensures ParseFloat(pad + sign + u) == match UnsignedDecimal(u)
      case None => NaN
      case Some(m) => Finite(if sign == "-" then -m else m)
  {
    SignedStart(pad, sign, u);
    SplitWrittenSign(sign, u);
  }

  /** White space in front of a sign or a numeral is all `trimStart`
      removes. */
  lemma SignedStart(pad: string, sign: string, u: string)
    requires Text.IsBlank(pad) && (sign == "" || sign == "-" || sign == "+")
    requires u != [] && (IsDigit(u[0]) || u[0] == '.')
    ensures Text.TrimStart(pad + sign + u) == sign + u
  {
    var rest := sign + u;
    assert pad + sign + u == pad + rest;
    assert rest[0] == (if sign == "" then u[0] else sign[0]);
    Text.TrimStartBlankPrefix(pad, rest);
  }

  /** A written sign, or none, in front of a numeral. */
  lemma SplitWrittenSign(sign: string, u: string)
    requires sign == "" || sign == "-" || sign == "+"
    requires u != [] && (IsDigit(u[0]) || u[0] == '.')
    ensures SplitSign(sign + u) == (sign == "-", u)
  {
    var rest := sign + u;
    assert rest[|sign|..] == u;
    if sign == "" {
      assert rest == u;
    }
  }

  /** Whole digits, a point and fraction digits, then a non-digit. */
  lemma UnsignedFraction(w: string, f: string, tail: string)
    requires AllDigits(w) && AllDigits(f) && (w != [] || f != [])
    requires tail == [] || !IsDigit(tail[0])
    ensures UnsignedDecimal(w + "." + f + tail)
      == Some(DecimalValue(w, f))
  {
    var after := "." + f + tail;
    var u := w + after;
    assert w + "." + f + tail == u;
    DigitPrefixStops(w, after);
    PointThenDigits(f, tail);
    assert u[|w|..] == after;
    UnsignedWithPoint(u, w, f);
  }

  /** The fraction digits behind a point. */
  lemma PointThenDigits(f: string, tail: string)
    requires AllDigits(f) && (tail == [] || !IsDigit(tail[0]))
    ensures ("." + f + tail) != [] && ("." + f + tail)[0] == '.' && DigitPrefix(("." + f + tail)[1..]) == f
  {
    var ft := f + tail;
    assert ("." + f + tail)[1..] == ft;
    DigitPrefixStops(f, tail);
  }

  /** `UnsignedDecimal` of a numeral whose whole part is `w` and whose point
      is followed by the digits `f`. */
  lemma UnsignedWithPoint(u: string, w: string, f: string)
    requires DigitPrefix(u) == w && |w| < |u| && u[|w|] == '.' && DigitPrefix(u[|w| + 1..]) == f
    requires w != [] || f != []
    ensures UnsignedDecimal(u) == Some(DecimalValue(w, f))
  {
    var after := u[|w|..];
    assert after[1..] == u[|w| + 1..];
  }

  /** Whole digits, then neither a digit nor a point. */
  lemma UnsignedWhole(w: string, tail: string)
    requires w != [] && AllDigits(w)
    requires tail == [] || (!IsDigit(tail[0]) && tail[0] != '.')
    ensures UnsignedDecimal(w + tail) == Some(DigitsValue(w) as real)
  {
    var u := w + tail;
    DigitPrefixStops(w, tail);
    assert DigitPrefix(u) == w;
    assert u[|w|..] == tail;
  }

  /** A decimal after optional white space and an optional sign: whole
      digits `w`, a point and fraction digits `f` (at least one of the two
      non-empty), then anything that does not continue the digits. It
      parses to `w.f` with the sign applied. */
  lemma ParseFloatDecimal(pad: string, sign: string, w: string, f: string, tail: string)
    requires Text.IsBlank(pad) && (sign == "" || sign == "-" || sign == "+")
    requires AllDigits(w) && AllDigits(f) && (w != [] || f != [])
    requires tail == [] || !IsDigit(tail[0])
    ensures var m := DecimalValue(w, f);
      ParseFloat(pad + sign + (w + "." + f + tail)) == Finite(if sign == "-" then -m else m)
  {
    var u := w + "." + f + tail;
    assert u[0] == (if w != [] then w[0] else '.');
    UnsignedFraction(w, f, tail);
    ParseFloatSigned(pad, sign, u);
  }

  /** A whole number after optional white space and an optional sign, then
      anything that neither continues the digits nor starts a fraction,
      parses to its value with the sign applied. */
  lemma ParseFloatWhole(pad: string, sign: string, w: string, tail: string)
    requires Text.IsBlank(pad) && (sign == "" || sign == "-" || sign == "+")
    requires w != [] && AllDigits(w)
    requires tail == [] || (!IsDigit(tail[0]) && tail[0] != '.')
    ensures ParseFloat(pad + sign + (w + tail))
      == Finite(if sign == "-" then -(DigitsValue(w) as real) else DigitsValue(w) as real)
  {
    var u := w + tail;
    assert u[0] == w[0];
    UnsignedWhole(w, tail);
    ParseFloatSigned(pad, sign, u);
  }

  /** A decimal with a fraction: `parseFloat("2.5")` is 2.5. */
  lemma HalfAmount()
    ensures ParseFloat("2.5") == Finite(2.5)
  {
    assert "" + "" + ("2" + "." + "5" + "") == "2.5";
    assert "2"[..0] == "" && "5"[..0] == "";
    assert DigitsValue("2") == 2 && DigitsValue("5") == 5 && Pow10(1) == 10;
    ParseFloatDecimal("", "", "2", "5", "");
  }

  /** `parseFloat` gives NaN exactly when, after the white space and the
      sign, the text starts neither with a digit nor with a point followed
      by a digit. */
  lemma ParseFloatNaN(s: string)
    ensures var rest := SplitSign(Text.TrimStart(s)).1;
      ParseFloat(s).NaN? <==>
        !(rest != [] && IsDigit(rest[0])) && !(|rest| >= 2 && rest[0] == '.' && IsDigit(rest[1]))
  {
    var rest := SplitSign(Text.TrimStart(s)).1;
    var whole := DigitPrefix(rest);
    if rest != [] && IsDigit(rest[0]) {
      assert whole != [];
    } else {
      assert whole == [];
      if |rest| >= 2 && rest[0] == '.' && IsDigit(rest[1]) {
        assert DigitPrefix(rest[1..]) != [];
      }
    }
  }

  /** Equal-length numerals compare as strings exactly as their values
      compare as numbers. */
  lemma {:induction false} DigitsOrder(a: string, b: string)
    requires AllDigits(a) && AllDigits(b) && |a| == |b|
    ensures DigitsValue(a) < DigitsValue(b) <==> StringOrder.Lt(a, b)
    ensures DigitsValue(a) == DigitsValue(b) <==> a == b
    decreases |a|
  {
    if a != [] {
      var n := |a| - 1;
      var a', b' := a[..n], b[..n];
      DigitsOrder(a', b');
      assert a == a' + [a[n]] && b == b' + [b[n]];
      StringOrder.LtConcat(a', [a[n]], b', [b[n]]);
      assert StringOrder.Lt([a[n]], [b[n]]) <==> a[n] < b[n];
    }
  }

  // ---- rendering numerals

  function DigitChar(n: nat): (c: char)
    requires n < 10
    ensures IsDigit(c) && DigitValue(c) == n
  {
    ('0' as int + n) as char
  }

  /** `n` written with exactly `w` digits, zero-padded on the left. */
  function Digits(n: nat, w: nat): (s: string)
    ensures |s| == w && AllDigits(s)
  {
    if w == 0 then [] else Digits(n / 10, w - 1) + [DigitChar(n % 10)]
  }

  /** Appending a digit multiplies the value by ten and adds the digit. */
  lemma DigitsValueSnoc(s: string, c: char)
    requires AllDigits(s) && IsDigit(c)
    ensures AllDigits(s + [c])
    ensures DigitsValue(s + [c]) == 10 * DigitsValue(s) + DigitValue(c)
  {
    assert (s + [c])[..|s|] == s;
  }

  /** Rendering a number that fits in `w` digits and reading it back gives
      the number. */
  lemma {:induction false} ValueOfDigits(n: nat, w: nat)
    requires n < Pow10(w)
    ensures DigitsValue(Digits(n, w)) == n
    decreases w
  {
    if w > 0 {
      ValueOfDigits(n / 10, w - 1);
      DigitsValueSnoc(Digits(n / 10, w - 1), DigitChar(n % 10));
    }
  }

  /** Reading a numeral and rendering it at its own width gives it back. */
  lemma {:induction false} DigitsOfValue(s: string)
    requires AllDigits(s)
    ensures Digits(DigitsValue(s), |s|) == s
    decreases |s|
  {
    if s != [] {
      var init, last := s[..|s| - 1], s[|s| - 1];
      assert s == init + [last];
      DigitsValueSnoc(init, last);
      DigitsOfValue(init);
    }
  }

  /** `n.toString()` for a natural number: its decimal numeral without
      leading zeros. */
  function NatToString(n: nat): (s: string)
    ensures s != [] && AllDigits(s)
    ensures |s| > 1 ==> s[0] != '0'
  {
    if n < 10 then [DigitChar(n)]
    else
      var init := NatToString(n / 10);
      assert (init + [DigitChar(n % 10)])[0] == init[0];
      init + [DigitChar(n % 10)]
  }

  /** The numeral `n.toString()` has the value `n`. */
  lemma {:induction false} NatToStringDigits(n: nat)
    ensures DigitsValue(NatToString(n)) == n
    decreases n
  {
    var s := NatToString(n);
    if n >= 10 {
      NatToStringDigits(n / 10);
      DigitsValueSnoc(NatToString(n / 10), DigitChar(n % 10));
    } else {
      assert s[..0] == [];
    }
  }

  /** `parseInt(n.toString()) == n`. */
  lemma NatToStringValue(n: nat)
    ensures ParseInt(NatToString(n)) == Some(n)
  {
    NatToStringDigits(n);
    ParseIntDigits(NatToString(n));
  }

  /** `k.toString()` for an integer: a minus sign before negative values. */
  function IntToString(k: int): (s: string)
    ensures s != []
  {
    if k >= 0 then NatToString(k) else "-" + NatToString(-k)
  }

  /** `parseInt(k.toString()) == k`: the label of a year reads back as the
      year. */
  lemma IntToStringValue(k: int)
    ensures ParseInt(IntToString(k)) == Some(k)
  {
    if k >= 0 {
      assert IntToString(k) == NatToString(k);
      NatToStringValue(k);
    } else {
      var digits := NatToString(-k);
      assert IntToString(k) == "-" + digits;
      NatToStringDigits(-k);
      ParseIntNegative(digits);
    }
  }

  /** A minus sign before a plain numeral parses to the negated value. */
  lemma ParseIntNegative(digits: string)
    requires digits != [] && AllDigits(digits)
    ensures ParseInt("-" + digits) == Some(-(DigitsValue(digits) as int))
  {
    var s := "-" + digits;
    assert s[0] == '-' && s[1..] == digits;
    assert Text.TrimStart(s) == s;
    assert SplitSign(s) == (true, digits);
    DigitPrefixOfDigits(digits);
  }
}
