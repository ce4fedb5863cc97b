/** Unsigned decimal texts: what `/^\d+$/`, `/^(\d+)(?:\.(\d+))?$/u`, BigInt and String do with them. */
module Decimals {
  import opened Lists

  predicate IsDigit(c: char) {
    '0' <= c <= '9'
  }

  predicate AllDigits(s: string) {
    forall i :: 0 <= i < |s| ==> IsDigit(s[i])
  }

  type Digits = s: string | AllDigits(s) witness ""

  function Digit(c: char): (d: nat)
    requires IsDigit(c)
    ensures d <= 9
  {
    c as int - '0' as int
  }

  function DigitChar(d: nat): (c: char)
    requires d <= 9
    ensures IsDigit(c) && Digit(c) == d
  {
    (d + '0' as int) as char
  }

  /** `BigInt(s)`; the empty text counts as zero. */
  function Val(s: Digits): nat {
    if s == "" then 0 else 10 * Val(s[..|s| - 1]) + Digit(s[|s| - 1])
  }

  /** `String(n)`. */
  function Show(n: nat): (s: Digits)
    ensures s != ""
  {
    if n < 10 then [DigitChar(n)] else Show(n / 10) + [DigitChar(n % 10)]
  }

  function Pow10(k: nat): (p: nat)
    ensures p >= 1
  {
    if k == 0 then 1 else 10 * Pow10(k - 1)
  }

  /** A printed integer reads back, and has no leading zero unless it is "0". */
  lemma {:induction false} ShowReadsBack(n: nat)
    ensures Val(Show(n)) == n
    ensures Show(n)[0] == '0' ==> n == 0
  {
    if n >= 10 {
      ShowReadsBack(n / 10);
      assert Show(n)[..|Show(n)| - 1] == Show(n / 10);
    } else {
      assert [DigitChar(n)][..0] == "";
    }
  }

  lemma {:induction false} ValConcat(a: Digits, b: Digits)
    ensures AllDigits(a + b)
    ensures Val(a + b) == Val(a) * Pow10(|b|) + Val(b)
  {
    if b == "" {
      assert a + b == a;
    } else {
      var front := b[..|b| - 1];
      ValConcat(a, front);
      assert (a + b)[..|a + b| - 1] == a + front;
      assert Val(a) * Pow10(|b|) == 10 * (Val(a) * Pow10(|front|));
    }
  }

  lemma {:induction false} ValBound(s: Digits)
    ensures Val(s) < Pow10(|s|)
  {
    if s != "" {
      ValBound(s[..|s| - 1]);
    }
  }

  lemma {:induction false} Pow10Add(a: nat, b: nat)
    ensures Pow10(a + b) == Pow10(a) * Pow10(b)
  {
    if a > 0 {
      Pow10Add(a - 1, b);
    }
  }

  /** `fraction.replace(/0+$/u, '')`. */
  function StripZeros(f: Digits): (r: Digits) {
    if f != "" && f[|f| - 1] == '0' then StripZeros(f[..|f| - 1]) else f
  }

  /** `fraction.padEnd(width, '0')`. */
  function PadZeros(f: Digits, width: nat): (r: Digits)
    decreases width - |f|
  {
    if |f| < width then PadZeros(f + "0", width) else f
  }

  lemma {:induction false} PadScales(f: Digits, width: nat)
    requires |f| <= width
    ensures |PadZeros(f, width)| == width
    ensures Val(PadZeros(f, width)) == Val(f) * Pow10(width - |f|)
    decreases width - |f|
  {
    if |f| < width {
      PadScales(f + "0", width);
      assert (f + "0")[..|f|] == f;
      assert Val(f + "0") == 10 * Val(f);
      assert Pow10(width - |f|) == 10 * Pow10(width - |f + "0"|);
      Reassociate(Val(f), Pow10(width - |f + "0"|));
    }
  }

  lemma Reassociate(a: nat, b: nat)
    ensures 10 * a * b == a * (10 * b)
  {
  }

  /** A decimal text split at its point. */
  datatype Decimal = Decimal(whole: Digits, fraction: Digits)

  predicate WellFormed(d: Decimal) {
    d.whole != ""
  }

  function PointAt(s: string): (k: nat)
    ensures k <= |s|
    ensures forall i :: 0 <= i < k ==> s[i] != '.'
    ensures k < |s| ==> s[k] == '.'
  {
    if s == "" || s[0] == '.' then 0 else 1 + PointAt(s[1..])
  }

  /** `/^(\d+)(?:\.(\d+))?$/u.exec(s)`: digits, or digits, a point and digits. */
  function ParseDecimal(s: string): (r: Option<Decimal>) {
    var k := PointAt(s);
    var whole := s[..k];
    if whole == "" || !AllDigits(whole) then None
    else if k == |s| then Some(Decimal(whole, ""))
    else if k + 1 < |s| && AllDigits(s[k + 1..]) then Some(Decimal(whole, s[k + 1..]))
    else None
  }

  function DecimalText(d: Decimal): string {
    d.whole + (if d.fraction == "" then "" else "." + d.fraction)
  }

  /** The parser accepts exactly the texts of well-formed decimals, and splits them correctly. */
  lemma ParseDecimalExact(s: string, d: Decimal)
    ensures ParseDecimal(s) == Some(d) <==> WellFormed(d) && DecimalText(d) == s
  {
    var k := PointAt(s);
    if ParseDecimal(s) == Some(d) {
      assert s == s[..k] + s[k..];
    }
    if WellFormed(d) && DecimalText(d) == s {
      assert forall i :: 0 <= i < |d.whole| ==> s[i] == d.whole[i];
      if d.fraction == "" {
        assert k == |s|;
      } else {
        assert s[|d.whole|] == '.';
        assert k == |d.whole|;
        assert s[k + 1..] == d.fraction;
      }
      assert s[..k] == d.whole;
    }
  }

  /** The value of the digits behind a point, by place value. */
  function Fraction(f: Digits): (r: real)
    ensures 0.0 <= r < 1.0
  {
    if f == "" then 0.0 else (Digit(f[0]) as real + Fraction(f[1..])) / 10.0
  }

  /** The exact number a decimal stands for. */
  function Number(d: Decimal): real {
    Val(d.whole) as real + Fraction(d.fraction)
  }

  lemma ValHead(f: Digits)
    requires f != ""
    ensures Val(f) == Digit(f[0]) * Pow10(|f| - 1) + Val(f[1..])
  {
    var head := [f[0]];
    ValConcat(head, f[1..]);
    assert head + f[1..] == f && head[..0] == "";
    assert Val(head) == Digit(f[0]);
  }

  ghost predicate Scaled(x: real, p: nat, v: nat) {
    x * p as real == v as real
  }

  lemma {:induction false} FractionScaled(f: Digits)
    ensures Scaled(Fraction(f), Pow10(|f|), Val(f))
  {
    if f != "" {
      FractionScaled(f[1..]);
      ValHead(f);
      PlaceValue(Digit(f[0]), Fraction(f[1..]), Pow10(|f| - 1), Val(f[1..]));
    }
  }

  lemma PlaceValue(d: nat, x: real, p: nat, v: nat)
    requires Scaled(x, p, v)
    ensures Scaled((d as real + x) / 10.0, 10 * p, d * p + v)
  {
    assert (10 * p) as real == 10.0 * p as real;
    assert (d * p) as real == d as real * p as real;
  }

  /** The number times a power of ten is the integer spelled by all its digits. */
  lemma NumberScaled(d: Decimal)
    ensures AllDigits(d.whole + d.fraction)
    ensures Scaled(Number(d), Pow10(|d.fraction|), Val(d.whole + d.fraction))
  {
    ValConcat(d.whole, d.fraction);
    FractionScaled(d.fraction);
    Distribute(Val(d.whole), Fraction(d.fraction), Pow10(|d.fraction|), Val(d.fraction));
  }

  lemma Distribute(w: nat, x: real, p: nat, v: nat)
    requires Scaled(x, p, v)
    ensures Scaled(w as real + x, p, w * p + v)
  {
    assert (w * p) as real == w as real * p as real;
  }

  lemma {:induction false} TrailingZero(f: Digits)
    ensures Fraction(f + "0") == Fraction(f)
  {
    if f == "" {
      assert (f + "0")[1..] == "";
    } else {
      TrailingZero(f[1..]);
      assert (f + "0")[1..] == f[1..] + "0";
    }
  }

  /** Dropping the zeros at the end of a fraction does not change its value; nothing else is dropped. */
  lemma {:induction false} StripKeepsFraction(f: Digits)
    ensures Fraction(StripZeros(f)) == Fraction(f)
    ensures StripZeros(f) == "" <==> Fraction(f) == 0.0
    ensures StripZeros(f) != "" ==> StripZeros(f)[|StripZeros(f)| - 1] != '0'
  {
    if f != "" && f[|f| - 1] == '0' {
      var front := f[..|f| - 1];
      assert f == front + "0";
      TrailingZero(front);
      StripKeepsFraction(front);
    } else if f != "" {
      LastDigitCounts(f);
    }
  }

  lemma {:induction false} LastDigitCounts(f: Digits)
    requires f != "" && f[|f| - 1] != '0'
    ensures Fraction(f) > 0.0
  {
    if |f| > 1 {
      LastDigitCounts(f[1..]);
    }
  }
}
