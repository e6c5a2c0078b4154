/**
 * Python's `int(text)`, `float(text)`, `str(int)` and `str(float)` on plain
 * decimal literals. A float is kept as an exact decimal `mant / 10^exp`, so
 * the model has no binary rounding; `Normal` floats are the unique spelling
 * of each value, which makes `==` on them Python's numeric equality.
 */
module Numbers {
  import opened Wrappers
  import opened Text

  function Pow10(n: nat): (r: nat)
    ensures r >= 1
  {
    if n == 0 then 1 else 10 * Pow10(n - 1)
  }

  function DigitVal(c: char): nat
    requires IsDigit(c)
  {
    c as int - '0' as int
  }

  function DigitChar(d: nat): (c: char)
    requires d < 10
    ensures IsDigit(c) && DigitVal(c) == d
  {
    ('0' as int + d) as char
  }

  /** The number a string of decimal digits spells. */
  function DigitsValue(s: string): nat
    requires AllDigits(s)
  {
    if s == [] then 0 else 10 * DigitsValue(s[..|s| - 1]) + DigitVal(s[|s| - 1])
  }

  /** The decimal spelling of `n`, without leading zeros. */
  function NatDigits(n: nat): (s: string)
    ensures s != [] && AllDigits(s)
    ensures DigitsValue(s) == n
    ensures s[0] == '0' ==> n == 0
    ensures |s| == 1 ==> n < 10
  {
    if n < 10 then [DigitChar(n)]
    else
      var init := NatDigits(n / 10);
      var s := init + [DigitChar(n % 10)];
      assert s[..|s| - 1] == init;
      s
  }

  lemma AllDigitsConcat(a: string, b: string)
    requires AllDigits(a) && AllDigits(b)
    ensures AllDigits(a + b)
  {
    forall i | 0 <= i < |a + b| ensures IsDigit((a + b)[i]) {
      if i < |a| { assert (a + b)[i] == a[i]; } else { assert (a + b)[i] == b[i - |a|]; }
    }
  }

  /** Digits written after other digits shift them left. */
  lemma {:induction false} DigitsValueConcat(a: string, b: string)
    requires AllDigits(a) && AllDigits(b)
    ensures AllDigits(a + b)
    ensures DigitsValue(a + b) == DigitsValue(a) * Pow10(|b|) + DigitsValue(b)
  {
    AllDigitsConcat(a, b);
    if b == [] {
      assert a + b == a;
    } else {
      var b' := b[..|b| - 1];
      var last := b[|b| - 1];
      assert (a + b)[..|a + b| - 1] == a + b';
      assert (a + b)[|a + b| - 1] == last;
      DigitsValueConcat(a, b');
      var y := DigitsValue(a + b');
      assert DigitsValue(a + b) == 10 * y + DigitVal(last);
      assert DigitsValue(b) == 10 * DigitsValue(b') + DigitVal(last);
      assert Pow10(|b|) == 10 * Pow10(|b'|);
      ShiftTen(DigitsValue(a), Pow10(|b'|));
    }
  }

  lemma ShiftTen(x: int, p: int)
    ensures x * (10 * p) == 10 * (x * p)
  {
  }

  function Zeros(n: nat): (s: string)
    ensures |s| == n && AllDigits(s)
    ensures forall i :: 0 <= i < n ==> s[i] == '0'
  {
    if n == 0 then [] else Zeros(n - 1) + ['0']
  }

  /** Leading zeros do not change the value. */
  lemma {:induction false} ZerosValue(n: nat)
    ensures DigitsValue(Zeros(n)) == 0
  {
    if n > 0 {
      assert Zeros(n)[..n - 1] == Zeros(n - 1);
      ZerosValue(n - 1);
    }
  }

  /** Splits an optional leading sign off a literal: (negative?, rest). */
  function SignOf(t: string): (r: (bool, string))
    ensures |r.1| <= |t|
  {
    if t != [] && t[0] == '-' then (true, t[1..])
    else if t != [] && t[0] == '+' then (false, t[1..])
    else (false, t)
  }

  function Signed(neg: bool, n: nat): int {
    if neg then -(n as int) else n
  }

  /**
   * `int(text)`: surrounding whitespace, an optional sign and at least one
   * decimal digit. None stands for the ValueError.
   */
  function ParseInt(text: string): (r: Option<int>)
  {
    var (neg, body) := SignOf(Strip(text));
    if body != [] && AllDigits(body) then Some(Signed(neg, DigitsValue(body))) else None
  }

  /** `int()` refuses every text with a decimal point, so the dot rule never sends an int literal to `float()`. */
  lemma ParseIntRejectsDot(text: string)
    requires '.' in text
    ensures ParseInt(text) == None
  {
    StripKeeps(text, '.');
    var (neg, body) := SignOf(Strip(text));
    assert '.' in body;
  }

  /** `str(i)` */
  function RenderInt(i: int): (s: string)
    ensures s != [] && '.' !in s
    ensures !IsSpace(s[0]) && !IsSpace(s[|s| - 1])
  {
    if i < 0 then "-" + NatDigits(-i) else NatDigits(i)
  }

  /** `int(str(i)) == i` */
  lemma ParseRenderInt(i: int)
    ensures ParseInt(RenderInt(i)) == Some(i)
  {
    var s := RenderInt(i);
    StripNoSpace(s);
    if i < 0 {
      assert SignOf(s) == (true, NatDigits(-i));
    } else {
      assert SignOf(s) == (false, NatDigits(i));
    }
  }

  /** The exact decimal `mant / 10^exp`. */
  datatype Float = Float(mant: int, exp: nat) {
    /** The shortest spelling: no trailing zero after the decimal point. */
    predicate Normal() {
      exp == 0 || mant % 10 != 0
    }
  }

  /** Drops trailing zero digits of the fraction, keeping the value. */
  function Normalize(mant: int, exp: nat): (f: Float)
    ensures f.Normal()
    ensures f.exp <= exp
    ensures f.mant * Pow10(exp - f.exp) == mant
    decreases exp
  {
    if exp > 0 && mant % 10 == 0 then
      var f := Normalize(mant / 10, exp - 1);
      assert Pow10(exp - f.exp) == 10 * Pow10(exp - 1 - f.exp);
      f
    else Float(mant, exp)
  }

  lemma {:induction false} PowAdd(a: nat, b: nat)
    ensures Pow10(a + b) == Pow10(a) * Pow10(b)
  {
    if b > 0 {
      PowAdd(a, b - 1);
      assert Pow10(a + b) == 10 * Pow10(a + b - 1);
    }
  }

  /** A normal float is its own normal form. */
  lemma NormalizeNormal(f: Float)
    requires f.Normal()
    ensures Normalize(f.mant, f.exp) == f
  {
  }

  /**
   * `float(text)` on a literal with exactly one decimal point or none:
   * optional sign, digits on either side, at least one digit in all.
   */
  function ParseFloat(text: string): (r: Option<Float>)
    ensures r.Some? ==> r.value.Normal()
  {
    var (neg, body) := SignOf(Strip(text));
    ParseDecimal(neg, body)
  }

  /** The unsigned part of a float literal, `digits [. digits]`, negated when `neg`. */
  function ParseDecimal(neg: bool, body: string): (r: Option<Float>)
    ensures r.Some? ==> r.value.Normal()
  {
    var (whole, rest) := SplitFirst(body, '.');
    var frac := rest.GetOr([]);
    if AllDigits(whole) && AllDigits(frac) && '.' !in frac && |whole| + |frac| > 0 then
      DigitsValueConcat(whole, frac);
      Some(Normalize(Signed(neg, DigitsValue(whole + frac)), |frac|))
    else None
  }

  /** The size of a float, without its sign. */
  function Magnitude(f: Float): nat {
    if f.mant < 0 then -f.mant else f.mant
  }

  /** How many digits `str(f)` writes after the point: a whole number gets one, a 0. */
  function FracLen(f: Float): nat {
    if f.exp == 0 then 1 else f.exp
  }

  /** The digits `str(f)` writes, before the point is put in. */
  function DigitRun(f: Float): string {
    var digits := NatDigits(Magnitude(f));
    if f.exp == 0 then digits + "0" else PadLeft(digits, f.exp + 1)
  }

  /** The digit run holds the magnitude, scaled by ten for the ".0" of a whole number. */
  lemma DigitRunValue(f: Float)
    ensures AllDigits(DigitRun(f)) && |DigitRun(f)| > FracLen(f)
    ensures DigitsValue(DigitRun(f)) == if f.exp == 0 then 10 * Magnitude(f) else Magnitude(f)
  {
    if f.exp == 0 {
      AppendZero(NatDigits(Magnitude(f)));
    }
  }

  /** Cutting a digit string in two and joining the halves gives it back. */
  lemma SplitDigits(s: string, i: nat)
    requires AllDigits(s) && i <= |s|
    ensures AllDigits(s[..i]) && AllDigits(s[i..])
    ensures s[..i] + s[i..] == s
  {
    assert forall j :: 0 <= j < i ==> s[..i][j] == s[j];
    assert forall j :: 0 <= j < |s| - i ==> s[i..][j] == s[i + j];
  }

  /** A trailing zero digit multiplies by ten. */
  lemma AppendZero(digits: string)
    requires AllDigits(digits)
    ensures AllDigits(digits + "0") && DigitsValue(digits + "0") == 10 * DigitsValue(digits)
  {
    var s := digits + "0";
    assert s[..|s| - 1] == digits;
    assert AllDigits(s) by { AllDigitsConcat(digits, "0"); }
  }

  /** Leading zeros up to `width` digits. */
  function PadLeft(digits: string, width: nat): (r: string)
    requires AllDigits(digits)
    ensures AllDigits(r) && |r| >= width && |r| >= |digits|
    ensures DigitsValue(r) == DigitsValue(digits)
  {
    if |digits| >= width then digits
    else
      var zeros := Zeros(width - |digits|);
      DigitsValueConcat(zeros, digits);
      ZerosValue(width - |digits|);
      zeros + digits
  }

  /** `str(f)` in positional notation: at least one digit on each side of the point. */
  function RenderFloat(f: Float): string {
    var run := DigitRun(f);
    var cut := if |run| >= FracLen(f) then |run| - FracLen(f) else 0;
    (if f.mant < 0 then "-" else "") + (run[..cut] + "." + run[cut..])
  }

  /** `str(float)` always writes a decimal point. */
  lemma RenderFloatHasPoint(f: Float)
    ensures '.' in RenderFloat(f)
  {
    var run := DigitRun(f);
    var cut := if |run| >= FracLen(f) then |run| - FracLen(f) else 0;
    var body := run[..cut] + "." + run[cut..];
    assert body[cut] == '.';
    var sign: string := if f.mant < 0 then "-" else "";
    assert RenderFloat(f) == sign + body;
    assert (sign + body)[|sign| + cut] == '.';
  }

  /** `float` reads back a signed literal with digits on both sides of the point. */
  lemma ParseLiteral(neg: bool, whole: string, frac: string)
    requires whole != [] && frac != [] && AllDigits(whole) && AllDigits(frac)
    ensures AllDigits(whole + frac)
    ensures ParseFloat((if neg then "-" else "") + (whole + "." + frac))
         == Some(Normalize(Signed(neg, DigitsValue(whole + frac)), |frac|))
  {
    var body := whole + "." + frac;
    assert body[0] == whole[0] && body[|body| - 1] == frac[|frac| - 1];
    ParseSigned(neg, body);
    ParseDecimalPoint(neg, whole, frac);
  }

  /** The sign of a literal that has no surrounding whitespace. */
  lemma ParseSigned(neg: bool, body: string)
    requires body != [] && IsDigit(body[0]) && !IsSpace(body[|body| - 1])
    ensures ParseFloat((if neg then "-" else "") + body) == ParseDecimal(neg, body)
  {
    var s := (if neg then "-" else "") + body;
    assert s[0] == (if neg then '-' else body[0]);
    assert s[|s| - 1] == body[|body| - 1];
    StripNoSpace(s);
    if neg {
      assert s[0] == '-' && s[1..] == body;
      assert SignOf(s) == (true, body);
    } else {
      assert s == body && s[0] != '-' && s[0] != '+';
      assert SignOf(s) == (false, body);
    }
  }

  lemma ParseDecimalPoint(neg: bool, whole: string, frac: string)
    requires whole != [] && AllDigits(whole) && AllDigits(frac)
    ensures AllDigits(whole + frac)
    ensures ParseDecimal(neg, whole + "." + frac) == Some(Normalize(Signed(neg, DigitsValue(whole + frac)), |frac|))
  {
    DigitsValueConcat(whole, frac);
    assert '.' !in whole && '.' !in frac;
    SplitAt(whole, frac, '.');
  }

  /** `float(str(f)) == f` for every float in positional range. */
  lemma ParseRenderFloat(f: Float)
    requires f.Normal()
    ensures '.' in RenderFloat(f)
    ensures ParseFloat(RenderFloat(f)) == Some(f)
  {
    var run := DigitRun(f);
    DigitRunValue(f);
    var cut := |run| - FracLen(f);
    SplitDigits(run, cut);
    var whole, frac := run[..cut], run[cut..];
    ParseLiteral(f.mant < 0, whole, frac);
    var lit := RenderFloat(f);
    assert lit == (if f.mant < 0 then "-" else "") + (whole + "." + frac);
    PointIn(if f.mant < 0 then "-" else "", whole, frac);
    assert ParseFloat(lit) == Some(Normalize(Signed(f.mant < 0, DigitsValue(run)), FracLen(f)));
    if f.exp == 0 {
      assert Signed(f.mant < 0, DigitsValue(run)) == 10 * f.mant;
      NormalizeTenth(f.mant);
    } else {
      assert Signed(f.mant < 0, DigitsValue(run)) == f.mant;
      NormalizeNormal(f);
    }
  }

  lemma PointIn(sign: string, whole: string, frac: string)
    ensures '.' in sign + (whole + "." + frac)
  {
    assert (sign + (whole + "." + frac))[|sign| + |whole|] == '.';
  }

  /** The ".0" that `str` writes after a whole number is dropped again. */
  lemma NormalizeTenth(m: int)
    ensures Normalize(10 * m, 1) == Float(m, 0)
  {
    assert (10 * m) % 10 == 0;
    assert (10 * m) / 10 == m;
  }

  /** `int(text)` never accepts text with a decimal point; `float(text)` accepts any int literal. */
  lemma ParseIntThenFloat(text: string)
    requires ParseInt(text).Some?
    ensures ParseFloat(text) == Some(Float(ParseInt(text).value, 0))
  {
    var (neg, body) := SignOf(Strip(text));
    assert SplitFirst(body, '.') == (body, None);
    assert body + [] == body;
  }

  /** A digit string holds no other character. */
  lemma DigitsOnly(s: string, c: char)
    requires AllDigits(s) && !IsDigit(c)
    ensures c !in s
  {
  }

  /** `str()` of an int is made of a minus sign and digits. */
  lemma RenderIntChars(i: int, c: char)
    requires !IsDigit(c) && c != '-'
    ensures c !in RenderInt(i)
  {
    if i < 0 {
      DigitsOnly(NatDigits(-i), c);
    } else {
      DigitsOnly(NatDigits(i), c);
    }
  }

  /** A character `str()` writes in a number: a digit, a minus sign or a point. */
  predicate NumberChar(c: char) {
    IsDigit(c) || c == '-' || c == '.'
  }

  /** A signed literal with digits on both sides of the point. */
  lemma LiteralShape(sign: string, whole: string, frac: string)
    requires sign == "" || sign == "-"
    requires AllDigits(whole) && AllDigits(frac) && whole != [] && frac != []
    ensures var lit := sign + (whole + "." + frac);
      (forall i :: 0 <= i < |lit| ==> NumberChar(lit[i]))
      && (IsDigit(lit[0]) || lit[0] == '-') && IsDigit(lit[|lit| - 1])
  {
    var lit := sign + (whole + "." + frac);
    assert lit[|lit| - 1] == frac[|frac| - 1];
    assert lit[0] == if sign == "" then whole[0] else '-';
    forall i | 0 <= i < |lit| ensures NumberChar(lit[i]) {
      if i < |sign| {
        assert lit[i] == '-';
      } else if i < |sign| + |whole| {
        assert lit[i] == whole[i - |sign|];
      } else if i > |sign| + |whole| {
        assert lit[i] == frac[i - |sign| - |whole| - 1];
      }
    }
  }

  /**
   * `str()` of a float is made of a minus sign, digits and one point; it
   * starts with a digit or the sign and ends with a digit.
   */
  lemma RenderFloatShape(f: Float)
    ensures var s := RenderFloat(f);
      s != [] && (forall i :: 0 <= i < |s| ==> NumberChar(s[i]))
      && (IsDigit(s[0]) || s[0] == '-') && IsDigit(s[|s| - 1])
  {
    DigitRunValue(f);
    var run := DigitRun(f);
    var cut := |run| - FracLen(f);
    SplitDigits(run, cut);
    LiteralShape(if f.mant < 0 then "-" else "", run[..cut], run[cut..]);
  }
}
