/**
 * The values a setting can hold (Python bool, int, float or str), how
 * Python's `str()` writes them, and the literal rule that reads them back.
 */
module Values {
  import opened Wrappers
  import opened Text
  import opened Numbers
  import opened Dicts

  datatype Value = VBool(b: bool) | VInt(i: int) | VFloat(f: Float) | VStr(s: string)
  {
    /** `isinstance(v, (int, float))`: in Python a bool is an int too. */
    predicate IsNumeric() {
      !VStr?
    }

    /** Every float the program can hold is in normal form. */
    predicate WellFormed() {
      VFloat? ==> f.Normal()
    }
  }

  /** One INI section: setting name to value, in file order. */
  type Section = Dict<string, Value>

  /** A whole configuration: section name to section, in file order. */
  type Config = Dict<string, Section>

  /** `str(v)` */
  function Str(v: Value): string {
    match v
    case VBool(b) => if b then "True" else "False"
    case VInt(i) => RenderInt(i)
    case VFloat(f) => RenderFloat(f)
    case VStr(s) => s
  }

  /**
   * The dot rule of the number fields: text containing a `.` goes through
   * `float()`, anything else through `int()`. None is the ValueError.
   */
  function ParseNumber(text: string): (r: Option<Value>)
    ensures r.Some? ==> r.value.WellFormed() && (r.value.VInt? || r.value.VFloat?)
    ensures r.Some? && '.' in text ==> r.value.VFloat?
    ensures r.Some? && '.' !in text ==> r.value.VInt?
  {
    if '.' in text then
      match ParseFloat(text)
      case Some(f) => Some(VFloat(f))
      case None => None
    else
      match ParseInt(text)
      case Some(i) => Some(VInt(i))
      case None => None
  }

  /**
   * Type inference for a value read from an INI file: `true`/`false` in any
   * case is a bool, otherwise the dot rule, and text neither accepts stays
   * the string it is.
   */
  function InferValue(raw: string): (v: Value)
    ensures v.WellFormed()
  {
    var low := Lower(raw);
    if low == "true" || low == "false" then VBool(low == "true")
    else
      match ParseNumber(raw)
      case Some(n) => n
      case None => VStr(raw)
  }

  /** Python's `==` between a checkbox's bool and a stored default (`True == 1`). */
  predicate BoolEquals(b: bool, v: Value) {
    match v
    case VBool(c) => b == c
    case VInt(i) => i == (if b then 1 else 0)
    case VFloat(f) => f == Float(if b then 1 else 0, 0)
    case VStr(_) => false
  }

  /** Python's truth value of a stored value, as a checkbox variable takes it. */
  predicate Truthy(v: Value) {
    match v
    case VBool(c) => c
    case VInt(i) => i != 0
    case VFloat(f) => f.mant != 0
    case VStr(s) => s != []
  }

  /** A number as an exact decimal; a bool counts as 0 or 1. */
  function AsDecimal(v: Value): Float
    requires v.IsNumeric()
  {
    match v
    case VBool(c) => Float(if c then 1 else 0, 0)
    case VInt(i) => Float(i, 0)
    case VFloat(f) => f
  }

  /** Python's `a > b` on two numbers of either kind, compared exactly. */
  predicate Greater(a: Value, b: Value)
    requires a.IsNumeric() && b.IsNumeric()
  {
    var x, y := AsDecimal(a), AsDecimal(b);
    x.mant * Pow10(y.exp) > y.mant * Pow10(x.exp)
  }

  /** No number is greater than itself, so a value equal to its maximum is allowed. */
  lemma GreaterIrreflexive(a: Value)
    requires a.IsNumeric()
    ensures !Greater(a, a)
  {
  }

  /** On ints, `Greater` is `>`. */
  lemma GreaterInts(i: int, j: int)
    ensures Greater(VInt(i), VInt(j)) <==> i > j
  {
  }

  lemma LowerTrueFalse()
    ensures Lower("True") == "true" && Lower("False") == "false"
  {
    assert Lower("True")[0] == 't';
    assert Lower("False")[0] == 'f';
  }

  /** Text written by `str()` of a number is never read as a bool. */
  lemma NotBoolWord(s: string)
    requires s != [] && (IsDigit(s[0]) || s[0] == '-')
    ensures Lower(s) != "true" && Lower(s) != "false"
  {
    assert Lower(s)[0] == s[0];
  }

  /** `str()` of a number starts with a digit or a minus sign. */
  lemma StrNumberStart(v: Value)
    requires v.VInt? || (v.VFloat? && v.f.Normal())
    ensures Str(v) != [] && (IsDigit(Str(v)[0]) || Str(v)[0] == '-')
  {
    match v
    case VInt(i) =>
      if i < 0 { assert Str(v)[0] == '-'; } else { assert Str(v) == NatDigits(i); }
    case VFloat(f) =>
      DigitRunValue(f);
      var run := DigitRun(f);
      var cut := |run| - FracLen(f);
      SplitDigits(run, cut);
      if f.mant < 0 {
        assert Str(v)[0] == '-';
      } else {
        assert Str(v) == run[..cut] + "." + run[cut..];
        assert Str(v)[0] == run[0];
      }
  }

  /** Numbers written with `str()` come back through the dot rule unchanged. */
  lemma ParseNumberStr(v: Value)
    requires v.VInt? || (v.VFloat? && v.f.Normal())
    ensures ParseNumber(Str(v)) == Some(v)
  {
    match v
    case VInt(i) =>
      ParseRenderInt(i);
    case VFloat(f) =>
      ParseRenderFloat(f);
  }

  /**
   * Writing a bool, an int or a float with `str()` and inferring its type
   * again gives the same value back.
   */
  lemma InferStr(v: Value)
    requires v.WellFormed() && !v.VStr?
    ensures InferValue(Str(v)) == v
  {
    match v
    case VBool(b) =>
      LowerTrueFalse();
    case VInt(_) =>
      StrNumberStart(v);
      NotBoolWord(Str(v));
      ParseNumberStr(v);
    case VFloat(_) =>
      StrNumberStart(v);
      NotBoolWord(Str(v));
      ParseNumberStr(v);
  }

  /** A string that looks like a number does not survive the trip: "7" comes back as the int 7. */
  lemma StrOfDigitsBecomesInt()
    ensures InferValue(Str(VStr("7"))) == VInt(7)
  {
    var s := Str(VStr("7"));
    assert s == Str(VInt(7));
    InferNotBool(s);
    ParseNumberStr(VInt(7));
  }

  /** Text that starts with a digit or a minus sign is never a bool: the dot rule decides. */
  lemma InferNotBool(s: string)
    requires s != [] && (IsDigit(s[0]) || s[0] == '-')
    ensures InferValue(s) == if ParseNumber(s).Some? then ParseNumber(s).value else VStr(s)
  {
    NotBoolWord(s);
  }

  /** Proof helper: what inference keeps as text is the text itself. */
  lemma InferKeepsText(raw: string)
    ensures InferValue(raw).VStr? ==> InferValue(raw).s == raw
  {
  }

  /**
   * `str()` of a bool, an int or a float has no surrounding whitespace and
   * none of the separators `;` and `|` of an INI line.
   */
  lemma StrPlain(v: Value)
    requires v.WellFormed() && !v.VStr?
    ensures Str(v) != [] && !IsSpace(Str(v)[0]) && !IsSpace(Str(v)[|Str(v)| - 1])
    ensures ';' !in Str(v) && '|' !in Str(v)
  {
    match v
    case VBool(b) =>
      assert "True" == ['T', 'r', 'u', 'e'] && "False" == ['F', 'a', 'l', 's', 'e'];
    case VInt(i) =>
      RenderIntChars(i, ';');
      RenderIntChars(i, '|');
    case VFloat(f) =>
      FloatStrPlain(f);
  }

  lemma FloatStrPlain(f: Float)
    requires f.Normal()
    ensures var s := RenderFloat(f); s != [] && !IsSpace(s[0]) && !IsSpace(s[|s| - 1])
    ensures ';' !in RenderFloat(f) && '|' !in RenderFloat(f)
  {
    RenderFloatShape(f);
    NumberTextPlain(RenderFloat(f));
  }

  lemma NumberTextPlain(s: string)
    requires s != [] && forall i :: 0 <= i < |s| ==> NumberChar(s[i])
    requires (IsDigit(s[0]) || s[0] == '-') && IsDigit(s[|s| - 1])
    ensures !IsSpace(s[0]) && !IsSpace(s[|s| - 1])
    ensures ';' !in s && '|' !in s
  {
    assert forall i :: 0 <= i < |s| ==> s[i] != ';' && s[i] != '|';
  }
}
