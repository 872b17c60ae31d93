/**
 * The JavaScript number conversions the workout parser relies on: the
 * global parseInt (no radix argument), the global parseFloat, parseInt
 * applied to a number, and decimal rendering of naturals. Finite numbers
 * are exact reals; NaN and the infinities are constructors of their own.
 */
module JsNumber {
  import opened Wrappers
  import opened JsString

  /** A JavaScript number as the parser can produce it. */
  datatype Num = NaN | Finite(value: real) | Infinite(negative: bool)

  predicate IsDigit(c: char) {
    '0' <= c <= '9'
  }

  predicate IsHexDigit(c: char) {
    IsDigit(c) || ('a' <= c <= 'f') || ('A' <= c <= 'F')
  }

  predicate IsRadixDigit(c: char, hex: bool) {
    if hex then IsHexDigit(c) else IsDigit(c)
  }

  predicate AllDigits(s: string, hex: bool) {
    forall k :: 0 <= k < |s| ==> IsRadixDigit(s[k], hex)
  }

  function DigitValue(c: char): (v: nat)
    requires IsHexDigit(c)
    ensures v < 16 && (IsDigit(c) ==> v < 10)
  {
    if IsDigit(c) then c as int - '0' as int
    else if 'a' <= c <= 'f' then c as int - 'a' as int + 10
    else c as int - 'A' as int + 10
  }

  function DigitChar(d: nat): (c: char)
    requires d < 10
    ensures IsDigit(c) && DigitValue(c) == d
  {
    ('0' as int + d) as char
  }

  /** The length of the longest prefix of `s` made of digits of the radix. */
  function DigitRun(s: string, hex: bool): (n: nat)
    ensures n <= |s|
    ensures AllDigits(s[..n], hex)
    ensures n < |s| ==> !IsRadixDigit(s[n], hex)
  {
    if |s| > 0 && IsRadixDigit(s[0], hex) then 1 + DigitRun(s[1..], hex) else 0
  }

  /** The value of a digit string in radix 10 or 16, most significant digit first. */
  function DigitsValue(s: string, hex: bool): nat
    requires AllDigits(s, hex)
  {
    if |s| == 0 then 0
    else DigitsValue(s[..|s| - 1], hex) * (if hex then 16 else 10) + DigitValue(s[|s| - 1])
  }

  /**
   * The decimal rendering of a natural number (template literals, String(n)):
   * at least one digit, no leading zero, and reading it back gives `n`.
   */
  function NatToString(n: nat): (s: string)
    ensures |s| >= 1 && AllDigits(s, false)
    ensures s[0] == '0' ==> n == 0 && |s| == 1
    ensures DigitsValue(s, false) == n
  {
    var front := if n < 10 then "" else NatToString(n / 10);
    var last := DigitChar(n % 10);
    var s := front + [last];
    assert s[..|s| - 1] == front && s[|s| - 1] == last;
    assert DigitsValue(front, false) == n / 10;
    assert DigitsValue(s, false) == (n / 10) * 10 + n % 10;
    assert AllDigits(s, false) by {
      forall k | 0 <= k < |s| ensures IsRadixDigit(s[k], false) {
        if k < |front| {
          assert s[k] == front[k];
        }
      }
    }
    s
  }

  /** The text after one leading "+" or "-", if there is one. */
  function StripSign(t: string): string {
    if |t| > 0 && (t[0] == '-' || t[0] == '+') then t[1..] else t
  }

  predicate HasHexPrefix(u: string) {
    |u| >= 2 && u[0] == '0' && (u[1] == 'x' || u[1] == 'X')
  }

  /** The longest run of radix digits at the start of `body`, or NaN when there is none. */
  function ReadInteger(body: string, hex: bool): Option<nat>
  {
    var n := DigitRun(body, hex);
    if n == 0 then None else Some(DigitsValue(body[..n], hex))
  }

  /**
   * The global parseInt(s) called without a radix: leading white space is
   * skipped, one sign is taken, a "0x"/"0X" prefix switches to radix 16,
   * and the longest run of digits after that is read; no digit means NaN.
   */
  function ParseInt(s: string): Option<int>
  {
    var t := TrimStart(s);
    var u := StripSign(t);
    var hex := HasHexPrefix(u);
    match ReadInteger(if hex then u[2..] else u, hex)
    case None => None
    case Some(m) => Some(if |t| > 0 && t[0] == '-' then -(m as int) else m)
  }

  /** 10 to the power `e`. */
  function Pow10(e: nat): (p: nat)
    ensures p >= 1
  {
    if e == 0 then 1 else 10 * Pow10(e - 1)
  }

  /** The exact value of `m` times 10 to the power `e`. */
  function Scale(m: nat, e: int): real
  {
    if e >= 0 then (m * Pow10(e)) as real else m as real / Pow10(-e) as real
  }

  /**
   * The value of the ExponentPart ("e" or "E", an optional sign, digits) at
   * the start of `s`, or 0 when `s` does not start with one.
   */
  function ExponentValue(s: string): int
  {
    if |s| >= 2 && (s[0] == 'e' || s[0] == 'E') then
      var signed := s[1] == '+' || s[1] == '-';
      var ds := if signed then s[2..] else s[1..];
      var n := DigitRun(ds, false);
      if n == 0 then 0
      else
        var v := DigitsValue(ds[..n], false);
        if s[1] == '-' then -(v as int) else v
    else 0
  }

  /**
   * The longest prefix of `u` that is "Infinity" or an unsigned decimal
   * literal (digits, an optional fraction after ".", an optional exponent),
   * or NaN when there is none.
   */
  function ParseUnsignedFloat(u: string): Num
  {
    if StartsWithInfinity(u) then Infinite(false) else DecimalLiteral(u)
  }

  predicate StartsWithInfinity(u: string) {
    |u| >= 8 && u[..8] == "Infinity"
  }

  /** The longest prefix of `u` that is an unsigned decimal literal, or NaN. */
  function DecimalLiteral(u: string): Num
  {
    var i := DigitRun(u, false);
    if i < |u| && u[i] == '.' then FractionLiteral(u, i)
    else if i == 0 then NaN
    else Finite(Scale(DigitsValue(u[..i], false), ExponentValue(u[i..])))
  }

  /** A literal whose integer digits `u[..i]` are followed by ".". */
  function FractionLiteral(u: string, i: nat): Num
    requires i < |u| && u[i] == '.' && AllDigits(u[..i], false)
  {
    var f := DigitRun(u[i + 1..], false);
    if i == 0 && f == 0 then NaN
    else
      var fraction := u[i + 1..i + 1 + f];
      assert AllDigits(u[..i] + fraction, false) by {
        assert fraction == u[i + 1..][..f];
      }
      Finite(Scale(DigitsValue(u[..i] + fraction, false), ExponentValue(u[i + 1 + f..]) - f))
  }

  /** Unary minus. */
  function Negate(x: Num): Num
  {
    match x
    case NaN => NaN
    case Finite(v) => Finite(-v)
    case Infinite(negative) => Infinite(!negative)
  }

  /**
   * The global parseFloat(s): leading white space is skipped, one sign is
   * taken, then the longest prefix that is "Infinity" or a decimal literal
   * is read; no such prefix means NaN.
   */
  function ParseFloat(s: string): Num
  {
    var t := TrimStart(s);
    var x := ParseUnsignedFloat(StripSign(t));
    if |t| > 0 && t[0] == '-' then Negate(x) else x
  }

  /** Truncation toward zero. */
  function Trunc(r: real): (n: int)
    ensures r >= 0.0 ==> 0 <= n && n as real <= r < n as real + 1.0
    ensures r < 0.0 ==> n <= 0 && n as real - 1.0 < r <= n as real
  {
    if r >= 0.0 then r.Floor else -((-r).Floor)
  }

  /** parseInt applied to a number x, that is parseInt(String(x)). */
  function NumberToInt(x: Num): (r: Option<int>)
    ensures r.Some? <==> x.Finite?
    ensures x.Finite? ==> r.value == Trunc(x.value)
  {
    match x
    case Finite(v) => Some(Trunc(v))
    case _ => None
  }

  /** A run of digits followed by a non-digit is exactly the run. */
  lemma {:induction false} DigitRunOf(ds: string, rest: string, hex: bool)
    requires AllDigits(ds, hex)
    requires rest == [] || !IsRadixDigit(rest[0], hex)
    ensures DigitRun(ds + rest, hex) == |ds|
    ensures (ds + rest)[..|ds|] == ds
    decreases |ds|
  {
    if ds == [] {
      assert ds + rest == rest;
    } else {
      assert (ds + rest)[1..] == ds[1..] + rest;
      DigitRunOf(ds[1..], rest, hex);
    }
  }

  /** A string of decimal digits with no superfluous leading zero. */
  predicate Canonical(ds: string) {
    |ds| >= 1 && AllDigits(ds, false) && (ds[0] == '0' ==> |ds| == 1)
  }

  lemma CanonicalNoHexPrefix(ds: string, rest: string)
    requires Canonical(ds)
    requires rest == [] || (rest[0] != 'x' && rest[0] != 'X')
    ensures !HasHexPrefix(ds + rest)
  {
    var u := ds + rest;
    assert u[0] == ds[0];
    if |ds| >= 2 {
      assert u[1] == ds[1] && IsDigit(ds[1]);
    } else if |u| >= 2 {
      assert u[1] == rest[0];
    }
  }

  /**
   * parseInt reads back a canonical digit string up to the first code point
   * that is not a digit (and not the "x" that would make "0x" a radix prefix).
   */
  lemma ParseIntDigits(ds: string, rest: string)
    requires Canonical(ds)
    requires rest == [] || (!IsDigit(rest[0]) && rest[0] != 'x' && rest[0] != 'X')
    ensures ParseInt(ds + rest) == Some(DigitsValue(ds, false))
  {
    var u := ds + rest;
    DigitsUntrimmed(ds, rest);
    assert StripSign(u) == u;
    CanonicalNoHexPrefix(ds, rest);
    DigitRunOf(ds, rest, false);
  }

  /** parseInt reads back a decimal rendering. */
  lemma ParseIntDecimal(n: nat, rest: string)
    requires rest == [] || (!IsDigit(rest[0]) && rest[0] != 'x' && rest[0] != 'X')
    ensures ParseInt(NatToString(n) + rest) == Some(n)
  {
    ParseIntDigits(NatToString(n), rest);
  }

  /**
   * parseFloat reads back a digit string up to the first code point that
   * cannot continue a decimal literal.
   */
  lemma ParseFloatDigits(ds: string, rest: string)
    requires |ds| >= 1 && AllDigits(ds, false)
    requires rest == [] || (!IsDigit(rest[0]) && rest[0] != '.' && rest[0] != 'e' && rest[0] != 'E')
    ensures ParseFloat(ds + rest) == Finite(DigitsValue(ds, false) as real)
  {
    DigitsUntrimmed(ds, rest);
    ParseFloatUnsigned(ds + rest);
    ParseUnsignedDigits(ds, rest);
  }

  lemma DigitsUntrimmed(ds: string, rest: string)
    requires |ds| >= 1 && AllDigits(ds, false)
    ensures TrimStart(ds + rest) == ds + rest
  {
    assert (ds + rest)[0] == ds[0] && IsDigit(ds[0]);
  }

  /** Without white space or a sign in front, parseFloat reads an unsigned literal. */
  lemma ParseFloatUnsigned(u: string)
    requires TrimStart(u) == u && |u| > 0 && IsDigit(u[0])
    ensures ParseFloat(u) == ParseUnsignedFloat(u)
  {
  }

  lemma ParseUnsignedDigits(ds: string, rest: string)
    requires |ds| >= 1 && AllDigits(ds, false)
    requires rest == [] || (!IsDigit(rest[0]) && rest[0] != '.' && rest[0] != 'e' && rest[0] != 'E')
    ensures ParseUnsignedFloat(ds + rest) == Finite(DigitsValue(ds, false) as real)
  {
    var u := ds + rest;
    assert !StartsWithInfinity(u) by {
      assert u[0] == ds[0] && IsDigit(ds[0]);
      assert |u| >= 8 ==> u[..8][0] == ds[0];
    }
    DecimalDigits(ds, rest);
  }

  lemma DecimalDigits(ds: string, rest: string)
    requires |ds| >= 1 && AllDigits(ds, false)
    requires rest == [] || (!IsDigit(rest[0]) && rest[0] != '.' && rest[0] != 'e' && rest[0] != 'E')
    ensures DecimalLiteral(ds + rest) == Finite(DigitsValue(ds, false) as real)
  {
    var u := ds + rest;
    DigitRunOf(ds, rest, false);
    assert |ds| < |u| ==> u[|ds|] == rest[0];
    assert u[|ds|..] == rest;
    assert ExponentValue(rest) == 0;
  }

  /** parseFloat reads back a decimal rendering. */
  lemma ParseFloatDecimal(n: nat, rest: string)
    requires rest == [] || (!IsDigit(rest[0]) && rest[0] != '.' && rest[0] != 'e' && rest[0] != 'E')
    ensures ParseFloat(NatToString(n) + rest) == Finite(n as real)
  {
    ParseFloatDigits(NatToString(n), rest);
  }

  /** parseInt of a number never depends on its fractional part. */
  lemma {:induction false} NumberToIntIgnoresFraction(v: real)
    ensures NumberToInt(Finite(v)) == NumberToInt(Finite(Trunc(v) as real))
  {
    var n := Trunc(v);
    assert Trunc(n as real) == n;
  }
}
