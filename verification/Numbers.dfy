/** Numbers of the canonical encoder: ECMAScript Number::toString (section 6.1.6.1.20 of ES2023)
    over normalised decimal digits, the numeral reader that inverts it, and exact values. */
module Numbers {
  import opened Options
  import opened Utf16

  type Digit = d: int | 0 <= d < 10 witness 0

  /** A finite double as `Decimal(repr(abs(x))).normalize()` delivers it: digits * 10^exp with no
      leading and no trailing zero. Zero stands for 0 and -0. */
  datatype Decimal = Zero | Fin(neg: bool, digits: seq<Digit>, exp: int)

  predicate Normal(d: Decimal) {
    d.Fin? ==> d.digits != [] && d.digits[0] != 0 && d.digits[|d.digits| - 1] != 0
  }

  type Double = d: Decimal | Normal(d) witness Zero

  /** A Python number that is not a bool: an unbounded int or a float. */
  datatype Number = Int(i: int) | NonFinite | Float(d: Double)

  const MAX_SAFE_INTEGER: int := 0x1F_FFFF_FFFF_FFFF

  const DOT: CodePoint := 0x2E
  const MINUS: CodePoint := 0x2D
  const PLUS: CodePoint := 0x2B
  const EXP: CodePoint := 0x65

  // ---- digits ----

  function DigitsOf(n: nat): (ds: seq<Digit>)
    ensures ds != [] && (n > 0 ==> ds[0] != 0)
  {
    if n < 10 then [n] else DigitsOf(n / 10) + [n % 10]
  }

  function NatOf(ds: seq<Digit>): nat {
    if ds == [] then 0 else NatOf(ds[..|ds| - 1]) * 10 + ds[|ds| - 1]
  }

  function Zeros(n: nat): (ds: seq<Digit>)
    ensures |ds| == n
  {
    seq(n, _ => 0)
  }

  function CharOf(d: Digit): CodePoint { 0x30 + d }

  function Chars(ds: seq<Digit>): (t: Text)
    ensures |t| == |ds|
  {
    seq(|ds|, i requires 0 <= i < |ds| => CharOf(ds[i]))
  }

  function StripLeading(ds: seq<Digit>): (r: seq<Digit>)
    ensures r != [] ==> r[0] != 0
    ensures |r| <= |ds|
  {
    if ds != [] && ds[0] == 0 then StripLeading(ds[1..]) else ds
  }

  function StripTrailing(ds: seq<Digit>): (r: seq<Digit>)
    ensures r != [] ==> r[|r| - 1] != 0
    ensures |r| <= |ds| && (r != [] ==> r[0] == ds[0])
  {
    if ds != [] && ds[|ds| - 1] == 0 then StripTrailing(ds[..|ds| - 1]) else ds
  }

  function Normalize(neg: bool, ds: seq<Digit>, exp: int): Double {
    var lead := StripLeading(ds);
    var core := StripTrailing(lead);
    if core == [] then Zero else Fin(neg, core, exp + |lead| - |core|)
  }

  /** The double that a safe integer is: exactly its own digits. */
  function OfInt(i: int): Double {
    Normalize(i < 0, DigitsOf(if i < 0 then -i else i), 0)
  }

  /** The double behind a Python number; `toFloat` is CPython's int-to-double conversion, which
      raises OverflowError (None) on an astronomic int. None altogether means `non_finite`. */
  function ToDouble(n: Number, toFloat: int -> Option<Double>): Option<Double> {
    match n
    case Int(i) => if -MAX_SAFE_INTEGER <= i <= MAX_SAFE_INTEGER then Some(OfInt(i)) else toFloat(i)
    case NonFinite => None
    case Float(d) => Some(d)
  }

  // ---- printing ----

  function IntText(i: int): Text {
    if i < 0 then [MINUS] + Chars(DigitsOf(-i)) else Chars(DigitsOf(i))
  }

  function FloatText(d: Double): Text {
    match d
    case Zero => [0x30]
    case Fin(neg, digits, exp) => (if neg then [MINUS] else []) + Magnitude(digits, exp)
  }

  function Magnitude(digits: seq<Digit>, exp: int): Text
    requires digits != []
  {
    var k := |digits|;
    var n := exp + k;
    if k <= n <= 21 then Chars(digits + Zeros(n - k))
    else if 0 < n <= 21 then Chars(digits[..n]) + [DOT] + Chars(digits[n..])
    else if -6 < n <= 0 then [0x30, DOT] + Chars(Zeros(-n) + digits)
    else
      Mantissa(digits) + ExponentText(n - 1)
  }

  function Mantissa(digits: seq<Digit>): Text
    requires digits != []
  {
    if |digits| == 1 then Chars(digits) else Chars(digits[..1]) + [DOT] + Chars(digits[1..])
  }

  function ExponentText(exponent: int): Text {
    if exponent >= 0 then [EXP, PLUS] + Chars(DigitsOf(exponent))
    else [EXP, MINUS] + Chars(DigitsOf(-exponent))
  }

  /** `_js_number`: None is the error `non_finite`. */
  function JsNumber(n: Number, toFloat: int -> Option<Double>): Option<Text> {
    match n
    case Int(i) =>
      if -MAX_SAFE_INTEGER <= i <= MAX_SAFE_INTEGER then Some(IntText(i))
      else if toFloat(i).None? then None else Some(FloatText(toFloat(i).value))
    case NonFinite => None
    case Float(d) => Some(FloatText(d))
  }

  // ---- reading ----

  predicate IsDigit(c: CodePoint) { 0x30 <= c <= 0x39 }

  /** The longest run of digits at the front, and what follows it. */
  function Span(t: Text): (r: (seq<Digit>, Text))
    ensures |t| == |r.0| + |r.1|
  {
    if t == [] || !IsDigit(t[0]) then ([], t)
    else var (ds, rest) := Span(t[1..]); ([t[0] - 0x30] + ds, rest)
  }

  /** A numeral as written: sign, integer digits, fraction digits, exponent. */
  datatype Numeral = Numeral(neg: bool, whole: seq<Digit>, frac: seq<Digit>, exp: int)

  function ReadFraction(t: Text): (r: (seq<Digit>, Text))
    ensures |r.1| <= |t|
  {
    if t != [] && t[0] == DOT then Span(t[1..]) else ([], t)
  }

  function ReadExponent(t: Text): (r: (int, Text))
    ensures |r.1| <= |t|
  {
    if |t| >= 2 && t[0] == EXP && (t[1] == PLUS || t[1] == MINUS) then
      var (ds, rest) := Span(t[2..]);
      var magnitude: int := NatOf(ds);
      (if t[1] == PLUS then magnitude else -magnitude, rest)
    else (0, t)
  }

  function ReadUnsigned(neg: bool, t: Text): (r: Option<(Numeral, Text)>)
    ensures r.Some? ==> |r.value.1| < |t|
  {
    var (whole, t1) := Span(t);
    if whole == [] then None else
    var (frac, t2) := ReadFraction(t1);
    var (exp, rest) := ReadExponent(t2);
    Some((Numeral(neg, whole, frac, exp), rest))
  }

  function ReadNumeral(t: Text): (r: Option<(Numeral, Text)>)
    ensures r.Some? ==> |r.value.1| < |t|
  {
    if t != [] && t[0] == MINUS then ReadUnsigned(true, t[1..]) else ReadUnsigned(false, t)
  }

  function ToNormal(n: Numeral): Double {
    Normalize(n.neg, n.whole + n.frac, n.exp - |n.frac|)
  }

  /** What may follow a numeral without extending it. */
  predicate EndsNumeral(rest: Text) {
    rest == [] || !(IsDigit(rest[0]) || rest[0] == DOT || rest[0] == EXP)
  }

  // ---- exact values ----

  /** x * 10^e. */
  function Scaled(x: real, e: int): real
    decreases if e < 0 then -e else e
  {
    if e == 0 then x else if e > 0 then Scaled(x * 10.0, e - 1) else Scaled(x / 10.0, e + 1)
  }

  function Signed(neg: bool, r: real): real { if neg then -r else r }

  function NumeralValue(n: Numeral): real {
    Signed(n.neg, Scaled(NatOf(n.whole + n.frac) as real, n.exp - |n.frac|))
  }

  function DoubleValue(d: Double): real {
    match d
    case Zero => 0.0
    case Fin(neg, digits, exp) => Signed(neg, Scaled(NatOf(digits) as real, exp))
  }

  // ---- lemmas ----

  lemma SpanChars(ds: seq<Digit>, rest: Text)
    requires rest == [] || !IsDigit(rest[0])
    ensures Span(Chars(ds) + rest) == (ds, rest)
  {
    var t := Chars(ds) + rest;
    if ds == [] {
      assert t == rest;
    } else {
      assert t[1..] == Chars(ds[1..]) + rest;
      SpanChars(ds[1..], rest);
      assert [ds[0]] + ds[1..] == ds;
    }
  }

  lemma {:induction false} NatDigits(n: nat)
    ensures NatOf(DigitsOf(n)) == n
  {
    if n >= 10 {
      NatDigits(n / 10);
      assert DigitsOf(n)[..|DigitsOf(n)| - 1] == DigitsOf(n / 10);
    }
  }

  lemma {:induction false} DigitsNat(ds: seq<Digit>)
    requires ds != [] && ds[0] != 0
    ensures DigitsOf(NatOf(ds)) == ds
    ensures NatOf(ds) > 0
  {
    var init, last := ds[..|ds| - 1], ds[|ds| - 1];
    assert ds == init + [last];
    if init == [] {
      assert NatOf(init) == 0;
    } else {
      DigitsNat(init);
      assert NatOf(ds) / 10 == NatOf(init) && NatOf(ds) % 10 == last;
    }
  }

  lemma {:induction false} StripTrailingZeros(ds: seq<Digit>, n: nat)
    requires ds != [] && ds[|ds| - 1] != 0
    ensures StripTrailing(ds + Zeros(n)) == ds
  {
    if n == 0 {
      assert ds + Zeros(0) == ds;
    } else {
      assert (ds + Zeros(n))[..|ds| + n - 1] == ds + Zeros(n - 1);
      StripTrailingZeros(ds, n - 1);
    }
  }

  lemma {:induction false} StripLeadingZeros(ds: seq<Digit>, n: nat)
    requires ds != [] && ds[0] != 0
    ensures StripLeading(Zeros(n) + ds) == ds
  {
    if n == 0 {
      assert Zeros(0) + ds == ds;
    } else {
      assert (Zeros(n) + ds)[1..] == Zeros(n - 1) + ds;
      StripLeadingZeros(ds, n - 1);
    }
  }

  /** Padding normal digits with zeros on both sides normalises back. */
  lemma NormalizePadded(neg: bool, digits: seq<Digit>, lead: nat, trail: nat, exp: int)
    requires Normal(Fin(neg, digits, exp))
    ensures Normalize(neg, Zeros(lead) + digits + Zeros(trail), exp - trail) == Fin(neg, digits, exp)
  {
    var core := digits + Zeros(trail);
    assert Zeros(lead) + digits + Zeros(trail) == Zeros(lead) + core;
    StripLeadingZeros(core, lead);
    StripTrailingZeros(digits, trail);
  }

  lemma Assoc(a: Text, b: Text, c: Text)
    ensures a + b + c == a + (b + c)
  {
  }

  lemma ReadPlain(neg: bool, whole: seq<Digit>, rest: Text)
    requires whole != [] && EndsNumeral(rest)
    ensures ReadUnsigned(neg, Chars(whole) + rest) == Some((Numeral(neg, whole, [], 0), rest))
  {
    SpanChars(whole, rest);
  }

  lemma ReadPoint(neg: bool, whole: seq<Digit>, frac: seq<Digit>, rest: Text)
    requires whole != [] && EndsNumeral(rest)
    ensures ReadUnsigned(neg, Chars(whole) + [DOT] + Chars(frac) + rest) ==
            Some((Numeral(neg, whole, frac, 0), rest))
  {
    var tail := [DOT] + (Chars(frac) + rest);
    assert Chars(whole) + [DOT] + Chars(frac) + rest == Chars(whole) + tail;
    SpanChars(whole, tail);
    assert tail[1..] == Chars(frac) + rest;
    SpanChars(frac, rest);
  }

  function Negated(neg: bool, n: int): int { if neg then -n else n }

  lemma AfterTwo(a: CodePoint, b: CodePoint, t: Text)
    ensures var u := [a, b] + t; u[0] == a && u[1] == b && u[2..] == t
  {
  }

  lemma ReadExponentDigits(sign: CodePoint, ds: seq<Digit>, rest: Text)
    requires EndsNumeral(rest) && ds != [] && (sign == PLUS || sign == MINUS)
    ensures ReadExponent([EXP, sign] + Chars(ds) + rest) == (Negated(sign == MINUS, NatOf(ds)), rest)
  {
    Assoc([EXP, sign], Chars(ds), rest);
    AfterTwo(EXP, sign, Chars(ds) + rest);
    SpanChars(ds, rest);
  }

  lemma ReadExponentText(exponent: int, rest: Text)
    requires EndsNumeral(rest)
    ensures ReadExponent(ExponentText(exponent) + rest) == (exponent, rest)
  {
    var n := if exponent >= 0 then exponent else -exponent;
    ReadExponentDigits(if exponent >= 0 then PLUS else MINUS, DigitsOf(n), rest);
    NatDigits(n);
  }

  lemma ReadScientific(neg: bool, digits: seq<Digit>, exponent: int, rest: Text)
    requires digits != [] && EndsNumeral(rest)
    ensures ReadUnsigned(neg, Mantissa(digits) + ExponentText(exponent) + rest) ==
            Some((Numeral(neg, digits[..1], digits[1..], exponent), rest))
  {
    var tail := ExponentText(exponent) + rest;
    assert tail[0] == EXP;
    Assoc(Mantissa(digits), ExponentText(exponent), rest);
    ReadExponentText(exponent, rest);
    if |digits| == 1 {
      assert digits[..1] == digits && digits[1..] == [];
      SpanChars(digits, tail);
    } else {
      var point := [DOT] + (Chars(digits[1..]) + tail);
      var head, frac := Chars(digits[..1]), Chars(digits[1..]);
      Assoc(head + [DOT], frac, tail);
      Assoc(head, [DOT], frac + tail);
      SpanChars(digits[..1], point);
      assert point[1..] == frac + tail;
      SpanChars(digits[1..], tail);
    }
  }

  /** The parts that each of the four shapes writes. */
  function Parts(neg: bool, digits: seq<Digit>, exp: int): Numeral
    requires digits != []
  {
    var k := |digits|;
    var n := exp + k;
    if k <= n <= 21 then Numeral(neg, digits + Zeros(n - k), [], 0)
    else if 0 < n <= 21 then Numeral(neg, digits[..n], digits[n..], 0)
    else if -6 < n <= 0 then Numeral(neg, [0], Zeros(-n) + digits, 0)
    else Numeral(neg, digits[..1], digits[1..], n - 1)
  }

  lemma ReadWhole(neg: bool, digits: seq<Digit>, exp: int, rest: Text)
    requires EndsNumeral(rest) && |digits| > 0 && |digits| <= exp + |digits| <= 21
    ensures ReadUnsigned(neg, Magnitude(digits, exp) + rest) == Some((Parts(neg, digits, exp), rest))
  {
    ReadPlain(neg, digits + Zeros(exp), rest);
  }

  lemma ReadPointInside(neg: bool, digits: seq<Digit>, exp: int, rest: Text)
    requires EndsNumeral(rest) && exp < 0 < exp + |digits| <= 21
    ensures ReadUnsigned(neg, Magnitude(digits, exp) + rest) == Some((Parts(neg, digits, exp), rest))
  {
    var n := exp + |digits|;
    ReadPoint(neg, digits[..n], digits[n..], rest);
  }

  lemma ReadSmall(neg: bool, digits: seq<Digit>, exp: int, rest: Text)
    requires EndsNumeral(rest) && digits != [] && -6 < exp + |digits| <= 0
    ensures ReadUnsigned(neg, Magnitude(digits, exp) + rest) == Some((Parts(neg, digits, exp), rest))
  {
    var n := exp + |digits|;
    ZeroPoint(Zeros(-n) + digits);
    ReadPoint(neg, [0], Zeros(-n) + digits, rest);
  }

  lemma ZeroPoint(frac: seq<Digit>)
    ensures [0x30, DOT] + Chars(frac) == Chars([0]) + [DOT] + Chars(frac)
  {
    assert Chars([0]) == [0x30];
  }

  lemma ReadMagnitude(neg: bool, digits: seq<Digit>, exp: int, rest: Text)
    requires digits != [] && EndsNumeral(rest)
    ensures ReadUnsigned(neg, Magnitude(digits, exp) + rest) == Some((Parts(neg, digits, exp), rest))
  {
    var k := |digits|;
    var n := exp + k;
    if k <= n <= 21 {
      ReadWhole(neg, digits, exp, rest);
    } else if 0 < n <= 21 {
      ReadPointInside(neg, digits, exp, rest);
    } else if -6 < n <= 0 {
      ReadSmall(neg, digits, exp, rest);
    } else {
      ReadLarge(neg, digits, exp, rest);
    }
  }

  lemma ReadLarge(neg: bool, digits: seq<Digit>, exp: int, rest: Text)
    requires EndsNumeral(rest) && digits != [] && (exp + |digits| > 21 || exp + |digits| <= -6)
    ensures ReadUnsigned(neg, Magnitude(digits, exp) + rest) == Some((Parts(neg, digits, exp), rest))
  {
    ReadScientific(neg, digits, exp + |digits| - 1, rest);
  }

  /** The digits written are the normal ones, padded with zeros on the sides. */
  lemma PartsPadded(neg: bool, digits: seq<Digit>, exp: int) returns (lead: nat, trail: nat)
    requires digits != []
    ensures var parts := Parts(neg, digits, exp);
            && parts.neg == neg
            && parts.whole + parts.frac == Zeros(lead) + digits + Zeros(trail)
            && parts.exp - |parts.frac| == exp - trail
  {
    var k := |digits|;
    var n := exp + k;
    var parts := Parts(neg, digits, exp);
    lead := if -6 < n <= 0 then 1 - n else 0;
    trail := if k <= n <= 21 then n - k else 0;
    assert -6 < n <= 0 ==> Zeros(lead) == [0] + Zeros(-n);
    assert parts.whole + parts.frac == Zeros(lead) + digits + Zeros(trail);
  }

  lemma PartsNormalize(neg: bool, digits: seq<Digit>, exp: int)
    requires Normal(Fin(neg, digits, exp))
    ensures ToNormal(Parts(neg, digits, exp)) == Fin(neg, digits, exp)
  {
    var lead, trail := PartsPadded(neg, digits, exp);
    NormalizePadded(neg, digits, lead, trail, exp);
  }

  lemma MagnitudeStart(digits: seq<Digit>, exp: int)
    requires digits != []
    ensures Magnitude(digits, exp) != [] && IsDigit(Magnitude(digits, exp)[0])
  {
  }

  lemma ReadSigned(neg: bool, u: Text)
    requires u != [] && IsDigit(u[0])
    ensures ReadNumeral((if neg then [MINUS] else []) + u) == ReadUnsigned(neg, u)
  {
    if neg {
      assert ([MINUS] + u)[1..] == u;
    } else {
      assert [] + u == u;
    }
  }

  /** What the reader finds in a printed double, whatever follows it. */
  lemma ReadFloat(d: Double, rest: Text)
    requires EndsNumeral(rest)
    ensures ReadNumeral(FloatText(d) + rest) ==
            Some((if d.Zero? then Numeral(false, [0], [], 0) else Parts(d.neg, d.digits, d.exp), rest))
  {
    if d.Zero? {
      assert FloatText(d) == Chars([0]);
      ReadPlain(false, [0], rest);
      ReadSigned(false, Chars([0]) + rest);
      Assoc([], Chars([0]), rest);
      assert [] + Chars([0]) == Chars([0]);
    } else {
      MagnitudeStart(d.digits, d.exp);
      ReadMagnitude(d.neg, d.digits, d.exp, rest);
      ReadSigned(d.neg, Magnitude(d.digits, d.exp) + rest);
      Assoc(if d.neg then [MINUS] else [], Magnitude(d.digits, d.exp), rest);
    }
  }

  /** The reader inverts the printer, whatever follows, so no two doubles share a text. */
  lemma ReadFloatText(d: Double, rest: Text)
    requires EndsNumeral(rest)
    ensures ReadNumeral(FloatText(d) + rest).Some?
    ensures ReadNumeral(FloatText(d) + rest).value.1 == rest
    ensures ToNormal(ReadNumeral(FloatText(d) + rest).value.0) == d
  {
    ReadFloat(d, rest);
    if d.Zero? {
      var ds: seq<Digit> := [0];
      assert ds + [] == ds;
      assert StripLeading(ds) == [];
    } else {
      PartsNormalize(d.neg, d.digits, d.exp);
    }
  }

  // ---- the int path and the float path agree ----

  function Pow10(k: nat): (p: nat)
    ensures p > 0
  {
    if k == 0 then 1 else 10 * Pow10(k - 1)
  }

  lemma {:induction false} DigitCount(n: nat, k: nat)
    requires k > 0 && n < Pow10(k)
    ensures |DigitsOf(n)| <= k
  {
    if n >= 10 {
      assert k > 1 by { assert Pow10(1) == 10 * Pow10(0); }
      DigitCount(n / 10, k - 1);
    }
  }

  lemma SafeDigits(n: nat)
    requires n <= MAX_SAFE_INTEGER
    ensures |DigitsOf(n)| <= 16
  {
    assert Pow10(4) == 10_000;
    assert Pow10(8) == 100_000_000;
    assert Pow10(12) == 1_000_000_000_000;
    assert Pow10(16) == 10_000_000_000_000_000;
    DigitCount(n, 16);
  }

  lemma {:induction false} StripTrailingSplit(ds: seq<Digit>)
    ensures ds == StripTrailing(ds) + Zeros(|ds| - |StripTrailing(ds)|)
  {
    if ds != [] && ds[|ds| - 1] == 0 {
      StripTrailingSplit(ds[..|ds| - 1]);
      assert ds == ds[..|ds| - 1] + [0];
    } else {
      assert Zeros(0) == [];
    }
  }

  lemma AllStripped(ds: seq<Digit>)
    ensures ds != [] && StripTrailing(ds) == [] ==> ds[0] == 0
  {
    StripTrailingSplit(ds);
  }

  /** Digits without a leading zero, stripped of trailing ones, print as themselves. */
  lemma StrippedMagnitude(ds: seq<Digit>)
    requires ds != [] && ds[0] != 0 && |ds| <= 21
    ensures var core := StripTrailing(ds);
            core != [] && |core| <= |ds| && Magnitude(core, |ds| - |core|) == Chars(ds)
  {
    StripTrailingSplit(ds);
    AllStripped(ds);
    var core := StripTrailing(ds);
    assert core + Zeros(|ds| - |core|) == ds;
  }

  lemma OfIntIs(i: int)
    requires i != 0
    ensures var ds := DigitsOf(if i < 0 then -i else i);
            var core := StripTrailing(ds);
            core != [] && OfInt(i) == Fin(i < 0, core, |ds| - |core|)
  {
    var ds := DigitsOf(if i < 0 then -i else i);
    assert StripLeading(ds) == ds;
    AllStripped(ds);
  }

  lemma IntPathIsFloatPath(i: int)
    requires -MAX_SAFE_INTEGER <= i <= MAX_SAFE_INTEGER
    ensures IntText(i) == FloatText(OfInt(i))
  {
    var n: nat := if i < 0 then -i else i;
    SafeDigits(n);
    if i == 0 {
      assert DigitsOf(0) == [0] && StripLeading([0]) == [];
      assert Chars([0]) == [0x30];
    } else {
      OfIntIs(i);
      StrippedMagnitude(DigitsOf(n));
      assert [] + Chars(DigitsOf(n)) == Chars(DigitsOf(n));
    }
  }

  /** `_js_number` prints the double that the number denotes, on both paths. */
  lemma JsNumberIsFloatText(n: Number, toFloat: int -> Option<Double>)
    ensures JsNumber(n, toFloat).Some? <==> ToDouble(n, toFloat).Some?
    ensures ToDouble(n, toFloat).Some? ==>
              JsNumber(n, toFloat) == Some(FloatText(ToDouble(n, toFloat).value))
  {
    if n.Int? && -MAX_SAFE_INTEGER <= n.i <= MAX_SAFE_INTEGER { IntPathIsFloatPath(n.i); }
  }

  /** Two numbers print the same text exactly when they are the same double. */
  lemma SameTextIffSameDouble(m: Number, n: Number, toFloat: int -> Option<Double>)
    requires JsNumber(m, toFloat).Some? && JsNumber(n, toFloat).Some?
    ensures JsNumber(m, toFloat) == JsNumber(n, toFloat) <==> ToDouble(m, toFloat) == ToDouble(n, toFloat)
  {
    JsNumberIsFloatText(m, toFloat);
    JsNumberIsFloatText(n, toFloat);
    ReadFloatText(ToDouble(m, toFloat).value, []);
    ReadFloatText(ToDouble(n, toFloat).value, []);
  }

  // ---- the text denotes exactly the value ----

  lemma {:induction false} ScaledMonotone(x: real, y: real, e: int)
    requires x < y
    ensures Scaled(x, e) < Scaled(y, e)
    decreases if e < 0 then -e else e
  {
    if e > 0 {
      ScaledMonotone(x * 10.0, y * 10.0, e - 1);
    } else if e < 0 {
      ScaledMonotone(x / 10.0, y / 10.0, e + 1);
    }
  }

  lemma ScaledZero(e: int)
    ensures Scaled(0.0, e) == 0.0
    decreases if e < 0 then -e else e
  {
    if e > 0 { ScaledZero(e - 1); } else if e < 0 { ScaledZero(e + 1); }
  }

  lemma ScaledShift(n: nat, e: int)
    ensures Scaled((n * 10) as real, e) == Scaled(n as real, e + 1)
  {
    assert (n * 10) as real == n as real * 10.0;
  }

  lemma {:induction false} StripTrailingValue(ds: seq<Digit>, e: int)
    ensures Scaled(NatOf(ds) as real, e) ==
            Scaled(NatOf(StripTrailing(ds)) as real, e + |ds| - |StripTrailing(ds)|)
  {
    if ds != [] && ds[|ds| - 1] == 0 {
      var init := ds[..|ds| - 1];
      StripTrailingValue(init, e + 1);
      ScaledShift(NatOf(init), e);
    }
  }

  lemma {:induction false} StripLeadingNat(ds: seq<Digit>)
    ensures NatOf(StripLeading(ds)) == NatOf(ds)
  {
    if ds != [] && ds[0] == 0 {
      StripLeadingNat(ds[1..]);
      LeadingZero(ds);
    }
  }

  lemma {:induction false} LeadingZero(ds: seq<Digit>)
    requires ds != [] && ds[0] == 0
    ensures NatOf(ds) == NatOf(ds[1..])
  {
    if |ds| == 1 {
      assert ds[..0] == [];
    } else {
      var init := ds[..|ds| - 1];
      LeadingZero(init);
      assert ds[1..][..|ds| - 2] == init[1..];
    }
  }

  lemma NormalizeValue(neg: bool, ds: seq<Digit>, e: int)
    ensures DoubleValue(Normalize(neg, ds, e)) == Signed(neg, Scaled(NatOf(ds) as real, e))
  {
    StripLeadingNat(ds);
    var lead := StripLeading(ds);
    StripTrailingValue(lead, e);
    ScaledZero(e + |lead|);
  }

  /** All four shapes of the text denote exactly digits * 10^exp. */
  lemma TextDenotesValue(d: Double)
    ensures ReadNumeral(FloatText(d)).Some?
    ensures NumeralValue(ReadNumeral(FloatText(d)).value.0) == DoubleValue(d)
  {
    assert FloatText(d) + [] == FloatText(d);
    ReadFloatText(d, []);
    NumeralIsNormal(ReadNumeral(FloatText(d)).value.0);
  }

  lemma NumeralIsNormal(num: Numeral)
    ensures NumeralValue(num) == DoubleValue(ToNormal(num))
  {
    NormalizeValue(num.neg, num.whole + num.frac, num.exp - |num.frac|);
  }

  function Shifted(n: nat, k: nat): nat {
    if k == 0 then n else Shifted(n, k - 1) * 10
  }

  lemma {:induction false} ScaledShifted(n: nat, e: int, k: nat)
    ensures Scaled(n as real, e + k) == Scaled(Shifted(n, k) as real, e)
    decreases k
  {
    if k > 0 {
      ScaledShifted(n, e + 1, k - 1);
      ScaledShift(Shifted(n, k - 1), e);
    }
  }

  lemma NormalUnique(a: seq<Digit>, b: seq<Digit>, e: int, f: int)
    requires a != [] && a[|a| - 1] != 0 && a[0] != 0
    requires b != [] && b[0] != 0
    requires e <= f
    requires Scaled(NatOf(a) as real, e) == Scaled(NatOf(b) as real, f)
    ensures e == f && a == b
  {
    var m := Shifted(NatOf(b), f - e);
    ScaledShifted(NatOf(b), e, f - e);
    if NatOf(a) < m {
      ScaledMonotone(NatOf(a) as real, m as real, e);
    } else if m < NatOf(a) {
      ScaledMonotone(m as real, NatOf(a) as real, e);
    }
    assert NatOf(a) == m;
    LastDigit(a);
    TensDivide(NatOf(b), f - e);
    DigitsNat(a);
    DigitsNat(b);
  }

  lemma LastDigit(a: seq<Digit>)
    requires a != []
    ensures NatOf(a) % 10 == a[|a| - 1]
  {
  }

  lemma TensDivide(n: nat, k: nat)
    ensures k > 0 ==> Shifted(n, k) % 10 == 0
  {
  }

  /** Normal forms are unique: a double is determined by its real value. */
  lemma ValueDeterminesDouble(c: Double, d: Double)
    requires DoubleValue(c) == DoubleValue(d)
    ensures c == d
  {
    Positive(c);
    Positive(d);
    if c.Fin? && d.Fin? {
      if c.exp <= d.exp {
        NormalUnique(c.digits, d.digits, c.exp, d.exp);
      } else {
        NormalUnique(d.digits, c.digits, d.exp, c.exp);
      }
    }
  }

  lemma Positive(d: Double)
    ensures d.Fin? ==> Scaled(NatOf(d.digits) as real, d.exp) > 0.0
  {
    if d.Fin? {
      DigitsNat(d.digits);
      ScaledZero(d.exp);
      ScaledMonotone(0.0, NatOf(d.digits) as real, d.exp);
    }
  }

  // ---- what a number looks like, code point by code point ----

  /** t holds the digits ds from position `at` on. */
  predicate DigitsAt(t: Text, at: nat, ds: seq<Digit>) {
    at + |ds| <= |t| && forall i :: 0 <= i < |ds| ==> t[at + i] as int == 0x30 + ds[i] as int
  }

  /** t holds n characters `0` from position `at` on. */
  predicate ZerosAt(t: Text, at: nat, n: nat) {
    at + n <= |t| && forall i :: at <= i < at + n ==> t[i] == 0x30
  }

  /** The number that decimal digits spell. */
  function Spelled(t: Text): int {
    if t == [] then 0 else Spelled(t[..|t| - 1]) * 10 + (t[|t| - 1] as int - 0x30)
  }

  /** t is the decimal numeral of n, without leading zeros. */
  predicate IsDecimal(t: Text, n: nat) {
    && t != [] && (forall i :: 0 <= i < |t| ==> 0x30 <= t[i] <= 0x39)
    && (t[0] == 0x30 ==> |t| == 1)
    && Spelled(t) == n
  }

  /**
   * The text u of digits * 10^exp without its sign; n is where the decimal point goes. Plain digits
   * up to 10^21, a point inside or after `0.` down to 10^-6, and otherwise an exponent with its sign.
   */
  predicate HasForm(u: Text, digits: seq<Digit>, exp: int) {
    var k := |digits|;
    var n := exp + k;
    if k <= n <= 21 then |u| == n && DigitsAt(u, 0, digits) && ZerosAt(u, k, n - k)
    else if 0 < n <= 21 then
      |u| == k + 1 && DigitsAt(u, 0, digits[..n]) && u[n] == 0x2E && DigitsAt(u, n + 1, digits[n..])
    else if -6 < n <= 0 then
      |u| == 2 - n + k && u[0] == 0x30 && u[1] == 0x2E && ZerosAt(u, 2, -n) && DigitsAt(u, 2 - n, digits)
    else HasExponentForm(u, digits, n - 1)
  }

  /** One digit, a point before further ones, `e`, the sign of the exponent and its digits. */
  predicate HasExponentForm(u: Text, digits: seq<Digit>, exponent: int) {
    var m := if |digits| == 1 then 1 else |digits| + 1;
    && |digits| > 0 && |u| > m + 2
    && DigitsAt(u, 0, digits[..1])
    && (|digits| > 1 ==> u[1] == 0x2E && DigitsAt(u, 2, digits[1..]))
    && u[m] == 0x65
    && u[m + 1] == (if exponent >= 0 then 0x2B else 0x2D)
    && IsDecimal(u[m + 2..], if exponent >= 0 then exponent else -exponent)
  }

  lemma {:induction false} SpelledChars(ds: seq<Digit>)
    ensures Spelled(Chars(ds)) == NatOf(ds)
  {
    if ds != [] {
      SpelledChars(ds[..|ds| - 1]);
      assert Chars(ds)[..|ds| - 1] == Chars(ds[..|ds| - 1]);
    }
  }

  lemma DecimalChars(n: nat)
    ensures IsDecimal(Chars(DigitsOf(n)), n)
  {
    SpelledChars(DigitsOf(n));
    NatDigits(n);
    assert n == 0 ==> DigitsOf(n) == [0];
  }

  lemma MantissaForm(digits: seq<Digit>)
    requires digits != []
    ensures var m := if |digits| == 1 then 1 else |digits| + 1;
            && |Mantissa(digits)| == m && DigitsAt(Mantissa(digits), 0, digits[..1])
            && (|digits| > 1 ==> Mantissa(digits)[1] == 0x2E && DigitsAt(Mantissa(digits), 2, digits[1..]))
  {
    if |digits| > 1 { PointAt(digits[..1], digits[1..]); }
  }

  lemma DigitsBefore(t: Text, rest: Text, at: nat, ds: seq<Digit>)
    requires DigitsAt(t, at, ds)
    ensures DigitsAt(t + rest, at, ds)
  {
  }

  lemma TailAt(t: Text, a: CodePoint, b: CodePoint, rest: Text)
    ensures var u := t + ([a, b] + rest); u[|t|] == a && u[|t| + 1] == b && u[|t| + 2..] == rest
  {
  }

  lemma ExponentForm(digits: seq<Digit>, exponent: int)
    requires digits != []
    ensures HasExponentForm(Mantissa(digits) + ExponentText(exponent), digits, exponent)
  {
    var n := if exponent >= 0 then exponent else -exponent;
    var head, tail := Mantissa(digits), ExponentText(exponent);
    MantissaForm(digits);
    DigitsBefore(head, tail, 0, digits[..1]);
    if |digits| > 1 {
      DigitsBefore(head, tail, 2, digits[1..]);
      assert (head + tail)[1] == head[1];
    }
    TailAt(head, EXP, if exponent >= 0 then PLUS else MINUS, Chars(DigitsOf(n)));
    DecimalChars(n);
  }

  lemma WholeForm(digits: seq<Digit>, exp: int)
    requires |digits| <= exp + |digits| <= 21 && digits != []
    ensures HasForm(Magnitude(digits, exp), digits, exp)
  {
  }

  /** Two runs of characters around one more. */
  lemma PointAt(a: seq<Digit>, b: seq<Digit>)
    ensures var u := Chars(a) + [DOT] + Chars(b);
            |u| == |a| + 1 + |b| && DigitsAt(u, 0, a) && u[|a|] == 0x2E && DigitsAt(u, |a| + 1, b)
  {
  }

  lemma SmallForm(digits: seq<Digit>, exp: int)
    requires -6 < exp + |digits| <= 0 && digits != []
    ensures HasForm(Magnitude(digits, exp), digits, exp)
  {
    var z := -(exp + |digits|);
    var frac := Zeros(z) + digits;
    PaddedAt(z, digits);
    assert Magnitude(digits, exp) == [0x30, DOT] + Chars(frac);
  }

  lemma PaddedAt(z: nat, digits: seq<Digit>)
    ensures var u := [0x30, DOT] + Chars(Zeros(z) + digits);
            |u| == 2 + z + |digits| && u[0] == 0x30 && u[1] == 0x2E && ZerosAt(u, 2, z) && DigitsAt(u, 2 + z, digits)
  {
  }

  lemma PointForm(digits: seq<Digit>, exp: int)
    requires exp < 0 < exp + |digits| <= 21
    ensures HasForm(Magnitude(digits, exp), digits, exp)
  {
    PointAt(digits[..exp + |digits|], digits[exp + |digits|..]);
  }

  lemma LargeForm(digits: seq<Digit>, exp: int)
    requires digits != [] && (exp + |digits| > 21 || exp + |digits| <= -6)
    ensures HasForm(Magnitude(digits, exp), digits, exp)
  {
    ExponentForm(digits, exp + |digits| - 1);
  }

  lemma MagnitudeForm(digits: seq<Digit>, exp: int)
    requires digits != []
    ensures HasForm(Magnitude(digits, exp), digits, exp)
  {
    var n := exp + |digits|;
    if |digits| <= n <= 21 {
      WholeForm(digits, exp);
    } else if 0 < n <= 21 {
      PointForm(digits, exp);
    } else if -6 < n <= 0 {
      SmallForm(digits, exp);
    } else {
      LargeForm(digits, exp);
    }
  }

  lemma SignThen(neg: bool, u: Text)
    ensures var t := (if neg then [MINUS] else []) + u;
            if neg then t != [] && t[0] == 0x2D && t[1..] == u else t == u
  {
  }

  /** The text of a double: `0`, or a minus sign exactly for the negative ones and one of the four forms. */
  lemma FloatForm(d: Double)
    ensures d.Zero? ==> FloatText(d) == [0x30]
    ensures d.Fin? && !d.neg ==> HasForm(FloatText(d), d.digits, d.exp)
    ensures d.Fin? && d.neg ==> FloatText(d) != [] && FloatText(d)[0] == 0x2D && HasForm(FloatText(d)[1..], d.digits, d.exp)
  {
    if d.Fin? {
      MagnitudeForm(d.digits, d.exp);
      SignThen(d.neg, Magnitude(d.digits, d.exp));
    }
  }

  /** A safe integer prints as its decimal digits; nothing else takes that path, and only what is not
      finite, or an integer beyond every double, has no text. */
  lemma NumberForm(n: Number, toFloat: int -> Option<Double>)
    ensures n.Int? && 0 <= n.i <= 0x1F_FFFF_FFFF_FFFF ==>
              JsNumber(n, toFloat).Some? && IsDecimal(JsNumber(n, toFloat).value, n.i)
    ensures n.Int? && -0x1F_FFFF_FFFF_FFFF <= n.i < 0 ==>
              && JsNumber(n, toFloat).Some? && JsNumber(n, toFloat).value != []
              && JsNumber(n, toFloat).value[0] == 0x2D && IsDecimal(JsNumber(n, toFloat).value[1..], -n.i)
    ensures JsNumber(n, toFloat).None? <==>
              n.NonFinite? || (n.Int? && (n.i > 0x1F_FFFF_FFFF_FFFF || n.i < -0x1F_FFFF_FFFF_FFFF) && toFloat(n.i).None?)
  {
    if n.Int? {
      var ds := DigitsOf(if n.i < 0 then -n.i else n.i);
      DecimalChars(if n.i < 0 then -n.i else n.i);
      assert ([MINUS] + Chars(ds))[1..] == Chars(ds);
    }
  }
}
