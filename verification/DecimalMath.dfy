/** Multiplying and comparing decimal strings with whole numbers, against exact real arithmetic. */
module DecimalMath {
  import opened Wrappers
  import opened Numerals
  import opened Reals

  datatype Scaled = Scaled(digits: nat, scale: nat, negative: bool)

  const MAX_FRACTION_DIGITS := 12

  // ---------- the parser ----------

  predicate IsNegative(value: string) {
    "-" <= value
  }

  function Unsigned(value: string): string {
    if IsNegative(value) then value[1..] else value
  }

  function Whole(unsigned: string): string {
    unsigned[..IndexOf('.', unsigned)]
  }

  function Fraction(unsigned: string): string {
    if IndexOf('.', unsigned) < |unsigned| then unsigned[IndexOf('.', unsigned) + 1..] else ""
  }

  /** An optional minus, digits, and optionally a point with digits after it. */
  predicate IsDecimal(value: string) {
    var unsigned := Unsigned(value);
    && Whole(unsigned) != "" && AllDigits(Whole(unsigned))
    && AllDigits(Fraction(unsigned))
    && (IndexOf('.', unsigned) < |unsigned| ==> Fraction(unsigned) != "")
  }

  function ParseDecimal(raw: string): Option<Scaled> {
    var value := Trim(raw);
    if !IsDecimal(value) then None
    else
      var unsigned := Unsigned(value);
      var fraction := Fraction(unsigned);
      var digits := NatOf(Whole(unsigned) + fraction);
      Some(Scaled(digits, |fraction|, digits != 0 && IsNegative(value)))
  }

  // ---------- what a decimal string means ----------

  function Signed(s: Scaled): int {
    if s.negative then -(s.digits as int) else s.digits as int
  }

  function Value(s: Scaled): real {
    Signed(s) as real / Pow10(s.scale) as real
  }

  // ---------- the product ----------

  /** `digits` at scale `from`, rounded to scale `to`: the floor of the scaled value plus one half. */
  function RoundedMagnitude(digits: nat, from: nat, to: nat): nat {
    ProductNonNegative(digits, Pow10(to));
    var numerator := 2 * (digits * Pow10(to)) + Pow10(from);
    QuotientNonNegative(numerator, 2 * Pow10(from));
    numerator / (2 * Pow10(from))
  }

  function Sign(negative: bool): string {
    if negative then "-" else ""
  }

  function Pointed(whole: string, fraction: string): string {
    if fraction == "" then whole else whole + "." + fraction
  }

  function Padded(digits: nat, fractionDigits: nat): (padded: string)
    ensures |padded| > fractionDigits && AllDigits(padded)
  {
    PadZerosKeeps(NatText(digits), fractionDigits + 1);
    PadZeros(NatText(digits), fractionDigits + 1)
  }

  function Print(negative: bool, digits: nat, fractionDigits: nat): string {
    var padded := Padded(digits, fractionDigits);
    var point := |padded| - fractionDigits;
    Sign(negative && digits != 0) + Pointed(padded[..point], padded[point..])
  }

  function ProductDigits(a: Scaled, b: Scaled, fractionDigits: nat): nat {
    RoundedMagnitude(a.digits * b.digits, a.scale + b.scale, fractionDigits)
  }

  function Product(left: string, right: string, fractionDigits: int): Option<string> {
    var a, b := ParseDecimal(left), ParseDecimal(right);
    if a.None? || b.None? || fractionDigits < 0 || fractionDigits > MAX_FRACTION_DIGITS then None
    else
      Some(Print(a.value.negative != b.value.negative, ProductDigits(a.value, b.value, fractionDigits), fractionDigits))
  }

  lemma HalfOnExact(x: nat, p: nat)
    requires p > 0
    ensures (2 * (p * x) + p) / (2 * p) == x
  {
    assert x * (2 * p) == 2 * (p * x);
    DivideUnique(2 * (p * x) + p, 2 * p, x, p);
  }

  lemma ScaleUp(digits: nat, from: nat, to: nat)
    requires from <= to
    ensures RoundedMagnitude(digits, from, to) == digits * Pow10(to - from)
  {
    Pow10Adds(from, to - from);
    var p, d := Pow10(from), Pow10(to - from);
    assert digits * (p * d) == p * (digits * d);
    HalfOnExact(digits * d, p);
  }

  /** Dividing and looking at twice the remainder is the same as adding one half and flooring. */
  lemma HalfUp(digits: nat, d: nat)
    requires d > 0
    ensures (2 * digits + d) / (2 * d) == digits / d + (if digits % d * 2 >= d then 1 else 0)
  {
    var q, r := digits / d, digits % d;
    assert digits == q * d + r;
    if r * 2 >= d {
      assert (q + 1) * (2 * d) == 2 * (q * d) + 2 * d;
      DivideUnique(2 * digits + d, 2 * d, q + 1, 2 * r - d);
    } else {
      assert q * (2 * d) == 2 * (q * d);
      DivideUnique(2 * digits + d, 2 * d, q, 2 * r + d);
    }
  }

  lemma HalfUpScaled(digits: nat, p: nat, d: nat)
    requires p > 0 && d > 0
    ensures 2 * (p * d) > 0
    ensures (2 * (digits * p) + p * d) / (2 * (p * d)) == digits / d + (if digits % d * 2 >= d then 1 else 0)
  {
    CancelFactor(p, 2 * digits + d, 2 * d);
    assert 2 * (digits * p) + p * d == p * (2 * digits + d);
    assert 2 * (p * d) == p * (2 * d);
    HalfUp(digits, d);
  }

  lemma RoundDown(digits: nat, from: nat, to: nat)
    requires from > to
    ensures var divisor := Pow10(from - to);
            RoundedMagnitude(digits, from, to)
            == digits / divisor + (if digits % divisor * 2 >= divisor then 1 else 0)
  {
    Pow10Adds(to, from - to);
    HalfUpScaled(digits, Pow10(to), Pow10(from - to));
  }

  lemma RoundedZero(from: nat, to: nat)
    ensures RoundedMagnitude(0, from, to) == 0
  {
    assert 0 * Pow10(to) == 0;
    DivideUnique(Pow10(from), 2 * Pow10(from), 0, Pow10(from));
  }

  /** A zero factor leaves nothing for a sign to attach to. */
  lemma ZeroHasNoSign(a: Scaled, b: Scaled, fractionDigits: nat)
    ensures var digits := ProductDigits(a, b, fractionDigits);
            Print(a.negative != b.negative && a.digits != 0 && b.digits != 0, digits, fractionDigits)
            == Print(a.negative != b.negative, digits, fractionDigits)
  {
    if a.digits == 0 || b.digits == 0 {
      assert a.digits * b.digits == 0;
      RoundedZero(a.scale + b.scale, fractionDigits);
    }
  }

  /** The middle of the multiplication: `digits` moves from the product's scale to the wanted one. */
  method Rescale(product: nat, productScale: nat, fractionDigits: nat) returns (digits: nat)
    ensures digits == RoundedMagnitude(product, productScale, fractionDigits)
  {
    digits := product;
    if productScale < fractionDigits {
      ScaleUp(product, productScale, fractionDigits);
      digits := digits * Pow10(fractionDigits - productScale);
    } else if productScale > fractionDigits {
      RoundDown(product, productScale, fractionDigits);
      var divisor := Pow10(productScale - fractionDigits);
      var remainder := digits % divisor;
      digits := digits / divisor;
      if remainder * 2 >= divisor {
        digits := digits + 1;
      }
    } else {
      ScaleUp(product, productScale, fractionDigits);
    }
  }

  /** Everything after both arguments have parsed. */
  method MultiplyScaled(a: Scaled, b: Scaled, fractionDigits: nat) returns (text: string)
    ensures text == Print(a.negative != b.negative, ProductDigits(a, b, fractionDigits), fractionDigits)
  {
    var productScale := a.scale + b.scale;
    var negative := a.negative != b.negative && a.digits != 0 && b.digits != 0;
    var digits := Rescale(a.digits * b.digits, productScale, fractionDigits);
    ZeroHasNoSign(a, b, fractionDigits);
    text := Print(negative, digits, fractionDigits);
  }

  method MultiplyDecimalStrings(left: string, right: string, fractionDigits: int := 2) returns (r: Option<string>)
    ensures r == Product(left, right, fractionDigits)
  {
    var a, b := ParseDecimal(left), ParseDecimal(right);
    if a.None? || b.None? {
      return None;
    }
    if fractionDigits < 0 || fractionDigits > MAX_FRACTION_DIGITS {
      return None;
    }
    var text := MultiplyScaled(a.value, b.value, fractionDigits);
    r := Some(text);
  }

  // ---------- printing and parsing undo each other ----------

  /** Digits, a point, digits: the parts come apart again. */
  lemma SplitParts(whole: string, fraction: string)
    requires AllDigits(whole) && AllDigits(fraction)
    ensures Whole(whole + "." + fraction) == whole && Fraction(whole + "." + fraction) == fraction
    ensures Whole(whole) == whole && Fraction(whole) == ""
    ensures IndexOf('.', whole) == |whole| && IndexOf('.', whole + "." + fraction) == |whole|
  {
    IndexOfAfter('.', whole, "." + fraction);
    assert whole + "." + fraction == whole + ("." + fraction);
    IndexOfAfter('.', whole, "");
    assert whole + "" == whole;
  }

  /** A well-formed unsigned numeral takes or leaves a minus. */
  lemma SignParts(negative: bool, whole: string, fraction: string)
    requires whole != "" && AllDigits(whole) && AllDigits(fraction)
    ensures var text := Sign(negative) + Pointed(whole, fraction);
            && Trim(text) == text && IsDecimal(text)
            && IsNegative(text) == negative && Unsigned(text) == Pointed(whole, fraction)
            && Whole(Unsigned(text)) == whole && Fraction(Unsigned(text)) == fraction
  {
    var unsigned := Pointed(whole, fraction);
    var text := Sign(negative) + unsigned;
    SplitParts(whole, fraction);
    assert unsigned[0] == whole[0] && IsDigit(unsigned[0]);
    assert IsDigit(whole[|whole| - 1]) && (fraction != "" ==> IsDigit(fraction[|fraction| - 1]));
    assert unsigned[|unsigned| - 1] == if fraction == "" then whole[|whole| - 1] else fraction[|fraction| - 1];
    assert text[0] == (if negative then '-' else unsigned[0]) && text[|text| - 1] == unsigned[|unsigned| - 1];
    TrimNothing(text);
    assert Unsigned(text) == unsigned;
  }

  lemma ParseParts(negative: bool, whole: string, fraction: string)
    requires whole != "" && AllDigits(whole) && AllDigits(fraction)
    ensures var digits := NatOf(whole + fraction);
            ParseDecimal(Sign(negative) + Pointed(whole, fraction))
            == Some(Scaled(digits, |fraction|, negative && digits != 0))
  {
    SignParts(negative, whole, fraction);
  }

  lemma PaddedReads(digits: nat, fractionDigits: nat)
    ensures NatOf(Padded(digits, fractionDigits)) == digits
    ensures var padded := Padded(digits, fractionDigits);
            padded[0] == '0' ==> |padded| == fractionDigits + 1
  {
    NatOfText(digits);
    PadZerosKeeps(NatText(digits), fractionDigits + 1);
  }

  /** What is printed, as a whole part and a fraction. */
  lemma PrintShape(negative: bool, digits: nat, fractionDigits: nat) returns (whole: string, fraction: string)
    ensures Print(negative, digits, fractionDigits) == Sign(negative && digits != 0) + Pointed(whole, fraction)
    ensures whole != "" && AllDigits(whole) && AllDigits(fraction) && |fraction| == fractionDigits
    ensures NatOf(whole + fraction) == digits && (whole[0] == '0' ==> whole == "0")
  {
    var padded := Padded(digits, fractionDigits);
    PaddedReads(digits, fractionDigits);
    whole, fraction := padded[..|padded| - fractionDigits], padded[|padded| - fractionDigits..];
    assert padded == whole + fraction && whole[0] == padded[0];
  }

  lemma PrintParses(negative: bool, digits: nat, fractionDigits: nat)
    ensures ParseDecimal(Print(negative, digits, fractionDigits))
            == Some(Scaled(digits, fractionDigits, negative && digits != 0))
  {
    var whole, fraction := PrintShape(negative, digits, fractionDigits);
    ParseParts(negative && digits != 0, whole, fraction);
  }

  /** The one spelling of a value at a scale: no spare zeros in front, no minus on zero. */
  predicate Canonical(text: string, fractionDigits: nat) {
    var unsigned := Unsigned(text);
    var whole, fraction := Whole(unsigned), Fraction(unsigned);
    && IsDecimal(text)
    && |fraction| == fractionDigits
    && (whole[0] == '0' ==> whole == "0")
    && (IsNegative(text) ==> NatOf(whole + fraction) != 0)
  }

  /** Every well-formed numeral is its sign, its whole part and its fraction. */
  lemma Reassemble(text: string)
    requires IsDecimal(text)
    ensures text == Sign(IsNegative(text)) + Pointed(Whole(Unsigned(text)), Fraction(Unsigned(text)))
  {
    var unsigned := Unsigned(text);
    var k := IndexOf('.', unsigned);
    if k < |unsigned| {
      assert unsigned == unsigned[..k] + "." + unsigned[k + 1..];
    }
    if IsNegative(text) {
      assert text == "-" + text[1..];
    }
  }

  lemma LongerIsBigger(s: string, t: string)
    requires AllDigits(s) && AllDigits(t) && |s| > |t| && s[0] != '0'
    ensures NatOf(t) < NatOf(s)
  {
    NatOfBound(s);
    NatOfBound(t);
    Pow10Mono(|t|, |s| - 1);
  }

  /** A number's shortest text is no longer than any text of it, and as long as one with no spare zero. */
  lemma ShortestText(all: string)
    requires all != "" && AllDigits(all)
    ensures |NatText(NatOf(all))| <= |all|
    ensures all[0] != '0' ==> |NatText(NatOf(all))| == |all|
  {
    var short := NatText(NatOf(all));
    NatOfText(NatOf(all));
    if |short| > |all| {
      LongerIsBigger(short, all);
    } else if all[0] != '0' && |short| < |all| {
      LongerIsBigger(all, short);
    }
  }

  lemma CanonicalPadding(whole: string, fraction: string)
    requires whole != "" && AllDigits(whole) && AllDigits(fraction)
    requires whole[0] == '0' ==> whole == "0"
    ensures Padded(NatOf(whole + fraction), |fraction|) == whole + fraction
  {
    var all := whole + fraction;
    PaddedReads(NatOf(all), |fraction|);
    PadZerosKeeps(NatText(NatOf(all)), |fraction| + 1);
    assert all[0] == whole[0];
    ShortestText(all);
    NatOfInjective(Padded(NatOf(all), |fraction|), all);
  }

  /** Canonical texts are exactly the printed ones: parsing and printing one gives it back. */
  lemma CanonicalPrints(text: string, fractionDigits: nat)
    requires Canonical(text, fractionDigits)
    ensures var parsed := ParseDecimal(text);
            parsed.Some? && Print(parsed.value.negative, parsed.value.digits, fractionDigits) == text
  {
    var whole, fraction := Whole(Unsigned(text)), Fraction(Unsigned(text));
    Reassemble(text);
    ParseParts(IsNegative(text), whole, fraction);
    CanonicalPadding(whole, fraction);
    var padded := whole + fraction;
    assert padded[..|whole|] == whole && padded[|whole|..] == fraction;
  }

  lemma CanonicalParts(negative: bool, whole: string, fraction: string)
    requires whole != "" && AllDigits(whole) && AllDigits(fraction)
    requires (whole[0] == '0' ==> whole == "0") && (negative ==> NatOf(whole + fraction) != 0)
    ensures Canonical(Sign(negative) + Pointed(whole, fraction), |fraction|)
  {
    SignParts(negative, whole, fraction);
  }

  lemma PrintCanonical(negative: bool, digits: nat, fractionDigits: nat)
    ensures Canonical(Print(negative, digits, fractionDigits), fractionDigits)
  {
    var whole, fraction := PrintShape(negative, digits, fractionDigits);
    CanonicalParts(negative && digits != 0, whole, fraction);
  }

  // ---------- exact arithmetic ----------

  lemma QuotientAtLeast(a: real, b: real, c: real)
    requires b > 0.0 && a >= b * c
    ensures a / b >= c
  {
    assert (a / b) * b == a;
  }

  lemma QuotientBelow(a: real, b: real, c: real)
    requires b > 0.0 && a < b * c
    ensures a / b < c
  {
    assert (a / b) * b == a;
  }

  /** Flooring `n / p + 1/2`, without fractions. */
  lemma FloorBounds(n: int, p: int)
    requires p > 0
    ensures var m := (2 * n + p) / (2 * p); 2 * (p * m) <= 2 * n + p < 2 * (p * m) + 2 * p
  {
    var m := (2 * n + p) / (2 * p);
    assert 2 * n + p == m * (2 * p) + (2 * n + p) % (2 * p);
    assert m * (2 * p) == 2 * (p * m);
  }

  lemma WithinHalf(n: int, p: int, m: int)
    requires p > 0 && 2 * (p * m) <= 2 * n + p < 2 * (p * m) + 2 * p
    ensures m as real - 0.5 <= n as real / p as real < m as real + 0.5
  {
    var pr, mr := p as real, m as real;
    assert (p * m) as real == pr * mr;
    assert pr * (mr - 0.5) == pr * mr - 0.5 * pr && pr * (mr + 0.5) == pr * mr + 0.5 * pr;
    QuotientAtLeast(n as real, pr, mr - 0.5);
    QuotientBelow(n as real, pr, mr + 0.5);
  }

  /** The rounded magnitude is within one half of the exact one; a tie goes up. */
  lemma RoundedNear(digits: nat, from: nat, to: nat)
    ensures var m := RoundedMagnitude(digits, from, to) as real;
            m - 0.5 <= (digits * Pow10(to)) as real / Pow10(from) as real < m + 0.5
  {
    FloorBounds(digits * Pow10(to), Pow10(from));
    WithinHalf(digits * Pow10(to), Pow10(from), RoundedMagnitude(digits, from, to));
  }

  lemma SameQuotient(x: real, y: real, p: real)
    requires p > 0.0
    ensures x / p == y / p <==> x == y
    ensures x / p < y / p <==> x < y
  {
    assert (x / p) * p == x && (y / p) * p == y;
  }

  lemma FractionProduct(x: int, p: int, y: int, q: int)
    requires p > 0 && q > 0
    ensures p * q > 0
    ensures (x as real / p as real) * (y as real / q as real) == (x * y) as real / (p * q) as real
  {
    MultipleAtLeast(p, q);
    var s, t := x as real / p as real, y as real / q as real;
    assert s * p as real == x as real && t * q as real == y as real;
    assert (x * y) as real == (s * p as real) * (t * q as real) == (s * t) * (p as real * q as real);
    assert (p * q) as real == p as real * q as real;
  }

  function SignOf(a: Scaled, b: Scaled): int {
    if a.negative != b.negative then -1 else 1
  }

  /** The exact product over a common power of ten. */
  function ExactProduct(a: Scaled, b: Scaled): real {
    (SignOf(a, b) * (a.digits * b.digits)) as real / Pow10(a.scale + b.scale) as real
  }

  lemma SignedProduct(a: Scaled, b: Scaled)
    ensures Signed(a) * Signed(b) == SignOf(a, b) * (a.digits * b.digits)
  {
  }

  /** `ExactProduct` is the product of the two values. */
  lemma ProductValue(a: Scaled, b: Scaled)
    ensures Value(a) * Value(b) == ExactProduct(a, b)
  {
    FractionProduct(Signed(a), Pow10(a.scale), Signed(b), Pow10(b.scale));
    Pow10Adds(a.scale, b.scale);
    SignedProduct(a, b);
  }

  lemma QuotientTimes(a: real, b: real)
    requires b > 0.0
    ensures (a / b) * b == a
  {
  }

  lemma CancelGrid(x: real, y: real, g: real)
    requires g > 0.0
    ensures x * g <= y * g <==> x <= y
    ensures x * g == y * g <==> x == y
  {
    SameQuotient(x * g, y * g, g);
    assert x * g / g == x && y * g / g == y;
  }

  /** Nearest multiple of 1/grid, ties away from zero. */
  ghost predicate NearestAway(r: real, exact: real, grid: real)
    requires grid > 0.0
  {
    Abs(r - exact) <= 0.5 / grid && (Abs(r - exact) == 0.5 / grid ==> Abs(r) > Abs(exact))
  }

  lemma UnsignedNear(m: real, x: real, grid: real, r: real, e: real)
    requires grid > 0.0 && 0.0 <= x && m - 0.5 <= x < m + 0.5
    requires r * grid == m && e * grid == x
    ensures Abs(r - e) <= 0.5 / grid
    ensures Abs(r - e) == 0.5 / grid ==> r > e
    ensures e >= 0.0
    ensures m == x ==> r == e
  {
    var half := 0.5 / grid;
    QuotientTimes(0.5, grid);
    assert (r - e) * grid == m - x && (-half) * grid == -0.5;
    CancelGrid(r - e, half, grid);
    CancelGrid(r - e, -half, grid);
    CancelGrid(0.0, e, grid);
    CancelGrid(r, e, grid);
  }

  /** `m` is `x` rounded; the same holds, mirrored or not, for their multiples of 1/grid. */
  lemma SignedNear(sign: int, m: real, x: real, grid: real, r: real, e: real)
    requires sign == 1 || sign == -1
    requires grid > 0.0 && 0.0 <= x && 0.0 <= m && m - 0.5 <= x < m + 0.5
    requires r * grid == sign as real * m && e * grid == sign as real * x
    ensures NearestAway(r, e, grid)
    ensures m == x ==> r == e
  {
    if sign == 1 {
      UnsignedNear(m, x, grid, r, e);
    } else {
      assert (-r) * grid == -(r * grid) && (-e) * grid == -(e * grid);
      UnsignedNear(m, x, grid, -r, -e);
    }
  }

  lemma GridAlgebra(e: real, s: real, n: real, p: real, g: real, x: real)
    requires p > 0.0 && e * p == s * n && x * p == n * g
    ensures e * g == s * x
  {
    calc {
      (e * g) * p;
      (e * p) * g;
      (s * n) * g;
      s * (n * g);
      s * (x * p);
      (s * x) * p;
    }
    CancelGrid(e * g, s * x, p);
  }

  /** The rational that is rounded: the product of the digits, moved to the wanted scale. */
  function OnGrid(a: Scaled, b: Scaled, fractionDigits: nat): real {
    (a.digits * b.digits * Pow10(fractionDigits)) as real / Pow10(a.scale + b.scale) as real
  }

  lemma OnGridPositive(a: Scaled, b: Scaled, fractionDigits: nat)
    ensures OnGrid(a, b, fractionDigits) >= 0.0
  {
    ProductNonNegative(a.digits, b.digits);
    ProductNonNegative(a.digits * b.digits, Pow10(fractionDigits));
    QuotientAtLeast((a.digits * b.digits * Pow10(fractionDigits)) as real, Pow10(a.scale + b.scale) as real, 0.0);
  }

  lemma GridStep(e: real, sign: int, n: nat, p: int, grid: int)
    requires p > 0 && e == (sign * n) as real / p as real
    ensures e * grid as real == sign as real * ((n * grid) as real / p as real)
  {
    QuotientTimes((sign * n) as real, p as real);
    QuotientTimes((n * grid) as real, p as real);
    assert (sign * n) as real == sign as real * n as real;
    assert (n * grid) as real == n as real * grid as real;
    GridAlgebra(e, sign as real, n as real, p as real, grid as real, (n * grid) as real / p as real);
  }

  lemma ExactOnGrid(a: Scaled, b: Scaled, fractionDigits: nat)
    ensures ExactProduct(a, b) * Pow10(fractionDigits) as real == SignOf(a, b) as real * OnGrid(a, b, fractionDigits)
  {
    GridStep(ExactProduct(a, b), SignOf(a, b), a.digits * b.digits, Pow10(a.scale + b.scale), Pow10(fractionDigits));
  }

  lemma DigitsNearGrid(a: Scaled, b: Scaled, fractionDigits: nat)
    ensures var m := ProductDigits(a, b, fractionDigits) as real;
            m - 0.5 <= OnGrid(a, b, fractionDigits) < m + 0.5
  {
    RoundedNear(a.digits * b.digits, a.scale + b.scale, fractionDigits);
  }

  lemma ExactWhenScalesFit(a: Scaled, b: Scaled, fractionDigits: nat)
    requires a.scale + b.scale <= fractionDigits
    ensures ProductDigits(a, b, fractionDigits) as real == OnGrid(a, b, fractionDigits)
  {
    var n, from := a.digits * b.digits, a.scale + b.scale;
    ScaleUp(n, from, fractionDigits);
    Pow10Adds(from, fractionDigits - from);
    var p, d := Pow10(from), Pow10(fractionDigits - from);
    assert n * (p * d) == (n * d) * p;
    WidenFraction(n * d, 1, p);
    assert (n * d) as real / 1 as real == (n * d) as real;
  }

  /** The rounded product as a scaled number: magnitude, scale and a sign that zero never has. */
  function RoundedProduct(a: Scaled, b: Scaled, fractionDigits: nat): Scaled {
    var digits := ProductDigits(a, b, fractionDigits);
    Scaled(digits, fractionDigits, a.negative != b.negative && digits != 0)
  }

  /** The product's text is canonical and parses to the rounded product. */
  lemma ProductParses(left: string, right: string, fractionDigits: nat, a: Scaled, b: Scaled)
    requires ParseDecimal(left) == Some(a) && ParseDecimal(right) == Some(b) && fractionDigits <= MAX_FRACTION_DIGITS
    ensures var text := Product(left, right, fractionDigits);
            && text.Some? && Canonical(text.value, fractionDigits)
            && ParseDecimal(text.value) == Some(RoundedProduct(a, b, fractionDigits))
  {
    var m := ProductDigits(a, b, fractionDigits);
    PrintParses(a.negative != b.negative, m, fractionDigits);
    PrintCanonical(a.negative != b.negative, m, fractionDigits);
  }

  lemma GridDigits(a: Scaled, b: Scaled, fractionDigits: nat) returns (m: int, x: real)
    ensures m == ProductDigits(a, b, fractionDigits) && x == OnGrid(a, b, fractionDigits)
    ensures 0 <= m && 0.0 <= x && m as real - 0.5 <= x < m as real + 0.5
    ensures a.scale + b.scale <= fractionDigits ==> m as real == x
  {
    m, x := ProductDigits(a, b, fractionDigits), OnGrid(a, b, fractionDigits);
    OnGridPositive(a, b, fractionDigits);
    DigitsNearGrid(a, b, fractionDigits);
    if a.scale + b.scale <= fractionDigits {
      ExactWhenScalesFit(a, b, fractionDigits);
    }
  }

  lemma GridScale(a: Scaled, b: Scaled, fractionDigits: nat) returns (sign: real, x: real, exact: real, grid: real)
    ensures sign == SignOf(a, b) as real && x == OnGrid(a, b, fractionDigits)
    ensures exact == ExactProduct(a, b) && grid == Pow10(fractionDigits) as real
    ensures exact * grid == sign * x
  {
    sign, x := SignOf(a, b) as real, OnGrid(a, b, fractionDigits);
    exact, grid := ExactProduct(a, b), Pow10(fractionDigits) as real;
    ExactOnGrid(a, b, fractionDigits);
  }

  lemma GridSign(a: Scaled, b: Scaled, fractionDigits: nat) returns (m: int)
    ensures m == ProductDigits(a, b, fractionDigits)
    ensures Signed(RoundedProduct(a, b, fractionDigits)) == if SignOf(a, b) == 1 then m else -m
  {
    m := ProductDigits(a, b, fractionDigits);
  }

  /** The rounding behind a product, as bare numbers: `m` is `x` to the nearest whole. */
  lemma GridFacts(a: Scaled, b: Scaled, fractionDigits: nat)
    returns (sign: int, m: int, x: real, exact: real, grid: real)
    ensures (sign == 1 || sign == -1) && grid == Pow10(fractionDigits) as real && exact == ExactProduct(a, b)
    ensures exact * grid == sign as real * x
    ensures 0 <= m && 0.0 <= x && m as real - 0.5 <= x < m as real + 0.5
    ensures Signed(RoundedProduct(a, b, fractionDigits)) == sign * m
    ensures a.scale + b.scale <= fractionDigits ==> m as real == x
  {
    var sign', x' := 0.0, 0.0;
    sign', x, exact, grid := GridScale(a, b, fractionDigits);
    m, x' := GridDigits(a, b, fractionDigits);
    var m' := GridSign(a, b, fractionDigits);
    sign := SignOf(a, b);
    assert sign as real * x == sign' * x by {
      assert sign as real == sign';
    }
    assert sign * m == if sign == 1 then m else -m;
  }

  lemma NearestOnGrid(s: Scaled, sign: int, m: int, x: real, exact: real, grid: real)
    requires (sign == 1 || sign == -1) && Signed(s) == sign * m && grid == Pow10(s.scale) as real
    requires 0 <= m && 0.0 <= x && m as real - 0.5 <= x < m as real + 0.5
    requires exact * grid == sign as real * x
    ensures NearestAway(Value(s), exact, grid)
    ensures m as real == x ==> Value(s) == exact
  {
    QuotientTimes(Signed(s) as real, grid);
    assert (sign * m) as real == sign as real * m as real;
    SignedNear(sign, m as real, x, grid, Value(s), exact);
  }

  lemma NearestValue(a: Scaled, b: Scaled, fractionDigits: nat) returns (s: Scaled, exact: real, grid: real)
    ensures s == RoundedProduct(a, b, fractionDigits) && exact == ExactProduct(a, b)
    ensures grid == Pow10(fractionDigits) as real
    ensures NearestAway(Value(s), exact, grid)
    ensures a.scale + b.scale <= fractionDigits ==> Value(s) == exact
  {
    var sign, m, x;
    sign, m, x, exact, grid := GridFacts(a, b, fractionDigits);
    s := RoundedProduct(a, b, fractionDigits);
    NearestOnGrid(s, sign, m, x, exact, grid);
  }

  /** The printed product is canonical, parses back at the wanted scale, and is the exact
      product rounded to the nearest multiple of 10^-fractionDigits, ties away from zero. */
  lemma MultiplyRoundsToNearest(left: string, right: string, fractionDigits: nat, a: Scaled, b: Scaled)
    requires ParseDecimal(left) == Some(a) && ParseDecimal(right) == Some(b) && fractionDigits <= MAX_FRACTION_DIGITS
    ensures var text := Product(left, right, fractionDigits);
            && text.Some? && Canonical(text.value, fractionDigits)
            && ParseDecimal(text.value).Some?
            && var s := ParseDecimal(text.value).value;
            && s.scale == fractionDigits
            && NearestAway(Value(s), ExactProduct(a, b), Pow10(fractionDigits) as real)
            && (a.scale + b.scale <= fractionDigits ==> Value(s) == ExactProduct(a, b))
  {
    ProductParses(left, right, fractionDigits, a, b);
    var s, exact, grid := NearestValue(a, b, fractionDigits);
  }

  // ---------- comparison ----------

  function PadScale(value: Scaled, scale: nat): nat {
    if scale <= value.scale then value.digits
    else
      ProductNonNegative(value.digits, Pow10(scale - value.scale));
      value.digits * Pow10(scale - value.scale)
  }

  function Max(m: nat, n: nat): nat {
    if m < n then n else m
  }

  function CompareDecimalStrings(left: string, right: string): Option<int> {
    var a, b := ParseDecimal(left), ParseDecimal(right);
    if a.None? || b.None? then None
    else
      var scale := Max(a.value.scale, b.value.scale);
      var av := (if a.value.negative then -1 else 1) * PadScale(a.value, scale);
      var bv := (if b.value.negative then -1 else 1) * PadScale(b.value, scale);
      Some(if av == bv then 0 else if av > bv then 1 else -1)
  }

  lemma WidenFraction(x: int, p: int, d: int)
    requires p > 0 && d > 0
    ensures p * d > 0 && (x * d) as real / (p * d) as real == x as real / p as real
  {
    FractionProduct(x, p, d, d);
    assert d as real / d as real == 1.0;
  }

  function SignedPad(s: Scaled, scale: nat): int {
    (if s.negative then -1 else 1) * PadScale(s, scale)
  }

  lemma SignedPadScaled(s: Scaled, scale: nat, d: nat)
    requires PadScale(s, scale) == s.digits * d
    ensures SignedPad(s, scale) == Signed(s) * d
  {
    if s.negative {
      assert -1 * (s.digits * d) == (-1 * s.digits) * d;
    }
  }

  lemma PaddedValue(s: Scaled, scale: nat)
    requires s.scale <= scale
    ensures Value(s) == SignedPad(s, scale) as real / Pow10(scale) as real
  {
    Pow10Adds(s.scale, scale - s.scale);
    var d := Pow10(scale - s.scale);
    assert PadScale(s, scale) == s.digits * d;
    WidenFraction(Signed(s), Pow10(s.scale), d);
    SignedPadScaled(s, scale, d);
  }

  /** The comparator is the order of the rationals. */
  lemma CompareIsRationalOrder(left: string, right: string)
    ensures CompareDecimalStrings(left, right).Some? <==> ParseDecimal(left).Some? && ParseDecimal(right).Some?
    ensures CompareDecimalStrings(left, right).Some? ==>
              var x, y := Value(ParseDecimal(left).value), Value(ParseDecimal(right).value);
              CompareDecimalStrings(left, right).value == if x < y then -1 else if x > y then 1 else 0
  {
    var a, b := ParseDecimal(left), ParseDecimal(right);
    if a.Some? && b.Some? {
      var scale := Max(a.value.scale, b.value.scale);
      PaddedValue(a.value, scale);
      PaddedValue(b.value, scale);
      var av, bv := SignedPad(a.value, scale), SignedPad(b.value, scale);
      SameQuotient(av as real, bv as real, Pow10(scale) as real);
      SameQuotient(bv as real, av as real, Pow10(scale) as real);
    }
  }

  ghost predicate AtMost(left: string, right: string) {
    var c := CompareDecimalStrings(left, right);
    c.Some? && c.value <= 0
  }

  lemma CompareTotalPreorder(x: string, y: string, z: string)
    requires ParseDecimal(x).Some? && ParseDecimal(y).Some? && ParseDecimal(z).Some?
    ensures CompareDecimalStrings(x, x) == Some(0)
    ensures CompareDecimalStrings(y, x) == Some(-CompareDecimalStrings(x, y).value)
    ensures AtMost(x, y) && AtMost(y, z) ==> AtMost(x, z)
  {
    CompareIsRationalOrder(x, x);
    CompareIsRationalOrder(x, y);
    CompareIsRationalOrder(y, x);
    CompareIsRationalOrder(y, z);
    CompareIsRationalOrder(x, z);
  }

  lemma FrontZeroDigits(whole: string, fraction: string)
    requires AllDigits(whole) && AllDigits(fraction)
    ensures AllDigits("0" + whole) && NatOf("0" + whole + fraction) == NatOf(whole + fraction)
  {
    assert AllDigits(whole + fraction);
    NatOfLeadingZero(whole + fraction);
    assert "0" + whole + fraction == "0" + (whole + fraction);
  }

  lemma BackZeroDigits(whole: string, fraction: string)
    requires AllDigits(whole) && AllDigits(fraction)
    ensures AllDigits(fraction + "0") && NatOf(whole + (fraction + "0")) == 10 * NatOf(whole + fraction)
  {
    var longer := whole + (fraction + "0");
    assert AllDigits(longer);
    assert longer[..|longer| - 1] == whole + fraction && longer[|longer| - 1] == '0';
  }

  lemma LeadingZeroSame(negative: bool, whole: string, fraction: string)
    requires whole != "" && AllDigits(whole) && AllDigits(fraction) && AllDigits("0" + whole)
    ensures ParseDecimal(Sign(negative) + Pointed("0" + whole, fraction))
            == ParseDecimal(Sign(negative) + Pointed(whole, fraction)) != None
  {
    FrontZeroDigits(whole, fraction);
    ParseParts(negative, "0" + whole, fraction);
    ParseParts(negative, whole, fraction);
  }

  lemma TrailingZeroTenfold(negative: bool, whole: string, fraction: string) returns (s: Scaled, t: Scaled)
    requires whole != "" && AllDigits(whole) && AllDigits(fraction) && AllDigits(fraction + "0")
    ensures ParseDecimal(Sign(negative) + Pointed(whole, fraction)) == Some(s)
    ensures ParseDecimal(Sign(negative) + Pointed(whole, fraction + "0")) == Some(t)
    ensures t.digits == 10 * s.digits && t.scale == s.scale + 1 && t.negative == s.negative
  {
    BackZeroDigits(whole, fraction);
    ParseParts(negative, whole, fraction);
    ParseParts(negative, whole, fraction + "0");
    var digits := NatOf(whole + fraction);
    s, t := Scaled(digits, |fraction|, negative && digits != 0), Scaled(10 * digits, |fraction| + 1, negative && digits != 0);
  }

  lemma TrailingZeroSame(negative: bool, whole: string, fraction: string)
    requires whole != "" && AllDigits(whole) && AllDigits(fraction) && AllDigits(fraction + "0")
    ensures SameValue(Sign(negative) + Pointed(whole, fraction + "0"), Sign(negative) + Pointed(whole, fraction))
  {
    var s, t := TrailingZeroTenfold(negative, whole, fraction);
    TenfoldSame(s, t);
  }

  ghost predicate SameValue(text: string, other: string) {
    && ParseDecimal(text).Some? && ParseDecimal(other).Some?
    && Value(ParseDecimal(text).value) == Value(ParseDecimal(other).value)
  }

  function ZeroRun(n: nat): (zeros: string)
    ensures |zeros| == n && AllDigits(zeros)
    ensures forall c <- zeros :: c == '0'
  {
    if n == 0 then "" else ZeroRun(n - 1) + "0"
  }

  lemma FrontZeroSame(negative: bool, whole: string, fraction: string)
    requires whole != "" && AllDigits(whole) && AllDigits(fraction)
    ensures AllDigits("0" + whole)
    ensures SameValue(Sign(negative) + Pointed("0" + whole, fraction), Sign(negative) + Pointed(whole, fraction))
  {
    FrontZeroDigits(whole, fraction);
    LeadingZeroSame(negative, whole, fraction);
  }

  lemma SameValueTransitive(x: string, y: string, z: string)
    requires SameValue(x, y) && SameValue(y, z)
    ensures SameValue(x, z)
  {
  }

  lemma ZeroRunShift(m: nat, whole: string)
    requires m > 0
    ensures ZeroRun(m) + whole == ZeroRun(m - 1) + ("0" + whole)
  {
  }

  lemma {:induction false} FrontZerosSame(negative: bool, whole: string, fraction: string, m: nat)
    requires whole != "" && AllDigits(whole) && AllDigits(fraction)
    ensures SameValue(Sign(negative) + Pointed(ZeroRun(m) + whole, fraction), Sign(negative) + Pointed(whole, fraction))
    decreases m
  {
    if m == 0 {
      assert ZeroRun(0) + whole == whole;
      ParseParts(negative, whole, fraction);
    } else {
      FrontZerosSame(negative, "0" + whole, fraction, m - 1);
      FrontZeroSame(negative, whole, fraction);
      ZeroRunShift(m, whole);
      SameValueTransitive(Sign(negative) + Pointed(ZeroRun(m) + whole, fraction),
                          Sign(negative) + Pointed("0" + whole, fraction), Sign(negative) + Pointed(whole, fraction));
    }
  }

  lemma {:induction false} BackZerosSame(negative: bool, whole: string, fraction: string, n: nat)
    requires whole != "" && AllDigits(whole) && AllDigits(fraction)
    ensures SameValue(Sign(negative) + Pointed(whole, fraction + ZeroRun(n)), Sign(negative) + Pointed(whole, fraction))
    decreases n
  {
    if n == 0 {
      assert fraction + ZeroRun(0) == fraction;
      ParseParts(negative, whole, fraction);
    } else {
      BackZerosSame(negative, whole, fraction, n - 1);
      assert fraction + ZeroRun(n) == fraction + ZeroRun(n - 1) + "0";
      TrailingZeroSame(negative, whole, fraction + ZeroRun(n - 1));
      SameValueTransitive(Sign(negative) + Pointed(whole, fraction + ZeroRun(n)),
                          Sign(negative) + Pointed(whole, fraction + ZeroRun(n - 1)), Sign(negative) + Pointed(whole, fraction));
    }
  }

  /** Any number of zeros in front of the whole part and behind the fraction changes nothing. */
  lemma CompareIgnoresZeros(negative: bool, whole: string, fraction: string, m: nat, n: nat)
    requires whole != "" && AllDigits(whole) && AllDigits(fraction)
    ensures CompareDecimalStrings(Sign(negative) + Pointed(ZeroRun(m) + whole, fraction + ZeroRun(n)),
                                  Sign(negative) + Pointed(whole, fraction)) == Some(0)
  {
    BackZerosSame(negative, whole, fraction, n);
    FrontZerosSame(negative, whole, fraction + ZeroRun(n), m);
    SameValueTransitive(Sign(negative) + Pointed(ZeroRun(m) + whole, fraction + ZeroRun(n)),
                        Sign(negative) + Pointed(whole, fraction + ZeroRun(n)), Sign(negative) + Pointed(whole, fraction));
    CompareIsRationalOrder(Sign(negative) + Pointed(ZeroRun(m) + whole, fraction + ZeroRun(n)),
                           Sign(negative) + Pointed(whole, fraction));
  }

  lemma TenfoldSame(s: Scaled, t: Scaled)
    requires t.digits == 10 * s.digits && t.scale == s.scale + 1 && t.negative == s.negative
    ensures Value(s) == Value(t)
  {
    WidenFraction(Signed(s), Pow10(s.scale), 10);
    assert Signed(t) == Signed(s) * 10 && Pow10(t.scale) == Pow10(s.scale) * 10;
  }

  // ---------- multiplication respects the order ----------

  /** Rounding half away from zero is monotone, through zero as well. */
  lemma RoundingMonotone(signX: int, mx: int, x: real, signY: int, my: int, y: real)
    requires (signX == 1 || signX == -1) && (signY == 1 || signY == -1)
    requires 0 <= mx && 0 <= my && 0.0 <= x && 0.0 <= y
    requires mx as real - 0.5 <= x < mx as real + 0.5 && my as real - 0.5 <= y < my as real + 0.5
    requires signX as real * x <= signY as real * y
    ensures signX * mx <= signY * my
  {
    assert 1 as real * x == x && (-1) as real * x == -x && 1 as real * y == y && (-1) as real * y == -y;
    if signX == 1 && signY == 1 {
      assert mx as real < my as real + 1.0;
    } else if signX == -1 && signY == -1 {
      assert my as real < mx as real + 1.0;
    } else if signX == 1 {
      assert x <= -y;
      assert mx as real <= 0.5 && my as real <= 0.5;
    }
  }

  lemma GridOrder(r: Scaled, q: Scaled)
    requires r.scale == q.scale
    ensures Value(r) <= Value(q) <==> Signed(r) <= Signed(q)
  {
    SameQuotient(Signed(q) as real, Signed(r) as real, Pow10(r.scale) as real);
  }

  lemma RoundedOrder(
    signX: int, mx: int, x: real, exactX: real, gridX: real, signY: int, my: int, y: real, exactY: real, gridY: real)
    requires (signX == 1 || signX == -1) && (signY == 1 || signY == -1) && gridX == gridY > 0.0
    requires 0 <= mx && 0 <= my && 0.0 <= x && 0.0 <= y
    requires mx as real - 0.5 <= x < mx as real + 0.5 && my as real - 0.5 <= y < my as real + 0.5
    requires exactX * gridX == signX as real * x && exactY * gridY == signY as real * y
    requires exactX <= exactY
    ensures signX * mx <= signY * my
  {
    ProductOrder(exactX, exactY, gridX);
    RoundingMonotone(signX, mx, x, signY, my, y);
  }

  lemma ScaledMonotone(a: Scaled, b: Scaled, c: Scaled, fractionDigits: nat) returns (r: Scaled, q: Scaled)
    requires ExactProduct(a, c) <= ExactProduct(b, c)
    ensures r == RoundedProduct(a, c, fractionDigits) && q == RoundedProduct(b, c, fractionDigits)
    ensures Signed(r) <= Signed(q)
  {
    var signX, mx, x, exactX, gridX := GridFacts(a, c, fractionDigits);
    var signY, my, y, exactY, gridY := GridFacts(b, c, fractionDigits);
    r, q := RoundedProduct(a, c, fractionDigits), RoundedProduct(b, c, fractionDigits);
    RoundedOrder(signX, mx, x, exactX, gridX, signY, my, y, exactY, gridY);
  }

  lemma FactorsOf(a: Scaled, b: Scaled) returns (x: real, y: real, exact: real)
    ensures x == Value(a) && y == Value(b) && exact == ExactProduct(a, b) && x * y == exact
  {
    x, y, exact := Value(a), Value(b), ExactProduct(a, b);
    ProductValue(a, b);
  }

  lemma ProductOrder(x: real, y: real, z: real)
    requires x <= y && z >= 0.0
    ensures x * z <= y * z
  {
  }

  lemma ExactProductMonotone(a: Scaled, b: Scaled, c: Scaled)
    requires Value(a) <= Value(b) && Value(c) >= 0.0
    ensures ExactProduct(a, c) <= ExactProduct(b, c)
  {
    var x, z, exactX := FactorsOf(a, c);
    var y, z', exactY := FactorsOf(b, c);
    ProductOrder(x, y, z);
  }

  lemma ScaledProductsOrdered(a: Scaled, b: Scaled, c: Scaled, fractionDigits: nat)
    requires Value(a) <= Value(b) && Value(c) >= 0.0
    ensures Value(RoundedProduct(a, c, fractionDigits)) <= Value(RoundedProduct(b, c, fractionDigits))
  {
    ExactProductMonotone(a, b, c);
    var r, q := ScaledMonotone(a, b, c, fractionDigits);
    GridOrder(r, q);
  }

  lemma ParseZero()
    ensures ParseDecimal("0") == Some(Scaled(0, 0, false))
  {
    ParseParts(false, "0", "");
    assert Sign(false) + Pointed("0", "") == "0" && "0" + "" == "0" && "0"[..0] == "";
  }

  lemma NotBelowZero(z: string)
    requires AtMost("0", z)
    ensures ParseDecimal(z).Some? && Value(ParseDecimal(z).value) >= 0.0
  {
    CompareIsRationalOrder("0", z);
    ParseZero();
    assert Value(Scaled(0, 0, false)) == 0.0;
  }

  /** x <= y and z >= 0 give x*z <= y*z after rounding, whatever the signs of x and y. */
  lemma MultiplyMonotone(x: string, y: string, z: string, fractionDigits: nat)
    requires AtMost(x, y) && AtMost("0", z) && fractionDigits <= MAX_FRACTION_DIGITS
    ensures Product(x, z, fractionDigits).Some? && Product(y, z, fractionDigits).Some?
    ensures AtMost(Product(x, z, fractionDigits).value, Product(y, z, fractionDigits).value)
  {
    CompareIsRationalOrder(x, y);
    NotBelowZero(z);
    var a, b, c := ParseDecimal(x).value, ParseDecimal(y).value, ParseDecimal(z).value;
    ScaledProductsOrdered(a, b, c, fractionDigits);
    ProductParses(x, z, fractionDigits, a, c);
    ProductParses(y, z, fractionDigits, b, c);
    CompareIsRationalOrder(Product(x, z, fractionDigits).value, Product(y, z, fractionDigits).value);
  }

  // ---------- which texts are decimals ----------

  /** Blanks, perhaps a minus, figures, perhaps a point and figures, blanks. */
  ghost predicate DecimalShape(raw: string, lead: string, sign: string, whole: string, fraction: string, trail: string) {
    && raw == lead + (sign + whole + (if fraction == "" then "" else "." + fraction)) + trail
    && (forall c <- lead + trail :: IsBlank(c))
    && (sign == "" || sign == "-") && whole != ""
    && (forall c <- whole + fraction :: '0' <= c <= '9')
  }

  lemma ShapeParts(raw: string, lead: string, sign: string, whole: string, fraction: string, trail: string)
    requires DecimalShape(raw, lead, sign, whole, fraction, trail)
    ensures AllDigits(whole) && AllDigits(fraction) && AllDigits(whole + fraction) && whole != ""
    ensures (forall c <- lead :: IsBlank(c)) && (forall c <- trail :: IsBlank(c))
    ensures raw == lead + (Sign(sign == "-") + Pointed(whole, fraction)) + trail
  {
    assert forall c :: c in lead || c in trail ==> c in lead + trail;
    assert forall c :: c in whole || c in fraction ==> c in whole + fraction;
    var point := if fraction == "" then "" else "." + fraction;
    assert whole + point == Pointed(whole, fraction);
    assert sign + whole + point == sign + (whole + point);
  }

  lemma ParseTrimmed(raw: string, text: string)
    requires Trim(raw) == Trim(text)
    ensures ParseDecimal(raw) == ParseDecimal(text)
  {
  }

  /** A text of that shape is read as its figures, with as many decimals as follow the
      point, negative after a minus unless it is zero. */
  lemma DecimalRead(raw: string, lead: string, sign: string, whole: string, fraction: string, trail: string)
    requires DecimalShape(raw, lead, sign, whole, fraction, trail)
    ensures AllDigits(whole + fraction)
    ensures var digits := NatOf(whole + fraction);
            ParseDecimal(raw) == Some(Scaled(digits, |fraction|, sign == "-" && digits != 0))
  {
    ShapeParts(raw, lead, sign, whole, fraction, trail);
    var core := Sign(sign == "-") + Pointed(whole, fraction);
    TrimIgnoresBlanks(lead, core, trail);
    ParseTrimmed(raw, core);
    ParseParts(sign == "-", whole, fraction);
  }

  lemma SpacesBlank(s: string)
    requires forall c <- s :: IsSpace(c)
    ensures forall c <- s :: IsBlank(c)
  {
  }

  lemma TrimParts(raw: string) returns (lead: string, trail: string)
    ensures raw == lead + Trim(raw) + trail
    ensures forall c <- lead + trail :: IsBlank(c)
  {
    lead := TrimStartParts(raw);
    trail := TrimEndParts(TrimStart(raw));
    SpacesBlank(lead);
    SpacesBlank(trail);
    assert raw == lead + (Trim(raw) + trail);
  }

  lemma DecimalParts(text: string) returns (sign: string, whole: string, fraction: string)
    requires IsDecimal(text)
    ensures text == sign + whole + (if fraction == "" then "" else "." + fraction)
    ensures (sign == "" || sign == "-") && whole != "" && (forall c <- whole + fraction :: '0' <= c <= '9')
  {
    Reassemble(text);
    sign, whole, fraction := Sign(IsNegative(text)), Whole(Unsigned(text)), Fraction(Unsigned(text));
  }

  /** Any other text is not a decimal. */
  lemma NothingElseRead(raw: string)
    requires ParseDecimal(raw).Some?
    ensures exists lead, sign, whole, fraction, trail :: DecimalShape(raw, lead, sign, whole, fraction, trail)
  {
    var lead, trail := TrimParts(raw);
    var sign, whole, fraction := DecimalParts(Trim(raw));
    assert DecimalShape(raw, lead, sign, whole, fraction, trail);
  }

  /** Blanks around a decimal change neither its value nor whether it parses. */
  lemma BlanksAroundDecimal(lead: string, raw: string, trail: string)
    requires (forall c <- lead :: IsBlank(c)) && (forall c <- trail :: IsBlank(c))
    ensures ParseDecimal(lead + raw + trail) == ParseDecimal(raw)
  {
    TrimIgnoresBlanks(lead, raw, trail);
  }

  /** There is no product exactly when a factor is not a decimal or the number of decimals
      asked for is not between 0 and 12. */
  lemma ProductMissing(left: string, right: string, fractionDigits: int)
    ensures Product(left, right, fractionDigits).None?
            <==> ParseDecimal(left).None? || ParseDecimal(right).None? || fractionDigits < 0 || fractionDigits > 12
  {
  }
}
