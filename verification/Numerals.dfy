/** Decimal digit strings, as `BigInt(text)` reads them and `toString` writes them. */
module Numerals {

  /** The characters `String.prototype.trim` removes: white space and line terminators. */
  predicate IsSpace(c: char) {
    || c == ' ' || ('\t' <= c <= '\r') || c == '\U{A0}' || c == '\U{1680}' || ('\U{2000}' <= c <= '\U{200A}')
    || c == '\U{2028}' || c == '\U{2029}' || c == '\U{202F}' || c == '\U{205F}' || c == '\U{3000}' || c == '\U{FEFF}'
  }

  function TrimStart(s: string): string {
    if s != [] && IsSpace(s[0]) then TrimStart(s[1..]) else s
  }

  function TrimEnd(s: string): string {
    if s != [] && IsSpace(s[|s| - 1]) then TrimEnd(s[..|s| - 1]) else s
  }

  function Trim(s: string): string {
    TrimEnd(TrimStart(s))
  }

  lemma TrimNothing(s: string)
    requires s != [] && !IsSpace(s[0]) && !IsSpace(s[|s| - 1])
    ensures Trim(s) == s
  {
  }

  /** Trimming only takes space off the two ends. */
  lemma {:induction false} TrimStartParts(s: string) returns (lead: string)
    ensures s == lead + TrimStart(s) && forall c <- lead :: IsSpace(c)
    decreases |s|
  {
    if s != [] && IsSpace(s[0]) {
      var rest := TrimStartParts(s[1..]);
      lead := [s[0]] + rest;
    } else {
      lead := [];
    }
  }

  lemma {:induction false} TrimEndParts(s: string) returns (trail: string)
    ensures s == TrimEnd(s) + trail && forall c <- trail :: IsSpace(c)
    decreases |s|
  {
    if s != [] && IsSpace(s[|s| - 1]) {
      var rest := TrimEndParts(s[..|s| - 1]);
      trail := rest + [s[|s| - 1]];
    } else {
      trail := [];
    }
  }

  lemma {:induction false} TrimEndKeepsFirst(s: string)
    requires s != "" && !IsSpace(s[0])
    ensures TrimEnd(s) != "" && TrimEnd(s)[0] == s[0]
    decreases |s|
  {
    if IsSpace(s[|s| - 1]) {
      TrimEndKeepsFirst(s[..|s| - 1]);
    }
  }

  /** White space and line terminators, written out. */
  predicate IsBlank(c: char) {
    || c == ' ' || c == '\t' || c == '\n' || c == '\U{0B}' || c == '\U{0C}' || c == '\r' || c == '\U{A0}' || c == '\U{1680}'
    || ('\U{2000}' <= c <= '\U{200A}') || c == '\U{2028}' || c == '\U{2029}' || c == '\U{202F}' || c == '\U{205F}'
    || c == '\U{3000}' || c == '\U{FEFF}'
  }

  lemma {:induction false} TrimStartBlanks(lead: string, s: string)
    requires forall c <- lead :: IsBlank(c)
    ensures TrimStart(lead + s) == TrimStart(s)
    decreases |lead|
  {
    if lead == "" {
      assert lead + s == s;
    } else {
      assert lead[0] in lead && (lead + s)[1..] == lead[1..] + s;
      assert forall c :: c in lead[1..] ==> c in lead;
      TrimStartBlanks(lead[1..], s);
    }
  }

  lemma {:induction false} TrimEndBlanks(s: string, trail: string)
    requires forall c <- trail :: IsBlank(c)
    ensures TrimEnd(s + trail) == TrimEnd(s)
    decreases |trail|
  {
    if trail == "" {
      assert s + trail == s;
    } else {
      var n := |trail| - 1;
      assert trail[n] in trail && (s + trail)[..|s| + n] == s + trail[..n];
      assert forall c :: c in trail[..n] ==> c in trail;
      TrimEndBlanks(s, trail[..n]);
    }
  }

  lemma {:induction false} TrimStartThrough(s: string, trail: string)
    ensures TrimStart(s + trail) == if TrimStart(s) == "" then TrimStart(trail) else TrimStart(s) + trail
    decreases |s|
  {
    if s == "" {
      assert s + trail == trail;
    } else if IsSpace(s[0]) {
      assert (s + trail)[1..] == s[1..] + trail;
      TrimStartThrough(s[1..], trail);
    }
  }

  /** Blanks around a text make no difference once it is trimmed. */
  lemma TrimIgnoresBlanks(lead: string, s: string, trail: string)
    requires (forall c <- lead :: IsBlank(c)) && (forall c <- trail :: IsBlank(c))
    ensures Trim(lead + s + trail) == Trim(s)
  {
    assert lead + s + trail == lead + (s + trail);
    TrimStartBlanks(lead, s + trail);
    TrimStartThrough(s, trail);
    TrimEndBlanks(TrimStart(s), trail);
    TrimStartBlanks(trail, "");
    assert trail + "" == trail;
  }

  // ---------- searching ----------

  function IndexOf(c: char, s: string): (k: nat)
    ensures k <= |s| && c !in s[..k] && (k < |s| ==> s[k] == c)
  {
    if s == [] || s[0] == c then 0 else 1 + IndexOf(c, s[1..])
  }

  lemma {:induction false} IndexOfAfter(c: char, before: string, rest: string)
    requires c !in before
    ensures IndexOf(c, before + rest) == |before| + IndexOf(c, rest)
    decreases |before|
  {
    if before == [] {
      assert before + rest == rest;
    } else {
      assert (before + rest)[1..] == before[1..] + rest;
      IndexOfAfter(c, before[1..], rest);
    }
  }

  // ---------- powers of ten ----------

  function Pow10(n: nat): (p: nat)
    ensures p > 0
  {
    if n == 0 then 1 else 10 * Pow10(n - 1)
  }

  lemma {:induction false} Pow10Adds(m: nat, n: nat)
    ensures Pow10(m + n) == Pow10(m) * Pow10(n)
    decreases m
  {
    if m != 0 {
      Pow10Adds(m - 1, n);
      assert Pow10(m) * Pow10(n) == 10 * (Pow10(m - 1) * Pow10(n));
    }
  }

  // ---------- digits ----------

  predicate IsDigit(c: char) {
    '0' <= c <= '9'
  }

  predicate AllDigits(s: string) {
    forall c <- s :: IsDigit(c)
  }

  function DigitOf(c: char): (d: nat)
    requires IsDigit(c)
    ensures d < 10
  {
    c as int - '0' as int
  }

  function DigitChar(d: nat): (c: char)
    requires d < 10
    ensures IsDigit(c) && DigitOf(c) == d
  {
    ('0' as int + d) as char
  }

  function NatOf(s: string): nat
    requires AllDigits(s)
  {
    if s == [] then 0 else NatOf(s[..|s| - 1]) * 10 + DigitOf(s[|s| - 1])
  }

  function NatText(n: nat): (s: string)
    ensures s != [] && AllDigits(s)
  {
    if n < 10 then [DigitChar(n)] else NatText(n / 10) + [DigitChar(n % 10)]
  }

  /** `padStart(width, "0")`. */
  function PadZeros(s: string, width: nat): string
    decreases width - |s|
  {
    if |s| >= width then s else PadZeros("0" + s, width)
  }

  lemma {:induction false} NatOfText(n: nat)
    ensures NatOf(NatText(n)) == n
    ensures NatText(n) == "0" || NatText(n)[0] != '0'
  {
    if n >= 10 {
      NatOfText(n / 10);
      var head := NatText(n / 10);
      assert NatText(n)[..|NatText(n)| - 1] == head;
    }
  }

  lemma ShiftDigit(high: nat, p: nat, low: nat, d: nat)
    ensures (high * p + low) * 10 + d == high * (10 * p) + (low * 10 + d)
  {
  }

  lemma {:induction false} NatOfAppend(s: string, t: string)
    requires AllDigits(s) && AllDigits(t)
    ensures AllDigits(s + t)
    ensures NatOf(s + t) == NatOf(s) * Pow10(|t|) + NatOf(t)
    decreases |t|
  {
    if t == [] {
      assert s + t == s;
    } else {
      var k := |t| - 1;
      NatOfAppend(s, t[..k]);
      assert (s + t)[..|s + t| - 1] == s + t[..k];
      ShiftDigit(NatOf(s), Pow10(k), NatOf(t[..k]), DigitOf(t[k]));
    }
  }

  lemma {:induction false} NatOfLeadingZero(s: string)
    requires AllDigits(s)
    ensures AllDigits("0" + s) && NatOf("0" + s) == NatOf(s)
  {
    NatOfAppend("0", s);
    assert "0"[..0] == "";
    assert NatOf("0") == 0;
  }

  lemma {:induction false} PadZerosKeeps(s: string, width: nat)
    requires AllDigits(s)
    ensures AllDigits(PadZeros(s, width)) && NatOf(PadZeros(s, width)) == NatOf(s)
    ensures |PadZeros(s, width)| == if |s| >= width then |s| else width
    ensures |s| >= width ==> PadZeros(s, width) == s
    ensures |s| < width ==> PadZeros(s, width)[0] == '0'
    decreases width - |s|
  {
    if |s| < width {
      NatOfLeadingZero(s);
      PadZerosKeeps("0" + s, width);
    }
  }

  /** Digit strings of one length are equal when they read as the same number. */
  lemma {:induction false} NatOfInjective(s: string, t: string)
    requires AllDigits(s) && AllDigits(t) && |s| == |t| && NatOf(s) == NatOf(t)
    ensures s == t
    decreases |s|
  {
    if s != [] {
      var k := |s| - 1;
      assert DigitOf(s[k]) == NatOf(s) % 10 && DigitOf(t[k]) == NatOf(t) % 10;
      NatOfInjective(s[..k], t[..k]);
      assert s == s[..k] + [s[k]] && t == t[..k] + [t[k]];
    }
  }

  lemma {:induction false} NatOfBound(s: string)
    requires AllDigits(s)
    ensures NatOf(s) < Pow10(|s|)
    ensures s != [] && s[0] != '0' ==> Pow10(|s| - 1) <= NatOf(s)
    decreases |s|
  {
    if |s| > 1 {
      NatOfBound(s[..|s| - 1]);
    } else if |s| == 1 {
      assert s[..0] == [];
      assert Pow10(1) == 10 * Pow10(0);
    }
  }

  lemma {:induction false} Pow10Mono(m: nat, n: nat)
    requires m <= n
    ensures Pow10(m) <= Pow10(n)
  {
    if m < n {
      Pow10Mono(m, n - 1);
    }
  }

  // ---------- division ----------

  lemma MultipleAtLeast(k: int, b: int)
    requires k >= 1 && b > 0
    ensures k * b >= b
  {
  }

  lemma DivideUnique(a: int, b: int, q: int, r: int)
    requires b > 0 && a == q * b + r && 0 <= r < b
    ensures a / b == q && a % b == r
  {
    var q', r' := a / b, a % b;
    assert a == q' * b + r' && 0 <= r' < b;
    if q > q' {
      assert (q - q') * b == q * b - q' * b;
      MultipleAtLeast(q - q', b);
    } else if q < q' {
      assert (q' - q) * b == q' * b - q * b;
      MultipleAtLeast(q' - q, b);
    }
  }

  lemma ProductNonNegative(a: int, b: int)
    requires a >= 0 && b >= 0
    ensures a * b >= 0
  {
  }

  lemma QuotientNonNegative(a: int, b: int)
    requires a >= 0 && b > 0
    ensures a / b >= 0
  {
  }

  lemma CancelFactor(p: int, a: int, b: int)
    requires p > 0 && b > 0
    ensures p * b > 0 && p * a / (p * b) == a / b
  {
    var q, r := a / b, a % b;
    assert p * a == q * (p * b) + p * r by {
      assert a == q * b + r;
      assert p * (q * b) == q * (p * b);
    }
    ProductNonNegative(p, r);
    MultipleAtLeast(b - r, p);
    assert p * b - p * r == (b - r) * p;
    MultipleAtLeast(b, p);
    DivideUnique(p * a, p * b, q, p * r);
  }
}
