/** Printing and parsing of token amounts (program/src/token.rs). */
module TokenText {
  import opened Results
  import opened Token

  /** Unsigned 64-bit wrap-around. */
  function Wrap(v: nat): nat {
    v % 0x1_0000_0000_0000_0000
  }

  function Pow10(n: nat): (p: nat)
    ensures p > 0
  {
    if n == 0 then 1 else 10 * Pow10(n - 1)
  }

  function Digit(n: nat): char
    requires n < 10
  {
    '0' + n as char
  }

  predicate IsDigit(c: char) {
    '0' <= c <= '9'
  }

  function DigitValue(c: char): nat
    requires IsDigit(c)
  {
    (c - '0') as nat
  }

  // ---------------------------------------------------------------- printing

  function Decimal(n: nat): string {
    if n < 10 then [Digit(n)] else Decimal(n / 10) + [Digit(n % 10)]
  }

  /** Quotient and remainder. */
  function DivMod(n: nat, d: nat): (r: (nat, nat))
    requires d > 0
    ensures n == r.0 * d + r.1 && r.1 < d
  {
    (n / d, n % d)
  }

  function PadLeft(s: string, width: nat): (r: string)
    ensures |r| >= width
  {
    if |s| >= width then s else seq(width - |s|, _ => '0') + s
  }

  /** The number in the `Display` form, without the space and the symbol. */
  function Print(amount: nat, decimals: nat): string
    requires decimals <= 9
  {
    var (whole, part) := DivMod(amount, Pow10(decimals));
    Decimal(whole) + "." + PadLeft(Decimal(part), 9)[9 - decimals..]
  }

  // ---------------------------------------------------------------- meaning of a text

  predicate Allowed(c: char) {
    IsDigit(c) || c == '.' || c == '_'
  }

  function Dots(s: string): nat {
    if s == "" then 0
    else Dots(s[..|s| - 1]) + if s[|s| - 1] == '.' then 1 else 0
  }

  function DigitCount(s: string): nat {
    if s == "" then 0
    else DigitCount(s[..|s| - 1]) + if IsDigit(s[|s| - 1]) then 1 else 0
  }

  /** The number of digits behind the first point. */
  function FractionDigits(s: string): nat {
    if s == "" then 0
    else
      var front := s[..|s| - 1];
      FractionDigits(front) + if IsDigit(s[|s| - 1]) && Dots(front) > 0 then 1 else 0
  }

  /** All digits read as one number. */
  function Significand(s: string): nat {
    if s == "" then 0
    else
      var rest := Significand(s[..|s| - 1]);
      if IsDigit(s[|s| - 1]) then 10 * rest + DigitValue(s[|s| - 1]) else rest
  }

  predicate AllAllowed(s: string) {
    forall i :: 0 <= i < |s| ==> Allowed(s[i])
  }

  predicate WellFormed(s: string, decimals: nat) {
    && AllAllowed(s)
    && Dots(s) <= 1
    && DigitCount(s) > 0
    && FractionDigits(s) <= decimals
  }

  /** The amount that a text denotes, in units of 10^-decimals. */
  function Meaning(s: string, decimals: nat): Option<nat> {
    if WellFormed(s, decimals) then Some(Significand(s) * Pow10(decimals - FractionDigits(s))) else None
  }

  lemma {:induction false} PrefixBounds(s: string, i: nat)
    requires i <= |s|
    ensures Dots(s[..i]) <= Dots(s)
    ensures DigitCount(s[..i]) <= DigitCount(s)
    ensures FractionDigits(s[..i]) <= FractionDigits(s)
    ensures Significand(s[..i]) <= Significand(s)
    decreases |s|
  {
    if i < |s| {
      PrefixBounds(s[..|s| - 1], i);
      assert s[..|s| - 1][..i] == s[..i];
    } else {
      assert s[..i] == s;
    }
  }

  // ---------------------------------------------------------------- parsing

  /** Whether the build traps on integer overflow, or wraps around. */
  datatype Build = Trapping | Wrapping

  datatype Parsed = Value(value: nat) | Rejected(message: string) | Overflowed

  /** The remainder is unique. */
  lemma WrapOf(v: nat, q: nat, r: nat)
    requires r <= MAX_U64 && v == q * 0x1_0000_0000_0000_0000 + r
    ensures Wrap(v) == r
  {
  }

  lemma WrapStep(v: nat, k: nat)
    ensures Wrap(Wrap(v) * 10 + k) == Wrap(v * 10 + k)
    ensures v <= MAX_U64 ==> Wrap(v) == v
  {
    var (q, m) := DivMod(v, 0x1_0000_0000_0000_0000);
    var (q', r) := DivMod(m * 10 + k, 0x1_0000_0000_0000_0000);
    WrapOf(v, q, m);
    WrapOf(m * 10 + k, q', r);
    WrapOf(v * 10 + k, 10 * q + q', r);
  }

  lemma Scaled(v: nat, exponent: nat, scale: nat)
    requires exponent > 0 && scale == Pow10(exponent)
    ensures v * scale == (10 * v) * Pow10(exponent - 1)
    ensures 10 * v <= v * scale
  {
    MulMonotone(1, Pow10(exponent - 1), 10 * v);
  }

  /** How one more character changes what is known of a text. */
  predicate Grown(p: string, q: string, c: char) {
    && Dots(q) == Dots(p) + (if c == '.' then 1 else 0)
    && DigitCount(q) == DigitCount(p) + (if IsDigit(c) then 1 else 0)
    && FractionDigits(q) == FractionDigits(p) + (if IsDigit(c) && Dots(p) > 0 then 1 else 0)
    && Significand(q) == (if IsDigit(c) then 10 * Significand(p) + DigitValue(c) else Significand(p))
  }

  lemma SnocStep(p: string, c: char)
    ensures Grown(p, p + [c], c)
  {
    assert (p + [c])[..|p|] == p;
  }

  lemma PrefixStep(s: string, i: nat)
    requires i < |s|
    ensures Grown(s[..i], s[..i + 1], s[i])
  {
    SnocStep(s[..i], s[i]);
    assert s[..i + 1] == s[..i] + [s[i]];
  }

  /** A digit string too large for a u64 already denotes too large an amount. */
  lemma PrefixTooLarge(s: string, i: nat, decimals: nat)
    requires i <= |s| && Significand(s[..i]) > MAX_U64
    ensures Meaning(s, decimals).Some? ==> Meaning(s, decimals).value > MAX_U64
  {
    PrefixBounds(s, i);
    if Meaning(s, decimals).Some? {
      MulMonotone(1, Pow10(decimals - FractionDigits(s)), Significand(s));
    }
  }

  /** A prefix that is already malformed. */
  lemma PrefixMalformed(s: string, i: nat, decimals: nat)
    requires i < |s|
    requires !Allowed(s[i]) || Dots(s[..i + 1]) > 1 || FractionDigits(s[..i + 1]) > decimals
    ensures Meaning(s, decimals).None?
  {
    PrefixBounds(s, i + 1);
  }

  /** The amount that a text should be read as: what it denotes if the build can
      hold that (modulo 2^64 if it wraps), and nothing otherwise. */
  function Expected(s: string, decimals: nat, build: Build): Option<nat> {
    match Meaning(s, decimals)
    case None => None
    case Some(v) => if build.Trapping? && v > MAX_U64 then None else Some(Wrap(v))
  }

  const TWO_POINTS := "Value can contain at most one '.' (decimal point)."
  const BAD_CHARACTER := "Invalid value, only digits, '_', and '.' are allowed."
  const TOO_MANY_DIGITS := "Value can contain at most 9 digits after the decimal point."
  const NO_DIGIT := "Value must contain at least one digit."

  /** What a message says about the text is true. */
  predicate Justified(message: string, s: string, decimals: nat) {
    || (message == TWO_POINTS && Dots(s) > 1)
    || (message == BAD_CHARACTER && !AllAllowed(s))
    || (message == TOO_MANY_DIGITS && FractionDigits(s) > decimals)
    || (message == NO_DIGIT && DigitCount(s) == 0)
  }

  function Accepted(r: Parsed): Option<nat> {
    if r.Value? then Some(r.value) else None
  }

  /** What the scanning loop knows after i characters. */
  ghost predicate Scanned(s: string, i: nat, decimals: nat, build: Build, value: int, isAfterDecimal: bool, exponent: int, hadDigit: bool)
    requires i <= |s|
  {
    var p := s[..i];
    && AllAllowed(p)
    && (isAfterDecimal <==> Dots(p) > 0)
    && Dots(p) <= 1
    && (hadDigit <==> DigitCount(p) > 0)
    && exponent == decimals - FractionDigits(p) >= 0
    && 0 <= value == Wrap(Significand(p))
    && (build.Trapping? ==> Significand(p) <= MAX_U64)
  }

  lemma AllowedPrefix(s: string, i: nat)
    requires i < |s| && AllAllowed(s[..i])
    ensures AllAllowed(s[..i + 1]) <==> Allowed(s[i])
  {
    assert s[..i + 1] == s[..i] + [s[i]];
  }

  /** What a digit does to the value. */
  lemma DigitValueGrows(s: string, i: nat, build: Build, value: nat)
    requires i < |s| && IsDigit(s[i]) && value == Wrap(Significand(s[..i]))
    requires build.Trapping? ==> Significand(s[..i]) <= MAX_U64
    ensures Wrap(value * 10 + DigitValue(s[i])) == Wrap(Significand(s[..i + 1]))
    ensures build.Trapping? ==> value * 10 + DigitValue(s[i]) == Significand(s[..i + 1])
  {
    PrefixStep(s, i);
    WrapStep(Significand(s[..i]), DigitValue(s[i]));
  }

  /** A trapped overflow, or a digit too many behind the point. */
  lemma DigitRefused(s: string, i: nat, decimals: nat)
    requires i < |s|
    ensures Significand(s[..i + 1]) > MAX_U64 ==> Expected(s, decimals, Trapping) == None
    ensures FractionDigits(s[..i + 1]) > decimals ==> Meaning(s, decimals).None? && FractionDigits(s) > decimals
  {
    if Significand(s[..i + 1]) > MAX_U64 {
      PrefixTooLarge(s, i + 1, decimals);
    }
    if FractionDigits(s[..i + 1]) > decimals {
      PrefixBounds(s, i + 1);
    }
  }

  lemma ScanDigit(s: string, i: nat, decimals: nat, build: Build, value: int, isAfterDecimal: bool, exponent: int, hadDigit: bool)
    requires i < |s| && IsDigit(s[i]) && Scanned(s, i, decimals, build, value, isAfterDecimal, exponent, hadDigit)
    ensures var sum := value * 10 + DigitValue(s[i]);
      var exponent' := if isAfterDecimal then exponent - 1 else exponent;
      if build.Trapping? && sum > MAX_U64 then Expected(s, decimals, build) == None
      else if exponent' < 0 then Meaning(s, decimals).None? && FractionDigits(s) > decimals
      else Scanned(s, i + 1, decimals, build, Wrap(sum), isAfterDecimal, exponent', true)
  {
    PrefixStep(s, i);
    AllowedPrefix(s, i);
    DigitValueGrows(s, i, build, value);
    DigitRefused(s, i, decimals);
  }

  lemma ScanOther(s: string, i: nat, decimals: nat, build: Build, value: int, isAfterDecimal: bool, exponent: int, hadDigit: bool)
    requires i < |s| && !IsDigit(s[i]) && Scanned(s, i, decimals, build, value, isAfterDecimal, exponent, hadDigit)
    ensures if s[i] == '.' && !isAfterDecimal then Scanned(s, i + 1, decimals, build, value, true, exponent, hadDigit)
      else if s[i] == '_' then Scanned(s, i + 1, decimals, build, value, isAfterDecimal, exponent, hadDigit)
      else Meaning(s, decimals).None? && if s[i] == '.' then Dots(s) > 1 else !AllAllowed(s)
  {
    PrefixStep(s, i);
    AllowedPrefix(s, i);
    PrefixBounds(s, i + 1);
    if s[i] != '_' && !(s[i] == '.' && !isAfterDecimal) {
      PrefixMalformed(s, i, decimals);
    }
  }

  lemma ScanStart(s: string, decimals: nat, build: Build)
    ensures Scanned(s, 0, decimals, build, 0, false, decimals, false)
  {
    assert s[..0] == "";
  }

  /** What the scan has found out in the end. */
  lemma ScanEnd(s: string, decimals: nat, build: Build, value: int, isAfterDecimal: bool, exponent: int, hadDigit: bool)
    requires Scanned(s, |s|, decimals, build, value, isAfterDecimal, exponent, hadDigit)
    ensures 0 <= exponent && 0 <= value == Wrap(Significand(s)) && (build.Trapping? ==> Significand(s) <= MAX_U64)
    ensures hadDigit <==> DigitCount(s) > 0
    ensures Meaning(s, decimals) == if hadDigit then Some(Significand(s) * Pow10(exponent)) else None
  {
    assert s[..|s|] == s;
  }

  /** Parses an amount. A text is accepted exactly as it should be, and
      called invalid only if it denotes no amount. */
  method FromStr(s: string, decimals: nat, build: Build) returns (r: Parsed)
    ensures Accepted(r) == Expected(s, decimals, build)
    ensures r.Rejected? ==> Meaning(s, decimals).None? && Justified(r.message, s, decimals)
  {
    var value := 0;
    var isAfterDecimal := false;
    var exponent: int := decimals;
    var hadDigit := false;
    ScanStart(s, decimals, build);
    for i := 0 to |s|
      invariant Scanned(s, i, decimals, build, value, isAfterDecimal, exponent, hadDigit)
    {
      var c := s[i];
      if IsDigit(c) {
        ScanDigit(s, i, decimals, build, value, isAfterDecimal, exponent, hadDigit);
        if build.Trapping? && value * 10 + DigitValue(c) > MAX_U64 {
          return Overflowed;
        }
        value := Wrap(value * 10 + DigitValue(c));
        if isAfterDecimal {
          exponent := exponent - 1;
        }
        hadDigit := true;
      } else {
        ScanOther(s, i, decimals, build, value, isAfterDecimal, exponent, hadDigit);
        if c == '.' && !isAfterDecimal {
          isAfterDecimal := true;
        } else if c == '.' {
          return Rejected(TWO_POINTS);
        } else if c != '_' {
          return Rejected(BAD_CHARACTER);
        }
      }
      if exponent < 0 {
        return Rejected(TOO_MANY_DIGITS);
      }
    }
    ScanEnd(s, decimals, build, value, isAfterDecimal, exponent, hadDigit);
    if !hadDigit {
      return Rejected(NO_DIGIT);
    }
    r := ScaleUp(value, exponent, build, Significand(s));
  }

  /** Scales a value with missing fraction digits up to the smallest unit.
      Without wrap-around, the value is the significand. */
  method ScaleUp(start: nat, missing: nat, build: Build, ghost significand: nat) returns (r: Parsed)
    requires start == Wrap(significand)
    requires build.Trapping? ==> significand <= MAX_U64
    ensures r.Value? ==> r.value == Wrap(significand * Pow10(missing)) && (build.Trapping? ==> significand * Pow10(missing) <= MAX_U64)
    ensures !r.Rejected? && (r.Overflowed? ==> build.Trapping? && significand * Pow10(missing) > MAX_U64)
  {
    var value, exponent := start, missing;
    ghost var scaled := significand;
    while exponent > 0
      invariant 0 <= exponent <= missing
      invariant scaled * Pow10(exponent) == significand * Pow10(missing)
      invariant 0 <= value == Wrap(scaled)
      invariant build.Trapping? ==> scaled <= MAX_U64
    {
      WrapStep(scaled, 0);
      Scaled(scaled, exponent, Pow10(exponent));
      if build.Trapping? && value * 10 > MAX_U64 {
        return Overflowed;
      }
      value := Wrap(value * 10);
      scaled := 10 * scaled;
      exponent := exponent - 1;
    }
    r := Value(value);
  }

  // ---------------------------------------------------------------- round trip

  /** What remains of a text without its underscores. */
  function Strip(s: string): string {
    if s == "" then ""
    else
      var front := Strip(s[..|s| - 1]);
      if s[|s| - 1] == '_' then front else front + [s[|s| - 1]]
  }

  lemma {:induction false} StripKeepsCounts(s: string)
    ensures Dots(Strip(s)) == Dots(s) && DigitCount(Strip(s)) == DigitCount(s)
    ensures FractionDigits(Strip(s)) == FractionDigits(s) && Significand(Strip(s)) == Significand(s)
  {
    if s != "" {
      var front, c := s[..|s| - 1], s[|s| - 1];
      StripKeepsCounts(front);
      SnocStep(front, c);
      assert s == front + [c];
      if c != '_' {
        SnocStep(Strip(front), c);
      }
    }
  }

  lemma {:induction false} StripKeepsAllowed(s: string)
    ensures (forall i :: 0 <= i < |s| ==> Allowed(s[i])) <==> (forall i :: 0 <= i < |Strip(s)| ==> Allowed(Strip(s)[i]))
  {
    if s != "" {
      var front, c := s[..|s| - 1], s[|s| - 1];
      StripKeepsAllowed(front);
      var t, u := Strip(s), Strip(front);
      assert forall i :: 0 <= i < |front| ==> s[i] == front[i];
      assert forall i :: 0 <= i < |u| ==> t[i] == u[i];
      assert c != '_' ==> t[|u|] == c;
    }
  }

  /** Underscores anywhere change nothing: two texts that differ only in them
      mean the same, including both meaning nothing. */
  lemma UnderscoresIgnored(s: string, t: string, decimals: nat)
    requires Strip(s) == Strip(t)
    ensures Meaning(s, decimals) == Meaning(t, decimals)
  {
    StripKeepsCounts(s);
    StripKeepsCounts(t);
    StripKeepsAllowed(s);
    StripKeepsAllowed(t);
  }

  /** A string of digits that denotes n. */
  predicate Denotes(s: string, n: nat) {
    && (forall i :: 0 <= i < |s| ==> IsDigit(s[i]))
    && Significand(s) == n
  }

  lemma {:induction false} DecimalDenotes(n: nat)
    ensures Denotes(Decimal(n), n)
  {
    if n < 10 {
      assert Decimal(n)[..0] == "";
    } else {
      DecimalDenotes(n / 10);
      assert Decimal(n)[..|Decimal(n)| - 1] == Decimal(n / 10);
    }
  }

  lemma {:induction false} DecimalLength(n: nat, k: nat)
    requires 0 < k && n < Pow10(k)
    ensures 0 < |Decimal(n)| <= k
  {
    if n >= 10 {
      assert k > 1 by { assert Pow10(1) == 10 * Pow10(0); }
      DecimalLength(n / 10, k - 1);
    }
  }

  lemma {:induction false} ZeroPadded(zeros: nat, s: string, n: nat)
    requires Denotes(s, n)
    ensures Denotes(seq(zeros, _ => '0') + s, n)
  {
    var z := seq(zeros, _ => '0');
    if s == "" {
      assert z + s == z;
      if zeros > 0 {
        ZeroPadded(zeros - 1, "", 0);
        assert z[..zeros - 1] == seq(zeros - 1, _ => '0') + "";
      }
    } else {
      ZeroPadded(zeros, s[..|s| - 1], Significand(s[..|s| - 1]));
      assert (z + s)[..|z + s| - 1] == z + s[..|s| - 1];
    }
  }

  /** Digits, a point, and more digits. */
  lemma {:induction false} PointText(a: string, b: string)
    requires Denotes(a, Significand(a)) && Denotes(b, Significand(b)) && a != ""
    ensures var s := a + "." + b;
      && (forall i :: 0 <= i < |s| ==> Allowed(s[i]))
      && Dots(s) == 1 && DigitCount(s) > 0 && FractionDigits(s) == |b|
      && Significand(s) == Significand(a) * Pow10(|b|) + Significand(b)
    decreases |b|
  {
    var s := a + "." + b;
    if b == "" {
      assert s[..|s| - 1] == a;
      DigitsOnly(a);
    } else {
      var front, c := b[..|b| - 1], b[|b| - 1];
      PointText(a, front);
      assert s[..|s| - 1] == a + "." + front && s[|s| - 1] == c;
      TimesTen(Significand(a), Pow10(|front|), Significand(front), DigitValue(c));
    }
  }

  lemma PointMeaning(s: string, a: string, whole: nat, b: string, part: nat, decimals: nat)
    requires s == a + "." + b && |b| == decimals
    requires Denotes(a, whole) && Denotes(b, part) && a != ""
    ensures Meaning(s, decimals) == Some(whole * Pow10(decimals) + part)
  {
    PointText(a, b);
    FullFraction(s);
  }

  /** With all fraction digits present, the digits are the amount. */
  lemma FullFraction(s: string)
    requires forall i :: 0 <= i < |s| ==> Allowed(s[i])
    requires Dots(s) == 1 && DigitCount(s) > 0
    ensures Meaning(s, FractionDigits(s)) == Some(Significand(s))
  {
    assert Pow10(0) == 1;
  }

  lemma TimesTen(a: nat, p: nat, f: nat, d: nat)
    ensures 10 * (a * p + f) + d == a * (10 * p) + (10 * f + d)
  {
  }

  lemma {:induction false} DigitsOnly(a: string)
    requires forall i :: 0 <= i < |a| ==> IsDigit(a[i])
    ensures Dots(a) == 0 && FractionDigits(a) == 0 && DigitCount(a) == |a|
  {
    if a != "" {
      DigitsOnly(a[..|a| - 1]);
    }
  }

  /** Printing a u64 and reading the number back is the identity, for every
      number of decimals up to 9. As the meaning is itself a u64, `FromStr`
      accepts the text in both builds, without any intermediate overflow. */
  lemma PrintParseRoundTrip(amount: nat, decimals: nat)
    requires amount <= MAX_U64 && decimals <= 9
    ensures Meaning(Print(amount, decimals), decimals) == Some(amount)
  {
    var (whole, part) := DivMod(amount, Pow10(decimals));
    var fraction := PadLeft(Decimal(part), 9)[9 - decimals..];
    DecimalDenotes(whole);
    FractionText(part, decimals);
    PointMeaning(Print(amount, decimals), Decimal(whole), whole, fraction, part, decimals);
  }

  lemma {:induction false} NoLeadingZero(n: nat)
    ensures Decimal(n) != "" && (Decimal(n)[0] == '0' <==> n == 0)
  {
    if n >= 10 {
      NoLeadingZero(n / 10);
    }
  }

  /** The printed form is the whole part without leading zeros, a point, and exactly as
      many digits of the rest as there are decimals. */
  lemma PrintShape(amount: nat, decimals: nat)
    requires decimals <= 9
    ensures var s := Print(amount, decimals);
      var point := |s| - decimals - 1;
      && 0 < point && s[point] == '.'
      && Denotes(s[..point], amount / Pow10(decimals)) && Denotes(s[point + 1..], amount % Pow10(decimals))
      && (s[0] == '0' <==> amount < Pow10(decimals))
  {
    var (whole, part) := DivMod(amount, Pow10(decimals));
    var fraction := PadLeft(Decimal(part), 9)[9 - decimals..];
    DecimalDenotes(whole);
    NoLeadingZero(whole);
    FractionText(part, decimals);
    var s := Print(amount, decimals);
    assert s == Decimal(whole) + "." + fraction;
    assert s[..|Decimal(whole)|] == Decimal(whole) && s[|Decimal(whole)| + 1..] == fraction;
    assert whole == amount / Pow10(decimals) && part == amount % Pow10(decimals);
    WholeIsZero(amount, Pow10(decimals));
  }

  lemma WholeIsZero(n: nat, d: nat)
    requires 0 < d
    ensures n / d == 0 <==> n < d
  {
    var q := n / d;
    assert q * d <= n < q * d + d;
    if q > 0 {
      MulMonotone(1, q, d);
    }
  }

  /** The parser reads back what was printed, in both builds and without any
      intermediate overflow. */
  method ParsePrinted(amount: nat, decimals: nat, build: Build) returns (r: Parsed)
    requires amount <= MAX_U64 && decimals <= 9
    ensures r == Value(amount)
  {
    PrintParseRoundTrip(amount, decimals);
    r := FromStr(Print(amount, decimals), decimals, build);
  }

  /** The fraction is printed with exactly as many digits as there are decimals. */
  lemma FractionText(part: nat, decimals: nat)
    requires decimals <= 9 && part < Pow10(decimals)
    ensures var fraction := PadLeft(Decimal(part), 9)[9 - decimals..];
      |fraction| == decimals && Denotes(fraction, part)
  {
    var digits := Decimal(part);
    var fraction := PadLeft(digits, 9)[9 - decimals..];
    if decimals > 0 {
      DecimalDenotes(part);
      DecimalLength(part, decimals);
      PadThenDrop(digits, decimals);
      ZeroPadded(decimals - |digits|, digits, part);
    } else {
      assert part == 0;
      assert fraction == "";
    }
  }

  lemma PadThenDrop(digits: string, decimals: nat)
    requires |digits| <= decimals <= 9
    ensures PadLeft(digits, 9)[9 - decimals..] == seq(decimals - |digits|, _ => '0') + digits
  {
  }
}
