/**
 Exact minor-unit arithmetic of fiscal evidence
 (backend/app/services/fiscal_integrity.py, lines 10 and 28-78). A decimal is a
 coefficient over a power of ten, and its text is the plain notation. Products and
 quotients are rounded to the 28 significant digits of the decimal context, half
 even, before anything else is done with them.
 */
module FiscalIntegrity {
  import opened Wrappers

  const MAX_CENTS: int := 0x7FFF_FFFF_FFFF_FFFF
  const MAX_QUANTITY := 1000

  datatype Invalid = InvalidCents | InvalidMoney | InvalidQuantity

  /** What reading a value as a decimal gives. */
  datatype Reading = NoValue | NotANumber | NotFinite | Finite(coefficient: int, scale: nat)

  function Abs(x: int): nat {
    if x < 0 then -x else x
  }

  function Pow10(n: nat): (r: nat)
    ensures r >= 1
  {
    if n == 0 then 1 else 10 * Pow10(n - 1)
  }

  /** The quotient rounded half up. */
  function HalfUp(n: nat, d: nat): nat
    requires d > 0
  {
    (2 * n + d) / (2 * d)
  }

  // ----- the decimal context -----

  const CONTEXT: int := 10_000_000_000_000_000_000_000_000_000

  /** The digits beyond the 28th. */
  function Excess(n: nat): nat {
    if n < CONTEXT then 0 else 1 + Excess(n / 10)
  }

  /** The quotient rounded to the nearest, at a tie to the even one. */
  function HalfEven(n: nat, d: nat): nat
    requires d > 0
  {
    var q, r := n / d, n % d;
    if 2 * r < d || (2 * r == d && q % 2 == 0) then q else q + 1
  }

  function ContextRound(n: nat): nat {
    var unit := Pow10(Excess(n));
    HalfEven(n, unit) * unit
  }

  /** The decimal places a quotient has room for. */
  function Room(n: nat, d: nat): nat
    requires n > 0 && d > 0
    decreases CONTEXT * d - n
  {
    if 10 * n >= CONTEXT * d then 0 else 1 + Room(10 * n, d)
  }

  // ----- amounts -----

  function CheckedCents(value: int): Result<int, Invalid> {
    if 0 <= value <= MAX_CENTS then Success(value) else Failure(InvalidCents)
  }

  function MoneyToCents(value: Reading): Result<int, Invalid> {
    match value
    case NoValue => Success(0)
    case NotANumber => Failure(InvalidMoney)
    case NotFinite => Failure(InvalidMoney)
    case Finite(coefficient, scale) =>
      if coefficient < 0 then Failure(InvalidMoney)
      else
        var cents := HalfUp(ContextRound(coefficient * 100), Pow10(scale));
        if cents >= CONTEXT then Failure(InvalidMoney) else CheckedCents(cents)
  }

  // ----- plain notation -----

  function DigitChar(d: nat): char
    requires d < 10
  {
    ('0' as int + d) as char
  }

  predicate IsDigit(c: char) {
    '0' <= c <= '9'
  }

  function Digits(n: nat): string {
    if n < 10 then [DigitChar(n)] else Digits(n / 10) + [DigitChar(n % 10)]
  }

  /** The last `k` digits, with leading zeros. */
  function FixedDigits(n: nat, k: nat): string {
    if k == 0 then "" else FixedDigits(n / 10, k - 1) + [DigitChar(n % 10)]
  }

  function DivMod(n: nat, p: nat): (r: (nat, nat))
    requires p > 0
    ensures r.0 * p + r.1 == n && r.1 < p
  {
    (n / p, n % p)
  }

  function Unsigned(size: nat, scale: nat): string {
    var parts := DivMod(size, Pow10(scale));
    Digits(parts.0) + "." + FixedDigits(parts.1, scale)
  }

  /** Fixed-point notation with `scale` decimals. */
  function Format(coefficient: int, scale: nat): string {
    if coefficient < 0 then "-" + Unsigned(-coefficient, scale) else Unsigned(coefficient, scale)
  }

  function ParseDigits(s: string): Option<nat> {
    if s == "" then Some(0)
    else
      var n := |s| - 1;
      var before := ParseDigits(s[..n]);
      if before.None? || !IsDigit(s[n]) then None else Some(10 * before.value + (s[n] as int - '0' as int))
  }

  function PointAt(s: string): (i: nat)
    ensures i <= |s|
  {
    if s == "" || s[0] == '.' then 0 else 1 + PointAt(s[1..])
  }

  function ParseUnsigned(s: string): Option<(nat, nat)> {
    var i := PointAt(s);
    var fraction := if i < |s| then s[i + 1..] else "";
    var digits := ParseDigits(s[..i] + fraction);
    if digits.None? || |s[..i] + fraction| == 0 then None else Some((digits.value, |fraction|))
  }

  function Parse(s: string): Reading {
    var negative := s != "" && s[0] == '-';
    var parsed := ParseUnsigned(if negative then s[1..] else s);
    if parsed.None? then NotANumber
    else
      var size: int := parsed.value.0;
      Finite(if negative then -size else size, parsed.value.1)
  }

  function DecimalAmount(cents: int): Result<string, Invalid> {
    if Abs(cents) > MAX_CENTS then Failure(InvalidCents) else Success(Format(cents, 2))
  }

  /** The unit price in millionths: the quotient in the context, then six decimals. */
  function UnitMillionths(cents: nat, quantity: nat): nat
    requires 1 <= quantity && cents <= MAX_CENTS
  {
    if cents == 0 then 0
    else
      RoomAtLeastNine(cents, quantity);
      var places := Room(cents, quantity);
      HalfUp(HalfEven(cents * Pow10(places), quantity), Pow10(places - 4))
  }

  function DecimalUnitAmount(cents: int, quantity: int): Result<string, Invalid> {
    if !(1 <= quantity <= MAX_QUANTITY) then Failure(InvalidQuantity)
    else if CheckedCents(cents).Failure? then Failure(InvalidCents)
    else Success(Format(UnitMillionths(cents, quantity), 6))
  }

  /** A product with a whole quantity, in the context. */
  function Times(value: Reading, quantity: nat): Reading {
    match value
    case Finite(coefficient, scale) =>
      var size: int := ContextRound(Abs(coefficient) * quantity);
      Finite(if coefficient < 0 then -size else size, scale)
    case _ => value
  }

  // ----- rounding -----

  lemma {:induction false} QuotientBounds(a: nat, b: nat)
    requires b > 0
    ensures b * (a / b) <= a < b * (a / b) + b
  {
  }

  lemma {:induction false} QuotientIs(a: nat, b: nat, q: nat)
    requires b > 0 && b * q <= a < b * q + b
    ensures a / b == q
  {
    var p := a / b;
    QuotientBounds(a, b);
    if p < q {
      Scaled(b, p + 1, q);
    } else if q < p {
      Scaled(b, q + 1, p);
    }
  }

  lemma {:induction false} Scaled(b: nat, x: nat, y: nat)
    requires x <= y
    ensures b * x <= b * y
  {
  }

  /** Half up: never further than half a unit away, and at a tie the larger number. */
  lemma {:induction false} HalfUpIsNearest(n: nat, d: nat)
    requires d > 0
    ensures var r := HalfUp(n, d); 2 * (d * r) - d <= 2 * n < 2 * (d * r) + d
  {
  }

  lemma {:induction false} HalfUpIs(n: nat, d: nat, r: nat)
    requires d > 0 && 2 * (d * r) - d <= 2 * n < 2 * (d * r) + d
    ensures HalfUp(n, d) == r
  {
    assert (2 * d) * r == 2 * (d * r);
    QuotientIs(2 * n + d, 2 * d, r);
  }

  // ----- what the context does -----

  /** At most half of `d` apart. */
  predicate Near(x: int, y: int, d: nat) {
    2 * x - 2 * y <= d && 2 * y - 2 * x <= d
  }

  lemma {:induction false} HalfEvenIsNear(n: nat, d: nat)
    requires d > 0
    ensures Near(n, d * HalfEven(n, d), d)
  {
    var q, r := n / d, n % d;
    assert n == d * q + r;
    assert d * (q + 1) == d * q + d;
  }

  lemma {:induction false} HalfEvenExact(q: nat, d: nat)
    requires d > 0
    ensures HalfEven(q * d, d) == q
  {
    QuotientIs(q * d, d, q);
    assert q * d == d * q + (q * d) % d;
  }

  /** Up to 28 significant digits nothing is rounded, also after a scaling by 100. */
  lemma {:induction false} ContextIsExact(c: nat)
    requires c < CONTEXT
    ensures ContextRound(c) == c && ContextRound(c * 100) == c * 100
  {
    assert Pow10(0) == 1 && Pow10(1) == 10 && Pow10(2) == 100;
    HalfEvenExact(c, 1);
    var n := c * 100;
    if n < CONTEXT {
      HalfEvenExact(n, 1);
    } else if n / 10 < CONTEXT {
      assert Excess(n) == 1;
      HalfEvenExact(c * 10, 10);
    } else {
      assert n / 10 / 10 == c;
      assert Excess(n) == 2;
      HalfEvenExact(c, 100);
    }
  }

  lemma {:induction false} ExcessIsLarge(n: nat)
    requires Excess(n) > 0
    ensures 10 * n >= CONTEXT * Pow10(Excess(n))
  {
    if Excess(n / 10) > 0 {
      ExcessIsLarge(n / 10);
    }
  }

  lemma {:induction false} ExcessFits(n: nat)
    ensures n < CONTEXT * Pow10(Excess(n))
  {
    if n >= CONTEXT {
      ExcessFits(n / 10);
    }
  }

  /** The unit of the last of 28 digits: one for a number that has no more. */
  ghost predicate LastPlace(n: nat, unit: nat) {
    && n < 10_000_000_000_000_000_000_000_000_000 * unit
    && (unit == 1 || 10 * n >= 10_000_000_000_000_000_000_000_000_000 * unit)
    && exists k :: unit == Pow10(k)
  }

  /** The context rounds to the nearest multiple of the last place, at a tie to the one
      that is even there. */
  lemma {:induction false} ContextRoundMeaning(n: nat) returns (unit: nat, m: nat)
    ensures LastPlace(n, unit) && ContextRound(n) == m * unit
    ensures 2 * n - 2 * (m * unit) <= unit && 2 * (m * unit) - 2 * n <= unit
    ensures 2 * n - 2 * (m * unit) == unit || 2 * (m * unit) - 2 * n == unit ==> m % 2 == 0
  {
    unit := Pow10(Excess(n));
    m := HalfEven(n, unit);
    ExcessFits(n);
    if Excess(n) > 0 {
      ExcessIsLarge(n);
    }
    HalfEvenIsEven(n, unit);
    assert unit * m == m * unit;
  }

  lemma {:induction false} HalfEvenIsEven(n: nat, d: nat)
    requires d > 0
    ensures var m := HalfEven(n, d);
            Near(n, d * m, d) && (2 * n - 2 * (d * m) == d || 2 * (d * m) - 2 * n == d ==> m % 2 == 0)
  {
    var q, r := n / d, n % d;
    assert n == d * q + r;
    assert d * (q + 1) == d * q + d;
  }

  lemma {:induction false} PowSplit(k: nat, s: nat)
    requires k <= s
    ensures Pow10(s) == Pow10(k) * Pow10(s - k)
  {
    if k > 0 {
      PowSplit(k - 1, s - 1);
    }
  }

  lemma {:induction false} RoomIsEnough(n: nat, d: nat, j: nat)
    requires n > 0 && d > 0 && n * Pow10(j) < CONTEXT * d
    ensures Room(n, d) >= j
    decreases j
  {
    if j > 0 {
      var p := Pow10(j - 1);
      assert (10 * n) * p == n * (10 * p);
      Scaled(10 * n, 1, p);
      RoomIsEnough(10 * n, d, j - 1);
    }
  }

  lemma {:induction false} NineDecimals()
    ensures Pow10(9) == 1_000_000_000
  {
    SixDecimals();
    assert Pow10(9) == 10 * Pow10(8) == 100 * Pow10(7) == 1000 * Pow10(6);
  }

  lemma {:induction false} RoomAtLeastNine(cents: nat, quantity: nat)
    requires 0 < cents <= MAX_CENTS && quantity >= 1
    ensures Room(cents, quantity) >= 9
  {
    NineDecimals();
    RoomIsEnough(cents, quantity, 9);
  }

  lemma {:induction false} Cross(p: nat, q: nat, r: nat)
    ensures p * (2 * (q * r) + q - 1) == q * (2 * (p * r) + p) - p
    ensures p * (2 * (q * r) - q) == q * (2 * (p * r) - p)
  {
    var x := q * r;
    var y := p * r;
    assert p * x == q * y;
    assert p * (2 * x + q - 1) == 2 * (p * x) + p * q - p;
    assert q * (2 * y + p) == 2 * (q * y) + q * p;
    assert p * (2 * x - q) == 2 * (p * x) - p * q;
    assert q * (2 * y - p) == 2 * (q * y) - q * p;
  }

  lemma {:induction false} Doubled(a: int, b: int)
    ensures a * (2 * b) == 2 * (a * b) && a * (2 * b + 2) == 2 * (a * b) + 2 * a
  {
  }

  lemma {:induction false} MulOrder(u: nat, x: int, y: int)
    requires u > 0
    ensures x <= y <==> u * x <= u * y
    ensures x < y <==> u * x < u * y
  {
    if x < y {
      assert u * (y - x) >= 1;
    } else {
      assert u * (x - y) >= 0;
    }
    assert u * y - u * x == u * (y - x);
  }

  lemma {:induction false} NotAbove(n: nat, q: nat, p: nat, m: nat, r: nat)
    requires 0 < q < p && 2 * (q * m) <= 2 * (p * n) + q && 2 * n < 2 * (q * r) + q
    ensures 2 * m < 2 * (p * r) + p
  {
    MulOrder(p, 2 * n, 2 * (q * r) + q - 1);
    Cross(p, q, r);
    Doubled(p, n);
    Doubled(q, m);
    MulOrder(q, 2 * m, 2 * (p * r) + p);
  }

  lemma {:induction false} NotBelow(n: nat, q: nat, p: nat, m: nat, r: nat)
    requires 0 < q < p && p % 2 == 0 && 2 * (q * m) >= 2 * (p * n) - q && 2 * n >= 2 * (q * r) - q
    ensures 2 * m >= 2 * (p * r) - p
  {
    MulOrder(p, 2 * (q * r) - q, 2 * n);
    Cross(p, q, r);
    Doubled(p, n);
    Doubled(q, m);
    MulOrder(q, 2 * (p * r) - p, 2 * m + 1);
    assert q * (2 * m + 1) == 2 * (q * m) + q;
  }

  /** Rounding a quotient to many places first does not change its rounding to few. */
  lemma {:induction false} TwiceIsOnce(n: nat, q: nat, p: nat, m: nat)
    requires 0 < q < p && p % 2 == 0
    requires Near(n * p, q * m, q)
    ensures HalfUp(m, p) == HalfUp(n, q)
  {
    var r := HalfUp(n, q);
    HalfUpIsNearest(n, q);
    assert n * p == p * n;
    NotAbove(n, q, p, m, r);
    NotBelow(n, q, p, m, r);
    HalfUpIs(m, p, r);
  }

  /** So the unit price is the exact quotient rounded half up to six decimals. */
  lemma {:induction false} UnitIsExactlyRounded(cents: nat, quantity: nat)
    requires 1 <= quantity <= MAX_QUANTITY && cents <= MAX_CENTS
    ensures UnitMillionths(cents, quantity) == HalfUp(cents * 10_000, quantity)
  {
    if cents > 0 {
      RoomAtLeastNine(cents, quantity);
      var t := Room(cents, quantity);
      var m := HalfEven(cents * Pow10(t), quantity);
      HalfEvenIsNear(cents * Pow10(t), quantity);
      PlacesAfterFour(t);
      assert cents * Pow10(t) == (cents * 10_000) * Pow10(t - 4);
      TwiceIsOnce(cents * 10_000, quantity, Pow10(t - 4), m);
    } else {
      HalfUpIs(0, quantity, 0);
    }
  }

  lemma {:induction false} PlacesAfterFour(t: nat)
    requires t >= 9
    ensures Pow10(t) == 10_000 * Pow10(t - 4) && Pow10(t - 4) >= 100_000 && Pow10(t - 4) % 2 == 0
  {
    assert Pow10(4) == 10_000 && Pow10(5) == 10 * Pow10(4);
    PowSplit(4, t);
    PowSplit(5, t - 4);
  }

  // ----- the text and back -----

  lemma {:induction false} ParseAppend(s: string, c: char)
    requires IsDigit(c)
    ensures ParseDigits(s + [c]) ==
            match ParseDigits(s)
            case None => None
            case Some(v) => Some(10 * v + (c as int - '0' as int))
  {
  }

  lemma {:induction false} DigitsParse(n: nat)
    ensures ParseDigits(Digits(n)) == Some(n) && |Digits(n)| >= 1
    ensures forall i :: 0 <= i < |Digits(n)| ==> IsDigit(Digits(n)[i])
    decreases n
  {
    if n < 10 {
      assert [DigitChar(n)] == [] + [DigitChar(n)];
      ParseAppend([], DigitChar(n));
    } else {
      DigitsParse(n / 10);
      ParseAppend(Digits(n / 10), DigitChar(n % 10));
    }
  }

  lemma {:induction false} ShiftDigit(a: nat, b: nat, c: nat, p: nat)
    ensures 10 * (a * p + b) + c == a * (10 * p) + (10 * b + c)
  {
  }

  lemma {:induction false} LessThanShifted(n: nat, p: nat)
    requires p > 0 && n < 10 * p
    ensures n / 10 < p
  {
  }

  /** Digits behind others weigh less by a power of ten. */
  lemma {:induction false} FixedDigitsParse(before: string, n: nat, k: nat)
    requires n < Pow10(k) && ParseDigits(before).Some?
    ensures |FixedDigits(n, k)| == k
    ensures ParseDigits(before + FixedDigits(n, k)) == Some(ParseDigits(before).value * Pow10(k) + n)
    decreases k
  {
    if k == 0 {
      assert before + FixedDigits(n, k) == before;
    } else {
      var p := Pow10(k - 1);
      LessThanShifted(n, p);
      FixedDigitsParse(before, n / 10, k - 1);
      var init := before + FixedDigits(n / 10, k - 1);
      assert before + FixedDigits(n, k) == init + [DigitChar(n % 10)];
      ParseAppend(init, DigitChar(n % 10));
      ShiftDigit(ParseDigits(before).value, n / 10, n % 10, p);
    }
  }

  lemma {:induction false} PointAfterDigits(s: string, rest: string)
    requires forall i :: 0 <= i < |s| ==> IsDigit(s[i])
    ensures PointAt(s + "." + rest) == |s|
  {
    if s == "" {
      assert s + "." + rest == "." + rest;
    } else {
      PointAfterDigits(s[1..], rest);
      assert (s + "." + rest)[1..] == s[1..] + "." + rest;
    }
  }

  lemma {:induction false} ParseText(whole: string, fraction: string)
    requires whole != "" && forall i :: 0 <= i < |whole| ==> IsDigit(whole[i])
    requires ParseDigits(whole + fraction).Some?
    ensures ParseUnsigned(whole + "." + fraction) == Some((ParseDigits(whole + fraction).value, |fraction|))
  {
    var text := whole + "." + fraction;
    PointAfterDigits(whole, fraction);
    assert text[..|whole|] == whole && text[|whole| + 1..] == fraction;
  }

  lemma {:induction false} ParseUnsignedText(size: nat, scale: nat)
    ensures ParseUnsigned(Unsigned(size, scale)) == Some((size, scale))
    ensures Unsigned(size, scale) != "" && IsDigit(Unsigned(size, scale)[0])
  {
    var parts := DivMod(size, Pow10(scale));
    DigitsParse(parts.0);
    FixedDigitsParse(Digits(parts.0), parts.1, scale);
    ParseText(Digits(parts.0), FixedDigits(parts.1, scale));
  }

  /** Reading what was written gives the number back, sign and all. */
  lemma {:induction false} ParseFormat(coefficient: int, scale: nat)
    ensures Parse(Format(coefficient, scale)) == Finite(coefficient, scale)
  {
    var text := Unsigned(Abs(coefficient), scale);
    ParseUnsignedText(Abs(coefficient), scale);
    if coefficient < 0 {
      assert ("-" + text)[1..] == text;
    }
  }

  // ----- the main results -----

  /** Exactly which values are money: none at all, or a number that is not negative and
      whose hundredfold, in the context, has a nearest number of cents that fits. */
  lemma {:induction false} MoneyToCentsMeaning(value: Reading)
    ensures MoneyToCents(value).Success? <==>
            value.NoValue? || (value.Finite? && value.coefficient >= 0
                               && 2 * ContextRound(value.coefficient * 100) < (2 * MAX_CENTS + 1) * Pow10(value.scale))
    ensures MoneyToCents(value).Success? && value.Finite? ==>
            var cents, d := MoneyToCents(value).value, Pow10(value.scale);
            cents >= 0 && 2 * (d * cents) - d <= 2 * ContextRound(value.coefficient * 100) < 2 * (d * cents) + d
  {
    if value.Finite? && value.coefficient >= 0 {
      RangeOfHalfUp(ContextRound(value.coefficient * 100), Pow10(value.scale), MAX_CENTS);
    }
  }

  /** Why another value is refused: it is no number, it is negative, its cents have more than
      28 digits, or they do not fit 63 bits, which is the only refusal of its own kind. */
  lemma {:induction false} MoneyIsRefused(value: Reading)
    ensures value.NoValue? ==> MoneyToCents(value) == Success(0)
    ensures MoneyToCents(value) == Failure(InvalidCents) <==>
            && value.Finite? && value.coefficient >= 0
            && var twice, d := 2 * ContextRound(value.coefficient * 100), Pow10(value.scale);
               && twice >= (2 * 9_223_372_036_854_775_807 + 1) * d
               && twice < (2 * 9_999_999_999_999_999_999_999_999_999 + 1) * d
    ensures MoneyToCents(value).Failure? && MoneyToCents(value).error != InvalidCents ==>
              MoneyToCents(value) == Failure(InvalidMoney)
  {
    if value.Finite? && value.coefficient >= 0 {
      var n, d := ContextRound(value.coefficient * 100), Pow10(value.scale);
      RangeOfHalfUp(n, d, 9_223_372_036_854_775_807);
      RangeOfHalfUp(n, d, 9_999_999_999_999_999_999_999_999_999);
    }
  }

  lemma {:induction false} RangeOfHalfUp(n: nat, d: nat, bound: nat)
    requires d > 0
    ensures var r := HalfUp(n, d); 2 * (d * r) - d <= 2 * n < 2 * (d * r) + d
    ensures HalfUp(n, d) <= bound <==> 2 * n < (2 * bound + 1) * d
  {
    var r := HalfUp(n, d);
    HalfUpIsNearest(n, d);
    if r <= bound {
      Scaled(d, r, bound);
    } else {
      Scaled(d, bound + 1, r);
    }
  }

  /** Half way between two multiples of `d`. */
  predicate IsTie(n: nat, d: nat)
    requires d > 0
  {
    2 * n % (2 * d) == d
  }

  lemma {:induction false} DivModLaw(a: nat, b: nat)
    requires b > 0
    ensures a == b * (a / b) + a % b
  {
  }

  lemma {:induction false} OddMultiple(d: nat, j: nat)
    ensures d * (2 * j + 1) == (2 * d) * j + d
  {
  }

  lemma {:induction false} TieIs(n: nat, d: nat) returns (j: nat)
    requires d > 0 && IsTie(n, d)
    ensures 2 * n == d * (2 * j + 1)
  {
    j := 2 * n / (2 * d);
    DivModLaw(2 * n, 2 * d);
    OddMultiple(d, j);
  }

  lemma {:induction false} TieAt(n: nat, d: nat, q: nat)
    requires d > 0 && 2 * n == d * (2 * q + 1)
    ensures IsTie(n, d)
  {
    OddMultiple(d, q);
    QuotientIs(2 * n, 2 * d, q);
    DivModLaw(2 * n, 2 * d);
  }

  /** A first rounding to a multiple of `u` does not leave the interval that rounds to `q`. */
  lemma {:induction false} FirstRoundingStays(n: int, u: nat, m: int, a: int, b: int)
    requires u > 0 && Near(n, u * m, u) && u * a <= n < u * b
    ensures a <= m <= b
  {
    assert u * (m + 1) == u * m + u && u * (b + 1) == u * b + u;
    MulOrder(u, a, m + 1);
    MulOrder(u, m, b + 1);
  }

  /** Rounding to a multiple of `u` and then half up to multiples of `d`, against the
      latter alone: they differ exactly when the first reaches a tie from below. */
  lemma {:induction false} TwoRoundings(n: nat, u: nat, h: nat, m: nat, d: nat)
    requires u > 0 && h > 0 && d == 2 * (u * h) && d > 0 && Near(n, u * m, u)
    ensures HalfUp(m * u, d) == HalfUp(n, d) <==> !(m * u > n && IsTie(m * u, d))
  {
    var q: int := HalfUp(n, d);
    var a, b := h * (2 * q - 1), h * (2 * q + 1);
    HalfUpIsNearest(n, d);
    Ends(u, h, d, q);
    FirstRoundingStays(n, u, m, a, b);
    assert m * u == u * m;
    MulOrder(u, a, m);
    MulOrder(u, m, b);
    if m == b {
      TieAt(m * u, d, q);
      assert d * (q + 1) == d * q + d;
      HalfUpIs(m * u, d, q + 1);
    } else {
      HalfUpIs(m * u, d, q);
      NoTieInside(n, u, h, m, d, q);
    }
  }

  /** Between two neighbouring ties there is no third one. */
  lemma {:induction false} NoTieInside(n: nat, u: nat, h: nat, m: nat, d: nat, q: nat)
    requires u > 0 && h > 0 && d == 2 * (u * h) && d > 0
    requires u * (h * (2 * q - 1)) <= n && m < h * (2 * q + 1)
    ensures !(u * m > n && IsTie(u * m, d))
  {
    if u * m > n && IsTie(u * m, d) {
      var j := TieIs(u * m, d);
      var x := 2 * j + 1;
      Ends(u, h, d, j);
      SameFactor(u, m, h * x);
      MulOrder(u, h * (2 * q - 1), m);
      MulOrder(h, 2 * q - 1, x);
      MulOrder(h, x, 2 * q + 1);
      assert false;
    }
  }

  lemma {:induction false} SameFactor(u: nat, x: int, y: int)
    requires u > 0 && u * x == u * y
    ensures x == y
  {
    MulOrder(u, x, y);
    MulOrder(u, y, x);
  }

  lemma {:induction false} Ends(u: nat, h: nat, d: nat, q: int)
    requires d == 2 * (u * h)
    ensures 2 * (u * (h * (2 * q - 1))) == 2 * (d * q) - d
    ensures 2 * (u * (h * (2 * q + 1))) == 2 * (d * q) + d == d * (2 * q + 1)
  {
    assert u * (h * (2 * q - 1)) == (u * h) * (2 * q - 1);
    assert u * (h * (2 * q + 1)) == (u * h) * (2 * q + 1);
  }

  lemma {:induction false} PowGrows(s: nat, k: nat)
    requires s <= k
    ensures Pow10(s) <= Pow10(k)
  {
    PowSplit(s, k);
    Scaled(Pow10(s), 1, Pow10(k - s));
  }

  /** A value that is money has fewer digits to drop than decimals. */
  lemma {:induction false} ExcessIsInDecimals(n: nat, scale: nat)
    requires 2 * ContextRound(n) < (2 * MAX_CENTS + 1) * Pow10(scale) && Excess(n) > 0
    ensures Excess(n) < scale
  {
    var u, d := Pow10(Excess(n)), Pow10(scale);
    ExcessIsLarge(n);
    HalfEvenIsNear(n, u);
    assert u * HalfEven(n, u) == HalfEven(n, u) * u;
    assert d > u;
    if scale <= Excess(n) {
      PowGrows(scale, Excess(n));
    }
  }

  /** The result is the nearest number of cents, the larger at a tie, exactly unless the
      context has rounded the hundredfold up to half a cent; with at most 28 digits it
      always is. */
  lemma {:induction false} NearestUnlessRoundedToATie(value: Reading)
    requires value.Finite? && value.coefficient >= 0 && MoneyToCents(value).Success?
    ensures var n, d := value.coefficient * 100, Pow10(value.scale);
            MoneyToCents(value).value == HalfUp(n, d) <==> !(ContextRound(n) > n && IsTie(ContextRound(n), d))
    ensures value.coefficient < CONTEXT ==>
            MoneyToCents(value).value == HalfUp(value.coefficient * 100, Pow10(value.scale))
  {
    if value.coefficient < CONTEXT {
      ContextIsExact(value.coefficient);
    } else {
      var n, s := value.coefficient * 100, value.scale;
      var k := Excess(n);
      MoneyToCentsMeaning(value);
      ExcessIsInDecimals(n, s);
      PowSplit(k, s);
      var h := 5 * Pow10(s - k - 1);
      assert Pow10(s - k) == 2 * h;
      assert Pow10(s) == 2 * (Pow10(k) * h);
      HalfEvenIsNear(n, Pow10(k));
      TwoRoundings(n, Pow10(k), h, HalfEven(n, Pow10(k)), Pow10(s));
    }
  }

  lemma {:induction false} LargePowers()
    ensures Pow10(28) == CONTEXT && Pow10(31) == 1000 * CONTEXT
  {
    NineDecimals();
    PowSplit(9, 18);
    PowSplit(9, 27);
    assert Pow10(28) == 10 * Pow10(27);
    assert Pow10(31) == 10 * Pow10(30) == 100 * Pow10(29) == 1000 * Pow10(28);
  }

  /** It happens with 29 digits: just below half a cent becomes one cent. */
  lemma {:induction false} RoundedToATie()
    ensures var value := Finite(49_999_999_999_999_999_999_999_999_999, 31);
            MoneyToCents(value) == Success(1) && HalfUp(value.coefficient * 100, Pow10(value.scale)) == 0
  {
    var n := 4_999_999_999_999_999_999_999_999_999_900;
    LargePowers();
    assert Pow10(3) == 1000;
    assert Excess(n) == 3;
    assert HalfEven(n, 1000) == 5_000_000_000_000_000_000_000_000_000;
    HalfUpIs(ContextRound(n), Pow10(31), 1);
    HalfUpIs(n, Pow10(31), 0);
  }

  /** Every amount written with two decimals reads back as the same cents. */
  lemma {:induction false} AmountRoundTrip(cents: int)
    requires 0 <= cents <= 9_223_372_036_854_775_807
    ensures DecimalAmount(cents).Success?
    ensures MoneyToCents(Parse(DecimalAmount(cents).value)) == Success(cents)
  {
    ParseFormat(cents, 2);
    assert Pow10(2) == 100;
    ContextIsExact(cents);
    HalfUpIs(cents * 100, 100, cents);
  }

  /** No amount of more than 63 bits is written, whatever its sign. */
  lemma {:induction false} AmountIsWrittenIff(cents: int)
    ensures DecimalAmount(cents).Success? <==> -9_223_372_036_854_775_807 <= cents <= 9_223_372_036_854_775_807
    ensures DecimalAmount(cents).Failure? ==> DecimalAmount(cents).error == InvalidCents
  {
  }

  /** A negative amount is written too, and refused when it is read as money. */
  lemma {:induction false} NegativeAmountIsRefused(cents: int)
    requires -9_223_372_036_854_775_807 <= cents < 0
    ensures DecimalAmount(cents).Success? && MoneyToCents(Parse(DecimalAmount(cents).value)) == Failure(InvalidMoney)
  {
    ParseFormat(cents, 2);
  }

  lemma {:induction false} UnitTimesQuantity(cents: nat, quantity: nat, unit: nat)
    requires 1 <= quantity <= 1000
    requires 2 * (quantity * unit) - quantity <= 2 * (cents * 10_000) < 2 * (quantity * unit) + quantity
    ensures HalfUp(unit * quantity * 100, 1_000_000) == cents
  {
  }

  /** For every valid line total and every quantity, the six-decimal unit price times
      the quantity is that total again, to the cent. */
  lemma {:induction false} UnitPriceRoundTrip(cents: int, quantity: int)
    ensures DecimalUnitAmount(cents, quantity).Success? <==>
            1 <= quantity <= 1000 && 0 <= cents <= 9_223_372_036_854_775_807
    ensures DecimalUnitAmount(cents, quantity).Failure? ==>
              DecimalUnitAmount(cents, quantity).error == if 1 <= quantity <= 1000 then InvalidCents else InvalidQuantity
    ensures DecimalUnitAmount(cents, quantity).Success? ==>
              MoneyToCents(Times(Parse(DecimalUnitAmount(cents, quantity).value), quantity)) == Success(cents)
  {
    if DecimalUnitAmount(cents, quantity).Success? {
      var unit := HalfUp(cents * 10_000, quantity);
      UnitIsExactlyRounded(cents, quantity);
      ParseFormat(unit, 6);
      SixDecimals();
      HalfUpIsNearest(cents * 10_000, quantity);
      assert unit * quantity == quantity * unit;
      ContextIsExact(unit * quantity);
      UnitTimesQuantity(cents, quantity, unit);
    }
  }

  lemma {:induction false} SixDecimals()
    ensures Pow10(6) == 1_000_000
  {
  }
}
