/**
 The bonus frozen when a delivery closes (backend/app/services/delivery_service.py,
 lines 145-257, and backend/app/services/delivery_ledger.py, lines 23-39):
 base x zone multiplier x tier multiplier, rounded half up to whole cents.
 */
module DeliveryBonus {
  import opened Wrappers

  const MAX_BALANCE: real := 99999999.99
  const MAX_CENTS := 9_999_999_999

  /** A configured value as it reads: a finite decimal or not. */
  datatype Setting = Amount(value: real) | NotAmount

  datatype Tier = BRONCE | PLATA | ORO | PLATINO | OtherTier

  datatype Warning = MissingBase | InvalidBase | InvalidZone | OutOfRange

  datatype Snapshot = Snapshot(cents: nat, warning: Option<Warning>)

  datatype Config = Config(base: Option<Setting>, zone: Option<Setting>, tier: Tier)

  function Component(s: Setting): Option<real> {
    match s
    case Amount(v) => if 0.0 <= v <= MAX_BALANCE then Some(v) else None
    case NotAmount => None
  }

  function TierMultiplier(tier: Tier): real {
    match tier
    case PLATA => 1.05
    case ORO => 1.10
    case PLATINO => 1.15
    case _ => 1.00
  }

  function HalfUpCents(amount: real): int {
    (amount * 100.0 + 0.5).Floor
  }

  lemma {:induction false} ProductNotNegative(a: real, b: real)
    requires 0.0 <= a && 0.0 <= b
    ensures 0.0 <= a * b
  {
  }

  /** The multiplier of the zone of the rider; one when there is none. */
  function ZoneMultiplier(zone: Option<Setting>): Option<real> {
    match zone
    case None => Some(1.0)
    case Some(s) => Component(s)
  }

  function Product(base: real, zone: real, tier: real): (r: real)
    requires 0.0 <= base && 0.0 <= zone && 0.0 <= tier
    ensures r >= 0.0
  {
    ProductNotNegative(base, zone);
    ProductNotNegative(base * zone, tier);
    base * zone * tier
  }

  function BonusSnapshot(c: Config): (s: Snapshot)
    ensures s.cents <= MAX_CENTS
  {
    if c.base.None? then Snapshot(0, Some(MissingBase))
    else if Component(c.base.value).None? then Snapshot(0, Some(InvalidBase))
    else if ZoneMultiplier(c.zone).None? then Snapshot(0, Some(InvalidZone))
    else
      var base, zone, tier := Component(c.base.value).value, ZoneMultiplier(c.zone).value, TierMultiplier(c.tier);
      var product := Product(base, zone, tier);
      if product > MAX_BALANCE then Snapshot(0, Some(OutOfRange)) else Snapshot(HalfUpCents(product), None)
  }

  /** Half-up rounding picks the nearest number of cents, the larger one at a tie. */
  lemma {:induction false} HalfUpIsNearest(amount: real, other: int)
    ensures var cents := HalfUpCents(amount);
            && cents as real - 0.5 <= amount * 100.0 < cents as real + 0.5
            && (other != cents ==>
                  (if other as real > amount * 100.0 then other as real - amount * 100.0 else amount * 100.0 - other as real)
                  >= (if cents as real > amount * 100.0 then cents as real - amount * 100.0 else amount * 100.0 - cents as real))
  {
  }

  // ----- what is frozen -----

  predicate InRange(setting: Setting) {
    setting.Amount? && 0.0 <= setting.value <= 99999999.99
  }

  predicate Usable(c: Config) {
    c.base.Some? && InRange(c.base.value) && (c.zone.Some? ==> InRange(c.zone.value))
  }

  /** Base x zone x tier. */
  function Due(c: Config): real
    requires Usable(c)
  {
    var zone := if c.zone.Some? then c.zone.value.value else 1.0;
    var percent := match c.tier case BRONCE => 100.0 case PLATA => 105.0 case ORO => 110.0 case PLATINO => 115.0 case OtherTier => 100.0;
    c.base.value.value * zone * (percent / 100.0)
  }

  predicate Payable(c: Config) {
    Usable(c) && Due(c) <= 99999999.99
  }

  /** The number of cents nearest to what is due, the larger at a tie; nothing without a usable configuration. */
  predicate Earns(c: Config, cents: int) {
    if Payable(c) then cents as real - 0.5 <= 100.0 * Due(c) < cents as real + 0.5 else cents == 0
  }

  /** The frozen amount is what is due to the nearest cent, and a warning says why nothing is. */
  lemma {:induction false} SnapshotMeaning(c: Config)
    ensures var s := BonusSnapshot(c);
            && Earns(c, s.cents)
            && (s.warning == None <==> Payable(c))
            && (s.warning == Some(MissingBase) <==> c.base.None?)
            && (s.warning == Some(InvalidBase) <==> c.base.Some? && !InRange(c.base.value))
            && (s.warning == Some(InvalidZone) <==> c.base.Some? && InRange(c.base.value) && !Usable(c))
            && (s.warning == Some(OutOfRange) <==> Usable(c) && !Payable(c))
  {
    if Usable(c) {
      assert Due(c) == Product(c.base.value.value, ZoneMultiplier(c.zone).value, TierMultiplier(c.tier));
      HalfUpIsNearest(Due(c), HalfUpCents(Due(c)));
    }
  }

  /** Due, and worth at least half a cent. */
  predicate PaysOut(c: Config) {
    Payable(c) && 0.005 <= Due(c)
  }

  lemma {:induction false} PositiveIffPaysOut(c: Config)
    ensures BonusSnapshot(c).cents > 0 <==> PaysOut(c)
  {
    SnapshotMeaning(c);
  }

  lemma {:induction false} FloorMonotone(x: real, y: real)
    requires x <= y
    ensures x.Floor <= y.Floor
  {
  }

  lemma {:induction false} ScaleMonotone(a: real, b: real, m: real)
    requires a <= b && 0.0 <= m
    ensures a * m <= b * m
  {
  }

  lemma {:induction false} CentsMonotone(a: real, b: real, zone: real, tier: real)
    requires 0.0 <= a <= b && 0.0 <= zone && 0.0 <= tier
    ensures HalfUpCents(Product(a, zone, tier)) <= HalfUpCents(Product(b, zone, tier))
  {
    var x, y := a * zone, b * zone;
    ScaleMonotone(a, b, zone);
    assert x <= y;
    ScaleMonotone(x, y, tier);
    FloorMonotone(x * tier * 100.0 + 0.5, y * tier * 100.0 + 0.5);
  }

  /** With everything else fixed, a higher base never freezes less, as long as neither is out of range. */
  lemma {:induction false} HigherBaseNeverPaysLess(low: Config, high: Config)
    requires low.base.Some? && low.base.value.Amount? && high.base.Some? && high.base.value.Amount?
    requires low.base.value.value <= high.base.value.value && low.zone == high.zone && low.tier == high.tier
    requires BonusSnapshot(low).warning == None && BonusSnapshot(high).warning == None
    ensures BonusSnapshot(low).cents <= BonusSnapshot(high).cents
  {
    var zone, tier := ZoneMultiplier(low.zone).value, TierMultiplier(low.tier);
    var a, b := low.base.value.value, high.base.value.value;
    CentsMonotone(a, b, zone, tier);
    assert BonusSnapshot(low).cents == HalfUpCents(Product(a, zone, tier));
    assert BonusSnapshot(high).cents == HalfUpCents(Product(b, zone, tier));
  }
}
