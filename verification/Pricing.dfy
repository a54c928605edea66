/** Congestion pricing of a slot (src/db/slot_congestion_ops.rs, src/services/fee_pricing.rs),
    over exact reals: the `is_finite` guards of the f64 code have no counterpart because every
    quotient below is defined. */
module Pricing {
  import opened Machine

  // ---- Real arithmetic ----

  lemma MulLe(a: real, b: real, c: real)
    requires a <= b && 0.0 <= c
    ensures a * c <= b * c && c * a <= c * b
  {
  }

  lemma MulLt(a: real, b: real, c: real)
    requires a < b && 0.0 < c
    ensures a * c < b * c && c * a < c * b
  {
  }

  lemma UnitProduct(x: real, p: real)
    requires 0.0 <= x <= 1.0 && 0.0 <= p <= 1.0
    ensures 0.0 <= x * p <= p
  {
    MulLe(0.0, x, p);
    MulLe(x, 1.0, p);
    assert 0.0 * p == 0.0 && 1.0 * p == p;
  }

  lemma ProductLt(x: real, y: real, p: real, q: real)
    requires 0.0 <= x < y && 0.0 <= p < q
    ensures x * p < y * q
  {
    MulLe(p, q, x);
    MulLt(x, y, q);
  }

  /** Quotients compare like numerators. */
  lemma QuotientOrder(q: real, b: real, a: real, c: real)
    requires c > 0.0 && q * c == a
    ensures q < b <==> a < b * c
    ensures q <= b <==> a <= b * c
  {
    if q < b {
      MulLt(q, b, c);
    } else if q == b {
    } else {
      MulLt(b, q, c);
    }
  }

  // ---- The curve ----

  /** What pricing uses of `powf(k)` for a positive exponent, on [0, 1]. */
  ghost predicate PowerLike(power: real -> real) {
    && power(0.0) == 0.0
    && power(1.0) == 1.0
    && forall x, y :: 0.0 <= x < y <= 1.0 ==> power(x) < power(y)
  }

  type Exponent = p: real -> real | PowerLike(p) witness (x: real) => x

  function Power(x: real, k: nat): real {
    if k == 0 then 1.0 else x * Power(x, k - 1)
  }

  lemma {:induction false} PowerBounds(x: real, k: nat)
    requires 0.0 <= x <= 1.0
    ensures 0.0 <= Power(x, k) <= 1.0
  {
    if k > 0 {
      PowerBounds(x, k - 1);
      UnitProduct(x, Power(x, k - 1));
    }
  }

  lemma {:induction false} PowerOfOne(k: nat)
    ensures Power(1.0, k) == 1.0
  {
    if k > 0 {
      PowerOfOne(k - 1);
    }
  }

  lemma {:induction false} PowerIncreasing(x: real, y: real, k: nat)
    requires 0.0 <= x < y <= 1.0 && k > 0
    ensures Power(x, k) < Power(y, k)
  {
    if k > 1 {
      PowerBounds(x, k - 1);
      PowerIncreasing(x, y, k - 1);
      ProductLt(x, y, Power(x, k - 1), Power(y, k - 1));
    } else {
      PowerStep(x, 0);
      PowerStep(y, 0);
    }
  }

  lemma PowerStep(x: real, k: nat)
    ensures Power(x, k + 1) == x * Power(x, k)
  {
  }

  lemma PowerStepDown(x: real, k: nat)
    requires 0.0 <= x <= 1.0
    ensures Power(x, k + 1) <= Power(x, k)
  {
    PowerBounds(x, k);
    PowerStep(x, k);
    UnitProduct(x, Power(x, k));
  }

  /** A larger exponent keeps the curve lower. */
  lemma {:induction false} PowerDecreasingInExponent(x: real, k: nat, l: nat)
    requires 0.0 <= x <= 1.0 && k <= l
    ensures Power(x, l) <= Power(x, k)
    decreases l
  {
    if k < l {
      PowerDecreasingInExponent(x, k, l - 1);
      PowerStepDown(x, l - 1);
    }
  }

  /** Every natural exponent above zero is an exponent of the model. */
  lemma NaturalExponent(k: nat)
    requires k > 0
    ensures PowerLike((x: real) => Power(x, k))
  {
    PowerOfOne(k);
    forall x, y | 0.0 <= x < y <= 1.0
      ensures Power(x, k) < Power(y, k)
    {
      PowerIncreasing(x, y, k);
    }
  }

  lemma PowerRange(power: Exponent, r: real)
    requires 0.0 <= r < 1.0
    ensures 0.0 <= power(r) < 1.0
  {
  }

  function Ratio(gas: u64, limit: u64): real
    requires limit > 0
  {
    gas as real / limit as real
  }

  function Clamp(x: real, low: real, high: real): real {
    if x < low then low else if x > high then high else x
  }

  /** The multiplier of a slot: 100 without a limit or from full usage on, else 1 / (1 - r^k)
      within [1, 100]. */
  function Multiplier(power: Exponent, gas: u64, limit: u64): real {
    if limit == 0 || gas >= limit then 100.0
    else
      RatioBelowOne(gas, limit);
      PowerRange(power, Ratio(gas, limit));
      Clamp(1.0 / (1.0 - power(Ratio(gas, limit))), 1.0, 100.0)
  }

  function Ceiling(x: real): int {
    if x.Floor as real == x then x.Floor else x.Floor + 1
  }

  /** `x.ceil() as u64`: casts saturate at both ends. */
  function CeilingU64(x: real): u64 {
    var c := Ceiling(x);
    if c < 0 then 0 else if c > U64_MAX then U64_MAX else c
  }

  function Price(base: u64, multiplier: real): u64 {
    CeilingU64(base as real * multiplier)
  }

  lemma RatioBelowOne(gas: u64, limit: u64)
    requires limit > 0
    ensures Ratio(gas, limit) >= 0.0
    ensures Ratio(gas, limit) < 1.0 <==> gas < limit
  {
    QuotientOrder(Ratio(gas, limit), 1.0, gas as real, limit as real);
    QuotientOrder(0.0, Ratio(gas, limit), 0.0, limit as real);
    assert Ratio(gas, limit) * limit as real == gas as real;
  }

  lemma RatioIncreasing(gas: u64, more: u64, limit: u64)
    requires limit > 0 && gas < more
    ensures Ratio(gas, limit) < Ratio(more, limit)
  {
    assert Ratio(more, limit) * limit as real == more as real;
    QuotientOrder(Ratio(gas, limit), Ratio(more, limit), gas as real, limit as real);
  }

  lemma Reciprocal(p: real, q: real)
    requires p <= q < 1.0
    ensures 1.0 / (1.0 - p) <= 1.0 / (1.0 - q)
    ensures p < q ==> 1.0 / (1.0 - p) < 1.0 / (1.0 - q)
    ensures 1.0 / (1.0 - q) >= 100.0 <==> q >= 0.99
    ensures 1.0 / (1.0 - q) >= 1.0 <==> q >= 0.0
  {
    var a, b := 1.0 / (1.0 - p), 1.0 / (1.0 - q);
    assert a * (1.0 - p) == 1.0 && b * (1.0 - q) == 1.0;
    QuotientOrder(0.0, b, 0.0, 1.0 - q);
    MulLe(1.0 - q, 1.0 - p, b);
    if p < q {
      MulLt(1.0 - q, 1.0 - p, b);
    }
    QuotientOrder(a, b, 1.0, 1.0 - p);
    QuotientOrder(b, 100.0, 1.0, 1.0 - q);
    QuotientOrder(b, 1.0, 1.0, 1.0 - q);
  }

  /** Where the curve is at its cap. */
  lemma MultiplierIsCap(power: Exponent, gas: u64, limit: u64)
    requires limit > 0
    ensures Multiplier(power, gas, limit) == 100.0 <==> gas >= limit || power(Ratio(gas, limit)) >= 0.99
  {
    if gas < limit {
      RatioBelowOne(gas, limit);
      PowerRange(power, Ratio(gas, limit));
      Reciprocal(0.0, power(Ratio(gas, limit)));
    }
  }

  /** Below the cap the multiplier is the uncapped curve. */
  lemma MultiplierBelowCap(power: Exponent, gas: u64, limit: u64)
    requires limit > 0 && gas < limit && Multiplier(power, gas, limit) < 100.0
    ensures power(Ratio(gas, limit)) < 1.0
    ensures Multiplier(power, gas, limit) == 1.0 / (1.0 - power(Ratio(gas, limit)))
  {
    RatioBelowOne(gas, limit);
    PowerRange(power, Ratio(gas, limit));
    Reciprocal(0.0, power(Ratio(gas, limit)));
  }

  lemma MultiplierBounds(power: Exponent, gas: u64, limit: u64)
    ensures 1.0 <= Multiplier(power, gas, limit) <= 100.0
    ensures limit > 0 && gas == 0 ==> Multiplier(power, gas, limit) == 1.0
    ensures limit == 0 ==> Multiplier(power, gas, limit) == 100.0
  {
  }

  lemma MultiplierMonotone(power: Exponent, gas: u64, more: u64, limit: u64)
    requires gas <= more
    ensures Multiplier(power, gas, limit) <= Multiplier(power, more, limit)
    ensures gas < more && Multiplier(power, more, limit) < 100.0
        ==> Multiplier(power, gas, limit) < Multiplier(power, more, limit)
  {
    if limit > 0 && gas < more < limit {
      RatioBelowOne(gas, limit);
      RatioBelowOne(more, limit);
      RatioIncreasing(gas, more, limit);
      PowerRange(power, Ratio(gas, limit));
      PowerRange(power, Ratio(more, limit));
      Reciprocal(power(Ratio(gas, limit)), power(Ratio(more, limit)));
      Reciprocal(0.0, power(Ratio(gas, limit)));
    }
  }

  /** A flatter curve never charges more; with `PowerDecreasingInExponent`, a larger k is flatter. */
  lemma MultiplierOfFlatterCurve(steep: Exponent, flat: Exponent, gas: u64, limit: u64)
    requires forall x :: 0.0 <= x <= 1.0 ==> flat(x) <= steep(x)
    ensures Multiplier(flat, gas, limit) <= Multiplier(steep, gas, limit)
  {
    if limit > 0 && gas < limit {
      var r := Ratio(gas, limit);
      RatioBelowOne(gas, limit);
      PowerRange(flat, r);
      PowerRange(steep, r);
      assert flat(r) <= steep(r);
      Reciprocal(flat(r), steep(r));
    }
  }

  lemma MultiplierInExponent(k: nat, l: nat, gas: u64, limit: u64)
    requires 0 < k <= l
    ensures PowerLike((x: real) => Power(x, k)) && PowerLike((x: real) => Power(x, l))
    ensures Multiplier((x: real) => Power(x, l), gas, limit) <= Multiplier((x: real) => Power(x, k), gas, limit)
  {
    NaturalExponent(k);
    NaturalExponent(l);
    var steep, flat := (x: real) => Power(x, k), (x: real) => Power(x, l);
    forall x | 0.0 <= x <= 1.0
      ensures flat(x) <= steep(x)
    {
      PowerDecreasingInExponent(x, k, l);
    }
    MultiplierOfFlatterCurve(steep, flat, gas, limit);
  }

  // ---- Prices ----

  lemma CeilingMonotone(x: real, y: real)
    requires x <= y
    ensures CeilingU64(x) <= CeilingU64(y)
  {
  }

  lemma PriceMonotone(base: u64, m: real, n: real)
    requires m <= n
    ensures Price(base, m) <= Price(base, n)
  {
    var x, y := base as real * m, base as real * n;
    assert x <= y by {
      MulLe(m, n, base as real);
    }
    CeilingMonotone(x, y);
  }

  lemma PriceAtEnds(base: u64)
    ensures Price(base, 1.0) == base
    ensures Price(base, 100.0) == SaturatingMul(base, 100)
  {
    assert base as real * 100.0 == (base * 100) as real;
  }

  /** The price is the least whole price that is not below base times multiplier, if it fits. */
  lemma PriceIsLeast(base: u64, m: real, p: u64)
    requires m >= 0.0
    ensures Price(base, m) == p
       <==> || base as real * m <= p as real < base as real * m + 1.0
            || (p == U64_MAX && base as real * m > p as real)
  {
    var y := base as real * m;
    MulLe(0.0, m, base as real);
    assert 0.0 * (base as real) == 0.0;
    CeilingIsLeast(y, p);
  }

  lemma CeilingIsLeast(y: real, p: u64)
    requires y >= 0.0
    ensures CeilingU64(y) == p <==> y <= p as real < y + 1.0 || (p == U64_MAX && y > p as real)
  {
    var c := Ceiling(y);
    assert c as real - 1.0 < y <= c as real;
  }

  // ---- A slot's record ----

  datatype Congestion = Congestion(
    slot: u64, preconfirmedGas: u64, totalGasLimit: u64, gasUsedRatio: real,
    baseGasPrice: u64, feeMultiplier: real, currentTxPrice: u64)

  function NewCongestion(slot: u64, base: u64, limit: u64): Congestion {
    Congestion(slot, 0, limit, 0.0, base, 1.0, base)
  }

  /** The record after `additional` gas: everything but the gas follows from the curve. */
  function AddGas(power: Exponent, c: Congestion, additional: u64): Congestion {
    var gas := SaturatingAdd(c.preconfirmedGas, additional);
    var multiplier := Multiplier(power, gas, c.totalGasLimit);
    c.(preconfirmedGas := gas,
       gasUsedRatio := if c.totalGasLimit == 0 then 0.0 else Ratio(gas, c.totalGasLimit),
       feeMultiplier := multiplier,
       currentTxPrice := Price(c.baseGasPrice, multiplier))
  }

  class SlotCongestion {
    const slot: u64
    var preconfirmedGas: u64
    var totalGasLimit: u64
    var gasUsedRatio: real
    var baseGasPrice: u64
    var feeMultiplier: real
    var currentTxPrice: u64

    function Value(): Congestion
      reads this
    {
      Congestion(slot, preconfirmedGas, totalGasLimit, gasUsedRatio, baseGasPrice, feeMultiplier, currentTxPrice)
    }

    constructor New(slot: u64, base: u64, limit: u64)
      ensures Value() == NewCongestion(slot, base, limit)
    {
      this.slot := slot;
      preconfirmedGas, totalGasLimit, gasUsedRatio := 0, limit, 0.0;
      baseGasPrice, feeMultiplier, currentTxPrice := base, 1.0, base;
    }

    constructor FromValue(c: Congestion)
      ensures Value() == c
    {
      slot := c.slot;
      preconfirmedGas, totalGasLimit, gasUsedRatio := c.preconfirmedGas, c.totalGasLimit, c.gasUsedRatio;
      baseGasPrice, feeMultiplier, currentTxPrice := c.baseGasPrice, c.feeMultiplier, c.currentTxPrice;
    }

    method AddGasUsage(additional: u64, power: Exponent)
      modifies this
      ensures Value() == AddGas(power, old(Value()), additional)
    {
      var gas := SaturatingAdd(preconfirmedGas, additional);
      preconfirmedGas := gas;
      var limit, base := totalGasLimit, baseGasPrice;
      PriceAtEnds(base);
      if limit == 0 {
        gasUsedRatio := 0.0;
        feeMultiplier := 100.0;
        currentTxPrice := SaturatingMul(base, 100);
        return;
      }
      var ratio := gas as real / limit as real;
      RatioBelowOne(gas, limit);
      if ratio < 0.0 {
        ratio := 0.0;
      }
      gasUsedRatio := ratio;
      var multiplier: real;
      if ratio >= 1.0 {
        multiplier := 100.0;
      } else {
        PowerRange(power, ratio);
        multiplier := 1.0 / (1.0 - power(ratio));
      }
      multiplier := Clamp(multiplier, 1.0, 100.0);
      assert multiplier == Multiplier(power, gas, limit);
      feeMultiplier := multiplier;
      currentTxPrice := PriceOrCap(base, multiplier);
    }
  }

  /** The last step of an update: the rounded price, or the cap for a negative product. */
  method PriceOrCap(base: u64, multiplier: real) returns (price: u64)
    requires multiplier >= 0.0
    ensures price == Price(base, multiplier)
  {
    var scaledPrice, cap := base as real * multiplier, SaturatingMul(base, 100);
    MulLe(0.0, multiplier, base as real);
    if scaledPrice < 0.0 {
      price := cap;
    } else {
      price := CeilingU64(scaledPrice);
    }
  }

  /** The same base, limit and slot, at least as much gas and at least the price. */
  ghost predicate Grown(c: Congestion, d: Congestion) {
    && c.slot == d.slot
    && c.totalGasLimit == d.totalGasLimit
    && c.baseGasPrice == d.baseGasPrice
    && c.preconfirmedGas <= d.preconfirmedGas
    && c.currentTxPrice <= d.currentTxPrice
  }

  /** A record as `new` and `add_gas_usage` leave it. */
  ghost predicate Priced(power: Exponent, c: Congestion) {
    || c == NewCongestion(c.slot, c.baseGasPrice, c.totalGasLimit)
    || (&& c.feeMultiplier == Multiplier(power, c.preconfirmedGas, c.totalGasLimit)
        && c.currentTxPrice == Price(c.baseGasPrice, c.feeMultiplier))
  }

  lemma PricedBounds(power: Exponent, c: Congestion)
    requires Priced(power, c)
    ensures 1.0 <= c.feeMultiplier <= 100.0
    ensures c.baseGasPrice <= c.currentTxPrice <= SaturatingMul(c.baseGasPrice, 100)
  {
    MultiplierBounds(power, c.preconfirmedGas, c.totalGasLimit);
    PriceAtEnds(c.baseGasPrice);
    PriceMonotone(c.baseGasPrice, 1.0, c.feeMultiplier);
    PriceMonotone(c.baseGasPrice, c.feeMultiplier, 100.0);
  }

  /** One update keeps a record priced and never lowers its price. */
  lemma AddGasGrows(power: Exponent, c: Congestion, additional: u64)
    requires Priced(power, c)
    ensures Priced(power, AddGas(power, c, additional))
    ensures Grown(c, AddGas(power, c, additional))
  {
    var d := AddGas(power, c, additional);
    PricedBounds(power, d);
    if c.feeMultiplier == Multiplier(power, c.preconfirmedGas, c.totalGasLimit) {
      MultiplierMonotone(power, c.preconfirmedGas, d.preconfirmedGas, c.totalGasLimit);
      PriceMonotone(c.baseGasPrice, c.feeMultiplier, d.feeMultiplier);
      PriceAtEnds(c.baseGasPrice);
    }
  }

  /** A fresh record and an updated one, field by field. The usage ratio is gas over limit and is not
      capped; without a limit it is 0. */
  lemma RecordsExactly(power: Exponent, slot: u64, base: u64, limit: u64, c: Congestion, additional: u64)
    ensures var idle := NewCongestion(slot, base, limit);
      && idle.slot == slot && idle.baseGasPrice == base == idle.currentTxPrice && idle.totalGasLimit == limit
      && idle.preconfirmedGas == 0 && idle.gasUsedRatio == 0.0 && idle.feeMultiplier == 1.0
    ensures var d, sum := AddGas(power, c, additional), c.preconfirmedGas + additional;
      && d.slot == c.slot && d.baseGasPrice == c.baseGasPrice && d.totalGasLimit == c.totalGasLimit
      && d.preconfirmedGas == (if sum < TWO_64 then sum else TWO_64 - 1)
      && (d.totalGasLimit == 0 ==> d.gasUsedRatio == 0.0)
      && (d.totalGasLimit > 0 ==> d.gasUsedRatio * d.totalGasLimit as real == d.preconfirmedGas as real)
      && d.feeMultiplier == Multiplier(power, d.preconfirmedGas, d.totalGasLimit)
      && d.currentTxPrice == Price(d.baseGasPrice, d.feeMultiplier)
  {
  }

  /** Two updates are one update with the saturated sum. */
  lemma AddGasTwice(power: Exponent, c: Congestion, a: u64, b: u64)
    ensures AddGas(power, AddGas(power, c, a), b) == AddGas(power, c, SaturatingAdd(a, b))
  {
  }

  // ---- Quotes ----

  /** `calculate_projected_congestion`: the update applied to a copy, within the configured bounds. */
  function Project(power: Exponent, c: Congestion, additional: u64, low: real, high: real): Congestion {
    var d := AddGas(power, c, additional);
    var bounded := Bounded(d.feeMultiplier, low, high);
    d.(feeMultiplier := bounded, currentTxPrice := Price(d.baseGasPrice, bounded))
  }

  /** `m.max(low).min(high)`. */
  function Bounded(m: real, low: real, high: real): real {
    var raised := if m < low then low else m;
    if raised > high then high else raised
  }

  /** A multiplier between the bounds stays; below the lower one it becomes that, above the upper one the
      upper one, which also wins when the bounds cross. */
  lemma BoundedExactly(m: real, low: real, high: real)
    ensures Bounded(m, low, high) <= high
    ensures low <= m <= high ==> Bounded(m, low, high) == m
    ensures m < low <= high ==> Bounded(m, low, high) == low
    ensures m > high || low > high ==> Bounded(m, low, high) == high
  {
  }

  /** A quote is the update with the bounded multiplier and its price; nothing else differs. */
  lemma ProjectsExactly(power: Exponent, c: Congestion, additional: u64, low: real, high: real)
    ensures var p, d := Project(power, c, additional, low, high), AddGas(power, c, additional);
      && p == d.(feeMultiplier := p.feeMultiplier, currentTxPrice := p.currentTxPrice)
      && p.feeMultiplier == Bounded(d.feeMultiplier, low, high)
      && p.currentTxPrice == Price(d.baseGasPrice, p.feeMultiplier)
  {
  }

  method CalculateProjectedCongestion(c: Congestion, additional: u64, power: Exponent, low: real, high: real)
    returns (projected: Congestion)
    ensures projected == Project(power, c, additional, low, high)
  {
    var copy := new SlotCongestion.FromValue(c);
    copy.AddGasUsage(additional, power);
    projected := copy.Value();
    var bounded := Bounded(projected.feeMultiplier, low, high);
    var price := CappedPrice(projected.baseGasPrice, bounded);
    projected := projected.(feeMultiplier := bounded, currentTxPrice := price);
  }

  /** The rounded price if it fits 64 bits, else the largest one. */
  method CappedPrice(base: u64, multiplier: real) returns (price: u64)
    ensures price == Price(base, multiplier)
  {
    var scaledPrice := Ceiling(base as real * multiplier);
    if scaledPrice <= U64_MAX {
      price := if scaledPrice < 0 then 0 else scaledPrice;
    } else {
      price := U64_MAX;
    }
  }

  /** With the bounds at or outside [1, 100] the quote is the record the update would store. */
  lemma QuoteIsApplied(power: Exponent, c: Congestion, additional: u64, low: real, high: real)
    requires low <= 1.0 && high >= 100.0
    ensures Project(power, c, additional, low, high) == AddGas(power, c, additional)
  {
    MultiplierBounds(power, SaturatingAdd(c.preconfirmedGas, additional), c.totalGasLimit);
    BoundedWithin(AddGas(power, c, additional).feeMultiplier, low, high);
  }

  lemma BoundedWithin(m: real, low: real, high: real)
    requires low <= 1.0 <= m
    ensures Bounded(m, low, high) <= m
    ensures m <= 100.0 <= high ==> Bounded(m, low, high) == m
  {
  }

  function Least(x: real, y: real): real {
    if x < y then x else y
  }

  /** No quote for at least this much gas exceeds the curve: on an idle slot a bound is at or below the
      multiplier, or rounding hides that both are above it. */
  predicate NeverRaises(power: Exponent, least: u64, limit: u64, base: u64, low: real, high: real) {
    var m := Multiplier(power, least, limit);
    low <= m || high <= m || Price(base, Least(low, high)) <= Price(base, m)
  }

  /** With a bound of at most 1 none ever does. */
  lemma BoundOfOneNeverRaises(power: Exponent, least: u64, limit: u64, base: u64, low: real, high: real)
    requires low <= 1.0 || high <= 1.0
    ensures NeverRaises(power, least, limit, base, low, high)
  {
    MultiplierBounds(power, least, limit);
  }

  lemma BoundedIsLeast(m: real, low: real, high: real)
    ensures low <= m || high <= m ==> Bounded(m, low, high) <= m
    ensures m < low && m < high ==> Bounded(m, low, high) == Least(low, high)
  {
  }

  /** On the curve from the least gas on. */
  lemma BoundedPrice(power: Exponent, least: u64, gas: u64, limit: u64, base: u64, low: real, high: real)
    requires least <= gas && NeverRaises(power, least, limit, base, low, high)
    ensures var m := Multiplier(power, gas, limit);
      Price(base, Bounded(m, low, high)) <= Price(base, m)
  {
    var m, first := Multiplier(power, gas, limit), Multiplier(power, least, limit);
    MultiplierMonotone(power, least, gas, limit);
    BoundedIsLeast(m, low, high);
    if low <= m || high <= m {
      PriceMonotone(base, Bounded(m, low, high), m);
    } else {
      PriceMonotone(base, first, m);
    }
  }

  /** A quote taken before other updates is at most the price its own update stores. */
  lemma QuoteAtMostLaterPrice(
      power: Exponent, quoted: Congestion, later: Congestion, additional: u64, low: real, high: real)
    requires NeverRaises(power, additional, quoted.totalGasLimit, quoted.baseGasPrice, low, high)
    requires Grown(quoted, later)
    ensures Project(power, quoted, additional, low, high).currentTxPrice
         <= AddGas(power, later, additional).currentTxPrice
  {
    var c, d := AddGas(power, quoted, additional), AddGas(power, later, additional);
    BoundedPrice(power, additional, c.preconfirmedGas, c.totalGasLimit, c.baseGasPrice, low, high);
    MultiplierMonotone(power, c.preconfirmedGas, d.preconfirmedGas, c.totalGasLimit);
    PriceMonotone(c.baseGasPrice, c.feeMultiplier, d.feeMultiplier);
  }

  ghost predicate NeverExceeds(power: Exponent, c: Congestion, additional: u64, low: real, high: real) {
    Project(power, c, additional, low, high).currentTxPrice <= AddGas(power, c, additional).currentTxPrice
  }

  lemma QuoteAtMostApplied(power: Exponent, least: u64, c: Congestion, additional: u64, low: real, high: real)
    requires least <= additional && NeverRaises(power, least, c.totalGasLimit, c.baseGasPrice, low, high)
    ensures NeverExceeds(power, c, additional, low, high)
  {
    var d := AddGas(power, c, additional);
    BoundedPrice(power, least, d.preconfirmedGas, d.totalGasLimit, d.baseGasPrice, low, high);
  }

  /** Otherwise the least gas itself, on an idle slot, is quoted above what its update stores. */
  lemma QuoteAboveAppliedPrice(
      power: Exponent, slot: u64, least: u64, limit: u64, base: u64, low: real, high: real)
    requires !NeverRaises(power, least, limit, base, low, high)
    ensures !NeverExceeds(power, NewCongestion(slot, base, limit), least, low, high)
  {
    BoundedIsLeast(Multiplier(power, least, limit), low, high);
  }

  /** For records with one limit and base: no quote for at least this much gas exceeds the price its own
      update stores exactly when the bounds never raise a price. */
  lemma QuoteNeverExceedsExactly(
      power: Exponent, least: u64, limit: u64, base: u64, low: real, high: real)
    ensures (forall c: Congestion, additional: u64 ::
               c.totalGasLimit == limit && c.baseGasPrice == base && least <= additional
               ==> NeverExceeds(power, c, additional, low, high))
       <==> NeverRaises(power, least, limit, base, low, high)
  {
    if NeverRaises(power, least, limit, base, low, high) {
      forall c: Congestion, additional: u64
        | c.totalGasLimit == limit && c.baseGasPrice == base && least <= additional
        ensures NeverExceeds(power, c, additional, low, high)
      {
        QuoteAtMostApplied(power, least, c, additional, low, high);
      }
    } else {
      QuoteAboveAppliedPrice(power, 1, least, limit, base, low, high);
    }
  }
}
