/**
 Interest accrual of the insurance pool: fixed-point utilization, rates and
 indexes, every division rounding toward zero. Proves that supplier interest
 never outruns borrower interest, and exactly when an accrual leaves the pool's
 liquid float covered by a token balance.
 */
module Interest {
  import opened Arithmetic
  import opened Prelude

  const PRECISION: int := 1_000_000_000_000_000_000
  const SECONDS_PER_YEAR: int := 31_536_000
  const RESERVE_FACTOR_BPS: int := 1_000
  const BASE_RATE_BPS: int := 200
  const SLOPE_BPS: int := 10_000
  const MAX_UTILIZATION_BPS: int := 10_000

  datatype Error =
    | InsufficientLiquidity | ArithmeticOverflow | InvalidAmount | ExceedsCollateral
    | TokenTransferTrapped

  function Clamp(x: int, lo: int, hi: int): int {
    if x < lo then lo else if x > hi then hi else x
  }

  function UtilizationRatio(borrowed: int, supplied: int): int {
    if borrowed <= 0 then 0
    else if supplied <= 0 then MAX_UTILIZATION_BPS
    else
      var product := borrowed * MAX_UTILIZATION_BPS;
      var util := if FitsI128(product) then TruncDiv(product, supplied) else MAX_UTILIZATION_BPS;
      Clamp(util, 0, MAX_UTILIZATION_BPS)
  }

  /** Per-second borrow rate; none of its products can leave the 128-bit range. */
  function BorrowRate(utilization: int): int {
    var util := Clamp(utilization, 0, MAX_UTILIZATION_BPS);
    var annual := BASE_RATE_BPS + SLOPE_BPS * util / MAX_UTILIZATION_BPS;
    annual * PRECISION / (10_000 * SECONDS_PER_YEAR)
  }

  function SupplyRate(borrowRate: int, utilization: int): int {
    var util := Clamp(utilization, 0, MAX_UTILIZATION_BPS);
    var product := borrowRate * util * (MAX_UTILIZATION_BPS - RESERVE_FACTOR_BPS);
    if FitsI128(borrowRate * util) && FitsI128(product) then TruncDiv(product, 100_000_000) else 0
  }

  /** `index * (1 + rate * dt)`: the same formula for both indexes. */
  function AccrueIndex(index: int, rate: int, dt: int): Result<int, Error> {
    if dt <= 0 then Ok(index)
    else if !FitsI128(rate * dt) || !FitsI128(PRECISION + rate * dt) then Err(ArithmeticOverflow)
    else if !FitsI128(index * (PRECISION + rate * dt)) then Err(ArithmeticOverflow)
    else Ok(TruncDiv(index * (PRECISION + rate * dt), PRECISION))
  }

  function MulDiv(a: int, b: int, c: int): Result<int, Error> {
    if c == 0 then Ok(a)
    else if !FitsI128(a * b) then Err(ArithmeticOverflow)
    else Ok(TruncDiv(a * b, c))
  }

  datatype Totals = Totals(supplied: int, borrowed: int, supplyIndex: int, borrowIndex: int, lastAccrual: nat) {
    /** Tokens the pool believes it can pay out. */
    function Float(): int {
      supplied - borrowed
    }

    predicate IndexesAtLeastOne() {
      supplyIndex >= PRECISION && borrowIndex >= PRECISION
    }
  }

  /** `accrue_internal`: bring indexes and totals up to `now`. */
  function Accrued(t: Totals, now: nat): Result<Totals, Error> {
    var dt := SatSub(now, t.lastAccrual);
    if dt > 0 && (t.supplied > 0 || t.borrowed > 0) then
      var util := UtilizationRatio(t.borrowed, t.supplied);
      var br := BorrowRate(util);
      var borrowIndex :- AccrueIndex(t.borrowIndex, br, dt);
      var supplyIndex :- AccrueIndex(t.supplyIndex, SupplyRate(br, util), dt);
      var borrowed :- MulDiv(t.borrowed, borrowIndex, t.borrowIndex);
      var supplied :- MulDiv(t.supplied, supplyIndex, t.supplyIndex);
      Ok(Totals(supplied, borrowed, supplyIndex, borrowIndex, now))
    else
      Ok(t.(lastAccrual := now))
  }

  // ---- rates ----

  lemma BorrowRateBounds(utilization: int)
    ensures 634_195_839 <= BorrowRate(utilization) <= 32_343_987_824
  {
    var util := Clamp(utilization, 0, MAX_UTILIZATION_BPS);
    assert BorrowRate(utilization) == (200 + util) * PRECISION / 315_360_000_000;
  }

  lemma UtilizationBounds(borrowed: int, supplied: int)
    ensures 0 <= UtilizationRatio(borrowed, supplied) <= MAX_UTILIZATION_BPS
    ensures borrowed <= 0 ==> UtilizationRatio(borrowed, supplied) == 0
  {
  }

  /** Utilization never exceeds the true ratio, as long as its product fits. */
  lemma UtilizationBelowRatio(borrowed: int, supplied: int)
    requires 0 <= borrowed && 0 <= supplied && FitsI128(borrowed * MAX_UTILIZATION_BPS)
    ensures supplied * UtilizationRatio(borrowed, supplied) <= borrowed * MAX_UTILIZATION_BPS
  {
    if 0 < borrowed && 0 < supplied {
      var product := borrowed * MAX_UTILIZATION_BPS;
      var q := product / supplied;
      assert supplied * q <= product;
      MulOrder(UtilizationRatio(borrowed, supplied), q, supplied);
    }
  }

  /** The reserve factor: suppliers earn at most nine tenths of the utilized borrow rate. */
  lemma SupplyRateBelow(br: int, util: int)
    requires 634_195_839 <= br <= 32_343_987_824 && 0 <= util <= MAX_UTILIZATION_BPS
    ensures 0 <= SupplyRate(br, util) && 100_000 * SupplyRate(br, util) <= 9 * (br * util)
    ensures util == 0 ==> SupplyRate(br, util) == 0
  {
    MulOrder(br, 32_343_987_824, util);
    MulOrder(0, br, util);
    NineTenths(br * util);
  }

  /** The reserve factor on a utilized rate in range. */
  lemma NineTenths(p: int)
    requires 0 <= p <= 323_439_878_240_000
    ensures FitsI128(p) && FitsI128(p * 9_000)
    ensures var q := TruncDiv(p * 9_000, 100_000_000); 0 <= q && 100_000 * q <= 9 * p < 100_000 * (q + 1)
  {
  }

  // ---- indexes and totals ----

  /** An index gains `floor(index * rate * dt / PRECISION)`. */
  lemma IndexGain(index: int, rate: int, dt: int)
    requires index >= 0 && rate >= 0 && dt > 0 && AccrueIndex(index, rate, dt).Ok?
    ensures AccrueIndex(index, rate, dt).value == index + (index * (rate * dt)) / PRECISION
  {
    var growth := rate * dt;
    assert growth >= 0;
    assert index * (PRECISION + growth) == index * PRECISION + index * growth;
    assert index * growth >= 0;
  }

  /** A scaled total gains `floor(total * gain / index)`. */
  lemma TotalGain(total: int, gain: int, index: int)
    requires total >= 0 && gain >= 0 && index > 0 && MulDiv(total, index + gain, index).Ok?
    ensures MulDiv(total, index + gain, index).value == total + (total * gain) / index
  {
    var product := total * gain;
    assert product >= 0;
    assert total * (index + gain) == total * index + product;
    DivShift(total, product, index);
  }

  /**
   The heart of solvency: a supplier gain `k` with `k * P <= b * (X - 1)` is covered
   by the borrowers, whose index lost less than one unit to rounding.
   */
  lemma GainCovered(k: int, b: int, growth: int, index: int)
    requires 0 <= k && 0 <= b && 1 <= growth && index >= PRECISION
    requires k * PRECISION <= b * (growth - 1)
    ensures k <= b * (index * growth / PRECISION) / index
  {
    var g := index * growth / PRECISION;
    var bg := b * g;
    // PRECISION * g > index * growth - PRECISION >= index * (growth - 1)
    assert PRECISION * g > index * growth - PRECISION;
    assert index * (growth - 1) == index * growth - index;
    Scale(b, index * (growth - 1), PRECISION * g);
    Scale(index, k * PRECISION, b * (growth - 1));
    assert b * (index * (growth - 1)) == index * (b * (growth - 1));
    assert b * (PRECISION * g) == PRECISION * bg;
    assert index * (k * PRECISION) == PRECISION * (k * index);
    assert k * index <= bg;
    DivCovers(k, bg, index);
  }

  lemma Scale(c: int, a: int, b: int)
    requires 0 <= c && a <= b
    ensures c * a <= c * b
  {
  }

  /** What suppliers gain, times the precision, is at most `supplied * rate * dt`. */
  lemma SupplierGain(s: int, growth: int, index: int)
    requires 0 <= s && 0 <= growth && index > 0
    ensures 0 <= s * (index * growth / PRECISION) / index
    ensures (s * (index * growth / PRECISION) / index) * PRECISION <= s * growth
  {
    var h := index * growth / PRECISION;
    assert index * growth >= 0;
    var sh := s * h;
    assert sh >= 0;
    var k := sh / index;
    assert k * index <= sh;
    Scale(PRECISION, k * index, sh);
    Scale(s, h * PRECISION, index * growth);
    assert PRECISION * sh == s * (h * PRECISION);
    assert PRECISION * (k * index) == (k * PRECISION) * index;
    assert s * (index * growth) == (s * growth) * index;
    CancelFactor(k * PRECISION, s * growth, index);
  }

  /** The utilized supply growth stays below the borrow growth minus one. */
  lemma GrowthGap(s: int, b: int, util: int, br: int, sr: int, dt: int)
    requires 0 <= s && 0 <= b && 0 <= util && 0 < dt && 0 <= sr
    requires 10 <= br && 100_000 * sr <= 9 * (br * util) && s * util <= b * 10_000
    ensures s * (sr * dt) <= b * (br * dt - 1)
  {
    var x := br * dt;
    assert x >= 10;
    // 100000 * s * sr * dt <= 9 * s * util * br * dt <= 90000 * b * x
    Scale(s * dt, 100_000 * sr, 9 * (br * util));
    assert (s * dt) * (100_000 * sr) == 100_000 * (s * (sr * dt));
    assert (s * dt) * (9 * (br * util)) == 9 * (x * (s * util));
    Scale(x, s * util, b * 10_000);
    assert x * (b * 10_000) == 10_000 * (b * x);
    Scale(b, 10, x);
    assert b * (x - 1) == b * x - b;
  }

  /** An accrual that does something. */
  predicate Accrues(t: Totals, now: nat) {
    now > t.lastAccrual && (t.supplied > 0 || t.borrowed > 0)
  }

  /** The borrow index after an accrual, when it does not overflow. */
  function NextBorrowIndex(t: Totals, now: nat): Result<int, Error> {
    AccrueIndex(t.borrowIndex, BorrowRate(UtilizationRatio(t.borrowed, t.supplied)), SatSub(now, t.lastAccrual))
  }

  /** One side of an accrual: index and total after it, as the old ones plus their gains. */
  lemma Gain(total: int, index: int, rate: int, dt: int, newIndex: int, newTotal: int)
    requires 0 <= total && 0 < index && 0 <= rate && 0 < dt
    requires AccrueIndex(index, rate, dt) == Ok(newIndex) && MulDiv(total, newIndex, index) == Ok(newTotal)
    ensures 0 <= rate * dt && 0 <= index * (rate * dt) / PRECISION
    ensures newIndex == index + index * (rate * dt) / PRECISION
    ensures newTotal == total + total * (index * (rate * dt) / PRECISION) / index
  {
    Scale(rate, 0, dt);
    Scale(index, 0, rate * dt);
    IndexGain(index, rate, dt);
    TotalGain(total, index * (rate * dt) / PRECISION, index);
  }

  /** The rates an accrual uses. */
  lemma RateFacts(t: Totals)
    ensures var util := UtilizationRatio(t.borrowed, t.supplied);
            var br := BorrowRate(util);
            var sr := SupplyRate(br, util);
            && 0 <= util <= MAX_UTILIZATION_BPS && 634_195_839 <= br
            && 0 <= sr && 100_000 * sr <= 9 * (br * util)
            && (t.borrowed <= 0 ==> util == 0 && sr == 0)
  {
    var util := UtilizationRatio(t.borrowed, t.supplied);
    UtilizationBounds(t.borrowed, t.supplied);
    BorrowRateBounds(util);
    SupplyRateBelow(BorrowRate(util), util);
  }

  /**
   Supplier interest never outruns borrower interest: despite the floors in the
   utilization, both rates, both indexes and both totals, a successful accrual of
   a pool with non-negative totals never increases the float. Totals and indexes
   never shrink.
   */
  lemma FloatNeverGrows(t: Totals, now: nat)
    requires 0 <= t.supplied && 0 <= t.borrowed && t.IndexesAtLeastOne() && Accrued(t, now).Ok?
    ensures var next := Accrued(t, now).value;
            && next.Float() <= t.Float()
            && t.supplied <= next.supplied && t.borrowed <= next.borrowed
            && t.supplyIndex <= next.supplyIndex && t.borrowIndex <= next.borrowIndex
  {
    if Accrues(t, now) {
      var util := UtilizationRatio(t.borrowed, t.supplied);
      var br, dt, next := BorrowRate(util), now - t.lastAccrual, Accrued(t, now).value;
      var sr := SupplyRate(br, util);
      RateFacts(t);
      Gain(t.borrowed, t.borrowIndex, br, dt, next.borrowIndex, next.borrowed);
      Gain(t.supplied, t.supplyIndex, sr, dt, next.supplyIndex, next.supplied);
      InterestGap(t.supplied, t.borrowed, t.supplyIndex, t.borrowIndex, util, br, sr, dt) by {
        BorrowedFits(t.borrowed, next.borrowIndex);
        UtilizationBelowRatio(t.borrowed, t.supplied);
      }
    }
  }

  /** The suppliers' gain is covered by the borrowers' gain. */
  lemma InterestGap(s: int, b: int, si: int, bi: int, util: int, br: int, sr: int, dt: int)
    requires 0 <= s && 0 <= b && si >= PRECISION && bi >= PRECISION && 0 <= util && 0 < dt
    requires 10 <= br && 0 <= sr && 100_000 * sr <= 9 * (br * util) && s * util <= b * 10_000
    ensures 0 <= s * (si * (sr * dt) / PRECISION) / si <= b * (bi * (br * dt) / PRECISION) / bi
  {
    GrowthGap(s, b, util, br, sr, dt);
    Scale(sr, 0, dt);
    Scale(br, 1, dt);
    SupplierGain(s, sr * dt, si);
    GainCovered(s * (si * (sr * dt) / PRECISION) / si, b, br * dt, bi);
  }

  /** A total too large for the utilization product is too large to accrue at all. */
  lemma BorrowedFits(borrowed: int, index: int)
    requires 0 <= borrowed && index >= PRECISION && FitsI128(borrowed * index)
    ensures FitsI128(borrowed * MAX_UTILIZATION_BPS)
  {
    Scale(borrowed, MAX_UTILIZATION_BPS, index);
  }

  // ---- totals of either sign ----

  /** A negative total supplied, too, cannot make the float grow while the total borrowed is not negative. */
  lemma NegativeSupplied(t: Totals, now: nat)
    requires t.supplied < 0 <= t.borrowed && t.IndexesAtLeastOne() && Accrued(t, now).Ok?
    ensures Accrued(t, now).value.Float() <= t.Float()
  {
    if Accrues(t, now) {
      var util := UtilizationRatio(t.borrowed, t.supplied);
      var br, dt, next := BorrowRate(util), now - t.lastAccrual, Accrued(t, now).value;
      RateFacts(t);
      TotalGrows(t.borrowed, t.borrowIndex, br, dt, next.borrowIndex, next.borrowed);
      DebtGrows(-t.supplied, t.supplyIndex, SupplyRate(br, util), dt, next.supplyIndex, next.supplied);
    }
  }

  lemma TotalGrows(total: int, index: int, rate: int, dt: int, newIndex: int, newTotal: int)
    requires 0 <= total && 0 < index && 0 <= rate && 0 < dt
    requires AccrueIndex(index, rate, dt) == Ok(newIndex) && MulDiv(total, newIndex, index) == Ok(newTotal)
    ensures total <= newTotal
  {
    Gain(total, index, rate, dt, newIndex, newTotal);
    Scale(total, 0, newIndex - index);
    GainNonNegative(total, newIndex - index, index);
  }

  lemma DebtGrows(debt: int, index: int, rate: int, dt: int, newIndex: int, newTotal: int)
    requires 0 < debt && 0 < index && 0 <= rate && 0 < dt
    requires AccrueIndex(index, rate, dt) == Ok(newIndex) && MulDiv(-debt, newIndex, index) == Ok(newTotal)
    ensures newTotal <= -debt
  {
    DebtGain(debt, index, rate, dt, newIndex, newTotal);
    GainNonNegative(debt, newIndex - index, index);
  }

  lemma GainNonNegative(total: int, gain: int, index: int)
    requires index > 0 && total * gain >= 0
    ensures total * gain / index >= 0
  {
    DivCovers(0, total * gain, index);
  }

  /**
   Repayments can push the total borrowed below zero (see `InsuranceFailure.UnpayableRun`).
   Accrual then scales it away from zero, and the float grows by exactly this much.
   */
  function NegativeGrowth(t: Totals, now: nat): int
    requires t.borrowIndex > 0
  {
    if t.borrowed < 0 && Accrues(t, now) && NextBorrowIndex(t, now).Ok?
    then -t.borrowed * (NextBorrowIndex(t, now).value - t.borrowIndex) / t.borrowIndex
    else 0
  }

  /** What an accrual does to the float, for totals of any sign. */
  lemma FloatAfterAccrual(t: Totals, now: nat)
    requires t.IndexesAtLeastOne() && Accrued(t, now).Ok?
    ensures 0 <= NegativeGrowth(t, now)
    ensures t.borrowed < 0 ==> Accrued(t, now).value.Float() == t.Float() + NegativeGrowth(t, now)
    ensures t.borrowed >= 0 ==> Accrued(t, now).value.Float() <= t.Float()
  {
    if t.borrowed < 0 {
      if Accrues(t, now) {
        NegativeBorrowed(t, now);
        GainNonNegative(-t.borrowed, NextBorrowIndex(t, now).value - t.borrowIndex, t.borrowIndex);
      }
    } else if t.supplied < 0 {
      NegativeSupplied(t, now);
    } else {
      FloatNeverGrows(t, now);
    }
  }

  /** An accrual increases the float exactly when a negative total borrowed grows by a whole unit. */
  lemma FloatGrowsExactly(t: Totals, now: nat)
    requires t.IndexesAtLeastOne() && Accrued(t, now).Ok?
    ensures Accrued(t, now).value.Float() > t.Float() <==> NegativeGrowth(t, now) > 0
  {
    FloatAfterAccrual(t, now);
  }

  /**
   A float covered by a token balance stays covered by an accrual exactly when the growth
   of a negative total borrowed fits into what the balance holds beyond the float.
   */
  lemma CoverExactly(t: Totals, now: nat, balance: int)
    requires t.IndexesAtLeastOne() && Accrued(t, now).Ok? && t.Float() <= balance
    ensures Accrued(t, now).value.Float() <= balance <==> NegativeGrowth(t, now) <= balance - t.Float()
  {
    FloatAfterAccrual(t, now);
  }

  lemma NegativeBorrowed(t: Totals, now: nat)
    requires t.borrowed < 0 && t.IndexesAtLeastOne() && Accrues(t, now) && Accrued(t, now).Ok?
    ensures NextBorrowIndex(t, now).Ok? && Accrued(t, now).value.supplied == t.supplied
    ensures var gain := -t.borrowed * (NextBorrowIndex(t, now).value - t.borrowIndex);
            0 <= gain && Accrued(t, now).value.borrowed == t.borrowed - gain / t.borrowIndex
  {
    var dt, next := now - t.lastAccrual, Accrued(t, now).value;
    RateFacts(t);
    Gain(t.supplied, t.supplyIndex, 0, dt, next.supplyIndex, next.supplied);
    ZeroGain(t.supplied, t.supplyIndex, dt);
    DebtGain(-t.borrowed, t.borrowIndex, BorrowRate(0), dt, next.borrowIndex, next.borrowed);
  }

  lemma ZeroGain(total: int, index: int, dt: int)
    requires index > 0
    ensures total * (index * (0 * dt) / PRECISION) / index == 0
  {
    assert index * (0 * dt) == 0;
    assert total * 0 == 0;
  }

  lemma DebtGain(debt: int, index: int, rate: int, dt: int, newIndex: int, newTotal: int)
    requires 0 < debt && 0 < index && 0 <= rate && 0 < dt
    requires AccrueIndex(index, rate, dt) == Ok(newIndex) && MulDiv(-debt, newIndex, index) == Ok(newTotal)
    ensures 0 <= debt * (newIndex - index) && newTotal == -debt - debt * (newIndex - index) / index
  {
    Scale(rate, 0, dt);
    Scale(index, 0, rate * dt);
    IndexGain(index, rate, dt);
    NegatedGain(debt, newIndex - index, index);
  }

  lemma NegatedGain(debt: int, gain: int, index: int)
    requires debt > 0 && gain >= 0 && index > 0 && MulDiv(-debt, index + gain, index).Ok?
    ensures 0 <= debt * gain
    ensures MulDiv(-debt, index + gain, index).value == -debt - (debt * gain) / index
  {
    assert -debt * (index + gain) == -(debt * index + debt * gain);
    assert debt * index > 0 && debt * gain >= 0;
    DivShift(debt, debt * gain, index);
  }
}
