/**
 What an accrual computes, to the last unit, without reference to how: the rates that
 belong to a pair of totals, what they add to each total, and when an accrual succeeds.
 */
module InterestExact {
  import opened Arithmetic
  import opened Prelude
  import opened Interest

  // ---- rates ----

  /** `u` is the utilization in basis points, rounded down; full when the product leaves 128 bits. */
  predicate IsUtilization(borrowed: int, supplied: int, u: int) {
    if borrowed <= 0 then u == 0
    else if supplied < borrowed || borrowed * 10_000 > I128_MAX then u == 10_000
    else u * supplied <= borrowed * 10_000 < (u + 1) * supplied
  }

  /** 2% a year, plus 1% for every 1% of utilization, per second and in units of 10^-18, rounded down. */
  predicate IsBorrowRate(u: int, br: int) {
    br * 315_360_000_000 <= (200 + u) * 1_000_000_000_000_000_000 < (br + 1) * 315_360_000_000
  }

  /** Nine tenths of the utilized borrow rate, rounded down. */
  predicate IsSupplyRate(u: int, br: int, sr: int) {
    100_000 * sr <= 9 * (br * u) < 100_000 * (sr + 1)
  }

  predicate AreRates(borrowed: int, supplied: int, u: int, br: int, sr: int) {
    IsUtilization(borrowed, supplied, u) && IsBorrowRate(u, br) && IsSupplyRate(u, br, sr)
  }

  lemma UtilizationExact(borrowed: int, supplied: int)
    ensures IsUtilization(borrowed, supplied, UtilizationRatio(borrowed, supplied))
  {
    if 0 < borrowed && 0 < supplied {
      var product := borrowed * 10_000;
      var q := product / supplied;
      QuotientBounds(product, supplied);
      if supplied < borrowed {
        MulOrder(q + 1, 10_000, supplied);
      } else {
        MulOrder(10_001, q, supplied);
        MulOrder(q + 1, 0, supplied);
        if q == 10_000 {
          MulOrder(borrowed, supplied, 10_000);
        }
      }
    }
  }

  lemma BorrowRateExact(u: int)
    requires 0 <= u <= 10_000
    ensures IsBorrowRate(u, BorrowRate(u))
  {
    assert BorrowRate(u) == (200 + u) * PRECISION / 315_360_000_000;
  }

  lemma SupplyRateExact(br: int, u: int)
    requires 0 <= u <= 10_000 && 0 <= br <= 32_343_987_824
    ensures IsSupplyRate(u, br, SupplyRate(br, u))
  {
    MulOrder(br, 32_343_987_824, u);
    MulOrder(0, br, u);
    NineTenths(br * u);
  }

  /** The totals determine the rates. */
  lemma RatesDetermined(borrowed: int, supplied: int, u: int, br: int, sr: int, v: int, br': int, sr': int)
    requires AreRates(borrowed, supplied, u, br, sr) && AreRates(borrowed, supplied, v, br', sr')
    ensures u == v && br == br' && sr == sr'
  {
    if 0 < borrowed <= supplied && borrowed * 10_000 <= I128_MAX {
      QuotientUnique(borrowed * 10_000, supplied, u, v);
    }
  }

  /** The rates an accrual of these totals uses. */
  lemma RatesExact(borrowed: int, supplied: int)
    ensures var u := UtilizationRatio(borrowed, supplied);
            AreRates(borrowed, supplied, u, BorrowRate(u), SupplyRate(BorrowRate(u), u))
  {
    var u := UtilizationRatio(borrowed, supplied);
    UtilizationBounds(borrowed, supplied);
    BorrowRateBounds(u);
    UtilizationExact(borrowed, supplied);
    BorrowRateExact(u);
    SupplyRateExact(BorrowRate(u), u);
  }

  // ---- what an accrual adds ----

  /** Index and total after `dt` seconds at `rate`: each gains its interest rounded down. */
  predicate Earns(total: int, index: int, rate: int, dt: int, total': int, index': int) {
    && (index' - index) * 1_000_000_000_000_000_000 <= index * (rate * dt)
    && index * (rate * dt) < (index' - index + 1) * 1_000_000_000_000_000_000
    && (total' - total) * index <= total * (index' - index) < (total' - total + 1) * index
  }

  lemma GainEarns(total: int, index: int, rate: int, dt: int, total': int, index': int)
    requires 0 <= total && 0 < index && 0 <= rate && 0 < dt
    requires AccrueIndex(index, rate, dt) == Ok(index') && MulDiv(total, index', index) == Ok(total')
    ensures Earns(total, index, rate, dt, total', index')
  {
    Gain(total, index, rate, dt, index', total');
    QuotientBounds(index * (rate * dt), PRECISION);
    QuotientBounds(total * (index' - index), index);
  }

  /** An accrual earns both sides exactly the interest that belongs to the totals. */
  lemma AccrualExact(t: Totals, now: nat) returns (u: int, br: int, sr: int)
    requires 0 <= t.supplied && 0 <= t.borrowed && t.IndexesAtLeastOne() && Accrued(t, now).Ok?
    ensures AreRates(t.borrowed, t.supplied, u, br, sr) && Accrued(t, now).value.lastAccrual == now
    ensures now > t.lastAccrual && (t.supplied > 0 || t.borrowed > 0) ==>
              var next, dt := Accrued(t, now).value, now - t.lastAccrual;
              && Earns(t.borrowed, t.borrowIndex, br, dt, next.borrowed, next.borrowIndex)
              && Earns(t.supplied, t.supplyIndex, sr, dt, next.supplied, next.supplyIndex)
    ensures now <= t.lastAccrual || (t.supplied == 0 == t.borrowed) ==>
              Accrued(t, now).value == t.(lastAccrual := now)
  {
    u := UtilizationRatio(t.borrowed, t.supplied);
    br := BorrowRate(u);
    sr := SupplyRate(br, u);
    RatesExact(t.borrowed, t.supplied);
    if Accrues(t, now) {
      var next, dt := Accrued(t, now).value, now - t.lastAccrual;
      RateFacts(t);
      GainEarns(t.borrowed, t.borrowIndex, br, dt, next.borrowed, next.borrowIndex);
      GainEarns(t.supplied, t.supplyIndex, sr, dt, next.supplied, next.supplyIndex);
    }
  }

  /**
   In units of the total: the interest is at most the total times rate and time, and short
   of it by less than one unit and the last digit of the rate.
   */
  lemma InterestEarned(total: int, index: int, rate: int, dt: int, total': int, index': int)
    requires 0 <= total && PRECISION <= index && 0 <= rate && 0 < dt && Earns(total, index, rate, dt, total', index')
    ensures (total' - total) * PRECISION <= total * (rate * dt)
    ensures total * (rate * dt - 1) < (total' - total + 1) * PRECISION
  {
    var x, g, dI := rate * dt, total' - total, index' - index;
    // g * index <= total * dI and dI * PRECISION <= index * x
    InterestAbove(total, index, x, g, dI);
    InterestBelow(total, index, x, g, dI);
  }

  lemma InterestAbove(total: int, index: int, x: int, g: int, dI: int)
    requires 0 <= total && 0 < index && g * index <= total * dI && dI * PRECISION <= index * x
    ensures g * PRECISION <= total * x
  {
    Scale(PRECISION, g * index, total * dI);
    Scale(total, dI * PRECISION, index * x);
    assert PRECISION * (g * index) == (g * PRECISION) * index;
    assert PRECISION * (total * dI) == total * (dI * PRECISION);
    assert total * (index * x) == (total * x) * index;
    CancelFactor(g * PRECISION, total * x, index);
  }

  lemma InterestBelow(total: int, index: int, x: int, g: int, dI: int)
    requires 0 <= total && PRECISION <= index && total * dI < (g + 1) * index && index * x < (dI + 1) * PRECISION
    ensures total * (x - 1) < (g + 1) * PRECISION
  {
    // index * (x - 1) <= index * x - PRECISION < dI * PRECISION
    assert index * (x - 1) == index * x - index;
    assert (dI + 1) * PRECISION == dI * PRECISION + PRECISION;
    Scale(total, index * (x - 1), dI * PRECISION);
    Scale(PRECISION, total * dI + 1, (g + 1) * index);
    assert total * (index * (x - 1)) == (total * (x - 1)) * index;
    assert total * (dI * PRECISION) == PRECISION * (total * dI);
    assert PRECISION * ((g + 1) * index) == ((g + 1) * PRECISION) * index;
    if total * (x - 1) >= (g + 1) * PRECISION {
      MulOrder((g + 1) * PRECISION, total * (x - 1), index);
    }
  }

  // ---- when an accrual succeeds ----

  /** The index before its last rounding fits 128 bits, and so does the total scaled by it. */
  predicate SideFits(total: int, index: int, rate: int, dt: int) {
    && index * (1_000_000_000_000_000_000 + rate * dt) <= I128_MAX
    && FitsI128(total * (index * (1_000_000_000_000_000_000 + rate * dt) / 1_000_000_000_000_000_000))
  }

  lemma SideSucceeds(total: int, index: int, rate: int, dt: int)
    requires 0 < index && 0 <= rate && 0 < dt
    ensures SideFits(total, index, rate, dt) <==>
            && AccrueIndex(index, rate, dt).Ok?
            && MulDiv(total, AccrueIndex(index, rate, dt).value, index).Ok?
  {
    var factor := PRECISION + rate * dt;
    Scale(rate, 0, dt);
    Scale(factor, 1, index);
  }

  /** An accrual succeeds exactly when both sides fit. */
  lemma AccrualSucceeds(t: Totals, now: nat, u: int, br: int, sr: int)
    requires t.IndexesAtLeastOne() && AreRates(t.borrowed, t.supplied, u, br, sr)
    requires now > t.lastAccrual && (t.supplied > 0 || t.borrowed > 0)
    ensures Accrued(t, now).Ok? <==>
            && SideFits(t.borrowed, t.borrowIndex, br, now - t.lastAccrual)
            && SideFits(t.supplied, t.supplyIndex, sr, now - t.lastAccrual)
  {
    var v, dt := UtilizationRatio(t.borrowed, t.supplied), now - t.lastAccrual;
    RatesExact(t.borrowed, t.supplied);
    RatesDetermined(t.borrowed, t.supplied, u, br, sr, v, BorrowRate(v), SupplyRate(BorrowRate(v), v));
    RateFacts(t);
    SideSucceeds(t.borrowed, t.borrowIndex, br, dt);
    SideSucceeds(t.supplied, t.supplyIndex, sr, dt);
  }
}
