/**
 The float can become unpayable. A borrower's own debt grows by the index change over
 `PRECISION`, the total by the ratio of the indexes, so a debt that is settled now and
 then outgrows the total that should contain it. Repaying it leaves the total borrowed
 far below zero, accrual then inflates the float, and a withdrawal that passes every
 check finds too few tokens.
 */
module InsuranceFailure {
  import opened Prelude
  import opened Interest
  import opened InsurancePool

  const YEAR: nat := 31_536_000

  function AtStart(): Totals {
    Totals(2_000_000, 1_000_000, PRECISION, PRECISION, 0)
  }

  function Year5(): Totals {
    Totals(4_339_999, 3_599_999, 2_169999999810640000, 3_599999999912080000, 5 * YEAR)
  }

  function Year10(): Totals {
    Totals(18_098_739, 18_889_194, 9_049367894344719970, 18_889199999533211760, 10 * YEAR)
  }

  function Year15(): Totals {
    Totals(101_171_956, 115_224_083, 50_585966527823253860, 115_224119995842436824, 15 * YEAR)
  }

  function Year25(): Totals {
    Totals(101_171_956, -348_267_163, 50_585966527823253860, 138_268943970472795594, 25 * YEAR)
  }

  function Saver0(): UserInfo {
    UserInfo(1_000_000, 0, PRECISION, PRECISION)
  }

  function Saver5(): UserInfo {
    UserInfo(2_169_999, 0, 2_169999999810640000, 3_599999999912080000)
  }

  function Saver10(): UserInfo {
    UserInfo(17_098_228, 0, 9_049367894344719970, 18_889199999533211760)
  }

  function Saver25(): UserInfo {
    UserInfo(727_300_504, 0, 50_585966527823253860, 138_268943970472795594)
  }

  function Debtor0(): UserInfo {
    UserInfo(1_000_000, 1_000_000, PRECISION, PRECISION)
  }

  function Debtor5(): UserInfo {
    UserInfo(2_169_999, 3_599_999, 2_169999999810640000, 3_599999999912080000)
  }

  function Debtor15(): UserInfo {
    UserInfo(107_232_647, 405_446_719, 50_585966527823253860, 115_224119995842436824)
  }

  function OneMore(u: UserInfo): UserInfo {
    u.(supplied := u.supplied + 1)
  }

  // ---- the arithmetic of the four accruals ----

  lemma FirstAccrual()
    ensures Accrued(AtStart(), 5 * YEAR) == Ok(Year5())
    ensures Settled(Saver0(), Year5()) == Ok(Saver5())
    ensures Settled(Debtor0(), Year5()) == Ok(Debtor5())
  {
    assert UtilizationRatio(1_000_000, 2_000_000) == 5_000;
    assert BorrowRate(5_000) == 16_489_091_831;
    assert SupplyRate(16_489_091_831, 5_000) == 7_420_091_323;
    assert AccrueIndex(PRECISION, 16_489_091_831, 5 * YEAR) == Ok(3_599999999912080000);
    assert AccrueIndex(PRECISION, 7_420_091_323, 5 * YEAR) == Ok(2_169999999810640000);
  }

  lemma SecondAccrual()
    ensures Accrued(Year5().(supplied := 4_340_001), 10 * YEAR) == Ok(Year10())
    ensures Settled(OneMore(Saver5()), Year10()) == Ok(Saver10())
  {
    assert UtilizationRatio(3_599_999, 4_340_001) == 8_294;
    assert BorrowRate(8_294) == 26_934_297_311;
    assert SupplyRate(26_934_297_311, 8_294) == 20_105_375_570;
    assert AccrueIndex(3_599999999912080000, 26_934_297_311, 5 * YEAR) == Ok(18_889199999533211760);
    assert AccrueIndex(2_169999999810640000, 20_105_375_570, 5 * YEAR) == Ok(9_049367894344719970);
  }

  lemma ThirdSettlement()
    ensures Settled(OneMore(Debtor5()), Year15()) == Ok(Debtor15())
  {
  }

  lemma FullUtilization()
    ensures UtilizationRatio(18_889_194, 18_098_740) == 10_000
  {
    assert TruncDiv(188_891_940_000, 18_098_740) == 10_436;
  }

  lemma ThirdAccrual()
    ensures Accrued(Year10().(supplied := 18_098_740), 15 * YEAR) == Ok(Year15())
  {
    FullUtilization();
    FullRates();
    assert AccrueIndex(18_889199999533211760, 32_343_987_823, 5 * YEAR) == Ok(115_224119995842436824);
    assert AccrueIndex(9_049367894344719970, 29_109_589_040, 5 * YEAR) == Ok(50_585966527823253860);
  }

  lemma FullRates()
    ensures BorrowRate(10_000) == 32_343_987_823 && SupplyRate(32_343_987_823, 10_000) == 29_109_589_040
  {
  }

  lemma LastAccrual()
    ensures Accrued(Year15().(borrowed := -290_222_636), 25 * YEAR) == Ok(Year25())
    ensures Settled(OneMore(Saver10()), Year25()) == Ok(Saver25())
  {
    assert BorrowRate(0) == 634_195_839;
    assert SupplyRate(634_195_839, 0) == 0;
    assert AccrueIndex(115_224119995842436824, 634_195_839, 10 * YEAR) == Ok(138_268943970472795594);
    assert AccrueIndex(50_585966527823253860, 0, 10 * YEAR) == Ok(50_585966527823253860);
  }

  // ---- the run ----

  /** The state of a pool with these two users. */
  ghost predicate TwoUsers(
    pool: InsurancePool, saver: Address, debtor: Address, t: Totals, s: UserInfo, d: UserInfo, balance: nat)
    reads pool
  {
    && pool.Valid() && saver != debtor
    && pool.totals == t && pool.balance == balance
    && saver in pool.users && pool.users[saver] == s && debtor in pool.users && pool.users[debtor] == d
  }

  /** A newcomer's deposit at the ledger time of the last accrual. */
  method Join(pool: InsurancePool, user: Address, amount: nat)
    requires pool.Valid() && user !in pool.users && 0 < amount
    requires FitsI128(amount) && FitsI128(pool.totals.supplied + amount)
    modifies pool
    ensures pool.Valid() && pool.balance == old(pool.balance) + amount
    ensures pool.totals == old(pool.totals).(supplied := old(pool.totals).supplied + amount)
    ensures pool.users == old(pool.users)[user := UserInfo(amount, 0, pool.totals.supplyIndex, pool.totals.borrowIndex)]
  {
    var r := pool.Deposit(pool.totals.lastAccrual, user, amount, true);
  }

  method BothJoin(saver: Address, debtor: Address) returns (pool: InsurancePool)
    requires saver != debtor
    ensures fresh(pool)
    ensures TwoUsers(pool, saver, debtor, Totals(2_000_000, 0, PRECISION, PRECISION, 0), Saver0(), Saver0(), 2_000_000)
  {
    pool := new InsurancePool(0);
    Join(pool, saver, 1_000_000);
    Join(pool, debtor, 1_000_000);
  }

  lemma LoanIsFine(t: Totals)
    requires t == Totals(2_000_000, 0, PRECISION, PRECISION, 0)
    ensures Accrued(t, 0) == Ok(t) && Settled(Saver0(), t) == Ok(Saver0()) && MayBorrow(t, Saver0(), 1_000_000)
  {
  }

  method Loan(pool: InsurancePool, saver: Address, debtor: Address)
    requires TwoUsers(pool, saver, debtor, Totals(2_000_000, 0, PRECISION, PRECISION, 0), Saver0(), Saver0(), 2_000_000)
    modifies pool
    ensures TwoUsers(pool, saver, debtor, AtStart(), Saver0(), Debtor0(), 1_000_000)
  {
    LoanIsFine(Totals(2_000_000, 0, PRECISION, PRECISION, 0));
    var r := pool.Borrow(0, debtor, 1_000_000);
  }

  /** Both users are settled at year 5 by depositing one unit each. */
  method SettleBoth(pool: InsurancePool, saver: Address, debtor: Address)
    requires TwoUsers(pool, saver, debtor, AtStart(), Saver0(), Debtor0(), 1_000_000)
    modifies pool
    ensures TwoUsers(pool, saver, debtor, Year5().(supplied := 4_340_001), OneMore(Saver5()), OneMore(Debtor5()),
                     1_000_002)
  {
    FirstAccrual();
    var first := pool.Deposit(5 * YEAR, saver, 1, true);
    assert Accrued(pool.totals, 5 * YEAR) == Ok(pool.totals);
    assert Settled(Debtor0(), pool.totals) == Ok(Debtor5());
    var second := pool.Deposit(5 * YEAR, debtor, 1, true);
  }

  /** The saver is settled once more at year 10. */
  method SettleSaver(pool: InsurancePool, saver: Address, debtor: Address)
    requires TwoUsers(pool, saver, debtor, Year5().(supplied := 4_340_001), OneMore(Saver5()), OneMore(Debtor5()),
                      1_000_002)
    modifies pool
    ensures TwoUsers(pool, saver, debtor, Year10().(supplied := 18_098_740), OneMore(Saver10()), OneMore(Debtor5()),
                     1_000_003)
  {
    SecondAccrual();
    var r := pool.Deposit(10 * YEAR, saver, 1, true);
  }

  /** At year 15 the debtor repays everything owed, three and a half times the total borrowed. */
  method RepayAll(pool: InsurancePool, saver: Address, debtor: Address)
    requires TwoUsers(pool, saver, debtor, Year10().(supplied := 18_098_740), OneMore(Saver10()), OneMore(Debtor5()),
                      1_000_003)
    modifies pool
    ensures TwoUsers(pool, saver, debtor, Year15().(borrowed := -290_222_636), OneMore(Saver10()),
                     Debtor15().(borrowed := 0), 406_446_722)
  {
    ThirdAccrual();
    ThirdSettlement();
    var r := pool.Repay(15 * YEAR, debtor, 1_000_000_000, true);
  }

  /**
   The whole run, from an empty pool to a withdrawal within the saver's own position and
   within the float that the tokens held cannot pay.
   */
  method UnpayableRun(saver: Address, debtor: Address) returns (pool: InsurancePool, r: Result<(), Error>)
    requires saver != debtor
    ensures fresh(pool) && pool.Valid() && r == Err(TokenTransferTrapped)
  {
    pool := BothJoin(saver, debtor);
    Loan(pool, saver, debtor);
    SettleBoth(pool, saver, debtor);
    SettleSaver(pool, saver, debtor);
    RepayAll(pool, saver, debtor);
    LastAccrual();
    r := pool.Withdraw(25 * YEAR, saver, 449_439_119);
  }
}
