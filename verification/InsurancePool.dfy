/**
 The insurance pool contract: deposits, withdrawals, borrows and repayments, each
 after an accrual. The entry points move the token balance and the liquid float
 together, so only accrual can leave the float uncovered, and `Interest` says exactly
 when, over whole runs too. A covered float pays every withdrawal or borrow that passes
 the checks.
 */
module InsurancePool {
  import opened Prelude
  import opened Interest

  datatype UserInfo = UserInfo(supplied: int, borrowed: int, supplyCheckpoint: int, borrowCheckpoint: int)

  /** One side of `settle_view`: the balance plus the interest since its checkpoint. */
  function WithInterest(amount: int, index: int, checkpoint: int): Result<int, Error> {
    if index > checkpoint then
      if !FitsI128(amount * (index - checkpoint)) then Err(ArithmeticOverflow)
      else
        var settled := amount + TruncDiv(amount * (index - checkpoint), PRECISION);
        if FitsI128(settled) then Ok(settled) else Err(ArithmeticOverflow)
    else Ok(amount)
  }

  function Settled(u: UserInfo, t: Totals): Result<UserInfo, Error> {
    var supplied :- WithInterest(u.supplied, t.supplyIndex, u.supplyCheckpoint);
    var borrowed :- WithInterest(u.borrowed, t.borrowIndex, u.borrowCheckpoint);
    Ok(UserInfo(supplied, borrowed, t.supplyIndex, t.borrowIndex))
  }

  /** A user without a record starts empty, at the current indexes. */
  function Load(users: map<Address, UserInfo>, user: Address, t: Totals): UserInfo {
    if user in users then users[user] else UserInfo(0, 0, t.supplyIndex, t.borrowIndex)
  }

  /** `total_supplied.saturating_sub(total_borrowed)` */
  function Liquid(t: Totals): int {
    Clamp(t.Float(), I128_MIN, I128_MAX)
  }

  predicate NonNegative(u: UserInfo) {
    0 <= u.supplied && 0 <= u.borrowed
  }

  lemma InterestNonNegative(amount: int, index: int, checkpoint: int)
    requires 0 <= amount && WithInterest(amount, index, checkpoint).Ok?
    ensures amount <= WithInterest(amount, index, checkpoint).value
  {
    if index > checkpoint {
      Scale(amount, 0, index - checkpoint);
    }
  }

  /** Settling never lowers a balance, and re-anchors both checkpoints, so settling again changes nothing. */
  lemma SettledGrows(u: UserInfo, t: Totals)
    requires NonNegative(u) && Settled(u, t).Ok?
    ensures u.supplied <= Settled(u, t).value.supplied && u.borrowed <= Settled(u, t).value.borrowed
    ensures Settled(u, t).value.supplyCheckpoint == t.supplyIndex
    ensures Settled(u, t).value.borrowCheckpoint == t.borrowIndex
    ensures Settled(Settled(u, t).value, t) == Settled(u, t)
  {
    InterestNonNegative(u.supplied, t.supplyIndex, u.supplyCheckpoint);
    InterestNonNegative(u.borrowed, t.borrowIndex, u.borrowCheckpoint);
  }

  /** The balance with the interest between two indexes, rounded down. */
  predicate WithGrowth(amount: int, index: int, checkpoint: int, settled: int) {
    if index <= checkpoint then settled == amount
    else
      (settled - amount) * 1_000_000_000_000_000_000 <= amount * (index - checkpoint) <
      (settled - amount + 1) * 1_000_000_000_000_000_000
  }

  /** Neither the product nor the sum leaves 128 bits. */
  predicate GrowthFits(amount: int, index: int, checkpoint: int) {
    index <= checkpoint ||
    (&& amount * (index - checkpoint) <= I128_MAX
     && amount + amount * (index - checkpoint) / 1_000_000_000_000_000_000 <= I128_MAX)
  }

  lemma InterestSettles(amount: int, index: int, checkpoint: int)
    requires 0 <= amount
    ensures WithInterest(amount, index, checkpoint).Ok? <==> GrowthFits(amount, index, checkpoint)
    ensures WithInterest(amount, index, checkpoint).Ok? ==>
              WithGrowth(amount, index, checkpoint, WithInterest(amount, index, checkpoint).value)
  {
    if index > checkpoint {
      Scale(amount, 0, index - checkpoint);
    }
  }

  /** Settling adds to both balances exactly the interest between their checkpoints and the indexes. */
  lemma SettledExact(u: UserInfo, t: Totals)
    requires NonNegative(u)
    ensures Settled(u, t).Ok? <==>
            && GrowthFits(u.supplied, t.supplyIndex, u.supplyCheckpoint)
            && GrowthFits(u.borrowed, t.borrowIndex, u.borrowCheckpoint)
    ensures Settled(u, t).Ok? ==>
              && WithGrowth(u.supplied, t.supplyIndex, u.supplyCheckpoint, Settled(u, t).value.supplied)
              && WithGrowth(u.borrowed, t.borrowIndex, u.borrowCheckpoint, Settled(u, t).value.borrowed)
  {
    InterestSettles(u.supplied, t.supplyIndex, u.supplyCheckpoint);
    InterestSettles(u.borrowed, t.borrowIndex, u.borrowCheckpoint);
  }

  /** Indexes never shrink, whatever the totals. */
  lemma IndexesNeverShrink(t: Totals, now: nat)
    requires t.IndexesAtLeastOne() && Accrued(t, now).Ok?
    ensures Accrued(t, now).value.supplyIndex >= t.supplyIndex && Accrued(t, now).value.borrowIndex >= t.borrowIndex
  {
    if Accrues(t, now) {
      RateFacts(t);
      var util := UtilizationRatio(t.borrowed, t.supplied);
      IndexGrows(t.borrowIndex, BorrowRate(util), now - t.lastAccrual);
      IndexGrows(t.supplyIndex, SupplyRate(BorrowRate(util), util), now - t.lastAccrual);
    }
  }

  lemma IndexGrows(index: int, rate: int, dt: int)
    requires 0 < index && 0 <= rate && 0 < dt && AccrueIndex(index, rate, dt).Ok?
    ensures index <= AccrueIndex(index, rate, dt).value
  {
    Scale(rate, 0, dt);
    Scale(index, 0, rate * dt);
    IndexGain(index, rate, dt);
  }

  /** Accrual and settlement only ever fail by overflow. */
  lemma AccrualErrors(t: Totals, users: map<Address, UserInfo>, user: Address, now: nat)
    ensures Accrued(t, now).Err? ==> Accrued(t, now).error == ArithmeticOverflow
    ensures Accrued(t, now).Ok? && Settled(Load(users, user, Accrued(t, now).value), Accrued(t, now).value).Err? ==>
              Settled(Load(users, user, Accrued(t, now).value), Accrued(t, now).value).error == ArithmeticOverflow
  {
  }

  // ---- the guards of the paying entry points ----

  predicate MayWithdraw(t: Totals, info: UserInfo, amount: int) {
    && 0 < amount <= info.supplied && info.borrowed <= info.supplied - amount
    && amount <= t.supplied - t.borrowed && amount <= I128_MAX && FitsI128(t.supplied - amount)
  }

  predicate MayBorrow(t: Totals, info: UserInfo, amount: int) {
    && 0 < amount && FitsI128(info.borrowed + amount) && info.borrowed + amount <= info.supplied
    && amount <= t.supplied - t.borrowed && amount <= I128_MAX && FitsI128(t.borrowed + amount)
  }

  /** The token balance covers what the pool believes it can pay out. */
  predicate Covers(balance: int, t: Totals) {
    t.Float() <= balance
  }

  /** How a call that starts with an accrual leaves a covered float: exactly as the accrual does. */
  ghost predicate CoverDecided(before: Totals, balance: int, now: nat, after: Totals, balance': int) {
    before.IndexesAtLeastOne() && Covers(balance, before) ==>
      (Covers(balance', after) <==> NegativeGrowth(before, now) <= balance - before.Float())
  }

  /** Moving float and balance together leaves the decision to the accrual. */
  lemma CoverAfterCall(before: Totals, balance: int, now: nat, after: Totals, balance': int)
    requires before.IndexesAtLeastOne() && Accrued(before, now).Ok?
    requires balance' - after.Float() == balance - Accrued(before, now).value.Float()
    ensures CoverDecided(before, balance, now, after, balance')
  {
    if Covers(balance, before) {
      CoverExactly(before, now, balance);
    }
  }

  // ---- runs ----

  /** The totals and the token balance a successful call at time `at` has left. */
  datatype Entry = Entry(totals: Totals, balance: int, at: nat) {
    function Surplus(): int {
      balance - totals.Float()
    }
  }

  /** A call at `b.at` accrues and then moves float and balance together. */
  ghost predicate Calls(a: Entry, b: Entry) {
    && a.totals.IndexesAtLeastOne() && Accrued(a.totals, b.at).Ok?
    && b.Surplus() == a.balance - Accrued(a.totals, b.at).value.Float()
  }

  ghost predicate CallAt(trace: seq<Entry>, i: nat) {
    i + 1 < |trace| && Calls(trace[i], trace[i + 1])
  }

  ghost predicate PoolRun(trace: seq<Entry>) {
    forall i: nat {:trigger CallAt(trace, i)} :: i + 1 < |trace| ==> CallAt(trace, i)
  }

  lemma PoolRunExtends(trace: seq<Entry>, b: Entry)
    requires PoolRun(trace) && trace != [] && Calls(trace[|trace| - 1], b)
    ensures PoolRun(trace + [b])
  {
    forall i: nat | i + 1 < |trace + [b]| ensures CallAt(trace + [b], i) {
      assert i + 1 < |trace| ==> CallAt(trace, i);
    }
  }

  /** By how much the accruals between two states of a run scaled a negative total borrowed. */
  ghost function Growth(trace: seq<Entry>, i: nat, j: nat): int
    requires PoolRun(trace) && i <= j < |trace|
    decreases j - i
  {
    if i == j then 0
    else
      assert CallAt(trace, j - 1);
      Growth(trace, i, j - 1) + NegativeGrowth(trace[j - 1].totals, trace[j].at)
  }

  /**
   What the balance holds beyond the float falls over a run by at most the growth of a
   negative total borrowed, and by exactly that while the total is negative.
   */
  lemma {:induction false} SurplusOverRun(trace: seq<Entry>, i: nat, j: nat)
    requires PoolRun(trace) && i <= j < |trace|
    ensures 0 <= Growth(trace, i, j)
    ensures trace[j].Surplus() >= trace[i].Surplus() - Growth(trace, i, j)
    ensures (forall k :: i <= k < j ==> trace[k].totals.borrowed < 0) ==>
              trace[j].Surplus() == trace[i].Surplus() - Growth(trace, i, j)
    ensures (forall k :: i <= k < j ==> trace[k].totals.borrowed >= 0) ==> Growth(trace, i, j) == 0
    decreases j - i
  {
    if i < j {
      assert CallAt(trace, j - 1);
      SurplusOverRun(trace, i, j - 1);
      FloatAfterAccrual(trace[j - 1].totals, trace[j].at);
    }
  }

  /** Along any run of calls in which total borrowed is never negative, a covered float stays covered. */
  lemma StaysCovered(trace: seq<Entry>, i: nat, j: nat)
    requires PoolRun(trace) && i <= j < |trace| && Covers(trace[i].balance, trace[i].totals)
    requires forall k :: i <= k < j ==> trace[k].totals.borrowed >= 0
    ensures Covers(trace[j].balance, trace[j].totals)
  {
    SurplusOverRun(trace, i, j);
  }

  /** A run from the empty pool to these totals and this balance. */
  ghost predicate Reached(trace: seq<Entry>, t: Totals, balance: int) {
    && trace != [] && PoolRun(trace) && trace[0].balance == 0 == trace[0].totals.Float()
    && trace[|trace| - 1].totals == t && trace[|trace| - 1].balance == balance
  }

  lemma ReachedNext(trace: seq<Entry>, t: Totals, balance: int, now: nat, t': Totals, balance': int)
    requires Reached(trace, t, balance) && t.IndexesAtLeastOne() && Accrued(t, now).Ok?
    requires balance' - t'.Float() == balance - Accrued(t, now).value.Float()
    ensures Reached(trace + [Entry(t', balance', now)], t', balance')
  {
    PoolRunExtends(trace, Entry(t', balance', now));
  }

  class InsurancePool {
    var totals: Totals
    var users: map<Address, UserInfo>
    /** Tokens this contract holds. */
    var balance: nat
    /** What every successful call has left, from the empty pool on. */
    ghost var trace: seq<Entry>

    ghost predicate Valid()
      reads this
    {
      && totals.IndexesAtLeastOne() && (forall u :: u in users ==> NonNegative(users[u]))
      && Reached(trace, totals, balance)
    }

    constructor (now: nat)
      ensures Valid() && users == map[] && balance == 0
      ensures totals == Totals(0, 0, PRECISION, PRECISION, now) && trace == [Entry(totals, 0, now)]
    {
      totals, users, balance := Totals(0, 0, PRECISION, PRECISION, now), map[], 0;
      trace := [Entry(Totals(0, 0, PRECISION, PRECISION, now), 0, now)];
    }

    /**
     In every history of calls that never left total borrowed negative, the float is covered
     and the next accrual keeps it so: no withdrawal or borrow that passes the checks fails
     for lack of tokens.
     */
    lemma PaysWhileBorrowedNonNegative(now: nat)
      requires Valid() && forall k :: 0 <= k < |trace| ==> trace[k].totals.borrowed >= 0
      ensures Covers(balance, totals)
      ensures Accrued(totals, now).Ok? ==> Covers(balance, Accrued(totals, now).value)
    {
      var last := |trace| - 1;
      StaysCovered(trace, 0, last);
      assert totals == trace[last].totals;
      if Accrued(totals, now).Ok? {
        FloatAfterAccrual(totals, now);
      }
    }

    /** The state every entry point starts from: accrued totals and the caller's settled position. */
    ghost function Opened(now: nat, user: Address): Result<(Totals, UserInfo), Error>
      reads this
    {
      var t :- Accrued(totals, now);
      var info :- Settled(Load(users, user, t), t);
      Ok((t, info))
    }

    method Open(now: nat, user: Address) returns (r: Result<(Totals, UserInfo), Error>)
      requires Valid()
      ensures r == Opened(now, user)
      ensures r.Ok? ==> r.value.0.IndexesAtLeastOne() && NonNegative(r.value.1)
    {
      var t :- Accrued(totals, now);
      IndexesNeverShrink(totals, now);
      var info := Load(users, user, t);
      var settled :- Settled(info, t);
      SettledGrows(info, t);
      r := Ok((t, settled));
    }

    /** Brings the totals up to date; this alone can uncover the float. */
    method Accrue(now: nat) returns (r: Result<(), Error>)
      requires Valid()
      modifies this
      ensures Valid()
      ensures r == match old(Accrued(totals, now)) case Ok(_) => Ok(()) case Err(e) => Err(e)
      ensures totals == if r.Ok? then Accrued(old(totals), now).value else old(totals)
      ensures users == old(users) && balance == old(balance)
      ensures trace == if r.Ok? then old(trace) + [Entry(totals, balance, now)] else old(trace)
      ensures r.Ok? ==> CoverDecided(old(totals), old(balance), now, totals, balance)
    {
      var t :- Accrued(totals, now);
      IndexesNeverShrink(totals, now);
      CoverAfterCall(totals, balance, now, t, balance);
      ReachedNext(trace, totals, balance, now, t, balance);
      totals, trace := t, trace + [Entry(t, balance, now)];
      r := Ok(());
    }

    /** Stores the outcome of a call that moved `moved` tokens into the pool, or out of it if negative. */
    method Store(now: nat, t: Totals, user: Address, info: UserInfo, moved: int)
      requires Valid() && Accrued(totals, now).Ok? && t.IndexesAtLeastOne() && NonNegative(info) && balance + moved >= 0
      requires t.Float() == Accrued(totals, now).value.Float() + moved
      modifies this
      ensures Valid() && totals == t && users == old(users)[user := info] && balance == old(balance) + moved
      ensures trace == old(trace) + [Entry(totals, balance, now)]
      ensures CoverDecided(old(totals), old(balance), now, totals, balance)
    {
      CoverAfterCall(totals, balance, now, t, balance + moved);
      ReachedNext(trace, totals, balance, now, t, balance + moved);
      totals, users, balance := t, users[user := info], balance + moved;
      trace := trace + [Entry(totals, balance, now)];
    }

    /** Supply capital; `funded` says whether the user's own token transfer goes through. */
    method Deposit(now: nat, user: Address, amount: int, funded: bool) returns (r: Result<(), Error>)
      requires Valid()
      modifies this
      ensures Valid()
      ensures r.Err? ==> unchanged(this)
      ensures r.Ok? <==> 0 < amount && old(Opened(now, user)).Ok? && funded &&
                         FitsI128(old(Opened(now, user)).value.1.supplied + amount) &&
                         FitsI128(old(Opened(now, user)).value.0.supplied + amount)
      ensures r.Ok? ==> balance == old(balance) + amount
      ensures r.Ok? ==>
                var (t, info) := old(Opened(now, user)).value;
                && totals == t.(supplied := t.supplied + amount)
                && users == old(users)[user := info.(supplied := info.supplied + amount)]
                && balance - totals.Float() == old(balance) - t.Float()
      ensures r.Ok? ==> CoverDecided(old(totals), old(balance), now, totals, balance)
      ensures r.Ok? ==> trace == old(trace) + [Entry(totals, balance, now)]
    {
      if amount <= 0 {
        return Err(InvalidAmount);
      }
      var start :- Open(now, user);
      var (t, info) := start;
      if !FitsI128(info.supplied + amount) || !FitsI128(t.supplied + amount) {
        return Err(ArithmeticOverflow);
      }
      if !funded {
        return Err(TokenTransferTrapped);
      }
      Store(now, t.(supplied := t.supplied + amount), user, info.(supplied := info.supplied + amount), amount);
      r := Ok(());
    }

    /**
     Withdraw capital. The token transfer fails exactly when every check passes and the
     balance is short, which a float covered by the balance rules out.
     */
    method Withdraw(now: nat, user: Address, amount: int) returns (r: Result<(), Error>)
      requires Valid()
      modifies this
      ensures Valid()
      ensures r.Err? ==> unchanged(this)
      ensures r.Ok? <==>
                && old(Opened(now, user)).Ok? && amount <= old(balance)
                && MayWithdraw(old(Opened(now, user)).value.0, old(Opened(now, user)).value.1, amount)
      ensures r == Err(TokenTransferTrapped) <==>
                && old(Opened(now, user)).Ok? && amount > old(balance)
                && MayWithdraw(old(Opened(now, user)).value.0, old(Opened(now, user)).value.1, amount)
      ensures old(Opened(now, user)).Ok? && Covers(old(balance), old(Opened(now, user)).value.0) ==>
                r != Err(TokenTransferTrapped)
      ensures r.Ok? ==> balance == old(balance) - amount
      ensures r.Ok? ==>
                var (t, info) := old(Opened(now, user)).value;
                && totals == t.(supplied := t.supplied - amount)
                && users == old(users)[user := info.(supplied := info.supplied - amount)]
                && balance - totals.Float() == old(balance) - t.Float()
      ensures r.Ok? ==> CoverDecided(old(totals), old(balance), now, totals, balance)
      ensures r.Ok? ==> trace == old(trace) + [Entry(totals, balance, now)]
    {
      if amount <= 0 {
        return Err(InvalidAmount);
      }
      var start := Open(now, user);
      if start.Err? {
        AccrualErrors(totals, users, user, now);
        return Err(start.error);
      }
      var (t, info) := start.value;
      if amount > info.supplied {
        return Err(InvalidAmount);
      }
      if info.borrowed > info.supplied - amount {
        return Err(ExceedsCollateral);
      }
      if amount > Liquid(t) {
        return Err(InsufficientLiquidity);
      }
      if !FitsI128(t.supplied - amount) {
        return Err(ArithmeticOverflow);
      }
      if amount > balance {
        return Err(TokenTransferTrapped);
      }
      Store(now, t.(supplied := t.supplied - amount), user, info.(supplied := info.supplied - amount), 0 - amount);
      r := Ok(());
    }

    /** Borrow against collateral, never beyond the settled collateral; the transfer fails exactly as in `Withdraw`. */
    method Borrow(now: nat, user: Address, amount: int) returns (r: Result<(), Error>)
      requires Valid()
      modifies this
      ensures Valid()
      ensures r.Err? ==> unchanged(this)
      ensures r.Ok? <==>
                && old(Opened(now, user)).Ok? && amount <= old(balance)
                && MayBorrow(old(Opened(now, user)).value.0, old(Opened(now, user)).value.1, amount)
      ensures r == Err(TokenTransferTrapped) <==>
                && old(Opened(now, user)).Ok? && amount > old(balance)
                && MayBorrow(old(Opened(now, user)).value.0, old(Opened(now, user)).value.1, amount)
      ensures old(Opened(now, user)).Ok? && Covers(old(balance), old(Opened(now, user)).value.0) ==>
                r != Err(TokenTransferTrapped)
      ensures r.Ok? ==> balance == old(balance) - amount
      ensures r.Ok? ==>
                var (t, info) := old(Opened(now, user)).value;
                && totals == t.(borrowed := t.borrowed + amount)
                && users == old(users)[user := info.(borrowed := info.borrowed + amount)]
                && balance - totals.Float() == old(balance) - t.Float()
      ensures r.Ok? ==> CoverDecided(old(totals), old(balance), now, totals, balance)
      ensures r.Ok? ==> trace == old(trace) + [Entry(totals, balance, now)]
    {
      if amount <= 0 {
        return Err(InvalidAmount);
      }
      var start := Open(now, user);
      if start.Err? {
        AccrualErrors(totals, users, user, now);
        return Err(start.error);
      }
      var (t, info) := start.value;
      if !FitsI128(info.borrowed + amount) {
        return Err(ArithmeticOverflow);
      }
      if info.borrowed + amount > info.supplied {
        return Err(ExceedsCollateral);
      }
      if amount > Liquid(t) {
        return Err(InsufficientLiquidity);
      }
      if !FitsI128(t.borrowed + amount) {
        return Err(ArithmeticOverflow);
      }
      if amount > balance {
        return Err(TokenTransferTrapped);
      }
      Store(now, t.(borrowed := t.borrowed + amount), user, info.(borrowed := info.borrowed + amount), 0 - amount);
      r := Ok(());
    }

    /** Repay at most what is owed. */
    method Repay(now: nat, user: Address, amount: int, funded: bool) returns (r: Result<(), Error>)
      requires Valid()
      modifies this
      ensures Valid()
      ensures r.Err? ==> unchanged(this)
      ensures r.Ok? <==> 0 < amount && old(Opened(now, user)).Ok? && funded &&
                         0 < old(Opened(now, user)).value.1.borrowed &&
                         var (t, info) := old(Opened(now, user)).value;
                         FitsI128(t.borrowed - Min(amount, info.borrowed))
      ensures r.Ok? ==>
                && old(Opened(now, user)).Ok?
                && var (t, info) := old(Opened(now, user)).value;
                   var actual := Min(amount, info.borrowed);
                && 0 < actual
                && totals == t.(borrowed := t.borrowed - actual)
                && users == old(users)[user := info.(borrowed := info.borrowed - actual)]
                && balance == old(balance) + actual
                && balance - totals.Float() == old(balance) - t.Float()
                && CoverDecided(old(totals), old(balance), now, totals, balance)
                && trace == old(trace) + [Entry(totals, balance, now)]
    {
      if amount <= 0 {
        return Err(InvalidAmount);
      }
      var start :- Open(now, user);
      var (t, info) := start;
      if info.borrowed <= 0 {
        return Err(InvalidAmount);
      }
      var actual := Min(amount, info.borrowed);
      if !FitsI128(t.borrowed - actual) {
        return Err(ArithmeticOverflow);
      }
      if !funded {
        return Err(TokenTransferTrapped);
      }
      Store(now, t.(borrowed := t.borrowed - actual), user, info.(borrowed := info.borrowed - actual), actual);
      r := Ok(());
    }
  }
}
