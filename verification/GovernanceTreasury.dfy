/**
 Member stakes and the ragequit exit: deposit accounting, voting weights, and the
 pro-rata payout with what it leaves to those who stay.
 */
module GovernanceTreasury {
  import opened Arithmetic
  import opened GovernanceRules
  import opened Isqrt
  import opened Prelude
  import opened Sums

  /** Membership storage. `quarantined` keeps what each departed member redeemed. */
  datatype Members = Members(
    deposits: map<Address, int>,
    totalWeight: nat,
    totalDeposits: nat,
    quarantined: map<Address, int>,
    ragequits: set<(nat, Address)>)

  /** Weights the deposits carry without any escrow lock. */
  ghost function BaseWeights(deposits: map<Address, int>): map<Address, int> {
    map m | m in deposits :: FloorSqrt(Max(deposits[m], 0))
  }

  lemma BaseWeightsAfterOne(deposits: map<Address, int>, m: Address, d: nat)
    requires m !in deposits
    ensures Sum(BaseWeights(deposits[m := d])) == Sum(BaseWeights(deposits)) + FloorSqrt(d)
  {
    var weights, root := BaseWeights(deposits), FloorSqrt(d);
    assert BaseWeights(deposits[m := d]) == weights[m := root];
    SumUpdate(weights, m, root);
  }

  lemma BaseWeightsAfterExit(deposits: map<Address, int>, m: Address)
    requires m in deposits && deposits[m] >= 0
    ensures Sum(BaseWeights(deposits)) == Sum(BaseWeights(deposits - {m})) + FloorSqrt(deposits[m])
    ensures Sum(BaseWeights(deposits - {m})) >= 0
  {
    var weights := BaseWeights(deposits);
    assert BaseWeights(deposits - {m}) == weights - {m};
    SumRemove(weights, m);
    SumNonNegative(weights - {m});
  }

  /**
   Deposits add up to the stored total, every founder is either still in or has left
   with a recorded stake, and the quorum base never exceeds the members' bare weights.
   */
  ghost predicate MembersOk(s: Members, founders: set<Address>, staked: int) {
    && (forall m :: m in s.deposits ==> 0 < s.deposits[m] <= U64_MAX)
    && s.totalDeposits == Sum(s.deposits) <= U64_MAX
    && s.deposits.Keys !! s.quarantined.Keys
    && s.deposits.Keys + s.quarantined.Keys == founders
    && Sum(s.deposits) + Sum(s.quarantined) == staked
    && s.totalWeight <= Sum(BaseWeights(s.deposits))
    && (forall k: (nat, Address) :: k in s.ragequits ==> k.1 in s.quarantined)
  }

  function DepositOf(s: Members, m: Address): nat {
    if m in s.deposits then Max(s.deposits[m], 0) else 0
  }

  function LockIn(locks: map<Address, VeLock>, m: Address): Option<VeLock> {
    if m in locks then Some(locks[m]) else None
  }

  /** The quadratic weight of an account, given the deposits, the escrow locks and the ledger. */
  ghost function MemberWeight(s: Members, locks: map<Address, VeLock>, now: nat, m: Address): nat {
    QuadraticWeight(DepositOf(s, m), LockIn(locks, m), now)
  }

  function Departed(s: Members, id: nat, m: Address, weight: nat): Members
    requires m in s.deposits && 0 <= s.deposits[m]
  {
    Members(
      s.deposits - {m}, SatSub(s.totalWeight, weight), SatSub(s.totalDeposits, s.deposits[m]),
      s.quarantined[m := s.deposits[m]], s.ragequits + {(id, m)})
  }

  lemma DepositWithinTotal(s: Members, founders: set<Address>, staked: int, m: Address)
    requires MembersOk(s, founders, staked) && m in s.deposits
    ensures 0 < s.deposits[m] <= s.totalDeposits
  {
    SumNonNegative(s.deposits);
  }

  lemma DepartureKeepsMembers(s: Members, founders: set<Address>, staked: int, id: nat, m: Address, weight: nat)
    requires MembersOk(s, founders, staked) && m in s.deposits && weight >= FloorSqrt(DepositOf(s, m))
    ensures MembersOk(Departed(s, id, m, weight), founders, staked)
    ensures Departed(s, id, m, weight).totalDeposits == s.totalDeposits - s.deposits[m]
  {
    var t := Departed(s, id, m, weight);
    DepositWithinTotal(s, founders, staked, m);
    SumRemove(s.deposits, m);
    SumUpdate(s.quarantined, m, s.deposits[m]);
    BaseWeightsAfterExit(s.deposits, m);
  }

  // ---- payouts ----

  /** A member's share of the treasury. */
  function Payout(balance: nat, deposit: nat, total: nat): nat
    requires total > 0
  {
    balance * deposit / total
  }

  /**
   An exit is paid its exact share rounded down, from the treasury alone, and the treasury per remaining unit of
   deposit never falls.
   */
  lemma ExitIsFair(balance: nat, deposit: nat, total: nat)
    requires 0 < deposit <= total
    ensures var x := Payout(balance, deposit, total); x * total <= balance * deposit < (x + 1) * total
    ensures Payout(balance, deposit, total) <= balance
    ensures (balance - Payout(balance, deposit, total)) * total >= balance * (total - deposit)
    ensures deposit == total ==> Payout(balance, deposit, total) == balance
  {
    var paid := balance * deposit;
    var x := Payout(balance, deposit, total);
    QuotientBounds(paid, total);
    MulOrder(deposit, total, balance);
    MulOrder(balance + 1, x, total);
    assert (balance - x) * total == balance * total - x * total;
    assert balance * (total - deposit) == balance * total - paid;
    if deposit == total {
      DivShift(balance, 0, total);
    }
  }

  /**
   What an exit leaves covers `owed` exactly when the exact share of those who stay, rounded
   up, does.
   */
  lemma ExitLeaves(balance: nat, deposit: nat, total: nat, owed: int)
    requires 0 < deposit <= total
    ensures balance - Payout(balance, deposit, total) >= owed <==> balance * (total - deposit) > (owed - 1) * total
  {
    var left, kept := balance - Payout(balance, deposit, total), balance * (total - deposit);
    assert (left - 1) * total < kept <= left * total by {
      ExitIsFair(balance, deposit, total);
      assert kept == balance * total - balance * deposit;
      assert left * total == balance * total - Payout(balance, deposit, total) * total;
    }
    if left >= owed {
      MulOrder(owed - 1, left - 1, total);
    } else {
      MulOrder(left, owed - 1, total);
    }
  }

  /** Whoever waits while others exit is paid at least as much as by leaving first. */
  lemma RicherShare(b: nat, t: nat, b': nat, t': nat, deposit: nat)
    requires 0 < t' && 0 < t && b' * t >= b * t'
    ensures Payout(b, deposit, t) <= Payout(b', deposit, t')
  {
    var x := Payout(b, deposit, t);
    QuotientBounds(b * deposit, t);
    // x * t <= b * deposit, hence x * t * t' <= b * t' * deposit <= b' * t * deposit
    MulOrder(x * t, b * deposit, t');
    MulOrder(b * t', b' * t, deposit);
    SwapFactors(x, t, t');
    SwapFactors(b, deposit, t');
    SwapFactors(b', t, deposit);
    CancelFactor(x * t', b' * deposit, t);
    DivCovers(x, b' * deposit, t');
  }

  lemma SwapFactors(a: int, b: int, c: int)
    ensures a * b * c == a * c * b
  {
    assert a * b * c == a * (b * c) == a * (c * b);
  }

  lemma RatioTrans(b: nat, t: nat, b1: nat, t1: nat, b2: nat, t2: nat)
    requires 0 < t1 && b1 * t >= b * t1 && b2 * t1 >= b1 * t2
    ensures b2 * t >= b * t2
  {
    MulOrder(b1 * t2, b2 * t1, t);
    MulOrder(b * t1, b1 * t, t2);
    SwapFactors(b1, t2, t);
    SwapFactors(b2, t1, t);
    SwapFactors(b, t1, t2);
    CancelFactor(b * t2, b2 * t, t1);
  }
}
