/**
 One balance of the treasury token backs exits and the donations of open bounties, and the
 live locks too if the escrow uses the same token. An exit shares out the whole balance. It
 leaves what the contract owes covered exactly when the exact share of the members who stay,
 rounded up, covers it.
 */
module SharedTreasury {
  import opened GovernanceDisagreement
  import opened GovernanceRules
  import opened GovernanceSetup
  import opened GovernanceSteps
  import opened GovernanceTimelock
  import opened GovernanceTreasury
  import opened GovernanceVoting
  import opened Governance
  import opened Prelude
  import opened QuadraticFunding
  import opened Sums
  import VoteEscrow

  /** What the contract owes in the treasury token: open donations, and live locks if they are in it. */
  ghost function Owed(g: Governance, b: BountyRegistry): int
    reads g, g.escrow, b
  {
    OpenDonations(b.bounties) +
    if g.escrow.token == g.treasuryToken then Sum(VoteEscrow.Amounts(g.escrow.locks)) else 0
  }

  /** What is left of the balance covers `owed` exactly if the share of those who stay, rounded up, does. */
  predicate CoverDecided(s: Members, t: Members, balance: nat, paid: nat, owed: int) {
    balance - paid >= owed <==> balance * t.totalDeposits > (owed - 1) * s.totalDeposits
  }

  /** The exit from `s` to `t` leaves `owed` covered exactly under this condition on the state before it. */
  lemma ExitLeavesCovered(s: Members, t: Members, m: Address, balance: nat, paid: nat, owed: int)
    requires PaidFairly(s, t, m, balance, paid)
    ensures CoverDecided(s, t, balance, paid, owed)
  {
    ExitLeaves(balance, s.deposits[m], s.totalDeposits, owed);
  }

  method Quit(g: Governance, id: nat, voter: Address, balance: nat, ghost owed: int) returns (r: Result<nat, Error>)
    requires g.Valid() && balance <= I128_MAX
    modifies g`members, g`trace
    ensures g.Valid() && (r.Err? ==> unchanged(g))
    ensures r.Ok? ==>
              && PaidFairly(old(g.members), g.members, voter, balance, r.value)
              && CoverDecided(old(g.members), g.members, balance, r.value, owed)
  {
    r := g.Ragequit(id, voter, balance, true);
    if r.Ok? {
      ExitLeavesCovered(old(g.members), g.members, voter, balance, r.value, owed);
    }
  }

  /** An exit paid from the balance that the bounty registry keeps. */
  method Exit(g: Governance, b: BountyRegistry, id: nat, voter: Address) returns (r: Result<nat, Error>)
    requires g.Valid() && b.Valid() && b.balance <= I128_MAX
    modifies g`members, g`trace, b`balance, b`otherIncome
    ensures g.Valid() && b.Valid() && Owed(g, b) == old(Owed(g, b))
    ensures r.Err? ==> unchanged(g) && unchanged(b)
    ensures r.Ok? ==>
              && b.balance == old(b.balance) - r.value
              && PaidFairly(old(g.members), g.members, voter, old(b.balance), r.value)
              && CoverDecided(old(g.members), g.members, old(b.balance), r.value, Owed(g, b))
  {
    ghost var owed := Owed(g, b);
    r := Quit(g, id, voter, b.balance, owed);
    if r.Ok? {
      b.PayOut(r.value);
    }
    assert Owed(g, b) == owed;
  }

  /**
   With one token for both, the exit of `GovernanceDisagreement` is paid out of the leaver's
   own lock: 37 tokens are left for a lock of 45 that nobody has withdrawn.
   */
  method ShortLockRun(c: Cast, ring: RingScheme, hash: Call -> Digest, self: Address, token: Address, call: Call)
    returns (g: Governance, left: nat)
    requires c.Distinct() && ring.Linkable()
    ensures fresh(g) && g.Valid() && g.escrow.token == Some(token) == g.treasuryToken
    ensures left == 37 && Sum(VoteEscrow.Amounts(g.escrow.locks)) == 45
  {
    var paid;
    g, paid := UpToTheExit(c, ring, hash, self, token, token, 0, call);
    left := 45 - paid;
    OneLock(c.leaver);
  }

  lemma OneLock(user: Address)
    ensures Sum(VoteEscrow.Amounts(map[user := FullLock()])) == 45
  {
    var amounts := VoteEscrow.Amounts(map[user := FullLock()]);
    SumRemove(amounts, user);
    assert amounts - {user} == map[];
  }
}
