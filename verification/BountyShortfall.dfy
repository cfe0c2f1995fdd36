/**
 Completing one bounty can spend the donations of another: the contract nets out only the
 bounty's own donations, not all of those it holds. Two bounties with the same two donors
 and an empty treasury: the first is paid twice its donations, the second cannot be paid.
 */
module BountyShortfall {
  import opened Isqrt
  import opened Prelude
  import opened QuadraticFunding
  import opened Sums

  lemma UnitRoot(unit: int)
    requires unit == 1
    ensures ScaledRoot(unit) == 10_000_000
  {
    var n, r := unit * QF_SCALE_SQ, 10_000_000;
    FloorSqrtSpec(n);
    FloorSqrtUnique(n, FloorSqrt(n), r);
  }

  /** Two unit donors earn a match of two units. */
  lemma PairMatch(c: Contributions, t: nat)
    requires Sum(c) == 2 && RootSum(c) == t == 20_000_000
    ensures MatchOf(c) == Ok(2)
  {
    SquareIsProduct(t);
  }

  /** The sums of a bounty with this many unit donors. */
  predicate Small(b: BountyFunding, donors: nat) {
    b.totalDonated == donors && b.sqrtSumScaled == donors * 10_000_000
  }

  lemma UnitFits(total: int, unit: int)
    requires 0 <= total <= 20_000_000 && unit == 1
    ensures Scalable(unit) && total + ScaledRoot(unit) <= I128_MAX && ScaledRoot(0) == 0
    ensures ScaledRoot(unit) == 10_000_000
  {
    UnitRoot(unit);
  }

  /** A unit donation by a new donor always fits the fixed-point range. */
  lemma SmallDonationFits(b: BountyFunding, c: Contributions, donor: Address, unit: int, donors: nat)
    requires donor !in c && unit == 1 && Small(b, donors) && donors <= 1
    ensures DonationFits(b, c, donor, unit) && Small(Credited(b, c, donor, unit), donors + 1)
  {
    UnitFits(b.sqrtSumScaled, unit);
  }

  /** Two open bounties with this many unit donors each, and this balance. */
  ghost predicate Holds(g: BountyRegistry, first: nat, second: nat, balance: nat)
    reads g
  {
    && g.Valid() && g.treasuryConfigured && g.balance == balance
    && 1 in g.bounties && 2 in g.bounties && !g.bounties[1].completed && !g.bounties[2].completed
    && Small(g.bounties[1], first) && Small(g.bounties[2], second)
  }

  /** Neither donor has given to bounty `id` yet. */
  predicate Untouched(g: BountyRegistry, id: nat, a: Address, b: Address)
    reads g
  {
    id in g.donations && a !in g.donations[id] && b !in g.donations[id]
  }

  method Begin(a: Address, b: Address, r1: Address, r2: Address) returns (g: BountyRegistry)
    ensures fresh(g) && Holds(g, 0, 0, 0) && Untouched(g, 1, a, b) && Untouched(g, 2, a, b)
  {
    g := new BountyRegistry();
    g.ReceiveTreasury(0);
    var first := g.OpenBounty(1, r1);
    var second := g.OpenBounty(2, r2);
  }

  method DonateUnit(g: BountyRegistry, donor: Address, id: nat, ghost donors: nat)
    requires g.Valid() && g.treasuryConfigured && id in g.bounties && id in g.donations && !g.bounties[id].completed
    requires donor !in g.donations[id] && Small(g.bounties[id], donors) && donors <= 1
    modifies g
    ensures g.Valid() && g.treasuryConfigured && g.balance == old(g.balance) + 1
    ensures g.donations == old(g.donations)[id := old(g.donations)[id][donor := 1]]
    ensures id in g.bounties && !g.bounties[id].completed && Small(g.bounties[id], donors + 1)
    ensures g.bounties == old(g.bounties)[id := g.bounties[id]]
  {
    SmallDonationFits(g.bounties[id], g.donations[id], donor, 1, donors);
    var r := g.Donate(donor, id, 1, true);
  }

  method FirstPair(g: BountyRegistry, a: Address, b: Address)
    requires a != b && Holds(g, 0, 0, 0) && Untouched(g, 1, a, b) && Untouched(g, 2, a, b)
    modifies g
    ensures Holds(g, 2, 0, 2) && Untouched(g, 2, a, b)
  {
    DonateUnit(g, a, 1, 0);
    DonateUnit(g, b, 1, 1);
  }

  method SecondPair(g: BountyRegistry, a: Address, b: Address)
    requires a != b && Holds(g, 2, 0, 2) && Untouched(g, 2, a, b)
    modifies g
    ensures Holds(g, 2, 2, 4)
  {
    DonateUnit(g, a, 2, 0);
    DonateUnit(g, b, 2, 1);
  }

  method PayFirst(g: BountyRegistry) returns (r: Result<nat, QfError>)
    requires Holds(g, 2, 2, 4)
    modifies g
    ensures g.Valid() && g.treasuryConfigured && g.balance == 0 && r == Ok(2)
    ensures 2 in g.bounties && !g.bounties[2].completed && Small(g.bounties[2], 2)
  {
    assert Accounts(g.bounties[1], g.donations[1], g.held[1]);
    PairMatch(g.donations[1], RootSum(g.donations[1]));
    r := g.CompleteBounty(1);
  }

  /** A run from the empty registry: the first bounty is paid with the donations of the second. */
  method ShortfallRun(a: Address, b: Address, r1: Address, r2: Address)
    returns (g: BountyRegistry, first: Result<nat, QfError>, second: Result<nat, QfError>)
    requires a != b
    ensures fresh(g) && g.Valid() && g.balance == 0
    ensures 2 in g.bounties && !g.bounties[2].completed && g.bounties[2].totalDonated == 2
    ensures first == Ok(2) && second == Err(InsufficientTreasury)
  {
    g := Begin(a, b, r1, r2);
    FirstPair(g, a, b);
    SecondPair(g, a, b);
    first := PayFirst(g);
    assert Accounts(g.bounties[2], g.donations[2], g.held[2]);
    PairMatch(g.donations[2], RootSum(g.donations[2]));
    second := g.CompleteBounty(2);
  }
}
