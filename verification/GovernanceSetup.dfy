/**
 Building a governance body: the errors it can return, the registration loop of the
 constructor, and the invariant of a fresh instance.
 */
module GovernanceSetup {
  import opened GovernanceRules
  import opened GovernanceRuns
  import opened GovernanceTimelock
  import opened GovernanceTreasury
  import opened GovernanceVoting
  import opened Isqrt
  import opened Prelude
  import opened Sums

  datatype Error =
    | ArityMismatch
    | InvalidMembers
    | InvalidThreshold
    | InvalidVotingPeriod
    | NotAMember
    | ProposalNotFound
    | VotingClosed
    | AlreadyVoted
    | AlreadyExecuted
    | QuorumNotMet
    | ProposalActive
    | ProposalNotApproved
    | RagequitWindowClosed
    | AlreadyRagequit
    | NotADissenter
    | TreasuryNotConfigured
    | MathOverflow
    | SimulationRequired
    | InvalidRingSignature
    | DuplicateKeyImage
    | InvalidAnonymitySet
    | VotingModeConflict
    | VotingKeyAlreadyRegistered
    | InvalidVotingKey
    | TimelockRequired
    | TimelockNotExpired
    | AlreadyQueued
    /** The host aborted the call (a failed inner call or an overflow) and undid its writes. */
    | HostTrap

  // ---- construction ----

  /** Stakes the first `n` listed members bring in. */
  function Stakes(members: seq<Address>, deposits: seq<int>, n: nat): map<Address, int>
    requires n <= |members| == |deposits|
  {
    if n == 0 then map[] else Stakes(members, deposits, n - 1)[members[n - 1] := deposits[n - 1]]
  }

  function Total(deposits: seq<int>): int {
    if deposits == [] then 0 else Total(deposits[..|deposits| - 1]) + deposits[|deposits| - 1]
  }

  ghost predicate Registrable(members: seq<Address>, deposits: seq<int>) {
    && NoDuplicates(members)
    && (forall i :: 0 <= i < |deposits| ==> deposits[i] > 0)
    && Total(deposits) <= U64_MAX
  }

  /** Registered stakes with the two totals the constructor accumulates. */
  ghost predicate TotalsMatch(stakes: map<Address, int>, weight: int, total: int) {
    && (forall m :: m in stakes ==> 0 < stakes[m] <= U64_MAX)
    && total == Sum(stakes) <= U64_MAX
    && weight == Sum(BaseWeights(stakes))
  }

  /** What registering the first `n` members has established. */
  ghost predicate RegisteredSoFar(
    members: seq<Address>, deposits: seq<int>, n: nat, stakes: map<Address, int>, weight: int, total: int)
  {
    && n <= |members| == |deposits|
    && Registrable(members[..n], deposits[..n])
    && stakes == Stakes(members, deposits, n)
    && (forall m :: m in stakes <==> m in members[..n])
    && |stakes| == n
    && total == Total(deposits[..n])
    && TotalsMatch(stakes, weight, total)
  }

  lemma NoneRegistered(members: seq<Address>, deposits: seq<int>)
    requires |members| == |deposits|
    ensures RegisteredSoFar(members, deposits, 0, map[], 0, 0)
  {
    var none: map<Address, int> := map[];
    assert BaseWeights(none) == map[] && Sum(none) == 0;
  }

  lemma TotalsAfterOne(stakes: map<Address, int>, weight: int, total: int, m: Address, d: nat)
    requires TotalsMatch(stakes, weight, total) && m !in stakes && 0 < d && total + d <= U64_MAX && d <= U64_MAX
    ensures TotalsMatch(stakes[m := d], weight + FloorSqrt(d), total + d)
  {
    SumUpdate(stakes, m, d);
    BaseWeightsAfterOne(stakes, m, d);
  }

  /** The total weight cannot overflow: at most 32 roots of 64-bit deposits. */
  lemma WeightFits(stakes: map<Address, int>, weight: int, total: int)
    requires TotalsMatch(stakes, weight, total) && |stakes| <= MAX_MEMBERS
    ensures 0 <= weight <= MAX_MEMBERS * U32_MAX < U64_MAX
  {
    var weights := BaseWeights(stakes);
    forall m | m in weights ensures 0 <= weights[m] <= U32_MAX {
      RootFits(stakes[m]);
    }
    SumBounds(weights, 0, U32_MAX);
    assert weights.Keys == stakes.Keys;
    assert |weights| == |weights.Keys| == |stakes.Keys| == |stakes|;
  }

  lemma RegisterOne(
    members: seq<Address>, deposits: seq<int>, n: nat, stakes: map<Address, int>, weight: int, total: int,
    more: map<Address, int>, weight': int, total': int)
    requires RegisteredSoFar(members, deposits, n, stakes, weight, total) && n < |members|
    requires deposits[n] > 0 && members[n] !in stakes && more == stakes[members[n] := deposits[n]]
    requires TotalsMatch(more, weight', total') && total' == total + deposits[n]
    ensures RegisteredSoFar(members, deposits, n + 1, more, weight', total')
  {
    var m, d := members[n], deposits[n];
    RegistrableOne(members[..n], deposits[..n], m, d);
    assert members[..n + 1] == members[..n] + [m] && deposits[..n + 1] == deposits[..n] + [d];
    OneMoreKey(members[..n], stakes, m, d);
  }

  lemma OneMoreKey(members: seq<Address>, stakes: map<Address, int>, m: Address, d: int)
    requires (forall a :: a in stakes <==> a in members) && m !in stakes
    ensures (forall a :: a in stakes[m := d] <==> a in members + [m]) && |stakes[m := d]| == |stakes| + 1
  {
  }

  lemma RegistrableOne(members: seq<Address>, deposits: seq<int>, m: Address, d: int)
    requires Registrable(members, deposits) && m !in members && 0 < d && Total(deposits) + d <= U64_MAX
    ensures Registrable(members + [m], deposits + [d]) && Total(deposits + [d]) == Total(deposits) + d
  {
    assert (deposits + [d])[..|deposits|] == deposits;
  }

  /** Once a prefix cannot be registered, the whole list cannot. */
  lemma {:induction false} NotRegistrable(members: seq<Address>, deposits: seq<int>, n: nat)
    requires |members| == |deposits| && n <= |members| && !Registrable(members[..n], deposits[..n])
    ensures !Registrable(members, deposits)
    decreases |members| - n
  {
    if n == |members| {
      assert members[..n] == members && deposits[..n] == deposits;
    } else {
      assert members[..n + 1] == members[..n] + [members[n]] && deposits[..n + 1] == deposits[..n] + [deposits[n]];
      StillNotRegistrable(members[..n], deposits[..n], members[n], deposits[n]);
      NotRegistrable(members, deposits, n + 1);
    }
  }

  lemma StillNotRegistrable(members: seq<Address>, deposits: seq<int>, m: Address, d: int)
    requires !Registrable(members, deposits)
    ensures !Registrable(members + [m], deposits + [d])
  {
    var more, added := members + [m], deposits + [d];
    assert added[..|deposits|] == deposits && added[|deposits|] == d;
    assert forall i :: 0 <= i < |members| ==> more[i] == members[i];
    assert forall i :: 0 <= i < |deposits| ==> added[i] == deposits[i];
  }

  /** Each of the loop's three refusals is final. */
  lemma RejectOne(
    members: seq<Address>, deposits: seq<int>, n: nat, stakes: map<Address, int>, weight: int, total: int)
    requires RegisteredSoFar(members, deposits, n, stakes, weight, total) && n < |members|
    ensures deposits[n] <= 0 || members[n] in stakes || total + deposits[n] > U64_MAX ==>
              !Registrable(members, deposits)
  {
    assert deposits[..n + 1][..n] == deposits[..n] && deposits[..n + 1][n] == deposits[n];
    assert members[..n + 1][n] == members[n] && members[..n + 1][..n] == members[..n];
    if members[n] in stakes {
      var k :| 0 <= k < n && members[..n][k] == members[n];
      assert members[..n + 1][k] == members[..n + 1][n];
    }
    if deposits[n] <= 0 || members[n] in stakes || total + deposits[n] > U64_MAX {
      NotRegistrable(members, deposits, n + 1);
    }
  }

  /** The constructor's loop: checks, stakes and the two totals, in one pass. */
  method RegisterMembers(members: seq<Address>, deposits: seq<int>)
    returns (r: Result<(map<Address, int>, nat, nat), Error>)
    requires |members| == |deposits| <= MAX_MEMBERS
    requires forall i :: 0 <= i < |deposits| ==> 0 <= deposits[i] <= U64_MAX
    ensures r.Ok? <==> Registrable(members, deposits)
    ensures r.Ok? ==> RegisteredSoFar(members, deposits, |members|, r.value.0, r.value.1, r.value.2)
    ensures r.Ok? ==> r.value.1 <= MAX_MEMBERS * U32_MAX < U64_MAX
  {
    var stakes: map<Address, int>, weight: nat, total: nat := map[], 0, 0;
    NoneRegistered(members, deposits);
    for n := 0 to |members|
      invariant RegisteredSoFar(members, deposits, n, stakes, weight, total)
    {
      RejectOne(members, deposits, n, stakes, weight, total);
      if deposits[n] == 0 {
        return Err(InvalidMembers);
      }
      if members[n] in stakes {
        return Err(InvalidMembers);
      }
      if total + deposits[n] > U64_MAX {
        return Err(InvalidMembers);
      }
      var w := Isqrt64(deposits[n]);
      var more := stakes[members[n] := deposits[n]];
      TotalsAfterOne(stakes, weight, total, members[n], deposits[n]);
      RegisterOne(members, deposits, n, stakes, weight, total, more, weight + w, total + deposits[n]);
      stakes, weight, total := more, weight + w, total + deposits[n];
    }
    assert members[..|members|] == members && deposits[..|members|] == deposits;
    WeightFits(stakes, weight, total);
    r := Ok((stakes, weight, total));
  }

  function FreshSnapshot(c: Charter, now: nat, stakes: map<Address, int>, weight: nat, total: nat): Snapshot {
    Snapshot(c, now, Members(stakes, weight, total, map[], {}), map[], NO_POLLS, Timelock(false, map[]),
             map[], Log(map[], map[]))
  }

  lemma FreshMembers(stakes: map<Address, int>, weight: nat, total: nat)
    requires TotalsMatch(stakes, weight, total)
    ensures MembersOk(Members(stakes, weight, total, map[], {}), stakes.Keys, total)
  {
    var none: map<Address, int> := map[];
    assert Sum(none) == 0;
    assert stakes.Keys + none.Keys == stakes.Keys;
  }

  lemma FreshPolls(ring: RingScheme, founders: set<Address>, period: nat, now: nat)
    ensures PollsOk(NO_POLLS, map[], ring, founders, period, now)
  {
  }

  lemma FreshTimelock(c: Config, hash: Call -> Digest, now: nat)
    ensures TimelockOk(Timelock(false, map[]), Log(map[], map[]), c, hash, 0, map[], now)
  {
  }

  /** A freshly built body starts a run. */
  lemma FreshRun(c: Charter, now: nat, stakes: map<Address, int>, weight: nat, total: nat)
    requires CharterOk(c) && now <= U32_MAX && TotalsMatch(stakes, weight, total)
    requires c.founders == stakes.Keys && c.staked == total
    ensures Reached([FreshSnapshot(c, now, stakes, weight, total)], FreshSnapshot(c, now, stakes, weight, total))
  {
    FreshMembers(stakes, weight, total);
    FreshPolls(c.ring, c.founders, c.config.votingPeriod, now);
    FreshTimelock(c.config, c.hash, now);
    RunStarts(FreshSnapshot(c, now, stakes, weight, total));
  }
}
