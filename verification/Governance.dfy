/**
 The governance contract: a fixed body of staked members that proposes, votes in two
 modes, executes through an optional timelock, and lets dissenters exit. Every method
 keeps the invariant of `GovernanceRuns` and appends its snapshot to `trace`, so the
 theorems there hold of every history of calls.
 */
module Governance {
  import opened GovernanceRules
  import opened GovernanceRuns
  import opened GovernanceSetup
  import opened GovernanceSteps
  import opened GovernanceTimelock
  import opened GovernanceTreasury
  import opened GovernanceVoting
  import opened Isqrt
  import opened Prelude
  import opened Sums
  import Escrow = VoteEscrow

  class Governance {
    const config: Config
    const ring: RingScheme
    const hash: Call -> Digest
    const escrow: Escrow.VoteEscrow
    ghost const founders: set<Address>
    ghost const staked: int

    var now: nat
    var members: Members
    var treasuryToken: Option<Address>
    var polls: Polls
    var timelock: Timelock
    /** Who was counted on each proposal, and what was queued and executed. */
    ghost var ballots: map<nat, Ballots>
    ghost var log: Log
    /** Every state the contract has been in. */
    ghost var trace: seq<Snapshot>

    ghost function View(): Snapshot
      reads this, escrow
    {
      Snapshot(Charter(config, ring, hash, founders, staked), now, members, escrow.locks, polls, timelock, ballots, log)
    }

    ghost predicate Valid()
      reads this, escrow
    {
      escrow.Valid() && Reached(trace, View())
    }

    /** The quadratic weight of an account at this ledger; zero for a non-member. */
    ghost function WeightOf(m: Address): nat
      reads this, escrow
    {
      MemberWeight(members, escrow.locks, now, m)
    }

    ghost function CurrentRolls(): Rolls
      reads this, escrow
    {
      Rolls(members, escrow.locks, now, polls.voted, polls.owners)
    }

    constructor (
      config: Config, ring: RingScheme, hash: Call -> Digest, now: nat,
      stakes: map<Address, int>, weight: nat, total: nat)
      requires config.Valid() && ring.Linkable() && now <= U32_MAX
      requires TotalsMatch(stakes, weight, total) && |stakes| <= MAX_MEMBERS
      ensures Valid() && fresh(escrow) && this.config == config && this.now == now
      ensures members == Members(stakes, weight, total, map[], {}) && treasuryToken == None
      ensures polls == NO_POLLS && timelock == Timelock(false, map[]) && ballots == map[] && log == Log(map[], map[])
      ensures escrow.locks == map[] && escrow.token == None && trace == [View()]
    {
      this.config, this.ring, this.hash := config, ring, hash;
      escrow := new Escrow.VoteEscrow();
      founders, staked := stakes.Keys, total;
      this.now := now;
      members := Members(stakes, weight, total, map[], {});
      treasuryToken := None;
      polls, timelock := NO_POLLS, Timelock(false, map[]);
      ballots, log, trace := map[], Log(map[], map[]), [];
      new;
      ghost var c := Charter(config, ring, hash, stakes.Keys, total);
      assert CharterOk(c) by {
        assert |stakes.Keys| == |stakes|;
      }
      ghost var s := FreshSnapshot(c, now, stakes, weight, total);
      FreshRun(c, now, stakes, weight, total);
      trace := [s];
      assert View() == s;
    }

    /**
     `__constructor`: accepts exactly a non-empty list of at most 32 distinct members
     with positive deposits whose sum fits 64 bits, and a sane configuration.
     */
    static method Create(
      ring: RingScheme, hash: Call -> Digest, now: nat,
      founders: seq<Address>, deposits: seq<int>, thresholdBps: nat, votingPeriod: nat)
      returns (r: Result<Governance, Error>)
      requires ring.Linkable() && now <= U32_MAX && votingPeriod <= U32_MAX
      requires forall i :: 0 <= i < |deposits| ==> 0 <= deposits[i] <= U64_MAX
      ensures r.Ok? <==>
                && |founders| == |deposits| && 0 < |founders| <= 32 && Registrable(founders, deposits)
                && 1 <= thresholdBps <= 10_000 && 0 < votingPeriod
      ensures r.Ok? ==>
                && fresh(r.value) && fresh(r.value.escrow) && r.value.Valid()
                && r.value.members.deposits == Stakes(founders, deposits, |founders|)
                && r.value.members.totalDeposits == Total(deposits)
                && r.value.members.totalWeight == Sum(BaseWeights(r.value.members.deposits))
                && r.value.members.quarantined == map[] && r.value.members.ragequits == {}
                && r.value.polls == NO_POLLS && r.value.timelock == Timelock(false, map[])
                && r.value.escrow.locks == map[] && r.value.escrow.token == None && r.value.treasuryToken == None
                && r.value.config == Config(thresholdBps, votingPeriod) && r.value.now == now
    {
      if |founders| != |deposits| {
        return Err(ArityMismatch);
      }
      if |founders| == 0 || |founders| > MAX_MEMBERS {
        return Err(InvalidMembers);
      }
      if thresholdBps < MIN_THRESHOLD_BPS || thresholdBps > MAX_THRESHOLD_BPS {
        return Err(InvalidThreshold);
      }
      if votingPeriod == 0 {
        return Err(InvalidVotingPeriod);
      }
      var registered :- RegisterMembers(founders, deposits);
      var (stakes, weight, total) := registered;
      assert deposits[..|founders|] == deposits;
      var g := new Governance(Config(thresholdBps, votingPeriod), ring, hash, now, stakes, weight, total);
      r := Ok(g);
    }

    method ComputeWeightOf(m: Address) returns (w: nat)
      requires Valid()
      ensures w == WeightOf(m) <= U32_MAX
      ensures w > 0 <==> m in members.deposits
      ensures w > 0 ==> m in founders && w >= FloorSqrt(DepositOf(members, m))
    {
      MemberFacts(trace, View(), m);
      w := ComputeWeight(DepositOf(members, m), LockIn(escrow.locks, m), now);
      WeightDecays(DepositOf(members, m), LockIn(escrow.locks, m), now, now);
    }

    // ---- proposals and votes ----

    /** Opens voting on a call; the window starts now and ids are never reused. */
    method Propose(proposer: Address, call: Call, simulationRequired: bool) returns (r: Result<nat, Error>)
      requires Valid()
      modifies this`polls, this`ballots, this`trace
      ensures Valid()
      ensures r.Ok? <==> proposer in members.deposits && !simulationRequired && now + config.votingPeriod <= U32_MAX
      ensures r.Ok? ==>
                && Opens(old(polls), polls, r.value, Proposal(proposer, call, 0, 0, now + config.votingPeriod, false))
                && ballots == old(ballots)[r.value := map[]]
                && trace == old(trace) + [View()]
      ensures r.Err? ==> unchanged(this)
    {
      if proposer !in members.deposits {
        return Err(NotAMember);
      }
      if simulationRequired {
        return Err(SimulationRequired);
      }
      if now + config.votingPeriod > U32_MAX {
        return Err(HostTrap);
      }
      var id := Open(Proposal(proposer, call, 0, 0, now + config.votingPeriod, false));
      r := Ok(id);
    }

    /** Stores a new proposal under the next id. */
    method Open(p: Proposal) returns (id: nat)
      requires Valid() && !p.executed && p.yesWeight == 0 == p.noWeight
      requires p.deadline == now + config.votingPeriod <= U32_MAX
      modifies this`polls, this`ballots, this`trace
      ensures Valid() && Opens(old(polls), polls, id, p) && ballots == old(ballots)[id := map[]]
      ensures trace == old(trace) + [View()]
    {
      ghost var before := View();
      id := polls.count + 1;
      polls := Opened(polls, p);
      ballots := ballots[id := map[]];
      OpenRun(trace, before, View(), id, p);
      trace := trace + [View()];
    }

    /** A registered key is bound to one member, and a member to one key, for good. */
    method RegisterVotingKey(member: Address, key: VotingKey) returns (r: Result<(), Error>)
      requires Valid()
      modifies this`polls, this`trace
      ensures Valid()
      ensures r.Ok? <==>
                && member in members.deposits && member !in old(polls).keys && key !in old(polls).owners
                && ring.validKey(key)
      ensures r.Ok? ==> polls == WithKey(old(polls), member, key) && trace == old(trace) + [View()]
      ensures r.Err? ==> unchanged(this)
    {
      if member !in members.deposits {
        return Err(NotAMember);
      }
      if member in polls.keys || key in polls.owners {
        return Err(VotingKeyAlreadyRegistered);
      }
      if !ring.validKey(key) {
        return Err(InvalidVotingKey);
      }
      ghost var before := View();
      polls := WithKey(polls, member, key);
      KeyRun(trace, before, View(), member, key);
      trace := trace + [View()];
      r := Ok(());
    }

    /**
     A transparent vote: accepted exactly once per member and open proposal, and never
     from a keyed member once anonymous voting has begun. The voter was not counted
     before, and is now, with this ledger's weight.
     */
    method Vote(voter: Address, id: nat, support: bool) returns (r: Result<(), Error>)
      requires Valid()
      modifies this`polls, this`ballots, this`trace
      ensures Valid()
      ensures r.Ok? <==>
                && TakesVotes(old(polls), now, id) && voter in members.deposits
                && !(id in old(polls).anonymous && voter in old(polls).keys)
                && (id, voter) !in old(polls).voted
      ensures r.Ok? ==>
                && id in old(ballots) && voter !in old(ballots)[id]
                && polls == CastOpenly(old(polls), id, voter, support, WeightOf(voter))
                && ballots == Recorded(old(ballots), id, voter, Ballot(support, WeightOf(voter), false))
                && trace == old(trace) + [View()]
      ensures r.Err? ==> unchanged(this)
    {
      if id in polls.anonymous && voter in polls.keys {
        return Err(VotingModeConflict);
      }
      var weight := ComputeWeightOf(voter);
      if weight == 0 {
        return Err(NotAMember);
      }
      if id !in polls.proposals {
        return Err(ProposalNotFound);
      }
      var p := polls.proposals[id];
      if p.executed {
        return Err(AlreadyExecuted);
      }
      if now > p.deadline {
        return Err(VotingClosed);
      }
      if (id, voter) in polls.voted {
        return Err(AlreadyVoted);
      }
      CountOpenly(voter, id, support, weight);
      r := Ok(());
    }

    /** Adds an admissible transparent vote to the tally and leaves its markers. */
    method CountOpenly(voter: Address, id: nat, support: bool, weight: nat)
      requires Valid() && TakesVotes(polls, now, id) && voter in members.deposits
      requires !(id in polls.anonymous && voter in polls.keys) && (id, voter) !in polls.voted
      requires 0 < weight == WeightOf(voter) <= U32_MAX
      modifies this`polls, this`ballots, this`trace
      ensures Valid() && id in old(ballots) && voter !in old(ballots)[id]
      ensures polls == CastOpenly(old(polls), id, voter, support, weight)
      ensures ballots == Recorded(old(ballots), id, voter, Ballot(support, weight, false))
      ensures trace == old(trace) + [View()]
    {
      ghost var before, ballot := View(), Ballot(support, weight, false);
      BoxInOrder(trace, before, id);
      polls := CastOpenly(polls, id, voter, support, weight);
      ballots := Recorded(ballots, id, voter, ballot);
      OpenVoteRun(trace, before, View(), id, voter, ballot);
      trace := trace + [View()];
    }

    /** The weight behind one ring key, if its owner may hide behind it. */
    method KeyWeight(id: nat, key: VotingKey) returns (r: Result<nat, Error>)
      requires Valid()
      ensures r.Ok? ==> 0 < r.value <= U32_MAX && KeyOk(CurrentRolls(), id, key, r.value)
      ensures r.Ok? ==> polls.owners[key] in members.deposits
      ensures r.Err? ==> Unusable(CurrentRolls(), id, key)
    {
      if key !in polls.owners {
        return Err(InvalidAnonymitySet);
      }
      var member := polls.owners[key];
      if (id, member) in polls.voted {
        return Err(VotingModeConflict);
      }
      var w := ComputeWeightOf(member);
      if w == 0 {
        return Err(InvalidAnonymitySet);
      }
      r := Ok(w);
    }

    /** The ring check of `vote_anonymous`: the common weight, if the ring is acceptable. */
    method RingWeight(id: nat, keys: seq<VotingKey>) returns (r: Result<nat, Error>)
      requires Valid()
      ensures r.Ok? ==> keys != [] && RingOk(CurrentRolls(), id, keys, r.value) && r.value <= U32_MAX
      ensures r.Err? ==> keys == [] || NoRing(CurrentRolls(), id, keys)
    {
      if keys == [] {
        return Err(InvalidAnonymitySet);
      }
      ghost var e := CurrentRolls();
      var first := KeyWeight(id, keys[0]);
      if first.Err? {
        RingSpoiled(e, id, keys, 0);
        return first;
      }
      var weight := first.value;
      for i := 1 to |keys|
        invariant KeyOk(e, id, keys[0], weight) && RingOk(e, id, keys[..i], weight)
      {
        var w := KeyWeight(id, keys[i]);
        if w.Err? {
          RingSpoiled(e, id, keys, i);
          return w;
        }
        if w.value != weight {
          RingUneven(e, id, keys, i, weight, w.value);
          return Err(InvalidAnonymitySet);
        }
        if keys[i] in keys[..i] {
          RingSpoiled(e, id, keys, i);
          return Err(InvalidAnonymitySet);
        }
        RingGrows(e, id, keys, i, weight);
      }
      assert keys[..|keys|] == keys;
      r := Ok(weight);
    }

    /**
     An anonymous vote: accepted exactly when the ring is acceptable, the signature
     verifies and its image is new on this open proposal. Some ring member who had not
     been counted is counted, with the ring's common weight.
     */
    method VoteAnonymous(id: nat, support: bool, keys: seq<VotingKey>, sig: RingSignature)
      returns (r: Result<(), Error>, ghost signer: Address)
      requires Valid()
      modifies this`polls, this`ballots, this`trace
      ensures Valid()
      ensures r.Ok? <==>
                && 2 <= |keys| <= 32 && TakesVotes(old(polls), now, id)
                && !NoRing(old(CurrentRolls()), id, keys)
                && ring.verify(id, keys, support, sig) && (id, sig.keyImage) !in old(polls).images
      ensures r.Ok? ==>
                && id in old(ballots) && signer !in old(ballots)[id]
                && (exists key :: key in keys && key in old(polls).owners && old(polls).owners[key] == signer)
                && polls == CastAnonymously(old(polls), id, sig.keyImage, support, WeightOf(signer))
                && ballots == Recorded(old(ballots), id, signer, Ballot(support, WeightOf(signer), true))
                && trace == old(trace) + [View()]
      ensures r.Err? ==> unchanged(this)
    {
      signer := Address(0);
      if |keys| < 2 || |keys| > MAX_MEMBERS {
        r := Err(InvalidAnonymitySet);
        return;
      }
      if id !in polls.proposals {
        r := Err(ProposalNotFound);
        return;
      }
      if polls.proposals[id].executed {
        r := Err(AlreadyExecuted);
        return;
      }
      if now > polls.proposals[id].deadline {
        r := Err(VotingClosed);
        return;
      }
      var weight := RingWeight(id, keys);
      if weight.Err? {
        r := Err(weight.error);
        return;
      }
      if !ring.verify(id, keys, support, sig) {
        r := Err(InvalidRingSignature);
        return;
      }
      if (id, sig.keyImage) in polls.images {
        r := Err(DuplicateKeyImage);
        return;
      }
      signer := CountAnonymously(id, support, keys, sig, weight.value);
      r := Ok(());
    }

    /** Adds an admissible anonymous vote to the tally and leaves its markers. */
    method CountAnonymously(id: nat, support: bool, keys: seq<VotingKey>, sig: RingSignature, weight: nat)
      returns (ghost signer: Address)
      requires Valid() && TakesVotes(polls, now, id)
      requires RingOk(CurrentRolls(), id, keys, weight) && weight <= U32_MAX
      requires ring.verify(id, keys, support, sig) && (id, sig.keyImage) !in polls.images
      modifies this`polls, this`ballots, this`trace
      ensures Valid() && id in old(ballots) && signer !in old(ballots)[id]
      ensures exists key :: key in keys && key in old(polls).owners && old(polls).owners[key] == signer
      ensures weight == WeightOf(signer)
      ensures polls == CastAnonymously(old(polls), id, sig.keyImage, support, weight)
      ensures ballots == Recorded(old(ballots), id, signer, Ballot(support, weight, true))
      ensures trace == old(trace) + [View()]
    {
      ghost var before, ballot := View(), Ballot(support, weight, true);
      ghost var i := SignerOf(trace, before, id, keys, support, sig);
      ghost var key := keys[i];
      assert KeyOk(CurrentRolls(), id, key, weight);
      signer := polls.owners[key];
      BoxInOrder(trace, before, id);
      polls := CastAnonymously(polls, id, sig.keyImage, support, weight);
      ballots := Recorded(ballots, id, signer, ballot);
      AnonymousVoteRun(trace, before, View(), id, key, sig.keyImage, ballot);
      trace := trace + [View()];
    }

    // ---- queueing and execution ----

    /** Reached only through an executed proposal; there is no way back. */
    method EnableTimelock()
      requires Valid()
      modifies this`timelock, this`trace
      ensures Valid() && timelock == old(timelock).(enabled := true) && trace == old(trace) + [View()]
    {
      ghost var before := View();
      timelock := timelock.(enabled := true);
      EnableRun(trace, before, View());
      trace := trace + [View()];
    }

    /** Starts the delay of an approved proposal; only approval at this ledger lets it in. */
    method QueueTransaction(caller: Address, id: nat) returns (r: Result<nat, Error>)
      requires Valid()
      modifies this`timelock, this`log, this`trace
      ensures Valid()
      ensures r.Ok? <==>
                && caller in members.deposits && id in polls.proposals && !polls.proposals[id].executed
                && id !in old(timelock).queue && Approved(config, members.totalWeight, polls.proposals[id], now)
      ensures r.Ok? ==>
                && r.value == Min(now + 34_560, 4_294_967_295)
                && timelock == old(timelock).(queue := old(timelock).queue[
                                                id := Queued(hash(polls.proposals[id].call), r.value)])
                && log == old(log).(queuedAt := old(log).queuedAt[
                                      id := Queueing(now, members.totalWeight, polls.proposals[id])])
                && trace == old(trace) + [View()]
      ensures r.Ok? ==> old(Carried(View(), id))
      ensures r == Err(QuorumNotMet) <==>
                && caller in members.deposits && id in polls.proposals && !polls.proposals[id].executed
                && id !in old(timelock).queue && !old(Carried(View(), id))
      ensures r.Err? ==> unchanged(this)
    {
      TestsSayCarried(trace, View(), id);
      if caller !in members.deposits {
        return Err(NotAMember);
      }
      if id !in polls.proposals {
        return Err(ProposalNotFound);
      }
      var p := polls.proposals[id];
      if p.executed {
        return Err(AlreadyExecuted);
      }
      if id in timelock.queue {
        return Err(AlreadyQueued);
      }
      if !Approved(config, members.totalWeight, p, now) {
        return Err(QuorumNotMet);
      }
      var executionLedger := SatAdd(now, TIMELOCK_DELAY_LEDGERS, U32_MAX);
      Enqueue(id, Queued(hash(p.call), executionLedger));
      r := Ok(executionLedger);
    }

    method Enqueue(id: nat, q: Queued)
      requires Valid() && id in polls.proposals && !polls.proposals[id].executed && id !in timelock.queue
      requires Approved(config, members.totalWeight, polls.proposals[id], now)
      requires MatchesQueueing(hash, q, Queueing(now, members.totalWeight, polls.proposals[id]))
      modifies this`timelock, this`log, this`trace
      ensures Valid() && timelock == old(timelock).(queue := old(timelock).queue[id := q])
      ensures log == old(log).(queuedAt := old(log).queuedAt[
                                 id := Queueing(now, members.totalWeight, polls.proposals[id])])
      ensures trace == old(trace) + [View()]
    {
      ghost var before, e := View(), Queueing(now, members.totalWeight, polls.proposals[id]);
      timelock := timelock.(queue := timelock.queue[id := q]);
      log := log.(queuedAt := log.queuedAt[id := e]);
      QueueRun(trace, before, View(), id, q, e);
      trace := trace + [View()];
    }

    /**
     Executes an approved proposal, through the timelock when it is on. No id executes
     twice. A failing target call undoes everything.
     */
    method Execute(id: nat, callSucceeds: bool) returns (r: Result<(), Error>)
      requires Valid()
      modifies this`polls, this`timelock, this`log, this`trace
      ensures Valid()
      ensures r.Ok? <==>
                && id in old(polls).proposals && !old(polls).proposals[id].executed
                && Approved(config, members.totalWeight, old(polls).proposals[id], now)
                && Matured(old(timelock), id, now) && callSucceeds
      ensures r.Ok? ==>
                && id !in old(log).executions
                && polls == ExecutedPolls(old(polls), id) && timelock == Consumed(old(timelock), id)
                && log == old(log).(executions := old(log).executions[
                                      id := Execution(now, old(polls).proposals[id].call, old(timelock).enabled)])
                && trace == old(trace) + [View()]
      ensures r.Ok? ==> old(Carried(View(), id))
      ensures r == Err(QuorumNotMet) <==>
                id in old(polls).proposals && !old(polls).proposals[id].executed && !old(Carried(View(), id))
      ensures r.Err? ==> unchanged(this)
    {
      TestsSayCarried(trace, View(), id);
      if id !in polls.proposals {
        return Err(ProposalNotFound);
      }
      var p := polls.proposals[id];
      if p.executed {
        return Err(AlreadyExecuted);
      }
      if !Approved(config, members.totalWeight, p, now) {
        return Err(QuorumNotMet);
      }
      if timelock.enabled {
        if id !in timelock.queue {
          return Err(TimelockRequired);
        }
        QueuedHashMatches(trace, View(), id);
        if now < timelock.queue[id].executionLedger {
          return Err(TimelockNotExpired);
        }
      }
      if !callSucceeds {
        return Err(HostTrap);
      }
      MarkExecuted(id);
      r := Ok(());
    }

    method MarkExecuted(id: nat)
      requires Valid() && id in polls.proposals && !polls.proposals[id].executed && Matured(timelock, id, now)
      requires Approved(config, members.totalWeight, polls.proposals[id], now)
      modifies this`polls, this`timelock, this`log, this`trace
      ensures Valid() && id !in old(log).executions
      ensures polls == ExecutedPolls(old(polls), id) && timelock == Consumed(old(timelock), id)
      ensures log == old(log).(executions := old(log).executions[
                                 id := Execution(now, old(polls).proposals[id].call, old(timelock).enabled)])
      ensures trace == old(trace) + [View()]
    {
      ghost var before, x := View(), Execution(now, polls.proposals[id].call, timelock.enabled);
      polls := ExecutedPolls(polls, id);
      timelock := Consumed(timelock, id);
      log := log.(executions := log.executions[id := x]);
      ExecuteRun(trace, before, View(), id);
      trace := trace + [View()];
    }

    /** Like `Execute`, but refuses a proposal that is not queued even while the timelock is off. */
    method ExecuteQueuedTransaction(id: nat, callSucceeds: bool) returns (r: Result<(), Error>)
      requires Valid()
      modifies this`polls, this`timelock, this`log, this`trace
      ensures Valid()
      ensures r.Ok? <==>
                && id in old(timelock).queue
                && id in old(polls).proposals && !old(polls).proposals[id].executed
                && Approved(config, members.totalWeight, old(polls).proposals[id], now)
                && Matured(old(timelock), id, now) && callSucceeds
      ensures r.Ok? ==>
                && id !in old(log).executions
                && polls == ExecutedPolls(old(polls), id) && timelock == Consumed(old(timelock), id)
                && log == old(log).(executions := old(log).executions[
                                      id := Execution(now, old(polls).proposals[id].call, old(timelock).enabled)])
                && trace == old(trace) + [View()]
      ensures r.Ok? ==> old(Carried(View(), id))
      ensures r.Err? ==> unchanged(this)
    {
      if id !in timelock.queue {
        return Err(TimelockRequired);
      }
      r := Execute(id, callSucceeds);
    }

    /**
     Frees a finished proposal: executed, or closed and not waiting out the exit window
     of an approval.
     */
    method PruneProposal(id: nat) returns (r: Result<(), Error>)
      requires Valid()
      modifies this`now, this`polls, this`trace
      ensures Valid() && now == old(now)
      ensures r.Ok? <==>
                && id in old(polls).proposals
                && var p := old(polls).proposals[id];
                   || p.executed
                   || (&& now > p.deadline
                       && !(&& RagequitApproved(config, members.totalWeight, p, now)
                            && now <= p.deadline + RAGEQUIT_WINDOW))
      ensures r == Err(ProposalActive) <==>
                && id in old(polls).proposals && !old(polls).proposals[id].executed
                && (|| now <= old(polls).proposals[id].deadline
                    || (&& members.totalWeight > 0 && old(Carried(View(), id))
                        && now <= old(polls).proposals[id].deadline + 120_960))
      ensures r.Ok? ==> polls == old(polls).(proposals := old(polls).proposals - {id}) && trace == old(trace) + [View()]
      ensures r.Err? ==> unchanged(this)
    {
      TestsSayCarried(trace, View(), id);
      ExitFacts(trace, View(), id, Address(0));
      if id !in polls.proposals {
        return Err(ProposalNotFound);
      }
      var p := polls.proposals[id];
      if !p.executed {
        if now <= p.deadline {
          return Err(ProposalActive);
        }
        var windowEnd := SatAdd(p.deadline, RAGEQUIT_WINDOW, U32_MAX);
        if RagequitApproved(config, members.totalWeight, p, now) && now <= windowEnd {
          return Err(ProposalActive);
        }
      }
      Shrink(now, polls.(proposals := polls.proposals - {id}));
      r := Ok(());
    }

    /** Time passes; the host may drop markers, but none before the ledger the contract keeps it for. */
    method AdvanceLedger(later: nat, rest: Polls)
      requires Valid() && now <= later <= U32_MAX && rest.proposals == polls.proposals && Shrunk(polls, rest, later)
      modifies this`now, this`polls, this`trace
      ensures Valid() && now == later && polls == rest && trace == old(trace) + [View()]
    {
      Shrink(later, rest);
    }

    method Shrink(later: nat, rest: Polls)
      requires Valid() && now <= later <= U32_MAX && Shrunk(polls, rest, later)
      modifies this`now, this`polls, this`trace
      ensures Valid() && now == later && polls == rest && trace == old(trace) + [View()]
    {
      ghost var before := View();
      now, polls := later, rest;
      ShrinkRun(trace, before, View());
      trace := trace + [View()];
    }

    // ---- escrow ----

    /** Reached only through an executed proposal; settable once. */
    method SetVeToken(token: Address) returns (r: Result<(), Escrow.Error>)
      requires Valid()
      modifies escrow
      ensures Valid() && escrow.locks == old(escrow.locks)
      ensures r.Ok? <==> old(escrow.token) == None
      ensures escrow.token == if r.Ok? then Some(token) else old(escrow.token)
    {
      r := escrow.SetVeToken(token);
    }

    /** Locks change a weight from now on; ballots already cast keep theirs. */
    method CreateLock(user: Address, amount: int, unlockLedger: nat, transferable: bool)
      returns (r: Result<(), Escrow.Error>)
      requires Valid() && amount <= I128_MAX
      modifies this`trace, escrow
      ensures Valid() && escrow.token == old(escrow.token)
      ensures r.Ok? <==>
                && 0 < amount && escrow.token.Some? && user !in old(escrow.locks)
                && now + 518_400 <= unlockLedger <= now + 25_228_800 && transferable
      ensures r.Ok? ==> escrow.locks == old(escrow.locks)[user := VeLock(amount, now, unlockLedger)]
      ensures r.Ok? ==> trace == old(trace) + [View()]
      ensures r.Err? ==> unchanged(this) && unchanged(escrow)
    {
      ghost var before := View();
      r := escrow.CreateLock(now, user, amount, unlockLedger, transferable);
      if r.Ok? {
        LockRun(trace, before, View(), user);
        trace := trace + [View()];
      }
    }

    method WithdrawLock(user: Address, transferable: bool) returns (r: Result<(), Escrow.Error>)
      requires Valid()
      modifies this`trace, escrow
      ensures Valid() && escrow.token == old(escrow.token)
      ensures r.Ok? <==> user in old(escrow.locks) && now >= old(escrow.locks)[user].unlockLedger && transferable
      ensures r.Ok? ==> escrow.locks == old(escrow.locks) - {user} && trace == old(trace) + [View()]
      ensures r.Err? ==> unchanged(this) && unchanged(escrow)
    {
      ghost var before := View();
      r := escrow.WithdrawLock(now, user, transferable);
      if r.Ok? {
        LockRun(trace, before, View(), user);
        trace := trace + [View()];
      }
    }

    // ---- exits ----

    /** Reached only through an executed proposal. */
    method SetTreasuryToken(token: Address)
      requires Valid()
      modifies this`treasuryToken
      ensures Valid() && treasuryToken == Some(token)
    {
      treasuryToken := Some(token);
    }

    /**
     A dissenter of an approved proposal leaves with a pro-rata share of the treasury
     balance: never more than it holds, and never lowering what is left per deposit.
     Their stake is gone for good, so no later proposal pays them again.
     */
    method Ragequit(id: nat, voter: Address, balance: int, transferable: bool) returns (r: Result<nat, Error>)
      requires Valid() && FitsI128(balance)
      modifies this`members, this`trace
      ensures Valid()
      ensures r.Ok? <==>
                && MayExit(config, old(members).totalWeight, polls, now, id, voter)
                && treasuryToken.Some? && Payable(old(members), voter, balance, transferable)
      ensures r == Err(ProposalNotApproved) <==>
                && id in polls.proposals && !polls.proposals[id].executed && (id, voter) in polls.dissent
                && !RagequitApproved(config, old(members).totalWeight, polls.proposals[id], now)
      ensures r == Err(ProposalNotApproved) <==>
                && id in polls.proposals && !polls.proposals[id].executed && (id, voter) in polls.dissent
                && !(old(members).totalWeight > 0 && old(Carried(View(), id)))
      ensures r.Ok? ==> old(Carried(View(), id)) && now <= polls.proposals[id].deadline + 120_960
      ensures r.Ok? ==>
                && PaidFairly(old(members), members, voter, balance, r.value)
                && members == Departed(old(members), id, voter, old(WeightOf(voter)))
                && trace == old(trace) + [View()]
      ensures r.Err? ==> unchanged(this)
    {
      TestsSayCarried(trace, View(), id);
      ExitFacts(trace, View(), id, voter);
      if id !in polls.proposals {
        return Err(ProposalNotFound);
      }
      var p := polls.proposals[id];
      if p.executed {
        return Err(AlreadyExecuted);
      }
      if (id, voter) !in polls.dissent {
        return Err(NotADissenter);
      }
      if !RagequitApproved(config, members.totalWeight, p, now) {
        return Err(ProposalNotApproved);
      }
      if now > SatAdd(p.deadline, RAGEQUIT_WINDOW, U32_MAX) {
        return Err(RagequitWindowClosed);
      }
      if (id, voter) in members.ragequits {
        return Err(AlreadyRagequit);
      }
      r := Redeem(id, voter, balance, transferable);
    }

    /** The money part of an exit: the share is fixed, the stake is burned, then the share is paid. */
    method Redeem(id: nat, voter: Address, balance: int, transferable: bool) returns (r: Result<nat, Error>)
      requires Valid() && FitsI128(balance) && MayExit(config, members.totalWeight, polls, now, id, voter)
      modifies this`members, this`trace
      ensures Valid()
      ensures r.Ok? <==> treasuryToken.Some? && Payable(old(members), voter, balance, transferable)
      ensures r != Err(ProposalNotApproved)
      ensures r.Ok? ==>
                && PaidFairly(old(members), members, voter, balance, r.value)
                && members == Departed(old(members), id, voter, old(WeightOf(voter)))
                && trace == old(trace) + [View()]
      ensures r.Err? ==> unchanged(this)
    {
      ExitFacts(trace, View(), id, voter);
      if voter !in members.deposits {
        return Err(NotAMember);
      }
      if treasuryToken.None? {
        return Err(TreasuryNotConfigured);
      }
      if balance < 0 {
        return Err(MathOverflow);
      }
      var deposit := members.deposits[voter];
      if balance * deposit > U128_MAX {
        return Err(MathOverflow);
      }
      var payout := Payout(balance, deposit, members.totalDeposits);
      if payout > 0 && !transferable {
        return Err(HostTrap);
      }
      Burn(id, voter, balance);
      r := Ok(payout);
    }

    method Burn(id: nat, voter: Address, ghost balance: nat)
      requires Valid() && voter in members.deposits && 0 < members.deposits[voter] && 0 < members.totalDeposits
      requires MayExit(config, members.totalWeight, polls, now, id, voter)
      modifies this`members, this`trace
      ensures Valid() && members == Departed(old(members), id, voter, old(WeightOf(voter)))
      ensures PaidFairly(old(members), members, voter, balance,
                         Payout(balance, old(members).deposits[voter], old(members).totalDeposits))
      ensures trace == old(trace) + [View()]
    {
      ghost var before := View();
      var weight := ComputeWeightOf(voter);
      members := Departed(members, id, voter, weight);
      DepartRun(trace, before, View(), id, voter, weight, balance);
      trace := trace + [View()];
    }
  }
}
