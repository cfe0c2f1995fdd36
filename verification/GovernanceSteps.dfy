/**
 How single calls extend a run: the facts a call may rely on, and for each operation
 the lemma that the state it leaves is again reached. Also the ring check of
 anonymous voting, on values.
 */
module GovernanceSteps {
  import opened GovernanceRules
  import opened GovernanceRuns
  import opened GovernanceTimelock
  import opened GovernanceTreasury
  import opened GovernanceVoting
  import opened Isqrt
  import opened Prelude

  // ---- rings ----

  /** What weighing a ring key depends on. */
  datatype Rolls = Rolls(
    members: Members, locks: map<Address, VeLock>, now: nat, voted: set<(nat, Address)>,
    owners: map<VotingKey, Address>)

  /** A key whose owner has not voted openly and weighs `w`. */
  ghost predicate KeyOk(e: Rolls, id: nat, key: VotingKey, w: nat) {
    && key in e.owners && (id, e.owners[key]) !in e.voted
    && MemberWeight(e.members, e.locks, e.now, e.owners[key]) == w
  }

  /** A ring the contract accepts: distinct registered keys of equal-weight members who have not voted openly. */
  ghost predicate RingOk(e: Rolls, id: nat, keys: seq<VotingKey>, w: nat) {
    w > 0 && DistinctAnd(keys, (key: VotingKey) => KeyOk(e, id, key, w))
  }

  ghost predicate DistinctAnd<T>(keys: seq<T>, ok: T -> bool) {
    NoDuplicates(keys) && forall i :: 0 <= i < |keys| ==> ok(keys[i])
  }

  lemma DistinctGrows<T>(keys: seq<T>, i: nat, ok: T -> bool)
    requires i < |keys| && DistinctAnd(keys[..i], ok) && ok(keys[i]) && keys[i] !in keys[..i]
    ensures DistinctAnd(keys[..i + 1], ok)
  {
    assert keys[..i + 1] == keys[..i] + [keys[i]];
  }

  /** A key no weight makes acceptable. */
  ghost predicate Unusable(e: Rolls, id: nat, key: VotingKey) {
    forall w: nat {:trigger KeyOk(e, id, key, w)} :: w > 0 ==> !KeyOk(e, id, key, w)
  }

  ghost predicate NoRing(e: Rolls, id: nat, keys: seq<VotingKey>) {
    forall w: nat {:trigger RingOk(e, id, keys, w)} :: !RingOk(e, id, keys, w)
  }

  /** One unusable key, one key of another weight or one repetition spoils the ring. */
  lemma RingSpoiled(e: Rolls, id: nat, keys: seq<VotingKey>, i: nat)
    requires i < |keys| && (Unusable(e, id, keys[i]) || keys[i] in keys[..i])
    ensures NoRing(e, id, keys)
  {
    var key := keys[i];
    forall w: nat ensures !RingOk(e, id, keys, w) {
      assert RingOk(e, id, keys, w) ==> KeyOk(e, id, key, w);
    }
  }

  lemma RingUneven(e: Rolls, id: nat, keys: seq<VotingKey>, i: nat, w: nat, v: nat)
    requires i < |keys| && KeyOk(e, id, keys[0], w) && KeyOk(e, id, keys[i], v) && w != v
    ensures NoRing(e, id, keys)
  {
    var first, other := keys[0], keys[i];
    forall u: nat ensures !RingOk(e, id, keys, u) {
      assert RingOk(e, id, keys, u) ==> KeyOk(e, id, first, u) && KeyOk(e, id, other, u);
    }
  }

  lemma RingGrows(e: Rolls, id: nat, keys: seq<VotingKey>, i: nat, w: nat)
    requires i < |keys| && RingOk(e, id, keys[..i], w) && KeyOk(e, id, keys[i], w) && keys[i] !in keys[..i]
    ensures RingOk(e, id, keys[..i + 1], w)
  {
    DistinctGrows(keys, i, (key: VotingKey) => KeyOk(e, id, key, w));
  }

  // ---- what a call needs to know of the run so far, and how it extends it ----

  lemma MemberFacts(trace: seq<Snapshot>, s: Snapshot, m: Address)
    requires Reached(trace, s)
    ensures m in s.members.deposits ==> 0 < s.members.deposits[m] <= U64_MAX && m in s.charter.founders
  {
    ReachedInv(trace, s);
  }

  lemma OpenRun(trace: seq<Snapshot>, a: Snapshot, b: Snapshot, id: nat, p: Proposal)
    requires Reached(trace, a) && Opens(a.polls, b.polls, id, p)
    requires p.deadline == a.now + a.charter.config.votingPeriod <= U32_MAX
    requires b == a.(polls := b.polls, ballots := a.ballots[id := map[]])
    ensures Reached(trace + [b], b)
  {
    ReachedInv(trace, a);
    OpenStep(a, b.polls, id, p);
    OpenExplained(a, b, id);
    RunExtends(trace, a, b);
  }

  lemma KeyRun(trace: seq<Snapshot>, a: Snapshot, b: Snapshot, m: Address, k: VotingKey)
    requires Reached(trace, a) && m !in a.polls.keys && k !in a.polls.owners
    requires b == a.(polls := WithKey(a.polls, m, k))
    ensures Reached(trace + [b], b)
  {
    ReachedInv(trace, a);
    KeyStep(a, m, k);
    QuietStep(a, b);
    RunExtends(trace, a, b);
  }

  /** On an open proposal everyone counted carries a marker, and keys pair up with owners. */
  lemma BoxInOrder(trace: seq<Snapshot>, s: Snapshot, id: nat)
    requires Reached(trace, s) && id in s.polls.proposals
    ensures id in s.ballots
    ensures s.now <= s.polls.proposals[id].deadline ==> Marked(s.polls, s.charter.ring, id, s.ballots[id])
    ensures KeysPaired(s.polls.keys, s.polls.owners)
  {
    ReachedInv(trace, s);
    var p := s.polls.proposals[id];
    assert PollOk(s.polls, s.charter.ring, s.charter.founders, s.charter.config.votingPeriod, s.now, id, p,
                  s.ballots[id]);
  }

  lemma OpenVoteRun(trace: seq<Snapshot>, a: Snapshot, b: Snapshot, id: nat, m: Address, ballot: Ballot)
    requires Reached(trace, a) && TakesVotes(a.polls, a.now, id) && m in a.members.deposits
    requires !(id in a.polls.anonymous && m in a.polls.keys) && (id, m) !in a.polls.voted
    requires 0 < ballot.weight <= U32_MAX && !ballot.anonymous
    requires ballot.weight == MemberWeight(a.members, a.locks, a.now, m)
    requires id in a.ballots ==>
      b == a.(polls := CastOpenly(a.polls, id, m, ballot.support, ballot.weight),
              ballots := Recorded(a.ballots, id, m, ballot))
    ensures Reached(trace + [b], b) && id in a.ballots && m !in a.ballots[id]
  {
    ReachedInv(trace, a);
    MemberFacts(trace, a, m);
    BoxInOrder(trace, a, id);
    OpenVoterIsNew(a.polls, a.charter.ring, id, a.ballots[id], m);
    VoteStep(a, b.polls, id, m, ballot);
    VoteExplained(a, b, id, m, ballot);
    RunExtends(trace, a, b);
  }

  /** Linkability turns a verified signature into a ring member. */
  lemma SignerOf(trace: seq<Snapshot>, s: Snapshot, id: nat, keys: seq<VotingKey>, support: bool, sig: RingSignature)
    returns (i: nat)
    requires Reached(trace, s) && s.charter.ring.verify(id, keys, support, sig)
    ensures i < |keys| && s.charter.ring.image(id, keys[i]) == sig.keyImage
  {
    ReachedInv(trace, s);
    assert s.charter.ring.SignedByOne(id, keys, sig);
    i :| 0 <= i < |keys| && s.charter.ring.image(id, keys[i]) == sig.keyImage;
  }

  lemma AnonymousVoteRun(
    trace: seq<Snapshot>, a: Snapshot, b: Snapshot, id: nat, key: VotingKey, image: KeyImage, ballot: Ballot)
    requires Reached(trace, a) && TakesVotes(a.polls, a.now, id)
    requires key in a.polls.owners && a.polls.owners[key] in a.members.deposits
    requires (id, a.polls.owners[key]) !in a.polls.voted && (id, image) !in a.polls.images
    requires a.charter.ring.image(id, key) == image
    requires 0 < ballot.weight <= U32_MAX && ballot.anonymous
    requires ballot.weight == MemberWeight(a.members, a.locks, a.now, a.polls.owners[key])
    requires id in a.ballots ==>
      b == a.(polls := CastAnonymously(a.polls, id, image, ballot.support, ballot.weight),
              ballots := Recorded(a.ballots, id, a.polls.owners[key], ballot))
    ensures Reached(trace + [b], b) && id in a.ballots && a.polls.owners[key] !in a.ballots[id]
  {
    var m := a.polls.owners[key];
    ReachedInv(trace, a);
    MemberFacts(trace, a, m);
    BoxInOrder(trace, a, id);
    RingSignerIsNew(a.polls, a.charter.ring, id, a.ballots[id], key, image);
    VoteStep(a, b.polls, id, m, ballot);
    VoteExplained(a, b, id, m, ballot);
    RunExtends(trace, a, b);
  }

  /** A queue entry always carries the hash of its proposal's call, so that check never refuses. */
  lemma QueuedHashMatches(trace: seq<Snapshot>, s: Snapshot, id: nat)
    requires Reached(trace, s) && id in s.timelock.queue && id in s.polls.proposals
    ensures s.timelock.queue[id].callHash == s.charter.hash(s.polls.proposals[id].call)
  {
    ReachedInv(trace, s);
  }

  lemma QueueRun(trace: seq<Snapshot>, a: Snapshot, b: Snapshot, id: nat, q: Queued, e: Queueing)
    requires Reached(trace, a) && id in a.polls.proposals && !a.polls.proposals[id].executed && id !in a.timelock.queue
    requires e == Queueing(a.now, a.members.totalWeight, a.polls.proposals[id])
    requires Approved(a.charter.config, e.totalWeight, e.proposal, e.ledger) && MatchesQueueing(a.charter.hash, q, e)
    requires b == a.(timelock := a.timelock.(queue := a.timelock.queue[id := q]),
                     log := a.log.(queuedAt := a.log.queuedAt[id := e]))
    ensures Reached(trace + [b], b)
  {
    ReachedInv(trace, a);
    QueueStep(a, id, q, e);
    QueueExplained(a, b, id, e);
    RunExtends(trace, a, b);
  }

  lemma EnableRun(trace: seq<Snapshot>, a: Snapshot, b: Snapshot)
    requires Reached(trace, a) && b == a.(timelock := a.timelock.(enabled := true))
    ensures Reached(trace + [b], b)
  {
    ReachedInv(trace, a);
    EnableStep(a);
    QuietStep(a, b);
    RunExtends(trace, a, b);
  }

  lemma ExecuteRun(trace: seq<Snapshot>, a: Snapshot, b: Snapshot, id: nat)
    requires Reached(trace, a) && id in a.polls.proposals && !a.polls.proposals[id].executed
    requires Approved(a.charter.config, a.members.totalWeight, a.polls.proposals[id], a.now)
    requires Matured(a.timelock, id, a.now)
    requires var x := Execution(a.now, a.polls.proposals[id].call, a.timelock.enabled);
             b == a.(polls := ExecutedPolls(a.polls, id), timelock := Consumed(a.timelock, id),
                     log := a.log.(executions := a.log.executions[id := x]))
    ensures Reached(trace + [b], b) && id !in a.log.executions
  {
    ReachedInv(trace, a);
    ExecuteStep(a, id, b.timelock);
    ExecuteExplained(a, b, id, b.log.executions[id]);
    RunExtends(trace, a, b);
  }

  lemma ShrinkRun(trace: seq<Snapshot>, a: Snapshot, b: Snapshot)
    requires Reached(trace, a) && a.now <= b.now <= U32_MAX && Shrunk(a.polls, b.polls, b.now)
    requires b == a.(now := b.now, polls := b.polls)
    ensures Reached(trace + [b], b)
  {
    ReachedInv(trace, a);
    ShrinkStep(a, b.polls, b.now);
    QuietStep(a, b);
    RunExtends(trace, a, b);
  }

  /** Lock operations touch nothing else. */
  lemma LockRun(trace: seq<Snapshot>, a: Snapshot, b: Snapshot, user: Address)
    requires Reached(trace, a) && b == a.(locks := b.locks) && LockChanges(a.locks, b.locks, a.now, user)
    ensures Reached(trace + [b], b)
  {
    ReachedInv(trace, a);
    EvolvesRefl(a);
    QuietStep(a, b);
    RunExtends(trace, a, b);
  }

  /** What the approval tests of a call say about the ballots counted so far. */
  lemma TestsSayCarried(trace: seq<Snapshot>, s: Snapshot, id: nat)
    requires Reached(trace, s)
    ensures id in s.polls.proposals ==>
              var c, w, p := s.charter.config, s.members.totalWeight, s.polls.proposals[id];
              && (Approved(c, w, p, s.now) <==> Carried(s, id))
              && (RagequitApproved(c, w, p, s.now) <==> w > 0 && Carried(s, id))
  {
    ReachedInv(trace, s);
    if id in s.polls.proposals {
      CarriedExactly(s, id);
    }
  }

  lemma ExitFacts(trace: seq<Snapshot>, s: Snapshot, id: nat, m: Address)
    requires Reached(trace, s)
    ensures s.now <= U32_MAX
    ensures (id, m) in s.members.ragequits ==> m !in s.members.deposits
    ensures m in s.members.deposits ==> 0 < s.members.deposits[m] <= s.members.totalDeposits
  {
    ReachedInv(trace, s);
    if m in s.members.deposits {
      DepositWithinTotal(s.members, s.charter.founders, s.charter.staked, m);
    }
  }

  /**
   The exit of `m` turned `s` into `t` and paid the pro-rata share: at most the balance,
   and leaving no less per remaining deposit than before.
   */
  predicate PaidFairly(s: Members, t: Members, m: Address, balance: nat, paid: nat) {
    && m in s.deposits && 0 < s.deposits[m] <= s.totalDeposits
    && paid == Payout(balance, s.deposits[m], s.totalDeposits) <= balance
    && t.totalDeposits == s.totalDeposits - s.deposits[m]
    && (balance - paid) * s.totalDeposits >= balance * t.totalDeposits
  }

  /** A share the treasury can compute in 128 bits and transfer. */
  predicate Payable(s: Members, m: Address, balance: int, transferable: bool) {
    && m in s.deposits && 0 <= balance && balance * DepositOf(s, m) <= U128_MAX
    && 0 < s.totalDeposits && (Payout(balance, DepositOf(s, m), s.totalDeposits) > 0 ==> transferable)
  }

  lemma DepartureIsFair(s: Members, founders: set<Address>, staked: int, id: nat, m: Address, weight: nat, balance: nat)
    requires MembersOk(s, founders, staked) && m in s.deposits && weight >= FloorSqrt(DepositOf(s, m))
    ensures 0 < s.totalDeposits
    ensures PaidFairly(s, Departed(s, id, m, weight), m, balance, Payout(balance, DepositOf(s, m), s.totalDeposits))
  {
    DepositWithinTotal(s, founders, staked, m);
    ExitIsFair(balance, s.deposits[m], s.totalDeposits);
  }

  /** An exit keeps the run going and is paid fairly. */
  lemma DepartRun(trace: seq<Snapshot>, a: Snapshot, b: Snapshot, id: nat, m: Address, weight: nat, balance: nat)
    requires Reached(trace, a) && m in a.members.deposits && 0 < a.members.deposits[m]
    requires MayExit(a.charter.config, a.members.totalWeight, a.polls, a.now, id, m)
    requires FloorSqrt(DepositOf(a.members, m)) <= weight == MemberWeight(a.members, a.locks, a.now, m)
    requires b == a.(members := Departed(a.members, id, m, weight))
    ensures Reached(trace + [b], b)
    ensures 0 < a.members.totalDeposits
    ensures PaidFairly(a.members, b.members, m, balance,
                       Payout(balance, DepositOf(a.members, m), a.members.totalDeposits))
  {
    ReachedInv(trace, a);
    DepartureIsFair(a.members, a.charter.founders, a.charter.staked, id, m, weight, balance);
    DepartStep(a, id, m, weight);
    ExitExplained(a, b, id, m);
    RunExtends(trace, a, b);
  }
}
