/**
 Whole runs of governance. A snapshot is everything the contract stores, with the
 history kept beside it; `Inv` is what every reachable snapshot satisfies and
 `Evolves` what every step respects. The theorems follow from these alone, for runs
 of any length.
 */
module GovernanceRuns {
  import opened GovernanceRules
  import opened GovernanceTimelock
  import opened GovernanceTreasury
  import opened GovernanceVoting
  import opened Isqrt
  import opened Prelude
  import opened Sums

  /** What construction fixes for good. */
  datatype Charter = Charter(
    config: Config, ring: RingScheme, hash: Call -> Digest, founders: set<Address>, staked: int)

  datatype Snapshot = Snapshot(
    charter: Charter, now: nat, members: Members, locks: map<Address, VeLock>, polls: Polls, timelock: Timelock,
    ballots: map<nat, Ballots>, log: Log)

  ghost predicate CharterOk(c: Charter) {
    c.config.Valid() && c.ring.Linkable() && |c.founders| <= MAX_MEMBERS
  }

  ghost predicate Inv(s: Snapshot) {
    && CharterOk(s.charter) && s.now <= U32_MAX
    && MembersOk(s.members, s.charter.founders, s.charter.staked)
    && PollsOk(s.polls, s.ballots, s.charter.ring, s.charter.founders, s.charter.config.votingPeriod, s.now)
    && TimelockOk(s.timelock, s.log, s.charter.config, s.charter.hash, s.polls.count, s.polls.proposals, s.now)
  }

  /** A proposal only gathers votes while it is open and unexecuted; the rest never changes. */
  predicate Matures(p: Proposal, q: Proposal, now: nat) {
    && q.proposer == p.proposer && q.call == p.call && q.deadline == p.deadline
    && p.yesWeight <= q.yesWeight && p.noWeight <= q.noWeight
    && (p.executed ==> q.executed)
    && (now > p.deadline || p.executed ==> q.yesWeight == p.yesWeight && q.noWeight == p.noWeight)
  }

  ghost predicate ProposalsEvolve(a: Polls, b: Polls, now: nat) {
    && a.count <= b.count
    && (forall id {:trigger a.proposals[id]} {:trigger b.proposals[id]} ::
          id in a.proposals && id in b.proposals ==> Matures(a.proposals[id], b.proposals[id], now))
    && (forall id {:trigger id in b.proposals} :: id in b.proposals && id <= a.count ==> id in a.proposals)
  }

  /** Counted ballots are never withdrawn or altered. */
  ghost predicate BallotsGrow(a: map<nat, Ballots>, b: map<nat, Ballots>) {
    forall id, m {:trigger a[id][m]} :: id in a && m in a[id] ==> id in b && m in b[id] && b[id][m] == a[id][m]
  }

  /** Stakes only leave, and what has left stays out. */
  ghost predicate MembersShrink(a: Members, b: Members) {
    && b.totalWeight <= a.totalWeight
    && (forall m :: m in b.deposits ==> m in a.deposits && b.deposits[m] == a.deposits[m])
    && (forall m :: m in a.quarantined ==> m in b.quarantined && b.quarantined[m] == a.quarantined[m])
  }

  /** The log only grows, and what is executed with the timelock on is marked so. */
  ghost predicate LogGrows(a: Timelock, la: Log, b: Timelock, lb: Log) {
    && (a.enabled ==> b.enabled)
    && (forall id :: id in la.executions ==> id in lb.executions && lb.executions[id] == la.executions[id])
    && (a.enabled ==> forall id :: id in lb.executions && id !in la.executions ==> lb.executions[id].timelocked)
  }

  ghost predicate Evolves(a: Snapshot, b: Snapshot) {
    && a.charter == b.charter && a.now <= b.now
    && MembersShrink(a.members, b.members)
    && ProposalsEvolve(a.polls, b.polls, a.now)
    && BallotsGrow(a.ballots, b.ballots)
    && LogGrows(a.timelock, a.log, b.timelock, b.log)
  }

  // ---- chains of states ----

  function At<S>(states: seq<S>, i: nat): S
    requires i < |states|
  {
    states[i]
  }

  /** States that satisfy `ok`, each related by `step` to the next. */
  ghost predicate Chain<S>(states: seq<S>, ok: S -> bool, step: (S, S) -> bool) {
    forall i: nat {:trigger At(states, i)} :: i < |states| ==>
      ok(At(states, i)) && (i + 1 < |states| ==> step(states[i], states[i + 1]))
  }

  lemma ChainAt<S(!new)>(states: seq<S>, ok: S -> bool, step: (S, S) -> bool, i: nat)
    requires Chain(states, ok, step) && i < |states|
    ensures ok(states[i]) && (i + 1 < |states| ==> step(states[i], states[i + 1]))
  {
    var s := At(states, i);
  }

  ghost predicate Preorder<S(!new)>(ok: S -> bool, step: (S, S) -> bool) {
    && (forall a :: step(a, a))
    && (forall a, b, c {:trigger step(a, b), step(b, c)} :: ok(a) && step(a, b) && step(b, c) ==> step(a, c))
  }

  lemma {:induction false} ChainRelates<S(!new)>(
    states: seq<S>, ok: S -> bool, step: (S, S) -> bool, i: nat, j: nat)
    requires Chain(states, ok, step) && Preorder(ok, step) && i <= j < |states|
    ensures step(states[i], states[j])
    decreases j - i
  {
    if i < j {
      ChainRelates(states, ok, step, i, j - 1);
      ChainAt(states, ok, step, i);
      ChainAt(states, ok, step, j - 1);
    }
  }

  lemma ChainWeakens<S(!new)>(states: seq<S>, ok: S -> bool, step: (S, S) -> bool, weaker: (S, S) -> bool)
    requires Chain(states, ok, step) && forall a, b {:trigger step(a, b)} :: step(a, b) ==> weaker(a, b)
    ensures Chain(states, ok, weaker)
  {
    forall i: nat | i < |states|
      ensures ok(At(states, i)) && (i + 1 < |states| ==> weaker(states[i], states[i + 1]))
    {
      ChainAt(states, ok, step, i);
    }
  }

  lemma ChainExtends<S(!new)>(states: seq<S>, ok: S -> bool, step: (S, S) -> bool, s: S)
    requires Chain(states, ok, step) && states != [] && ok(s) && step(states[|states| - 1], s)
    ensures Chain(states + [s], ok, step)
  {
    var longer := states + [s];
    forall i: nat | i < |longer|
      ensures ok(At(longer, i)) && (i + 1 < |longer| ==> step(longer[i], longer[i + 1]))
    {
      if i < |states| {
        ChainAt(states, ok, step, i);
      }
    }
  }

  /** If something holds at `j` and not at `i`, some step in between brought it about. */
  lemma {:induction false} FirstAppearance<S>(states: seq<S>, has: S -> bool, i: nat, j: nat) returns (k: nat)
    requires i <= j < |states| && !has(states[i]) && has(states[j])
    ensures i <= k < j && !has(states[k]) && has(states[k + 1])
    decreases j - i
  {
    if has(states[i + 1]) {
      k := i;
    } else {
      k := FirstAppearance(states, has, i + 1, j);
    }
  }

  // ---- where records come from ----

  /** The step from `a` to `b` is the vote of `m` on `id`, counted with the weight `m` has in `a`. */
  ghost predicate Votes(a: Snapshot, b: Snapshot, id: nat, m: Address) {
    && TakesVotes(a.polls, a.now, id) && m in a.members.deposits
    && id in a.ballots && m !in a.ballots[id] && id in b.ballots && m in b.ballots[id]
    && b.ballots[id][m].weight == MemberWeight(a.members, a.locks, a.now, m)
    && CastBy(a.charter.ring, a.polls, b.polls, id, m, b.ballots[id][m])
  }

  /** The polls changed by this ballot, in the mode it was cast in, past that mode's duplicate guard. */
  predicate CastBy(ring: RingScheme, s: Polls, t: Polls, id: nat, m: Address, ballot: Ballot)
    requires id in s.proposals
  {
    if ballot.anonymous then
      && m in s.keys && (id, ring.image(id, s.keys[m])) !in s.images
      && t == CastAnonymously(s, id, ring.image(id, s.keys[m]), ballot.support, ballot.weight)
    else
      (id, m) !in s.voted && t == CastOpenly(s, id, m, ballot.support, ballot.weight)
  }

  /** The step from `a` to `b` queues `id`, which is approved in `a`. */
  ghost predicate Queues(a: Snapshot, b: Snapshot, id: nat) {
    && id in a.polls.proposals && !a.polls.proposals[id].executed
    && id !in a.timelock.queue && id in b.timelock.queue && id in b.log.queuedAt
    && b.log.queuedAt[id] == Queueing(a.now, a.members.totalWeight, a.polls.proposals[id])
    && Approved(a.charter.config, a.members.totalWeight, a.polls.proposals[id], a.now)
  }

  /** The step from `a` to `b` executes `id`, which is approved and past the timelock gate in `a`. */
  ghost predicate Executes(a: Snapshot, b: Snapshot, id: nat) {
    && id in a.polls.proposals && !a.polls.proposals[id].executed
    && b.polls == ExecutedPolls(a.polls, id) && b.timelock == Consumed(a.timelock, id) && id in b.log.executions
    && b.log.executions[id] == Execution(a.now, a.polls.proposals[id].call, a.timelock.enabled)
    && Approved(a.charter.config, a.members.totalWeight, a.polls.proposals[id], a.now)
    && Matured(a.timelock, id, a.now)
  }

  /** A dissenter of an approved, unexecuted proposal within its exit window. */
  predicate MayExit(c: Config, totalWeight: nat, s: Polls, now: nat, id: nat, m: Address) {
    && id in s.proposals && !s.proposals[id].executed && (id, m) in s.dissent
    && RagequitApproved(c, totalWeight, s.proposals[id], now)
    && now <= s.proposals[id].deadline + RAGEQUIT_WINDOW
  }

  /** The step from `a` to `b` is the exit of `m` over `id`, giving up the weight `m` has in `a`. */
  ghost predicate Exits(a: Snapshot, b: Snapshot, id: nat, m: Address) {
    && MayExit(a.charter.config, a.members.totalWeight, a.polls, a.now, id, m)
    && m in a.members.deposits && a.members.deposits[m] >= 0
    && b.members == Departed(a.members, id, m, MemberWeight(a.members, a.locks, a.now, m))
  }

  ghost predicate MembersExplained(a: Snapshot, b: Snapshot) {
    b.members == a.members || exists id: nat, m :: Exits(a, b, id, m)
  }

  /** The lock of `user` is created at ledger `now` within the limits, or taken back after it has expired. */
  ghost predicate LockChanges(a: map<Address, VeLock>, b: map<Address, VeLock>, now: nat, user: Address) {
    if user in a then
      now >= a[user].unlockLedger && b == a - {user}
    else
      && user in b && b == a[user := b[user]]
      && b[user].startLedger == now && 0 < b[user].amount <= I128_MAX
      && MIN_LOCK_LEDGERS <= b[user].unlockLedger - now <= MAX_LOCK_LEDGERS
  }

  /** Locks change one at a time, and nothing else changes with them. */
  ghost predicate LocksExplained(a: Snapshot, b: Snapshot) {
    || b.locks == a.locks
    || (b == a.(locks := b.locks) && exists user :: LockChanges(a.locks, b.locks, a.now, user))
  }

  ghost predicate BallotsExplained(a: Snapshot, b: Snapshot) {
    forall id, m {:trigger b.ballots[id][m]} ::
      id in b.ballots && m in b.ballots[id] && !(id in a.ballots && m in a.ballots[id]) ==> Votes(a, b, id, m)
  }

  ghost predicate QueueingsExplained(a: Snapshot, b: Snapshot) {
    forall id {:trigger b.log.queuedAt[id]} ::
      id in b.log.queuedAt && !(id in a.log.queuedAt && a.log.queuedAt[id] == b.log.queuedAt[id]) ==> Queues(a, b, id)
  }

  ghost predicate ExecutionsExplained(a: Snapshot, b: Snapshot) {
    forall id {:trigger b.log.executions[id]} ::
      id in b.log.executions && id !in a.log.executions ==> Executes(a, b, id)
  }

  /** Every record that is new in `b` was written by this step, from what `a` stores. */
  ghost predicate Explained(a: Snapshot, b: Snapshot) {
    && BallotsExplained(a, b) && QueueingsExplained(a, b) && ExecutionsExplained(a, b) && MembersExplained(a, b)
    && LocksExplained(a, b)
  }

  ghost predicate Moves(a: Snapshot, b: Snapshot) {
    Evolves(a, b) && Explained(a, b)
  }

  /** A body nobody has used yet. */
  ghost predicate Fresh(s: Snapshot) {
    && s.polls == NO_POLLS && s.timelock == Timelock(false, map[]) && s.locks == map[]
    && s.ballots == map[] && s.log == Log(map[], map[])
    && s.members.quarantined == map[] && s.members.totalWeight == Sum(BaseWeights(s.members.deposits))
  }

  /** A run: from a fresh body on, invariant snapshots, each a move away from the one before. */
  ghost predicate Run(states: seq<Snapshot>) {
    && Chain(states, (s: Snapshot) => Inv(s), (a: Snapshot, b: Snapshot) => Moves(a, b))
    && (forall i: nat {:trigger At(states, i)} :: i == 0 && i < |states| ==> Fresh(states[i]))
  }

  lemma ProposalsEvolveTrans(a: Polls, b: Polls, c: Polls, now: nat, later: nat)
    requires ProposalsEvolve(a, b, now) && ProposalsEvolve(b, c, later) && now <= later
    requires forall id :: id in a.proposals ==> id <= a.count
    ensures ProposalsEvolve(a, c, now)
  {
    forall id | id in a.proposals && id in c.proposals ensures Matures(a.proposals[id], c.proposals[id], now) {
      assert id in b.proposals;
      assert Matures(a.proposals[id], b.proposals[id], now);
      assert Matures(b.proposals[id], c.proposals[id], later);
    }
  }

  lemma BallotsGrowTrans(a: map<nat, Ballots>, b: map<nat, Ballots>, c: map<nat, Ballots>)
    requires BallotsGrow(a, b) && BallotsGrow(b, c)
    ensures BallotsGrow(a, c)
  {
    forall id, m | id in a && m in a[id] ensures id in c && m in c[id] && c[id][m] == a[id][m] {
      assert b[id][m] == a[id][m];
    }
  }

  lemma EvolvesTrans(a: Snapshot, b: Snapshot, c: Snapshot)
    requires Inv(a) && Evolves(a, b) && Evolves(b, c)
    ensures Evolves(a, c)
  {
    forall id | id in a.polls.proposals ensures id <= a.polls.count {
      assert a.polls.proposals[id] == a.polls.proposals[id];
    }
    ProposalsEvolveTrans(a.polls, b.polls, c.polls, a.now, b.now);
    BallotsGrowTrans(a.ballots, b.ballots, c.ballots);
  }

  lemma EvolvesRefl(a: Snapshot)
    ensures Evolves(a, a)
  {
  }

  lemma EvolvesIsPreorder()
    ensures Preorder((s: Snapshot) => Inv(s), (a: Snapshot, b: Snapshot) => Evolves(a, b))
  {
    forall a ensures Evolves(a, a) {
      EvolvesRefl(a);
    }
    forall a, b, c | Inv(a) && Evolves(a, b) && Evolves(b, c) ensures Evolves(a, c) {
      EvolvesTrans(a, b, c);
    }
  }

  lemma RunChain(states: seq<Snapshot>)
    requires Run(states)
    ensures Chain(states, (s: Snapshot) => Inv(s), (a: Snapshot, b: Snapshot) => Evolves(a, b))
  {
    ChainWeakens(states, (s: Snapshot) => Inv(s), (a: Snapshot, b: Snapshot) => Moves(a, b),
                 (a: Snapshot, b: Snapshot) => Evolves(a, b));
  }

  /** Over any number of steps, a run only evolves. */
  lemma RunEvolves(states: seq<Snapshot>, i: nat, j: nat)
    requires Run(states) && i <= j < |states|
    ensures Evolves(states[i], states[j])
  {
    EvolvesIsPreorder();
    RunChain(states);
    ChainRelates(states, (s: Snapshot) => Inv(s), (a: Snapshot, b: Snapshot) => Evolves(a, b), i, j);
  }

  /** One step of a run. */
  lemma RunMoves(states: seq<Snapshot>, k: nat)
    requires Run(states) && k + 1 < |states|
    ensures Moves(states[k], states[k + 1])
  {
    ChainAt(states, (s: Snapshot) => Inv(s), (a: Snapshot, b: Snapshot) => Moves(a, b), k);
  }

  lemma RunInv(states: seq<Snapshot>, k: nat)
    requires Run(states) && k < |states|
    ensures Inv(states[k])
  {
    ChainAt(states, (s: Snapshot) => Inv(s), (a: Snapshot, b: Snapshot) => Moves(a, b), k);
  }

  lemma StartsFresh(states: seq<Snapshot>)
    requires Run(states) && states != []
    ensures Fresh(states[0])
  {
    var s := At(states, 0);
  }

  // Where the new records of one step of a run come from.

  lemma BallotsOrigin(states: seq<Snapshot>, k: nat)
    requires Run(states) && k + 1 < |states|
    ensures BallotsExplained(states[k], states[k + 1])
  {
    RunMoves(states, k);
  }

  lemma QueueingsOrigin(states: seq<Snapshot>, k: nat)
    requires Run(states) && k + 1 < |states|
    ensures QueueingsExplained(states[k], states[k + 1])
  {
    RunMoves(states, k);
  }

  lemma ExecutionsOrigin(states: seq<Snapshot>, k: nat)
    requires Run(states) && k + 1 < |states|
    ensures ExecutionsExplained(states[k], states[k + 1])
  {
    RunMoves(states, k);
  }

  lemma MembersOrigin(states: seq<Snapshot>, k: nat)
    requires Run(states) && k + 1 < |states|
    ensures MembersExplained(states[k], states[k + 1])
  {
    RunMoves(states, k);
  }

  lemma BallotsOnlyGrow(states: seq<Snapshot>, i: nat, j: nat)
    requires Run(states) && i <= j < |states|
    ensures BallotsGrow(states[i].ballots, states[j].ballots)
  {
    RunEvolves(states, i, j);
  }

  lemma LogOnlyGrows(states: seq<Snapshot>, i: nat, j: nat)
    requires Run(states) && i <= j < |states|
    ensures LogGrows(states[i].timelock, states[i].log, states[j].timelock, states[j].log)
  {
    RunEvolves(states, i, j);
  }

  /** A run whose last snapshot is `s`. */
  ghost predicate Reached(states: seq<Snapshot>, s: Snapshot) {
    && states != [] && Run(states)
    && (forall i: nat {:trigger At(states, i)} :: i == |states| - 1 ==> states[i] == s)
  }

  lemma ReachedLast(states: seq<Snapshot>, s: Snapshot)
    requires Reached(states, s)
    ensures states[|states| - 1] == s
  {
    var last := At(states, |states| - 1);
  }

  lemma ReachedInv(states: seq<Snapshot>, s: Snapshot)
    requires Reached(states, s)
    ensures Inv(s)
  {
    var last := |states| - 1;
    ReachedLast(states, s);
    RunInv(states, last);
  }

  lemma RunStarts(s: Snapshot)
    requires Inv(s) && Fresh(s)
    ensures Reached([s], s)
  {
  }

  lemma RunExtends(states: seq<Snapshot>, a: Snapshot, b: Snapshot)
    requires Reached(states, a) && Step(a, b) && Explained(a, b)
    ensures Reached(states + [b], b)
  {
    ReachedLast(states, a);
    StartsFresh(states);
    ChainExtends(states, (s: Snapshot) => Inv(s), (a: Snapshot, b: Snapshot) => Moves(a, b), b);
  }

  // ---- what approval says about ballots ----

  /** In `s` the ballots cast on `id` carry it: see `Clears`. */
  ghost predicate Carried(s: Snapshot, id: nat) {
    && id in s.polls.proposals && id in s.ballots && s.charter.config.votingPeriod <= s.polls.proposals[id].deadline
    && Clears(Sum(Side(s.ballots[id], true)), Sum(Side(s.ballots[id], false)), s.members.totalWeight,
              s.charter.config.thresholdBps, s.charter.config.votingPeriod,
              s.polls.proposals[id].deadline - s.charter.config.votingPeriod, s.now)
  }

  /** The approval tests hold exactly of the proposals their ballots carry. */
  lemma CarriedExactly(s: Snapshot, id: nat)
    requires Inv(s) && id in s.polls.proposals
    ensures var c, w, p := s.charter.config, s.members.totalWeight, s.polls.proposals[id];
            && (Approved(c, w, p, s.now) <==> Carried(s, id))
            && (RagequitApproved(c, w, p, s.now) <==> w > 0 && Carried(s, id))
  {
    PollFacts(s, id);
    CarriedByTests(s, id, s.charter.config, s.members.totalWeight, s.polls.proposals[id]);
  }

  lemma CarriedByTests(s: Snapshot, id: nat, c: Config, w: nat, p: Proposal)
    requires id in s.polls.proposals && p == s.polls.proposals[id]
    requires c == s.charter.config && w == s.members.totalWeight
    requires id in s.ballots && c.Valid() && c.votingPeriod <= p.deadline <= s.now + c.votingPeriod
    requires p.yesWeight == Sum(Side(s.ballots[id], true)) && p.noWeight == Sum(Side(s.ballots[id], false))
    ensures Approved(c, w, p, s.now) <==> Carried(s, id)
    ensures RagequitApproved(c, w, p, s.now) <==> w > 0 && Carried(s, id)
  {
    ApprovedMeans(c, w, p, s.now);
    CarriedByTallies(s, id, c, p);
  }

  lemma PollFacts(s: Snapshot, id: nat)
    requires Inv(s) && id in s.polls.proposals
    ensures var p, period := s.polls.proposals[id], s.charter.config.votingPeriod;
            && id in s.ballots && s.charter.config.Valid() && period <= p.deadline <= s.now + period
            && p.yesWeight == Sum(Side(s.ballots[id], true)) && p.noWeight == Sum(Side(s.ballots[id], false))
  {
    var p := s.polls.proposals[id];
    assert PollOk(s.polls, s.charter.ring, s.charter.founders, s.charter.config.votingPeriod, s.now, id, p,
                  s.ballots[id]);
  }

  lemma CarriedByTallies(s: Snapshot, id: nat, c: Config, p: Proposal)
    requires id in s.polls.proposals && p == s.polls.proposals[id] && c == s.charter.config
    requires id in s.ballots && c.votingPeriod <= p.deadline
    requires p.yesWeight == Sum(Side(s.ballots[id], true)) && p.noWeight == Sum(Side(s.ballots[id], false))
    ensures Carried(s, id) <==>
            Clears(p.yesWeight, p.noWeight, s.members.totalWeight, c.thresholdBps, c.votingPeriod,
                   p.deadline - c.votingPeriod, s.now)
  {
  }

  // ---- explaining steps ----

  /** A step that records nothing. */
  lemma QuietStep(a: Snapshot, b: Snapshot)
    requires b.ballots == a.ballots && b.log == a.log && b.members == a.members
    requires LocksExplained(a, b)
    ensures Explained(a, b)
  {
  }

  lemma ExitExplained(a: Snapshot, b: Snapshot, id: nat, m: Address)
    requires b.ballots == a.ballots && b.log == a.log && b.locks == a.locks && Exits(a, b, id, m)
    ensures Explained(a, b)
  {
  }

  lemma OpenExplained(a: Snapshot, b: Snapshot, id: nat)
    requires b.ballots == a.ballots[id := map[]] && b.log == a.log && b.locks == a.locks && b.members == a.members
    ensures Explained(a, b)
  {
  }

  lemma VoteExplained(a: Snapshot, b: Snapshot, id: nat, m: Address, ballot: Ballot)
    requires id in a.ballots && b.ballots == Recorded(a.ballots, id, m, ballot)
    requires b.log == a.log && b.locks == a.locks && b.members == a.members
    requires Votes(a, b, id, m)
    ensures Explained(a, b)
  {
  }

  lemma QueueExplained(a: Snapshot, b: Snapshot, id: nat, e: Queueing)
    requires b.ballots == a.ballots && b.log == a.log.(queuedAt := a.log.queuedAt[id := e])
    requires b.locks == a.locks && b.members == a.members
    requires Queues(a, b, id)
    ensures Explained(a, b)
  {
  }

  lemma ExecuteExplained(a: Snapshot, b: Snapshot, id: nat, x: Execution)
    requires b.ballots == a.ballots && b.log == a.log.(executions := a.log.executions[id := x])
    requires b.locks == a.locks && b.members == a.members
    requires Executes(a, b, id)
    ensures Explained(a, b)
  {
  }

  // ---- what each operation does to a snapshot ----

  /** A step keeps the invariant and evolves. */
  ghost predicate Step(a: Snapshot, b: Snapshot) {
    Inv(b) && Evolves(a, b)
  }

  /** Steps that touch only the polls; the rest of the snapshot trivially evolves. */
  lemma PollsStep(a: Snapshot, t: Polls, bs: map<nat, Ballots>)
    requires Inv(a)
    requires PollsOk(t, bs, a.charter.ring, a.charter.founders, a.charter.config.votingPeriod, a.now)
    requires TimelockOk(a.timelock, a.log, a.charter.config, a.charter.hash, t.count, t.proposals, a.now)
    requires ProposalsEvolve(a.polls, t, a.now) && BallotsGrow(a.ballots, bs)
    ensures Step(a, a.(polls := t, ballots := bs))
  {
  }

  lemma OpenStep(a: Snapshot, t: Polls, id: nat, p: Proposal)
    requires Inv(a) && Opens(a.polls, t, id, p) && p.deadline == a.now + a.charter.config.votingPeriod <= U32_MAX
    ensures Step(a, a.(polls := t, ballots := a.ballots[id := map[]]))
  {
    var c, bs := a.charter, a.ballots[id := map[]];
    OpenKeepsPolls(a.polls, t, a.ballots, c.ring, c.founders, c.config.votingPeriod, a.now, id, p);
    OpenEvolves(a.polls, t, a.ballots, c.ring, c.founders, c.config.votingPeriod, a.now, id, p);
    OpenKeepsTimelock(a.timelock, a.log, c.config, c.hash, a.polls, t, a.now, id, p);
    PollsStep(a, t, bs);
  }

  lemma OpenEvolves(
    s: Polls, t: Polls, ballots: map<nat, Ballots>, ring: RingScheme, founders: set<Address>, period: nat, now: nat,
    id: nat, p: Proposal)
    requires PollsOk(s, ballots, ring, founders, period, now) && Opens(s, t, id, p)
    ensures ProposalsEvolve(s, t, now)
    ensures BallotsGrow(ballots, ballots[id := map[]])
  {
    IdsKnown(s, ballots, ring, founders, period, now);
  }

  lemma OpenKeepsTimelock(
    t: Timelock, log: Log, c: Config, hash: Call -> Digest, s: Polls, s': Polls, now: nat, id: nat, p: Proposal)
    requires TimelockOk(t, log, c, hash, s.count, s.proposals, now) && Opens(s, s', id, p)
    ensures TimelockOk(t, log, c, hash, s'.count, s'.proposals, now)
  {
    ProposalsKeepTimelock(t, log, c, hash, s.count, s.proposals, now, s'.count, s'.proposals, now);
  }

  lemma KeyStep(a: Snapshot, m: Address, k: VotingKey)
    requires Inv(a) && m !in a.polls.keys && k !in a.polls.owners
    ensures Step(a, a.(polls := WithKey(a.polls, m, k)))
  {
    KeyKeepsPolls(a.polls, a.ballots, a.charter.ring, a.charter.founders, a.charter.config.votingPeriod, a.now, m, k);
  }

  lemma VoteStep(a: Snapshot, t: Polls, id: nat, m: Address, ballot: Ballot)
    requires Inv(a) && Casts(a.polls, t, a.charter.ring, id, m, ballot) && id in a.ballots
    requires !a.polls.proposals[id].executed && a.now <= a.polls.proposals[id].deadline
    requires m in a.charter.founders && m !in a.ballots[id] && 0 < ballot.weight <= U32_MAX
    ensures Step(a, a.(polls := t, ballots := Recorded(a.ballots, id, m, ballot)))
  {
    var c := a.charter;
    IdsKnown(a.polls, a.ballots, c.ring, c.founders, c.config.votingPeriod, a.now);
    VoteKeepsPolls(a.polls, t, a.ballots, c.ring, c.founders, c.config.votingPeriod, a.now, id, m, ballot);
    VoteEvolves(a.polls, t, a.ballots, c.ring, c.founders, c.config.votingPeriod, a.now, id, m, ballot);
    VoteKeepsTimelock(a.timelock, a.log, c.config, c.hash, a.polls, t, c.ring, a.now, id, m, ballot);
    PollsStep(a, t, Recorded(a.ballots, id, m, ballot));
  }

  lemma VoteEvolves(
    s: Polls, t: Polls, ballots: map<nat, Ballots>, ring: RingScheme, founders: set<Address>, period: nat, now: nat,
    id: nat, m: Address, ballot: Ballot)
    requires PollsOk(s, ballots, ring, founders, period, now) && |founders| <= MAX_MEMBERS
    requires Casts(s, t, ring, id, m, ballot) && m in founders && m !in ballots[id] && 0 < ballot.weight <= U32_MAX
    requires !s.proposals[id].executed && now <= s.proposals[id].deadline
    ensures ProposalsEvolve(s, t, now)
    ensures BallotsGrow(ballots, Recorded(ballots, id, m, ballot))
  {
    var p := s.proposals[id];
    assert PollOk(s, ring, founders, period, now, id, p, ballots[id]);
    CountedAfterVote(p, ballots[id], founders, m, ballot);
    assert Matures(p, t.proposals[id], now);
  }

  lemma VoteKeepsTimelock(
    t: Timelock, log: Log, c: Config, hash: Call -> Digest, s: Polls, s': Polls, ring: RingScheme, now: nat,
    id: nat, m: Address, ballot: Ballot)
    requires TimelockOk(t, log, c, hash, s.count, s.proposals, now) && Casts(s, s', ring, id, m, ballot)
    requires forall i :: i in s.proposals ==> i <= s.count
    ensures TimelockOk(t, log, c, hash, s'.count, s'.proposals, now)
  {
    ProposalsKeepTimelock(t, log, c, hash, s.count, s.proposals, now, s'.count, s'.proposals, now);
  }

  /** Steps that touch the polls and the timelock but no member and no ballot. */
  lemma TimelockStep(a: Snapshot, s: Polls, t: Timelock, log: Log)
    requires Inv(a)
    requires PollsOk(s, a.ballots, a.charter.ring, a.charter.founders, a.charter.config.votingPeriod, a.now)
    requires TimelockOk(t, log, a.charter.config, a.charter.hash, s.count, s.proposals, a.now)
    requires ProposalsEvolve(a.polls, s, a.now) && LogGrows(a.timelock, a.log, t, log)
    ensures Step(a, a.(polls := s, timelock := t, log := log))
  {
  }

  lemma QueueStep(a: Snapshot, id: nat, q: Queued, e: Queueing)
    requires Inv(a) && id in a.polls.proposals && !a.polls.proposals[id].executed
    requires e == Queueing(a.now, a.members.totalWeight, a.polls.proposals[id])
    requires Approved(a.charter.config, e.totalWeight, e.proposal, e.ledger) && MatchesQueueing(a.charter.hash, q, e)
    ensures Step(a, a.(timelock := a.timelock.(queue := a.timelock.queue[id := q]),
                       log := a.log.(queuedAt := a.log.queuedAt[id := e])))
  {
    var c := a.charter;
    IdsKnown(a.polls, a.ballots, c.ring, c.founders, c.config.votingPeriod, a.now);
    QueueKeepsTimelock(a.timelock, a.log, c.config, c.hash, a.polls.count, a.polls.proposals, a.now, id, q, e);
    SamePolls(a.polls, a.now);
    TimelockStep(a, a.polls, a.timelock.(queue := a.timelock.queue[id := q]),
                 a.log.(queuedAt := a.log.queuedAt[id := e]));
  }

  lemma SamePolls(s: Polls, now: nat)
    ensures ProposalsEvolve(s, s, now)
  {
  }

  lemma EnableStep(a: Snapshot)
    requires Inv(a)
    ensures Step(a, a.(timelock := a.timelock.(enabled := true)))
  {
    SamePolls(a.polls, a.now);
    EnableKeepsTimelock(a.timelock, a.log, a.charter.config, a.charter.hash, a.polls.count, a.polls.proposals, a.now);
    TimelockStep(a, a.polls, a.timelock.(enabled := true), a.log);
  }

  lemma EnableKeepsTimelock(
    t: Timelock, log: Log, c: Config, hash: Call -> Digest, count: nat, proposals: map<nat, Proposal>, now: nat)
    requires TimelockOk(t, log, c, hash, count, proposals, now)
    ensures TimelockOk(t.(enabled := true), log, c, hash, count, proposals, now)
    ensures LogGrows(t, log, t.(enabled := true), log)
  {
  }

  lemma ExecuteKeepsPolls(
    s: Polls, ballots: map<nat, Ballots>, ring: RingScheme, founders: set<Address>, period: nat, now: nat, id: nat)
    requires PollsOk(s, ballots, ring, founders, period, now) && id in s.proposals
    ensures PollsOk(ExecutedPolls(s, id), ballots, ring, founders, period, now)
  {
    var t := ExecutedPolls(s, id);
    forall i | i in t.proposals ensures PollOk(t, ring, founders, period, now, i, t.proposals[i], ballots[i]) {
      PollGrows(s, t, ring, founders, period, now, i, s.proposals[i], ballots[i]);
    }
  }

  lemma ExecuteStep(a: Snapshot, id: nat, t: Timelock)
    requires Inv(a) && id in a.polls.proposals && !a.polls.proposals[id].executed
    requires a.timelock.enabled ==> id in a.timelock.queue && a.now >= a.timelock.queue[id].executionLedger
    requires t == if a.timelock.enabled then a.timelock.(queue := a.timelock.queue - {id}) else a.timelock
    ensures var x := Execution(a.now, a.polls.proposals[id].call, a.timelock.enabled);
            && id !in a.log.executions
            && Step(a, a.(polls := ExecutedPolls(a.polls, id), timelock := t,
                          log := a.log.(executions := a.log.executions[id := x])))
  {
    var p := a.polls.proposals[id];
    assert PollOk(a.polls, a.charter.ring, a.charter.founders, a.charter.config.votingPeriod, a.now, id, p,
                  a.ballots[id]);
    ExecuteKeepsPolls(a.polls, a.ballots, a.charter.ring, a.charter.founders, a.charter.config.votingPeriod, a.now, id);
    ExecuteKeepsTimelock(a.timelock, a.log, a.charter.config, a.charter.hash, a.polls.count, a.polls.proposals, a.now,
                         id, t);
    var x := Execution(a.now, p.call, a.timelock.enabled);
    ExecuteEvolves(a.polls, a.timelock, a.log, a.now, id, t, x);
    TimelockStep(a, ExecutedPolls(a.polls, id), t, a.log.(executions := a.log.executions[id := x]));
  }

  lemma ExecuteEvolves(s: Polls, t: Timelock, log: Log, now: nat, id: nat, t': Timelock, x: Execution)
    requires id in s.proposals && id !in log.executions && t'.enabled == t.enabled == x.timelocked
    ensures ProposalsEvolve(s, ExecutedPolls(s, id), now)
    ensures LogGrows(t, log, t', log.(executions := log.executions[id := x]))
  {
  }

  lemma DepartStep(a: Snapshot, id: nat, m: Address, weight: nat)
    requires Inv(a) && m in a.members.deposits && weight >= FloorSqrt(DepositOf(a.members, m))
    ensures Step(a, a.(members := Departed(a.members, id, m, weight)))
  {
    DepartureKeepsMembers(a.members, a.charter.founders, a.charter.staked, id, m, weight);
    DepartureShrinks(a.members, id, m, weight);
    MembersStep(a, Departed(a.members, id, m, weight));
  }

  lemma DepartureShrinks(s: Members, id: nat, m: Address, weight: nat)
    requires m in s.deposits && 0 <= s.deposits[m] && m !in s.quarantined
    ensures MembersShrink(s, Departed(s, id, m, weight))
  {
  }

  lemma MembersStep(a: Snapshot, s: Members)
    requires Inv(a) && MembersOk(s, a.charter.founders, a.charter.staked) && MembersShrink(a.members, s)
    ensures Step(a, a.(members := s))
  {
  }

  /** Pruning, and the host dropping markers nobody needs any more, only shrink the box. */
  ghost predicate Shrunk(s: Polls, t: Polls, later: nat) {
    && t.count == s.count && t.keys == s.keys && t.owners == s.owners
    && t.proposals.Keys <= s.proposals.Keys && (forall id :: id in t.proposals ==> t.proposals[id] == s.proposals[id])
    && t.voted <= s.voted && t.dissent <= s.dissent && t.anonymous <= s.anonymous && t.images <= s.images
    && (forall id {:trigger t.proposals[id]} :: id in t.proposals && later <= t.proposals[id].deadline ==>
          && (id in s.anonymous ==> id in t.anonymous)
          && (forall m :: (id, m) in s.voted ==> (id, m) in t.voted)
          && (forall k :: (id, k) in s.images ==> (id, k) in t.images))
    && (forall id {:trigger t.proposals[id]} ::
          id in t.proposals && later <= t.proposals[id].deadline + RAGEQUIT_WINDOW ==>
            forall m :: (id, m) in s.dissent ==> (id, m) in t.dissent)
  }

  lemma ShrinkKeepsPoll(
    s: Polls, t: Polls, ring: RingScheme, founders: set<Address>, period: nat, now: nat, later: nat,
    id: nat, p: Proposal, b: Ballots)
    requires PollOk(s, ring, founders, period, now, id, p, b) && now <= later && Shrunk(s, t, later)
    requires id in t.proposals && t.proposals[id] == p
    ensures PollOk(t, ring, founders, period, later, id, p, b)
  {
    if later <= p.deadline {
      forall m | m in b ensures MarkedOne(t, ring, id, m, b[m]) {
        assert MarkedOne(s, ring, id, m, b[m]);
      }
    }
  }

  lemma ShrinkKeepsPolls(
    s: Polls, t: Polls, ballots: map<nat, Ballots>, ring: RingScheme, founders: set<Address>, period: nat,
    now: nat, later: nat)
    requires PollsOk(s, ballots, ring, founders, period, now) && now <= later && Shrunk(s, t, later)
    ensures PollsOk(t, ballots, ring, founders, period, later)
  {
    forall id | id in t.proposals ensures PollOk(t, ring, founders, period, later, id, t.proposals[id], ballots[id]) {
      ShrinkKeepsPoll(s, t, ring, founders, period, now, later, id, s.proposals[id], ballots[id]);
    }
  }

  lemma ShrinkStep(a: Snapshot, t: Polls, later: nat)
    requires Inv(a) && a.now <= later <= U32_MAX && Shrunk(a.polls, t, later)
    ensures Step(a, a.(now := later, polls := t))
  {
    ShrinkKeepsPolls(a.polls, t, a.ballots, a.charter.ring, a.charter.founders, a.charter.config.votingPeriod, a.now,
                     later);
    forall id | id in a.polls.proposals ensures id <= a.polls.count {
      assert a.polls.proposals[id] == a.polls.proposals[id];
    }
    ProposalsKeepTimelock(a.timelock, a.log, a.charter.config, a.charter.hash, a.polls.count, a.polls.proposals, a.now,
                          t.count, t.proposals, later);
  }
}
