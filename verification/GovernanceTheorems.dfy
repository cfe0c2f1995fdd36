/**
 What governance promises over whole runs. Every theorem speaks about states of the run:
 whoever is counted voted in one of them, whatever executed was approved in one of them.
 */
module GovernanceTheorems {
  import opened Arithmetic
  import opened GovernanceRules
  import opened GovernanceRuns
  import opened GovernanceTimelock
  import opened GovernanceTreasury
  import opened GovernanceVoting
  import opened Prelude
  import opened Sums

  /**
   Approval is final: a proposal that passes the test of `execute` and of the timelock
   after its deadline passes it at every later point of every run where it still
   exists, and the ragequit test agrees unless no weight is left.
   */
  lemma ApprovalPersists(states: seq<Snapshot>, i: nat, j: nat, id: nat)
    requires Run(states) && i <= j < |states|
    requires id in states[i].polls.proposals && id in states[j].polls.proposals
    requires states[i].now > states[i].polls.proposals[id].deadline
    requires var s := states[i]; Approved(s.charter.config, s.members.totalWeight, s.polls.proposals[id], s.now)
    ensures var s := states[j]; Approved(s.charter.config, s.members.totalWeight, s.polls.proposals[id], s.now)
    ensures var s := states[j];
            RagequitApproved(s.charter.config, s.members.totalWeight, s.polls.proposals[id], s.now) ==
            (s.members.totalWeight != 0)
  {
    var a, b := states[i], states[j];
    RunInv(states, i);
    RunEvolves(states, i, j);
    var p, q := a.polls.proposals[id], b.polls.proposals[id];
    assert Matures(p, q, a.now);
    assert PollOk(a.polls, a.charter.ring, a.charter.founders, a.charter.config.votingPeriod, a.now, id, p,
                  a.ballots[id]);
    ApprovalStable(a.charter.config, a.members.totalWeight, p, a.now, b.members.totalWeight, q, b.now);
  }

  /** In state `k` of the run the proposal `id` was executed, with this record. */
  ghost predicate ExecutedIn(states: seq<Snapshot>, k: nat, id: nat, x: Execution) {
    k + 1 < |states| && Executes(states[k], states[k + 1], id) && states[k + 1].log.executions[id] == x
  }

  /** In state `q` of the run the proposal `id` was queued. */
  ghost predicate QueuedIn(states: seq<Snapshot>, q: nat, id: nat) {
    q + 1 < |states| && Queues(states[q], states[q + 1], id)
  }

  /** The delay between two ledgers has passed, up to the end of the ledger range. */
  predicate DelayPassed(from: nat, to: nat) {
    to >= Min(from + 34_560, 4_294_967_295)
  }

  predicate HasExecution(s: Snapshot, id: nat, x: Execution) {
    id in s.log.executions && s.log.executions[id] == x
  }

  predicate HasQueueing(s: Snapshot, id: nat, e: Queueing) {
    id in s.log.queuedAt && s.log.queuedAt[id] == e
  }

  predicate HasBallot(s: Snapshot, id: nat, m: Address, ballot: Ballot) {
    id in s.ballots && m in s.ballots[id] && s.ballots[id][m] == ballot
  }

  lemma NewExecution(states: seq<Snapshot>, k: nat, id: nat, x: Execution)
    requires Run(states) && k + 1 < |states| && !HasExecution(states[k], id, x) && HasExecution(states[k + 1], id, x)
    ensures ExecutedIn(states, k, id, x)
  {
    ExecutionsOrigin(states, k);
    LogOnlyGrows(states, k, k + 1);
    var y := states[k + 1].log.executions[id];
  }

  lemma NewQueueing(states: seq<Snapshot>, k: nat, id: nat, e: Queueing)
    requires Run(states) && k + 1 < |states| && !HasQueueing(states[k], id, e) && HasQueueing(states[k + 1], id, e)
    ensures Queues(states[k], states[k + 1], id)
  {
    QueueingsOrigin(states, k);
    var x := states[k + 1].log.queuedAt[id];
  }

  lemma NewBallot(states: seq<Snapshot>, k: nat, id: nat, m: Address, ballot: Ballot)
    requires Run(states) && k + 1 < |states|
    requires !HasBallot(states[k], id, m, ballot) && HasBallot(states[k + 1], id, m, ballot)
    ensures VotedIn(states, k, id, m, ballot)
  {
    BallotsOrigin(states, k);
    BallotsOnlyGrow(states, k, k + 1);
    var b := states[k + 1].ballots[id][m];
  }

  /** Every execution on record happened in a state of the run. */
  lemma ExecutionHappened(states: seq<Snapshot>, i: nat, j: nat, id: nat) returns (k: nat)
    requires Run(states) && i <= j < |states|
    requires id in states[j].log.executions && id !in states[i].log.executions
    ensures i <= k < j && ExecutedIn(states, k, id, states[j].log.executions[id])
  {
    var x := states[j].log.executions[id];
    k := FirstAppearance(states, (s: Snapshot) => HasExecution(s, id, x), i, j);
    NewExecution(states, k, id, x);
  }

  /** Every queueing on record happened in a state of the run. */
  lemma QueueingHappened(states: seq<Snapshot>, j: nat, id: nat) returns (q: nat)
    requires Run(states) && j < |states| && id in states[j].log.queuedAt
    ensures q < j && QueuedIn(states, q, id) && states[q + 1].log.queuedAt[id] == states[j].log.queuedAt[id]
  {
    var e := states[j].log.queuedAt[id];
    StartsFresh(states);
    q := FirstAppearance(states, (s: Snapshot) => HasQueueing(s, id, e), 0, j);
    NewQueueing(states, q, id, e);
  }

  /** Nothing executes unless the ballots counted in that state carry it. */
  lemma ExecutedCarried(states: seq<Snapshot>, k: nat, id: nat, x: Execution)
    requires Run(states) && ExecutedIn(states, k, id, x)
    ensures Carried(states[k], id)
  {
    RunInv(states, k);
    CarriedExactly(states[k], id);
  }

  /** Nothing is queued unless the ballots counted in that state carry it. */
  lemma QueuedCarried(states: seq<Snapshot>, q: nat, id: nat)
    requires Run(states) && QueuedIn(states, q, id)
    ensures Carried(states[q], id)
  {
    RunInv(states, q);
    CarriedExactly(states[q], id);
  }

  /**
   The timelock promise: once it is on it stays on, and whatever executes afterwards does
   so in a state `k` of the run, approved, after a state `q` of the run in which the same
   call was queued, approved then too, the full delay earlier.
   */
  lemma LaterExecutionsWaited(states: seq<Snapshot>, i: nat, j: nat, id: nat) returns (q: nat, k: nat)
    requires Run(states) && i <= j < |states| && states[i].timelock.enabled
    requires id in states[j].log.executions && id !in states[i].log.executions
    ensures states[j].timelock.enabled
    ensures q < k && i <= k < j
    ensures ExecutedIn(states, k, id, states[j].log.executions[id]) && QueuedIn(states, q, id)
    ensures states[q].polls.proposals[id].call == states[k].polls.proposals[id].call ==
            states[j].log.executions[id].call
    ensures DelayPassed(states[q].now, states[k].now)
  {
    k := ExecutionHappened(states, i, j, id);
    RunEvolves(states, i, k);
    RunEvolves(states, i, j);
    q := QueuedBefore(states, k, id);
  }

  /** Behind a queue entry that has matured there is a queueing the full delay earlier. */
  lemma QueuedBefore(states: seq<Snapshot>, k: nat, id: nat) returns (q: nat)
    requires Run(states) && k < |states| && id in states[k].timelock.queue && id in states[k].polls.proposals
    requires states[k].now >= states[k].timelock.queue[id].executionLedger
    ensures q < k && QueuedIn(states, q, id) && DelayPassed(states[q].now, states[k].now)
    ensures states[q].polls.proposals[id].call == states[k].polls.proposals[id].call
  {
    RunInv(states, k);
    q := QueueingHappened(states, k, id);
    RunEvolves(states, q, k);
  }

  /** An id that has executed never executes again: its record is the only one, for good. */
  lemma ExecutesOnce(states: seq<Snapshot>, i: nat, j: nat, id: nat)
    requires Run(states) && i <= j < |states| && id in states[i].log.executions
    ensures id in states[j].log.executions && states[j].log.executions[id] == states[i].log.executions[id]
    ensures id in states[j].polls.proposals ==> states[j].polls.proposals[id].executed
  {
    RunEvolves(states, i, j);
    RunInv(states, j);
  }

  /** A stake is redeemed at most once over all proposals: whoever left has no deposit again. */
  lemma RedeemedForGood(states: seq<Snapshot>, i: nat, j: nat, m: Address)
    requires Run(states) && i <= j < |states| && m in states[i].members.quarantined
    ensures m in states[j].members.quarantined && m !in states[j].members.deposits
    ensures states[j].members.quarantined[m] == states[i].members.quarantined[m]
  {
    RunEvolves(states, i, j);
    RunInv(states, j);
  }

  /** Stakes are conserved: what is still deposited and what was redeemed add up to the start. */
  lemma StakesConserved(states: seq<Snapshot>, i: nat, j: nat)
    requires Run(states) && i <= j < |states|
    ensures states[i].members.totalDeposits + Sum(states[i].members.quarantined) ==
            states[j].members.totalDeposits + Sum(states[j].members.quarantined)
    ensures states[j].members.totalDeposits == Sum(states[j].members.deposits)
    ensures states[j].members.totalWeight <= states[i].members.totalWeight
  {
    RunEvolves(states, i, j);
    RunInv(states, i);
    RunInv(states, j);
  }

  // ---- exits ----

  /** What the step from `a` to `b` pays out of a treasury: the share of whoever left. */
  function ShareTaken(a: Members, b: Members, balance: nat): nat {
    if a.totalDeposits == 0 then 0 else Payout(balance, SatSub(a.totalDeposits, b.totalDeposits), a.totalDeposits)
  }

  /** The step after state `k` takes no more out of the treasury than an exit is paid. */
  predicate PaysOnlyExits(states: seq<Snapshot>, treasury: seq<nat>, k: nat) {
    k + 1 < |states| && k + 1 < |treasury| &&
    treasury[k + 1] >= treasury[k] - ShareTaken(states[k].members, states[k + 1].members, treasury[k])
  }

  /** From state `i` to state `j` only exits take tokens out of the treasury. */
  ghost predicate OnlyExitsPay(states: seq<Snapshot>, treasury: seq<nat>, i: nat, j: nat) {
    && j < |states| == |treasury|
    && forall k: nat :: i <= k < j ==> PaysOnlyExits(states, treasury, k)
  }

  lemma ShareIsFair(s: Members, t: Members, balance: nat, balance': nat)
    requires t.totalDeposits <= s.totalDeposits && 0 < s.totalDeposits
    requires balance' >= balance - ShareTaken(s, t, balance)
    ensures balance' * s.totalDeposits >= balance * t.totalDeposits
  {
    var left, total := s.totalDeposits - t.totalDeposits, s.totalDeposits;
    if left == 0 {
      DivShift(0, balance * 0, total);
      MulOrder(balance, balance', total);
    } else {
      ExitIsFair(balance, left, total);
      MulOrder(balance - Payout(balance, left, total), balance', total);
    }
  }

  /** The total deposits of a run never rise, and only an exit lowers them. */
  lemma DepositsOnlyExit(states: seq<Snapshot>, k: nat)
    requires Run(states) && k + 1 < |states|
    ensures states[k + 1].members.totalDeposits <= states[k].members.totalDeposits
    ensures states[k + 1].members.totalDeposits < states[k].members.totalDeposits ==>
              var a, b := states[k], states[k + 1]; exists id: nat, m :: Exits(a, b, id, m)
  {
    MembersOrigin(states, k);
  }

  lemma {:induction false} TreasuryPerDeposit(states: seq<Snapshot>, treasury: seq<nat>, i: nat, j: nat, m: Address)
    requires Run(states) && OnlyExitsPay(states, treasury, i, j) && i <= j && m in states[j].members.deposits
    ensures 0 < states[i].members.totalDeposits && 0 < states[j].members.totalDeposits
    ensures treasury[j] * states[i].members.totalDeposits >= treasury[i] * states[j].members.totalDeposits
    decreases j - i
  {
    StakeCounts(states, j, j, m);
    if i < j {
      var h := j - 1;
      StakeCounts(states, h, j, m);
      TreasuryPerDeposit(states, treasury, i, h, m);
      assert PaysOnlyExits(states, treasury, h);
      MoveIsFair(states, treasury, h);
      RatioTrans(treasury[i], states[i].members.totalDeposits, treasury[h], states[h].members.totalDeposits,
                 treasury[j], states[j].members.totalDeposits);
    }
  }

  /** Over one move the treasury per remaining deposit never falls. */
  lemma MoveIsFair(states: seq<Snapshot>, treasury: seq<nat>, k: nat)
    requires Run(states) && PaysOnlyExits(states, treasury, k) && 0 < states[k].members.totalDeposits
    ensures treasury[k + 1] * states[k].members.totalDeposits >= treasury[k] * states[k + 1].members.totalDeposits
  {
    DepositsOnlyExit(states, k);
    ShareIsFair(states[k].members, states[k + 1].members, treasury[k], treasury[k + 1]);
  }

  lemma StakesAddUp(states: seq<Snapshot>, i: nat)
    requires Run(states) && i < |states|
    ensures MembersOk(states[i].members, states[i].charter.founders, states[i].charter.staked)
  {
    RunInv(states, i);
  }

  lemma StakeCounts(states: seq<Snapshot>, i: nat, j: nat, m: Address)
    requires Run(states) && i <= j < |states| && m in states[j].members.deposits
    ensures m in states[i].members.deposits && states[i].members.deposits[m] == states[j].members.deposits[m]
    ensures 0 < states[i].members.deposits[m] <= states[i].members.totalDeposits
  {
    RunEvolves(states, i, j);
    StakesAddUp(states, i);
    DepositWithinTotal(states[i].members, states[i].charter.founders, states[i].charter.staked, m);
  }

  /**
   Whoever waits is never worse off: between two states of a run in which only exits draw
   on the treasury, the share of a member who is still in does not fall.
   */
  lemma LaterExitNeverWorse(states: seq<Snapshot>, treasury: seq<nat>, i: nat, j: nat, m: Address)
    requires Run(states) && OnlyExitsPay(states, treasury, i, j) && i <= j && m in states[j].members.deposits
    ensures 0 < states[i].members.totalDeposits && 0 < states[j].members.totalDeposits
    ensures var d := DepositOf(states[j].members, m);
            Payout(treasury[i], d, states[i].members.totalDeposits) <=
              Payout(treasury[j], d, states[j].members.totalDeposits)
  {
    TreasuryPerDeposit(states, treasury, i, j, m);
    RicherShare(treasury[i], states[i].members.totalDeposits, treasury[j], states[j].members.totalDeposits,
                DepositOf(states[j].members, m));
  }

  /**
   The condition under which one exit leaves `owed` covered also serves for any number of
   exits: what must be covered in the end is measured against the deposits left in the end.
   */
  lemma ExitsLeaveCovered(states: seq<Snapshot>, treasury: seq<nat>, i: nat, j: nat, owed: int)
    requires Run(states) && OnlyExitsPay(states, treasury, i, j) && i <= j
    requires treasury[i] * states[j].members.totalDeposits > (owed - 1) * states[i].members.totalDeposits
    ensures treasury[j] >= owed
  {
    TreasuryOutlasts(states, treasury, i, j);
    CancelOrder(treasury[j], owed - 1, states[i].members.totalDeposits,
                treasury[i] * states[j].members.totalDeposits);
  }

  /** The treasury per deposit never falls, not even when the last member leaves. */
  lemma TreasuryOutlasts(states: seq<Snapshot>, treasury: seq<nat>, i: nat, j: nat)
    requires Run(states) && OnlyExitsPay(states, treasury, i, j) && i <= j
    ensures treasury[j] * states[i].members.totalDeposits >= treasury[i] * states[j].members.totalDeposits
  {
    var deposits := states[j].members.deposits;
    if deposits == map[] {
      StakesAddUp(states, j);
      NothingOwned(treasury[i], treasury[j], states[i].members.totalDeposits, states[j].members.totalDeposits);
    } else {
      var m :| m in deposits;
      TreasuryPerDeposit(states, treasury, i, j, m);
    }
  }

  lemma NothingOwned(b: nat, b': nat, before: nat, after: nat)
    requires after == 0
    ensures b' * before >= b * after
  {
    MulOrder(0, b', before);
  }

  lemma CancelOrder(a: int, b: int, c: nat, ac: int)
    requires a * c >= ac > b * c
    ensures a > b
  {
    if a <= b {
      MulOrder(a, b, c);
    }
  }

  // ---- votes ----

  /** In state `k` of the run `m` voted on `id`, and this is the ballot. */
  ghost predicate VotedIn(states: seq<Snapshot>, k: nat, id: nat, m: Address, ballot: Ballot) {
    k + 1 < |states| && Votes(states[k], states[k + 1], id, m) && states[k + 1].ballots[id][m] == ballot
  }

  /** Every counted ballot was cast in a state of the run, by a member, with the weight of that state. */
  lemma BallotWasCast(states: seq<Snapshot>, j: nat, id: nat, m: Address) returns (k: nat)
    requires Run(states) && j < |states| && id in states[j].ballots && m in states[j].ballots[id]
    ensures k < j && VotedIn(states, k, id, m, states[j].ballots[id][m])
  {
    StartsFresh(states);
    var ballot := states[j].ballots[id][m];
    k := FirstAppearance(states, (s: Snapshot) => HasBallot(s, id, m, ballot), 0, j);
    NewBallot(states, k, id, m, ballot);
  }

  /** What the exit of `m` makes of the membership: the deposit and the weight of the moment go, and no more. */
  predicate Leaves(a: Members, b: Members, id: nat, m: Address, weight: nat) {
    && m in a.deposits && b.deposits == a.deposits - {m}
    && b.totalWeight == (if weight >= a.totalWeight then 0 else a.totalWeight - weight)
    && b.totalDeposits == a.totalDeposits - a.deposits[m]
    && b.quarantined == a.quarantined[m := a.deposits[m]] && b.ragequits == a.ragequits + {(id, m)}
  }

  /**
   Whenever the membership changes in a run, someone leaves over a proposal that is carried
   and not executed, not later than 120,960 ledgers after its deadline, having voted no on it
   under their own name in an earlier state; and they take out exactly their own stake.
   */
  lemma OnlyDissentersLeave(states: seq<Snapshot>, k: nat) returns (id: nat, m: Address, v: nat)
    requires Run(states) && k + 1 < |states| && states[k + 1].members != states[k].members
    ensures Carried(states[k], id) && states[k].members.totalWeight > 0
    ensures !states[k].polls.proposals[id].executed
    ensures states[k].now <= states[k].polls.proposals[id].deadline + 120_960
    ensures v < k && m in states[k].ballots[id]
    ensures VotedIn(states, v, id, m, Ballot(false, states[k].ballots[id][m].weight, false))
    ensures Leaves(states[k].members, states[k + 1].members, id, m,
                   MemberWeight(states[k].members, states[k].locks, states[k].now, m))
  {
    RunInv(states, k);
    id, m := WhoLeft(states, k);
    ExitWasCarried(states[k], states[k + 1], id, m);
    ExitTakes(states[k], states[k + 1], id, m);
    v := NoVoteOf(states, k, id, m);
  }

  lemma WhoLeft(states: seq<Snapshot>, k: nat) returns (id: nat, m: Address)
    requires Run(states) && k + 1 < |states| && states[k + 1].members != states[k].members
    ensures Exits(states[k], states[k + 1], id, m)
  {
    MembersOrigin(states, k);
    id, m :| Exits(states[k], states[k + 1], id, m);
  }

  lemma ExitWasCarried(a: Snapshot, b: Snapshot, id: nat, m: Address)
    requires Inv(a) && Exits(a, b, id, m)
    ensures Carried(a, id) && a.members.totalWeight > 0 && !a.polls.proposals[id].executed
    ensures a.now <= a.polls.proposals[id].deadline + 120_960 && (id, m) in a.polls.dissent
  {
    CarriedExactly(a, id);
  }

  lemma ExitTakes(a: Snapshot, b: Snapshot, id: nat, m: Address)
    requires Inv(a) && Exits(a, b, id, m)
    ensures Leaves(a.members, b.members, id, m, MemberWeight(a.members, a.locks, a.now, m))
  {
    DepositWithinTotal(a.members, a.charter.founders, a.charter.staked, m);
  }

  lemma NoVoteOf(states: seq<Snapshot>, k: nat, id: nat, m: Address) returns (v: nat)
    requires Run(states) && k < |states| && (id, m) in states[k].polls.dissent
    ensures v < k && id in states[k].ballots && m in states[k].ballots[id]
    ensures VotedIn(states, v, id, m, Ballot(false, states[k].ballots[id][m].weight, false))
  {
    RunInv(states, k);
    DissenterVotedNo(states[k], id, m);
    v := BallotWasCast(states, k, id, m);
  }

  lemma DissenterVotedNo(s: Snapshot, id: nat, m: Address)
    requires Inv(s) && (id, m) in s.polls.dissent
    ensures id in s.ballots && m in s.ballots[id] && !s.ballots[id][m].support && !s.ballots[id][m].anonymous
  {
  }

  /** A counted ballot stays counted, unchanged. */
  lemma StillCounted(states: seq<Snapshot>, i: nat, j: nat, id: nat, m: Address)
    requires Run(states) && i <= j < |states| && id in states[i].ballots && m in states[i].ballots[id]
    ensures id in states[j].ballots && m in states[j].ballots[id]
    ensures states[j].ballots[id][m] == states[i].ballots[id][m]
  {
    BallotsOnlyGrow(states, i, j);
    var ballot := states[i].ballots[id][m];
  }

  /** What a counted member meets on an open proposal: the guards of both voting modes. */
  lemma CountedIsGuarded(s: Snapshot, id: nat, m: Address)
    requires Inv(s) && TakesVotes(s.polls, s.now, id) && id in s.ballots && m in s.ballots[id]
    ensures (id, m) in s.polls.voted || (id in s.polls.anonymous && m in s.polls.keys)
    ensures m in s.polls.keys ==>
              (id, m) in s.polls.voted || (id, s.charter.ring.image(id, s.polls.keys[m])) in s.polls.images
  {
    var p, b := s.polls.proposals[id], s.ballots[id];
    assert PollOk(s.polls, s.charter.ring, s.charter.founders, s.charter.config.votingPeriod, s.now, id, p, b);
    assert MarkedOne(s.polls, s.charter.ring, id, m, b[m]);
  }

  /**
   Whoever has voted on a proposal is refused a second vote for as long as it takes votes.
   A guard of the transparent mode refuses them, and so does one of the anonymous mode: their
   key is barred from rings by the open vote, or its image has been used up. So nobody votes
   twice on a proposal in a run.
   */
  lemma VotesOnce(states: seq<Snapshot>, k: nat, l: nat, id: nat, m: Address, ballot: Ballot)
    requires Run(states) && VotedIn(states, k, id, m, ballot) && k < l < |states|
    ensures var s := states[l];
            TakesVotes(s.polls, s.now, id) ==>
              && ((id, m) in s.polls.voted || (id in s.polls.anonymous && m in s.polls.keys))
              && (m in s.polls.keys ==>
                    (id, m) in s.polls.voted || (id, s.charter.ring.image(id, s.polls.keys[m])) in s.polls.images)
    ensures forall other :: !VotedIn(states, l, id, m, other)
  {
    StillCounted(states, k + 1, l, id, m);
    RunInv(states, l);
    if TakesVotes(states[l].polls, states[l].now, id) {
      CountedIsGuarded(states[l], id, m);
    }
  }

  lemma TallyInState(s: Snapshot, id: nat)
    requires Inv(s) && id in s.polls.proposals
    ensures id in s.ballots
    ensures var p, b := s.polls.proposals[id], s.ballots[id];
            && p.yesWeight == Sum(Side(b, true)) && p.noWeight == Sum(Side(b, false))
            && p.yesWeight + p.noWeight == Sum(map a | a in b :: b[a].weight as int)
  {
    var p := s.polls.proposals[id];
    assert PollOk(s.polls, s.charter.ring, s.charter.founders, s.charter.config.votingPeriod, s.now, id, p,
                  s.ballots[id]);
    TallyIsDistinctSum(p, s.ballots[id], s.charter.founders);
  }

  /** Somewhere before state `j` of the run `m` cast this ballot. */
  ghost predicate VotedBefore(states: seq<Snapshot>, j: nat, id: nat, m: Address, ballot: Ballot) {
    exists k: nat :: k < j && VotedIn(states, k, id, m, ballot)
  }

  /**
   No double counting, in any interleaving: in every state of a run the tally of a
   proposal is a sum over distinct members, each of whom voted on it in some state of the
   run (by `VotesOnce` in no other) and counts with the weight they had in that state.
   */
  lemma CountedOnce(states: seq<Snapshot>, j: nat, id: nat)
    requires Run(states) && j < |states| && id in states[j].polls.proposals
    ensures id in states[j].ballots
    ensures var p, b := states[j].polls.proposals[id], states[j].ballots[id];
            && p.yesWeight == Sum(Side(b, true)) && p.noWeight == Sum(Side(b, false))
            && p.yesWeight + p.noWeight == Sum(map a | a in b :: b[a].weight as int)
    ensures var b := states[j].ballots[id];
            forall m :: m in b ==> VotedBefore(states, j, id, m, b[m])
  {
    RunInv(states, j);
    TallyInState(states[j], id);
    forall m | m in states[j].ballots[id] ensures VotedBefore(states, j, id, m, states[j].ballots[id][m]) {
      var k := BallotWasCast(states, j, id, m);
    }
  }

  /**
   Through the whole exit window of a stored proposal, the exit tickets are exactly the
   members who voted no under their own name in some state of the run.
   */
  lemma TicketsAreOpenNoVotes(states: seq<Snapshot>, s: Snapshot, id: nat, m: Address)
    requires Reached(states, s) && id in s.polls.proposals && s.now <= s.polls.proposals[id].deadline + RAGEQUIT_WINDOW
    ensures (id, m) in s.polls.dissent <==>
              exists k: nat, w: nat :: VotedIn(states, k, id, m, Ballot(false, w, false))
  {
    var j := |states| - 1;
    ReachedLast(states, s);
    ReachedInv(states, s);
    if (id, m) in s.polls.dissent {
      var k := BallotWasCast(states, j, id, m);
      assert VotedIn(states, k, id, m, Ballot(false, s.ballots[id][m].weight, false));
    }
    if k: nat, w: nat :| VotedIn(states, k, id, m, Ballot(false, w, false)) {
      NoVoteKeepsTicket(states, s, k, id, m, w);
    }
  }

  lemma NoVoteKeepsTicket(states: seq<Snapshot>, s: Snapshot, k: nat, id: nat, m: Address, w: nat)
    requires Reached(states, s) && id in s.polls.proposals && s.now <= s.polls.proposals[id].deadline + RAGEQUIT_WINDOW
    requires VotedIn(states, k, id, m, Ballot(false, w, false))
    ensures (id, m) in s.polls.dissent
  {
    VoteStillCounted(states, s, k + 1, id, m, Ballot(false, w, false));
    ReachedInv(states, s);
    TicketKept(s, id, m);
  }

  lemma VoteStillCounted(states: seq<Snapshot>, s: Snapshot, k: nat, id: nat, m: Address, ballot: Ballot)
    requires Reached(states, s) && k < |states| && HasBallot(states[k], id, m, ballot)
    ensures HasBallot(s, id, m, ballot)
  {
    var j := |states| - 1;
    ReachedLast(states, s);
    StillCounted(states, k, j, id, m);
  }

  lemma TicketKept(s: Snapshot, id: nat, m: Address)
    requires Inv(s) && id in s.polls.proposals && s.now <= s.polls.proposals[id].deadline + RAGEQUIT_WINDOW
    requires id in s.ballots && m in s.ballots[id] && !s.ballots[id][m].support && !s.ballots[id][m].anonymous
    ensures (id, m) in s.polls.dissent
  {
  }
}
