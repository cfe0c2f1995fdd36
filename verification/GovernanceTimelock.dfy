/**
 The execution timelock: the queue of approved proposals, and a log of queueings
 and executions that ties every timelocked execution to the queueing that preceded it.
 */
module GovernanceTimelock {
  import opened GovernanceRules
  import opened Prelude

  type Digest = seq<byte>

  datatype Queued = Queued(callHash: Digest, executionLedger: nat)

  datatype Timelock = Timelock(enabled: bool, queue: map<nat, Queued>)

  /** A queueing as it happened: the ledger, the quorum base and the proposal approved. */
  datatype Queueing = Queueing(ledger: nat, totalWeight: nat, proposal: Proposal)

  /** An execution as it happened; `timelocked` tells whether the timelock was on. */
  datatype Execution = Execution(ledger: nat, call: Call, timelocked: bool)

  datatype Log = Log(queuedAt: map<nat, Queueing>, executions: map<nat, Execution>)

  predicate MatchesQueueing(hash: Call -> Digest, q: Queued, e: Queueing) {
    && q.callHash == hash(e.proposal.call)
    && q.executionLedger == SatAdd(e.ledger, TIMELOCK_DELAY_LEDGERS, U32_MAX)
  }

  /** The gate in front of every execution. */
  predicate Matured(t: Timelock, id: nat, now: nat) {
    t.enabled ==> id in t.queue && now >= t.queue[id].executionLedger
  }

  function Consumed(t: Timelock, id: nat): Timelock {
    if t.enabled then t.(queue := t.queue - {id}) else t
  }

  /** The execution waited out the delay after an approved queueing of the very same call. */
  predicate Waited(c: Config, x: Execution, e: Queueing) {
    && Approved(c, e.totalWeight, e.proposal, e.ledger)
    && e.proposal.call == x.call
    && x.ledger >= SatAdd(e.ledger, TIMELOCK_DELAY_LEDGERS, U32_MAX)
  }

  ghost predicate TimelockOk(
    t: Timelock, log: Log, c: Config, hash: Call -> Digest, count: nat, proposals: map<nat, Proposal>, now: nat)
  {
    && (forall id :: id in t.queue ==> id in log.queuedAt && MatchesQueueing(hash, t.queue[id], log.queuedAt[id]))
    && (forall id :: id in log.queuedAt ==>
          && id <= count
          && log.queuedAt[id].ledger <= now
          && Approved(c, log.queuedAt[id].totalWeight, log.queuedAt[id].proposal, log.queuedAt[id].ledger))
    && (forall id :: id in log.queuedAt && id in proposals ==> proposals[id].call == log.queuedAt[id].proposal.call)
    && (forall id :: id in log.executions ==> id <= count && log.executions[id].ledger <= now)
    && (forall id :: id in proposals ==> (proposals[id].executed <==> id in log.executions))
    && (forall id :: id in log.executions && log.executions[id].timelocked ==>
          id in log.queuedAt && Waited(c, log.executions[id], log.queuedAt[id]))
  }

  /** New or changed tallies, and pruned proposals, do not concern the timelock. */
  lemma ProposalsKeepTimelock(
    t: Timelock, log: Log, c: Config, hash: Call -> Digest, count: nat, proposals: map<nat, Proposal>, now: nat,
    count': nat, proposals': map<nat, Proposal>, now': nat)
    requires TimelockOk(t, log, c, hash, count, proposals, now) && count <= count' && now <= now'
    requires forall id :: id in proposals' && id <= count ==>
               && id in proposals
               && proposals'[id].call == proposals[id].call
               && proposals'[id].executed == proposals[id].executed
    requires forall id :: id in proposals' && id > count ==> !proposals'[id].executed
    ensures TimelockOk(t, log, c, hash, count', proposals', now')
  {
  }

  lemma QueueKeepsTimelock(
    t: Timelock, log: Log, c: Config, hash: Call -> Digest, count: nat, proposals: map<nat, Proposal>, now: nat,
    id: nat, q: Queued, e: Queueing)
    requires TimelockOk(t, log, c, hash, count, proposals, now)
    requires id in proposals && id <= count && !proposals[id].executed
    requires e.proposal == proposals[id] && e.ledger == now && Approved(c, e.totalWeight, e.proposal, now)
    requires MatchesQueueing(hash, q, e)
    ensures TimelockOk(t.(queue := t.queue[id := q]), log.(queuedAt := log.queuedAt[id := e]), c, hash, count,
                       proposals, now)
  {
  }

  /**
   An execution that passed the gate keeps the books, consumes its queue entry, and
   was waited for when the timelock is on.
   */
  lemma ExecuteKeepsTimelock(
    t: Timelock, log: Log, c: Config, hash: Call -> Digest, count: nat, proposals: map<nat, Proposal>, now: nat,
    id: nat, t': Timelock)
    requires TimelockOk(t, log, c, hash, count, proposals, now)
    requires id in proposals && id <= count && !proposals[id].executed
    requires t.enabled ==> id in t.queue && now >= t.queue[id].executionLedger
    requires t' == if t.enabled then t.(queue := t.queue - {id}) else t
    ensures var x := Execution(now, proposals[id].call, t.enabled);
            && TimelockOk(t', log.(executions := log.executions[id := x]), c, hash, count,
                          proposals[id := proposals[id].(executed := true)], now)
            && id !in log.executions
            && (t.enabled ==> id in log.queuedAt && Waited(c, x, log.queuedAt[id]))
  {
  }
}
