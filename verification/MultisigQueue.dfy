/**
 The timelock queue of the multisig account, with approvals that expire after
 fourteen days. Proves that the recorded approvals of an entry are exactly its
 distinct approvers, that an entry executes only on fresh approvals, and that no
 record outlives its entry. These are functions used inside the contract, not entry
 points: an error returned to their caller does not undo the pruning done before it.
 */
module MultisigQueue {
  import opened Prelude
  import opened MultisigSigners

  const APPROVAL_TTL_SECONDS: nat := 1_209_600

  datatype QueuedTransaction = QueuedTransaction(
    callHash: seq<byte>, executionLedger: nat, approvalCount: nat, requiredApprovals: nat,
    guardian: Address, approvers: seq<Address>)

  /** Approval timestamps, by queue id and signer. */
  type Approvals = map<(nat, Address), nat>

  predicate IsStale(now: nat, createdAt: nat) {
    SatSub(now, createdAt) >= APPROVAL_TTL_SECONDS
  }

  /** A recorded approval younger than the limit. */
  predicate IsFresh(approvals: Approvals, id: nat, signer: Address, now: nat) {
    (id, signer) in approvals && !IsStale(now, approvals[(id, signer)])
  }

  function FreshApprovers(approvals: Approvals, id: nat, approvers: seq<Address>, now: nat): seq<Address> {
    if approvers == [] then []
    else
      var init, last := FreshApprovers(approvals, id, approvers[..|approvers| - 1], now), approvers[|approvers| - 1];
      if IsFresh(approvals, id, last, now) then init + [last] else init
  }

  function Keys(id: nat, signers: seq<Address>): set<(nat, Address)> {
    set i | 0 <= i < |signers| :: (id, signers[i])
  }

  function StaleKeys(approvals: Approvals, id: nat, approvers: seq<Address>, now: nat): set<(nat, Address)> {
    set i | 0 <= i < |approvers| && !IsFresh(approvals, id, approvers[i], now) :: (id, approvers[i])
  }

  /** The records of `id` are exactly those of `signers`. */
  ghost predicate RecordsOf(approvals: Approvals, id: nat, signers: seq<Address>) {
    forall a {:trigger (id, a) in approvals} {:trigger a in signers} :: (id, a) in approvals <==> a in signers
  }

  /** The records of every other entry are untouched. */
  ghost predicate OthersKept(before: Approvals, after: Approvals, id: nat) {
    forall other: nat, a {:trigger (other, a) in after} {:trigger (other, a) in before} :: other != id ==>
      && ((other, a) in after <==> (other, a) in before)
      && ((other, a) in after ==> after[(other, a)] == before[(other, a)])
  }

  function ApproversOf(queue: map<nat, QueuedTransaction>, id: nat): seq<Address> {
    if id in queue then queue[id].approvers else []
  }

  ghost predicate EntryOk(q: QueuedTransaction) {
    NoDuplicates(q.approvers) && q.approvalCount == |q.approvers|
  }

  /** The queue invariant; an id without an entry has no records. */
  ghost predicate Consistent(queue: map<nat, QueuedTransaction>, approvals: Approvals, count: nat) {
    && (forall id :: id in queue ==> id <= count && EntryOk(queue[id]))
    && (forall id {:trigger ApproversOf(queue, id)} :: RecordsOf(approvals, id, ApproversOf(queue, id)))
  }

  // ---- pruning ----

  lemma {:induction false} FreshMembers(approvals: Approvals, id: nat, approvers: seq<Address>, now: nat)
    ensures var fresh_ := FreshApprovers(approvals, id, approvers, now);
            && (forall a :: a in fresh_ <==> a in approvers && IsFresh(approvals, id, a, now))
            && |fresh_| <= |approvers| && (|fresh_| == |approvers| ==> fresh_ == approvers)
            && (NoDuplicates(approvers) ==> NoDuplicates(fresh_))
  {
    if approvers != [] {
      var k := |approvers| - 1;
      FreshMembers(approvals, id, approvers[..k], now);
      assert approvers == approvers[..k] + [approvers[k]];
      assert NoDuplicates(approvers) ==> approvers[k] !in approvers[..k];
    }
  }

  /** Approvers whose recorded approval is less than fourteen days old. */
  function YoungApprovers(approvals: Approvals, id: nat, approvers: seq<Address>, now: nat): set<Address> {
    set a | a in approvers && (id, a) in approvals && now - approvals[(id, a)] < 1_209_600
  }

  lemma {:induction false} DistinctCount(s: seq<Address>)
    requires NoDuplicates(s)
    ensures |set a | a in s| == |s|
  {
    if s != [] {
      var k := |s| - 1;
      DistinctCount(s[..k]);
      assert s == s[..k] + [s[k]];
      assert (set a | a in s) == (set a | a in s[..k]) + {s[k]};
    }
  }

  /** The approvals that count are those of the last fourteen days. */
  lemma FreshCount(approvals: Approvals, id: nat, approvers: seq<Address>, now: nat)
    requires NoDuplicates(approvers)
    ensures |FreshApprovers(approvals, id, approvers, now)| == |YoungApprovers(approvals, id, approvers, now)|
    ensures forall a :: IsFresh(approvals, id, a, now) && a in approvers <==>
              a in YoungApprovers(approvals, id, approvers, now)
  {
    var kept := FreshApprovers(approvals, id, approvers, now);
    FreshMembers(approvals, id, approvers, now);
    DistinctCount(kept);
    assert (set a | a in kept) == YoungApprovers(approvals, id, approvers, now);
  }

  /** The pruning loop: the fresh approvers, how many were dropped, and the records left. */
  method PruneStaleApprovals(approvals: Approvals, id: nat, approvers: seq<Address>, now: nat)
    returns (kept: seq<Address>, removed: nat, left: Approvals)
    ensures kept == FreshApprovers(approvals, id, approvers, now)
    ensures removed + |kept| == |approvers|
    ensures left == approvals - StaleKeys(approvals, id, approvers, now)
  {
    kept, removed, left := [], 0, approvals;
    for i := 0 to |approvers|
      invariant kept == FreshApprovers(approvals, id, approvers[..i], now) && removed + |kept| == i
      invariant left == approvals - StaleKeys(approvals, id, approvers[..i], now)
    {
      assert approvers[..i + 1][..i] == approvers[..i];
      StaleStep(approvals, id, approvers, i, now);
      // A record dropped earlier in the loop was stale, so this reads the original record or none.
      var fresh_ := (id, approvers[i]) in left && !IsStale(now, left[(id, approvers[i])]);
      assert fresh_ <==> IsFresh(approvals, id, approvers[i], now) by {
        StaleLookup(approvals, id, approvers[..i], now, approvers[i]);
      }
      if fresh_ {
        kept := kept + [approvers[i]];
      } else {
        left := left - {(id, approvers[i])};
        removed := removed + 1;
      }
    }
    assert approvers[..|approvers|] == approvers;
  }

  lemma StaleLookup(approvals: Approvals, id: nat, prefix: seq<Address>, now: nat, a: Address)
    ensures (id, a) in StaleKeys(approvals, id, prefix, now) ==> !IsFresh(approvals, id, a, now)
  {
  }

  lemma StaleStep(approvals: Approvals, id: nat, approvers: seq<Address>, i: nat, now: nat)
    requires i < |approvers|
    ensures StaleKeys(approvals, id, approvers[..i + 1], now) ==
            StaleKeys(approvals, id, approvers[..i], now) +
            if IsFresh(approvals, id, approvers[i], now) then {} else {(id, approvers[i])}
  {
    var longer, shorter := approvers[..i + 1], approvers[..i];
    assert longer[i] == approvers[i] && forall k :: 0 <= k < i ==> longer[k] == shorter[k];
    var x, y := StaleKeys(approvals, id, longer, now), StaleKeys(approvals, id, shorter, now);
    forall k | k in y ensures k in x {
      var j :| 0 <= j < i && !IsFresh(approvals, id, shorter[j], now) && k == (id, shorter[j]);
      assert longer[j] == shorter[j];
    }
  }

  method ClearApprovals(approvals: Approvals, id: nat, approvers: seq<Address>) returns (left: Approvals)
    ensures left == approvals - Keys(id, approvers)
  {
    left := approvals;
    for i := 0 to |approvers|
      invariant left == approvals - Keys(id, approvers[..i])
    {
      assert Keys(id, approvers[..i + 1]) == Keys(id, approvers[..i]) + {(id, approvers[i])} by {
        assert approvers[..i + 1][i] == approvers[i];
        assert forall k :: 0 <= k < i ==> approvers[..i + 1][k] == approvers[..i][k];
        forall x | x in Keys(id, approvers[..i]) ensures x in Keys(id, approvers[..i + 1]) {
          var j :| 0 <= j < i && x == (id, approvers[..i][j]);
          assert approvers[..i + 1][j] == approvers[..i][j];
        }
      }
      left := left - {(id, approvers[i])};
    }
    assert approvers[..|approvers|] == approvers;
  }

  // ---- keeping the invariant ----

  /** Replacing one entry together with its records. */
  lemma ConsistentAfterUpdate(queue: map<nat, QueuedTransaction>, approvals: Approvals, count: nat,
                              id: nat, q: QueuedTransaction, after: Approvals, newCount: nat)
    requires Consistent(queue, approvals, count) && id <= newCount && count <= newCount && EntryOk(q)
    requires RecordsOf(after, id, q.approvers)
    requires OthersKept(approvals, after, id)
    ensures Consistent(queue[id := q], after, newCount)
  {
    var next := queue[id := q];
    forall other ensures RecordsOf(after, other, ApproversOf(next, other)) {
      if other != id {
        assert RecordsOf(approvals, other, ApproversOf(queue, other));
        assert ApproversOf(next, other) == ApproversOf(queue, other);
        forall a ensures (other, a) in after <==> a in ApproversOf(queue, other) {
          assert (other, a) in after <==> (other, a) in approvals;
        }
      }
    }
  }

  lemma ConsistentAfterRemoval(
    queue: map<nat, QueuedTransaction>, approvals: Approvals, count: nat, id: nat, after: Approvals)
    requires Consistent(queue, approvals, count) && RecordsOf(after, id, [])
    requires OthersKept(approvals, after, id)
    ensures Consistent(queue - {id}, after, count)
  {
    forall other ensures RecordsOf(after, other, ApproversOf(queue - {id}, other)) {
      if other != id {
        assert RecordsOf(approvals, other, ApproversOf(queue, other));
        assert ApproversOf(queue - {id}, other) == ApproversOf(queue, other);
        forall a ensures (other, a) in after <==> a in ApproversOf(queue, other) {
          assert (other, a) in after <==> (other, a) in approvals;
        }
      }
    }
  }

  /** Pruned records are exactly those of the fresh approvers. */
  lemma RecordsAfterPrune(approvals: Approvals, id: nat, approvers: seq<Address>, now: nat)
    requires RecordsOf(approvals, id, approvers)
    ensures var left := approvals - StaleKeys(approvals, id, approvers, now);
            && RecordsOf(left, id, FreshApprovers(approvals, id, approvers, now))
            && OthersKept(approvals, left, id)
            && (forall k :: k in left ==> left[k] == approvals[k])
  {
    FreshMembers(approvals, id, approvers, now);
    var left := approvals - StaleKeys(approvals, id, approvers, now);
    forall a ensures (id, a) in left <==> a in FreshApprovers(approvals, id, approvers, now) {
      StaleLookup(approvals, id, approvers, now, a);
      if a in approvers && !IsFresh(approvals, id, a, now) {
        var i :| 0 <= i < |approvers| && approvers[i] == a;
        assert (id, approvers[i]) in StaleKeys(approvals, id, approvers, now);
      }
    }
  }

  lemma RecordsAfterApproval(approvals: Approvals, id: nat, approvers: seq<Address>, signer: Address, now: nat)
    requires RecordsOf(approvals, id, approvers)
    ensures RecordsOf(approvals[(id, signer) := now], id, approvers + [signer])
    ensures OthersKept(approvals, approvals[(id, signer) := now], id)
  {
  }

  lemma RecordsAfterClear(approvals: Approvals, id: nat, approvers: seq<Address>)
    requires RecordsOf(approvals, id, approvers)
    ensures RecordsOf(approvals - Keys(id, approvers), id, [])
    ensures OthersKept(approvals, approvals - Keys(id, approvers), id)
  {
    forall a ensures (id, a) !in approvals - Keys(id, approvers) {
      if a in approvers {
        var i :| 0 <= i < |approvers| && approvers[i] == a;
        assert (id, approvers[i]) in Keys(id, approvers);
      }
    }
  }

  /** An entry with only its fresh approvals left. */
  function Pruned(approvals: Approvals, id: nat, q: QueuedTransaction, now: nat): QueuedTransaction {
    var kept := FreshApprovers(approvals, id, q.approvers, now);
    q.(approvers := kept, approvalCount := |kept|)
  }

  class TimelockQueue {
    var queue: map<nat, QueuedTransaction>
    var approvals: Approvals
    var count: nat

    ghost predicate Valid()
      reads this
    {
      Consistent(queue, approvals, count)
    }

    constructor ()
      ensures Valid() && queue == map[] && approvals == map[] && count == 0
    {
      queue, approvals, count := map[], map[], 0;
    }

    /** Queue a call; the new id has never been used. */
    method QueueTransaction(callHash: seq<byte>, ledger: nat, delay: nat, required: nat, guardian: Address)
      returns (id: nat)
      requires Valid()
      modifies this`queue, this`count
      ensures Valid()
      ensures id == old(count) + 1 == count && id !in old(queue)
      ensures queue == old(queue)[id := QueuedTransaction(callHash, SatAdd(ledger, delay, U32_MAX), 0, required,
                                                          guardian, [])]
    {
      id := count + 1;
      var q := QueuedTransaction(callHash, SatAdd(ledger, delay, U32_MAX), 0, required, guardian, []);
      assert RecordsOf(approvals, id, ApproversOf(queue, id));
      ConsistentAfterUpdate(queue, approvals, count, id, q, approvals, id);
      queue := queue[id := q];
      count := id;
    }

    /** Drop the expired approvals of one entry, in storage and in the entry. */
    method Prune(id: nat, now: nat) returns (removed: nat)
      requires Valid() && id in queue
      modifies this`queue, this`approvals
      ensures Valid()
      ensures queue == old(queue)[id := Pruned(old(approvals), id, old(queue)[id], now)]
      ensures OthersKept(old(approvals), approvals, id)
      ensures forall k :: k in approvals ==> k in old(approvals) && approvals[k] == old(approvals)[k]
      ensures removed + |queue[id].approvers| == |old(queue)[id].approvers|
      ensures forall a :: a in queue[id].approvers ==>
                IsFresh(old(approvals), id, a, now) && IsFresh(approvals, id, a, now)
    {
      var q := queue[id];
      assert RecordsOf(approvals, id, ApproversOf(queue, id));
      RecordsAfterPrune(approvals, id, q.approvers, now);
      FreshMembers(approvals, id, q.approvers, now);
      var kept, dropped, left := PruneStaleApprovals(approvals, id, q.approvers, now);
      ConsistentAfterUpdate(queue, approvals, count, id, q.(approvers := kept, approvalCount := |kept|), left, count);
      removed := dropped;
      approvals := left;
      if removed > 0 {
        queue := queue[id := q.(approvers := kept, approvalCount := |kept|)];
      } else {
        assert queue[id := q] == queue;
      }
      forall a | a in queue[id].approvers ensures IsFresh(approvals, id, a, now) {
        assert (id, a) in approvals;
      }
    }

    /**
     Approve: expired approvals are dropped first, so an expired approval never
     blocks its signer; a fresh one does. The pruning stays even when the vote is refused.
     */
    method ApproveQueuedTransaction(id: nat, signer: Address, now: nat) returns (r: Result<(), Error>)
      requires Valid()
      modifies this`queue, this`approvals
      ensures Valid()
      ensures r == if id !in old(queue) then Err(ProposalNotFound)
                   else if signer in old(queue)[id].approvers && IsFresh(old(approvals), id, signer, now) then
                     Err(AlreadyVoted)
                   else Ok(())
      ensures r == Err(AlreadyVoted) <==>
                id in old(queue) && signer in YoungApprovers(old(approvals), id, old(queue)[id].approvers, now)
      ensures r == Err(ProposalNotFound) ==> unchanged(this)
      ensures id in old(queue) ==>
                var pruned := Pruned(old(approvals), id, old(queue)[id], now);
                var approved := pruned.(approvers := pruned.approvers + [signer],
                                        approvalCount := |pruned.approvers| + 1);
                queue == old(queue)[id := if r.Ok? then approved else pruned]
      ensures r.Ok? ==> (id, signer) in approvals && approvals[(id, signer)] == now
      ensures OthersKept(old(approvals), approvals, id)
    {
      if id !in queue {
        return Err(ProposalNotFound);
      }
      FreshMembers(approvals, id, queue[id].approvers, now);
      var removed := Prune(id, now);
      var q := queue[id];
      if signer in q.approvers {
        return Err(AlreadyVoted);
      }
      RecordApproval(id, signer, now);
      r := Ok(());
    }

    /** Record a first approval of a signer, stamped with the current time. */
    method RecordApproval(id: nat, signer: Address, now: nat)
      requires Valid() && id in queue && signer !in queue[id].approvers
      modifies this`queue, this`approvals
      ensures Valid()
      ensures queue == old(queue)[id := old(queue)[id].(approvers := old(queue)[id].approvers + [signer],
                                                        approvalCount := |old(queue)[id].approvers| + 1)]
      ensures approvals == old(approvals)[(id, signer) := now]
    {
      var q := queue[id];
      var next := q.(approvers := q.approvers + [signer], approvalCount := |q.approvers| + 1);
      assert RecordsOf(approvals, id, ApproversOf(queue, id));
      RecordsAfterApproval(approvals, id, q.approvers, signer, now);
      ConsistentAfterUpdate(queue, approvals, count, id, next, approvals[(id, signer) := now], count);
      approvals := approvals[(id, signer) := now];
      queue := queue[id := next];
    }

    /**
     Execute: the entry is consumed only while unpaused, at or after its ledger, with
     enough approvals younger than fourteen days. A shortfall keeps the pruned entry.
     */
    method ExecuteQueuedTransaction(id: nat, ledger: nat, now: nat, paused: bool) returns (r: Result<(), Error>)
      requires Valid()
      modifies this`queue, this`approvals
      ensures Valid()
      ensures r == if paused then Err(Paused)
                   else if id !in old(queue) then Err(ProposalNotFound)
                   else if ledger < old(queue)[id].executionLedger then Err(TimelockNotExpired)
                   else
                     var kept := FreshApprovers(old(approvals), id, old(queue)[id].approvers, now);
                     if |kept| >= old(queue)[id].requiredApprovals then Ok(())
                     else if |kept| < |old(queue)[id].approvers| then Err(StaleSignature)
                     else Err(InsufficientSignatures)
      ensures r.Ok? <==>
                && !paused && id in old(queue) && ledger >= old(queue)[id].executionLedger
                && |YoungApprovers(old(approvals), id, old(queue)[id].approvers, now)| >=
                   old(queue)[id].requiredApprovals
      ensures r.Ok? ==> queue == old(queue) - {id} && forall a :: (id, a) !in approvals
      ensures r.Err? && r.error in {Paused, ProposalNotFound, TimelockNotExpired} ==> unchanged(this)
      ensures r.Err? && r.error in {StaleSignature, InsufficientSignatures} ==>
                queue == old(queue)[id := Pruned(old(approvals), id, old(queue)[id], now)]
      ensures OthersKept(old(approvals), approvals, id)
    {
      if paused {
        return Err(Paused);
      }
      if id !in queue {
        return Err(ProposalNotFound);
      }
      if ledger < queue[id].executionLedger {
        return Err(TimelockNotExpired);
      }
      FreshCount(approvals, id, queue[id].approvers, now);
      var removed := Prune(id, now);
      var q := queue[id];
      if q.approvalCount < q.requiredApprovals {
        return if removed > 0 then Err(StaleSignature) else Err(InsufficientSignatures);
      }
      Consume(id);
      r := Ok(());
    }

    /** Remove an entry and every record of it. */
    method Consume(id: nat)
      requires Valid() && id in queue
      modifies this`queue, this`approvals
      ensures Valid()
      ensures queue == old(queue) - {id} && forall a :: (id, a) !in approvals
      ensures OthersKept(old(approvals), approvals, id)
    {
      assert RecordsOf(approvals, id, ApproversOf(queue, id));
      RecordsAfterClear(approvals, id, queue[id].approvers);
      var left := ClearApprovals(approvals, id, queue[id].approvers);
      ConsistentAfterRemoval(queue, approvals, count, id, left);
      approvals := left;
      queue := queue - {id};
      assert RecordsOf(approvals, id, []);
    }

    /** Cancel during the delay: only the guardian or a registered signer. */
    method CancelQueuedTransaction(id: nat, caller: Address, ledger: nat, isSigner: bool) returns (r: Result<(), Error>)
      requires Valid()
      modifies this`queue, this`approvals
      ensures Valid()
      ensures r == if id !in old(queue) then Err(ProposalNotFound)
                   else if ledger >= old(queue)[id].executionLedger then Err(TimelockNotExpired)
                   else if caller != old(queue)[id].guardian && !isSigner then Err(Unauthorized)
                   else Ok(())
      ensures r.Err? ==> unchanged(this)
      ensures r.Ok? ==> queue == old(queue) - {id} && forall a :: (id, a) !in approvals
      ensures OthersKept(old(approvals), approvals, id)
    {
      if id !in queue {
        return Err(ProposalNotFound);
      }
      if ledger >= queue[id].executionLedger {
        return Err(TimelockNotExpired);
      }
      if caller != queue[id].guardian && !isSigner {
        return Err(Unauthorized);
      }
      Consume(id);
      r := Ok(());
    }
  }
}
