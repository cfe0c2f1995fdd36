/**
 The vote escrow: one time-locked balance per account. A lock can only be taken
 back once it has expired, and the escrow always holds exactly the live locks.
 */
module VoteEscrow {
  import opened GovernanceRules
  import opened Prelude
  import opened Sums

  datatype Error =
    | TokenNotConfigured
    | TokenAlreadySet
    | InvalidAmount
    | LockTooShort
    | LockTooLong
    | AlreadyLocked
    | NoLock
    | LockNotExpired
    /** The token contract refused the transfer, which undoes the whole call. */
    | TokenTransferTrapped

  /** One withdrawal: who took which lock back, and when. */
  datatype Withdrawal = Withdrawal(user: Address, lock: VeLock, ledger: nat)

  function Amounts(locks: map<Address, VeLock>): map<Address, int> {
    map user | user in locks :: locks[user].amount
  }

  ghost predicate LockOk(l: VeLock) {
    && 0 < l.amount <= I128_MAX
    && MIN_LOCK_LEDGERS <= l.unlockLedger - l.startLedger <= MAX_LOCK_LEDGERS
  }

  /** Everything a history of withdrawals paid out. */
  ghost function PaidOut(history: seq<Withdrawal>): int {
    if history == [] then 0
    else PaidOut(history[..|history| - 1]) + history[|history| - 1].lock.amount
  }

  /** The books of the escrow: it holds the live locks, and nothing was ever paid early. */
  ghost predicate Conserved(locks: map<Address, VeLock>, lockedIn: int, history: seq<Withdrawal>) {
    && lockedIn - PaidOut(history) == Sum(Amounts(locks))
    && (forall i :: 0 <= i < |history| ==> history[i].ledger >= history[i].lock.unlockLedger)
  }

  lemma ConservedAfterLock(
    locks: map<Address, VeLock>, lockedIn: int, history: seq<Withdrawal>, user: Address, l: VeLock)
    requires Conserved(locks, lockedIn, history) && user !in locks
    ensures Conserved(locks[user := l], lockedIn + l.amount, history)
  {
    assert Amounts(locks[user := l]) == Amounts(locks)[user := l.amount];
    SumUpdate(Amounts(locks), user, l.amount);
  }

  lemma ConservedAfterWithdrawal(
    locks: map<Address, VeLock>, lockedIn: int, history: seq<Withdrawal>, user: Address, now: nat)
    requires Conserved(locks, lockedIn, history) && user in locks && now >= locks[user].unlockLedger
    requires forall u :: u in locks ==> LockOk(locks[u])
    ensures Conserved(locks - {user}, lockedIn, history + [Withdrawal(user, locks[user], now)])
    ensures locks[user].amount <= lockedIn - PaidOut(history)
  {
    var amounts := Amounts(locks);
    assert Amounts(locks - {user}) == amounts - {user};
    SumRemove(amounts, user);
    SumNonNegative(amounts - {user});
    var later := history + [Withdrawal(user, locks[user], now)];
    assert later[..|history|] == history;
  }

  class VoteEscrow {
    var token: Option<Address>
    var locks: map<Address, VeLock>
    /** Tokens ever moved into the escrow, and every withdrawal ever paid. */
    ghost var lockedIn: int
    ghost var history: seq<Withdrawal>

    ghost predicate Valid()
      reads this
    {
      && (locks != map[] ==> token.Some?)
      && (forall user :: user in locks ==> LockOk(locks[user]))
      && Conserved(locks, lockedIn, history)
    }

    constructor ()
      ensures Valid() && token == None && locks == map[] && lockedIn == 0 && history == []
    {
      token, locks, lockedIn, history := None, map[], 0, [];
    }

    /** Reached only through an executed proposal; the token never changes once set. */
    method SetVeToken(newToken: Address) returns (r: Result<(), Error>)
      requires Valid()
      modifies this`token
      ensures Valid()
      ensures r.Ok? <==> old(token) == None
      ensures token == if r.Ok? then Some(newToken) else old(token)
    {
      if token.Some? {
        return Err(TokenAlreadySet);
      }
      token := Some(newToken);
      r := Ok(());
    }

    /** Escrows `amount` until `unlockLedger`; the tokens move in with the lock. */
    method CreateLock(now: nat, user: Address, amount: int, unlockLedger: nat, transferable: bool)
      returns (r: Result<(), Error>)
      requires Valid() && amount <= I128_MAX
      modifies this`locks, this`lockedIn
      ensures Valid()
      ensures r.Ok? <==>
                && 0 < amount && token.Some? && user !in old(locks)
                && now + 518_400 <= unlockLedger <= now + 25_228_800
                && transferable
      ensures r.Ok? ==> locks == old(locks)[user := VeLock(amount, now, unlockLedger)]
      ensures r.Ok? ==> lockedIn == old(lockedIn) + amount
      ensures r.Err? ==> unchanged(this)
    {
      if amount <= 0 {
        return Err(InvalidAmount);
      }
      if token.None? {
        return Err(TokenNotConfigured);
      }
      if user in locks {
        return Err(AlreadyLocked);
      }
      var duration := SatSub(unlockLedger, now);
      if duration < MIN_LOCK_LEDGERS {
        return Err(LockTooShort);
      }
      if duration > MAX_LOCK_LEDGERS {
        return Err(LockTooLong);
      }
      if !transferable {
        return Err(TokenTransferTrapped);
      }
      ConservedAfterLock(locks, lockedIn, history, user, VeLock(amount, now, unlockLedger));
      locks := locks[user := VeLock(amount, now, unlockLedger)];
      lockedIn := lockedIn + amount;
      r := Ok(());
    }

    /**
     Takes an expired lock back, never early. The amount is covered by what was locked
     in and not yet paid out, so no account's lock is paid with another's tokens.
     */
    method WithdrawLock(now: nat, user: Address, transferable: bool) returns (r: Result<(), Error>)
      requires Valid()
      modifies this`locks, this`history
      ensures Valid()
      ensures r.Ok? <==> user in old(locks) && now >= old(locks)[user].unlockLedger && transferable
      ensures r.Ok? ==>
                && locks == old(locks) - {user}
                && history == old(history) + [Withdrawal(user, old(locks)[user], now)]
                && old(locks)[user].amount <= lockedIn - PaidOut(old(history))
      ensures r.Err? ==> unchanged(this)
    {
      if user !in locks {
        return Err(NoLock);
      }
      var lock := locks[user];
      if now < lock.unlockLedger {
        return Err(LockNotExpired);
      }
      if token.None? {
        return Err(TokenNotConfigured);
      }
      if !transferable {
        return Err(TokenTransferTrapped);
      }
      ConservedAfterWithdrawal(locks, lockedIn, history, user, now);
      locks := locks - {user};
      history := history + [Withdrawal(user, lock, now)];
      r := Ok(());
    }
  }
}
