/**
 The arithmetic of governance: the decaying quorum and the approval tests built on
 it, the voting power of escrow locks, and quadratic voting weights.
 */
module GovernanceRules {
  import opened Arithmetic
  import opened Prelude
  import opened Isqrt

  const MAX_MEMBERS: nat := 32
  const MIN_THRESHOLD_BPS: nat := 1
  const MAX_THRESHOLD_BPS: nat := 10_000
  const QUORUM_FLOOR_BPS: nat := 3_500
  const RAGEQUIT_WINDOW: nat := 120_960
  const TIMELOCK_DELAY_LEDGERS: nat := 34_560
  const MIN_LOCK_LEDGERS: nat := 518_400
  const MAX_LOCK_LEDGERS: nat := 25_228_800

  datatype Config = Config(thresholdBps: nat, votingPeriod: nat) {
    predicate Valid() {
      MIN_THRESHOLD_BPS <= thresholdBps <= MAX_THRESHOLD_BPS && 0 < votingPeriod <= U32_MAX
    }
  }

  /** The call a proposal makes; its arguments are opaque here. */
  datatype Call = Call(target: Address, symbol: string, args: seq<int>)

  datatype Proposal = Proposal(
    proposer: Address, call: Call, yesWeight: nat, noWeight: nat, deadline: nat, executed: bool)

  // ---- quorum decay ----

  function CurrentQuorumBps(start: nat, elapsed: nat, window: nat): nat {
    if window == 0 || elapsed >= window then QUORUM_FLOOR_BPS
    else
      var top := Max(start, QUORUM_FLOOR_BPS);
      top - (top - QUORUM_FLOOR_BPS) * elapsed / window
  }

  /** The quorum stays between the floor and its start, starts there, and never rises. */
  lemma QuorumDecays(start: nat, elapsed: nat, later: nat, window: nat)
    requires elapsed <= later
    ensures QUORUM_FLOOR_BPS <= CurrentQuorumBps(start, later, window) <= CurrentQuorumBps(start, elapsed, window)
    ensures CurrentQuorumBps(start, elapsed, window) <= Max(start, QUORUM_FLOOR_BPS)
    ensures window > 0 ==> CurrentQuorumBps(start, 0, window) == Max(start, QUORUM_FLOOR_BPS)
  {
    if window > 0 {
      var span := Max(start, QUORUM_FLOOR_BPS) - QUORUM_FLOOR_BPS;
      DecayBounds(span, elapsed, window);
      DecayBounds(span, later, window);
      DecayOrder(span, elapsed, later, window);
      assert span * 0 / window == 0;
    }
  }

  /** Inside the window the quorum lies on the line from its start to the floor, rounded up to a basis point. */
  lemma QuorumIsLinear(start: nat, elapsed: nat, window: nat)
    ensures elapsed >= window ==> CurrentQuorumBps(start, elapsed, window) == QUORUM_FLOOR_BPS
    ensures elapsed < window ==>
              var top := Max(start, QUORUM_FLOOR_BPS);
              var lost := top - CurrentQuorumBps(start, elapsed, window);
              lost * window <= (top - QUORUM_FLOOR_BPS) * elapsed < (lost + 1) * window
  {
    if elapsed < window {
      QuotientBounds((Max(start, QUORUM_FLOOR_BPS) - QUORUM_FLOOR_BPS) * elapsed, window);
    }
  }

  lemma DecayBounds(span: nat, elapsed: nat, window: nat)
    requires window > 0
    ensures 0 <= span * elapsed / window
    ensures elapsed <= window ==> span * elapsed / window <= span
  {
    var lost := elapsed * span;
    MulOrder(elapsed, window, span);
    DivMonotone(0, lost, window);
    if elapsed <= window {
      DivMonotone(lost, span * window, window);
      DivShift(span, 0, window);
    }
  }

  lemma DecayOrder(span: nat, elapsed: nat, later: nat, window: nat)
    requires window > 0 && elapsed <= later
    ensures span * elapsed / window <= span * later / window
  {
    MulOrder(elapsed, later, span);
    DivMonotone(span * elapsed, span * later, window);
  }

  // ---- approval ----

  /** The quorum in force for a proposal at ledger `now`. */
  function EffectiveBps(c: Config, p: Proposal, now: nat): nat {
    CurrentQuorumBps(c.thresholdBps, SatSub(now, SatSub(p.deadline, c.votingPeriod)), c.votingPeriod)
  }

  predicate QuorumMet(c: Config, totalWeight: nat, p: Proposal, now: nat) {
    p.yesWeight * MAX_THRESHOLD_BPS >= totalWeight * EffectiveBps(c, p, now)
  }

  /** The test of `execute` and of the timelock queue. */
  predicate Approved(c: Config, totalWeight: nat, p: Proposal, now: nat) {
    QuorumMet(c, totalWeight, p, now) && p.yesWeight > p.noWeight
  }

  /** The test of `ragequit` and of `prune_proposal`. */
  predicate RagequitApproved(c: Config, totalWeight: nat, p: Proposal, now: nat) {
    totalWeight != 0 && p.yesWeight > p.noWeight && QuorumMet(c, totalWeight, p, now)
  }

  /** The two tests disagree exactly when no weight is left and yes outweighs no. */
  lemma ApprovalTestsAgree(c: Config, totalWeight: nat, p: Proposal, now: nat)
    ensures Approved(c, totalWeight, p, now) == RagequitApproved(c, totalWeight, p, now) <==>
            !(totalWeight == 0 && p.yesWeight > p.noWeight)
  {
    assert totalWeight == 0 ==> totalWeight * EffectiveBps(c, p, now) == 0;
  }

  /**
   Basis points of the total weight a proposal opened at `start` needs at `now`: on a
   straight line from the threshold down to 35% at the end of the voting period.
   */
  function NeededBps(threshold: nat, period: nat, start: nat, now: nat): int
    requires start <= now && 0 < period
  {
    if now >= start + period || threshold <= 3_500 then 3_500
    else threshold - (threshold - 3_500) * (now - start) / period
  }

  /** What a vote must come to: more for than against, and the needed share of the total weight for. */
  predicate Clears(yes: int, no: int, totalWeight: nat, threshold: nat, period: nat, start: nat, now: nat) {
    start <= now && 0 < period && yes > no &&
    10_000 * yes >= NeededBps(threshold, period, start, now) * totalWeight
  }

  lemma NeededIsEffective(c: Config, p: Proposal, now: nat)
    requires c.Valid() && c.votingPeriod <= p.deadline <= now + c.votingPeriod
    ensures EffectiveBps(c, p, now) == NeededBps(c.thresholdBps, c.votingPeriod, p.deadline - c.votingPeriod, now)
  {
    var elapsed := now - (p.deadline - c.votingPeriod);
    if c.thresholdBps <= 3_500 {
      ZeroSpan(elapsed, c.votingPeriod);
    }
  }

  lemma ZeroSpan(elapsed: nat, period: nat)
    requires period > 0
    ensures 0 * elapsed / period == 0
  {
    assert 0 * elapsed == 0;
  }

  /** Approval says exactly that about the tallies. */
  lemma ApprovedMeans(c: Config, totalWeight: nat, p: Proposal, now: nat)
    requires c.Valid() && c.votingPeriod <= p.deadline <= now + c.votingPeriod
    ensures Approved(c, totalWeight, p, now) <==>
            Clears(p.yesWeight, p.noWeight, totalWeight, c.thresholdBps, c.votingPeriod,
                   p.deadline - c.votingPeriod, now)
    ensures RagequitApproved(c, totalWeight, p, now) <==> totalWeight > 0 && Approved(c, totalWeight, p, now)
  {
    NeededIsEffective(c, p, now);
    var needed := EffectiveBps(c, p, now);
    assert totalWeight * needed == needed * totalWeight;
  }

  /** Once the deadline has come, approval only depends on frozen tallies and a shrinking total. */
  lemma ApprovalStable(c: Config, w: nat, p: Proposal, now: nat, w': nat, p': Proposal, later: nat)
    requires c.Valid() && p.deadline >= c.votingPeriod && now >= p.deadline && later >= now && w' <= w
    requires p'.yesWeight == p.yesWeight && p'.noWeight == p.noWeight && p'.deadline == p.deadline
    requires Approved(c, w, p, now)
    ensures Approved(c, w', p', later)
    ensures RagequitApproved(c, w', p', later) <==> w' != 0
  {
    assert EffectiveBps(c, p, now) == QUORUM_FLOOR_BPS == EffectiveBps(c, p', later);
  }

  // ---- escrow ----

  datatype VeLock = VeLock(amount: int, startLedger: nat, unlockLedger: nat)

  function Product(a: nat, b: nat): nat {
    a * b
  }

  function PowerFor(amount: int, remaining: nat): nat {
    if amount <= 0 || remaining == 0 then 0
    else
      var r := Min(remaining, MAX_LOCK_LEDGERS);
      Min(Product(amount / MAX_LOCK_LEDGERS, r) + Product(amount % MAX_LOCK_LEDGERS, r) / MAX_LOCK_LEDGERS, U64_MAX)
  }

  /**
   Splitting the product is exact, and every intermediate value stays within the
   amount itself or within `MAX_LOCK_LEDGERS` squared.
   */
  lemma PowerExact(amount: int, remaining: nat)
    requires 0 <= amount <= I128_MAX
    ensures var r := Min(remaining, MAX_LOCK_LEDGERS);
            && PowerFor(amount, remaining) == Min(amount * r / MAX_LOCK_LEDGERS, U64_MAX)
            && 0 <= (amount / MAX_LOCK_LEDGERS) * r <= amount
            && 0 <= (amount % MAX_LOCK_LEDGERS) * r <= MAX_LOCK_LEDGERS * MAX_LOCK_LEDGERS
            && (amount / MAX_LOCK_LEDGERS) * r + (amount % MAX_LOCK_LEDGERS) * r / MAX_LOCK_LEDGERS <= amount
  {
    var r := Min(remaining, MAX_LOCK_LEDGERS);
    var q, m := amount / MAX_LOCK_LEDGERS, amount % MAX_LOCK_LEDGERS;
    SplitProduct(q, m, r, amount);
    ProductOrder(q, r, MAX_LOCK_LEDGERS);
    ProductOrder(m, r, MAX_LOCK_LEDGERS);
    ProductOrder(amount, r, MAX_LOCK_LEDGERS);
    if amount == 0 {
      assert amount * r == 0;
    }
  }

  lemma SplitProduct(q: nat, m: nat, r: nat, amount: nat)
    requires amount == q * MAX_LOCK_LEDGERS + m
    ensures amount * r == (q * r) * MAX_LOCK_LEDGERS + m * r
    ensures amount * r / MAX_LOCK_LEDGERS == q * r + m * r / MAX_LOCK_LEDGERS
  {
    assert amount * r == (q * MAX_LOCK_LEDGERS) * r + m * r;
    assert (q * MAX_LOCK_LEDGERS) * r == (q * r) * MAX_LOCK_LEDGERS;
  }

  lemma ProductOrder(a: nat, b: nat, c: nat)
    requires b <= c
    ensures 0 <= a * b <= a * c
  {
  }

  /** Power decays as the unlock ledger approaches. */
  lemma PowerMonotone(amount: int, less: nat, more: nat)
    requires amount <= I128_MAX && less <= more
    ensures PowerFor(amount, less) <= PowerFor(amount, more)
  {
    if amount > 0 {
      PowerExact(amount, less);
      PowerExact(amount, more);
      ProductOrder(amount, Min(less, MAX_LOCK_LEDGERS), Min(more, MAX_LOCK_LEDGERS));
      assert amount * Min(0, MAX_LOCK_LEDGERS) == 0;
    }
  }

  function LockPower(lock: Option<VeLock>, now: nat): nat {
    match lock
    case None => 0
    case Some(l) => PowerFor(l.amount, SatSub(l.unlockLedger, now))
  }

  // ---- weights ----

  /** Quadratic weight of a member with this deposit and lock; zero for a non-member. */
  ghost function QuadraticWeight(deposit: nat, lock: Option<VeLock>, now: nat): nat {
    if deposit == 0 then 0 else FloorSqrt(SatAdd(deposit, LockPower(lock, now), U64_MAX))
  }

  method ComputeWeight(deposit: nat, lock: Option<VeLock>, now: nat) returns (w: nat)
    requires deposit <= U64_MAX
    ensures w == QuadraticWeight(deposit, lock, now) <= U32_MAX
  {
    if deposit == 0 {
      return 0;
    }
    var input := SatAdd(deposit, LockPower(lock, now), U64_MAX);
    RootFits(input);
    w := Isqrt64(input);
  }

  /** What is left of a lock: its amount times the ledgers until it unlocks, over four years of ledgers. */
  function PowerLeft(lock: VeLock, now: nat): int {
    if lock.unlockLedger <= now then 0
    else if lock.unlockLedger - now >= 25_228_800 then lock.amount
    else lock.amount * (lock.unlockLedger - now) / 25_228_800
  }

  lemma PowerAt(lock: VeLock, now: nat)
    requires 0 <= lock.amount <= I128_MAX
    ensures LockPower(Some(lock), now) == Min(PowerLeft(lock, now), U64_MAX)
  {
    var left := SatSub(lock.unlockLedger, now);
    PowerExact(lock.amount, left);
    if left >= 25_228_800 {
      DivShift(lock.amount, 0, MAX_LOCK_LEDGERS);
    }
  }

  /**
   The weight at every ledger: the root, rounded down, of the deposit plus what is left of
   the lock.
   */
  lemma WeightAt(deposit: nat, lock: VeLock, now: nat)
    requires 0 < deposit <= U64_MAX && 0 <= lock.amount <= I128_MAX
    ensures var input := Min(deposit + PowerLeft(lock, now), 18_446_744_073_709_551_615);
            IsFloorSqrt(input, QuadraticWeight(deposit, Some(lock), now))
    ensures IsFloorSqrt(deposit, QuadraticWeight(deposit, None, now))
    ensures QuadraticWeight(0, Some(lock), now) == 0 == QuadraticWeight(0, None, now)
  {
    PowerAt(lock, now);
    FloorSqrtSpec(SatAdd(deposit, LockPower(Some(lock), now), U64_MAX));
    FloorSqrtSpec(deposit);
  }

  /**
   Between lock operations a weight never rises, never falls below the weight of the
   bare deposit, and reaches it once the lock has expired.
   */
  lemma WeightDecays(deposit: nat, lock: Option<VeLock>, now: nat, later: nat)
    requires deposit <= U64_MAX && now <= later && (lock.Some? ==> lock.value.amount <= I128_MAX)
    ensures QuadraticWeight(deposit, lock, later) <= QuadraticWeight(deposit, lock, now)
    ensures FloorSqrt(deposit) <= QuadraticWeight(deposit, lock, later)
    ensures lock.Some? && later >= lock.value.unlockLedger ==>
              QuadraticWeight(deposit, lock, later) == FloorSqrt(deposit)
    ensures 0 < deposit ==> 0 < QuadraticWeight(deposit, lock, later) <= U32_MAX
  {
    if lock.Some? {
      PowerMonotone(lock.value.amount, SatSub(lock.value.unlockLedger, later), SatSub(lock.value.unlockLedger, now));
    }
    var x, y := SatAdd(deposit, LockPower(lock, later), U64_MAX), SatAdd(deposit, LockPower(lock, now), U64_MAX);
    FloorSqrtMonotone(x, y);
    FloorSqrtMonotone(deposit, x);
    RootFits(x);
    if deposit > 0 {
      FloorSqrtMonotone(1, deposit);
      assert FloorSqrt(1) == 1;
    }
  }
}
