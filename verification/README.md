# Accensa contracts: verified model

This project models the state machines and the arithmetic at the heart of the Accensa
Soroban contracts and proves what they promise. It is self-contained Dafny; `dafny
verify dfyconfig.toml` checks all of it.

- **Receipt anchoring.** The incremental Merkle tree keeps a logarithmic frontier, packed
  as bytes, and after any number of insertions has the root the batch builder computes
  over the same leaves. Proof verification is complete, and sound unless SHA-256 collides
  on strings that were actually hashed. The anchor rate limiter satisfies a counting bound
  over every time window of every run.
- **Governance.** Members vote with quadratic weight in two modes, one of them an anonymous
  ring signature. `GovernanceRuns` defines what every step keeps (`Inv`), respects
  (`Evolves`) and may record (`Explained`: every new ballot, queueing, execution or exit is
  this step's, written from what the state before it stores). Class `Governance` appends
  each state to a ghost `trace`, which is always a `Run` from a fresh body.
  `GovernanceTheorems` names states of the run: whoever is counted voted in exactly one of
  them, with the weight of that state; approval after the deadline is final; whatever
  executes under the timelock was queued while approved in a state the full delay earlier;
  nothing executes twice; a stake is redeemed once, stakes are conserved, and waiting to
  exit never costs anything. `SharedTreasury` says when an exit leaves covered what the
  contract owes out of the same balance.
- **Quadratic funding and integer roots.** The Newton loops return the floor of the root
  for every 64- and 128-bit input. The running sums of a bounty depend only on the final
  total of each donor, and the match obeys the documented rounding rule against the exact
  real-valued formula.
- **Insurance pool.** Supplier interest never outruns borrower interest through five nested
  floor divisions. The entry points move token balance and float together, so a float the
  balance covers stays covered exactly when the growth of a negative total borrowed fits into
  the surplus, and a covered float pays every accepted withdrawal and borrow. Over every run
  in which total borrowed never turns negative the float stays covered.
- **Multisig account.** The signer set can always authorize, even under saturating totals;
  daily-limit records equal the sums of what was spent; the approval queue stays consistent.
- **Wormhole messages.** Parsing and serialisation are inverse, verification accepts exactly
  quorum-signed messages, and two accepted messages share more than a third of the guardians.

What the central definitions compute is stated a second time in plain terms and proved equal:
the bytes of a pair hash, utilization and both interest rates, the quorum over sums of ballots,
voting weights, the existence of a match, days of spending, and the offsets of a message.

Conventions. Cryptography is a function parameter with its hypothesis stated
(`MerkleProof.CollisionFree`, `GovernanceVoting.RingScheme.Linkable`). The ledger, the clock,
token balances and whether an inner token transfer or target call succeeds are parameters or
fields. A host trap undoes a call, so it is an `Err` with the state unchanged; only the
functions of the multisig queue, which are not entry points, keep their pruning when they
return an error. Methods are called by an authorized caller. Machine
widths appear as explicit bounds and saturation. Calls made by `execute` are further steps of
the run, taken after the state update.

Four places where code and documentation differ; the model follows the code.

- `contracts/governance/src/ragequit.rs` says its approval test can never disagree with
  `execute`. It does, exactly when no weight is left and yes outweighs no
  (`ApprovalTestsAgree`), and `DisagreementRun` gets there, its tokens set by executed
  proposals: a dissenter is refused the exit from a proposal that then executes.
- The liquid float of the insurance pool is meant to be payable. A user's debt and the total
  borrowed grow by different formulas, so a repayment can leave the total negative;
  `CoverExactly` is the exact condition, and `UnpayableRun` ends in a withdrawal that passes
  every check and finds too few tokens.
- Completing a bounty is documented to net out the donations of all open bounties; the code
  nets out its own. The others stay covered exactly when the documented condition holds
  (`CompleteBounty`), and `ShortfallRun` breaks it.
- The default delay of the multisig timelock is documented as 48 hours, but 345,600 ledgers
  of about five seconds are 20 days. The delay is a parameter of the model.

## Model

| member | source | states |
|---|---|---|
| `MerkleTree.BuildLevel` | contracts/receipt-anchor/src/incremental_merkle.rs:151-160 | one round of the batch builder, padding included, is the level function the tree proofs use |
| `MerkleTree.BuildRoot` | contracts/receipt-anchor/src/incremental_merkle.rs:151-160 | the batch builder's loop computes the batch root |
| `MerkleTree.RootAtTop` | contracts/receipt-anchor/src/incremental_merkle.rs:151-160 | the batch root is the only node at height ceil(log2 n) |
| `MerkleHash.SortedPairSymmetric` | contracts/receipt-anchor/src/merkle.rs:12-19 | the preimage of a pair hash does not depend on the order of the pair |
| `MerkleHash.SortedPairOrdered` | contracts/receipt-anchor/src/merkle.rs:12-19 | the 64 bytes hashed are the two nodes, and the first is smaller at the first byte where they differ |
| `MerkleHash.HashesSmallerFirst` | contracts/receipt-anchor/src/merkle.rs:12-19 | in either order, the pair hash is the digest of the smaller node followed by the larger |
| `MerkleHash.SortedPairInjective` | contracts/receipt-anchor/src/merkle.rs:12-19 | two pairs with the same preimage are the same unordered pair |
| `MerkleFrontier.SubtreeIsBatchRoot` | contracts/receipt-anchor/src/incremental_merkle.rs:57-105 | a complete subtree held by the frontier is the batch root of its own leaves |
| `MerkleFrontier.PartialStep` | contracts/receipt-anchor/src/incremental_merkle.rs:77-105 | each round of the root computation keeps the partial right edge equal to the last node of the level |
| `MerkleFrontier.RootFromFrontier` | contracts/receipt-anchor/src/incremental_merkle.rs:77-105 | where the root loop stops, its value is the batch root |
| `MerkleFrontier.FrontierAfterInsert` | contracts/receipt-anchor/src/incremental_merkle.rs:109-127 | writing the carried node where the carry stops gives the frontier of the longer leaf list |
| `IncrementalMerkle.ComputeRoot` | contracts/receipt-anchor/src/incremental_merkle.rs:77-105 | the root computed from the packed frontier is the batch root of all leaves |
| `IncrementalMerkle.IncrementalTree.constructor` | contracts/receipt-anchor/src/incremental_merkle.rs:130-136 | the empty tree has no leaves, an empty frontier and the zero root |
| `IncrementalMerkle.IncrementalTree.SetSlot` | contracts/receipt-anchor/src/incremental_merkle.rs:65-75 | appending or overwriting 32 bytes changes exactly one slot |
| `IncrementalMerkle.IncrementalTree.Carry` | contracts/receipt-anchor/src/incremental_merkle.rs:109-127 | the carry loop ends at the lowest clear bit with the subtree the leaf completes |
| `IncrementalMerkle.IncrementalTree.Insert` | contracts/receipt-anchor/src/incremental_merkle.rs:109-127 | inserts at the next index, refuses exactly at 2^32 leaves, and keeps the root that of all leaves under the sorted pair hash |
| `IncrementalMerkle.InsertAll` | contracts/receipt-anchor/src/incremental_merkle.rs:109-127 | inserting any list leaf by leaf ends at the batch root of the list under the sorted pair hash |
| `MerkleProof.FoldProof` | contracts/receipt-anchor/src/merkle.rs:21-29 | the folding loop computes the fold of the proof over the leaf |
| `MerkleProof.PathFolds` | contracts/receipt-anchor/src/merkle.rs:21-34 | the sibling path of any leaf of any tree folds to the root and has the height of the tree |
| `MerkleProof.DepthIsLog` | contracts/receipt-anchor/src/lib.rs:310-314 | the height of a tree is the base-two logarithm of its leaf count, rounded up |
| `MerkleProof.BatchDepth` | contracts/receipt-anchor/src/lib.rs:308-321 | ten siblings are enough for every batch of up to 1000 leaves |
| `MerkleProof.Verify` | contracts/receipt-anchor/src/merkle.rs:31-34 | accepts exactly when the proof folds to the root |
| `MerkleProof.Completeness` | contracts/receipt-anchor/src/merkle.rs:21-34 | every leaf has a verifying proof of length ceil(log2 n), within the contract's limit |
| `MerkleProof.CollisionFreeHasNoWrongPair` | contracts/receipt-anchor/src/merkle.rs:12-29 | without collisions between the strings hashed for the tree and for the proof, equal parents have equal children |
| `MerkleProof.Soundness` | contracts/receipt-anchor/src/merkle.rs:21-34 | a verifying proof of length k shows a node k levels below the root, at full length a leaf; the surplus of a longer proof folds to a leaf |
| `MerkleProof.InnerNodesVerify` | contracts/receipt-anchor/src/merkle.rs:21-34 | every inner node verifies with a shorter proof, so the level in `Soundness` is exact |
| `MerkleProof.ShardRoots.Push` | contracts/receipt-anchor/src/lib.rs:556-569 | the buffer always holds the last hundred anchored roots |
| `MerkleProof.ShardRoots.VerifyReceiptByRoot` | contracts/receipt-anchor/src/lib.rs:626-657 | the three outcomes, each with its exact condition on proof length, retained roots and fold |
| `RateLimiter.Potential` | contracts/receipt-anchor/src/lib.rs:934-997 | tokens left plus anchors accepted since a time never exceed burst plus tokens earned |
| `RateLimiter.WindowBound` | contracts/receipt-anchor/src/lib.rs:71-85 | any window of any run admits at most burst plus one anchor per whole interval in it |
| `RateLimiter.WindowBoundReached` | contracts/receipt-anchor/src/lib.rs:71-85 | for every window some run reaches that bound exactly |
| `RateLimiter.BurstOfOne` | contracts/receipt-anchor/src/lib.rs:76-78 | burst one admits exactly when no anchor was accepted within the last interval |
| `RateLimiter.RefillEarns` | contracts/receipt-anchor/src/lib.rs:984-997 | a refill grants one token per whole interval up to the burst, restarts the interval at once when it earned and not otherwise, and is idempotent |
| `RateLimiter.RemainderIsLost` | contracts/receipt-anchor/src/lib.rs:984-997 | an attempt refused because an earning refill dropped the rest of the elapsed time |
| `RateLimiter.AnchorLimiter.RateLimitAdmitted` | contracts/receipt-anchor/src/lib.rs:936-959 | phase one only reads, and admits exactly when a token is due |
| `RateLimiter.AnchorLimiter.RateLimitConsume` | contracts/receipt-anchor/src/lib.rs:965-982 | phase two takes exactly one token, which phase one promised |
| `RateLimiter.AnchorLimiter.AnchorBatch` | contracts/receipt-anchor/src/lib.rs:462-510 | a refused or failed anchor spends nothing; the stored bucket is that of the whole history |
| `Isqrt.StartAbove` | contracts/governance/src/math.rs:34-41 | the starting power of two lies above the root |
| `Isqrt.IterateAbove` | contracts/governance/src/math.rs:43-50 | no Newton iterate falls below the floor of the root |
| `Isqrt.FixpointIsRoot` | contracts/governance/src/math.rs:43-50 | an iterate that stops descending is the floor of the root |
| `Isqrt.Newton` | contracts/governance/src/math.rs:34-51 | the loop terminates without leaving the integer width and returns the floor of the root |
| `Isqrt.Isqrt64` | contracts/governance/src/math.rs:26-51 | the floor of the root of every 64-bit number |
| `Isqrt.Isqrt128` | contracts/governance/src/qf.rs:215-235 | the floor of the root of every 128-bit number |
| `Isqrt.FloorSqrtSpec` | contracts/governance/src/math.rs:12-14 | the reference root r satisfies r*r <= n < (r+1)*(r+1) |
| `QuadraticFunding.ScaledSqrt` | contracts/governance/src/qf.rs:239-247 | the fixed-point root, refused exactly when the scaled amount exceeds 128 bits |
| `QuadraticFunding.MatchBounds` | contracts/governance/src/qf.rs:54-66 | against exact real roots the match is never negative, never above the exact value, and short by less than 2*S*n/10^7 + 1 |
| `QuadraticFunding.ScalableRange` | contracts/governance/src/qf.rs:239-247 | the range of the fixed-point root, in base units |
| `QuadraticFunding.MatchExists` | contracts/governance/src/qf.rs:252-263 | a match is refused exactly when the squared sum of roots exceeds 128 bits; otherwise it is the rescaled square less the donations, rounded down, or zero |
| `QuadraticFunding.DonationsHaveMatch` | contracts/governance/src/qf.rs:93-99 | enough for a match: the number of donors times their donations times 10^14 fits 128 bits |
| `QuadraticFunding.SingleDonor` | contracts/governance/src/qf.rs:65-67 | a single donor's match is computed and is zero, for every amount a donation may have |
| `QuadraticFunding.SplitNeverLowers` | contracts/governance/src/qf.rs:239-263 | splitting one donor's total over two donors never lowers the match |
| `QuadraticFunding.MatchMonotone` | contracts/governance/src/qf.rs:252-263 | at equal donations a larger sum of roots never gives a smaller match |
| `QuadraticFunding.DonorRoots` | contracts/governance/src/qf.rs:353-363 | the roots of a donor's old and new totals, refused exactly outside the fixed-point range |
| `QuadraticFunding.NewRecords` | contracts/governance/src/qf.rs:353-374 | the records a donation stores, or the overflow error exactly when they do not fit |
| `QuadraticFunding.AccountsAfterDonation` | contracts/governance/src/qf.rs:353-374 | after any donation the running sums are again the sums over all donors' totals |
| `QuadraticFunding.PayableMatch` | contracts/governance/src/qf.rs:424-442 | pays the match of the donors' totals; overflow and short treasury each with its exact condition |
| `QuadraticFunding.BountyRegistry.OpenBounty` | contracts/governance/src/qf.rs:285-308 | opens an unused id with empty sums, refuses a used one |
| `QuadraticFunding.BountyRegistry.Donate` | contracts/governance/src/qf.rs:326-389 | every error in order; otherwise the donor's total, the sums and the balance move together |
| `QuadraticFunding.BountyRegistry.PreviewMatch` | contracts/governance/src/qf.rs:474-483 | the stored sums give the match of the donors' totals, whatever the order and instalments |
| `QuadraticFunding.BountyRegistry.CompleteBounty` | contracts/governance/src/qf.rs:406-468 | every error in order; pays donations plus match once; other open donations stay covered exactly when the balance net of all of them covers the match |
| `BountyShortfall.ShortfallRun` | contracts/governance/src/qf.rs:429-438 | a run in which completing one bounty leaves another unpayable |
| `GovernanceRules.QuorumDecays` | contracts/governance/src/quorum.rs:25-41 | the quorum starts at its configured value, never rises and never falls below the floor |
| `GovernanceRules.QuorumIsLinear` | contracts/governance/src/quorum.rs:25-41 | the decay is the straight line to the floor, rounded to a basis point, and the floor from the end of the window on |
| `GovernanceRules.ApprovedMeans` | contracts/governance/src/lib.rs:761-775 | approval is more yes than no, and yes at least the share of total weight on the line from threshold to 35% |
| `GovernanceRules.ApprovalTestsAgree` | contracts/governance/src/ragequit.rs:44-68 | the tests of execute and ragequit differ exactly when no weight is left and yes outweighs no |
| `GovernanceDisagreement.DisagreementRun` | contracts/governance/src/ragequit.rs:40-68 | a run from construction, configured by executed proposals, with any tokens and treasury, after which a dissenter is refused the exit as not approved while the proposal executes |
| `GovernanceRules.ApprovalStable` | contracts/governance/src/timelock.rs:119-143 | from the deadline on, approval survives any later ledger and any loss of total weight |
| `GovernanceRules.PowerExact` | contracts/governance/src/vetoken.rs:124-133 | the split product is the exact capped floor and no intermediate value overflows |
| `GovernanceRules.PowerMonotone` | contracts/governance/src/vetoken.rs:124-139 | power never rises as the unlock ledger approaches |
| `GovernanceRules.ComputeWeight` | contracts/governance/src/voting.rs:17-30 | the weight loop returns the quadratic weight, within 32 bits |
| `GovernanceRules.WeightAt` | contracts/governance/src/voting.rs:17-30 | the weight at every ledger, from deposit, amount locked and ledgers left of 25,228,800 |
| `GovernanceRules.WeightDecays` | contracts/governance/src/voting.rs:17-30 | between lock operations a weight never rises, never drops below the bare deposit's, and equals it after expiry |
| `VoteEscrow.ConservedAfterLock` | contracts/governance/src/vetoken.rs:182-235 | a new lock keeps tokens locked in minus paid out equal to the live locks |
| `VoteEscrow.ConservedAfterWithdrawal` | contracts/governance/src/vetoken.rs:238-265 | so does a withdrawal, and the amount is covered |
| `VoteEscrow.VoteEscrow.SetVeToken` | contracts/governance/src/vetoken.rs:163-170 | the token is set once |
| `VoteEscrow.VoteEscrow.CreateLock` | contracts/governance/src/vetoken.rs:182-235 | accepted exactly for a positive amount, no other lock, and a duration within the limits |
| `VoteEscrow.VoteEscrow.WithdrawLock` | contracts/governance/src/vetoken.rs:238-265 | pays an expired lock once and never early |
| `GovernanceVoting.CountedAfterVote` | contracts/governance/src/lib.rs:556-559 | a new voter's weight is added in full; the tally never saturates |
| `GovernanceVoting.OpenVoterIsNew` | contracts/governance/src/lib.rs:516-549 | whoever passes the guards of a transparent vote has not been counted in either mode |
| `GovernanceVoting.RingSignerIsNew` | contracts/governance/src/lib.rs:654-689 | whoever made an accepted ring signature has not been counted in either mode |
| `GovernanceVoting.VoteKeepsPolls` | contracts/governance/src/lib.rs:546-575 | a vote of either mode keeps tallies, markers, keys and exit tickets consistent |
| `GovernanceVoting.TallyIsDistinctSum` | contracts/governance/src/lib.rs:511-513 | yes plus no is the sum of the counted ballots, one per member |
| `GovernanceTreasury.DepartureKeepsMembers` | contracts/governance/src/ragequit.rs:145-166 | an exit keeps total deposits equal to the sum of deposits and the quorum base within the bare weights |
| `GovernanceTreasury.ExitIsFair` | contracts/governance/src/ragequit.rs:129-140 | a payout is the exact share rounded down, at most the balance, and the treasury per remaining deposit never falls |
| `GovernanceTimelock.ExecuteKeepsTimelock` | contracts/governance/src/timelock.rs:150-169 | an execution past the gate is new and, with the timelock on, waited after an approved queueing of the same call |
| `GovernanceTimelock.QueueKeepsTimelock` | contracts/governance/src/timelock.rs:205-253 | queueing keeps every entry tied to an approved proposal and its unlock ledger |
| `GovernanceRuns.EvolvesTrans` | contracts/governance/src/lib.rs:444-830 | what single steps respect composes over steps |
| `GovernanceRuns.RunEvolves` | contracts/governance/src/lib.rs:444-830 | any two states of a run are related as by a single step |
| `GovernanceTheorems.ApprovalPersists` | contracts/governance/src/lib.rs:761-775 | approved after the deadline means approved at every later state where the proposal exists |
| `GovernanceTheorems.ExecutionHappened` | contracts/governance/src/lib.rs:736-798 | every execution on record happened in a state of the run, approved and past the gate there |
| `GovernanceTheorems.LaterExecutionsWaited` | contracts/governance/src/timelock.rs:150-169 | once enabled the timelock stays on, and every later execution follows a state of the run, 34,560 ledgers earlier, in which the same call was queued while approved |
| `GovernanceTheorems.ExecutedCarried` | contracts/governance/src/lib.rs:761-775 | whatever executes is carried, in that state, by the sums of the ballots cast on it |
| `GovernanceTheorems.QueuedCarried` | contracts/governance/src/timelock.rs:119-143 | so is whatever is queued |
| `GovernanceRuns.CarriedExactly` | contracts/governance/src/ragequit.rs:44-68 | both approval tests hold exactly of proposals their ballots carry |
| `GovernanceTheorems.ExecutesOnce` | contracts/governance/src/lib.rs:783-787 | an executed id keeps its one execution record for good |
| `GovernanceTheorems.RedeemedForGood` | contracts/governance/src/ragequit.rs:24-25 | whoever has redeemed a stake never has a deposit again |
| `GovernanceTheorems.StakesConserved` | contracts/governance/src/ragequit.rs:145-166 | deposits plus redeemed stakes are constant over a run, and total weight never grows |
| `GovernanceTheorems.BallotWasCast` | contracts/governance/src/lib.rs:514-718 | every counted ballot was cast in a state of the run, by a member, on an open proposal, with the weight of that state |
| `GovernanceTheorems.VotesOnce` | contracts/governance/src/lib.rs:514-718 | for as long as a proposal takes votes, whoever voted on it in either mode meets a guard of each mode that refuses them, and never votes on it again |
| `GovernanceTheorems.CountedOnce` | contracts/governance/src/lib.rs:514-718 | in every state of a run both tallies are sums over distinct members of the weights they had in the states in which they voted |
| `GovernanceTheorems.DepositsOnlyExit` | contracts/governance/src/ragequit.rs:145-166 | total deposits never rise, and only an exit lowers them |
| `GovernanceTheorems.OnlyDissentersLeave` | contracts/governance/src/ragequit.rs:71-166 | whoever leaves in a run voted no under their own name, on a carried proposal within 120,960 ledgers of its deadline, and takes out exactly their own stake and weight |
| `GovernanceTheorems.LaterExitNeverWorse` | contracts/governance/src/ragequit.rs:129-166 | between states of a run in which only exits draw on the treasury, the share of a remaining member never falls |
| `GovernanceTheorems.ExitsLeaveCovered` | contracts/governance/src/ragequit.rs:122-140 | the condition of `ExitLeavesCovered`, taken between two states of a run, suffices for any number of exits between them |
| `GovernanceTheorems.TicketsAreOpenNoVotes` | contracts/governance/src/lib.rs:558-574 | through the exit window the exit tickets are exactly the members who voted no under their own name in a state of the run |
| `GovernanceRuns.ShrinkStep` | contracts/governance/src/lib.rs:550-573 | pruning, and markers dropped no earlier than the code keeps them, are steps |
| `GovernanceSetup.RegisterMembers` | contracts/governance/src/lib.rs:398-417 | the constructor's loop accepts exactly distinct members with positive deposits fitting 64 bits, and returns both exact totals |
| `GovernanceSteps.RingSpoiled` | contracts/governance/src/lib.rs:654-678 | an unusable or repeated key makes the ring unacceptable for every weight |
| `GovernanceSteps.RingUneven` | contracts/governance/src/lib.rs:673-678 | so do two keys of different weight |
| `GovernanceSteps.OpenVoteRun` | contracts/governance/src/lib.rs:514-586 | an admissible transparent vote by an uncounted member extends the run |
| `GovernanceSteps.AnonymousVoteRun` | contracts/governance/src/lib.rs:630-718 | an admissible anonymous vote counts an uncounted ring member and extends the run |
| `GovernanceSteps.QueuedHashMatches` | contracts/governance/src/timelock.rs:159-161 | the hash check in the gate never refuses, because a proposal's call never changes |
| `GovernanceSteps.DepartRun` | contracts/governance/src/ragequit.rs:145-166 | an exit extends the run and is paid fairly |
| `Governance.Governance.Create` | contracts/governance/src/lib.rs:378-434 | accepts exactly the valid configurations; total weight is the sum of the members' roots |
| `Governance.Governance.Propose` | contracts/governance/src/lib.rs:444-509 | members open proposals under fresh ids with the full voting window |
| `Governance.Governance.RegisterVotingKey` | contracts/governance/src/lib.rs:592-620 | one valid unused key per member, bound both ways |
| `Governance.Governance.Vote` | contracts/governance/src/lib.rs:514-586 | the exact acceptance condition; the voter was uncounted and is counted with the current weight |
| `Governance.Governance.KeyWeight` | contracts/governance/src/lib.rs:656-673 | the weight of a ring key, or no weight makes it usable |
| `Governance.Governance.RingWeight` | contracts/governance/src/lib.rs:653-681 | the ring loop returns the common weight of an acceptable ring and refuses every other |
| `Governance.Governance.VoteAnonymous` | contracts/governance/src/lib.rs:630-718 | the exact acceptance condition; some uncounted ring member is counted with the ring's weight |
| `Governance.Governance.EnableTimelock` | contracts/governance/src/timelock.rs:179-184 | switches the timelock on and touches nothing else |
| `Governance.Governance.QueueTransaction` | contracts/governance/src/timelock.rs:205-253 | only members queue, only unqueued proposals their ballots carry, with the full delay |
| `Governance.Governance.Execute` | contracts/governance/src/lib.rs:736-798 | the exact condition for execution, refused for quorum exactly when the ballots do not carry it; the id is new in the log and its queue entry is consumed |
| `Governance.Governance.ExecuteQueuedTransaction` | contracts/governance/src/timelock.rs:262-267 | executes only what is queued, under the same condition |
| `Governance.Governance.PruneProposal` | contracts/governance/src/lib.rs:803-830 | removes exactly finished proposals, never one whose exit window is open |
| `Governance.Governance.AdvanceLedger` | contracts/governance/src/lib.rs:550-573 | time passing keeps every invariant while markers expire no earlier than the code keeps them |
| `Governance.Governance.SetVeToken` | contracts/governance/src/vetoken.rs:163-170 | sets the escrow token once and touches no lock |
| `Governance.Governance.CreateLock` | contracts/governance/src/vetoken.rs:182-235 | a lock extends the run and changes nothing but the locks |
| `Governance.Governance.WithdrawLock` | contracts/governance/src/vetoken.rs:238-265 | a withdrawal extends the run and changes nothing but the locks |
| `Governance.Governance.SetTreasuryToken` | contracts/governance/src/lib.rs:841-847 | sets the payout token and touches nothing else |
| `Governance.Governance.Ragequit` | contracts/governance/src/ragequit.rs:71-199 | the exact condition for an exit, refused as not approved exactly when no weight is left or the ballots do not carry it; the pro-rata payout and the fairness of what remains |
| `SharedTreasury.ExitLeavesCovered` | contracts/governance/src/ragequit.rs:122-140 | what an exit leaves covers a debt exactly when the exact share of those who stay, rounded up, does |
| `SharedTreasury.Exit` | contracts/governance/src/ragequit.rs:122-196 | an exit leaves the donations of open bounties, and the live locks if they are in the same token, covered exactly under that condition |
| `SharedTreasury.ShortLockRun` | contracts/governance/src/ragequit.rs:122-140 | a run in which an exit is paid out of a live lock of the same token |
| `Interest.RateFacts` | contracts/insurance/src/interest.rs:36-80 | utilization stays within bounds and the supply rate below its share of the borrow rate |
| `Interest.UtilizationBelowRatio` | contracts/insurance/src/interest.rs:36-48 | the clamped utilization never overstates the ratio of the totals |
| `InterestExact.UtilizationExact` | contracts/insurance/src/interest.rs:36-48 | utilization is the ratio in basis points rounded down, and full beyond it |
| `InterestExact.BorrowRateExact` | contracts/insurance/src/interest.rs:52-68 | the per-second borrow rate, rounded down, for 2% plus utilization a year |
| `InterestExact.SupplyRateExact` | contracts/insurance/src/interest.rs:72-81 | the supply rate is nine tenths of the utilized borrow rate, rounded down |
| `InterestExact.RatesDetermined` | contracts/insurance/src/interest.rs:36-81 | these bounds leave one value for each rate |
| `InterestExact.AccrualExact` | contracts/insurance/src/lib.rs:272-313 | an accrual adds to each index and total exactly the interest at these rates, rounded down |
| `InterestExact.InterestEarned` | contracts/insurance/src/lib.rs:272-313 | what a total earns, from above and below, by total, rate and time alone |
| `InterestExact.AccrualSucceeds` | contracts/insurance/src/lib.rs:272-313 | the exact condition under which an accrual succeeds |
| `Interest.Gain` | contracts/insurance/src/interest.rs:83-114 | one accrual as old index and total plus floored gains |
| `Interest.InterestGap` | contracts/insurance/src/lib.rs:272-313 | what suppliers gain is covered by what borrowers gain, through all five floors |
| `Interest.FloatNeverGrows` | contracts/insurance/src/lib.rs:272-313 | with non-negative totals no accrual increases the float; totals and indexes never shrink |
| `Interest.FloatAfterAccrual` | contracts/insurance/src/lib.rs:272-313 | for totals of any sign, what an accrual does to the float |
| `Interest.FloatGrowsExactly` | contracts/insurance/src/lib.rs:272-313 | accrual increases the float exactly when a negative total borrowed grows by a whole unit |
| `Interest.CoverExactly` | contracts/insurance/src/lib.rs:272-313 | a covered float stays covered exactly when the growth of a negative total borrowed fits into the surplus of the balance |
| `InsurancePool.SettledGrows` | contracts/insurance/src/lib.rs:224-254 | settling never lowers a position and moves its checkpoints to the indexes |
| `InsurancePool.SettledExact` | contracts/insurance/src/lib.rs:224-254 | settling adds the interest since the checkpoints, rounded down, and fails exactly on overflow |
| `InsurancePool.IndexesNeverShrink` | contracts/insurance/src/lib.rs:272-313 | both indexes never shrink, whatever the totals |
| `InsurancePool.CoverAfterCall` | contracts/insurance/src/lib.rs:351-519 | a call that moves float and balance together leaves the cover to its accrual |
| `InsurancePool.SurplusOverRun` | contracts/insurance/src/lib.rs:343-519 | over any run the balance beyond the float falls by at most the growth of a negative total borrowed, and by exactly that while it is negative |
| `InsurancePool.StaysCovered` | contracts/insurance/src/lib.rs:343-519 | along any run of calls in which total borrowed is never negative a covered float stays covered |
| `InsurancePool.InsurancePool.PaysWhileBorrowedNonNegative` | contracts/insurance/src/lib.rs:390-483 | after every history of calls that never left total borrowed negative, the float is covered now and after the next accrual |
| `InsurancePool.InsurancePool.Open` | contracts/insurance/src/lib.rs:256-260 | every entry point starts from accrued totals and a settled position |
| `InsurancePool.InsurancePool.Accrue` | contracts/insurance/src/lib.rs:343-346 | public accrual, error or new totals |
| `InsurancePool.InsurancePool.Deposit` | contracts/insurance/src/lib.rs:351-388 | exact acceptance; position, total and balance grow together |
| `InsurancePool.InsurancePool.Withdraw` | contracts/insurance/src/lib.rs:390-440 | exact acceptance; the token transfer fails exactly when all checks pass and the balance is short, never with a covered float |
| `InsurancePool.InsurancePool.Borrow` | contracts/insurance/src/lib.rs:442-483 | exact acceptance within collateral; the token transfer fails exactly as for a withdrawal |
| `InsurancePool.InsurancePool.Repay` | contracts/insurance/src/lib.rs:485-519 | pays at most the debt; position, total and balance move together |
| `InsuranceFailure.UnpayableRun` | contracts/insurance/src/lib.rs:390-519 | a run from the empty pool that ends in a withdrawal passing every check and failing for lack of tokens |
| `MultisigSigners.ListWeightIsSum` | contracts/multisig-account/src/weights.rs:97-105 | over the signer list the accumulated total is the sum of all weights |
| `MultisigSigners.SaturatingTotal` | contracts/multisig-account/src/weights.rs:97-105 | adding with saturation gives the saturated sum |
| `MultisigSigners.RegisterUnique` | contracts/multisig-account/src/lib.rs:112-142 | duplicates register once, with the default weight |
| `MultisigSigners.RemoveAll` | contracts/multisig-account/src/signers.rs:93-107 | the removal loop, with both refusals exact |
| `MultisigSigners.AddAll` | contracts/multisig-account/src/signers.rs:109-118 | the addition loop, with both refusals exact |
| `MultisigSigners.SignerSet.Create` | contracts/multisig-account/src/lib.rs:112-142 | accepts exactly thresholds the distinct signers can reach |
| `MultisigSigners.SignerSet.TallyWeight` | contracts/multisig-account/src/weights.rs:109-122 | the saturated weight of the approvers, refused if one is unknown |
| `MultisigSigners.SignerSet.TallyAll` | contracts/multisig-account/src/weights.rs:109-122 | all signers together always reach the threshold |
| `MultisigSigners.SignerSet.SetSignerWeight` | contracts/multisig-account/src/weights.rs:134-186 | every error in order; the account can still authorize afterwards, saturation included |
| `MultisigSigners.SignerSet.AddSigner` | contracts/multisig-account/src/weights.rs:193-223 | adds list entry, marker and weight together |
| `MultisigSigners.SignerSet.RemoveSigner` | contracts/multisig-account/src/weights.rs:234-271 | removes all three, refused exactly when the threshold would be out of reach |
| `MultisigSigners.SignerSet.Rotate` | contracts/multisig-account/src/signers.rs:45-152 | exact acceptance; the new signers and threshold, or nothing written |
| `MultisigLimits.FaithfulAfter` | contracts/multisig-account/src/limits.rs:88-168 | an accepted call keeps every record equal to the sum over the run |
| `MultisigLimits.LimitsAfter` | contracts/multisig-account/src/limits.rs:88-168 | no signer spends more in a window than a limit in force in that window |
| `MultisigLimits.FixedLimit` | contracts/multisig-account/src/limits.rs:88-168 | while a token's limit never exceeds a bound on a day of 86,400 seconds, no signer spends more than the bound on that day |
| `MultisigLimits.AffordableThatDay` | contracts/multisig-account/src/limits.rs:88-168 | the records admit a call exactly when the calls of that day leave room for it |
| `MultisigLimits.OwnTransferIs` | contracts/multisig-account/src/limits.rs:101-115 | an own transfer is exactly a call transfer(account, to, amount) with a non-negative amount |
| `MultisigLimits.SumTransfers` | contracts/multisig-account/src/limits.rs:101-145 | the per-token totals over all contexts of a call |
| `MultisigLimits.ChargeTokens` | contracts/multisig-account/src/limits.rs:146-168 | the nested loops record exactly the charges, refused exactly when one is not affordable |
| `MultisigLimits.DailyLimits.SetDailyLimit` | contracts/multisig-account/src/limits.rs:64-77 | negative limits are refused, zero removes the limit |
| `MultisigLimits.DailyLimits.AuthorizeWithinLimits` | contracts/multisig-account/src/limits.rs:120-168 | accepted exactly for own transfers every signer can afford out of that day's limit; a refused call leaves no trace |
| `MultisigLimits.DailyLimits.GetSpentToday` | contracts/multisig-account/src/limits.rs:88-98 | the stored figure is what the calls of this day charged, within a limit in force on it |
| `MultisigQueue.FreshMembers` | contracts/multisig-account/src/ttl.rs:101-127 | pruning keeps exactly the approvers whose approval has not expired |
| `MultisigQueue.PruneStaleApprovals` | contracts/multisig-account/src/ttl.rs:101-127 | the loop returns the fresh approvers, the number dropped and the remaining records |
| `MultisigQueue.ClearApprovals` | contracts/multisig-account/src/ttl.rs:130-136 | clears exactly the records of the entry |
| `MultisigQueue.TimelockQueue.QueueTransaction` | contracts/multisig-account/src/timelock.rs:47-79 | a fresh id with the unlock ledger and no approvals |
| `MultisigQueue.TimelockQueue.ApproveQueuedTransaction` | contracts/multisig-account/src/timelock.rs:167-186 | refused exactly for a fresh earlier approval; count, approvers and records stay equal |
| `MultisigQueue.TimelockQueue.ExecuteQueuedTransaction` | contracts/multisig-account/src/timelock.rs:99-131 | every outcome with its exact condition; consumed exactly with enough approvals less than 1,209,600 seconds old, leaving no record |
| `MultisigQueue.TimelockQueue.CancelQueuedTransaction` | contracts/multisig-account/src/timelock.rs:134-164 | only during the delay, only by guardian or signer; leaves no record and keeps every other entry's |
| `MultisigAccount.RecoveryCalls` | contracts/multisig-account/src/admin.rs:160-175 | what a paused account still authorizes: its own four recovery calls |
| `MultisigAccount.MultisigAccount.CheckAuth` | contracts/multisig-account/src/lib.rs:316-359 | the exact authorization condition; calls at the threshold never consume an allowance |
| `MultisigAccount.MultisigAccount.CheckAuthByAll` | contracts/multisig-account/src/lib.rs:316-359 | all signers together authorize any call of an account that is not paused |
| `MultisigAccount.MultisigAccount.CheckAuthTransferPaused` | contracts/multisig-account/src/admin.rs:160-175 | while paused no transfer is authorized, whoever signs |
| `Wormhole.ParseVaa` | contracts/cross-chain/src/wormhole.rs:79-177 | accepts exactly long-enough version 1 buffers, reads every field at its offset, and serialising the result gives the buffer back |
| `Wormhole.SerializeInjective` | contracts/cross-chain/src/wormhole.rs:79-177 | no two well-formed messages share a serialisation |
| `Wormhole.Reparse` | contracts/cross-chain/src/wormhole.rs:79-177 | every well-formed message parses back to itself |
| `Wormhole.VerifyVaa` | contracts/cross-chain/src/wormhole.rs:204-258 | accepts exactly a quorum of strictly ascending signatures, each recovering to its guardian |
| `Wormhole.FieldsOf` | contracts/cross-chain/src/wormhole.rs:79-177 | every field of a message is the big-endian number or the bytes at its offset |
| `Wormhole.RecoveryIds` | contracts/cross-chain/src/wormhole.rs:234-242 | recovery ids 0 and 27 mean bit 0, 1 and 28 mean bit 1, all others are refused |
| `Wormhole.QuorumIsTwoThirds` | contracts/cross-chain/src/wormhole.rs:24-28 | a quorum is exactly more than two thirds of the guardians |
| `Wormhole.SignersCount` | contracts/cross-chain/src/wormhole.rs:216-225 | strictly ascending indices are distinct signers |
| `Wormhole.QuorumsIntersect` | contracts/cross-chain/src/wormhole.rs:23-28 | two messages accepted under one set share more than a third of its guardians |

## Left out

- Host behaviour: storage lifetimes beyond the markers of votes and exits, archival, authorization mechanics, event publication and XDR.
- Cryptography: SHA-256, keccak, secp256k1 recovery and the Ristretto ring signature are parameters with stated hypotheses.
- Contract code called by `execute` and `execute_batch`, and by the token contracts: only success or failure is modelled.
- Simulation reports and optimistic proposals of governance: short guard chains; `propose` takes the simulation requirement as a parameter.
- Liquid staking: its user locks and its total fall by different amounts, so it has no conservation law to state.
- Receipt shards, refund vault, Groth16 pre-filters, stealth addresses, Axelar and LayerZero adapters: not part of this model.
- Pausing, unpausing and the guardian of the multisig account: the pause flag is read, its switches would only add easy members.
- Changing the rate limit while anchors flow: the bounds are for one configuration.
- Overflow of 64-bit id counters: ids are unbounded.
- Agreement between the positions of insurance users and the pool totals: it does not hold, as `UnpayableRun` shows.
- Solvency across bounties: it does not hold, as `ShortfallRun` shows; `CompleteBounty` states when one completion keeps it.
- GovernanceTheorems.LaterExitNeverWorse: for stretches of a run in which only exits draw on the treasury, because executed proposals may spend the treasury.
- VoteEscrow.VoteEscrow.WithdrawLock: the escrow's own books cover every withdrawal; whether the token contract still holds the tokens is a parameter, because exits may have drawn on the same token (`SharedTreasury`).
- Cover of locks and donations over whole runs: it does not hold when the tokens coincide, as `ShortLockRun` shows; `Exit` states when one exit keeps it.
