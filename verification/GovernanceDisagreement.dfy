/**
 The approval tests of `execute` and `ragequit` do disagree in a reachable state. The total
 weight is fixed at construction, while an exit gives up the weight of the moment, locks
 included: a dissenter who takes a lock before leaving can take all of it out. Then the
 proposal still executes, and the remaining dissenter is refused the exit.
 */
module GovernanceDisagreement {
  import opened GovernanceRules
  import opened GovernanceSetup
  import opened GovernanceSteps
  import opened GovernanceTimelock
  import opened GovernanceTreasury
  import opened GovernanceVoting
  import opened Governance
  import opened Isqrt
  import opened Prelude
  import opened Sums

  /** Three members with deposits 16, 4 and 1. */
  datatype Cast = Cast(yes: Address, leaver: Address, stayer: Address) {
    predicate Distinct() {
      yes != leaver && yes != stayer && leaver != stayer
    }
  }

  // ---- weights and founding members ----

  lemma RootIs(n: nat, r: nat)
    requires IsFloorSqrt(n, r)
    ensures FloorSqrt(n) == r
  {
    FloorSqrtSpec(n);
    FloorSqrtUnique(n, FloorSqrt(n), r);
  }

  lemma PlainWeight(deposit: nat, root: nat, now: nat)
    requires 0 < deposit <= U64_MAX && IsFloorSqrt(deposit, root)
    ensures QuadraticWeight(deposit, None, now) == root
  {
    RootIs(deposit, root);
  }

  function FullLock(): VeLock {
    VeLock(45, 1_000, 1_000 + MAX_LOCK_LEDGERS)
  }

  /** A full-length lock of 45 lifts a deposit of 4 from weight 2 to weight 7. */
  lemma LockedWeight()
    ensures QuadraticWeight(4, Some(FullLock()), 1_000) == 7
  {
    PowerExact(45, MAX_LOCK_LEDGERS);
    assert PowerFor(45, MAX_LOCK_LEDGERS) == 45;
    RootIs(49, 7);
  }

  function Deposits(c: Cast): map<Address, int> {
    map[c.yes := 16][c.leaver := 4][c.stayer := 1]
  }

  lemma ThreeWeights(a: Address, x: nat, rx: nat, b: Address, y: nat, ry: nat, c: Address, z: nat, rz: nat)
    requires a != b && a != c && b != c && IsFloorSqrt(x, rx) && IsFloorSqrt(y, ry) && IsFloorSqrt(z, rz)
    ensures Sum(BaseWeights(map[a := x][b := y][c := z])) == rx + ry + rz
  {
    var none: map<Address, int> := map[];
    NoWeights();
    OneMoreWeight(none, a, x, rx);
    assert none[a := x] == map[a := x];
    OneMoreWeight(map[a := x], b, y, ry);
    OneMoreWeight(map[a := x][b := y], c, z, rz);
  }

  lemma OneMoreWeight(deposits: map<Address, int>, m: Address, d: nat, root: nat)
    requires m !in deposits && IsFloorSqrt(d, root)
    ensures Sum(BaseWeights(deposits[m := d])) == Sum(BaseWeights(deposits)) + root
  {
    BaseWeightsAfterOne(deposits, m, d);
    RootIs(d, root);
  }

  lemma NoWeights()
    ensures Sum(BaseWeights(map[])) == 0
  {
    assert BaseWeights(map[]) == map[];
  }

  /** What three listed members register. */
  lemma ThreeStakes(members: seq<Address>, deposits: seq<int>)
    requires |members| == 3 == |deposits|
    ensures Stakes(members, deposits, 3) ==
            map[members[0] := deposits[0]][members[1] := deposits[1]][members[2] := deposits[2]]
  {
    assert Stakes(members, deposits, 1) == map[members[0] := deposits[0]];
    assert Stakes(members, deposits, 2) == map[members[0] := deposits[0]][members[1] := deposits[1]];
  }

  lemma TotalOfThree(deposits: seq<int>)
    requires |deposits| == 3
    ensures Total(deposits) == deposits[0] + deposits[1] + deposits[2]
  {
    var two := deposits[..2];
    var one := two[..1];
    assert one[..0] == [];
    assert Total(one) == deposits[0];
    assert Total(two) == deposits[0] + deposits[1];
  }

  predicate Listed(c: Cast, members: seq<Address>, deposits: seq<int>) {
    && |members| == 3 && members[0] == c.yes && members[1] == c.leaver && members[2] == c.stayer
    && |deposits| == 3 && deposits[0] == 16 && deposits[1] == 4 && deposits[2] == 1
  }

  /** Lists the constructor accepts, with the stakes and totals they bring. */
  ghost predicate Founding(
    members: seq<Address>, deposits: seq<int>, stakes: map<Address, int>, weight: nat, total: nat)
  {
    && 0 < |members| == |deposits| <= MAX_MEMBERS && Registrable(members, deposits)
    && (forall i :: 0 <= i < |deposits| ==> 0 <= deposits[i] <= U64_MAX)
    && Stakes(members, deposits, |members|) == stakes && Sum(BaseWeights(stakes)) == weight && Total(deposits) == total
  }

  lemma FoundersRegister(c: Cast, members: seq<Address>, deposits: seq<int>)
    requires c.Distinct() && Listed(c, members, deposits)
    ensures Registrable(members, deposits) && Total(deposits) == 21
  {
    TotalOfThree(deposits);
  }

  lemma FoundersStake(c: Cast, members: seq<Address>, deposits: seq<int>)
    requires Listed(c, members, deposits)
    ensures Stakes(members, deposits, |members|) == Deposits(c)
  {
    ThreeStakes(members, deposits);
  }

  lemma FoundersWeigh(c: Cast)
    requires c.Distinct()
    ensures Sum(BaseWeights(Deposits(c))) == 7
  {
    ThreeWeights(c.yes, 16, 4, c.leaver, 4, 2, c.stayer, 1, 1);
  }

  lemma Founders(c: Cast, members: seq<Address>, deposits: seq<int>)
    requires c.Distinct() && Listed(c, members, deposits)
    ensures Founding(members, deposits, Deposits(c), 7, 21)
  {
    FoundersRegister(c, members, deposits);
    FoundersStake(c, members, deposits);
    FoundersWeigh(c);
  }

  // ---- the body between two calls ----

  /** The three members at ledger 1,000, with nobody gone, nothing locked and no stray marker. */
  ghost predicate Calm(g: Governance, c: Cast)
    reads g, g.escrow
  {
    && g.Valid() && c.Distinct() && g.config == Config(5_000, 100) && g.now == 1_000
    && g.members.deposits == Deposits(c) && g.members.totalWeight == 7 && g.members.totalDeposits == 21
    && g.members.ragequits == {} && !g.timelock.enabled && g.escrow.locks == map[]
    && Tidy(g.polls)
  }

  predicate Tidy(s: Polls) {
    && s.anonymous == {}
    && (forall k: (nat, Address) :: k in s.voted ==> k.0 <= s.count)
    && (forall k: (nat, Address) :: k in s.dissent ==> k.0 <= s.count)
  }

  /** A proposal of the first member with these tallies. */
  function Tallied(c: Cast, call: Call, yes: nat, no: nat): Proposal {
    Proposal(c.yes, call, yes, no, 1_100, false)
  }

  /** Proposal `id` stands like this, with these voters and dissenters. */
  ghost predicate PollAt(s: Polls, id: nat, p: Proposal, voted: set<Address>, dissent: set<Address>) {
    && id in s.proposals && id <= s.count && s.proposals[id] == p
    && (forall m :: (id, m) in s.voted <==> m in voted)
    && (forall m :: (id, m) in s.dissent <==> m in dissent)
  }

  method List(c: Cast) returns (members: seq<Address>, deposits: seq<int>)
    ensures Listed(c, members, deposits)
  {
    members, deposits := [c.yes, c.leaver, c.stayer], [16, 4, 1];
  }

  method Build(c: Cast, ring: RingScheme, hash: Call -> Digest) returns (g: Governance)
    requires c.Distinct() && ring.Linkable()
    ensures fresh(g) && fresh(g.escrow) && Calm(g, c)
    ensures g.polls.count == 0 && g.escrow.token == None
  {
    var members, deposits := List(c);
    Founders(c, members, deposits);
    g := Found(ring, hash, members, deposits, Deposits(c), 7, 21);
  }

  method Found(
    ring: RingScheme, hash: Call -> Digest, members: seq<Address>, deposits: seq<int>,
    ghost stakes: map<Address, int>, ghost weight: nat, ghost total: nat)
    returns (g: Governance)
    requires ring.Linkable() && Founding(members, deposits, stakes, weight, total)
    ensures fresh(g) && fresh(g.escrow) && g.Valid() && g.config == Config(5_000, 100) && g.now == 1_000
    ensures g.members == Members(stakes, weight, total, map[], {}) && g.polls == NO_POLLS && !g.timelock.enabled
    ensures g.escrow.locks == map[] && g.escrow.token == None
  {
    var r := Governance.Create(ring, hash, 1_000, members, deposits, 5_000, 100);
    g := r.value;
  }

  lemma PollOpens(s: Polls, t: Polls, id: nat, p: Proposal)
    requires Tidy(s) && Opens(s, t, id, p)
    ensures Tidy(t) && t.count == id && PollAt(t, id, p, {}, {})
  {
  }

  method Nominate(g: Governance, c: Cast, call: Call) returns (id: nat)
    requires Calm(g, c)
    modifies g`polls, g`ballots, g`trace
    ensures Calm(g, c) && g.polls.count == id == old(g.polls.count) + 1
    ensures PollAt(g.polls, id, Tallied(c, call, 0, 0), {}, {})
  {
    var r := g.Propose(c.yes, call, false);
    id := r.value;
    PollOpens(old(g.polls), g.polls, id, Tallied(c, call, 0, 0));
  }

  lemma PollGathers(
    s: Polls, id: nat, p: Proposal, voted: set<Address>, dissent: set<Address>, voter: Address, support: bool,
    weight: nat)
    requires Tidy(s) && PollAt(s, id, p, voted, dissent)
    ensures Tidy(CastOpenly(s, id, voter, support, weight))
    ensures PollAt(CastOpenly(s, id, voter, support, weight), id, WithVote(p, support, weight),
                   voted + {voter}, if support then dissent else dissent + {voter})
  {
  }

  lemma WeightWithoutLocks(s: Members, now: nat, m: Address, deposit: nat, weight: nat)
    requires m in s.deposits && s.deposits[m] == deposit && 0 < deposit <= U64_MAX && IsFloorSqrt(deposit, weight)
    ensures MemberWeight(s, map[], now, m) == weight
  {
    PlainWeight(deposit, weight, now);
  }

  method CastVote(
    g: Governance, c: Cast, id: nat, ghost p: Proposal, ghost voted: set<Address>, ghost dissent: set<Address>,
    voter: Address, support: bool, ghost deposit: nat, ghost weight: nat)
    requires Calm(g, c) && PollAt(g.polls, id, p, voted, dissent) && p.deadline == 1_100 && !p.executed
    requires voter !in voted
    requires voter in Deposits(c) && Deposits(c)[voter] == deposit && 0 < deposit <= U64_MAX
    requires IsFloorSqrt(deposit, weight)
    modifies g`polls, g`ballots, g`trace
    ensures Calm(g, c) && g.polls.count == old(g.polls.count)
    ensures PollAt(g.polls, id, WithVote(p, support, weight),
                   voted + {voter}, if support then dissent else dissent + {voter})
  {
    PollGathers(g.polls, id, p, voted, dissent, voter, support, weight);
    WeightWithoutLocks(g.members, g.now, voter, deposit, weight);
    assert g.WeightOf(voter) == weight;
    var r := g.Vote(voter, id, support);
  }

  // ---- configuration, by executed proposals ----

  /** Weight 4 for is enough at once, against up to 3 and with up to 7 in all. */
  lemma Passes(p: Proposal, totalWeight: nat)
    requires p.yesWeight == 4 && p.noWeight <= 3 && p.deadline == 1_100 && totalWeight <= 7
    ensures Approved(Config(5_000, 100), totalWeight, p, 1_000)
    ensures totalWeight > 0 ==> RagequitApproved(Config(5_000, 100), totalWeight, p, 1_000)
  {
    assert CurrentQuorumBps(5_000, 0, 100) == 5_000;
  }

  predicate HasExecuted(log: Log, id: nat, call: Call) {
    id in log.executions && log.executions[id].call == call
  }

  /** The first member proposes a call, votes for it, and it executes. */
  method Enact(g: Governance, c: Cast, call: Call) returns (id: nat)
    requires Calm(g, c)
    modifies g`polls, g`ballots, g`timelock, g`log, g`trace
    ensures Calm(g, c) && g.polls.count == id == old(g.polls.count) + 1
    ensures HasExecuted(g.log, id, call)
    ensures forall i, x {:trigger HasExecuted(g.log, i, x)} ::
              i != id && HasExecuted(old(g.log), i, x) ==> HasExecuted(g.log, i, x)
  {
    id := Nominate(g, c, call);
    CastVote(g, c, id, Tallied(c, call, 0, 0), {}, {}, c.yes, true, 16, 4);
    Passes(Tallied(c, call, 4, 0), 7);
    var r := g.Execute(id, true);
  }

  /** The calls by which a body at `self` configures its two tokens. */
  function SetVeCall(self: Address, token: Address): Call {
    Call(self, "set_ve_token", [token.id])
  }

  function SetTreasuryCall(self: Address, token: Address): Call {
    Call(self, "set_treasury_token", [token.id])
  }

  ghost predicate Configured(g: Governance, self: Address, escrowToken: Address, treasuryToken: Address)
    reads g, g.escrow
  {
    && g.escrow.token == Some(escrowToken) && HasExecuted(g.log, 1, SetVeCall(self, escrowToken))
    && g.treasuryToken == Some(treasuryToken) && HasExecuted(g.log, 2, SetTreasuryCall(self, treasuryToken))
  }

  /** Both tokens are set by calls that executed proposals make. */
  method Configure(g: Governance, c: Cast, self: Address, escrowToken: Address, treasuryToken: Address)
    requires Calm(g, c) && g.polls.count == 0 && g.escrow.token == None
    modifies g, g.escrow
    ensures Calm(g, c) && g.polls.count == 2 && Configured(g, self, escrowToken, treasuryToken)
  {
    var first := Enact(g, c, SetVeCall(self, escrowToken));
    var r := g.SetVeToken(escrowToken);
    assert HasExecuted(g.log, 1, SetVeCall(self, escrowToken));
    var second := Enact(g, c, SetTreasuryCall(self, treasuryToken));
    g.SetTreasuryToken(treasuryToken);
  }

  // ---- the disputed proposal ----

  /** The three votes on a new proposal: 4 for, 2 and 1 against, which approves it. */
  method AllVote(g: Governance, c: Cast, call: Call) returns (id: nat)
    requires Calm(g, c)
    modifies g`polls, g`ballots, g`trace
    ensures Calm(g, c) && id == old(g.polls.count) + 1
    ensures PollAt(g.polls, id, Tallied(c, call, 4, 3), {c.yes, c.leaver, c.stayer}, {c.leaver, c.stayer})
  {
    id := Nominate(g, c, call);
    CastVote(g, c, id, Tallied(c, call, 0, 0), {}, {}, c.yes, true, 16, 4);
    CastVote(g, c, id, Tallied(c, call, 4, 0), {c.yes}, {}, c.leaver, false, 4, 2);
    CastVote(g, c, id, Tallied(c, call, 4, 2), {c.yes, c.leaver}, {c.leaver}, c.stayer, false, 1, 1);
  }

  /** The disputed proposal is open with 4 to 3, the leaver holds a full lock, and this total weight is left. */
  ghost predicate Disputed(g: Governance, c: Cast, id: nat, call: Call, totalWeight: nat)
    reads g, g.escrow
  {
    && g.Valid() && c.Distinct() && g.config == Config(5_000, 100) && g.now == 1_000
    && g.members.totalWeight == totalWeight && !g.timelock.enabled
    && g.escrow.locks == map[c.leaver := FullLock()] && g.treasuryToken.Some?
    && PollAt(g.polls, id, Tallied(c, call, 4, 3), {c.yes, c.leaver, c.stayer}, {c.leaver, c.stayer})
    && c.stayer in g.members.deposits
  }

  ghost predicate NobodyLeft(g: Governance, c: Cast)
    reads g
  {
    g.members.deposits == Deposits(c) && g.members.totalDeposits == 21 && g.members.ragequits == {}
  }

  /** The leaver takes a four-year lock; ballots and totals do not move. */
  method TakeLock(g: Governance, c: Cast, id: nat, call: Call)
    requires Calm(g, c) && g.escrow.token.Some? && g.treasuryToken.Some?
    requires PollAt(g.polls, id, Tallied(c, call, 4, 3), {c.yes, c.leaver, c.stayer}, {c.leaver, c.stayer})
    modifies g`trace, g.escrow
    ensures Disputed(g, c, id, call, 7) && NobodyLeft(g, c) && g.escrow.token == old(g.escrow.token)
  {
    var r := g.CreateLock(c.leaver, 45, 1_000 + MAX_LOCK_LEDGERS, true);
  }

  lemma LeaverWeight(s: Members, c: Cast)
    requires c.leaver in s.deposits && s.deposits[c.leaver] == 4
    ensures MemberWeight(s, map[c.leaver := FullLock()], 1_000, c.leaver) == 7
  {
    LockedWeight();
  }

  /** The exit gives up weight 7, all that the total has, for 4/21 of the balance. */
  method Leave(g: Governance, c: Cast, id: nat, call: Call, balance: nat) returns (paid: nat)
    requires Disputed(g, c, id, call, 7) && NobodyLeft(g, c) && balance <= 2 * U64_MAX
    modifies g`members, g`trace
    ensures Disputed(g, c, id, call, 0) && paid == Payout(balance, 4, 21) <= balance
  {
    Passes(Tallied(c, call, 4, 3), 7);
    LeaverWeight(g.members, c);
    assert g.WeightOf(c.leaver) == 7;
    assert Payable(g.members, c.leaver, balance, true);
    var r := g.Ragequit(id, c.leaver, balance, true);
    paid := r.value;
  }

  /** What the contract holds of the treasury token: `funds`, and the lock if it is in the same token. */
  function Held(escrowToken: Address, treasuryToken: Address, funds: nat): nat {
    funds + if escrowToken == treasuryToken then 45 else 0
  }

  /** With no weight left the same proposal passes the one test and fails the other. */
  lemma TestsDisagree(p: Proposal)
    requires p.yesWeight == 4 && p.noWeight == 3 && p.deadline == 1_100
    ensures Approved(Config(5_000, 100), 0, p, 1_000) && !RagequitApproved(Config(5_000, 100), 0, p, 1_000)
  {
    ApprovalTestsAgree(Config(5_000, 100), 0, p, 1_000);
  }

  /** A new body whose third proposal is open with 4 to 3, after the first two have set its tokens. */
  method UpToTheVote(
    c: Cast, ring: RingScheme, hash: Call -> Digest, self: Address, escrowToken: Address, treasuryToken: Address,
    call: Call)
    returns (g: Governance)
    requires c.Distinct() && ring.Linkable()
    ensures fresh(g) && fresh(g.escrow) && Calm(g, c) && Configured(g, self, escrowToken, treasuryToken)
    ensures PollAt(g.polls, 3, Tallied(c, call, 4, 3), {c.yes, c.leaver, c.stayer}, {c.leaver, c.stayer})
  {
    g := Build(c, ring, hash);
    Configure(g, c, self, escrowToken, treasuryToken);
    var id := AllVote(g, c, call);
  }

  method UpToTheExit(
    c: Cast, ring: RingScheme, hash: Call -> Digest, self: Address, escrowToken: Address, treasuryToken: Address,
    funds: nat, call: Call)
    returns (g: Governance, paid: nat)
    requires c.Distinct() && ring.Linkable() && funds <= U64_MAX
    ensures fresh(g) && fresh(g.escrow) && Disputed(g, c, 3, call, 0) && Configured(g, self, escrowToken, treasuryToken)
    ensures paid == Payout(Held(escrowToken, treasuryToken, funds), 4, 21) <= Held(escrowToken, treasuryToken, funds)
  {
    g := UpToTheVote(c, ring, hash, self, escrowToken, treasuryToken, call);
    TakeLock(g, c, 3, call);
    paid := Leave(g, c, 3, call, Held(escrowToken, treasuryToken, funds));
  }

  /**
   A run of the contract, from construction, after which a dissenter is refused the exit
   because the proposal is not approved, and that proposal executes. Proposals 1 and 2 set
   the tokens, any two tokens or one for both, and `funds` is all that others have paid in.
   */
  method DisagreementRun(
    c: Cast, ring: RingScheme, hash: Call -> Digest, self: Address, escrowToken: Address, treasuryToken: Address,
    funds: nat, call: Call)
    returns (g: Governance, paid: nat, refused: Result<nat, Error>, executed: Result<(), Error>)
    requires c.Distinct() && ring.Linkable() && funds <= U64_MAX
    ensures fresh(g) && g.Valid() && g.members.totalWeight == 0 && Configured(g, self, escrowToken, treasuryToken)
    ensures paid == Payout(Held(escrowToken, treasuryToken, funds), 4, 21)
    ensures c.stayer in g.members.deposits && (3, c.stayer) in g.polls.dissent
    ensures refused == Err(ProposalNotApproved) && executed.Ok? && HasExecuted(g.log, 3, call)
  {
    g, paid := UpToTheExit(c, ring, hash, self, escrowToken, treasuryToken, funds, call);
    TestsDisagree(Tallied(c, call, 4, 3));
    refused := g.Ragequit(3, c.stayer, Held(escrowToken, treasuryToken, funds) - paid, true);
    executed := g.Execute(3, true);
  }
}
