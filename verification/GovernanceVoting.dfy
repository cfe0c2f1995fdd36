/**
 The ballot box of governance: proposals with running tallies, the markers of the
 transparent and anonymous voting modes, and the proof that together they let every
 member be counted at most once, with the weight of the moment of voting.
 */
module GovernanceVoting {
  import opened GovernanceRules
  import opened Prelude
  import opened Sums

  datatype VotingKey = VotingKey(id: nat)

  datatype KeyImage = KeyImage(id: nat)

  datatype RingSignature = RingSignature(keyImage: KeyImage, proof: seq<int>)

  /** The ring-signature scheme, kept abstract; `image` is the linking tag of a key. */
  datatype RingScheme = RingScheme(
    validKey: VotingKey -> bool,
    verify: (nat, seq<VotingKey>, bool, RingSignature) -> bool,
    image: (nat, VotingKey) -> KeyImage)
  {
    /** Ideal linkability: what verifies was signed by a ring member and carries its image. */
    ghost predicate Linkable() {
      forall id, ring, support, sig {:trigger verify(id, ring, support, sig)} ::
        verify(id, ring, support, sig) ==> SignedByOne(id, ring, sig)
    }

    ghost predicate SignedByOne(id: nat, ring: seq<VotingKey>, sig: RingSignature) {
      exists i :: 0 <= i < |ring| && image(id, ring[i]) == sig.keyImage
    }
  }

  /** Everything voting stores. Markers are sets of storage keys. */
  datatype Polls = Polls(
    count: nat,
    proposals: map<nat, Proposal>,
    voted: set<(nat, Address)>,
    dissent: set<(nat, Address)>,
    anonymous: set<nat>,
    images: set<(nat, KeyImage)>,
    keys: map<Address, VotingKey>,
    owners: map<VotingKey, Address>)

  /** One counted vote: its side, the weight it had, and the mode it was cast in. */
  datatype Ballot = Ballot(support: bool, weight: nat, anonymous: bool)

  type Ballots = map<Address, Ballot>

  // ---- tallies ----

  /** The weights of the members who voted on one side. */
  function Side(b: Ballots, support: bool): map<Address, int> {
    map m | m in b && b[m].support == support :: b[m].weight
  }

  function WithVote(p: Proposal, support: bool, weight: nat): Proposal {
    if support then p.(yesWeight := SatAdd(p.yesWeight, weight, U64_MAX))
    else p.(noWeight := SatAdd(p.noWeight, weight, U64_MAX))
  }

  /** The tallies are exact sums over the distinct members who voted. */
  ghost predicate Counted(p: Proposal, b: Ballots, founders: set<Address>) {
    && b.Keys <= founders
    && (forall m :: m in b ==> 0 < b[m].weight <= U32_MAX)
    && p.yesWeight == Sum(Side(b, true))
    && p.noWeight == Sum(Side(b, false))
  }

  lemma SideAfterVote(b: Ballots, m: Address, ballot: Ballot, support: bool)
    requires m !in b
    ensures Sum(Side(b[m := ballot], support)) ==
            Sum(Side(b, support)) + (if ballot.support == support then ballot.weight else 0)
  {
    if ballot.support == support {
      assert Side(b[m := ballot], support) == Side(b, support)[m := ballot.weight];
      SumUpdate(Side(b, support), m, ballot.weight);
    } else {
      assert Side(b[m := ballot], support) == Side(b, support);
    }
  }

  lemma SideFits(b: Ballots, support: bool, founders: set<Address>)
    requires b.Keys <= founders && |founders| <= MAX_MEMBERS
    requires forall m :: m in b ==> 0 < b[m].weight <= U32_MAX
    ensures 0 <= Sum(Side(b, support)) <= MAX_MEMBERS * U32_MAX
  {
    var side := Side(b, support);
    SumBounds(side, 0, U32_MAX);
    CardinalityOrder(side.Keys, founders);
    assert |side| == |side.Keys|;
  }

  lemma {:induction false} CardinalityOrder<T>(a: set<T>, b: set<T>)
    requires a <= b
    ensures |a| <= |b|
  {
    assert b == a + (b - a);
  }

  /** A new member's vote is added in full: with 32 members the tally never saturates. */
  lemma CountedAfterVote(p: Proposal, b: Ballots, founders: set<Address>, m: Address, ballot: Ballot)
    requires Counted(p, b, founders) && |founders| <= MAX_MEMBERS
    requires m in founders && m !in b && 0 < ballot.weight <= U32_MAX
    ensures Counted(WithVote(p, ballot.support, ballot.weight), b[m := ballot], founders)
    ensures ballot.support ==> WithVote(p, true, ballot.weight).yesWeight == p.yesWeight + ballot.weight
    ensures !ballot.support ==> WithVote(p, false, ballot.weight).noWeight == p.noWeight + ballot.weight
  {
    SideFits(b, ballot.support, founders);
    SideAfterVote(b, m, ballot, true);
    SideAfterVote(b, m, ballot, false);
  }

  // ---- markers ----

  /** The marker that keeps a counted member from voting again on an open proposal. */
  predicate MarkedOne(s: Polls, ring: RingScheme, id: nat, m: Address, ballot: Ballot) {
    if ballot.anonymous then
      id in s.anonymous && m in s.keys && (id, ring.image(id, s.keys[m])) in s.images
    else
      (id, m) in s.voted
  }

  ghost predicate Marked(s: Polls, ring: RingScheme, id: nat, b: Ballots) {
    forall m {:trigger b[m]} :: m in b ==> MarkedOne(s, ring, id, m, b[m])
  }

  ghost predicate KeysPaired(keys: map<Address, VotingKey>, owners: map<VotingKey, Address>) {
    && (forall m :: m in keys ==> keys[m] in owners && owners[keys[m]] == m)
    && (forall k :: k in owners ==> owners[k] in keys && keys[owners[k]] == k)
  }

  /** Exit tickets belong to transparent no-voters, who keep them through the ragequit window. */
  ghost predicate TicketsOk(s: Polls, ballots: map<nat, Ballots>, now: nat) {
    && (forall id, m {:trigger (id, m) in s.dissent} :: (id, m) in s.dissent ==>
          id in ballots && m in ballots[id] && !ballots[id][m].support && !ballots[id][m].anonymous)
    && (forall id, m {:trigger ballots[id][m]} ::
          && id in s.proposals && id in ballots && m in ballots[id]
          && !ballots[id][m].support && !ballots[id][m].anonymous
          && now <= s.proposals[id].deadline + RAGEQUIT_WINDOW ==>
            (id, m) in s.dissent)
  }

  ghost predicate PollOk(
    s: Polls, ring: RingScheme, founders: set<Address>, period: nat, now: nat, id: nat, p: Proposal, b: Ballots)
  {
    && 1 <= id <= s.count
    && period <= p.deadline <= now + period && p.deadline <= U32_MAX
    && Counted(p, b, founders)
    && (now <= p.deadline ==> Marked(s, ring, id, b))
  }

  ghost predicate PollsOk(
    s: Polls, ballots: map<nat, Ballots>, ring: RingScheme, founders: set<Address>, period: nat, now: nat)
  {
    && KeysPaired(s.keys, s.owners)
    && TicketsOk(s, ballots, now)
    && (forall id :: id in ballots ==> id <= s.count)
    && (forall id :: id in s.proposals ==> id in ballots)
    && (forall id {:trigger s.proposals[id]} :: id in s.proposals ==>
          PollOk(s, ring, founders, period, now, id, s.proposals[id], ballots[id]))
  }

  // ---- what each operation stores ----

  function Opened(s: Polls, p: Proposal): Polls {
    s.(count := s.count + 1, proposals := s.proposals[s.count + 1 := p])
  }

  function CastOpenly(s: Polls, id: nat, m: Address, support: bool, weight: nat): Polls
    requires id in s.proposals
  {
    s.(proposals := s.proposals[id := WithVote(s.proposals[id], support, weight)],
       voted := s.voted + {(id, m)},
       dissent := if support then s.dissent else s.dissent + {(id, m)})
  }

  function CastAnonymously(s: Polls, id: nat, image: KeyImage, support: bool, weight: nat): Polls
    requires id in s.proposals
  {
    s.(proposals := s.proposals[id := WithVote(s.proposals[id], support, weight)],
       anonymous := s.anonymous + {id},
       images := s.images + {(id, image)})
  }

  function WithKey(s: Polls, m: Address, k: VotingKey): Polls {
    s.(keys := s.keys[m := k], owners := s.owners[k := m])
  }

  function Recorded(ballots: map<nat, Ballots>, id: nat, m: Address, ballot: Ballot): map<nat, Ballots>
    requires id in ballots
  {
    ballots[id := ballots[id][m := ballot]]
  }

  function ExecutedPolls(s: Polls, id: nat): Polls
    requires id in s.proposals
  {
    s.(proposals := s.proposals[id := s.proposals[id].(executed := true)])
  }

  predicate TakesVotes(s: Polls, now: nat, id: nat) {
    id in s.proposals && !s.proposals[id].executed && now <= s.proposals[id].deadline
  }

  const NO_POLLS := Polls(0, map[], {}, {}, {}, {}, map[], map[])

  // ---- the invariant survives each of them ----

  /** More markers and more keys never unmark anyone. */
  lemma MarkedGrows(s: Polls, t: Polls, ring: RingScheme, id: nat, b: Ballots)
    requires Marked(s, ring, id, b)
    requires s.voted <= t.voted && s.anonymous <= t.anonymous && s.images <= t.images
    requires forall m :: m in s.keys ==> m in t.keys && t.keys[m] == s.keys[m]
    ensures Marked(t, ring, id, b)
  {
    forall m | m in b ensures MarkedOne(t, ring, id, m, b[m]) {
      assert MarkedOne(s, ring, id, m, b[m]);
    }
  }

  lemma PollGrows(
    s: Polls, t: Polls, ring: RingScheme, founders: set<Address>, period: nat, now: nat, id: nat, p: Proposal,
    b: Ballots)
    requires PollOk(s, ring, founders, period, now, id, p, b)
    requires s.count <= t.count && s.voted <= t.voted && s.anonymous <= t.anonymous && s.images <= t.images
    requires forall m :: m in s.keys ==> m in t.keys && t.keys[m] == s.keys[m]
    ensures PollOk(t, ring, founders, period, now, id, p, b)
  {
    if now <= p.deadline {
      MarkedGrows(s, t, ring, id, b);
    }
  }

  /** A new proposal takes the next id and starts without votes. */
  predicate Opens(s: Polls, t: Polls, id: nat, p: Proposal) {
    && id == s.count + 1 && t == Opened(s, p)
    && !p.executed && p.yesWeight == 0 == p.noWeight
  }

  lemma OpenKeepsPolls(
    s: Polls, t: Polls, ballots: map<nat, Ballots>, ring: RingScheme, founders: set<Address>, period: nat, now: nat,
    id: nat, p: Proposal)
    requires PollsOk(s, ballots, ring, founders, period, now)
    requires Opens(s, t, id, p) && p.deadline == now + period <= U32_MAX
    ensures PollsOk(t, ballots[id := map[]], ring, founders, period, now)
  {
    var bs := ballots[id := map[]];
    forall i | i in t.proposals ensures PollOk(t, ring, founders, period, now, i, t.proposals[i], bs[i]) {
      if i == id {
        NewPoll(t, ring, founders, period, now, id, p);
      } else {
        PollGrows(s, t, ring, founders, period, now, i, s.proposals[i], ballots[i]);
      }
    }
    TicketsAfterOpening(s, t, ballots, now, id, p);
  }

  lemma NewPoll(t: Polls, ring: RingScheme, founders: set<Address>, period: nat, now: nat, id: nat, p: Proposal)
    requires 1 <= id <= t.count && p.yesWeight == 0 == p.noWeight && p.deadline == now + period <= U32_MAX
    ensures PollOk(t, ring, founders, period, now, id, p, map[])
  {
    NobodyCounted(p, founders);
  }

  lemma NobodyCounted(p: Proposal, founders: set<Address>)
    requires p.yesWeight == 0 == p.noWeight
    ensures Counted(p, map[], founders)
  {
    assert Side(map[], true) == map[] == Side(map[], false);
  }

  lemma TicketsAfterOpening(s: Polls, t: Polls, ballots: map<nat, Ballots>, now: nat, id: nat, p: Proposal)
    requires TicketsOk(s, ballots, now) && Opens(s, t, id, p) && id !in ballots
    ensures TicketsOk(t, ballots[id := map[]], now)
  {
  }

  lemma KeyKeepsPolls(
    s: Polls, ballots: map<nat, Ballots>, ring: RingScheme, founders: set<Address>, period: nat, now: nat,
    m: Address, k: VotingKey)
    requires PollsOk(s, ballots, ring, founders, period, now) && m !in s.keys && k !in s.owners
    ensures PollsOk(WithKey(s, m, k), ballots, ring, founders, period, now)
  {
    var t := WithKey(s, m, k);
    forall id | id in t.proposals ensures PollOk(t, ring, founders, period, now, id, t.proposals[id], ballots[id]) {
      PollGrows(s, t, ring, founders, period, now, id, s.proposals[id], ballots[id]);
    }
  }

  /** What a vote of either mode does to the box. */
  predicate Casts(s: Polls, t: Polls, ring: RingScheme, id: nat, m: Address, ballot: Ballot) {
    && t.count == s.count && t.keys == s.keys && t.owners == s.owners
    && id in s.proposals
    && t.proposals == s.proposals[id := WithVote(s.proposals[id], ballot.support, ballot.weight)]
    && s.voted <= t.voted && s.anonymous <= t.anonymous && s.images <= t.images
    && t.dissent == (if ballot.support || ballot.anonymous then s.dissent else s.dissent + {(id, m)})
    && MarkedOne(t, ring, id, m, ballot)
  }

  /** A vote of either mode keeps the box in order, once its voter is known to be new. */
  lemma VoteKeepsPolls(
    s: Polls, t: Polls, ballots: map<nat, Ballots>, ring: RingScheme, founders: set<Address>, period: nat, now: nat,
    id: nat, m: Address, ballot: Ballot)
    requires PollsOk(s, ballots, ring, founders, period, now) && |founders| <= MAX_MEMBERS
    requires Casts(s, t, ring, id, m, ballot) && m in founders && m !in ballots[id] && 0 < ballot.weight <= U32_MAX
    ensures PollsOk(t, Recorded(ballots, id, m, ballot), ring, founders, period, now)
  {
    var bs := Recorded(ballots, id, m, ballot);
    CountedAfterVote(s.proposals[id], ballots[id], founders, m, ballot);
    forall i | i in t.proposals ensures PollOk(t, ring, founders, period, now, i, t.proposals[i], bs[i]) {
      PollGrows(s, t, ring, founders, period, now, i, s.proposals[i], ballots[i]);
    }
    TicketsAfterVote(s, t, ballots, now, id, m, ballot);
  }

  lemma IdsKnown(
    s: Polls, ballots: map<nat, Ballots>, ring: RingScheme, founders: set<Address>, period: nat, now: nat)
    requires PollsOk(s, ballots, ring, founders, period, now)
    ensures forall id :: id in s.proposals ==> id <= s.count
  {
    forall id | id in s.proposals ensures id <= s.count {
      assert PollOk(s, ring, founders, period, now, id, s.proposals[id], ballots[id]);
    }
  }

  lemma TicketsAfterVote(
    s: Polls, t: Polls, ballots: map<nat, Ballots>, now: nat, id: nat, m: Address, ballot: Ballot)
    requires TicketsOk(s, ballots, now) && id in s.proposals && id in ballots && m !in ballots[id]
    requires t.proposals == s.proposals[id := WithVote(s.proposals[id], ballot.support, ballot.weight)]
    requires t.dissent == if ballot.support || ballot.anonymous then s.dissent else s.dissent + {(id, m)}
    ensures TicketsOk(t, Recorded(ballots, id, m, ballot), now)
  {
    var bs: map<nat, Ballots> := Recorded(ballots, id, m, ballot);
    forall i: nat, a: Address | i in t.proposals && i in bs && a in bs[i] && !bs[i][a].support && !bs[i][a].anonymous
      && now <= t.proposals[i].deadline + RAGEQUIT_WINDOW
      ensures (i, a) in t.dissent
    {
      if (i, a) != (id, m) {
        assert a in ballots[i] && ballots[i][a] == bs[i][a];
      }
    }
  }

  // ---- nobody is counted twice ----

  /** A transparent voter who passes both guards has not been counted, in either mode. */
  lemma OpenVoterIsNew(s: Polls, ring: RingScheme, id: nat, b: Ballots, m: Address)
    requires Marked(s, ring, id, b)
    requires !(id in s.anonymous && m in s.keys) && (id, m) !in s.voted
    ensures m !in b
  {
    assert m in b ==> MarkedOne(s, ring, id, m, b[m]);
  }

  /**
   Whoever in the ring made a signature with an unused image has not been counted, in
   either mode: ring members have not voted openly, and their earlier anonymous vote
   would have left the same image.
   */
  lemma RingSignerIsNew(s: Polls, ring: RingScheme, id: nat, b: Ballots, key: VotingKey, image: KeyImage)
    requires Marked(s, ring, id, b) && KeysPaired(s.keys, s.owners)
    requires key in s.owners && (id, s.owners[key]) !in s.voted
    requires ring.image(id, key) == image && (id, image) !in s.images
    ensures s.owners[key] !in b
  {
    var m := s.owners[key];
    assert m in b ==> MarkedOne(s, ring, id, m, b[m]);
  }

  /**
   Main result: on every stored proposal, yes plus no is the sum of vote-time weights
   over a set of distinct members.
   */
  lemma TallyIsDistinctSum(p: Proposal, b: Ballots, founders: set<Address>)
    requires Counted(p, b, founders) && |founders| <= MAX_MEMBERS
    ensures p.yesWeight + p.noWeight == Sum(map m | m in b :: b[m].weight as int)
    ensures p.yesWeight + p.noWeight <= MAX_MEMBERS * U32_MAX
    ensures |b| <= MAX_MEMBERS
  {
    CardinalityOrder(b.Keys, founders);
    assert |b| == |b.Keys|;
    SplitSides(b);
    SumBounds(map m | m in b :: b[m].weight as int, 0, U32_MAX);
    assert (map m | m in b :: b[m].weight as int).Keys == b.Keys;
  }

  lemma {:induction false} SplitSides(b: Ballots)
    ensures Sum(Side(b, true)) + Sum(Side(b, false)) == Sum(map m | m in b :: b[m].weight as int)
    decreases |b|
  {
    var all := map m | m in b :: b[m].weight as int;
    if b == map[] {
      assert Side(b, true) == map[] == Side(b, false);
    } else {
      var m :| m in b;
      var rest := b - {m};
      assert b == rest[m := b[m]];
      SplitSides(rest);
      SideAfterVote(rest, m, b[m], true);
      SideAfterVote(rest, m, b[m], false);
      assert all - {m} == map a | a in rest :: rest[a].weight as int;
      SumRemove(all, m);
    }
  }
}
