/**
 The weighted signer set of the multisig account. Aggregate weights saturate at
 `u32::MAX`; every change keeps the saturated total at or above the threshold, so
 the full signer set can always authorize, even when the true sum overflows.
 */
module MultisigSigners {
  import opened Prelude
  import opened Sums

  const DEFAULT_SIGNER_WEIGHT: nat := 1

  datatype Error =
    | UnknownSigner | InsufficientSignatures | Unauthorized | TimelockNotExpired | ProposalNotFound | AlreadyVoted
    | DailyLimitExceeded | InvalidLimit | Paused | InvalidWeight | TotalWeightBelowThreshold
    | SignerAlreadyRegistered | StaleSignature

  type Weights = map<Address, int>

  function WeightOf(weights: Weights, signer: Address): int {
    if signer in weights then weights[signer] else DEFAULT_SIGNER_WEIGHT
  }

  /** The exact sum of the weights of a list of signers, with repetition. */
  function ListWeight(weights: Weights, signers: seq<Address>): int {
    if signers == [] then 0
    else ListWeight(weights, signers[..|signers| - 1]) + WeightOf(weights, signers[|signers| - 1])
  }

  function Saturate(x: int): int {
    Min(x, U32_MAX)
  }

  /** The bookkeeping every operation keeps: a duplicate-free list, its markers, and positive weights. */
  ghost predicate Registered(list: seq<Address>, markers: set<Address>, weights: Weights) {
    && NoDuplicates(list)
    && (forall a :: a in list <==> a in markers)
    && weights.Keys == markers
    && (forall a :: a in weights ==> 1 <= weights[a] <= U32_MAX)
  }

  /** The account can authorize: the saturated total reaches the threshold. */
  ghost predicate CanAuthorize(weights: Weights, threshold: nat) {
    1 <= threshold <= Saturate(Sum(weights))
  }

  // ---- totals ----

  lemma {:induction false} ListWeightOther(weights: Weights, signers: seq<Address>, a: Address)
    requires a !in signers
    ensures ListWeight(weights - {a}, signers) == ListWeight(weights, signers)
  {
    if signers != [] {
      ListWeightOther(weights, signers[..|signers| - 1], a);
    }
  }

  /** Over a duplicate-free list of all signers the list total is the sum of all weights. */
  lemma {:induction false} ListWeightIsSum(list: seq<Address>, weights: Weights)
    requires NoDuplicates(list) && forall a :: a in list <==> a in weights
    ensures ListWeight(weights, list) == Sum(weights)
    decreases |list|
  {
    if list == [] {
      assert weights == map[];
    } else {
      var k := |list| - 1;
      var last := list[k];
      SumRemove(weights, last);
      assert list == list[..k] + [last];
      ListWeightIsSum(list[..k], weights - {last});
      ListWeightOther(weights, list[..k], last);
    }
  }

  lemma {:induction false} ListWeightNonNegative(weights: Weights, signers: seq<Address>)
    requires forall a :: a in weights ==> 1 <= weights[a]
    ensures ListWeight(weights, signers) >= |signers|
  {
    if signers != [] {
      ListWeightNonNegative(weights, signers[..|signers| - 1]);
    }
  }

  /** The loop of `total_weight` and `tally_weight`: saturating at every step saturates once. */
  method SaturatingTotal(weights: Weights, signers: seq<Address>) returns (total: int)
    requires forall a :: a in weights ==> 1 <= weights[a]
    ensures total == Saturate(ListWeight(weights, signers))
  {
    total := 0;
    for i := 0 to |signers|
      invariant total == Saturate(ListWeight(weights, signers[..i]))
    {
      ListWeightNonNegative(weights, signers[..i]);
      assert signers[..i + 1][..i] == signers[..i];
      total := SatAdd(total, WeightOf(weights, signers[i]), U32_MAX);
    }
    assert signers[..|signers|] == signers;
  }

  /** Dropping a signer from the list. */
  function Without(list: seq<Address>, a: Address): seq<Address> {
    if list == [] then []
    else
      var rest, last := Without(list[..|list| - 1], a), list[|list| - 1];
      if last == a then rest else rest + [last]
  }

  lemma {:induction false} WithoutMembers(list: seq<Address>, a: Address)
    ensures forall x :: x in Without(list, a) <==> x in list && x != a
    ensures NoDuplicates(list) ==> NoDuplicates(Without(list, a))
  {
    if list != [] {
      var k := |list| - 1;
      WithoutMembers(list[..k], a);
      assert list == list[..k] + [list[k]];
      assert NoDuplicates(list) ==> list[k] !in list[..k];
    }
  }

  method RemoveFromList(list: seq<Address>, a: Address) returns (kept: seq<Address>)
    ensures kept == Without(list, a)
  {
    kept := [];
    for i := 0 to |list|
      invariant kept == Without(list[..i], a)
    {
      assert list[..i + 1][..i] == list[..i];
      if list[i] != a {
        kept := kept + [list[i]];
      }
    }
    assert list[..|list|] == list;
  }

  // ---- what each change does to the total ----

  lemma AfterSet(
    list: seq<Address>, markers: set<Address>, weights: Weights, threshold: nat, signer: Address, weight: nat)
    requires Registered(list, markers, weights) && signer in markers && 1 <= weight <= U32_MAX
    requires 1 <= threshold <= U32_MAX
    requires threshold <= Saturate(Sum(weights)) - WeightOf(weights, signer) + weight
    ensures Registered(list, markers, weights[signer := weight]) && CanAuthorize(weights[signer := weight], threshold)
  {
    SumUpdate(weights, signer, weight);
  }

  lemma AfterAdd(list: seq<Address>, markers: set<Address>, weights: Weights, signer: Address, weight: nat)
    requires Registered(list, markers, weights) && signer !in markers && 1 <= weight <= U32_MAX
    ensures Registered(list + [signer], markers + {signer}, weights[signer := weight])
    ensures Sum(weights[signer := weight]) == Sum(weights) + weight
  {
    SumUpdate(weights, signer, weight);
  }

  lemma AfterRemove(list: seq<Address>, markers: set<Address>, weights: Weights, signer: Address)
    requires Registered(list, markers, weights) && signer in markers
    ensures Registered(Without(list, signer), markers - {signer}, weights - {signer})
    ensures Sum(weights - {signer}) == Sum(weights) - weights[signer]
  {
    WithoutMembers(list, signer);
    SumRemove(weights, signer);
  }

  function AsSet(s: seq<Address>): set<Address> {
    set a | a in s
  }

  function DefaultWeights(signers: seq<Address>): Weights {
    map a | a in AsSet(signers) :: DEFAULT_SIGNER_WEIGHT
  }

  /** One more signer with the default weight. */
  lemma DefaultStep(weights: Weights, markers: set<Address>, signers: seq<Address>, i: nat)
    requires i < |signers|
    ensures var addr, prefix := signers[i], signers[..i];
            && AsSet(signers[..i + 1]) == AsSet(prefix) + {addr}
            && markers + AsSet(signers[..i + 1]) == markers + AsSet(prefix) + {addr}
            && weights + DefaultWeights(signers[..i + 1]) ==
               (weights + DefaultWeights(prefix))[addr := DEFAULT_SIGNER_WEIGHT]
            && (NoDuplicates(signers) ==> addr !in AsSet(prefix)) && addr in AsSet(signers)
  {
    assert signers[..i + 1] == signers[..i] + [signers[i]];
  }

  lemma UniqueStep(signers: seq<Address>, i: nat)
    requires i < |signers|
    ensures var addr, prefix := signers[i], signers[..i];
            && AsSet(signers[..i + 1]) == AsSet(prefix) + {addr}
            && DefaultWeights(signers[..i + 1]) == DefaultWeights(prefix)[addr := DEFAULT_SIGNER_WEIGHT]
            && (addr in AsSet(prefix) ==>
                  && AsSet(signers[..i + 1]) == AsSet(prefix)
                  && DefaultWeights(signers[..i + 1]) == DefaultWeights(prefix))
  {
    assert signers[..i + 1] == signers[..i] + [signers[i]];
  }

  /** What registering the listed signers leaves, duplicates and all. */
  ghost predicate RegisteredOnce(signers: seq<Address>, unique: seq<Address>, markers: set<Address>, weights: Weights) {
    && Registered(unique, markers, weights) && |unique| == |markers| <= |signers|
    && markers == AsSet(signers) && weights == DefaultWeights(signers)
    && Sum(weights) == |unique|
  }

  lemma RegisterStep(signers: seq<Address>, i: nat, unique: seq<Address>, markers: set<Address>, weights: Weights)
    requires i < |signers| <= U32_MAX && RegisteredOnce(signers[..i], unique, markers, weights)
    ensures var s := signers[i];
            if s in unique then RegisteredOnce(signers[..i + 1], unique, markers, weights)
            else RegisteredOnce(signers[..i + 1], unique + [s], markers + {s}, weights[s := DEFAULT_SIGNER_WEIGHT])
  {
    var s := signers[i];
    UniqueStep(signers, i);
    assert s in unique <==> s in AsSet(signers[..i]);
    if s !in unique {
      AfterAdd(unique, markers, weights, s, DEFAULT_SIGNER_WEIGHT);
    }
  }

  lemma RegisteredWeight(signers: seq<Address>, unique: seq<Address>, markers: set<Address>, weights: Weights)
    requires RegisteredOnce(signers, unique, markers, weights)
    ensures ListWeight(weights, unique) == |unique|
  {
    ListWeightIsSum(unique, weights);
  }

  /** Register every signer once, with the default weight. */
  method RegisterUnique(signers: seq<Address>) returns (unique: seq<Address>, markers: set<Address>, weights: Weights)
    requires |signers| <= U32_MAX
    ensures RegisteredOnce(signers, unique, markers, weights)
    ensures ListWeight(weights, unique) == |unique|
  {
    unique, markers, weights := [], {}, map[];
    for i := 0 to |signers|
      invariant RegisteredOnce(signers[..i], unique, markers, weights)
    {
      var signer := signers[i];
      RegisterStep(signers, i, unique, markers, weights);
      if signer !in unique {
        markers := markers + {signer};
        weights := weights[signer := DEFAULT_SIGNER_WEIGHT];
        unique := unique + [signer];
      }
    }
    assert signers[..|signers|] == signers;
    RegisteredWeight(signers, unique, markers, weights);
  }

  // ---- rotation ----

  predicate WellFormedRotation(
    toAdd: seq<Address>, toRemove: seq<Address>, newThreshold: nat, zeroAddresses: set<Address>)
  {
    && newThreshold >= 1 && NoDuplicates(toAdd)
    && (forall a :: a in toRemove ==> a !in toAdd)
    && (forall a :: a in toAdd + toRemove ==> a !in zeroAddresses)
  }

  /** The total the rotation computes, starting from the saturated one. */
  ghost function RotatedTotal(weights: Weights, toAdd: seq<Address>, toRemove: seq<Address>): int {
    Saturate(Sum(weights)) - ListWeight(weights, toRemove) + |toAdd|
  }

  /** One more removal, seen from the whole list of removals. */
  lemma RemovalStep(toRemove: seq<Address>, i: nat, weights: Weights, markers: set<Address>)
    requires i < |toRemove| && weights.Keys == markers && forall a :: a in weights ==> 1 <= weights[a]
    ensures var addr, prefix := toRemove[i], toRemove[..i];
            && AsSet(toRemove[..i + 1]) == AsSet(prefix) + {addr}
            && weights - AsSet(toRemove[..i + 1]) == weights - AsSet(prefix) - {addr}
            && markers - AsSet(toRemove[..i + 1]) == markers - AsSet(prefix) - {addr}
            && ListWeight(weights, toRemove[..i + 1]) == ListWeight(weights, prefix) + WeightOf(weights, addr)
            && ListWeight(weights, toRemove[..i + 1]) <= ListWeight(weights, toRemove)
            && (NoDuplicates(toRemove) && AsSet(toRemove) <= markers ==> addr in markers - AsSet(prefix))
            && (NoDuplicates(prefix) && addr !in prefix ==> NoDuplicates(toRemove[..i + 1]))
  {
    assert toRemove[..i + 1] == toRemove[..i] + [toRemove[i]];
    assert toRemove[..i + 1][..i] == toRemove[..i];
    ListWeightPrefix(weights, toRemove, i + 1);
    assert toRemove[i] in AsSet(toRemove);
  }

  lemma {:induction false} ListWeightPrefix(weights: Weights, signers: seq<Address>, k: nat)
    requires k <= |signers| && forall a :: a in weights ==> 1 <= weights[a]
    ensures ListWeight(weights, signers[..k]) <= ListWeight(weights, signers)
    decreases |signers| - k
  {
    if k < |signers| {
      ListWeightPrefix(weights, signers, k + 1);
      assert signers[..k + 1][..k] == signers[..k];
    } else {
      assert signers[..k] == signers;
    }
  }

  /** The first loop of a rotation: drop each signer and its weight from the running total. */
  method RemoveAll(list: seq<Address>, markers: set<Address>, weights: Weights, toRemove: seq<Address>, total: int)
    returns (r: Result<(seq<Address>, int), Error>)
    requires Registered(list, markers, weights) && 0 <= total
    ensures r.Ok? <==> NoDuplicates(toRemove) && AsSet(toRemove) <= markers && ListWeight(weights, toRemove) <= total
    ensures r.Ok? ==>
              && Registered(r.value.0, markers - AsSet(toRemove), weights - AsSet(toRemove))
              && r.value.1 == total - ListWeight(weights, toRemove) <= total
              && Sum(weights - AsSet(toRemove)) == Sum(weights) - ListWeight(weights, toRemove)
  {
    var remaining, left := list, total;
    assert weights - AsSet([]) == weights && markers - AsSet([]) == markers;
    for i := 0 to |toRemove|
      invariant NoDuplicates(toRemove[..i]) && AsSet(toRemove[..i]) <= markers
      invariant Registered(remaining, markers - AsSet(toRemove[..i]), weights - AsSet(toRemove[..i]))
      invariant left == total - ListWeight(weights, toRemove[..i]) && left >= 0
      invariant Sum(weights - AsSet(toRemove[..i])) == Sum(weights) - ListWeight(weights, toRemove[..i])
    {
      var addr := toRemove[i];
      ghost var w := weights - AsSet(toRemove[..i]);
      RemovalStep(toRemove, i, weights, markers);
      if addr !in remaining {
        return Err(UnknownSigner);
      }
      if left < WeightOf(weights, addr) {
        return Err(TotalWeightBelowThreshold);
      }
      left := left - WeightOf(weights, addr);
      AfterRemove(remaining, markers - AsSet(toRemove[..i]), w, addr);
      remaining := RemoveFromList(remaining, addr);
    }
    assert toRemove[..|toRemove|] == toRemove;
    ListWeightNonNegative(weights, toRemove);
    r := Ok((remaining, left));
  }

  /** `list` is what adding these signers with the default weight has left. */
  ghost predicate AddedSoFar(markers: set<Address>, weights: Weights, added: seq<Address>, list: seq<Address>) {
    && AsSet(added) !! markers
    && Registered(list, markers + AsSet(added), weights + DefaultWeights(added))
    && Sum(weights + DefaultWeights(added)) == Sum(weights) + |added|
  }

  lemma AddStep(markers: set<Address>, weights: Weights, toAdd: seq<Address>, i: nat, list: seq<Address>)
    requires i < |toAdd| && NoDuplicates(toAdd) && AddedSoFar(markers, weights, toAdd[..i], list)
    ensures if toAdd[i] in list then !(AsSet(toAdd) !! markers)
            else AddedSoFar(markers, weights, toAdd[..i + 1], list + [toAdd[i]])
  {
    DefaultStep(weights, markers, toAdd, i);
    if toAdd[i] !in list {
      AfterAdd(list, markers + AsSet(toAdd[..i]), weights + DefaultWeights(toAdd[..i]), toAdd[i],
               DEFAULT_SIGNER_WEIGHT);
    }
  }

  /** The second loop: append each new signer with the default weight. */
  method AddAll(list: seq<Address>, markers: set<Address>, weights: Weights, toAdd: seq<Address>, total: int)
    returns (r: Result<(seq<Address>, int), Error>)
    requires Registered(list, markers, weights) && NoDuplicates(toAdd) && total <= U32_MAX
    ensures r.Ok? <==> AsSet(toAdd) !! markers && total + |toAdd| <= U32_MAX
    ensures r.Ok? ==>
              && Registered(r.value.0, markers + AsSet(toAdd), weights + DefaultWeights(toAdd))
              && r.value.1 == total + |toAdd|
              && Sum(weights + DefaultWeights(toAdd)) == Sum(weights) + |toAdd|
  {
    var remaining, sum := list, total;
    assert markers + AsSet([]) == markers && weights + DefaultWeights([]) == weights;
    for i := 0 to |toAdd|
      invariant AddedSoFar(markers, weights, toAdd[..i], remaining) && sum == total + i <= U32_MAX
    {
      var addr := toAdd[i];
      AddStep(markers, weights, toAdd, i, remaining);
      if addr in remaining {
        return Err(SignerAlreadyRegistered);
      }
      if sum + DEFAULT_SIGNER_WEIGHT > U32_MAX {
        return Err(TotalWeightBelowThreshold);
      }
      remaining := remaining + [addr];
      sum := sum + DEFAULT_SIGNER_WEIGHT;
    }
    assert toAdd[..|toAdd|] == toAdd;
    r := Ok((remaining, sum));
  }

  class SignerSet {
    var list: seq<Address>
    var markers: set<Address>
    var weights: Weights
    var threshold: nat

    ghost predicate Valid()
      reads this
    {
      Registered(list, markers, weights) && CanAuthorize(weights, threshold)
    }

    constructor Raw(list: seq<Address>, markers: set<Address>, weights: Weights, threshold: nat)
      ensures this.list == list && this.markers == markers && this.weights == weights && this.threshold == threshold
    {
      this.list, this.markers, this.weights, this.threshold := list, markers, weights, threshold;
    }

    /** The contract constructor: duplicates register once, threshold zero means all signers. */
    static method Create(signers: seq<Address>, threshold: nat) returns (r: Result<SignerSet, Error>)
      requires threshold <= U32_MAX && |signers| <= U32_MAX
      ensures r.Ok? ==>
                && fresh(r.value) && r.value.Valid()
                && r.value.markers == AsSet(signers)
                && r.value.weights == DefaultWeights(signers)
                && r.value.threshold == if threshold == 0 then |AsSet(signers)| else threshold
      ensures r.Err? ==> r.error == TotalWeightBelowThreshold
      ensures r.Ok? <==> (if threshold == 0 then signers != [] else threshold <= |AsSet(signers)|)
    {
      var unique, markers, weights := RegisterUnique(signers);
      var effective := if threshold == 0 then |unique| else threshold;
      var total := SaturatingTotal(weights, unique);
      assert signers != [] ==> signers[0] in markers;
      if effective == 0 || effective > total {
        return Err(TotalWeightBelowThreshold);
      }
      var account := new SignerSet.Raw(unique, markers, weights, effective);
      r := Ok(account);
    }

    method TotalWeight() returns (total: int)
      requires Registered(list, markers, weights)
      ensures total == Saturate(Sum(weights))
    {
      ListWeightIsSum(list, weights);
      total := SaturatingTotal(weights, list);
    }

    /** The weight of the attached approvers; an unknown one rejects the call. */
    method TallyWeight(delegates: seq<Address>) returns (r: Result<int, Error>)
      requires Valid()
      ensures r == if forall a :: a in delegates ==> a in markers
                   then Ok(Saturate(ListWeight(weights, delegates))) else Err(UnknownSigner)
    {
      var total := 0;
      for i := 0 to |delegates|
        invariant total == Saturate(ListWeight(weights, delegates[..i]))
        invariant forall a :: a in delegates[..i] ==> a in markers
      {
        if delegates[i] !in markers {
          return Err(UnknownSigner);
        }
        ListWeightNonNegative(weights, delegates[..i]);
        assert delegates[..i + 1] == delegates[..i] + [delegates[i]];
        assert delegates[..i + 1][..i] == delegates[..i];
        total := SatAdd(total, WeightOf(weights, delegates[i]), U32_MAX);
      }
      assert delegates[..|delegates|] == delegates;
      r := Ok(total);
    }

    /** The account is never wedged: all signers together always reach the threshold. */
    method TallyAll() returns (r: Result<int, Error>)
      requires Valid()
      ensures r.Ok? && r.value >= threshold
    {
      ListWeightIsSum(list, weights);
      r := TallyWeight(list);
    }

    method SetSignerWeight(signer: Address, weight: nat) returns (r: Result<(), Error>)
      requires Valid() && weight <= U32_MAX
      modifies this`weights
      ensures Valid()
      ensures r == if weight == 0 then Err(InvalidWeight)
                   else if signer !in markers then Err(UnknownSigner)
                   else
                     var next := Saturate(Sum(old(weights))) - WeightOf(old(weights), signer) + weight;
                     if next > U32_MAX then Err(InvalidWeight)
                     else if next < threshold then Err(TotalWeightBelowThreshold)
                     else Ok(())
      ensures weights == if r.Ok? then old(weights)[signer := weight] else old(weights)
    {
      if weight == 0 {
        return Err(InvalidWeight);
      }
      if signer !in markers {
        return Err(UnknownSigner);
      }
      SumNonNegative(weights);
      var previous := WeightOf(weights, signer);
      var total := TotalWeight();
      var next := total - previous + weight;
      if next > U32_MAX {
        return Err(InvalidWeight);
      }
      if next < threshold {
        return Err(TotalWeightBelowThreshold);
      }
      AfterSet(list, markers, weights, threshold, signer, weight);
      weights := weights[signer := weight];
      r := Ok(());
    }

    method AddSigner(signer: Address, weight: nat) returns (r: Result<(), Error>)
      requires Valid() && weight <= U32_MAX
      modifies this`list, this`markers, this`weights
      ensures Valid()
      ensures r == if weight == 0 then Err(InvalidWeight)
                   else if signer in old(markers) then Err(SignerAlreadyRegistered) else Ok(())
      ensures r.Err? ==> unchanged(this)
      ensures r.Ok? ==> list == old(list) + [signer] && weights == old(weights)[signer := weight]
    {
      if weight == 0 {
        return Err(InvalidWeight);
      }
      if signer in markers {
        return Err(SignerAlreadyRegistered);
      }
      AfterAdd(list, markers, weights, signer, weight);
      markers := markers + {signer};
      weights := weights[signer := weight];
      list := list + [signer];
      r := Ok(());
    }

    method RemoveSigner(signer: Address) returns (r: Result<(), Error>)
      requires Valid()
      modifies this`list, this`markers, this`weights
      ensures Valid()
      ensures r == if signer !in old(markers) then Err(UnknownSigner)
                   else if Saturate(Sum(old(weights))) - old(weights)[signer] < threshold then
                     Err(TotalWeightBelowThreshold)
                   else Ok(())
      ensures r.Err? ==> unchanged(this)
      ensures r.Ok? ==> list == Without(old(list), signer) && weights == old(weights) - {signer}
    {
      if signer !in markers {
        return Err(UnknownSigner);
      }
      SumNonNegative(weights);
      var total := TotalWeight();
      var next := total - WeightOf(weights, signer);
      if next < threshold {
        return Err(TotalWeightBelowThreshold);
      }
      AfterRemove(list, markers, weights, signer);
      markers := markers - {signer};
      weights := weights - {signer};
      var kept := RemoveFromList(list, signer);
      list := kept;
      r := Ok(());
    }

    /**
     Replace signers and threshold in one call. Everything is checked on local
     copies first; a refused rotation writes nothing.
     */
    method Rotate(toAdd: seq<Address>, toRemove: seq<Address>, newThreshold: nat, zeroAddresses: set<Address>)
      returns (r: Result<(), Error>)
      requires Valid() && newThreshold <= U32_MAX
      modifies this
      ensures Valid()
      ensures r.Err? ==> unchanged(this)
      ensures r.Ok? <==>
                && WellFormedRotation(toAdd, toRemove, newThreshold, zeroAddresses)
                && NoDuplicates(toRemove) && AsSet(toRemove) <= old(markers) && AsSet(toAdd) !! old(markers)
                && ListWeight(old(weights), toRemove) <= Saturate(Sum(old(weights)))
                && RotatedTotal(old(weights), toAdd, toRemove) <= U32_MAX
                && newThreshold <= RotatedTotal(old(weights), toAdd, toRemove)
      ensures r.Ok? ==>
                && threshold == newThreshold
                && markers == old(markers) - AsSet(toRemove) + AsSet(toAdd)
                && weights == old(weights) - AsSet(toRemove) + DefaultWeights(toAdd)
    {
      if !WellFormedRotation(toAdd, toRemove, newThreshold, zeroAddresses) {
        return Err(InsufficientSignatures);
      }
      var total := TotalWeight();
      var removal := RemoveAll(list, markers, weights, toRemove, total);
      if removal.Err? {
        return Err(removal.error);
      }
      var addition := AddAll(removal.value.0, markers - AsSet(toRemove), weights - AsSet(toRemove), toAdd,
                             removal.value.1);
      if addition.Err? {
        return Err(addition.error);
      }
      if addition.value.1 < newThreshold {
        return Err(TotalWeightBelowThreshold);
      }
      markers := markers - AsSet(toRemove) + AsSet(toAdd);
      weights := weights - AsSet(toRemove) + DefaultWeights(toAdd);
      list := addition.value.0;
      threshold := newThreshold;
      r := Ok(());
    }
  }
}
