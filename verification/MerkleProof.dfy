/**
 Merkle proof verification for anchored receipts: a proof is the sibling path
 from a leaf to the root, folded with the sorted-pair hash. Every leaf has a path
 that verifies, and a path that verifies shows a node of the tree, unless two
 different strings that the tree and the proof hash collide.
 */
module MerkleProof {
  import opened Prelude
  import opened Bits
  import opened MerkleTree
  import opened MerkleHash

  const MAX_BATCH_SIZE: nat := 1000
  const MAX_PROOF_LEN: nat := 10
  const ROOT_BUFFER_SIZE: nat := 100

  datatype Error = ProofTooLong | RootNotFound

  function Fold<T>(h: (T, T) -> T, leaf: T, proof: seq<T>): T
    decreases |proof|
  {
    if proof == [] then leaf else Fold(h, h(leaf, proof[0]), proof[1..])
  }

  /** The loop of the verifier. */
  method FoldProof<T>(h: (T, T) -> T, leaf: T, proof: seq<T>) returns (computed: T)
    ensures computed == Fold(h, leaf, proof)
  {
    computed := leaf;
    for i := 0 to |proof|
      invariant Fold(h, computed, proof[i..]) == Fold(h, leaf, proof)
    {
      computed := h(computed, proof[i]);
      assert proof[i..][1..] == proof[i + 1..];
    }
  }

  lemma {:induction false} FoldSnoc<T>(h: (T, T) -> T, leaf: T, proof: seq<T>)
    requires proof != []
    ensures Fold(h, leaf, proof) == h(Fold(h, leaf, proof[..|proof| - 1]), proof[|proof| - 1])
    decreases |proof|
  {
    var init := proof[..|proof| - 1];
    if |proof| > 1 {
      FoldSnoc(h, h(leaf, proof[0]), proof[1..]);
      assert init[1..] == proof[1..][..|proof| - 2];
    }
  }

  // ---- completeness ----

  function Sibling<T>(level: seq<T>, i: nat): T
    requires i < |level|
  {
    if i % 2 == 1 then level[i - 1] else RightOf(level, i / 2)
  }

  /** The sibling path from leaf `i` to the root. */
  function SiblingPath<T>(h: (T, T) -> T, leaves: seq<T>, i: nat): seq<T>
    requires i < |leaves|
    decreases |leaves|
  {
    if |leaves| == 1 then [] else [Sibling(leaves, i)] + SiblingPath(h, NextLevel(h, leaves), i / 2)
  }

  ghost predicate Symmetric<T(!new)>(h: (T, T) -> T) {
    forall a, b :: h(a, b) == h(b, a)
  }

  lemma SiblingHash<T(!new)>(h: (T, T) -> T, level: seq<T>, i: nat)
    requires i < |level| && Symmetric(h)
    ensures h(level[i], Sibling(level, i)) == NextLevel(h, level)[i / 2]
  {
    assert i % 2 == 1 ==> RightOf(level, i / 2) == level[i];
  }

  /** Every leaf's path folds to the root, and its length is the height of the tree. */
  lemma {:induction false} PathFolds<T(!new)>(h: (T, T) -> T, leaves: seq<T>, i: nat)
    requires i < |leaves| && Symmetric(h)
    ensures Fold(h, leaves[i], SiblingPath(h, leaves, i)) == BatchRoot(h, leaves)
    ensures |SiblingPath(h, leaves, i)| == Depth(|leaves|)
    decreases |leaves|
  {
    if |leaves| > 1 {
      var next := NextLevel(h, leaves);
      PathFolds(h, next, i / 2);
      SiblingHash(h, leaves, i);
      assert SiblingPath(h, leaves, i)[1..] == SiblingPath(h, next, i / 2);
    }
  }

  lemma SortedHashSymmetric(sha: Sha)
    ensures Symmetric<Node>(SortedHash(sha))
  {
    forall a: Node, b: Node
      ensures SortedHash(sha)(a, b) == SortedHash(sha)(b, a)
    {
      SortedPairSymmetric(a, b);
    }
  }

  /** The height of a tree is the base-two logarithm of its size, rounded up. */
  lemma DepthIsLog(n: nat)
    requires n > 1
    ensures Depth(n) > 0 && Pow2(Depth(n) - 1) < n <= Pow2(Depth(n))
  {
    BitLengthBounds(n - 1);
  }

  lemma BatchDepth(n: nat)
    requires 0 < n <= MAX_BATCH_SIZE
    ensures Depth(n) <= MAX_PROOF_LEN
  {
    assert Pow2(10) == 1024;
    BitLengthUnique(n - 1, 10);
  }

  // ---- soundness ----

  predicate SamePair<T(==)>(a: T, b: T, c: T, d: T) {
    (a == c && b == d) || (a == d && b == c)
  }

  /** Step `i` of the proof hashes a different pair into node `j` of level `l + 1`. */
  ghost predicate WrongPair<T>(h: (T, T) -> T, leaves: seq<T>, leaf: T, proof: seq<T>, l: nat, j: nat, i: nat)
    requires leaves != []
  {
    i < |proof| && j < |Level(h, leaves, l + 1)| &&
    var level := Level(h, leaves, l);
    var folded := Fold(h, leaf, proof[..i]);
    && h(folded, proof[i]) == h(level[2 * j], RightOf(level, j))
    && !SamePair(folded, proof[i], level[2 * j], RightOf(level, j))
  }

  ghost predicate NoWrongPair<T>(h: (T, T) -> T, leaves: seq<T>, leaf: T, proof: seq<T>)
    requires leaves != []
  {
    forall l: nat, j: nat, i: nat :: l < Depth(|leaves|) ==> !WrongPair(h, leaves, leaf, proof, l, j, i)
  }

  /** A proof step that hashes the right pair started from a child of the node it reached. */
  lemma ChildReached<T>(h: (T, T) -> T, leaves: seq<T>, leaf: T, proof: seq<T>, k: nat, l: nat, j: nat)
    returns (child: nat)
    requires leaves != [] && k < |proof| && !WrongPair(h, leaves, leaf, proof, l, j, k)
    requires j < |Level(h, leaves, l + 1)| && Level(h, leaves, l + 1)[j] == Fold(h, leaf, proof[..k + 1])
    ensures child < |Level(h, leaves, l)| && Level(h, leaves, l)[child] == Fold(h, leaf, proof[..k])
  {
    FoldSnoc(h, leaf, proof[..k + 1]);
    assert proof[..k + 1][..k] == proof[..k];
    var level := Level(h, leaves, l);
    child := if Fold(h, leaf, proof[..k]) == level[2 * j] then 2 * j else 2 * j + 1;
  }

  /** The first `k` siblings of the proof fold to a node of level `d`. */
  ghost predicate Reaches<T>(h: (T, T) -> T, leaves: seq<T>, leaf: T, proof: seq<T>, k: nat, d: nat) {
    leaves != [] && k <= |proof| && Fold(h, leaf, proof[..k]) in Level(h, leaves, d)
  }

  lemma StepDown<T>(h: (T, T) -> T, leaves: seq<T>, leaf: T, proof: seq<T>, k: nat, d: nat)
    requires leaves != [] && d < Depth(|leaves|) && NoWrongPair(h, leaves, leaf, proof)
    requires Reaches(h, leaves, leaf, proof, k + 1, d + 1)
    ensures Reaches(h, leaves, leaf, proof, k, d)
  {
    var j: nat :| j < |Level(h, leaves, d + 1)| && Level(h, leaves, d + 1)[j] == Fold(h, leaf, proof[..k + 1]);
    assert !WrongPair(h, leaves, leaf, proof, d, j, k);
    var child := ChildReached(h, leaves, leaf, proof, k, d, j);
  }

  lemma {:induction false} Descend(reaches: (nat, nat) -> bool, k: nat, d: nat, m: nat)
    requires m <= k && m <= d && reaches(k, d)
    requires forall i: nat, l: nat :: i < k && l < d && reaches(i + 1, l + 1) ==> reaches(i, l)
    ensures reaches(k - m, d - m)
    decreases m
  {
    if m > 0 {
      Descend(reaches, k, d, m - 1);
      assert reaches(k - m + 1, d - m + 1);
    }
  }

  /** Without a wrong pair, undoing `m` proof steps walks down the tree `m` levels. */
  lemma NodeBelow<T>(h: (T, T) -> T, leaves: seq<T>, leaf: T, proof: seq<T>, k: nat, d: nat, m: nat)
    requires leaves != [] && m <= k && m <= d <= Depth(|leaves|) && NoWrongPair(h, leaves, leaf, proof)
    requires Reaches(h, leaves, leaf, proof, k, d)
    ensures Reaches(h, leaves, leaf, proof, k - m, d - m)
  {
    forall i: nat, l: nat | i < k && l < d && Reaches(h, leaves, leaf, proof, i + 1, l + 1)
      ensures Reaches(h, leaves, leaf, proof, i, l)
    {
      StepDown(h, leaves, leaf, proof, i, l);
    }
    Descend((i: nat, l: nat) => Reaches(h, leaves, leaf, proof, i, l), k, d, m);
  }

  /** The string hashed for node `j` of level `l + 1` of the tree. */
  ghost function TreeInput(sha: Sha, leaves: seq<Node>, l: nat, j: nat): seq<byte>
    requires leaves != [] && j < |Level<Node>(SortedHash(sha), leaves, l + 1)|
  {
    var level := Level<Node>(SortedHash(sha), leaves, l);
    SortedPair(level[2 * j], RightOf<Node>(level, j))
  }

  /** The string hashed at step `i` of folding the proof. */
  ghost function ProofInput(sha: Sha, leaf: Node, proof: seq<Node>, i: nat): seq<byte>
    requires i < |proof|
  {
    SortedPair(Fold<Node>(SortedHash(sha), leaf, proof[..i]), proof[i])
  }

  /** No two different strings, one hashed by the tree and one by the proof, have the same digest. */
  ghost predicate CollisionFree(sha: Sha, leaves: seq<Node>, leaf: Node, proof: seq<Node>)
    requires leaves != []
  {
    forall l: nat, j: nat, i: nat
      | l < Depth(|leaves|) && j < |Level<Node>(SortedHash(sha), leaves, l + 1)| && i < |proof| ::
      sha(TreeInput(sha, leaves, l, j)) == sha(ProofInput(sha, leaf, proof, i)) ==>
        TreeInput(sha, leaves, l, j) == ProofInput(sha, leaf, proof, i)
  }

  lemma CollisionFreeHasNoWrongPair(sha: Sha, leaves: seq<Node>, leaf: Node, proof: seq<Node>)
    requires leaves != [] && CollisionFree(sha, leaves, leaf, proof)
    ensures NoWrongPair<Node>(SortedHash(sha), leaves, leaf, proof)
  {
    var h := SortedHash(sha);
    forall l: nat, j: nat, i: nat | l < Depth(|leaves|) && i < |proof| && j < |Level<Node>(h, leaves, l + 1)|
      ensures !WrongPair<Node>(h, leaves, leaf, proof, l, j, i)
    {
      var level := Level<Node>(h, leaves, l);
      var folded := Fold<Node>(h, leaf, proof[..i]);
      if h(folded, proof[i]) == h(level[2 * j], RightOf<Node>(level, j)) {
        assert sha(TreeInput(sha, leaves, l, j)) == sha(ProofInput(sha, leaf, proof, i));
        SortedPairInjective(folded, proof[i], level[2 * j], RightOf<Node>(level, j));
      }
    }
  }

  // ---- the verifier ----

  method Verify(sha: Sha, root: Node, leaf: Node, proof: seq<Node>) returns (ok: bool)
    ensures ok <==> Fold<Node>(SortedHash(sha), leaf, proof) == root
  {
    var folded := FoldProof<Node>(SortedHash(sha), leaf, proof);
    ok := folded == root;
  }

  /** Every leaf of a batch is provable, with a proof the contract accepts for its length. */
  lemma Completeness(sha: Sha, leaves: seq<Node>, i: nat)
    requires i < |leaves|
    ensures var proof := SiblingPath<Node>(SortedHash(sha), leaves, i);
            && Fold<Node>(SortedHash(sha), leaves[i], proof) == BatchRoot<Node>(SortedHash(sha), leaves)
            && |proof| == Depth(|leaves|)
            && (|leaves| <= MAX_BATCH_SIZE ==> |proof| <= MAX_PROOF_LEN)
  {
    SortedHashSymmetric(sha);
    PathFolds<Node>(SortedHash(sha), leaves, i);
    if |leaves| <= MAX_BATCH_SIZE {
      BatchDepth(|leaves|);
    }
  }

  /**
   A verifying proof shows a node of the tree: one as many levels below the root as the
   proof is long, at full length a leaf. A longer proof shows that its first, surplus
   siblings fold to a leaf.
   */
  lemma Soundness(sha: Sha, leaves: seq<Node>, leaf: Node, proof: seq<Node>)
    requires leaves != [] && Fold<Node>(SortedHash(sha), leaf, proof) == BatchRoot<Node>(SortedHash(sha), leaves)
    requires CollisionFree(sha, leaves, leaf, proof)
    ensures |proof| <= Depth(|leaves|) ==> leaf in Level<Node>(SortedHash(sha), leaves, Depth(|leaves|) - |proof|)
    ensures |proof| == Depth(|leaves|) ==> leaf in leaves
    ensures |proof| > Depth(|leaves|) ==>
              Fold<Node>(SortedHash(sha), leaf, proof[..|proof| - Depth(|leaves|)]) in leaves
  {
    var h, d := SortedHash(sha), Depth(|leaves|);
    RootAtTop<Node>(h, leaves);
    CollisionFreeHasNoWrongPair(sha, leaves, leaf, proof);
    assert proof[..|proof|] == proof;
    NodeBelow<Node>(h, leaves, leaf, proof, |proof|, d, Min(|proof|, d));
  }

  /** Inner nodes are provable too: the contracts have no leaf/node domain separation. */
  lemma InnerNodesVerify(sha: Sha, leaves: seq<Node>, l: nat, j: nat)
    requires leaves != [] && l <= Depth(|leaves|) && j < |Level<Node>(SortedHash(sha), leaves, l)|
    ensures var level := Level<Node>(SortedHash(sha), leaves, l);
            var proof := SiblingPath<Node>(SortedHash(sha), level, j);
            && Fold<Node>(SortedHash(sha), level[j], proof) == BatchRoot<Node>(SortedHash(sha), leaves)
            && |proof| == Depth(|leaves|) - l
  {
    var h := SortedHash(sha);
    RootOfLevel<Node>(h, leaves, l);
    SortedHashSymmetric(sha);
    PathFolds<Node>(h, Level<Node>(h, leaves, l), j);
  }

  lemma {:induction false} RootOfLevel<T>(h: (T, T) -> T, leaves: seq<T>, l: nat)
    requires leaves != [] && l <= Depth(|leaves|)
    ensures BatchRoot(h, Level(h, leaves, l)) == BatchRoot(h, leaves)
    ensures Depth(|Level(h, leaves, l)|) == Depth(|leaves|) - l
    decreases l
  {
    if l > 0 {
      var next := NextLevel(h, leaves);
      OneLevelUp(h, leaves, next);
      LevelOfNext(h, leaves, l - 1);
      RootOfLevel(h, next, l - 1);
    }
  }

  lemma OneLevelUp<T>(h: (T, T) -> T, leaves: seq<T>, next: seq<T>)
    requires leaves != [] && 0 < Depth(|leaves|) && next == NextLevel(h, leaves)
    ensures next != [] && BatchRoot(h, next) == BatchRoot(h, leaves) && Depth(|next|) == Depth(|leaves|) - 1
  {
  }

  /** The retained roots of one shard: a ring buffer of the last hundred anchored roots. */
  class ShardRoots {
    var buffer: seq<Node>
    ghost var anchored: seq<Node>

    ghost predicate Valid()
      reads this
    {
      buffer == anchored[|anchored| - Min(|anchored|, ROOT_BUFFER_SIZE)..]
    }

    constructor ()
      ensures Valid() && anchored == []
    {
      buffer, anchored := [], [];
    }

    method Push(root: Node)
      requires Valid()
      modifies this
      ensures Valid() && anchored == old(anchored) + [root]
      ensures buffer == anchored[|anchored| - Min(|anchored|, 100)..]
    {
      if |buffer| >= ROOT_BUFFER_SIZE {
        buffer := buffer[1..];
      }
      buffer := buffer + [root];
      anchored := anchored + [root];
    }

    /** Verify a receipt against any retained root. */
    method VerifyReceiptByRoot(sha: Sha, root: Node, leaf: Node, proof: seq<Node>) returns (r: Result<bool, Error>)
      requires Valid()
      ensures r == Err(ProofTooLong) <==> |proof| > 10
      ensures r == Err(RootNotFound) <==>
              |proof| <= 10 && root !in anchored[|anchored| - Min(|anchored|, 100)..]
      ensures r.Ok? ==> (r.value <==> Fold<Node>(SortedHash(sha), leaf, proof) == root)
    {
      if |proof| > MAX_PROOF_LEN {
        return Err(ProofTooLong);
      }
      var i := 0;
      while i < |buffer| && buffer[i] != root
        invariant 0 <= i <= |buffer| && root !in buffer[..i]
      {
        i := i + 1;
      }
      if i == |buffer| {
        return Err(RootNotFound);
      }
      var ok := Verify(sha, root, leaf, proof);
      r := Ok(ok);
    }
  }
}
