/**
 The batch Merkle tree of the receipt contracts, level by level; a node without a
 neighbour becomes its own. Nodes and their pair hash are parameters, and nothing is
 assumed about them here; `MerkleHash` has the 32-byte nodes and the hash the
 contracts use.
 */
module MerkleTree {
  import opened Bits

  /** The node paired with node `2 * i` of a level: itself when it is last. */
  function RightOf<T>(level: seq<T>, i: nat): T
    requires 2 * i < |level|
  {
    if 2 * i + 1 < |level| then level[2 * i + 1] else level[2 * i]
  }

  function NextLevel<T>(h: (T, T) -> T, level: seq<T>): (next: seq<T>)
    ensures |next| == (|level| + 1) / 2
    ensures forall i :: 0 <= i < |next| ==> next[i] == h(level[2 * i], RightOf(level, i))
  {
    seq((|level| + 1) / 2, i requires 0 <= i < (|level| + 1) / 2 => h(level[2 * i], RightOf(level, i)))
  }

  /** Height of the tree over `n` leaves: the base-two logarithm of `n`, rounded up. */
  function Depth(n: nat): nat
    requires n > 0
  {
    BitLength(n - 1)
  }

  function BatchRoot<T>(h: (T, T) -> T, leaves: seq<T>): T
    requires leaves != []
    decreases |leaves|
  {
    if |leaves| == 1 then leaves[0] else BatchRoot(h, NextLevel(h, leaves))
  }

  /** One round of the batch builder: pad an odd level with its last node, hash the chunks of two. */
  method BuildLevel<T>(h: (T, T) -> T, level: seq<T>) returns (next: seq<T>)
    requires level != []
    ensures next == NextLevel(h, level)
  {
    var padded := level;
    if |level| % 2 == 1 {
      padded := level + [level[|level| - 1]];
    }
    next := [];
    var i := 0;
    while i < |padded|
      invariant 0 <= i <= |padded| && i % 2 == 0
      invariant |next| == i / 2
      invariant forall k :: 0 <= k < |next| ==> next[k] == h(level[2 * k], RightOf(level, k))
    {
      assert padded[i + 1] == RightOf(level, i / 2);
      next := next + [h(padded[i], padded[i + 1])];
      i := i + 2;
    }
  }

  /** The reference batch builder. */
  method BuildRoot<T>(h: (T, T) -> T, leaves: seq<T>) returns (root: T)
    requires leaves != []
    ensures root == BatchRoot(h, leaves)
  {
    var level := leaves;
    while |level| > 1
      invariant level != []
      invariant BatchRoot(h, level) == BatchRoot(h, leaves)
      decreases |level|
    {
      level := BuildLevel(h, level);
    }
    root := level[0];
  }

  /** The nodes `k` levels above the leaves. */
  function Level<T>(h: (T, T) -> T, leaves: seq<T>, k: nat): (level: seq<T>)
    requires leaves != []
    ensures level != []
  {
    if k == 0 then leaves else NextLevel(h, Level(h, leaves, k - 1))
  }

  lemma {:induction false} LevelSize<T>(h: (T, T) -> T, leaves: seq<T>, k: nat)
    requires leaves != []
    ensures |Level(h, leaves, k)| == Shr(|leaves| - 1, k) + 1
  {
    if k > 0 {
      LevelSize(h, leaves, k - 1);
    }
  }

  lemma {:induction false} LevelOfNext<T>(h: (T, T) -> T, leaves: seq<T>, k: nat)
    requires leaves != []
    ensures Level(h, NextLevel(h, leaves), k) == Level(h, leaves, k + 1)
  {
    if k > 0 {
      LevelOfNext(h, leaves, k - 1);
    }
  }

  /** The batch root is the one node of the level `Depth` above the leaves. */
  lemma {:induction false} RootAtTop<T>(h: (T, T) -> T, leaves: seq<T>)
    requires leaves != []
    ensures Level(h, leaves, Depth(|leaves|)) == [BatchRoot(h, leaves)]
    decreases |leaves|
  {
    if |leaves| > 1 {
      var next := NextLevel(h, leaves);
      RootAtTop(h, next);
      LevelOfNext(h, leaves, Depth(|next|));
    }
  }
}
