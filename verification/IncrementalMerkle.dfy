/**
 The tree of the receipt anchor, which grows by one leaf per call and stores no leaf.
 However many calls there were, its root is the one the batch builder computes over
 the same leaves.
 */
module IncrementalMerkle {
  import opened Prelude
  import opened Bits
  import opened MerkleTree
  import opened MerkleHash
  import opened MerkleFrontier

  const MAX_DEPTH: nat := 32
  const MAX_LEAVES: nat := 0x1_0000_0000
  const ZERO_ROOT: Node := seq(32, _ => 0)

  datatype Error = BatchTooLarge

  function SlotAt(frontier: seq<byte>, level: nat): Node
    requires 32 * level + 32 <= |frontier|
  {
    frontier[32 * level..32 * level + 32]
  }

  /** The slots of a packed frontier. */
  ghost function Unpack(frontier: seq<byte>): (slots: seq<Node>)
    requires |frontier| % 32 == 0
    ensures |slots| == |frontier| / 32
    ensures forall i :: 0 <= i < |slots| ==> slots[i] == SlotAt(frontier, i)
  {
    seq(|frontier| / 32, i requires 0 <= i < |frontier| / 32 => SlotAt(frontier, i))
  }

  lemma DepthBound(n: nat)
    requires 0 < n <= MAX_LEAVES
    ensures Depth(n) <= MAX_DEPTH
  {
    Pow2At32();
    BitLengthUnique(n - 1, 32);
  }

  lemma SlotExists(h: PairHash, leaves: seq<Node>, frontier: seq<byte>, level: nat)
    requires |frontier| % 32 == 0 && FrontierOf(h, leaves, Unpack(frontier))
    ensures Bit(|leaves|, level) ==> 32 * level + 32 <= |frontier|
  {
    BitLengthExact(|leaves|, level);
  }

  /** One round of the root computation on the packed frontier. */
  lemma ClimbOnce(
    h: PairHash, leaves: seq<Node>, frontier: seq<byte>, level: nat, partial: Option<Node>, slot: Node)
    requires leaves != [] && |frontier| % 32 == 0 && FrontierOf(h, leaves, Unpack(frontier))
    requires PartialAt<Node>(h, leaves, level, partial) && Shr(|leaves| - 1, level) != 0
    requires Bit(|leaves|, level) ==> 32 * level + 32 <= |frontier| && slot == SlotAt(frontier, level)
    ensures level < Depth(|leaves|)
    ensures PartialAt<Node>(h, leaves, level + 1, NextPartial<Node>(h, partial, Bit(|leaves|, level), slot))
  {
    PartialStep<Node>(h, leaves, Unpack(frontier), level, partial, slot);
  }

  lemma RootRead(h: PairHash, leaves: seq<Node>, frontier: seq<byte>, level: nat, partial: Option<Node>)
    requires leaves != [] && |frontier| % 32 == 0 && FrontierOf(h, leaves, Unpack(frontier))
    requires level <= Depth(|leaves|) && Shr(|leaves| - 1, level) == 0 && PartialAt<Node>(h, leaves, level, partial)
    ensures partial.None? ==> 32 * level + 32 <= |frontier| && SlotAt(frontier, level) == BatchRoot<Node>(h, leaves)
    ensures partial.Some? ==> partial.value == BatchRoot<Node>(h, leaves)
  {
    RootFromFrontier<Node>(h, leaves, Unpack(frontier), level, partial);
  }

  /** Climbs the right edge of the tree, which is all the packed frontier leaves open. */
  method ComputeRoot(h: PairHash, frontier: seq<byte>, count: nat, ghost leaves: seq<Node>) returns (root: Node)
    requires 0 < count == |leaves| <= MAX_LEAVES
    requires |frontier| % 32 == 0 && FrontierOf(h, leaves, Unpack(frontier))
    ensures root == BatchRoot(h, leaves)
  {
    var partial: Option<Node> := None;
    var level := 0;
    DepthBound(count);
    while Shr(count - 1, level) != 0
      invariant level <= Depth(count) <= MAX_DEPTH
      invariant PartialAt<Node>(h, leaves, level, partial)
      decreases Depth(count) - level
    {
      SlotExists(h, leaves, frontier, level);
      var bitSet := Bit(count, level);
      var slot := if bitSet then SlotAt(frontier, level) else ZERO_ROOT;
      ClimbOnce(h, leaves, frontier, level, partial, slot);
      partial := NextPartial<Node>(h, partial, bitSet, slot);
      level := level + 1;
    }
    RootRead(h, leaves, frontier, level, partial);
    root := if partial.None? then SlotAt(frontier, level) else partial.value;
  }

  /** One round of the carry on the packed frontier. */
  lemma CarryOnce(
    h: PairHash, leaves: seq<Node>, leaf: Node, more: seq<Node>, frontier: seq<byte>, level: nat, node: Node)
    requires |frontier| % 32 == 0 && FrontierOf(h, leaves, Unpack(frontier)) && more == leaves + [leaf]
    requires CarriedTo<Node>(h, more, level, node) && Bit(|leaves|, level)
    ensures level < BitLength(|leaves|) && 32 * level + 32 <= |frontier|
    ensures CarriedTo<Node>(h, more, level + 1, h(SlotAt(frontier, level), node))
  {
    CarryStep<Node>(h, leaves, leaf, more, Unpack(frontier), level, node);
  }

  class IncrementalTree {
    /** The hash function, and the sorted pair hash built on it. */
    const sha: Sha
    const hash: PairHash
    var count: nat
    var root: Node
    var frontier: seq<byte>
    /** Every leaf inserted so far, oldest first. */
    ghost var leaves: seq<Node>

    ghost predicate Valid()
      reads this
    {
      && hash == SortedHash(sha) && |leaves| == count <= MAX_LEAVES
      && |frontier| == 32 * BitLength(count)
      && FrontierOf(hash, leaves, Unpack(frontier))
      && root == if leaves == [] then ZERO_ROOT else BatchRoot(hash, leaves)
    }

    constructor (sha: Sha)
      ensures Valid() && leaves == [] && this.sha == sha && count == 0
      ensures forall i :: 0 <= i < 32 ==> root[i] == 0
    {
      this.sha, hash := sha, SortedHash(sha);
      count, root, frontier, leaves := 0, ZERO_ROOT, [], [];
    }

    /** Append the slot when it is the next one, otherwise overwrite its bytes one by one. */
    method SetSlot(level: nat, node: Node)
      requires |frontier| % 32 == 0 && 32 * level <= |frontier|
      modifies this`frontier
      ensures |frontier| % 32 == 0
      ensures Unpack(frontier) == PutSlot(Unpack(old(frontier)), level, node)
    {
      var start := 32 * level;
      if |frontier| == start {
        frontier := frontier + node;
        assert forall i :: 0 <= i < level ==> SlotAt(frontier, i) == SlotAt(old(frontier), i);
        assert SlotAt(frontier, level) == node;
      } else {
        var i := 0;
        while i < 32
          invariant 0 <= i <= 32 && |frontier| == |old(frontier)|
          invariant forall k :: 0 <= k < |frontier| ==>
            frontier[k] == if start <= k < start + i then node[k - start] else old(frontier)[k]
        {
          frontier := frontier[start + i := node[i]];
          i := i + 1;
        }
        assert SlotAt(frontier, level) == node;
        assert forall i :: 0 <= i < |frontier| / 32 && i != level ==> SlotAt(frontier, i) == SlotAt(old(frontier), i);
      }
      assert Unpack(frontier) == PutSlot(Unpack(old(frontier)), level, node);
    }

    /** The binary carry: merge the leaf with the frontier slots below the lowest clear bit of the count. */
    method Carry(leaf: Node) returns (level: nat, node: Node)
      requires |leaves| == count && |frontier| % 32 == 0 && FrontierOf(hash, leaves, Unpack(frontier))
      ensures !Bit(count, level) && level <= BitLength(count)
      ensures CarriedTo<Node>(hash, leaves + [leaf], level, node)
    {
      level, node := 0, leaf;
      ghost var more := leaves + [leaf];
      while Bit(count, level)
        invariant level <= BitLength(count) && CarriedTo<Node>(hash, more, level, node)
        decreases BitLength(count) - level
      {
        CarryOnce(hash, leaves, leaf, more, frontier, level, node);
        node := hash(SlotAt(frontier, level), node);
        level := level + 1;
      }
    }

    /** Append `leaf`: refused exactly at `MAX_LEAVES`, otherwise its index is returned. */
    method Insert(leaf: Node) returns (r: Result<nat, Error>)
      requires Valid()
      modifies this
      ensures Valid()
      ensures r == if old(count) >= 4_294_967_296 then Err(BatchTooLarge) else Ok(old(count))
      ensures leaves == if r.Ok? then old(leaves) + [leaf] else old(leaves)
      ensures r.Ok? ==> count == old(count) + 1 && root == BatchRoot<Node>(SortedHash(sha), leaves)
      ensures r.Err? ==> unchanged(this)
    {
      if count >= MAX_LEAVES {
        return Err(BatchTooLarge);
      }
      var index := count;
      var level, node := Carry(leaf);
      FrontierAfterInsert<Node>(hash, leaves, leaf, leaves + [leaf], Unpack(frontier), level, node);
      SetSlot(level, node);
      leaves := leaves + [leaf];
      count := index + 1;
      root := ComputeRoot(hash, frontier, count, leaves);
      r := Ok(index);
    }
  }

  /** Inserting leaf by leaf into an empty tree gives the batch builder's root, byte for byte. */
  method InsertAll(sha: Sha, leaves: seq<Node>) returns (root: Node, count: nat)
    requires 0 < |leaves| <= 4_294_967_296
    ensures root == BatchRoot<Node>(SortedHash(sha), leaves) && count == |leaves|
  {
    var tree := new IncrementalTree(sha);
    for i := 0 to |leaves|
      invariant fresh(tree) && tree.Valid() && tree.sha == sha && tree.leaves == leaves[..i]
    {
      var index := tree.Insert(leaves[i]);
      assert leaves[..i] + [leaves[i]] == leaves[..i + 1];
    }
    assert leaves[..|leaves|] == leaves;
    root, count := tree.root, tree.count;
  }
}
