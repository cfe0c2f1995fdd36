/**
 What an append-only Merkle tree remembers of its leaves: a binary counter with one
 subtree root per one-digit. Proves how the batch root is recovered from it, and how
 the carry of an insertion maintains it.
 */
module MerkleFrontier {
  import opened Prelude
  import opened Bits
  import opened MerkleTree

  /** Node `j` of level `l`; it is complete, so only its own `2^l` leaves matter. */
  ghost function Subtree<T>(h: (T, T) -> T, leaves: seq<T>, l: nat, j: nat): T
    requires j < Shr(|leaves|, l)
    decreases l
  {
    if l == 0 then leaves[j]
    else h(Subtree(h, leaves, l - 1, 2 * j), Subtree(h, leaves, l - 1, 2 * j + 1))
  }

  /** What the frontier of a tree over `leaves` holds: one slot per significant bit of the leaf count. */
  ghost predicate FrontierOf<T>(h: (T, T) -> T, leaves: seq<T>, slots: seq<T>) {
    && |slots| == BitLength(|leaves|)
    && forall i :: 0 <= i < |slots| && Bit(|leaves|, i) ==> slots[i] == Subtree(h, leaves, i, Shr(|leaves|, i) - 1)
  }

  // ---- complete subtrees and levels ----

  lemma {:induction false} ShrStep(n: nat, k: nat)
    requires n > 0
    ensures Shr(n - 1, k) <= Shr(n, k) <= Shr(n - 1, k) + 1
  {
    if k > 0 {
      ShrStep(n, k - 1);
    }
  }

  /** A complete subtree root is the batch tree's node at the same place. */
  lemma {:induction false} SubtreeIsNode<T>(h: (T, T) -> T, leaves: seq<T>, l: nat, j: nat)
    requires leaves != [] && j < Shr(|leaves|, l)
    ensures j < |Level(h, leaves, l)| && Level(h, leaves, l)[j] == Subtree(h, leaves, l, j)
    decreases l
  {
    ShrStep(|leaves|, l);
    LevelSize(h, leaves, l);
    if l > 0 {
      SubtreeIsNode(h, leaves, l - 1, 2 * j);
      SubtreeIsNode(h, leaves, l - 1, 2 * j + 1);
    }
  }

  /** Appending leaves never changes a complete subtree. */
  lemma {:induction false} SubtreeStable<T>(h: (T, T) -> T, leaves: seq<T>, leaf: T, l: nat, j: nat)
    requires j < Shr(|leaves|, l)
    ensures j < Shr(|leaves + [leaf]|, l)
    ensures Subtree(h, leaves + [leaf], l, j) == Subtree(h, leaves, l, j)
    decreases l
  {
    ShrStep(|leaves| + 1, l);
    if l > 0 {
      SubtreeStable(h, leaves, leaf, l - 1, 2 * j);
      SubtreeStable(h, leaves, leaf, l - 1, 2 * j + 1);
    }
  }

  lemma {:induction false} ShrOfPow2(l: nat, i: nat)
    requires i <= l
    ensures Shr(Pow2(l), i) == Pow2(l - i)
  {
    if i > 0 {
      ShrOfPow2(l, i - 1);
    }
  }

  /** Subtrees of a slice that starts at a multiple of `2^l` are subtrees of the whole. */
  lemma {:induction false} SubtreeOfSlice<T>(h: (T, T) -> T, leaves: seq<T>, l: nat, j: nat, i: nat, k: nat)
    requires i <= l && (j + 1) * Pow2(l) <= |leaves| && k < Pow2(l - i) && 0 <= j * Pow2(l)
    ensures |leaves[j * Pow2(l)..(j + 1) * Pow2(l)]| == Pow2(l)
    ensures k < Shr(Pow2(l), i) && j * Pow2(l - i) + k < Shr(|leaves|, i)
    ensures Subtree(h, leaves[j * Pow2(l)..(j + 1) * Pow2(l)], i, k) == Subtree(h, leaves, i, j * Pow2(l - i) + k)
    decreases i
  {
    var slice := leaves[j * Pow2(l)..(j + 1) * Pow2(l)];
    assert (j + 1) * Pow2(l) == j * Pow2(l) + Pow2(l);
    ShrOfPow2(l, i);
    if i > 0 {
      assert j * Pow2(l - i + 1) == 2 * (j * Pow2(l - i));
      SubtreeOfSlice(h, leaves, l, j, i - 1, 2 * k);
      SubtreeOfSlice(h, leaves, l, j, i - 1, 2 * k + 1);
    }
  }

  /** A complete subtree at level `l` is the batch root of its own `2^l` leaves. */
  lemma SubtreeIsBatchRoot<T>(h: (T, T) -> T, leaves: seq<T>, l: nat, j: nat)
    requires 0 <= j * Pow2(l) && (j + 1) * Pow2(l) <= |leaves|
    ensures j < Shr(|leaves|, l) && 0 <= j * Pow2(l) < (j + 1) * Pow2(l)
    ensures BatchRoot(h, leaves[j * Pow2(l)..(j + 1) * Pow2(l)]) == Subtree(h, leaves, l, j)
  {
    var slice := leaves[j * Pow2(l)..(j + 1) * Pow2(l)];
    SubtreeOfSlice(h, leaves, l, j, l, 0);
    SubtreeIsNode(h, slice, l, 0);
    RootAtTop(h, slice);
    DepthOfPow2(l);
  }

  lemma {:induction false} DepthOfPow2(l: nat)
    ensures Depth(Pow2(l)) == l
  {
    if l > 0 {
      DepthOfPow2(l - 1);
      assert (Pow2(l) - 1) / 2 == Pow2(l - 1) - 1;
    }
  }

  // ---- the root from the frontier ----

  /** `partial` is the last node of a level of which only the first `complete` nodes are complete. */
  ghost predicate IsPartial<T>(level: seq<T>, complete: nat, partial: Option<T>) {
    match partial
    case None => |level| == complete
    case Some(p) => |level| == complete + 1 && p == level[complete]
  }

  /** The step of the root computation from one level to the next. */
  function NextPartial<T>(h: (T, T) -> T, partial: Option<T>, bitSet: bool, slot: T): Option<T> {
    match (partial, bitSet)
    case (Some(p), true) => Some(h(slot, p))
    case (Some(p), false) => Some(h(p, p))
    case (None, true) => Some(h(slot, slot))
    case (None, false) => None
  }

  lemma NextPartialOfLevel<T>(h: (T, T) -> T, level: seq<T>, complete: nat, partial: Option<T>, slot: T)
    requires level != [] && IsPartial(level, complete, partial)
    requires complete % 2 == 1 ==> slot == level[complete - 1]
    ensures IsPartial(NextLevel(h, level), complete / 2, NextPartial(h, partial, complete % 2 == 1, slot))
  {
    var next := NextLevel(h, level);
    var k := |next| - 1;
    assert next[k] == h(level[2 * k], RightOf(level, k));
  }

  ghost predicate PartialAt<T>(h: (T, T) -> T, leaves: seq<T>, l: nat, partial: Option<T>)
    requires leaves != []
  {
    IsPartial(Level(h, leaves, l), Shr(|leaves|, l), partial)
  }

  lemma PartialStep<T>(h: (T, T) -> T, leaves: seq<T>, slots: seq<T>, l: nat, partial: Option<T>, slot: T)
    requires leaves != [] && FrontierOf(h, leaves, slots) && PartialAt(h, leaves, l, partial)
    requires Shr(|leaves| - 1, l) != 0 && (Bit(|leaves|, l) && l < |slots| ==> slot == slots[l])
    ensures l < Depth(|leaves|)
    ensures PartialAt(h, leaves, l + 1, NextPartial(h, partial, Bit(|leaves|, l), slot))
  {
    BitLengthExact(|leaves| - 1, l);
    if Bit(|leaves|, l) {
      SlotIsNode(h, leaves, slots, l);
    }
    NextPartialOfLevel(h, Level(h, leaves, l), Shr(|leaves|, l), partial, slot);
  }

  /** The level at which the root computation stops is the root alone. */
  lemma TopLevel<T>(h: (T, T) -> T, leaves: seq<T>, l: nat)
    requires leaves != [] && l <= Depth(|leaves|) && Shr(|leaves| - 1, l) == 0
    ensures Level(h, leaves, l) == [BatchRoot(h, leaves)]
  {
    BitLengthExact(|leaves| - 1, l);
    RootAtTop(h, leaves);
  }

  /** At the top level the root is the partial node, or else the frontier's own slot. */
  lemma RootFromFrontier<T>(h: (T, T) -> T, leaves: seq<T>, slots: seq<T>, l: nat, partial: Option<T>)
    requires leaves != [] && FrontierOf(h, leaves, slots)
    requires l <= Depth(|leaves|) && Shr(|leaves| - 1, l) == 0 && PartialAt(h, leaves, l, partial)
    ensures match partial
            case None => l < |slots| && slots[l] == BatchRoot(h, leaves)
            case Some(p) => p == BatchRoot(h, leaves)
  {
    TopLevel(h, leaves, l);
    OnlyNode(Level(h, leaves, l), Shr(|leaves|, l), partial, BatchRoot(h, leaves));
    if partial.None? {
      SlotIsNode(h, leaves, slots, l);
    }
  }

  lemma OnlyNode<T>(level: seq<T>, complete: nat, partial: Option<T>, root: T)
    requires IsPartial(level, complete, partial) && level == [root]
    ensures if partial.None? then complete == 1 else partial.value == root
  {
  }

  /** A slot that counts holds the last complete node of its level. */
  lemma SlotIsNode<T>(h: (T, T) -> T, leaves: seq<T>, slots: seq<T>, l: nat)
    requires leaves != [] && FrontierOf(h, leaves, slots) && Bit(|leaves|, l)
    ensures l < |slots| && 0 < Shr(|leaves|, l) <= |Level(h, leaves, l)|
    ensures slots[l] == Level(h, leaves, l)[Shr(|leaves|, l) - 1]
  {
    BitLengthExact(|leaves|, l);
    SubtreeIsNode(h, leaves, l, Shr(|leaves|, l) - 1);
  }

  // ---- the carry of an insertion ----

  /** Bits of `n` below `level` are all set: adding one carries at least that far. */
  ghost predicate Carries(n: nat, level: nat) {
    forall i :: 0 <= i < level ==> Bit(n, i)
  }

  lemma {:induction false} CarryShifts(n: nat, level: nat)
    requires Carries(n, level)
    ensures Shr(n + 1, level) == Shr(n, level) + 1
  {
    if level > 0 {
      CarryShifts(n, level - 1);
      assert Bit(n, level - 1);
    }
  }

  /** Above the level where the carry stops nothing changes. */
  lemma {:induction false} CarryStops(n: nat, level: nat, i: nat)
    requires Carries(n, level) && !Bit(n, level) && i > level
    ensures Shr(n + 1, i) == Shr(n, i)
  {
    if i == level + 1 {
      CarryShifts(n, level);
    } else {
      CarryStops(n, level, i - 1);
    }
  }

  /** The bit length after an insertion whose carry stops at `level`. */
  lemma CarryLength(n: nat, level: nat)
    requires Carries(n, level) && !Bit(n, level)
    ensures level <= BitLength(n)
    ensures BitLength(n + 1) == if level == BitLength(n) then level + 1 else BitLength(n)
  {
    if level > 0 {
      assert Bit(n, level - 1);
      BitLengthExact(n, level - 1);
    }
    var b := BitLength(n);
    CarryShifts(n, level);
    CarryStops(n, level, level + 1);
    BitLengthExact(n, level);
    BitLengthExact(n + 1, level);
    BitLengthExact(n + 1, level + 1);
    if level < b {
      BitLengthExact(n, b);
      BitLengthExact(n + 1, b);
      CarryStops(n, level, b);
      BitLengthExact(n, b - 1);
      BitLengthExact(n + 1, b - 1);
      if level < b - 1 {
        CarryStops(n, level, b - 1);
      }
    }
  }

  /** The insertion of the last of the leaves `more` has carried up to `level`, where it closes the subtree `node`. */
  ghost predicate CarriedTo<T>(h: (T, T) -> T, more: seq<T>, level: nat, node: T)
    requires more != []
  {
    var n := |more| - 1;
    Carries(n, level) && Shr(n, level) < Shr(n + 1, level) && node == Subtree(h, more, level, Shr(n, level))
  }

  /** One carry of an insertion closes the next larger subtree. */
  lemma CarryStep<T>(h: (T, T) -> T, leaves: seq<T>, leaf: T, more: seq<T>, slots: seq<T>, level: nat, node: T)
    requires FrontierOf(h, leaves, slots) && more == leaves + [leaf]
    requires CarriedTo(h, more, level, node) && Bit(|leaves|, level)
    ensures level < |slots| && CarriedTo(h, more, level + 1, h(slots[level], node))
  {
    BitLengthExact(|leaves|, level);
    CarryShifts(|leaves|, level);
    CarryShifts(|leaves|, level + 1);
    SubtreeStable(h, leaves, leaf, level, Shr(|leaves|, level) - 1);
  }

  function PutSlot<T>(slots: seq<T>, level: nat, node: T): seq<T>
    requires level <= |slots|
  {
    if level == |slots| then slots + [node] else slots[level := node]
  }

  /** Writing the carried node at the level where the carry stops restores the frontier. */
  lemma FrontierAfterInsert<T>(
    h: (T, T) -> T, leaves: seq<T>, leaf: T, more: seq<T>, slots: seq<T>, level: nat, node: T)
    requires FrontierOf(h, leaves, slots) && more == leaves + [leaf] && level <= |slots|
    requires CarriedTo(h, more, level, node) && !Bit(|leaves|, level)
    ensures FrontierOf(h, more, PutSlot(slots, level, node))
  {
    var next := PutSlot(slots, level, node);
    CarryLength(|leaves|, level);
    assert |next| == BitLength(|more|);
    forall i | 0 <= i < |next| && Bit(|more|, i) ensures next[i] == Subtree(h, more, i, Shr(|more|, i) - 1) {
      SlotAfterInsert(h, leaves, leaf, more, slots, level, node, i);
    }
  }

  /** A slot that counts after the insertion: the written one, or one above it that has not changed. */
  lemma SlotAfterInsert<T>(
    h: (T, T) -> T, leaves: seq<T>, leaf: T, more: seq<T>, slots: seq<T>, level: nat, node: T, i: nat)
    requires FrontierOf(h, leaves, slots) && more == leaves + [leaf] && level <= |slots|
    requires CarriedTo(h, more, level, node) && !Bit(|leaves|, level)
    requires i < |PutSlot(slots, level, node)| && Bit(|more|, i)
    ensures PutSlot(slots, level, node)[i] == Subtree(h, more, i, Shr(|more|, i) - 1)
  {
    var n := |leaves|;
    if i <= level {
      assert i < level ==> Bit(n, i);
      CarryShifts(n, i);
    } else {
      CarryStops(n, level, i);
      SubtreeStable(h, leaves, leaf, i, Shr(n, i) - 1);
    }
  }
}
