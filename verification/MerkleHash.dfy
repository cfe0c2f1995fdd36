/**
 The pair hash of the receipt contracts: SHA-256 of the two nodes in sorted
 order. SHA-256 itself is a parameter; nothing is assumed about it.
 */
module MerkleHash {
  import opened Prelude

  type Node = s: seq<byte> | |s| == 32 witness seq(32, _ => 0)
  type PairHash = (Node, Node) -> Node
  type Sha = seq<byte> -> Node

  /** Lexicographic order, the order of Rust's byte arrays. */
  predicate LexLeq(a: seq<byte>, b: seq<byte>) {
    a == [] || (b != [] && (a[0] < b[0] || (a[0] == b[0] && LexLeq(a[1..], b[1..]))))
  }

  /** The 64 bytes that are hashed for a pair of siblings. */
  function SortedPair(a: Node, b: Node): (s: seq<byte>)
    ensures |s| == 64
  {
    if LexLeq(a, b) then a + b else b + a
  }

  function HashPair(sha: Sha, a: Node, b: Node): Node {
    sha(SortedPair(a, b))
  }

  lemma {:induction false} LexTotal(a: seq<byte>, b: seq<byte>)
    ensures LexLeq(a, b) || LexLeq(b, a)
  {
    if a != [] && b != [] {
      LexTotal(a[1..], b[1..]);
    }
  }

  lemma {:induction false} LexAntisymmetric(a: seq<byte>, b: seq<byte>)
    requires LexLeq(a, b) && LexLeq(b, a)
    ensures a == b
  {
    if a != [] {
      LexAntisymmetric(a[1..], b[1..]);
      assert a == [a[0]] + a[1..] && b == [b[0]] + b[1..];
    }
  }

  /** `a` comes strictly before `b`: they agree up to byte `i`, where `a` has the smaller one. */
  predicate Precedes(a: Node, b: Node, i: nat) {
    i < 32 && a[..i] == b[..i] && a[i] < b[i]
  }

  /** Where two different lists in lexicographic order first differ. */
  lemma {:induction false} FirstDifference(a: seq<byte>, b: seq<byte>) returns (i: nat)
    requires |a| == |b| && a != b && LexLeq(a, b)
    ensures i < |a| && a[..i] == b[..i] && a[i] < b[i]
  {
    if a[0] < b[0] {
      i := 0;
    } else {
      assert a == [a[0]] + a[1..] && b == [b[0]] + b[1..];
      var k := FirstDifference(a[1..], b[1..]);
      i := k + 1;
      assert a[..i] == [a[0]] + a[1..][..k] && b[..i] == [b[0]] + b[1..][..k];
    }
  }

  lemma {:induction false} SmallerFirst(a: seq<byte>, b: seq<byte>, i: nat)
    requires i < |a| == |b| && a[..i] == b[..i] && a[i] < b[i]
    ensures LexLeq(a, b) && !LexLeq(b, a)
  {
    if i > 0 {
      assert a[0] == a[..i][0] == b[..i][0] == b[0];
      assert a[1..][..i - 1] == a[..i][1..] == b[..i][1..] == b[1..][..i - 1];
      SmallerFirst(a[1..], b[1..], i - 1);
    }
  }

  /** What is hashed is the pair itself, the smaller node first. */
  lemma SortedPairOrdered(a: Node, b: Node)
    ensures var s := SortedPair(a, b);
            && {s[..32], s[32..]} == {a, b}
            && (a == b || exists i: nat :: Precedes(s[..32], s[32..], i))
  {
    LexTotal(a, b);
    var s := SortedPair(a, b);
    assert (s[..32] == a && s[32..] == b) || (s[..32] == b && s[32..] == a);
    if a != b {
      var i := FirstDifference(s[..32], s[32..]);
      assert Precedes(s[..32], s[32..], i);
    }
  }

  /** The pair hash of two nodes, in whichever order they come: the digest of the smaller and then the larger. */
  lemma HashesSmallerFirst(sha: Sha, a: Node, b: Node, i: nat)
    requires Precedes(a, b, i)
    ensures SortedHash(sha)(a, b) == sha(a + b) == SortedHash(sha)(b, a)
    ensures SortedHash(sha)(a, a) == sha(a + a)
  {
    SmallerFirst(a, b, i);
  }

  /** Sibling order never matters, so a proof needs no left/right flags. */
  lemma SortedPairSymmetric(a: Node, b: Node)
    ensures SortedPair(a, b) == SortedPair(b, a)
  {
    LexTotal(a, b);
    if LexLeq(a, b) && LexLeq(b, a) {
      LexAntisymmetric(a, b);
    }
  }

  /** The hashed bytes determine the unordered pair. */
  lemma SortedPairInjective(a: Node, b: Node, c: Node, d: Node)
    requires SortedPair(a, b) == SortedPair(c, d)
    ensures (a == c && b == d) || (a == d && b == c)
  {
    var s, t := SortedPair(a, b), SortedPair(c, d);
    assert s[..32] == t[..32] && s[32..] == t[32..];
    assert (s[..32] == a && s[32..] == b) || (s[..32] == b && s[32..] == a);
    assert (t[..32] == c && t[32..] == d) || (t[..32] == d && t[32..] == c);
  }

  /** The pair hash as a value, to build trees with. */
  function SortedHash(sha: Sha): PairHash {
    (a: Node, b: Node) => HashPair(sha, a, b)
  }
}
