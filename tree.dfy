/**
 * The ratchet tree: a flat array of node slots addressed by node index, with
 * the index arithmetic of Appendix C of RFC 9420 for a full tree of depth `d`
 * (2^d leaves, 2^(d+1) - 1 nodes, leaf `i` at node `2i`).
 *
 * `Level` and `ParentOf` are written recursively rather than with bit masks:
 * a node at level k >= 1 is `2y + 1` where `y` is the corresponding node at
 * level k - 1 of the tree with half the width, so both the level and the
 * parent of `2y + 1` follow from those of `y`.
 */
module Tree {
  import opened Codec

  type NodeIndex = nat
  type LeafIndex = nat

  /** Number of trailing one bits: leaves are at level 0. */
  function Level(x: NodeIndex): nat
  {
    if x % 2 == 0 then 0 else 1 + Level(x / 2)
  }

  /** The parent of a node, as `parent` of Appendix C of RFC 9420 for full trees. */
  function ParentOf(x: NodeIndex): NodeIndex
  {
    if x % 2 == 0 then (if x % 4 == 0 then x + 1 else x - 1)
    else 2 * ParentOf(x / 2) + 1
  }

  /** Number of node slots in a full tree of the given depth. */
  function Width(depth: nat): nat
  {
    if depth == 0 then 1 else 2 * Width(depth - 1) + 1
  }

  /** The root of a full tree of the given depth: the node at level `depth`. */
  function RootOf(depth: nat): NodeIndex
  {
    if depth == 0 then 0 else 2 * RootOf(depth - 1) + 1
  }

  function LeafNodeIndex(leaf: LeafIndex): NodeIndex
  {
    2 * leaf
  }

  /** The parent of a node is exactly one level higher. */
  lemma {:induction false} LevelOfParent(x: NodeIndex)
    ensures Level(ParentOf(x)) == Level(x) + 1
  {
    if x % 2 == 0 {
      var k := x / 4;
      assert x == 4 * k || x == 4 * k + 2;
      assert ParentOf(x) == 4 * k + 1;
      assert (4 * k + 1) / 2 == 2 * k && (4 * k + 1) % 2 == 1;
      assert Level(2 * k) == 0;
    } else {
      var y := ParentOf(x / 2);
      LevelOfParent(x / 2);
      assert ParentOf(x) == 2 * y + 1;
      assert (2 * y + 1) / 2 == y && (2 * y + 1) % 2 == 1;
    }
  }

  /** Every node of a tree of depth `d` lies at level at most `d`, and only the root reaches `d`. */
  lemma {:induction false} LevelInTree(depth: nat, x: NodeIndex)
    requires x < Width(depth)
    ensures Level(x) <= depth
    ensures Level(x) == depth <==> x == RootOf(depth)
  {
    if depth > 0 && x % 2 == 1 {
      LevelInTree(depth - 1, x / 2);
    } else if depth > 0 {
      assert RootOf(depth) % 2 == 1;
    }
  }

  lemma {:induction false} WidthShape(depth: nat)
    requires depth > 0
    ensures Width(depth) % 4 == 3
  {
    if depth > 1 {
      WidthShape(depth - 1);
    }
  }

  /** Every node other than the root has its parent inside the tree, one level up. */
  lemma {:induction false} ParentInTree(depth: nat, x: NodeIndex)
    requires x < Width(depth) && x != RootOf(depth)
    ensures ParentOf(x) < Width(depth)
    ensures Level(x) < depth && Level(ParentOf(x)) == Level(x) + 1
  {
    LevelInTree(depth, x);
    LevelOfParent(x);
    if x % 2 == 0 {
      WidthShape(depth);
    } else {
      ParentInTree(depth - 1, x / 2);
    }
  }

  /**
   * `x` lies in the subtree rooted at `p`: `p` is `x` itself or one of its
   * ancestors.
   */
  function IsInSubtreeOf(x: NodeIndex, p: NodeIndex): bool
    decreases Level(p) - Level(x)
  {
    if Level(x) >= Level(p) then x == p
    else LevelOfParent(x); IsInSubtreeOf(ParentOf(x), p)
  }

  /** A node lies below its ancestors, and an ancestor at its own level is the node itself. */
  lemma {:induction false} SubtreeLevel(x: NodeIndex, p: NodeIndex)
    requires IsInSubtreeOf(x, p)
    ensures Level(x) <= Level(p)
    ensures Level(x) == Level(p) ==> x == p
    decreases Level(p) - Level(x)
  {
    if Level(x) < Level(p) {
      LevelOfParent(x);
      SubtreeLevel(ParentOf(x), p);
    }
  }

  /** For `y` other than `x`: `y` is an ancestor of `x` exactly when it is `x`'s parent or one of its ancestors. */
  lemma SubtreeStep(x: NodeIndex, y: NodeIndex)
    requires x != y
    ensures IsInSubtreeOf(x, y) <==> IsInSubtreeOf(ParentOf(x), y)
  {
    LevelOfParent(x);
    if IsInSubtreeOf(ParentOf(x), y) {
      SubtreeLevel(ParentOf(x), y);
    }
  }

  /** The leaf node as RFC 9420 section 7.2 has it; credential and capabilities are folded into `content`. */
  datatype LeafNode = LeafNode(
    encryptionKey: Bytes,
    signatureKey: Bytes,
    parentHash: Option<Bytes>,
    content: Bytes)

  datatype ParentNode = ParentNode(
    encryptionKey: Bytes,
    parentHash: Bytes,
    unmergedLeaves: seq<LeafIndex>)

  datatype Node = Leaf(leaf: LeafNode) | Parent(parent: ParentNode)
  {
    function EncryptionKey(): Bytes
    {
      match this
      case Leaf(l) => l.encryptionKey
      case Parent(p) => p.encryptionKey
    }

    /** The stored parent hash; a leaf may carry none. */
    function StoredParentHash(): Option<Bytes>
    {
      match this
      case Leaf(l) => l.parentHash
      case Parent(p) => Some(p.parentHash)
    }
  }

  /** A tree snapshot: `nodes[x]` is `None` when slot `x` is blank. */
  datatype RatchetTree = RatchetTree(depth: nat, nodes: seq<Option<Node>>)
  {
    /** Full width, leaves at even and parent nodes at odd indices. */
    predicate Valid()
    {
      && |nodes| == Width(depth)
      && forall x :: 0 <= x < |nodes| && nodes[x].Some? ==> (nodes[x].value.Leaf? <==> x % 2 == 0)
    }

    function Root(): NodeIndex
    {
      RootOf(depth)
    }

    function LeafCount(): nat
    {
      (|nodes| + 1) / 2
    }

    /** Slots outside the tree count as blank. */
    predicate IsBlank(x: NodeIndex)
    {
      x >= |nodes| || nodes[x].None?
    }

    predicate IsNonBlankLeaf(l: LeafIndex)
    {
      2 * l < |nodes| && nodes[2 * l].Some? && nodes[2 * l].value.Leaf?
    }

    predicate IsNonBlankParent(x: NodeIndex)
    {
      x < |nodes| && nodes[x].Some? && nodes[x].value.Parent?
    }

    function LeafNodeAt(l: LeafIndex): LeafNode
      requires IsNonBlankLeaf(l)
    {
      nodes[2 * l].value.leaf
    }

    /** The unmerged leaves of a parent node; other slots have none. */
    function UnmergedAt(x: NodeIndex): seq<LeafIndex>
    {
      if IsNonBlankParent(x) then nodes[x].value.parent.unmergedLeaves else []
    }
  }

  /** Parents are never leaves: the parent of any node has an odd index. */
  lemma ParentIsOdd(x: NodeIndex)
    ensures ParentOf(x) % 2 == 1
  {
  }

  /** Every leaf index below the leaf count addresses a slot of the tree. */
  lemma LeafSlotInTree(t: RatchetTree, l: LeafIndex)
    requires t.Valid() && l < t.LeafCount()
    ensures LeafNodeIndex(l) < |t.nodes|
  {
    assert Width(t.depth) % 2 == 1;
  }

  /** In a valid tree a non-blank leaf slot and a non-blank parent slot are never the same node. */
  lemma LeafIsNotParent(t: RatchetTree, l: LeafIndex, p: NodeIndex)
    requires t.Valid() && t.IsNonBlankParent(p) && !t.IsBlank(LeafNodeIndex(l))
    ensures LeafNodeIndex(l) != p && t.IsNonBlankLeaf(l)
  {
  }
}
