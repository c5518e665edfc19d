/**
 * The integrity check a member runs on a ratchet tree it receives (RFC 9420
 * section 12.4.3.1): the tree hash must match the group context, every
 * non-blank parent must be parent-hash valid (section 7.9.2), unmerged leaves
 * must be consistent, no other node may hold a non-blank parent's
 * encryption key, and every leaf node must pass its own validation.
 *
 * Each check is an imperative method proved equal to a specification
 * function; the lemmas at the end say what the specifications mean.
 */
module TreeCheck {
  import opened Codec
  import opened Tree
  import opened Crypto
  import GroupContexts

  type GroupContext = GroupContexts.GroupContext

  /** Why an unmerged leaf of a parent node is rejected. */
  datatype UnmergedLeafProblem =
    | LeafIsBlank
    | NotADescendant
    | MissingFromIntermediate(node: NodeIndex)

  datatype TreeCheckError =
    | BadTreeHash(expected: Bytes, actual: Bytes)
    | NotParentHashValid(node: NodeIndex)
    | BadUnmergedLeaf(parent: NodeIndex, leaf: LeafIndex, problem: UnmergedLeafProblem)
    | DuplicateEncryptionKey(nodes: seq<NodeIndex>)
    | LeafNodeInvalid(leaf: LeafIndex, reason: string)

  /** The per-leaf validation of RFC 9420 section 7.3, which is not part of this model. */
  type LeafValidator = (RatchetTree, GroupContext, LeafIndex) -> Outcome<string>

  // ---------------------------------------------------------------------------
  // Parent-hash coverage
  // ---------------------------------------------------------------------------

  /**
   * The parent nodes the upward walk from leaf `leaf` claims above `cur`,
   * where `ref` is the node whose stored parent hash the next non-blank
   * ancestor must match. Blank ancestors are skipped; the walk stops at the
   * root, at a blank root, or at the first ancestor whose parent hash does
   * not match.
   */
  function ClaimsFrom(c: Crypto, s: SuiteId, t: RatchetTree, leaf: LeafIndex, cur: NodeIndex, ref: Node): seq<NodeIndex>
    requires t.Valid() && cur < |t.nodes|
    decreases t.depth - Level(cur)
  {
    if cur == t.Root() then []
    else
      ParentInTree(t.depth, cur);
      var p := ParentOf(cur);
      if t.IsBlank(p) && p != t.Root() then ClaimsFrom(c, s, t, leaf, p, ref)
      else if t.IsBlank(p) then []
      else if ref.StoredParentHash() == Some(c.parentHash(s, t, p, leaf)) then
        [p] + ClaimsFrom(c, s, t, leaf, p, t.nodes[p].value)
      else []
  }

  /** The parent nodes whose parent hash the non-blank leaf `leaf` vouches for. */
  function Claims(c: Crypto, s: SuiteId, t: RatchetTree, leaf: LeafIndex): seq<NodeIndex>
    requires t.Valid() && LeafNodeIndex(leaf) < |t.nodes| && !t.IsBlank(LeafNodeIndex(leaf))
  {
    ClaimsFrom(c, s, t, leaf, LeafNodeIndex(leaf), t.nodes[LeafNodeIndex(leaf)].value)
  }

  /** The coverage count of a node: `getOrDefault(x, 0)`. */
  function CountOf(cov: map<NodeIndex, nat>, x: NodeIndex): nat
  {
    if x in cov then cov[x] else 0
  }

  /** One more claim on `x`. */
  function Bump(cov: map<NodeIndex, nat>, x: NodeIndex): map<NodeIndex, nat>
  {
    cov[x := CountOf(cov, x) + 1]
  }

  function BumpAll(cov: map<NodeIndex, nat>, w: seq<NodeIndex>): map<NodeIndex, nat>
    decreases |w|
  {
    if w == [] then cov else BumpAll(Bump(cov, w[0]), w[1..])
  }

  /** The coverage map once the walks of leaves `0 .. n-1` have been made. */
  function CoverageAfter(c: Crypto, s: SuiteId, t: RatchetTree, n: nat): map<NodeIndex, nat>
    requires t.Valid() && n <= t.LeafCount()
  {
    if n == 0 then map[]
    else
      LeafSlotInTree(t, n - 1);
      var prev := CoverageAfter(c, s, t, n - 1);
      if t.IsBlank(LeafNodeIndex(n - 1)) then prev else BumpAll(prev, Claims(c, s, t, n - 1))
  }

  /** The number of non-blank leaves among `0 .. n-1` whose walk claims `x`. */
  function ClaimCount(c: Crypto, s: SuiteId, t: RatchetTree, n: nat, x: NodeIndex): nat
    requires t.Valid() && n <= t.LeafCount()
  {
    if n == 0 then 0
    else
      LeafSlotInTree(t, n - 1);
      ClaimCount(c, s, t, n - 1, x)
      + (if !t.IsBlank(LeafNodeIndex(n - 1)) && x in Claims(c, s, t, n - 1) then 1 else 0)
  }

  /** The first non-blank parent at index `x` or above whose coverage is not exactly one. */
  function FirstUncovered(t: RatchetTree, cov: map<NodeIndex, nat>, x: nat): Option<NodeIndex>
    decreases |t.nodes| - x
  {
    if x >= |t.nodes| then None
    else if t.IsNonBlankParent(x) && CountOf(cov, x) != 1 then Some(x)
    else FirstUncovered(t, cov, x + 1)
  }

  /** The outcome of `checkParentHashCoverage`. */
  function CoverageResult(c: Crypto, s: SuiteId, t: RatchetTree): Outcome<TreeCheckError>
    requires t.Valid()
  {
    match FirstUncovered(t, CoverageAfter(c, s, t, t.LeafCount()), 0)
    case None => Pass
    case Some(x) => Fail(NotParentHashValid(x))
  }

  /**
   * The walk from one leaf, adding each parent whose parent hash matches the
   * reference node to the coverage map.
   */
  method WalkLeaf(c: Crypto, s: SuiteId, t: RatchetTree, leafIdx: LeafIndex, phCoverage0: map<NodeIndex, nat>)
    returns (phCoverage: map<NodeIndex, nat>)
    requires t.Valid() && LeafNodeIndex(leafIdx) < |t.nodes| && !t.IsBlank(LeafNodeIndex(leafIdx))
    ensures phCoverage == BumpAll(phCoverage0, Claims(c, s, t, leafIdx))
  {
    phCoverage := phCoverage0;
    var currentRefNode := t.nodes[LeafNodeIndex(leafIdx)].value;
    var currentNode: NodeIndex := LeafNodeIndex(leafIdx);
    LevelInTree(t.depth, currentNode);
    while currentNode != t.Root()
      invariant currentNode < |t.nodes| && Level(currentNode) <= t.depth
      invariant BumpAll(phCoverage, ClaimsFrom(c, s, t, leafIdx, currentNode, currentRefNode))
             == BumpAll(phCoverage0, Claims(c, s, t, leafIdx))
      decreases t.depth - Level(currentNode)
    {
      ParentInTree(t.depth, currentNode);
      ghost var prev := currentNode;
      currentNode := ParentOf(currentNode);
      if t.IsBlank(currentNode) && currentNode != t.Root() {
        continue;
      } else if t.IsBlank(currentNode) {
        assert ClaimsFrom(c, s, t, leafIdx, prev, currentRefNode) == [];
        break;
      }
      var ph := c.parentHash(s, t, currentNode, leafIdx);
      if currentRefNode.StoredParentHash() == Some(ph) {
        phCoverage := Bump(phCoverage, currentNode);
        currentRefNode := t.nodes[currentNode].value;
      } else {
        assert ClaimsFrom(c, s, t, leafIdx, prev, currentRefNode) == [];
        break;
      }
    }
  }

  /**
   * `checkParentHashCoverage`: walks up from every non-blank leaf counting the
   * parents it vouches for, then fails on the first non-blank parent whose
   * count is not exactly one.
   */
  method CheckParentHashCoverage(c: Crypto, s: SuiteId, t: RatchetTree) returns (r: Outcome<TreeCheckError>)
    requires t.Valid()
    ensures r == CoverageResult(c, s, t)
  {
    var phCoverage: map<NodeIndex, nat> := map[];
    var leafIdx: LeafIndex := 0;
    while leafIdx < t.LeafCount()
      invariant leafIdx <= t.LeafCount()
      invariant phCoverage == CoverageAfter(c, s, t, leafIdx)
    {
      LeafSlotInTree(t, leafIdx);
      if !t.IsBlank(LeafNodeIndex(leafIdx)) {
        phCoverage := WalkLeaf(c, s, t, leafIdx, phCoverage);
      }
      leafIdx := leafIdx + 1;
    }
    var parentIdx: NodeIndex := 0;
    while parentIdx < |t.nodes|
      invariant parentIdx <= |t.nodes|
      invariant FirstUncovered(t, phCoverage, 0) == FirstUncovered(t, phCoverage, parentIdx)
    {
      if t.IsNonBlankParent(parentIdx) && CountOf(phCoverage, parentIdx) != 1 {
        return Fail(NotParentHashValid(parentIdx));
      }
      parentIdx := parentIdx + 1;
    }
    return Pass;
  }

  /** The nodes of `w` are non-blank parents and proper ancestors of `cur`, in strictly increasing level. */
  predicate AscendsFrom(t: RatchetTree, cur: NodeIndex, w: seq<NodeIndex>)
  {
    && (forall i :: 0 <= i < |w| ==> t.IsNonBlankParent(w[i]) && Level(cur) < Level(w[i]) && IsInSubtreeOf(cur, w[i]))
    && (forall i, j :: 0 <= i < j < |w| ==> Level(w[i]) < Level(w[j]))
  }

  /**
   * Every node a walk claims is a non-blank parent and a proper ancestor of
   * the node the walk starts from, and the walk only moves upward: the
   * levels of the claimed nodes strictly increase.
   */
  lemma {:induction false} ClaimsFromAscend(c: Crypto, s: SuiteId, t: RatchetTree, leaf: LeafIndex, cur: NodeIndex, ref: Node)
    requires t.Valid() && cur < |t.nodes|
    ensures AscendsFrom(t, cur, ClaimsFrom(c, s, t, leaf, cur, ref))
    decreases t.depth - Level(cur)
  {
    if cur != t.Root() {
      ParentInTree(t.depth, cur);
      ParentIsOdd(cur);
      var p := ParentOf(cur);
      var w := ClaimsFrom(c, s, t, leaf, cur, ref);
      if t.IsBlank(p) && p != t.Root() {
        ClaimsFromAscend(c, s, t, leaf, p, ref);
        assert w == ClaimsFrom(c, s, t, leaf, p, ref);
        forall i | 0 <= i < |w|
          ensures IsInSubtreeOf(cur, w[i])
        {
          SubtreeStep(cur, w[i]);
        }
      } else if !t.IsBlank(p) && ref.StoredParentHash() == Some(c.parentHash(s, t, p, leaf)) {
        var rest := ClaimsFrom(c, s, t, leaf, p, t.nodes[p].value);
        ClaimsFromAscend(c, s, t, leaf, p, t.nodes[p].value);
        assert w == [p] + rest;
        SubtreeStep(cur, p);
        assert IsInSubtreeOf(p, p);
        forall i | 0 <= i < |w|
          ensures t.IsNonBlankParent(w[i]) && Level(cur) < Level(w[i]) && IsInSubtreeOf(cur, w[i])
        {
          if i > 0 {
            assert w[i] == rest[i - 1];
            SubtreeStep(cur, w[i]);
          }
        }
        forall i, j | 0 <= i < j < |w|
          ensures Level(w[i]) < Level(w[j])
        {
          assert w[j] == rest[j - 1];
          if i > 0 {
            assert w[i] == rest[i - 1];
          }
        }
      }
    }
  }

  /**
   * One step of a walk from `cur` with reference node `ref`: a blank ancestor
   * other than the root is skipped and the reference kept, a blank root ends
   * the walk, and a non-blank ancestor is claimed exactly when its computed
   * parent hash equals the reference's stored one, in which case it becomes
   * the reference; otherwise the walk ends. A reference without a stored
   * parent hash never matches.
   */
  lemma WalkStep(c: Crypto, s: SuiteId, t: RatchetTree, leaf: LeafIndex, cur: NodeIndex, ref: Node)
    requires t.Valid() && cur < |t.nodes| && cur != t.Root()
    ensures var p := ParentOf(cur);
      && p < |t.nodes| && Level(p) == Level(cur) + 1
      && var w := ClaimsFrom(c, s, t, leaf, cur, ref);
      && (t.IsBlank(p) && p != t.Root() ==> w == ClaimsFrom(c, s, t, leaf, p, ref))
      && (t.IsBlank(p) && p == t.Root() ==> w == [])
      && (!t.IsBlank(p) ==> (p in w <==> ref.StoredParentHash() == Some(c.parentHash(s, t, p, leaf))))
      && (!t.IsBlank(p) && p in w ==> w == [p] + ClaimsFrom(c, s, t, leaf, p, t.nodes[p].value))
      && (!t.IsBlank(p) && p !in w ==> w == [])
      && (!t.IsBlank(p) && ref.StoredParentHash().None? ==> w == [])
  {
    ParentInTree(t.depth, cur);
  }

  /** A walk never claims the same parent twice. */
  lemma ClaimsDistinct(c: Crypto, s: SuiteId, t: RatchetTree, leaf: LeafIndex)
    requires t.Valid() && LeafNodeIndex(leaf) < |t.nodes| && !t.IsBlank(LeafNodeIndex(leaf))
    ensures var w := Claims(c, s, t, leaf); forall i, j :: 0 <= i < j < |w| ==> w[i] != w[j]
  {
    var w := Claims(c, s, t, leaf);
    ClaimsFromAscend(c, s, t, leaf, LeafNodeIndex(leaf), t.nodes[LeafNodeIndex(leaf)].value);
    forall i, j | 0 <= i < j < |w|
      ensures w[i] != w[j]
    {
      assert Level(w[i]) < Level(w[j]);
    }
  }

  /** Adding the claims of a walk without repeats raises each node's count by one exactly when the walk claims it. */
  lemma {:induction false} BumpAllCount(cov: map<NodeIndex, nat>, w: seq<NodeIndex>, x: NodeIndex)
    requires forall i, j :: 0 <= i < j < |w| ==> w[i] != w[j]
    ensures CountOf(BumpAll(cov, w), x) == CountOf(cov, x) + (if x in w then 1 else 0)
    decreases |w|
  {
    if w != [] {
      var tail := w[1..];
      assert forall i, j :: 0 <= i < j < |tail| ==> tail[i] == w[i + 1] && tail[j] == w[j + 1];
      BumpAllCount(Bump(cov, w[0]), tail, x);
      forall k | 0 <= k < |tail|
        ensures tail[k] != w[0]
      {
        assert tail[k] == w[k + 1];
      }
      assert w == [w[0]] + tail;
      assert x in w <==> x == w[0] || x in tail;
    }
  }

  /** The coverage map counts, for every node, how many non-blank leaves' walks claim it. */
  lemma {:induction false} CoverageCountsClaims(c: Crypto, s: SuiteId, t: RatchetTree, n: nat, x: NodeIndex)
    requires t.Valid() && n <= t.LeafCount()
    ensures CountOf(CoverageAfter(c, s, t, n), x) == ClaimCount(c, s, t, n, x)
  {
    if n > 0 {
      CoverageCountsClaims(c, s, t, n - 1, x);
      LeafSlotInTree(t, n - 1);
      if !t.IsBlank(LeafNodeIndex(n - 1)) {
        ClaimsDistinct(c, s, t, n - 1);
        BumpAllCount(CoverageAfter(c, s, t, n - 1), Claims(c, s, t, n - 1), x);
      }
    }
  }

  /** The scan finds the lowest non-blank parent at or above `x` whose count is not one, if there is any. */
  lemma {:induction false} FirstUncoveredMeaning(t: RatchetTree, cov: map<NodeIndex, nat>, x: nat)
    ensures FirstUncovered(t, cov, x).None? <==> forall y :: x <= y && t.IsNonBlankParent(y) ==> CountOf(cov, y) == 1
    ensures FirstUncovered(t, cov, x).Some? ==>
      var y := FirstUncovered(t, cov, x).value;
      && x <= y && t.IsNonBlankParent(y) && CountOf(cov, y) != 1
      && forall z :: x <= z < y && t.IsNonBlankParent(z) ==> CountOf(cov, z) == 1
    decreases |t.nodes| - x
  {
    if x < |t.nodes| {
      FirstUncoveredMeaning(t, cov, x + 1);
    }
  }

  /** Every non-blank parent is vouched for by the walk of exactly one non-blank leaf. */
  ghost predicate ParentHashesCovered(c: Crypto, s: SuiteId, t: RatchetTree)
    requires t.Valid()
  {
    forall p :: t.IsNonBlankParent(p) ==> ClaimCount(c, s, t, t.LeafCount(), p) == 1
  }

  /**
   * The coverage check passes exactly when every non-blank parent is claimed
   * by exactly one leaf; otherwise it names the lowest non-blank parent that
   * is claimed by none or by several.
   */
  lemma CoverageResultMeaning(c: Crypto, s: SuiteId, t: RatchetTree)
    requires t.Valid()
    ensures CoverageResult(c, s, t) == Pass <==> ParentHashesCovered(c, s, t)
    ensures CoverageResult(c, s, t).Fail? ==>
      var e := CoverageResult(c, s, t).error;
      && e.NotParentHashValid? && t.IsNonBlankParent(e.node)
      && ClaimCount(c, s, t, t.LeafCount(), e.node) != 1
      && forall q: NodeIndex :: q < e.node && t.IsNonBlankParent(q) ==> ClaimCount(c, s, t, t.LeafCount(), q) == 1
  {
    var cov := CoverageAfter(c, s, t, t.LeafCount());
    FirstUncoveredMeaning(t, cov, 0);
    forall p
      ensures CountOf(cov, p) == ClaimCount(c, s, t, t.LeafCount(), p)
    {
      CoverageCountsClaims(c, s, t, t.LeafCount(), p);
    }
  }

  // ---------------------------------------------------------------------------
  // Unmerged leaves
  // ---------------------------------------------------------------------------

  /**
   * Walking up from `cur` towards its ancestor `p`, the first non-blank node
   * below `p` that does not list `leaf` among its unmerged leaves.
   */
  function MissingIntermediate(t: RatchetTree, p: NodeIndex, leaf: LeafIndex, cur: NodeIndex): Option<NodeIndex>
    requires IsInSubtreeOf(cur, p)
    decreases Level(p) - Level(cur)
  {
    if cur == p then None
    else if !t.IsBlank(cur) && leaf !in t.UnmergedAt(cur) then Some(cur)
    else
      LevelOfParent(cur);
      MissingIntermediate(t, p, leaf, ParentOf(cur))
  }

  /** What is wrong with unmerged leaf `leaf` of the non-blank parent `p`, checked in the source's order. */
  function UnmergedLeafProblemOf(t: RatchetTree, p: NodeIndex, leaf: LeafIndex): Option<UnmergedLeafProblem>
    requires t.Valid() && t.IsNonBlankParent(p)
  {
    if t.IsBlank(LeafNodeIndex(leaf)) then Some(LeafIsBlank)
    else if !IsInSubtreeOf(LeafNodeIndex(leaf), p) then Some(NotADescendant)
    else
      LeafIsNotParent(t, leaf, p);
      match MissingIntermediate(t, p, leaf, ParentOf(LeafNodeIndex(leaf)))
      case None => None
      case Some(x) => Some(MissingFromIntermediate(x))
  }

  /** The outcome of checking the unmerged leaves of `p` from position `i` on. */
  function UnmergedCheck(t: RatchetTree, p: NodeIndex, i: nat): Outcome<TreeCheckError>
    requires t.Valid() && t.IsNonBlankParent(p) && i <= |t.UnmergedAt(p)|
    decreases |t.UnmergedAt(p)| - i
  {
    if i == |t.UnmergedAt(p)| then Pass
    else
      match UnmergedLeafProblemOf(t, p, t.UnmergedAt(p)[i])
      case Some(problem) => Fail(BadUnmergedLeaf(p, t.UnmergedAt(p)[i], problem))
      case None => UnmergedCheck(t, p, i + 1)
  }

  /**
   * `checkUnmergedLeaves`: every unmerged leaf of `p` must be non-blank, lie
   * below `p`, and be listed as unmerged by every non-blank node between it
   * and `p`; the first violation is reported.
   */
  method CheckUnmergedLeaves(t: RatchetTree, p: NodeIndex) returns (r: Outcome<TreeCheckError>)
    requires t.Valid() && t.IsNonBlankParent(p)
    ensures r == UnmergedCheck(t, p, 0)
  {
    var unmergedLeaves := t.nodes[p].value.parent.unmergedLeaves;
    var i := 0;
    while i < |unmergedLeaves|
      invariant i <= |unmergedLeaves| && unmergedLeaves == t.UnmergedAt(p)
      invariant UnmergedCheck(t, p, 0) == UnmergedCheck(t, p, i)
    {
      var leafIdx := unmergedLeaves[i];
      if t.IsBlank(LeafNodeIndex(leafIdx)) {
        return Fail(BadUnmergedLeaf(p, leafIdx, LeafIsBlank));
      }
      if !IsInSubtreeOf(LeafNodeIndex(leafIdx), p) {
        return Fail(BadUnmergedLeaf(p, leafIdx, NotADescendant));
      }
      LeafIsNotParent(t, leafIdx, p);
      var currentNode := ParentOf(LeafNodeIndex(leafIdx));
      while currentNode != p
        invariant IsInSubtreeOf(currentNode, p)
        invariant MissingIntermediate(t, p, leafIdx, ParentOf(LeafNodeIndex(leafIdx)))
               == MissingIntermediate(t, p, leafIdx, currentNode)
        decreases Level(p) - Level(currentNode)
      {
        if !t.IsBlank(currentNode) && leafIdx !in t.UnmergedAt(currentNode) {
          return Fail(BadUnmergedLeaf(p, leafIdx, MissingFromIntermediate(currentNode)));
        }
        LevelOfParent(currentNode);
        currentNode := ParentOf(currentNode);
      }
      i := i + 1;
    }
    return Pass;
  }

  /** `y` lies on the path from `x` (included) up to its ancestor `p` (excluded). */
  predicate OnPathBelow(x: NodeIndex, y: NodeIndex, p: NodeIndex)
  {
    y != p && IsInSubtreeOf(x, y) && IsInSubtreeOf(y, p)
  }

  /** The upward scan reports the lowest non-blank node below `p` that lacks `leaf`, and only such a node. */
  lemma {:induction false} MissingIntermediateMeaning(t: RatchetTree, p: NodeIndex, leaf: LeafIndex, cur: NodeIndex)
    requires IsInSubtreeOf(cur, p)
    ensures MissingIntermediate(t, p, leaf, cur).None? <==>
      forall y :: OnPathBelow(cur, y, p) && !t.IsBlank(y) ==> leaf in t.UnmergedAt(y)
    ensures MissingIntermediate(t, p, leaf, cur).Some? ==>
      var y := MissingIntermediate(t, p, leaf, cur).value;
      && OnPathBelow(cur, y, p) && !t.IsBlank(y) && leaf !in t.UnmergedAt(y)
      && forall z :: OnPathBelow(cur, z, y) && !t.IsBlank(z) ==> leaf in t.UnmergedAt(z)
    decreases Level(p) - Level(cur)
  {
    if cur == p {
      forall y | OnPathBelow(cur, y, p)
        ensures false
      {
        SubtreeLevel(cur, y);
        SubtreeLevel(y, p);
      }
    } else {
      SubtreeLevel(cur, p);
      LevelOfParent(cur);
      var up := ParentOf(cur);
      forall y | y != cur
        ensures OnPathBelow(cur, y, p) <==> OnPathBelow(up, y, p)
      {
        SubtreeStep(cur, y);
      }
      assert IsInSubtreeOf(cur, cur);
      if !t.IsBlank(cur) && leaf !in t.UnmergedAt(cur) {
        forall z | OnPathBelow(cur, z, cur)
          ensures false
        {
          SubtreeLevel(cur, z);
          SubtreeLevel(z, cur);
        }
      } else {
        MissingIntermediateMeaning(t, p, leaf, up);
        var m := MissingIntermediate(t, p, leaf, up);
        if m.Some? {
          var y := m.value;
          assert y != cur by {
            SubtreeLevel(up, y);
          }
          forall z | OnPathBelow(cur, z, y) && z != cur
            ensures OnPathBelow(up, z, y)
          {
            SubtreeStep(cur, z);
          }
        }
      }
    }
  }

  /** `y` lies strictly between the leaf node `x` and its ancestor `p`. */
  predicate Intermediate(x: NodeIndex, y: NodeIndex, p: NodeIndex)
  {
    y != x && OnPathBelow(x, y, p)
  }

  /**
   * Section 12.4.3.1 of RFC 9420 for one unmerged leaf of `p`: the leaf is
   * non-blank, lies below `p`, and every non-blank node strictly between
   * them lists it as unmerged too.
   */
  ghost predicate UnmergedLeafConsistent(t: RatchetTree, p: NodeIndex, leaf: LeafIndex)
  {
    && !t.IsBlank(LeafNodeIndex(leaf))
    && IsInSubtreeOf(LeafNodeIndex(leaf), p)
    && forall y :: Intermediate(LeafNodeIndex(leaf), y, p) && !t.IsBlank(y) ==> leaf in t.UnmergedAt(y)
  }

  /** An unmerged leaf is rejected exactly when it is inconsistent. */
  lemma UnmergedLeafRejectedIff(t: RatchetTree, p: NodeIndex, leaf: LeafIndex)
    requires t.Valid() && t.IsNonBlankParent(p)
    ensures UnmergedLeafProblemOf(t, p, leaf).None? <==> UnmergedLeafConsistent(t, p, leaf)
  {
    UnmergedLeafProblemMeaning(t, p, leaf);
  }

  /** The problem reported for an unmerged leaf names the condition that fails. */
  lemma UnmergedLeafProblemMeaning(t: RatchetTree, p: NodeIndex, leaf: LeafIndex)
    requires t.Valid() && t.IsNonBlankParent(p)
    ensures UnmergedLeafProblemOf(t, p, leaf).None? <==> UnmergedLeafConsistent(t, p, leaf)
    ensures UnmergedLeafProblemOf(t, p, leaf) == Some(LeafIsBlank) <==> t.IsBlank(LeafNodeIndex(leaf))
    ensures UnmergedLeafProblemOf(t, p, leaf) == Some(NotADescendant) <==>
      !t.IsBlank(LeafNodeIndex(leaf)) && !IsInSubtreeOf(LeafNodeIndex(leaf), p)
    ensures var r := UnmergedLeafProblemOf(t, p, leaf);
      r.Some? && r.value.MissingFromIntermediate? ==>
        var y := r.value.node;
        Intermediate(LeafNodeIndex(leaf), y, p) && !t.IsBlank(y) && leaf !in t.UnmergedAt(y)
  {
    var x := LeafNodeIndex(leaf);
    if !t.IsBlank(x) && IsInSubtreeOf(x, p) {
      LeafIsNotParent(t, leaf, p);
      var up := ParentOf(x);
      MissingIntermediateMeaning(t, p, leaf, up);
      forall y | y != x
        ensures OnPathBelow(x, y, p) <==> OnPathBelow(up, y, p)
      {
        SubtreeStep(x, y);
      }
      LevelOfParent(x);
      forall y | OnPathBelow(up, y, p)
        ensures y != x
      {
        SubtreeLevel(up, y);
      }
    }
  }

  /** Every unmerged leaf of `p` is consistent. */
  ghost predicate UnmergedLeavesConsistent(t: RatchetTree, p: NodeIndex)
  {
    forall i :: 0 <= i < |t.UnmergedAt(p)| ==> UnmergedLeafConsistent(t, p, t.UnmergedAt(p)[i])
  }

  /**
   * `e` reports the `j`-th unmerged leaf of `p`: the first one from position
   * `i` on that is inconsistent, together with its problem.
   */
  ghost predicate ReportsUnmergedLeaf(t: RatchetTree, p: NodeIndex, i: nat, j: nat, e: TreeCheckError)
    requires t.Valid() && t.IsNonBlankParent(p)
  {
    var u := t.UnmergedAt(p);
    && i <= j < |u|
    && !UnmergedLeafConsistent(t, p, u[j])
    && (forall k :: i <= k < j ==> UnmergedLeafConsistent(t, p, u[k]))
    && UnmergedLeafProblemOf(t, p, u[j]).Some?
    && e == BadUnmergedLeaf(p, u[j], UnmergedLeafProblemOf(t, p, u[j]).value)
  }

  /**
   * The unmerged-leaf check passes exactly when the remaining unmerged leaves
   * are all consistent; a failure names `p`, its first inconsistent listed
   * leaf and that leaf's problem.
   */
  lemma UnmergedCheckMeaning(t: RatchetTree, p: NodeIndex, i: nat)
    requires t.Valid() && t.IsNonBlankParent(p) && i <= |t.UnmergedAt(p)|
    ensures UnmergedCheck(t, p, i) == Pass <==>
      forall j :: i <= j < |t.UnmergedAt(p)| ==> UnmergedLeafConsistent(t, p, t.UnmergedAt(p)[j])
    ensures UnmergedCheck(t, p, i).Fail? ==>
      exists j: nat :: ReportsUnmergedLeaf(t, p, i, j, UnmergedCheck(t, p, i).error)
  {
    UnmergedCheckPassIff(t, p, i);
    UnmergedCheckFailure(t, p, i);
  }

  lemma {:induction false} UnmergedCheckPassIff(t: RatchetTree, p: NodeIndex, i: nat)
    requires t.Valid() && t.IsNonBlankParent(p) && i <= |t.UnmergedAt(p)|
    ensures UnmergedCheck(t, p, i) == Pass <==>
      forall j :: i <= j < |t.UnmergedAt(p)| ==> UnmergedLeafConsistent(t, p, t.UnmergedAt(p)[j])
    decreases |t.UnmergedAt(p)| - i
  {
    var u := t.UnmergedAt(p);
    if i < |u| {
      UnmergedLeafRejectedIff(t, p, u[i]);
      UnmergedCheckPassIff(t, p, i + 1);
      assert (forall j :: i <= j < |u| ==> UnmergedLeafConsistent(t, p, u[j]))
         <==> UnmergedLeafConsistent(t, p, u[i]) && (forall j :: i + 1 <= j < |u| ==> UnmergedLeafConsistent(t, p, u[j]));
    }
  }

  lemma {:induction false} UnmergedCheckFailure(t: RatchetTree, p: NodeIndex, i: nat)
    requires t.Valid() && t.IsNonBlankParent(p) && i <= |t.UnmergedAt(p)|
    ensures UnmergedCheck(t, p, i).Fail? ==>
      exists j: nat :: ReportsUnmergedLeaf(t, p, i, j, UnmergedCheck(t, p, i).error)
    decreases |t.UnmergedAt(p)| - i
  {
    var u := t.UnmergedAt(p);
    if i < |u| {
      UnmergedLeafRejectedIff(t, p, u[i]);
      if UnmergedLeafProblemOf(t, p, u[i]).Some? {
        assert ReportsUnmergedLeaf(t, p, i, i, UnmergedCheck(t, p, i).error);
      } else if UnmergedCheck(t, p, i).Fail? {
        UnmergedCheckFailure(t, p, i + 1);
        var j: nat :| ReportsUnmergedLeaf(t, p, i + 1, j, UnmergedCheck(t, p, i + 1).error);
        assert ReportsUnmergedLeaf(t, p, i, j, UnmergedCheck(t, p, i).error);
      }
    }
  }

  // ---------------------------------------------------------------------------
  // Duplicate encryption keys
  // ---------------------------------------------------------------------------

  /** Node `y` is a non-blank node other than the parent `p` holding `p`'s encryption key. */
  predicate SharesKey(t: RatchetTree, p: NodeIndex, y: NodeIndex)
    requires t.IsNonBlankParent(p)
  {
    y != p && !t.IsBlank(y) && t.nodes[y].value.EncryptionKey() == t.nodes[p].value.EncryptionKey()
  }

  /** The nodes at index `x` or above sharing `p`'s encryption key, in ascending order. */
  function DuplicateKeysFrom(t: RatchetTree, p: NodeIndex, x: nat): seq<NodeIndex>
    requires t.IsNonBlankParent(p)
    decreases |t.nodes| - x
  {
    if x >= |t.nodes| then []
    else if SharesKey(t, p, x) then [x] + DuplicateKeysFrom(t, p, x + 1)
    else DuplicateKeysFrom(t, p, x + 1)
  }

  /** The list holds exactly the nodes from `x` on that share `p`'s key, strictly ascending. */
  lemma {:induction false} DuplicateKeysMeaning(t: RatchetTree, p: NodeIndex, x: nat)
    requires t.IsNonBlankParent(p)
    ensures var d := DuplicateKeysFrom(t, p, x);
      && (forall i :: 0 <= i < |d| ==> x <= d[i])
      && (forall i, j :: 0 <= i < j < |d| ==> d[i] < d[j])
      && (forall y :: y in d <==> x <= y && SharesKey(t, p, y))
    decreases |t.nodes| - x
  {
    if x < |t.nodes| {
      DuplicateKeysMeaning(t, p, x + 1);
      var rest := DuplicateKeysFrom(t, p, x + 1);
      if SharesKey(t, p, x) {
        var d := [x] + rest;
        forall i, j | 0 <= i < j < |d|
          ensures d[i] < d[j]
        {
          assert d[j] == rest[j - 1];
          if i > 0 {
            assert d[i] == rest[i - 1];
          }
        }
      }
    }
  }

  /**
   * The nodes whose encryption key equals that of parent `p`: every
   * non-blank leaf and parent node other than `p` is compared, and the
   * matches come out sorted.
   */
  method DuplicateKeyNodes(t: RatchetTree, p: NodeIndex) returns (dups: seq<NodeIndex>)
    requires t.IsNonBlankParent(p)
    ensures dups == DuplicateKeysFrom(t, p, 0)
    ensures forall i, j :: 0 <= i < j < |dups| ==> dups[i] < dups[j]
    ensures forall y :: y in dups <==> SharesKey(t, p, y)
  {
    dups := [];
    var x: NodeIndex := 0;
    while x < |t.nodes|
      invariant x <= |t.nodes|
      invariant dups + DuplicateKeysFrom(t, p, x) == DuplicateKeysFrom(t, p, 0)
    {
      if x != p && !t.IsBlank(x) && t.nodes[x].value.EncryptionKey() == t.nodes[p].value.EncryptionKey() {
        assert DuplicateKeysFrom(t, p, x) == [x] + DuplicateKeysFrom(t, p, x + 1);
        dups := dups + [x];
      }
      x := x + 1;
    }
    assert dups == dups + DuplicateKeysFrom(t, p, x);
    DuplicateKeysMeaning(t, p, 0);
  }

  /** No other node shares the encryption key of parent `p`. */
  ghost predicate KeyUnique(t: RatchetTree, p: NodeIndex)
    requires t.IsNonBlankParent(p)
  {
    forall y :: !SharesKey(t, p, y)
  }

  // ---------------------------------------------------------------------------
  // The whole check
  // ---------------------------------------------------------------------------

  /** The per-parent checks, for parents at index `x` or above in ascending order: unmerged leaves, then keys. */
  function ParentChecksFrom(t: RatchetTree, x: nat): Outcome<TreeCheckError>
    requires t.Valid()
    decreases |t.nodes| - x
  {
    if x >= |t.nodes| then Pass
    else if t.IsNonBlankParent(x) then
      match UnmergedCheck(t, x, 0)
      case Fail(e) => Fail(e)
      case Pass =>
        var dups := DuplicateKeysFrom(t, x, 0);
        if dups != [] then Fail(DuplicateEncryptionKey(dups)) else ParentChecksFrom(t, x + 1)
    else ParentChecksFrom(t, x + 1)
  }

  /** The leaf validations, for leaves at index `l` or above in ascending order. */
  function LeafChecksFrom(t: RatchetTree, ctx: GroupContext, validate: LeafValidator, l: nat): Outcome<TreeCheckError>
    decreases t.LeafCount() - l
  {
    if l >= t.LeafCount() then Pass
    else if !t.IsBlank(LeafNodeIndex(l)) && validate(t, ctx, l).Fail? then
      Fail(LeafNodeInvalid(l, validate(t, ctx, l).error))
    else LeafChecksFrom(t, ctx, validate, l + 1)
  }

  /** The outcome of `RatchetTree.check(groupContext)`, the checks taken in the source's order. */
  function CheckSpec(c: Crypto, s: SuiteId, t: RatchetTree, ctx: GroupContext, validate: LeafValidator): Outcome<TreeCheckError>
    requires t.Valid()
  {
    var th := c.treeHash(s, t);
    if th != ctx.treeHash then Fail(BadTreeHash(ctx.treeHash, th))
    else
      match CoverageResult(c, s, t)
      case Fail(e) => Fail(e)
      case Pass =>
        match ParentChecksFrom(t, 0)
        case Fail(e) => Fail(e)
        case Pass => LeafChecksFrom(t, ctx, validate, 0)
  }

  /**
   * `RatchetTree.check(groupContext)`: raises the first error it meets, in
   * this order: tree hash, parent-hash coverage, then for each non-blank
   * parent its unmerged leaves and its encryption-key uniqueness, then the
   * validation of each non-blank leaf.
   */
  method Check(c: Crypto, s: SuiteId, t: RatchetTree, ctx: GroupContext, validate: LeafValidator)
    returns (r: Outcome<TreeCheckError>)
    requires t.Valid()
    ensures r == CheckSpec(c, s, t, ctx, validate)
  {
    var th := c.treeHash(s, t);
    if th != ctx.treeHash {
      return Fail(BadTreeHash(ctx.treeHash, th));
    }
    r := CheckParentHashCoverage(c, s, t);
    if r.Fail? {
      return;
    }
    var parentIdx: NodeIndex := 0;
    while parentIdx < |t.nodes|
      invariant parentIdx <= |t.nodes|
      invariant ParentChecksFrom(t, 0) == ParentChecksFrom(t, parentIdx)
    {
      if t.IsNonBlankParent(parentIdx) {
        r := CheckUnmergedLeaves(t, parentIdx);
        if r.Fail? {
          return;
        }
        var dups := DuplicateKeyNodes(t, parentIdx);
        if dups != [] {
          return Fail(DuplicateEncryptionKey(dups));
        }
      }
      parentIdx := parentIdx + 1;
    }
    var leafIdx: LeafIndex := 0;
    while leafIdx < t.LeafCount()
      invariant leafIdx <= t.LeafCount()
      invariant LeafChecksFrom(t, ctx, validate, 0) == LeafChecksFrom(t, ctx, validate, leafIdx)
    {
      if !t.IsBlank(LeafNodeIndex(leafIdx)) {
        var v := validate(t, ctx, leafIdx);
        if v.Fail? {
          return Fail(LeafNodeInvalid(leafIdx, v.error));
        }
      }
      leafIdx := leafIdx + 1;
    }
    return Pass;
  }

  /** Every non-blank parent has consistent unmerged leaves and an encryption key no other node holds. */
  ghost predicate ParentNodesConsistent(t: RatchetTree)
  {
    forall p :: t.IsNonBlankParent(p) ==> ParentConsistent(t, p)
  }

  /** Leaf `l` passes its own validation. */
  predicate LeafAccepted(t: RatchetTree, ctx: GroupContext, validate: LeafValidator, l: LeafIndex)
  {
    validate(t, ctx, l).Pass?
  }

  /** Every non-blank leaf passes its own validation. */
  ghost predicate LeavesAccepted(t: RatchetTree, ctx: GroupContext, validate: LeafValidator)
  {
    forall l: LeafIndex :: l < t.LeafCount() && !t.IsBlank(LeafNodeIndex(l)) ==> LeafAccepted(t, ctx, validate, l)
  }

  /** The non-blank parent `p` has consistent unmerged leaves and a unique encryption key. */
  ghost predicate ParentConsistent(t: RatchetTree, p: NodeIndex)
    requires t.IsNonBlankParent(p)
  {
    UnmergedLeavesConsistent(t, p) && KeyUnique(t, p)
  }

  /**
   * `e` reports parent `p`: the lowest non-blank parent from index `x` on that
   * is not consistent. It is the first bad unmerged leaf of `p` or, when those
   * are all consistent, the full list of nodes sharing `p`'s key.
   */
  ghost predicate ReportsParent(t: RatchetTree, x: nat, p: NodeIndex, e: TreeCheckError)
    requires t.Valid()
  {
    && x <= p && t.IsNonBlankParent(p) && !ParentConsistent(t, p)
    && (forall q: NodeIndex :: x <= q < p && t.IsNonBlankParent(q) ==> ParentConsistent(t, q))
    && if UnmergedLeavesConsistent(t, p) then
         DuplicateKeysFrom(t, p, 0) != [] && e == DuplicateEncryptionKey(DuplicateKeysFrom(t, p, 0))
       else
         exists j: nat :: ReportsUnmergedLeaf(t, p, 0, j, e)
  }

  /**
   * The per-parent checks pass exactly when every non-blank parent from `x`
   * on is consistent; a failure reports the lowest parent that is not.
   */
  lemma {:induction false} ParentChecksMeaning(t: RatchetTree, x: nat)
    requires t.Valid()
    ensures ParentChecksFrom(t, x) == Pass <==>
      forall p :: x <= p && t.IsNonBlankParent(p) ==> ParentConsistent(t, p)
    ensures ParentChecksFrom(t, x).Fail? ==>
      exists p: NodeIndex :: ReportsParent(t, x, p, ParentChecksFrom(t, x).error)
    decreases |t.nodes| - x
  {
    if x < |t.nodes| {
      ParentChecksMeaning(t, x + 1);
      if t.IsNonBlankParent(x) {
        UnmergedCheckMeaning(t, x, 0);
        DuplicateKeysMeaning(t, x, 0);
        var d := DuplicateKeysFrom(t, x, 0);
        if d != [] {
          assert SharesKey(t, x, d[0]);
          assert !KeyUnique(t, x);
        } else {
          assert KeyUnique(t, x);
        }
        if !ParentConsistent(t, x) {
          assert ReportsParent(t, x, x, ParentChecksFrom(t, x).error);
        } else if ParentChecksFrom(t, x).Fail? {
          var p: NodeIndex :| ReportsParent(t, x + 1, p, ParentChecksFrom(t, x + 1).error);
          assert ReportsParent(t, x, p, ParentChecksFrom(t, x).error);
        }
      } else if ParentChecksFrom(t, x).Fail? {
        var p: NodeIndex :| ReportsParent(t, x + 1, p, ParentChecksFrom(t, x + 1).error);
        assert ReportsParent(t, x, p, ParentChecksFrom(t, x).error);
      }
    }
  }

  /** The leaf validations pass exactly when every non-blank leaf from `l` on is accepted. */
  lemma {:induction false} LeafChecksMeaning(t: RatchetTree, ctx: GroupContext, validate: LeafValidator, l: nat)
    ensures LeafChecksFrom(t, ctx, validate, l) == Pass <==>
      forall k :: l <= k < t.LeafCount() && !t.IsBlank(LeafNodeIndex(k)) ==> LeafAccepted(t, ctx, validate, k)
    ensures LeafChecksFrom(t, ctx, validate, l).Fail? ==> LeafChecksFrom(t, ctx, validate, l).error.LeafNodeInvalid?
    decreases t.LeafCount() - l
  {
    if l < t.LeafCount() {
      LeafChecksMeaning(t, ctx, validate, l + 1);
    }
  }

  /**
   * A tree passes the check exactly when its hash is the one the group
   * context records, every non-blank parent is parent-hash valid through
   * exactly one leaf, every parent's unmerged leaves are consistent and its
   * encryption key is unique in the tree, and every non-blank leaf is valid.
   */
  lemma CheckPassesIff(c: Crypto, s: SuiteId, t: RatchetTree, ctx: GroupContext, validate: LeafValidator)
    requires t.Valid()
    ensures CheckSpec(c, s, t, ctx, validate) == Pass <==>
      && c.treeHash(s, t) == ctx.treeHash
      && ParentHashesCovered(c, s, t)
      && ParentNodesConsistent(t)
      && LeavesAccepted(t, ctx, validate)
  {
    CoverageResultMeaning(c, s, t);
    ParentChecksMeaning(t, 0);
    LeafChecksMeaning(t, ctx, validate, 0);
  }

  /**
   * The checks run in a fixed order: each kind of error is raised only when
   * every earlier kind of check has passed.
   */
  lemma CheckErrorOrder(c: Crypto, s: SuiteId, t: RatchetTree, ctx: GroupContext, validate: LeafValidator)
    requires t.Valid()
    ensures var r := CheckSpec(c, s, t, ctx, validate);
      && (c.treeHash(s, t) != ctx.treeHash ==> r == Fail(BadTreeHash(ctx.treeHash, c.treeHash(s, t))))
      && (r.Fail? && r.error.NotParentHashValid? ==>
            c.treeHash(s, t) == ctx.treeHash && !ParentHashesCovered(c, s, t)
            && t.IsNonBlankParent(r.error.node) && ClaimCount(c, s, t, t.LeafCount(), r.error.node) != 1)
      && (r.Fail? && (r.error.BadUnmergedLeaf? || r.error.DuplicateEncryptionKey?) ==>
            c.treeHash(s, t) == ctx.treeHash && ParentHashesCovered(c, s, t) && !ParentNodesConsistent(t)
            && exists p: NodeIndex :: ReportsParent(t, 0, p, r.error))
      && (r.Fail? && r.error.LeafNodeInvalid? ==>
            c.treeHash(s, t) == ctx.treeHash && ParentHashesCovered(c, s, t) && ParentNodesConsistent(t)
            && r.error.leaf < t.LeafCount() && !t.IsBlank(LeafNodeIndex(r.error.leaf))
            && !LeafAccepted(t, ctx, validate, r.error.leaf)
            && r.error.reason == validate(t, ctx, r.error.leaf).error
            && forall k: nat :: k < r.error.leaf && !t.IsBlank(LeafNodeIndex(k)) ==> LeafAccepted(t, ctx, validate, k))
  {
    CoverageResultMeaning(c, s, t);
    ParentChecksMeaning(t, 0);
    LeafChecksMeaning(t, ctx, validate, 0);
    LeafCheckFailure(t, ctx, validate, 0);
  }

  /**
   * A failing leaf validation names the lowest non-blank leaf from `l` on that
   * was not accepted, with that validator's own error as the reason.
   */
  lemma {:induction false} LeafCheckFailure(t: RatchetTree, ctx: GroupContext, validate: LeafValidator, l: nat)
    ensures var r := LeafChecksFrom(t, ctx, validate, l);
      r.Fail? ==> r.error.LeafNodeInvalid? && l <= r.error.leaf < t.LeafCount() && !t.IsBlank(LeafNodeIndex(r.error.leaf))
                  && !LeafAccepted(t, ctx, validate, r.error.leaf)
                  && r.error.reason == validate(t, ctx, r.error.leaf).error
                  && forall k: nat :: l <= k < r.error.leaf && !t.IsBlank(LeafNodeIndex(k)) ==> LeafAccepted(t, ctx, validate, k)
    decreases t.LeafCount() - l
  {
    if l < t.LeafCount() {
      LeafCheckFailure(t, ctx, validate, l + 1);
    }
  }

  // ---------------------------------------------------------------------------
  // Only parent keys are compared
  // ---------------------------------------------------------------------------

  /** `t` with the encryption key of its non-blank leaf `l` replaced by `k`. */
  function WithLeafKey(t: RatchetTree, l: LeafIndex, k: Bytes): RatchetTree
    requires t.IsNonBlankLeaf(l)
  {
    t.(nodes := t.nodes[2 * l := Some(Leaf(t.LeafNodeAt(l).(encryptionKey := k)))])
  }

  /** The two trees agree on which slots are blank, which are parents, and every unmerged-leaf list. */
  ghost predicate SameShape(t: RatchetTree, u: RatchetTree)
  {
    && |t.nodes| == |u.nodes|
    && (forall x :: t.IsBlank(x) <==> u.IsBlank(x))
    && (forall x :: t.IsNonBlankParent(x) <==> u.IsNonBlankParent(x))
    && (forall x :: t.UnmergedAt(x) == u.UnmergedAt(x))
  }

  lemma {:induction false} MissingIntermediateSameShape(t: RatchetTree, u: RatchetTree, p: NodeIndex, leaf: LeafIndex, cur: NodeIndex)
    requires SameShape(t, u) && IsInSubtreeOf(cur, p)
    ensures MissingIntermediate(t, p, leaf, cur) == MissingIntermediate(u, p, leaf, cur)
    decreases Level(p) - Level(cur)
  {
    if cur != p && (t.IsBlank(cur) || leaf in t.UnmergedAt(cur)) {
      LevelOfParent(cur);
      MissingIntermediateSameShape(t, u, p, leaf, ParentOf(cur));
    }
  }

  lemma {:induction false} UnmergedCheckSameShape(t: RatchetTree, u: RatchetTree, p: NodeIndex, i: nat)
    requires t.Valid() && u.Valid() && SameShape(t, u)
    requires t.IsNonBlankParent(p) && i <= |t.UnmergedAt(p)|
    ensures u.IsNonBlankParent(p) && UnmergedCheck(t, p, i) == UnmergedCheck(u, p, i)
    decreases |t.UnmergedAt(p)| - i
  {
    var w := t.UnmergedAt(p);
    if i < |w| {
      var x := LeafNodeIndex(w[i]);
      if !t.IsBlank(x) && IsInSubtreeOf(x, p) {
        LeafIsNotParent(t, w[i], p);
        MissingIntermediateSameShape(t, u, p, w[i], ParentOf(x));
      }
      UnmergedCheckSameShape(t, u, p, i + 1);
    }
  }

  lemma {:induction false} DuplicateKeysSameSharers(t: RatchetTree, u: RatchetTree, p: NodeIndex, x: nat)
    requires t.IsNonBlankParent(p) && u.IsNonBlankParent(p) && |t.nodes| == |u.nodes|
    requires forall y :: SharesKey(t, p, y) <==> SharesKey(u, p, y)
    ensures DuplicateKeysFrom(t, p, x) == DuplicateKeysFrom(u, p, x)
    decreases |t.nodes| - x
  {
    if x < |t.nodes| {
      DuplicateKeysSameSharers(t, u, p, x + 1);
    }
  }

  /** Trees of the same shape whose parents have the same key-sharers give the same per-parent outcome. */
  lemma {:induction false} ParentChecksSameShape(t: RatchetTree, u: RatchetTree, x: nat)
    requires t.Valid() && u.Valid() && SameShape(t, u)
    requires forall p, y :: t.IsNonBlankParent(p) ==> (SharesKey(t, p, y) <==> (u.IsNonBlankParent(p) && SharesKey(u, p, y)))
    ensures ParentChecksFrom(t, x) == ParentChecksFrom(u, x)
    decreases |t.nodes| - x
  {
    if x < |t.nodes| {
      if t.IsNonBlankParent(x) {
        UnmergedCheckSameShape(t, u, x, 0);
        DuplicateKeysSameSharers(t, u, x, 0);
      }
      ParentChecksSameShape(t, u, x + 1);
    }
  }

  /**
   * Only a parent's encryption key is compared with the other nodes: giving a
   * leaf a new key leaves the per-parent checks' outcome unchanged when no
   * parent holds the old key or the new one. So two leaves that share a key
   * are never reported as duplicates.
   */
  lemma LeafKeysNotCompared(t: RatchetTree, l: LeafIndex, k: Bytes)
    requires t.Valid() && t.IsNonBlankLeaf(l)
    requires forall p: NodeIndex :: t.IsNonBlankParent(p) ==>
      t.nodes[p].value.EncryptionKey() != k && t.nodes[p].value.EncryptionKey() != t.LeafNodeAt(l).encryptionKey
    ensures WithLeafKey(t, l, k).Valid()
    ensures ParentChecksFrom(WithLeafKey(t, l, k), 0) == ParentChecksFrom(t, 0)
  {
    var u := WithLeafKey(t, l, k);
    assert SameShape(t, u);
    forall p, y | t.IsNonBlankParent(p)
      ensures SharesKey(t, p, y) <==> (u.IsNonBlankParent(p) && SharesKey(u, p, y))
    {
      assert p != 2 * l;
    }
    ParentChecksSameShape(t, u, 0);
  }
}
