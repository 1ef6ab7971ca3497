/** The tree the source builds, and the proofs it hands out. */
module MerkleTree {
  import opened Digests
  import opened MerkleSpec
  import opened Options
  import opened PowersOfTwo

  datatype TreeNode =
    | Leaf(hash: Digest, index: nat)
    | Internal(hash: Digest, size: nat, left: TreeNode, right: TreeNode)

  /** The tree over the range `lo..hi`; the source's `offset` is where its slice starts. */
  function BuildSubtree(node: NodeFn<Digest>, leaves: seq<Digest>, lo: nat, hi: nat): TreeNode
    requires lo < hi <= |leaves|
    decreases hi - lo
  {
    var n := hi - lo;
    if n == 1 then Leaf(leaves[lo], lo)
    else
      var k := Split(n);
      var left := BuildSubtree(node, leaves, lo, lo + k);
      var right := BuildSubtree(node, leaves, lo + k, hi);
      Internal(node(left.hash, right.hash), n, left, right)
  }

  function LeafCount(t: TreeNode): (n: nat)
    ensures n >= 1
  {
    match t
    case Leaf(_, _) => 1
    case Internal(_, _, left, right) => LeafCount(left) + LeafCount(right)
  }

  /** Every internal node records its own leaf count. */
  predicate SizesRight(t: TreeNode) {
    t.Internal? ==> t.size == LeafCount(t) && SizesRight(t.left) && SizesRight(t.right)
  }

  /** From left to right the leaves of `t` are those from `lo` on, each with its own index. */
  predicate LeavesInOrder(t: TreeNode, leaves: seq<Digest>, lo: nat) {
    match t
    case Leaf(hash, index) => index == lo < |leaves| && hash == leaves[lo]
    case Internal(_, _, left, right) =>
      LeavesInOrder(left, leaves, lo) && LeavesInOrder(right, leaves, lo + LeafCount(left))
  }

  lemma {:induction false} BuildSubtreeCorrect(node: NodeFn<Digest>, leaves: seq<Digest>, lo: nat, hi: nat)
    requires lo < hi <= |leaves|
    ensures BuildSubtree(node, leaves, lo, hi).hash == RangeRoot(node, leaves, lo, hi)
    ensures LeafCount(BuildSubtree(node, leaves, lo, hi)) == hi - lo
    ensures SizesRight(BuildSubtree(node, leaves, lo, hi))
    ensures LeavesInOrder(BuildSubtree(node, leaves, lo, hi), leaves, lo)
    decreases hi - lo
  {
    if hi == lo + 1 {
    } else {
      var k := Split(hi - lo);
      BuildSubtreeCorrect(node, leaves, lo, lo + k);
      BuildSubtreeCorrect(node, leaves, lo + k, hi);
    }
  }

  /** The growable vector an audit path is collected into. */
  class PathBuffer {
    var steps: seq<Step<Digest>>

    constructor ()
      ensures steps == []
    {
      steps := [];
    }

    method Push(step: Step<Digest>)
      modifies this
      ensures steps == old(steps) + [step]
    {
      steps := steps + [step];
    }
  }

  /** On the tree built over a range, collecting pushes the audit path of the target within it. */
  method CollectAuditPath(t: TreeNode, target: nat, path: PathBuffer,
                          ghost node: NodeFn<Digest>, ghost leaves: seq<Digest>, ghost lo: nat, ghost hi: nat)
    requires lo + target < hi <= |leaves| && t == BuildSubtree(node, leaves, lo, hi)
    modifies path
    ensures path.steps == old(path.steps) + RangePath(node, leaves, lo, hi, target)
    decreases t
  {
    match t
    case Leaf(_, _) =>
    case Internal(_, size, left, right) =>
      var k := Split(size);
      ghost var mid := lo + k;
      if target < k {
        CollectAuditPath(left, target, path, node, leaves, lo, mid);
        assert right.hash == RangeRoot(node, leaves, mid, hi) by { BuildSubtreeCorrect(node, leaves, mid, hi); }
        path.Push(Step(right.hash, Right));
      } else {
        CollectAuditPath(right, target - k, path, node, leaves, mid, hi);
        assert left.hash == RangeRoot(node, leaves, lo, mid) by { BuildSubtreeCorrect(node, leaves, lo, mid); }
        path.Push(Step(left.hash, Left));
      }
  }

  datatype MerkleTree = MerkleTree(leafHashes: seq<Digest>, root: Digest, rootNode: Option<TreeNode>)

  function FromLeafHashes(H: HashFn, leaves: seq<Digest>): MerkleTree {
    if |leaves| == 0 then MerkleTree([], EmptyTreeHash(H), None)
    else
      var node := BuildSubtree(NodeFnOf(H), leaves, 0, |leaves|);
      MerkleTree(leaves, node.hash, Some(node))
  }

  function FromRawLogs(H: HashFn, logs: seq<Bytes>): MerkleTree {
    FromLeafHashes(H, LeafHashes(H, logs))
  }

  /** The root the source reports is the Merkle tree hash of section 2.1 of RFC 6962. */
  lemma FromRawLogsRoot(H: HashFn, logs: seq<Bytes>)
    ensures FromRawLogs(H, logs).root == Mth(H, logs)
  {
    RootOfLeafHashes(H, logs);
    if |logs| > 0 {
      BuildSubtreeCorrect(NodeFnOf(H), LeafHashes(H, logs), 0, |logs|);
    }
  }

  datatype MerkleError =
    | IndexOutOfBounds(index: nat, size: nat)
    | EmptyTree
    | InvalidConsistencySize(prevSize: nat, size: nat)

  datatype InclusionProof = InclusionProof(leafIndex: nat, treeSize: nat, auditPath: seq<Step<Digest>>)

  method GetInclusionProof(H: HashFn, tree: MerkleTree, index: nat) returns (r: Result<InclusionProof, MerkleError>)
    requires tree == FromLeafHashes(H, tree.leafHashes)
    ensures tree.leafHashes == [] ==> r == Err(EmptyTree)
    ensures tree.leafHashes != [] && index >= |tree.leafHashes| ==>
      r == Err(IndexOutOfBounds(index, |tree.leafHashes|))
    ensures index < |tree.leafHashes| ==>
      r == Ok(InclusionProof(index, |tree.leafHashes|, AuditPath(NodeFnOf(H), tree.leafHashes, index)))
  {
    var size := |tree.leafHashes|;
    if size == 0 {
      return Err(EmptyTree);
    }
    if index >= size {
      return Err(IndexOutOfBounds(index, size));
    }
    var auditPath := new PathBuffer();
    if tree.rootNode.Some? {
      CollectAuditPath(tree.rootNode.value, index, auditPath, NodeFnOf(H), tree.leafHashes, 0, size);
    }
    assert [] + AuditPath(NodeFnOf(H), tree.leafHashes, index) == AuditPath(NodeFnOf(H), tree.leafHashes, index);
    return Ok(InclusionProof(index, size, auditPath.steps));
  }

  /** The proof section 2.1.2 of RFC 6962 asks for; the generator below makes it. */
  function ConsistencyProof(node: NodeFn<Digest>, leaves: seq<Digest>, prevSize: nat):
    (r: Result<seq<Digest>, MerkleError>)
    ensures prevSize == |leaves| > 0 ==> r == Ok([])
  {
    if 1 <= prevSize <= |leaves| then Ok(Subproof(node, prevSize, leaves, 0, |leaves|, true))
    else Err(InvalidConsistencySize(prevSize, |leaves|))
  }

  lemma RootOfTree(H: HashFn, leaves: seq<Digest>)
    requires leaves != []
    ensures FromLeafHashes(H, leaves).root == RangeRoot(NodeFnOf(H), leaves, 0, |leaves|)
  {
    BuildSubtreeCorrect(NodeFnOf(H), leaves, 0, |leaves|);
  }

  lemma GeneratedWhole(H: HashFn, leaves: seq<Digest>, b: bool)
    requires leaves != []
    ensures Subproof(NodeFnOf(H), |leaves|, leaves, 0, |leaves|, b)
         == if b then [] else [FromLeafHashes(H, leaves).root]
  {
    RootOfTree(H, leaves);
  }

  lemma GeneratedOnLeft(H: HashFn, m: nat, leaves: seq<Digest>, k: nat, b: bool)
    requires |leaves| > 1 && k == Split(|leaves|) && 1 <= m <= k
    ensures Subproof(NodeFnOf(H), m, leaves, 0, |leaves|, b)
         == Subproof(NodeFnOf(H), m, leaves[..k], 0, k, b) + [FromLeafHashes(H, leaves[k..]).root]
  {
    SubproofOnLeftSlice(NodeFnOf(H), m, leaves, k, b);
    RootOfTree(H, leaves[k..]);
  }

  lemma GeneratedOnRight(H: HashFn, m: nat, leaves: seq<Digest>, k: nat, b: bool)
    requires |leaves| > 1 && k == Split(|leaves|) && k < m < |leaves|
    ensures Subproof(NodeFnOf(H), m, leaves, 0, |leaves|, b)
         == Subproof(NodeFnOf(H), m - k, leaves[k..], 0, |leaves| - k, false) + [FromLeafHashes(H, leaves[..k]).root]
  {
    SubproofOnRightSlice(NodeFnOf(H), m, leaves, k, b);
    RootOfTree(H, leaves[..k]);
  }

  /** The recursive generator: on slices, each root taken from a tree built over its slice, lowest first. */
  method GenerateSubproof(H: HashFn, m: nat, leaves: seq<Digest>, b: bool) returns (proof: seq<Digest>)
    requires 1 <= m <= |leaves|
    ensures proof == Subproof(NodeFnOf(H), m, leaves, 0, |leaves|, b)
    decreases |leaves|
  {
    var n := |leaves|;
    if m == n {
      GeneratedWhole(H, leaves, b);
      if b {
        return [];
      }
      return [FromLeafHashes(H, leaves).root];
    }
    var k := Split(n);
    if m <= k {
      proof := GenerateSubproof(H, m, leaves[..k], b);
      proof := proof + [FromLeafHashes(H, leaves[k..]).root];
      GeneratedOnLeft(H, m, leaves, k, b);
    } else {
      proof := GenerateSubproof(H, m - k, leaves[k..], false);
      proof := proof + [FromLeafHashes(H, leaves[..k]).root];
      GeneratedOnRight(H, m, leaves, k, b);
    }
  }

  method GetConsistencyProof(H: HashFn, tree: MerkleTree, prevSize: nat) returns (r: Result<seq<Digest>, MerkleError>)
    ensures r == ConsistencyProof(NodeFnOf(H), tree.leafHashes, prevSize)
    ensures r.Ok? <==> 1 <= prevSize <= |tree.leafHashes|
    ensures r.Ok? ==> r.value == Subproof(NodeFnOf(H), prevSize, tree.leafHashes, 0, |tree.leafHashes|, true)
    ensures r.Err? ==> r.error == InvalidConsistencySize(prevSize, |tree.leafHashes|)
  {
    var size := |tree.leafHashes|;
    if prevSize == 0 || prevSize > size {
      return Err(InvalidConsistencySize(prevSize, size));
    }
    if prevSize == size {
      return Ok([]);
    }
    var proof := GenerateSubproof(H, prevSize, tree.leafHashes, true);
    return Ok(proof);
  }
}
