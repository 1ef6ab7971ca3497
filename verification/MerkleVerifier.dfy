/** The verifiers: a fold over an audit path, and two recursions popping one shared stack. */
module MerkleVerifier {
  import opened Digests
  import opened MerkleSpec
  import opened Options
  import opened PowersOfTwo

  /** The hash reached by climbing `path` from `start`, lowest step first. */
  function Climb<D(==)>(node: NodeFn<D>, start: D, path: seq<Step<D>>): D {
    if path == [] then start
    else
      var below := Climb(node, start, path[..|path| - 1]);
      var step := path[|path| - 1];
      match step.side
      case Right => node(below, step.sibling)
      case Left => node(step.sibling, below)
  }

  predicate InclusionAccepted<D(==)>(node: NodeFn<D>, leafHash: D, leafIndex: nat, treeSize: nat,
                              path: seq<Step<D>>, expectedRoot: D) {
    && leafIndex < treeSize
    && (if treeSize == 1 then path == [] && leafHash == expectedRoot
        else Climb(node, leafHash, path) == expectedRoot)
  }

  method VerifyInclusionProofByHash(H: HashFn, leafHash: Digest, leafIndex: nat, treeSize: nat,
                                    path: seq<Step<Digest>>, expectedRoot: Digest) returns (ok: bool)
    ensures ok == InclusionAccepted(NodeFnOf(H), leafHash, leafIndex, treeSize, path, expectedRoot)
  {
    if treeSize == 0 || leafIndex >= treeSize {
      return false;
    }
    if treeSize == 1 {
      return path == [] && leafIndex == 0 && leafHash == expectedRoot;
    }
    var currentHash := leafHash;
    for j := 0 to |path|
      invariant currentHash == Climb(NodeFnOf(H), leafHash, path[..j])
    {
      var step := path[j];
      assert path[..j + 1][..j] == path[..j];
      currentHash := match step.side
        case Right => HashChildren(H, currentHash, step.sibling)
        case Left => HashChildren(H, step.sibling, currentHash);
    }
    assert path[..|path|] == path;
    return currentHash == expectedRoot;
  }

  method VerifyInclusionProof(H: HashFn, rawLog: Bytes, leafIndex: nat, treeSize: nat,
                              path: seq<Step<Digest>>, expectedRoot: Digest) returns (ok: bool)
    ensures ok == InclusionAccepted(NodeFnOf(H), HashLeaf(H, rawLog), leafIndex, treeSize, path, expectedRoot)
  {
    ok := VerifyInclusionProofByHash(H, HashLeaf(H, rawLog), leafIndex, treeSize, path, expectedRoot);
  }

  /** The proof vector as the verifiers see it: the last element is the first to be popped. */
  datatype Stack<D> = Empty | Pushed(top: D, below: Stack<D>)

  function StackOf<D>(items: seq<D>): Stack<D> {
    if items == [] then Empty else Pushed(items[|items| - 1], StackOf(items[..|items| - 1]))
  }

  lemma StackOfPush<D>(items: seq<D>, item: D)
    ensures StackOf(items + [item]) == Pushed(item, StackOf(items))
  {
    assert (items + [item])[..|items|] == items;
  }

  lemma {:induction false} StackOfInjective<D>(a: seq<D>, b: seq<D>)
    requires StackOf(a) == StackOf(b)
    ensures a == b
    decreases |a|
  {
    if a == [] {
    } else {
      StackOfInjective(a[..|a| - 1], b[..|b| - 1]);
      assert a == a[..|a| - 1] + [a[|a| - 1]] && b == b[..|b| - 1] + [b[|b| - 1]];
    }
  }

  // What one verifier returns, together with what is left on the stack.
  datatype Outcome<T, D> = Outcome(result: Option<T>, rest: Stack<D>)

  /** Old and new root of a node whose right child `right` is new: the old root is the left one's. */
  function UnderNewRight<D(==)>(node: NodeFn<D>, sub: Outcome<(D, D), D>, right: D): Outcome<(D, D), D> {
    match sub.result
    case None => sub
    case Some(roots) => Outcome(Some((roots.0, node(roots.1, right))), sub.rest)
  }

  /** Old and new root of a node whose left child `left` is in both trees. */
  function UnderOldLeft<D(==)>(node: NodeFn<D>, left: D, sub: Outcome<(D, D), D>): Outcome<(D, D), D> {
    match sub.result
    case None => sub
    case Some(roots) => Outcome(Some((node(left, roots.0), node(left, roots.1))), sub.rest)
  }

  /** Both roots of the right-hand part of the tree, rebuilt from the stack: old, then new. */
  function SubproofRoots<D(==)>(node: NodeFn<D>, m: nat, n: nat, stack: Stack<D>): Outcome<(D, D), D>
    requires 1 <= m <= n
    decreases n
  {
    match stack
    case Empty => Outcome(None, Empty)
    case Pushed(top, below) =>
      if m == n then Outcome(Some((top, top)), below)
      else if m <= Split(n) then UnderNewRight(node, SubproofRoots(node, m, Split(n), below), top)
      else UnderOldLeft(node, top, SubproofRoots(node, m - Split(n), n - Split(n), below))
  }

  /** The new root, rebuilt from the old root and the stack while the old root fits. */
  function RebuiltRoot<D(==)>(node: NodeFn<D>, m: nat, n: nat, stack: Stack<D>, prevRoot: D): Outcome<D, D>
    requires 1 <= m <= n
    decreases n
  {
    if m == n then Outcome(Some(prevRoot), stack)
    else
      match stack
      case Empty => Outcome(None, Empty)
      case Pushed(top, below) =>
        if m <= Split(n) then
          match RebuiltRoot(node, m, Split(n), below, prevRoot)
          case Outcome(None, rest) => Outcome(None, rest)
          case Outcome(Some(left), rest) => Outcome(Some(node(left, top)), rest)
        else
          match SubproofRoots(node, m - Split(n), n - Split(n), below)
          case Outcome(None, rest) => Outcome(None, rest)
          case Outcome(Some(roots), rest) =>
            if node(top, roots.0) != prevRoot then Outcome(None, rest)
            else Outcome(Some(node(top, roots.1)), rest)
  }

  predicate ConsistencyAccepted<D(==)>(node: NodeFn<D>, m: nat, n: nat, prevRoot: D, currRoot: D, proof: seq<D>) {
    && 1 <= m <= n
    && (if m == n then proof == [] && prevRoot == currRoot
        else RebuiltRoot(node, m, n, StackOf(proof), prevRoot) == Outcome(Some(currRoot), Empty))
  }

  /** The proof vector the verifiers pop. */
  class ProofStack {
    var items: seq<Digest>

    constructor (items: seq<Digest>)
      ensures this.items == items
    {
      this.items := items;
    }

    method Pop() returns (r: Option<Digest>)
      modifies this
      ensures old(items) == [] ==> r == None && items == []
      ensures old(items) != [] ==> r == Some(old(items)[|old(items)| - 1]) && items == old(items)[..|old(items)| - 1]
    {
      if items == [] {
        r := None;
      } else {
        r := Some(items[|items| - 1]);
        items := items[..|items| - 1];
      }
    }
  }

  method VerifySubproofFull(H: HashFn, m: nat, n: nat, proof: ProofStack) returns (r: Option<(Digest, Digest)>)
    requires 1 <= m <= n
    modifies proof
    ensures Outcome(r, StackOf(proof.items)) == SubproofRoots(NodeFnOf(H), m, n, StackOf(old(proof.items)))
    decreases n
  {
    if m == n {
      var h := proof.Pop();
      if h.None? { return None; }
      return Some((h.value, h.value));
    }
    var k := Split(n);
    if m <= k {
      var right := proof.Pop();
      if right.None? { return None; }
      var sub := VerifySubproofFull(H, m, k, proof);
      if sub.None? { return None; }
      return Some((sub.value.0, HashChildren(H, sub.value.1, right.value)));
    } else {
      var left := proof.Pop();
      if left.None? { return None; }
      var sub := VerifySubproofFull(H, m - k, n - k, proof);
      if sub.None? { return None; }
      return Some((HashChildren(H, left.value, sub.value.0), HashChildren(H, left.value, sub.value.1)));
    }
  }

  method VerifyConsistencyInternal(H: HashFn, m: nat, n: nat, proof: ProofStack, prevRoot: Digest)
    returns (r: Option<Digest>)
    requires 1 <= m <= n
    modifies proof
    ensures Outcome(r, StackOf(proof.items)) == RebuiltRoot(NodeFnOf(H), m, n, StackOf(old(proof.items)), prevRoot)
    decreases n
  {
    if m == n {
      return Some(prevRoot);
    }
    var k := Split(n);
    if m <= k {
      var right := proof.Pop();
      if right.None? { return None; }
      var left := VerifyConsistencyInternal(H, m, k, proof, prevRoot);
      if left.None? { return None; }
      return Some(HashChildren(H, left.value, right.value));
    } else {
      var left := proof.Pop();
      if left.None? { return None; }
      var sub := VerifySubproofFull(H, m - k, n - k, proof);
      if sub.None? { return None; }
      var rebuilt := HashChildren(H, left.value, sub.value.0);
      if rebuilt != prevRoot { return None; }
      return Some(HashChildren(H, left.value, sub.value.1));
    }
  }

  method VerifyConsistencyProof(H: HashFn, prevSize: nat, currSize: nat, prevRoot: Digest, currRoot: Digest,
                                proof: seq<Digest>) returns (ok: bool)
    ensures ok == ConsistencyAccepted(NodeFnOf(H), prevSize, currSize, prevRoot, currRoot, proof)
  {
    if prevSize == 0 || prevSize > currSize {
      return false;
    }
    if prevSize == currSize {
      return proof == [] && prevRoot == currRoot;
    }
    var stack := new ProofStack(proof);
    var rebuilt := VerifyConsistencyInternal(H, prevSize, currSize, stack, prevRoot);
    match rebuilt
    case Some(root) => return stack.items == [] && root == currRoot;
    case None => return false;
  }
}
