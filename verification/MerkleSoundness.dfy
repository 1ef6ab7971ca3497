/**
 What an accepted proof proves, whoever supplied it. No property of the hash function is assumed:
 each theorem ends in "or this pair collides", and the pair is computed by a function from the
 proof and the tree, so a false acceptance hands over a collision.
 */
module MerkleSoundness {
  import opened Digests
  import opened MerkleProofTheory
  import opened MerkleSpec
  import opened MerkleTree
  import opened MerkleVerifier
  import opened Options
  import opened PowersOfTwo

  // ----- The root binds the whole list of logs -----

  /** Where two different lists with one root collide: the highest place their inputs differ. */
  function ListCollision(H: HashFn, a: seq<Bytes>, b: seq<Bytes>): Pair
    decreases |a|
  {
    var x, y := TopInput(H, a), TopInput(H, b);
    if x != y || |a| < 2 || |b| < 2 then Pair(x, y)
    else
      var j, k := Split(|a|), Split(|b|);
      if a[..j] != b[..k] then ListCollision(H, a[..j], b[..k])
      else ListCollision(H, a[j..], b[k..])
  }

  /** The prefixes tell the empty tree, a leaf and an internal node apart. */
  lemma TopInputTag(H: HashFn, logs: seq<Bytes>)
    ensures var x := TopInput(H, logs);
            && (logs == [] ==> x == [])
            && (|logs| == 1 ==> x == LeafInput(logs[0]) && x[0] == LEAF_PREFIX)
            && (|logs| >= 2 ==> |x| > 0 && x[0] == NODE_PREFIX)
  {
  }

  lemma HalvesEqual<T>(a: seq<T>, j: nat, b: seq<T>, k: nat)
    requires j <= |a| && k <= |b|
    ensures a[..j] == b[..k] && a[j..] == b[k..] ==> a == b
  {
    assert a == a[..j] + a[j..] && b == b[..k] + b[k..];
  }

  lemma {:induction false} TopInputsEqual(H: HashFn, a: seq<Bytes>, b: seq<Bytes>)
    requires |a| >= 2 && |b| >= 2 && TopInput(H, a) == TopInput(H, b)
    ensures Mth(H, a[..Split(|a|)]) == Mth(H, b[..Split(|b|)])
    ensures Mth(H, a[Split(|a|)..]) == Mth(H, b[Split(|b|)..])
  {
    var j, k := Split(|a|), Split(|b|);
    NodeInputInjective(Mth(H, a[..j]), Mth(H, a[j..]), Mth(H, b[..k]), Mth(H, b[k..]));
  }

  /** Lists of any two lengths with one root are the same list: the prefixes keep them apart. */
  lemma {:induction false} RootBindsLogs(H: HashFn, a: seq<Bytes>, b: seq<Bytes>)
    requires Mth(H, a) == Mth(H, b)
    ensures a == b || Collides(H, ListCollision(H, a, b))
    decreases |a|
  {
    var x, y := TopInput(H, a), TopInput(H, b);
    TopInputTag(H, a);
    TopInputTag(H, b);
    if x == y && |a| == 1 && |b| == 1 {
      LeafInputInjective(a[0], b[0]);
    } else if x == y && |a| >= 2 && |b| >= 2 {
      var j, k := Split(|a|), Split(|b|);
      TopInputsEqual(H, a, b);
      RootBindsLogs(H, a[..j], b[..k]);
      RootBindsLogs(H, a[j..], b[k..]);
      HalvesEqual(a, j, b, k);
    }
  }

  // ----- Inclusion, form (a): the bytes are one of the logs -----

  function ClimbFromLog(H: HashFn, rawLog: Bytes, path: seq<Step<Digest>>): Digest {
    Climb(NodeFnOf(H), HashLeaf(H, rawLog), path)
  }

  /** The bytes hashed last when climbing from the leaf of `rawLog`. */
  function ClimbInput(H: HashFn, rawLog: Bytes, path: seq<Step<Digest>>): Bytes {
    if path == [] then LeafInput(rawLog)
    else
      match path[|path| - 1]
      case Step(sibling, Right) => NodeInput(ClimbFromLog(H, rawLog, path[..|path| - 1]), sibling)
      case Step(sibling, Left) => NodeInput(sibling, ClimbFromLog(H, rawLog, path[..|path| - 1]))
  }

  function MembershipCollision(H: HashFn, rawLog: Bytes, path: seq<Step<Digest>>, logs: seq<Bytes>): Pair
    decreases |path|
  {
    var x, y := ClimbInput(H, rawLog, path), TopInput(H, logs);
    if x != y || path == [] || |logs| < 2 then Pair(x, y)
    else
      var k := Split(|logs|);
      var part := if path[|path| - 1].side == Right then logs[..k] else logs[k..];
      MembershipCollision(H, rawLog, path[..|path| - 1], part)
  }

  lemma {:induction false} ClimbReachesMember(H: HashFn, rawLog: Bytes, path: seq<Step<Digest>>, logs: seq<Bytes>)
    requires ClimbFromLog(H, rawLog, path) == Mth(H, logs)
    ensures rawLog in logs || Collides(H, MembershipCollision(H, rawLog, path, logs))
    decreases |path|
  {
    var x, y := ClimbInput(H, rawLog, path), TopInput(H, logs);
    TopInputTag(H, logs);
    if x == y {
      if path == [] {
        assert x[0] == LEAF_PREFIX;
        LeafInputInjective(rawLog, logs[0]);
      } else {
        assert x[0] == NODE_PREFIX;
        var k := Split(|logs|);
        var step := path[|path| - 1];
        var below := ClimbFromLog(H, rawLog, path[..|path| - 1]);
        if step.side == Right {
          NodeInputInjective(below, step.sibling, Mth(H, logs[..k]), Mth(H, logs[k..]));
          ClimbReachesMember(H, rawLog, path[..|path| - 1], logs[..k]);
        } else {
          NodeInputInjective(step.sibling, below, Mth(H, logs[..k]), Mth(H, logs[k..]));
          ClimbReachesMember(H, rawLog, path[..|path| - 1], logs[k..]);
        }
      }
    }
  }

  /** Accepted bytes are one of the logs, whatever index, size and path came with them. */
  lemma InclusionSound(H: HashFn, rawLog: Bytes, leafIndex: nat, treeSize: nat, path: seq<Step<Digest>>,
                       logs: seq<Bytes>)
    requires InclusionAccepted(NodeFnOf(H), HashLeaf(H, rawLog), leafIndex, treeSize, path, Mth(H, logs))
    ensures rawLog in logs || Collides(H, MembershipCollision(H, rawLog, path, logs))
  {
    ClimbReachesMember(H, rawLog, path, logs);
  }

  // ----- Inclusion, form (b): the right sides pin down the leaf and every sibling -----

  /** Every index's own proof is accepted. */
  lemma InclusionComplete(H: HashFn, leaves: seq<Digest>, i: nat)
    requires i < |leaves|
    ensures var node := NodeFnOf(H);
            InclusionAccepted(node, leaves[i], i, |leaves|, AuditPath(node, leaves, i), RootOf(H, leaves))
  {
    ClimbOfRangePath(NodeFnOf(H), leaves, 0, |leaves|, i, leaves[i]);
  }

  /** Together with a check of its sides, a proof is accepted for `i` only if it is leaf `i` with its genuine path. */
  lemma {:induction false} InclusionExact(H: HashFn, h: Digest, path: seq<Step<Digest>>, leaves: seq<Digest>, i: nat)
    requires i < |leaves|
    ensures var checked := && InclusionAccepted(NodeFnOf(H), h, i, |leaves|, path, RootOf(H, leaves))
                           && Sides(path) == SidesFor(i, |leaves|);
      var genuine := h == leaves[i] && path == AuditPath(NodeFnOf(H), leaves, i);
      || (checked <==> genuine)
      || (checked && Collides(H, InputsOf(PathClash(NodeFnOf(H), h, path, leaves, 0, |leaves|, i))))
  {
    var node := NodeFnOf(H);
    InclusionComplete(H, leaves, i);
    RangePathSides(node, leaves, 0, |leaves|, i);
    if InclusionAccepted(node, h, i, |leaves|, path, RootOf(H, leaves)) && Sides(path) == SidesFor(i, |leaves|) {
      SidesPinPath(node, h, path, leaves, 0, |leaves|, i);
      var c := PathClash(node, h, path, leaves, 0, |leaves|, i);
      if Clashes(node, c) { ClashIsCollision(H, c); }
    }
  }

  /** Without it, any leaf's proof is accepted for any index and any tree size above 1, and no other. */
  lemma {:induction false} IndexNotBound(H: HashFn, leaves: seq<Digest>, j: nat, i: nat, size: nat)
    requires j < |leaves|
    ensures InclusionAccepted(NodeFnOf(H), leaves[j], i, size, AuditPath(NodeFnOf(H), leaves, j), RootOf(H, leaves))
       <==> i < size && (size > 1 || |leaves| == 1)
  {
    ClimbOfRangePath(NodeFnOf(H), leaves, 0, |leaves|, j, leaves[j]);
    if |leaves| > 1 {
      assert AuditPath(NodeFnOf(H), leaves, j) != [];
    }
  }

  lemma LastOfExtended<T>(a: seq<T>, x: T, b: seq<T>, y: T)
    requires a + [x] == b + [y]
    ensures a == b && x == y
  {
    assert a == (a + [x])[..|a|] && b == (b + [y])[..|b|];
    assert x == (a + [x])[|a|] && y == (b + [y])[|b|];
  }

  /** The sides tell any two positions of a tree apart. */
  lemma {:induction false} SidesTellPosition(i: nat, j: nat, n: nat)
    requires i < n && j < n
    ensures SidesFor(i, n) == SidesFor(j, n) <==> i == j
    decreases n
  {
    if n == 1 {
    } else {
      var k := Split(n);
      var a := if i < k then SidesFor(i, k) else SidesFor(i - k, n - k);
      var b := if j < k then SidesFor(j, k) else SidesFor(j - k, n - k);
      if SidesFor(i, n) == SidesFor(j, n) {
        LastOfExtended(a, if i < k then Right else Left, b, if j < k then Right else Left);
        if i < k { SidesTellPosition(i, j, k); } else { SidesTellPosition(i - k, j - k, n - k); }
      }
    }
  }

  /** So the check of the sides is what refuses a genuine proof offered for another position. */
  lemma {:induction false} SidesRefuseMisplaced(H: HashFn, leaves: seq<Digest>, j: nat, i: nat)
    requires j < |leaves| && i < |leaves|
    ensures Sides(AuditPath(NodeFnOf(H), leaves, j)) == SidesFor(i, |leaves|) <==> i == j
  {
    RangePathSides(NodeFnOf(H), leaves, 0, |leaves|, j);
    SidesTellPosition(i, j, |leaves|);
  }

  // ----- What the prefixes are for -----

  /** The same tree with plain hashes, without the two prefixes. */
  function UnprefixedRoot(H: HashFn, logs: seq<Bytes>): Digest {
    if |logs| == 0 then H([])
    else if |logs| == 1 then H(logs[0])
    else
      var k := Split(|logs|);
      H(UnprefixedRoot(H, logs[..k]) + UnprefixedRoot(H, logs[k..]))
  }

  /** There two logs and the one log made of their digests have one root, for every hash function. */
  lemma {:induction false} UnprefixedRootDoesNotBind(H: HashFn, a: Bytes, b: Bytes)
    ensures UnprefixedRoot(H, [a, b]) == UnprefixedRoot(H, [H(a) + H(b)]) && [a, b] != [H(a) + H(b)]
  {
    var k := Split(2);
    assert k == 1 && [a, b][..k] == [a] && [a, b][k..] == [b];
  }

  // ----- Consistency -----

  lemma GenuineStack(node: NodeFn<Digest>, m: nat, leaves: seq<Digest>, proof: seq<Digest>)
    requires 1 <= m <= |leaves|
    requires StackOf(proof) == PushedSubproof(node, m, leaves, 0, |leaves|, true, Empty)
    ensures proof == Subproof(node, m, leaves, 0, |leaves|, true)
  {
    StackOfSubproof(node, m, leaves, 0, |leaves|, true);
    StackOfInjective(proof, Subproof(node, m, leaves, 0, |leaves|, true));
  }

  /** An accepted proof shows the old root is the root of the first leaves, and is the genuine proof. */
  lemma ConsistencySound(H: HashFn, m: nat, leaves: seq<Digest>, prevRoot: Digest, proof: seq<Digest>)
    requires ConsistencyAccepted(NodeFnOf(H), m, |leaves|, prevRoot, RootOf(H, leaves), proof)
    ensures || (prevRoot == RootOf(H, leaves[..m]) && ConsistencyProof(NodeFnOf(H), leaves, m) == Ok(proof))
            || Collides(H, InputsOf(RebuildClash(NodeFnOf(H), m, leaves, 0, |leaves|, StackOf(proof), prevRoot)))
  {
    var node := NodeFnOf(H);
    PrefixRangeRoot(node, leaves, m, 0, m);
    if m == |leaves| {
      assert leaves[..m] == leaves;
    } else {
      RebuildSound(node, m, leaves, 0, |leaves|, StackOf(proof), prevRoot);
      if StackOf(proof) == PushedSubproof(node, m, leaves, 0, |leaves|, true, Empty) {
        GenuineStack(node, m, leaves, proof);
      }
      var c := RebuildClash(node, m, leaves, 0, |leaves|, StackOf(proof), prevRoot);
      if Clashes(node, c) { ClashIsCollision(H, c); }
    }
  }

  /** Any log list that has the accepted old root is the prefix of the new list, or a pair collides. */
  lemma {:induction false} ConsistencyBindsPrefix(H: HashFn, m: nat, logs: seq<Bytes>, earlier: seq<Bytes>,
                                                  proof: seq<Digest>)
    requires ConsistencyAccepted(NodeFnOf(H), m, |logs|, Mth(H, earlier), Mth(H, logs), proof)
    ensures || earlier == logs[..m]
            || Collides(H, ListCollision(H, earlier, logs[..m]))
            || Collides(H, InputsOf(RebuildClash(NodeFnOf(H), m, LeafHashes(H, logs), 0, |logs|, StackOf(proof),
                                                 Mth(H, earlier))))
  {
    var leaves := LeafHashes(H, logs);
    RootOfLeafHashes(H, logs);
    ConsistencySound(H, m, leaves, Mth(H, earlier), proof);
    assert leaves[..m] == LeafHashes(H, logs[..m]);
    RootOfLeafHashes(H, logs[..m]);
    if Mth(H, earlier) == Mth(H, logs[..m]) {
      RootBindsLogs(H, earlier, logs[..m]);
    }
  }

  /** Every generated consistency proof is accepted for the two roots. */
  lemma ConsistencyComplete(H: HashFn, m: nat, leaves: seq<Digest>)
    requires 1 <= m <= |leaves|
    ensures ConsistencyAccepted(NodeFnOf(H), m, |leaves|, RootOf(H, leaves[..m]), RootOf(H, leaves),
                                ConsistencyProof(NodeFnOf(H), leaves, m).value)
  {
    var node := NodeFnOf(H);
    PrefixRangeRoot(node, leaves, m, 0, m);
    if m == |leaves| {
      assert leaves[..m] == leaves;
    } else {
      StackOfSubproof(node, m, leaves, 0, |leaves|, true);
      RebuildComplete(node, m, leaves, 0, |leaves|, Empty);
    }
  }
}
