/**
 Consistency proofs under sizes the caller only names. The verifier binds neither size to the lists: what
 an accepted proof still shows, for any named sizes, is that the old root is the root of some prefix.
 */
module MerkleSizes {
  import opened Digests
  import opened MerkleSoundness
  import opened MerkleSpec
  import opened MerkleVerifier
  import opened Options
  import opened PowersOfTwo

  /** For every list of two leaves or more a proof is accepted under sizes 1 and 2. */
  lemma {:induction false} SizesNotBound(H: HashFn, leaves: seq<Digest>)
    requires |leaves| > 1
    ensures var k := Split(|leaves|);
      ConsistencyAccepted(NodeFnOf(H), 1, 2, RootOf(H, leaves[..k]), RootOf(H, leaves),
                          [RangeRoot(NodeFnOf(H), leaves, k, |leaves|)])
  {
    var k := Split(|leaves|);
    var right := RangeRoot(NodeFnOf(H), leaves, k, |leaves|);
    PrefixRangeRoot(NodeFnOf(H), leaves, k, 0, k);
    assert StackOf([right]) == Pushed(right, Empty) by {
      assert [] + [right] == [right];
      StackOfPush([], right);
    }
  }

  /** The first four leaves' worth: sizes 1 and 2 are accepted for the roots of two leaves and of four. */
  lemma {:induction false} FourAsTwo(H: HashFn, leaves: seq<Digest>)
    requires |leaves| == 4
    ensures ConsistencyAccepted(NodeFnOf(H), 1, 2, RootOf(H, leaves[..2]), RootOf(H, leaves),
                                [RangeRoot(NodeFnOf(H), leaves, 2, 4)])
  {
    assert IsPowerOfTwo(2);
    SplitUnique(4, 2);
    SizesNotBound(H, leaves);
  }

  // ----- Some prefix, or a collision -----

  /** What the recursion finds in a list of logs: the length of a prefix, and a pair offered as a collision. */
  datatype Finding = Finding(size: nat, pair: Pair)

  function Whole(logs: seq<Bytes>): Finding {
    Finding(|logs|, Pair([], []))
  }

  /** The children the verifier hashed last against the genuine last input. */
  function Offer(H: HashFn, l: Digest, r: Digest, logs: seq<Bytes>): Pair {
    Pair(NodeInput(l, r), TopInput(H, logs))
  }

  function SubproofFinding(H: HashFn, m: nat, n: nat, stack: Stack<Digest>, logs: seq<Bytes>): Finding
    requires 1 <= m <= n && logs != []
    decreases n
  {
    if m == n || stack.Empty? then Whole(logs)
    else
      var left := m <= Split(n);
      var m', n' := if left then m else m - Split(n), if left then Split(n) else n - Split(n);
      match SubproofRoots(NodeFnOf(H), m', n', stack.below).result
      case None => Whole(logs)
      case Some(roots) =>
        var offer := if left then Offer(H, roots.1, stack.top, logs) else Offer(H, stack.top, roots.1, logs);
        if |logs| < 2 || offer.x != offer.y then Finding(|logs|, offer)
        else
          var k := Split(|logs|);
          if left then SubproofFinding(H, m', n', stack.below, logs[..k])
          else
            var f := SubproofFinding(H, m', n', stack.below, logs[k..]);
            f.(size := k + f.size)
  }

  /** The prefix the finding names has the root, or its pair collides. */
  predicate Justifies(H: HashFn, f: Finding, logs: seq<Bytes>, root: Digest) {
    || (1 <= f.size <= |logs| && root == Mth(H, logs[..f.size]))
    || Collides(H, f.pair)
  }

  /** Children with the genuine root are the genuine children, or the offered inputs collide. */
  lemma GenuineChildren(H: HashFn, l: Digest, r: Digest, logs: seq<Bytes>)
    requires logs != [] && HashChildren(H, l, r) == Mth(H, logs)
    ensures var offer := Offer(H, l, r, logs);
      if |logs| < 2 || offer.x != offer.y then Collides(H, offer)
      else l == Mth(H, logs[..Split(|logs|)]) && r == Mth(H, logs[Split(|logs|)..])
  {
    TopInputTag(H, logs);
    if |logs| >= 2 && NodeInput(l, r) == TopInput(H, logs) {
      var k := Split(|logs|);
      NodeInputInjective(l, r, Mth(H, logs[..k]), Mth(H, logs[k..]));
    } else if |logs| < 2 {
      assert NodeInput(l, r)[0] == NODE_PREFIX && TopInput(H, logs)[0] == LEAF_PREFIX;
    }
  }

  lemma PrefixOfPrefix(H: HashFn, logs: seq<Bytes>, k: nat, size: nat)
    requires size <= k <= |logs|
    ensures Mth(H, logs[..k][..size]) == Mth(H, logs[..size])
  {
    assert logs[..k][..size] == logs[..size];
  }

  /** A prefix that reaches past the split point is split there too. */
  lemma PrefixPastSplit(H: HashFn, logs: seq<Bytes>, size: nat)
    requires |logs| > 1 && 1 <= size <= |logs| - Split(|logs|)
    ensures var k := Split(|logs|);
      Mth(H, logs[..k + size]) == HashChildren(H, Mth(H, logs[..k]), Mth(H, logs[k..][..size]))
  {
    var k := Split(|logs|);
    SplitStable(k + size, |logs|);
    var part := logs[..k + size];
    assert part[..k] == logs[..k] && part[k..] == logs[k..][..size];
  }

  lemma JustifiedPastSplit(H: HashFn, f: Finding, logs: seq<Bytes>, root: Digest)
    requires |logs| > 1 && Justifies(H, f, logs[Split(|logs|)..], root)
    ensures var k := Split(|logs|);
      Justifies(H, Finding(k + f.size, f.pair), logs, HashChildren(H, Mth(H, logs[..k]), root))
  {
    if 1 <= f.size <= |logs| - Split(|logs|) { PrefixPastSplit(H, logs, f.size); }
  }

  lemma {:induction false} SubproofFindsPrefix(H: HashFn, m: nat, n: nat, stack: Stack<Digest>, logs: seq<Bytes>)
    requires 1 <= m <= n && logs != []
    requires SubproofRoots(NodeFnOf(H), m, n, stack).result.Some?
    requires SubproofRoots(NodeFnOf(H), m, n, stack).result.value.1 == Mth(H, logs)
    ensures Justifies(H, SubproofFinding(H, m, n, stack, logs), logs,
                      SubproofRoots(NodeFnOf(H), m, n, stack).result.value.0)
    decreases n, 1
  {
    if m == n {
      assert logs[..|logs|] == logs;
    } else if m <= Split(n) {
      SubproofFindsOnLeft(H, m, n, stack, logs);
    } else {
      SubproofFindsOnRight(H, m, n, stack, logs);
    }
  }

  lemma {:induction false} SubproofFindsOnLeft(H: HashFn, m: nat, n: nat, stack: Stack<Digest>, logs: seq<Bytes>)
    requires 1 <= m < n && m <= Split(n) && logs != []
    requires SubproofRoots(NodeFnOf(H), m, n, stack).result.Some?
    requires SubproofRoots(NodeFnOf(H), m, n, stack).result.value.1 == Mth(H, logs)
    ensures Justifies(H, SubproofFinding(H, m, n, stack, logs), logs,
                      SubproofRoots(NodeFnOf(H), m, n, stack).result.value.0)
    decreases n, 0
  {
    var roots := SubproofRoots(NodeFnOf(H), m, Split(n), stack.below).result.value;
    GenuineChildren(H, roots.1, stack.top, logs);
    var offer := Offer(H, roots.1, stack.top, logs);
    if |logs| >= 2 && offer.x == offer.y {
      var k := Split(|logs|);
      SubproofFindsPrefix(H, m, Split(n), stack.below, logs[..k]);
      var f := SubproofFinding(H, m, Split(n), stack.below, logs[..k]);
      if f.size <= k { PrefixOfPrefix(H, logs, k, f.size); }
    }
  }

  lemma {:induction false} SubproofFindsOnRight(H: HashFn, m: nat, n: nat, stack: Stack<Digest>, logs: seq<Bytes>)
    requires 1 <= m < n && m > Split(n) && logs != []
    requires SubproofRoots(NodeFnOf(H), m, n, stack).result.Some?
    requires SubproofRoots(NodeFnOf(H), m, n, stack).result.value.1 == Mth(H, logs)
    ensures Justifies(H, SubproofFinding(H, m, n, stack, logs), logs,
                      SubproofRoots(NodeFnOf(H), m, n, stack).result.value.0)
    decreases n, 0
  {
    var m', n' := m - Split(n), n - Split(n);
    var roots := SubproofRoots(NodeFnOf(H), m', n', stack.below).result.value;
    GenuineChildren(H, stack.top, roots.1, logs);
    var offer := Offer(H, stack.top, roots.1, logs);
    if |logs| >= 2 && offer.x == offer.y {
      var k := Split(|logs|);
      SubproofFindsPrefix(H, m', n', stack.below, logs[k..]);
      JustifiedPastSplit(H, SubproofFinding(H, m', n', stack.below, logs[k..]), logs, roots.0);
    }
  }

  /** The same for the outer recursion, which is given the old root. */
  function RebuildFinding(H: HashFn, m: nat, n: nat, stack: Stack<Digest>, prevRoot: Digest, logs: seq<Bytes>): Finding
    requires 1 <= m <= n && logs != []
    decreases n
  {
    if m == n || stack.Empty? then Whole(logs)
    else if m > Split(n) then SubproofFinding(H, m, n, stack, logs)
    else
      match RebuiltRoot(NodeFnOf(H), m, Split(n), stack.below, prevRoot).result
      case None => Whole(logs)
      case Some(root) =>
        var offer := Offer(H, root, stack.top, logs);
        if |logs| < 2 || offer.x != offer.y then Finding(|logs|, offer)
        else RebuildFinding(H, m, Split(n), stack.below, prevRoot, logs[..Split(|logs|)])
  }

  /** Past the split point both recursions read the same roots off the stack. */
  lemma RebuiltPastSplit(H: HashFn, m: nat, n: nat, stack: Stack<Digest>, prevRoot: Digest)
    requires 1 <= m < n && m > Split(n)
    requires RebuiltRoot(NodeFnOf(H), m, n, stack, prevRoot).result.Some?
    ensures SubproofRoots(NodeFnOf(H), m, n, stack).result
         == Some((prevRoot, RebuiltRoot(NodeFnOf(H), m, n, stack, prevRoot).result.value))
  {
  }

  lemma {:induction false} RebuildFindsPrefix(H: HashFn, m: nat, n: nat, stack: Stack<Digest>, prevRoot: Digest,
                                              logs: seq<Bytes>)
    requires 1 <= m <= n && logs != []
    requires RebuiltRoot(NodeFnOf(H), m, n, stack, prevRoot).result == Some(Mth(H, logs))
    ensures Justifies(H, RebuildFinding(H, m, n, stack, prevRoot, logs), logs, prevRoot)
    decreases n
  {
    if m == n {
      assert logs[..|logs|] == logs;
    } else if m > Split(n) {
      RebuiltPastSplit(H, m, n, stack, prevRoot);
      SubproofFindsPrefix(H, m, n, stack, logs);
    } else {
      var root := RebuiltRoot(NodeFnOf(H), m, Split(n), stack.below, prevRoot).result.value;
      GenuineChildren(H, root, stack.top, logs);
      var offer := Offer(H, root, stack.top, logs);
      if |logs| >= 2 && offer.x == offer.y {
        var k := Split(|logs|);
        RebuildFindsPrefix(H, m, Split(n), stack.below, prevRoot, logs[..k]);
        var f := RebuildFinding(H, m, Split(n), stack.below, prevRoot, logs[..k]);
        if f.size <= k { PrefixOfPrefix(H, logs, k, f.size); }
      }
    }
  }

  /** What an accepted call shows, whatever sizes it names: the length of a prefix and a pair, both computed. */
  function AcceptedFinding(H: HashFn, m: nat, n: nat, prevRoot: Digest, proof: seq<Digest>, logs: seq<Bytes>): Finding
    requires 1 <= m <= n && logs != []
  {
    RebuildFinding(H, m, n, StackOf(proof), prevRoot, logs)
  }

  /** Under any named sizes the accepted old root is the root of a non-empty prefix, or a computed pair collides. */
  lemma {:induction false} ConsistencySoundAnySizes(H: HashFn, m: nat, n: nat, prevRoot: Digest, proof: seq<Digest>,
                                                    logs: seq<Bytes>)
    requires logs != [] && ConsistencyAccepted(NodeFnOf(H), m, n, prevRoot, Mth(H, logs), proof)
    ensures Justifies(H, AcceptedFinding(H, m, n, prevRoot, proof, logs), logs, prevRoot)
  {
    if m == n {
      assert logs[..|logs|] == logs;
    } else {
      RebuildFindsPrefix(H, m, n, StackOf(proof), prevRoot, logs);
    }
  }

  /** So any earlier list with that root is a prefix of the new one, or one of two computed pairs collides. */
  lemma {:induction false} EarlierIsPrefix(H: HashFn, m: nat, n: nat, earlier: seq<Bytes>, proof: seq<Digest>,
                                           logs: seq<Bytes>)
    requires logs != [] && ConsistencyAccepted(NodeFnOf(H), m, n, Mth(H, earlier), Mth(H, logs), proof)
    ensures var f := AcceptedFinding(H, m, n, Mth(H, earlier), proof, logs);
      || (1 <= f.size <= |logs|
           && (earlier == logs[..f.size] || Collides(H, ListCollision(H, earlier, logs[..f.size]))))
      || Collides(H, f.pair)
  {
    ConsistencySoundAnySizes(H, m, n, Mth(H, earlier), proof, logs);
    var f := AcceptedFinding(H, m, n, Mth(H, earlier), proof, logs);
    if 1 <= f.size <= |logs| && Mth(H, earlier) == Mth(H, logs[..f.size]) {
      RootBindsLogs(H, earlier, logs[..f.size]);
    }
  }
}
