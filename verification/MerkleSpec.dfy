/**
 The Merkle tree hash, audit paths and consistency proofs of sections 2.1 to 2.1.2 of RFC 6962.
 The list `D[lo:hi]` of that text, and a slice of the source, is the range `lo..hi` of a list here.
 */
module MerkleSpec {
  import opened Digests
  import opened PowersOfTwo

  /** The bytes hashed last when computing `Mth`. */
  function TopInput(H: HashFn, logs: seq<Bytes>): Bytes
    decreases |logs|, 0
  {
    if |logs| == 0 then []
    else if |logs| == 1 then LeafInput(logs[0])
    else
      var k := Split(|logs|);
      NodeInput(H(TopInput(H, logs[..k])), H(TopInput(H, logs[k..])))
  }

  /** Section 2.1 of RFC 6962: the Merkle tree hash of a list of raw entries. */
  function Mth(H: HashFn, logs: seq<Bytes>): Digest {
    H(TopInput(H, logs))
  }

  /** The same hash over a non-empty range of leaves that are hashed already. */
  function RangeRoot<D>(node: NodeFn<D>, leaves: seq<D>, lo: nat, hi: nat): D
    requires lo < hi <= |leaves|
    decreases hi - lo
  {
    if hi == lo + 1 then leaves[lo]
    else
      var mid := lo + Split(hi - lo);
      node(RangeRoot(node, leaves, lo, mid), RangeRoot(node, leaves, mid, hi))
  }

  function RootOf(H: HashFn, leaves: seq<Digest>): Digest {
    if leaves == [] then EmptyTreeHash(H) else RangeRoot(NodeFnOf(H), leaves, 0, |leaves|)
  }

  /** A range's root depends on nothing but the leaves in it: a slice has the roots of its place. */
  lemma {:induction false} SliceRangeRoot<D>(node: NodeFn<D>, leaves: seq<D>, from: nat, to: nat, lo: nat, hi: nat)
    requires from <= to <= |leaves| && lo < hi <= to - from
    ensures RangeRoot(node, leaves[from..to], lo, hi) == RangeRoot(node, leaves, from + lo, from + hi)
    decreases hi - lo
  {
    if hi == lo + 1 {
    } else {
      var mid := lo + Split(hi - lo);
      SliceRangeRoot(node, leaves, from, to, lo, mid);
      SliceRangeRoot(node, leaves, from, to, mid, hi);
    }
  }

  lemma PrefixRangeRoot<D>(node: NodeFn<D>, leaves: seq<D>, m: nat, lo: nat, hi: nat)
    requires lo < hi <= m <= |leaves|
    ensures RangeRoot(node, leaves[..m], lo, hi) == RangeRoot(node, leaves, lo, hi)
  {
    SliceRangeRoot(node, leaves, 0, m, lo, hi);
    assert leaves[0..m] == leaves[..m];
  }

  function LeafHashes(H: HashFn, logs: seq<Bytes>): (leaves: seq<Digest>)
    ensures |leaves| == |logs|
    ensures forall i :: 0 <= i < |logs| ==> leaves[i] == HashLeaf(H, logs[i])
  {
    seq(|logs|, i requires 0 <= i < |logs| => HashLeaf(H, logs[i]))
  }

  lemma MthOfParts(H: HashFn, logs: seq<Bytes>, lo: nat, mid: nat, hi: nat)
    requires lo + 1 < hi <= |logs| && mid == lo + Split(hi - lo)
    ensures Mth(H, logs[lo..hi]) == HashChildren(H, Mth(H, logs[lo..mid]), Mth(H, logs[mid..hi]))
  {
    var part, k := logs[lo..hi], mid - lo;
    assert part[..k] == logs[lo..mid] && part[k..] == logs[mid..hi];
  }

  lemma {:induction false} RangeOfLeafHashes(H: HashFn, logs: seq<Bytes>, lo: nat, hi: nat)
    requires lo < hi <= |logs|
    ensures RangeRoot(NodeFnOf(H), LeafHashes(H, logs), lo, hi) == Mth(H, logs[lo..hi])
    decreases hi - lo
  {
    if hi == lo + 1 {
    } else {
      var mid := lo + Split(hi - lo);
      RangeOfLeafHashes(H, logs, lo, mid);
      RangeOfLeafHashes(H, logs, mid, hi);
      MthOfParts(H, logs, lo, mid, hi);
    }
  }

  lemma RootOfLeafHashes(H: HashFn, logs: seq<Bytes>)
    ensures RootOf(H, LeafHashes(H, logs)) == Mth(H, logs)
  {
    if logs != [] { RangeOfLeafHashes(H, logs, 0, |logs|); }
    assert logs[0..|logs|] == logs;
  }

  datatype Side = Left | Right

  /** One audit step: the sibling and the side it stands on. */
  datatype Step<D> = Step(sibling: D, side: Side)

  /** Section 2.1.1 of RFC 6962: the audit path of leaf `i` of a range, lowest sibling first. */
  function RangePath<D>(node: NodeFn<D>, leaves: seq<D>, lo: nat, hi: nat, i: nat): seq<Step<D>>
    requires lo + i < hi <= |leaves|
    decreases hi - lo
  {
    if hi == lo + 1 then []
    else
      var k := Split(hi - lo);
      var mid := lo + k;
      if i < k then RangePath(node, leaves, lo, mid, i) + [Step(RangeRoot(node, leaves, mid, hi), Right)]
      else RangePath(node, leaves, mid, hi, i - k) + [Step(RangeRoot(node, leaves, lo, mid), Left)]
  }

  function AuditPath<D>(node: NodeFn<D>, leaves: seq<D>, i: nat): seq<Step<D>>
    requires i < |leaves|
  {
    RangePath(node, leaves, 0, |leaves|, i)
  }

  /** The sides along the audit path of leaf `i`: they depend on the position and the size only. */
  function SidesFor(i: nat, n: nat): seq<Side>
    requires i < n
    decreases n
  {
    if n == 1 then []
    else
      var k := Split(n);
      if i < k then SidesFor(i, k) + [Right] else SidesFor(i - k, n - k) + [Left]
  }

  function Sides<D>(path: seq<Step<D>>): (sides: seq<Side>)
    ensures |sides| == |path|
  {
    seq(|path|, j requires 0 <= j < |path| => path[j].side)
  }

  lemma SidesAppend<D>(path: seq<Step<D>>, step: Step<D>)
    ensures Sides(path + [step]) == Sides(path) + [step.side]
  {
  }

  lemma {:induction false} RangePathSides<D>(node: NodeFn<D>, leaves: seq<D>, lo: nat, hi: nat, i: nat)
    requires lo + i < hi <= |leaves|
    ensures Sides(RangePath(node, leaves, lo, hi, i)) == SidesFor(i, hi - lo)
    decreases hi - lo
  {
    if hi == lo + 1 {
    } else {
      var k := Split(hi - lo);
      var mid := lo + k;
      if i < k {
        RangePathSides(node, leaves, lo, mid, i);
        SidesAppend(RangePath(node, leaves, lo, mid, i), Step(RangeRoot(node, leaves, mid, hi), Right));
      } else {
        RangePathSides(node, leaves, mid, hi, i - k);
        SidesAppend(RangePath(node, leaves, mid, hi, i - k), Step(RangeRoot(node, leaves, lo, mid), Left));
      }
    }
  }

  /** Both halves of a split fit the next smaller power of two. */
  lemma HalvesFit(n: nat, e: nat)
    requires 1 < n <= Pow2(e)
    ensures e > 0 && Split(n) <= Pow2(e - 1) && n - Split(n) <= Pow2(e - 1)
  {
    Pow2IsPowerOfTwo(e);
    SplitUnique(n, Split(n));
    PowerGap(Split(n), Pow2(e));
  }

  lemma {:induction false} RangePathLength<D>(node: NodeFn<D>, leaves: seq<D>, lo: nat, hi: nat, i: nat, e: nat)
    requires lo + i < hi <= |leaves| && hi - lo <= Pow2(e)
    ensures |RangePath(node, leaves, lo, hi, i)| <= e
    decreases hi - lo
  {
    if hi == lo + 1 {
    } else {
      var k := Split(hi - lo);
      var mid := lo + k;
      HalvesFit(hi - lo, e);
      if i < k {
        RangePathLength(node, leaves, lo, mid, i, e - 1);
      } else {
        RangePathLength(node, leaves, mid, hi, i - k, e - 1);
      }
    }
  }

  /** The path is never longer than the ceiling of the binary logarithm of the tree size. */
  lemma AuditPathLength<D>(node: NodeFn<D>, leaves: seq<D>, i: nat, e: nat)
    requires i < |leaves| <= Pow2(e)
    ensures |AuditPath(node, leaves, i)| <= e
  {
    RangePathLength(node, leaves, 0, |leaves|, i, e);
  }

  /** Section 2.1.2 of RFC 6962: `SUBPROOF(m, D, b)` for the range `lo..hi` as `D`, lowest node first. */
  function Subproof<D>(node: NodeFn<D>, m: nat, leaves: seq<D>, lo: nat, hi: nat, b: bool): seq<D>
    requires 1 <= m && lo + m <= hi <= |leaves|
    decreases hi - lo
  {
    if m == hi - lo then
      if b then [] else [RangeRoot(node, leaves, lo, hi)]
    else
      var k := Split(hi - lo);
      var mid := lo + k;
      if m <= k then Subproof(node, m, leaves, lo, mid, b) + [RangeRoot(node, leaves, mid, hi)]
      else Subproof(node, m - k, leaves, mid, hi, false) + [RangeRoot(node, leaves, lo, mid)]
  }

  // A stretch of `n` leaves from `lo` on, wherever it lies.

  lemma SubproofOnLeft<D>(node: NodeFn<D>, m: nat, leaves: seq<D>, lo: nat, k: nat, n: nat, b: bool)
    requires n > 1 && lo + n <= |leaves| && k == Split(n) && 1 <= m <= k
    ensures Subproof(node, m, leaves, lo, lo + n, b)
         == Subproof(node, m, leaves, lo, lo + k, b) + [RangeRoot(node, leaves, lo + k, lo + n)]
  {
  }

  lemma SubproofOnRight<D>(node: NodeFn<D>, m: nat, leaves: seq<D>, lo: nat, k: nat, n: nat, b: bool)
    requires n > 1 && lo + n <= |leaves| && k == Split(n) && k < m < n
    ensures Subproof(node, m, leaves, lo, lo + n, b)
         == Subproof(node, m - k, leaves, lo + k, lo + n, false) + [RangeRoot(node, leaves, lo, lo + k)]
  {
  }

  /** The stretches of two lists have one subproof. */
  predicate SameSubproof<D(==)>(node: NodeFn<D>, m: nat, x: seq<D>, lo: nat, y: seq<D>, at: nat, n: nat, b: bool)
    requires 1 <= m <= n && lo + n <= |x| && at + n <= |y|
  {
    Subproof(node, m, x, lo, lo + n, b) == Subproof(node, m, y, at, at + n, b)
  }

  lemma SameWhole<D>(node: NodeFn<D>, x: seq<D>, lo: nat, y: seq<D>, at: nat, n: nat, b: bool)
    requires n >= 1 && lo + n <= |x| && at + n <= |y|
    requires RangeRoot(node, x, lo, lo + n) == RangeRoot(node, y, at, at + n)
    ensures SameSubproof(node, n, x, lo, y, at, n, b)
  {
  }

  lemma SameOnLeft<D>(node: NodeFn<D>, m: nat, x: seq<D>, lo: nat, y: seq<D>, at: nat, k: nat, n: nat, b: bool)
    requires n > 1 && lo + n <= |x| && at + n <= |y| && k == Split(n) && 1 <= m <= k
    requires RangeRoot(node, x, lo + k, lo + n) == RangeRoot(node, y, at + k, at + n)
    requires SameSubproof(node, m, x, lo, y, at, k, b)
    ensures SameSubproof(node, m, x, lo, y, at, n, b)
  {
    SubproofOnLeft(node, m, x, lo, k, n, b);
    SubproofOnLeft(node, m, y, at, k, n, b);
  }

  lemma SameOnRight<D>(node: NodeFn<D>, m: nat, x: seq<D>, lo: nat, y: seq<D>, at: nat, k: nat, n: nat, b: bool)
    requires n > 1 && lo + n <= |x| && at + n <= |y| && k == Split(n) && k < m < n
    requires RangeRoot(node, x, lo, lo + k) == RangeRoot(node, y, at, at + k)
    requires SameSubproof(node, m - k, x, lo + k, y, at + k, n - k, false)
    ensures SameSubproof(node, m, x, lo, y, at, n, b)
  {
    SubproofOnRight(node, m, x, lo, k, n, b);
    SubproofOnRight(node, m, y, at, k, n, b);
  }

  lemma SliceOnLeft<D>(node: NodeFn<D>, m: nat, leaves: seq<D>, from: nat, to: nat, lo: nat, k: nat, n: nat, b: bool)
    requires from <= to <= |leaves| && lo + n <= to - from && n > 1 && k == Split(n) && 1 <= m <= k
    requires SameSubproof(node, m, leaves[from..to], lo, leaves, from + lo, k, b)
    ensures SameSubproof(node, m, leaves[from..to], lo, leaves, from + lo, n, b)
  {
    SliceRangeRoot(node, leaves, from, to, lo + k, lo + n);
    SameOnLeft(node, m, leaves[from..to], lo, leaves, from + lo, k, n, b);
  }

  lemma SliceOnRight<D>(node: NodeFn<D>, m: nat, leaves: seq<D>, from: nat, to: nat, lo: nat, k: nat, n: nat, b: bool)
    requires from <= to <= |leaves| && lo + n <= to - from && n > 1 && k == Split(n) && k < m < n
    requires SameSubproof(node, m - k, leaves[from..to], lo + k, leaves, from + (lo + k), n - k, false)
    ensures SameSubproof(node, m, leaves[from..to], lo, leaves, from + lo, n, b)
  {
    SliceRangeRoot(node, leaves, from, to, lo, lo + k);
    SameOnRight(node, m, leaves[from..to], lo, leaves, from + lo, k, n, b);
  }

  /** The subproof of a slice is that of the stretch it was cut from. */
  lemma {:induction false} SliceSubproof<D>(node: NodeFn<D>, m: nat, leaves: seq<D>, from: nat, to: nat,
                                            lo: nat, n: nat, b: bool)
    requires from <= to <= |leaves| && 1 <= m <= n && lo + n <= to - from
    ensures SameSubproof(node, m, leaves[from..to], lo, leaves, from + lo, n, b)
    decreases n
  {
    if m == n {
      SliceRangeRoot(node, leaves, from, to, lo, lo + n);
      SameWhole(node, leaves[from..to], lo, leaves, from + lo, n, b);
    } else {
      var k := Split(n);
      if m <= k {
        SliceSubproof(node, m, leaves, from, to, lo, k, b);
        SliceOnLeft(node, m, leaves, from, to, lo, k, n, b);
      } else {
        SliceSubproof(node, m - k, leaves, from, to, lo + k, n - k, false);
        SliceOnRight(node, m, leaves, from, to, lo, k, n, b);
      }
    }
  }

  lemma PrefixSubproof<D>(node: NodeFn<D>, m: nat, leaves: seq<D>, k: nat, b: bool)
    requires 1 <= m <= k <= |leaves|
    ensures Subproof(node, m, leaves[..k], 0, k, b) == Subproof(node, m, leaves, 0, k, b)
  {
    assert leaves[0..k] == leaves[..k];
    SliceSubproof(node, m, leaves, 0, k, 0, k, b);
  }

  lemma SuffixSubproof<D>(node: NodeFn<D>, m: nat, leaves: seq<D>, k: nat, b: bool)
    requires 1 <= m && k + m <= |leaves|
    ensures Subproof(node, m, leaves[k..], 0, |leaves| - k, b) == Subproof(node, m, leaves, k, |leaves|, b)
  {
    assert leaves[k..|leaves|] == leaves[k..];
    SliceSubproof(node, m, leaves, k, |leaves|, 0, |leaves| - k, b);
  }

  lemma SuffixRangeRoot<D>(node: NodeFn<D>, leaves: seq<D>, k: nat)
    requires k < |leaves|
    ensures RangeRoot(node, leaves[k..], 0, |leaves| - k) == RangeRoot(node, leaves, k, |leaves|)
  {
    assert leaves[k..|leaves|] == leaves[k..];
    SliceRangeRoot(node, leaves, k, |leaves|, 0, |leaves| - k);
  }

  lemma WholeOnLeft<D>(node: NodeFn<D>, m: nat, leaves: seq<D>, k: nat, b: bool)
    requires |leaves| > 1 && k == Split(|leaves|) && 1 <= m <= k
    ensures Subproof(node, m, leaves, 0, |leaves|, b)
         == Subproof(node, m, leaves, 0, k, b) + [RangeRoot(node, leaves, k, |leaves|)]
  {
  }

  lemma WholeOnRight<D>(node: NodeFn<D>, m: nat, leaves: seq<D>, k: nat, b: bool)
    requires |leaves| > 1 && k == Split(|leaves|) && k < m < |leaves|
    ensures Subproof(node, m, leaves, 0, |leaves|, b)
         == Subproof(node, m - k, leaves, k, |leaves|, false) + [RangeRoot(node, leaves, 0, k)]
  {
  }

  /** The recursion on slices, old root on the left: its part first, the other root last. */
  lemma SubproofOnLeftSlice<D>(node: NodeFn<D>, m: nat, leaves: seq<D>, k: nat, b: bool)
    requires |leaves| > 1 && k == Split(|leaves|) && 1 <= m <= k
    ensures Subproof(node, m, leaves, 0, |leaves|, b)
         == Subproof(node, m, leaves[..k], 0, k, b) + [RangeRoot(node, leaves[k..], 0, |leaves| - k)]
  {
    WholeOnLeft(node, m, leaves, k, b);
    PrefixSubproof(node, m, leaves, k, b);
    SuffixRangeRoot(node, leaves, k);
  }

  lemma SubproofOnRightSlice<D>(node: NodeFn<D>, m: nat, leaves: seq<D>, k: nat, b: bool)
    requires |leaves| > 1 && k == Split(|leaves|) && k < m < |leaves|
    ensures Subproof(node, m, leaves, 0, |leaves|, b)
         == Subproof(node, m - k, leaves[k..], 0, |leaves| - k, false) + [RangeRoot(node, leaves[..k], 0, k)]
  {
    WholeOnRight(node, m, leaves, k, b);
    SuffixSubproof(node, m - k, leaves, k, false);
    PrefixRangeRoot(node, leaves, k, 0, k);
  }
}
