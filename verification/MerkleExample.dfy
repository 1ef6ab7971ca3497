/** The seven-leaf tree of section 2.1.3 of RFC 6962, with the paths and proofs that text lists for it. */
module MerkleExample {
  import opened Digests
  import opened MerkleSpec
  import opened PowersOfTwo

  lemma SmallSplits()
    ensures Split(2) == 1 && Split(3) == 2 && Split(4) == 2 && Split(7) == 4
  {
    assert IsPowerOfTwo(1) && IsPowerOfTwo(2) && IsPowerOfTwo(4);
    SplitUnique(2, 1);
    SplitUnique(3, 2);
    SplitUnique(4, 2);
    SplitUnique(7, 4);
  }

  lemma OneEntry(H: HashFn, a: Bytes)
    ensures Mth(H, []) == H([]) && Mth(H, [a]) == H([0x00] + a)
  {
  }

  lemma TwoEntries(H: HashFn, a: Bytes, b: Bytes)
    ensures Mth(H, [a, b]) == H([0x01] + H([0x00] + a) + H([0x00] + b))
  {
    SmallSplits();
    OneEntry(H, a);
    OneEntry(H, b);
    var logs := [a, b];
    assert logs[..Split(2)] == [a] && logs[Split(2)..] == [b];
    assert TopInput(H, logs) == NodeInput(Mth(H, [a]), Mth(H, [b]));
  }

  /** No entry, one, two and three, down to the bytes that are hashed. */
  lemma {:induction false} SmallTrees(H: HashFn, a: Bytes, b: Bytes, c: Bytes)
    ensures Mth(H, []) == H([])
    ensures Mth(H, [a]) == H([0x00] + a)
    ensures Mth(H, [a, b]) == H([0x01] + H([0x00] + a) + H([0x00] + b))
    ensures Mth(H, [a, b, c]) == H([0x01] + H([0x01] + H([0x00] + a) + H([0x00] + b)) + H([0x00] + c))
  {
    SmallSplits();
    OneEntry(H, a);
    OneEntry(H, c);
    TwoEntries(H, a, b);
    var logs := [a, b, c];
    assert logs[..Split(3)] == [a, b] && logs[Split(3)..] == [c];
    assert TopInput(H, logs) == NodeInput(Mth(H, [a, b]), Mth(H, [c]));
  }

  /** The inner nodes of seven leaves, named as in the text. */
  datatype Nodes<D> = Nodes(g: D, h: D, i: D, k: D, l: D)

  function NodesOf<D>(node: NodeFn<D>, d: seq<D>): Nodes<D>
    requires |d| == 7
  {
    var g, h, i := node(d[0], d[1]), node(d[2], d[3]), node(d[4], d[5]);
    Nodes(g, h, i, node(g, h), node(i, d[6]))
  }

  lemma PairRoot<D>(node: NodeFn<D>, d: seq<D>, lo: nat)
    requires lo + 2 <= |d|
    ensures RangeRoot(node, d, lo, lo + 2) == node(d[lo], d[lo + 1])
  {
    SmallSplits();
  }

  lemma {:induction false} InnerRoots<D>(node: NodeFn<D>, d: seq<D>)
    requires |d| == 7
    ensures var n := NodesOf(node, d);
      && RangeRoot(node, d, 0, 2) == n.g && RangeRoot(node, d, 2, 4) == n.h && RangeRoot(node, d, 4, 6) == n.i
      && RangeRoot(node, d, 0, 4) == n.k && RangeRoot(node, d, 4, 7) == n.l
      && RangeRoot(node, d, 0, 7) == node(n.k, n.l)
  {
    SmallSplits();
    PairRoot(node, d, 0);
    PairRoot(node, d, 2);
    PairRoot(node, d, 4);
  }

  lemma {:induction false} LeftPath<D>(node: NodeFn<D>, d: seq<D>, i: nat)
    requires |d| == 7 && i < 4
    ensures var n := NodesOf(node, d);
      RangePath(node, d, 0, 4, i)
      == if i == 0 then [Step(d[1], Right), Step(n.h, Right)]
         else if i == 1 then [Step(d[0], Left), Step(n.h, Right)]
         else if i == 2 then [Step(d[3], Right), Step(n.g, Left)]
         else [Step(d[2], Left), Step(n.g, Left)]
  {
    SmallSplits();
    InnerRoots(node, d);
    var half, lo := if i < 2 then i else i - 2, if i < 2 then 0 else 2;
    assert RangePath(node, d, lo, lo + 2, half)
        == if half == 0 then [Step(d[lo + 1], Right)] else [Step(d[lo], Left)];
  }

  /** The paths of the text: for `d0`, `d3`, `d4` and `d6`. */
  lemma {:induction false} ListedPaths<D>(node: NodeFn<D>, d: seq<D>)
    requires |d| == 7
    ensures var n := NodesOf(node, d);
      && AuditPath(node, d, 0) == [Step(d[1], Right), Step(n.h, Right), Step(n.l, Right)]
      && AuditPath(node, d, 3) == [Step(d[2], Left), Step(n.g, Left), Step(n.l, Right)]
      && AuditPath(node, d, 4) == [Step(d[5], Right), Step(d[6], Right), Step(n.k, Left)]
      && AuditPath(node, d, 6) == [Step(n.i, Left), Step(n.k, Left)]
  {
    SmallSplits();
    InnerRoots(node, d);
    LeftPath(node, d, 0);
    LeftPath(node, d, 3);
    assert RangePath(node, d, 4, 6, 0) == [Step(d[5], Right)];
    assert RangePath(node, d, 4, 7, 0) == [Step(d[5], Right), Step(d[6], Right)];
    assert RangePath(node, d, 4, 7, 2) == [Step(node(d[4], d[5]), Left)];
  }

  /** The proofs of the text: from three, four and six entries to seven. */
  lemma {:induction false} ListedProofs<D>(node: NodeFn<D>, d: seq<D>)
    requires |d| == 7
    ensures var n := NodesOf(node, d);
      && Subproof(node, 3, d, 0, 7, true) == [d[2], d[3], n.g, n.l]
      && Subproof(node, 4, d, 0, 7, true) == [n.l]
      && Subproof(node, 6, d, 0, 7, true) == [n.i, d[6], n.k]
  {
    SmallSplits();
    InnerRoots(node, d);
    assert Subproof(node, 1, d, 2, 4, false) == [d[2], d[3]];
    assert Subproof(node, 3, d, 0, 4, true) == [d[2], d[3], node(d[0], d[1])];
    assert Subproof(node, 2, d, 4, 7, false) == [node(d[4], d[5]), d[6]];
  }
}
