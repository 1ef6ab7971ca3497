/** Bytes, 32-byte digests and the hash function, which is a parameter: nothing is assumed of it. */
module Digests {
  newtype byte = x: int | 0 <= x < 256

  type Bytes = seq<byte>

  type Digest = d: Bytes | |d| == 32 witness seq(32, i => 0 as byte)

  /** SHA-256 enters as an arbitrary function from bytes to digests. */
  type HashFn = Bytes -> Digest

  /** Two byte strings offered as a hash collision. */
  datatype Pair = Pair(x: Bytes, y: Bytes)

  predicate Collides(H: HashFn, p: Pair) {
    p.x != p.y && H(p.x) == H(p.y)
  }

  const LEAF_PREFIX: byte := 0x00
  const NODE_PREFIX: byte := 0x01

  function LeafInput(data: Bytes): Bytes {
    [LEAF_PREFIX] + data
  }

  function NodeInput(left: Digest, right: Digest): Bytes {
    [NODE_PREFIX] + left + right
  }

  function HashLeaf(H: HashFn, data: Bytes): Digest {
    H(LeafInput(data))
  }

  function HashChildren(H: HashFn, left: Digest, right: Digest): Digest {
    H(NodeInput(left, right))
  }

  function EmptyTreeHash(H: HashFn): Digest {
    H([])
  }

  lemma NodeInputInjective(l: Digest, r: Digest, l': Digest, r': Digest)
    requires NodeInput(l, r) == NodeInput(l', r')
    ensures l == l' && r == r'
  {
    assert l == NodeInput(l, r)[1..33] && l' == NodeInput(l', r')[1..33];
    assert r == NodeInput(l, r)[33..] && r' == NodeInput(l', r')[33..];
  }

  lemma LeafInputInjective(a: Bytes, b: Bytes)
    requires LeafInput(a) == LeafInput(b)
    ensures a == b
  {
    assert a == LeafInput(a)[1..] && b == LeafInput(b)[1..];
  }

  /** A way to combine two children: the theory of proofs needs to know nothing of it, nor of digests. */
  type NodeFn<!D> = (D, D) -> D

  function NodeFnOf(H: HashFn): NodeFn<Digest> {
    (l, r) => HashChildren(H, l, r)
  }

  /** Two pairs of children offered as a clash of a node function. */
  datatype Clash<D> = Clash(l: D, r: D, l': D, r': D)

  predicate Clashes<D(==)>(node: NodeFn<D>, c: Clash<D>) {
    (c.l != c.l' || c.r != c.r') && node(c.l, c.r) == node(c.l', c.r')
  }

  function InputsOf(c: Clash<Digest>): Pair {
    Pair(NodeInput(c.l, c.r), NodeInput(c.l', c.r'))
  }

  /** A clash between two pairs of children is a collision of the hash function itself. */
  lemma ClashIsCollision(H: HashFn, c: Clash<Digest>)
    requires Clashes(NodeFnOf(H), c)
    ensures Collides(H, InputsOf(c))
  {
    if NodeInput(c.l, c.r) == NodeInput(c.l', c.r') {
      NodeInputInjective(c.l, c.r, c.l', c.r');
    }
  }

  function HexDigit(n: nat): char
    requires n < 16
  {
    if n < 10 then ('0' as int + n) as char else ('a' as int + n - 10) as char
  }

  /** Lower-case hexadecimal, two characters a byte. */
  function Hex(b: Bytes): (s: string)
    ensures |s| == 2 * |b|
  {
    seq(2 * |b|, i requires 0 <= i < 2 * |b| =>
      if i % 2 == 0 then HexDigit((b[i / 2] / 16) as int) else HexDigit((b[i / 2] % 16) as int))
  }

  lemma HexInjective(a: Bytes, b: Bytes)
    requires Hex(a) == Hex(b)
    ensures a == b
  {
    assert |a| == |b|;
    forall k | 0 <= k < |a| ensures a[k] == b[k] {
      assert Hex(a)[2 * k] == Hex(b)[2 * k] && Hex(a)[2 * k + 1] == Hex(b)[2 * k + 1];
      assert (2 * k) / 2 == k && (2 * k + 1) / 2 == k && (2 * k) % 2 == 0 && (2 * k + 1) % 2 == 1;
    }
  }

  lemma HexDigitListed(n: nat)
    requires n < 16
    ensures HexDigit(n) == "0123456789abcdef"[n]
  {
  }

  /** The digits of one byte, high half first. */
  lemma HexOfByte(b: Bytes, i: nat)
    requires i < |b|
    ensures Hex(b)[2 * i] == "0123456789abcdef"[(b[i] / 16) as int]
    ensures Hex(b)[2 * i + 1] == "0123456789abcdef"[(b[i] % 16) as int]
  {
    HexDigitListed((b[i] / 16) as int);
    HexDigitListed((b[i] % 16) as int);
    assert (2 * i) / 2 == i && (2 * i + 1) / 2 == i && (2 * i) % 2 == 0 && (2 * i + 1) % 2 == 1;
  }
}
