/** Powers of two: the Merkle split point, the machine formula that computes it, and bit masks. */
module PowersOfTwo {

  function Pow2(e: nat): (p: nat)
    ensures p >= 1
  {
    if e == 0 then 1 else 2 * Pow2(e - 1)
  }

  lemma {:induction false} Pow2Gap(d: nat, e: nat)
    requires d < e
    ensures 2 * Pow2(d) <= Pow2(e)
  {
    if d + 1 == e {
    } else {
      Pow2Gap(d, e - 1);
    }
  }

  predicate IsPowerOfTwo(k: nat) {
    k == 1 || (k > 0 && k % 2 == 0 && IsPowerOfTwo(k / 2))
  }

  /** `k` doubled until twice it reaches `n`. */
  function DoubledUpTo(n: nat, k: nat): (r: nat)
    requires 1 <= k < n
    ensures k <= r < n <= 2 * r
    decreases n - k
  {
    if n <= 2 * k then k else DoubledUpTo(n, 2 * k)
  }

  /** The split point of section 2.1 of RFC 6962. */
  function Split(n: nat): (k: nat)
    requires n > 1
    ensures 1 <= k < n <= 2 * k
  {
    DoubledUpTo(n, 1)
  }

  lemma {:induction false} DoubledIsPowerOfTwo(n: nat, k: nat)
    requires 1 <= k < n && IsPowerOfTwo(k)
    ensures IsPowerOfTwo(DoubledUpTo(n, k))
    decreases n - k
  {
    if n <= 2 * k {
    } else {
      DoubledIsPowerOfTwo(n, 2 * k);
    }
  }

  lemma {:induction false} PowerGap(j: nat, k: nat)
    requires j < k && IsPowerOfTwo(j) && IsPowerOfTwo(k)
    ensures 2 * j <= k
  {
    if j == 1 {
    } else {
      PowerGap(j / 2, k / 2);
    }
  }

  /** The split point is the largest power of two smaller than `n`: the only `k` with these properties. */
  lemma SplitUnique(n: nat, k: nat)
    requires n > 1
    ensures k == Split(n) <==> k < n <= 2 * k && IsPowerOfTwo(k)
  {
    DoubledIsPowerOfTwo(n, 1);
    if k < n <= 2 * k && IsPowerOfTwo(k) {
      if k < Split(n) { PowerGap(k, Split(n)); }
      if Split(n) < k { PowerGap(Split(n), k); }
    }
  }

  lemma {:induction false} Pow2IsPowerOfTwo(e: nat)
    ensures IsPowerOfTwo(Pow2(e))
  {
    if e == 0 {
    } else {
      Pow2IsPowerOfTwo(e - 1);
    }
  }

  /** Every size between the split point and `n` has the same split point as `n`. */
  lemma SplitStable(m: nat, n: nat)
    requires n > 1 && Split(n) < m <= n
    ensures Split(m) == Split(n)
  {
    SplitUnique(n, Split(n));
    SplitUnique(m, Split(n));
  }

  /** Zero bits above the highest set bit of `x` in a word of `width` bits, counted from the top. */
  function LeadingZeros(x: nat, width: nat): (z: nat)
    requires x < Pow2(width)
    ensures z <= width
    ensures z == width <==> x == 0
    ensures x > 0 ==> Pow2(width - 1 - z) <= x < 2 * Pow2(width - 1 - z)
  {
    if width == 0 || x >= Pow2(width - 1) then 0 else 1 + LeadingZeros(x, width - 1)
  }

  /** `1 << s` on a word of `bits` bits: the bit is lost once `s` reaches the width. */
  function ShiftOneLeft(s: nat, bits: nat): nat {
    Pow2(s) % Pow2(bits)
  }

  lemma SmallRemainder(x: nat, d: nat)
    requires x < d
    ensures x % d == x
  {
  }

  /** The source's shift and leading-zeros formula gives the split point for every size a word holds. */
  function LargestPowerOfTwoLessThan(n: nat, bits: nat): (k: nat)
    requires 1 < n < Pow2(bits)
    ensures k == Split(n)
  {
    var s := bits - 1 - LeadingZeros(n - 1, bits);
    Pow2IsPowerOfTwo(s);
    SplitUnique(n, Pow2(s));
    Pow2Gap(s, bits);
    SmallRemainder(Pow2(s), Pow2(bits));
    ShiftOneLeft(s, bits)
  }

  /** Bitwise conjunction, bit by bit from the lowest. */
  function BitAnd(x: nat, y: nat): nat {
    if x == 0 || y == 0 then 0 else (x % 2) * (y % 2) + 2 * BitAnd(x / 2, y / 2)
  }

  lemma BitAndOdd(x: nat, p: nat)
    requires p > 0
    ensures BitAnd(x, 2 * p - 1) == x % 2 + 2 * BitAnd(x / 2, p - 1)
  {
    assert (2 * p - 1) / 2 == p - 1 && (2 * p - 1) % 2 == 1;
  }

  lemma ProductBound(d: int, k: int)
    requires d > 0
    ensures k >= 1 ==> d * k >= d
    ensures k <= -1 ==> d * k <= -d
  {
    assert d * k == d * (k - 1) + d == d * (k + 1) - d;
  }

  lemma {:induction false} QuotientUnique(q: int, r: int, q': int, r': int, d: int)
    requires 0 <= r < d && 0 <= r' < d && d * q + r == d * q' + r'
    ensures r == r'
  {
    var diff := q - q';
    assert d * diff == r' - r;
    ProductBound(d, diff);
  }

  lemma {:induction false} RemainderUnique(x: nat, d: nat, q: nat, r: nat)
    requires d > 0 && r < d && x == d * q + r
    ensures x % d == r
  {
    QuotientUnique(x / d, x % d, q, r, d);
  }

  lemma {:induction false} HalfRemainder(x: nat, p: nat)
    requires p > 0
    ensures x % (2 * p) == x % 2 + 2 * ((x / 2) % p)
  {
    var h := x / 2;
    var q, r := h / p, h % p;
    assert x == 2 * h + x % 2 && h == p * q + r;
    assert x == (2 * p) * q + (2 * r + x % 2);
    RemainderUnique(x, 2 * p, q, 2 * r + x % 2);
  }

  /** Masking with `2^e - 1` is the remainder by `2^e`: the shard index. */
  lemma {:induction false} MaskIsRemainder(x: nat, e: nat)
    ensures BitAnd(x, Pow2(e) - 1) == x % Pow2(e)
  {
    if e == 0 {
    } else if x == 0 {
      SmallRemainder(0, Pow2(e));
    } else {
      var p := Pow2(e - 1);
      MaskIsRemainder(x / 2, e - 1);
      HalfRemainder(x, p);
      BitAndOdd(x, p);
    }
  }
}
