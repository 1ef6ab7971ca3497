/**
 Generators against verifiers, for any way to combine two children.
 Soundness ends in "or this clash": two different pairs of children with one parent, computed by a
 function from the proof and the tree. Completeness says each verifier undoes its generator.
 */
module MerkleProofTheory {
  import opened Digests
  import opened MerkleSpec
  import opened MerkleVerifier
  import opened Options
  import opened PowersOfTwo

  // ----- Audit paths -----

  // What a collision function returns where there is nothing to collide.
  function NoClash<D(==)>(d: D): Clash<D> {
    Clash(d, d, d, d)
  }

  lemma SidesBelow<D>(path: seq<Step<D>>, i: nat, n: nat)
    requires i < n && n > 1 && Sides(path) == SidesFor(i, n)
    ensures |path| > 0
    ensures path[|path| - 1].side == (if i < Split(n) then Right else Left)
    ensures i < Split(n) ==> Sides(path[..|path| - 1]) == SidesFor(i, Split(n))
    ensures i >= Split(n) ==> Sides(path[..|path| - 1]) == SidesFor(i - Split(n), n - Split(n))
  {
    var k := Split(n);
    var lower := if i < k then SidesFor(i, k) else SidesFor(i - k, n - k);
    var top := if i < k then Right else Left;
    assert SidesFor(i, n) == lower + [top];
    var below := path[..|path| - 1];
    assert path == below + [path[|path| - 1]];
    SidesAppend(below, path[|path| - 1]);
    assert Sides(below) == (Sides(below) + [path[|path| - 1].side])[..|below|] == lower;
  }

  /** Where the climb leaves the genuine tree: the highest node with other children. */
  function PathClash<D(==)>(node: NodeFn<D>, h: D, path: seq<Step<D>>, leaves: seq<D>, lo: nat, hi: nat,
                            i: nat): Clash<D>
    requires lo + i < hi <= |leaves|
    decreases hi - lo
  {
    if hi == lo + 1 || path == [] then NoClash(leaves[lo])
    else
      var k := Split(hi - lo);
      var mid := lo + k;
      var below, sibling := path[..|path| - 1], path[|path| - 1].sibling;
      var l, r := RangeRoot(node, leaves, lo, mid), RangeRoot(node, leaves, mid, hi);
      var c := Climb(node, h, below);
      if i < k then
        if c != l || sibling != r then Clash(c, sibling, l, r)
        else PathClash(node, h, below, leaves, lo, mid, i)
      else
        if c != r || sibling != l then Clash(sibling, c, l, r)
        else PathClash(node, h, below, leaves, mid, hi, i - k)
  }

  /** Whether the last step of the climb joins the genuine children of the range. */
  predicate TopIsGenuine<D(==)>(node: NodeFn<D>, h: D, path: seq<Step<D>>, leaves: seq<D>, lo: nat, hi: nat, i: nat)
    requires lo + i < hi <= |leaves| && hi - lo > 1 && path != []
  {
    var mid := lo + Split(hi - lo);
    var l, r := RangeRoot(node, leaves, lo, mid), RangeRoot(node, leaves, mid, hi);
    var c, sibling := Climb(node, h, path[..|path| - 1]), path[|path| - 1].sibling;
    if lo + i < mid then c == l && sibling == r else c == r && sibling == l
  }

  lemma FalseTopClashes<D>(node: NodeFn<D>, h: D, path: seq<Step<D>>, leaves: seq<D>, lo: nat, hi: nat, i: nat)
    requires lo + i < hi <= |leaves| && hi - lo > 1 && path != []
    requires path[|path| - 1].side == (if i < Split(hi - lo) then Right else Left)
    requires Climb(node, h, path) == RangeRoot(node, leaves, lo, hi)
    requires !TopIsGenuine(node, h, path, leaves, lo, hi, i)
    ensures Clashes(node, PathClash(node, h, path, leaves, lo, hi, i))
  {
  }

  lemma GenuineTopLeft<D>(node: NodeFn<D>, h: D, path: seq<Step<D>>, leaves: seq<D>, lo: nat, mid: nat, hi: nat, i: nat)
    requires lo + i < mid < hi <= |leaves| && mid == lo + Split(hi - lo) && path != []
    requires path[|path| - 1].side == Right && TopIsGenuine(node, h, path, leaves, lo, hi, i)
    ensures var below, top := path[..|path| - 1], path[|path| - 1];
      && Climb(node, h, below) == RangeRoot(node, leaves, lo, mid)
      && RangePath(node, leaves, lo, hi, i) == RangePath(node, leaves, lo, mid, i) + [top]
      && PathClash(node, h, path, leaves, lo, hi, i) == PathClash(node, h, below, leaves, lo, mid, i)
  {
  }

  lemma GenuineTopRight<D>(node: NodeFn<D>, h: D, path: seq<Step<D>>, leaves: seq<D>,
                           lo: nat, mid: nat, hi: nat, i: nat)
    requires lo < mid <= lo + i < hi <= |leaves| && mid == lo + Split(hi - lo) && path != []
    requires path[|path| - 1].side == Left && TopIsGenuine(node, h, path, leaves, lo, hi, i)
    ensures var below, top := path[..|path| - 1], path[|path| - 1];
      && Climb(node, h, below) == RangeRoot(node, leaves, mid, hi)
      && RangePath(node, leaves, lo, hi, i) == RangePath(node, leaves, mid, hi, lo + i - mid) + [top]
      && PathClash(node, h, path, leaves, lo, hi, i) == PathClash(node, h, below, leaves, mid, hi, lo + i - mid)
  {
  }

  /** The climb starts at leaf `i` of the range with its genuine path, or the clash function found a clash. */
  predicate PinnedOrClash<D(==)>(node: NodeFn<D>, h: D, path: seq<Step<D>>, leaves: seq<D>, lo: nat, hi: nat, i: nat)
    requires lo + i < hi <= |leaves|
  {
    || (h == leaves[lo + i] && path == RangePath(node, leaves, lo, hi, i))
    || Clashes(node, PathClash(node, h, path, leaves, lo, hi, i))
  }

  /** The last step is onto the right half, and the steps below stay in the left one. */
  lemma {:induction false} PinnedOnLeft<D>(node: NodeFn<D>, h: D, path: seq<Step<D>>, leaves: seq<D>,
                                           lo: nat, mid: nat, hi: nat, i: nat)
    requires lo + i < mid < hi <= |leaves| && mid == lo + Split(hi - lo) && path != []
    requires path[|path| - 1].side == Right && TopIsGenuine(node, h, path, leaves, lo, hi, i)
    requires Sides(path[..|path| - 1]) == SidesFor(i, mid - lo)
    ensures PinnedOrClash(node, h, path, leaves, lo, hi, i)
    decreases hi - lo, 0
  {
    var below := path[..|path| - 1];
    GenuineTopLeft(node, h, path, leaves, lo, mid, hi, i);
    SidesPinPath(node, h, below, leaves, lo, mid, i);
    assert path == below + [path[|path| - 1]];
  }

  lemma {:induction false} PinnedOnRight<D>(node: NodeFn<D>, h: D, path: seq<Step<D>>, leaves: seq<D>,
                                            lo: nat, mid: nat, hi: nat, i: nat)
    requires lo < mid <= lo + i < hi <= |leaves| && mid == lo + Split(hi - lo) && path != []
    requires path[|path| - 1].side == Left && TopIsGenuine(node, h, path, leaves, lo, hi, i)
    requires Sides(path[..|path| - 1]) == SidesFor(lo + i - mid, hi - mid)
    ensures PinnedOrClash(node, h, path, leaves, lo, hi, i)
    decreases hi - lo, 0
  {
    var below := path[..|path| - 1];
    GenuineTopRight(node, h, path, leaves, lo, mid, hi, i);
    SidesPinPath(node, h, below, leaves, mid, hi, lo + i - mid);
    assert path == below + [path[|path| - 1]];
  }

  /** With the sides of position `i`, reaching the root means starting at leaf `i` by the genuine path. */
  lemma {:induction false} SidesPinPath<D>(node: NodeFn<D>, h: D, path: seq<Step<D>>,
                                        leaves: seq<D>, lo: nat, hi: nat, i: nat)
    requires lo + i < hi <= |leaves| && Sides(path) == SidesFor(i, hi - lo)
    requires Climb(node, h, path) == RangeRoot(node, leaves, lo, hi)
    ensures PinnedOrClash(node, h, path, leaves, lo, hi, i)
    decreases hi - lo, 1
  {
    if hi == lo + 1 {
      assert |path| == |Sides(path)| == 0;
    } else {
      SidesBelow(path, i, hi - lo);
      if !TopIsGenuine(node, h, path, leaves, lo, hi, i) {
        FalseTopClashes(node, h, path, leaves, lo, hi, i);
      } else if i < Split(hi - lo) {
        PinnedOnLeft(node, h, path, leaves, lo, lo + Split(hi - lo), hi, i);
      } else {
        PinnedOnRight(node, h, path, leaves, lo, lo + Split(hi - lo), hi, i);
      }
    }
  }

  lemma ClimbStep<D>(node: NodeFn<D>, h: D, path: seq<Step<D>>, step: Step<D>)
    ensures Climb(node, h, path + [step])
         == if step.side == Right then node(Climb(node, h, path), step.sibling)
            else node(step.sibling, Climb(node, h, path))
  {
    assert (path + [step])[..|path|] == path;
  }

  lemma ClimbOnLeft<D>(node: NodeFn<D>, leaves: seq<D>, lo: nat, mid: nat, hi: nat, i: nat, start: D)
    requires lo + i < mid < hi <= |leaves| && mid == lo + Split(hi - lo)
    requires Climb(node, start, RangePath(node, leaves, lo, mid, i)) == RangeRoot(node, leaves, lo, mid)
    ensures Climb(node, start, RangePath(node, leaves, lo, hi, i)) == RangeRoot(node, leaves, lo, hi)
  {
    ClimbStep(node, start, RangePath(node, leaves, lo, mid, i), Step(RangeRoot(node, leaves, mid, hi), Right));
  }

  lemma ClimbOnRight<D>(node: NodeFn<D>, leaves: seq<D>, lo: nat, mid: nat, hi: nat, i: nat, k: nat, start: D)
    requires k <= i && lo + i < hi <= |leaves| && lo < mid < hi && k == Split(hi - lo) && mid == lo + k
    requires Climb(node, start, RangePath(node, leaves, mid, hi, i - k)) == RangeRoot(node, leaves, mid, hi)
    ensures Climb(node, start, RangePath(node, leaves, lo, hi, i)) == RangeRoot(node, leaves, lo, hi)
  {
    ClimbStep(node, start, RangePath(node, leaves, mid, hi, i - k), Step(RangeRoot(node, leaves, lo, mid), Left));
  }

  lemma {:induction false} ClimbOfRangePath<D>(node: NodeFn<D>, leaves: seq<D>, lo: nat, hi: nat, i: nat, start: D)
    requires lo + i < hi <= |leaves| && start == leaves[lo + i]
    ensures Climb(node, start, RangePath(node, leaves, lo, hi, i)) == RangeRoot(node, leaves, lo, hi)
    decreases hi - lo
  {
    if hi == lo + 1 {
    } else {
      var k := Split(hi - lo);
      var mid := lo + k;
      if i < k {
        ClimbOfRangePath(node, leaves, lo, mid, i, start);
        ClimbOnLeft(node, leaves, lo, mid, hi, i, start);
      } else {
        ClimbOfRangePath(node, leaves, mid, hi, i - k, start);
        ClimbOnRight(node, leaves, lo, mid, hi, i, k, start);
      }
    }
  }

  // ----- Consistency proofs -----

  /** The root of the first `m` leaves of a range, when `m` reaches past the split point. */
  lemma PrefixRoot<D>(node: NodeFn<D>, leaves: seq<D>, lo: nat, hi: nat, m: nat)
    requires lo <= hi <= |leaves| && hi - lo > 1 && Split(hi - lo) < m <= hi - lo
    ensures var mid := lo + Split(hi - lo);
            RangeRoot(node, leaves, lo, lo + m)
            == node(RangeRoot(node, leaves, lo, mid), RangeRoot(node, leaves, mid, lo + m))
  {
    SplitStable(m, hi - lo);
  }

  // What a soundness proof shows of a popped stack is stated with the generator pushing onto the rest.

  /** `SUBPROOF` pushed onto a stack, as the generator leaves it for the verifier. */
  function PushedSubproof<D>(node: NodeFn<D>, m: nat, leaves: seq<D>, lo: nat, hi: nat, b: bool,
                             rest: Stack<D>): Stack<D>
    requires 1 <= m && lo + m <= hi <= |leaves|
    decreases hi - lo
  {
    if m == hi - lo then
      if b then rest else Pushed(RangeRoot(node, leaves, lo, hi), rest)
    else
      var mid := lo + Split(hi - lo);
      if lo + m <= mid then
        Pushed(RangeRoot(node, leaves, mid, hi), PushedSubproof(node, m, leaves, lo, mid, b, rest))
      else
        Pushed(RangeRoot(node, leaves, lo, mid), PushedSubproof(node, lo + m - mid, leaves, mid, hi, false, rest))
  }

  lemma {:induction false} StackOfSubproof<D>(node: NodeFn<D>, m: nat, leaves: seq<D>, lo: nat, hi: nat, b: bool)
    requires 1 <= m && lo + m <= hi <= |leaves|
    ensures StackOf(Subproof(node, m, leaves, lo, hi, b)) == PushedSubproof(node, m, leaves, lo, hi, b, Empty)
    decreases hi - lo
  {
    if m < hi - lo {
      var k := Split(hi - lo);
      var mid := lo + k;
      if m <= k {
        StackOfSubproof(node, m, leaves, lo, mid, b);
        StackOfPush(Subproof(node, m, leaves, lo, mid, b), RangeRoot(node, leaves, mid, hi));
      } else {
        StackOfSubproof(node, m - k, leaves, mid, hi, false);
        StackOfPush(Subproof(node, m - k, leaves, mid, hi, false), RangeRoot(node, leaves, lo, mid));
      }
    } else if !b {
      StackOfPush([], RangeRoot(node, leaves, lo, hi));
    }
  }

  function SubproofClash<D(==)>(node: NodeFn<D>, m: nat, leaves: seq<D>, lo: nat, hi: nat, stack: Stack<D>): Clash<D>
    requires 1 <= m && lo + m <= hi <= |leaves|
    decreases hi - lo
  {
    if m == hi - lo || stack.Empty? then NoClash(leaves[lo])
    else
      var k := Split(hi - lo);
      var mid := lo + k;
      var l, r := RangeRoot(node, leaves, lo, mid), RangeRoot(node, leaves, mid, hi);
      if m <= k then
        match SubproofRoots(node, m, k, stack.below).result
        case None => NoClash(leaves[lo])
        case Some(sub) =>
          if sub.1 != l || stack.top != r then Clash(sub.1, stack.top, l, r)
          else SubproofClash(node, m, leaves, lo, mid, stack.below)
      else
        match SubproofRoots(node, m - k, hi - mid, stack.below).result
        case None => NoClash(leaves[lo])
        case Some(sub) =>
          if stack.top != l || sub.1 != r then Clash(stack.top, sub.1, l, r)
          else SubproofClash(node, m - k, leaves, mid, hi, stack.below)
  }

  lemma RootsRight<D>(node: NodeFn<D>, m: nat, lo: nat, mid: nat, hi: nat, stack: Stack<D>)
    requires lo + m < hi && lo + 1 < hi && mid == lo + Split(hi - lo) && lo + m > mid && stack.Pushed?
    ensures SubproofRoots(node, m, hi - lo, stack)
         == UnderOldLeft(node, stack.top, SubproofRoots(node, lo + m - mid, hi - mid, stack.below))
  {
  }

  lemma ClashRight<D>(node: NodeFn<D>, m: nat, leaves: seq<D>, lo: nat, mid: nat, hi: nat, stack: Stack<D>)
    requires lo + m < hi <= |leaves| && lo + 1 < hi && mid == lo + Split(hi - lo) && lo + m > mid && stack.Pushed?
    requires SubproofRoots(node, lo + m - mid, hi - mid, stack.below).result.Some?
    ensures var l, r := RangeRoot(node, leaves, lo, mid), RangeRoot(node, leaves, mid, hi);
      var right := SubproofRoots(node, lo + m - mid, hi - mid, stack.below).result.value.1;
      SubproofClash(node, m, leaves, lo, hi, stack)
      == if stack.top != l || right != r then Clash(stack.top, right, l, r)
         else SubproofClash(node, lo + m - mid, leaves, mid, hi, stack.below)
  {
  }

  lemma PushedRight<D>(node: NodeFn<D>, m: nat, leaves: seq<D>, lo: nat, mid: nat, hi: nat, b: bool, rest: Stack<D>)
    requires lo + m < hi <= |leaves| && lo + 1 < hi && mid == lo + Split(hi - lo) && lo + m > mid
    ensures PushedSubproof(node, m, leaves, lo, hi, b, rest)
         == Pushed(RangeRoot(node, leaves, lo, mid), PushedSubproof(node, lo + m - mid, leaves, mid, hi, false, rest))
  {
  }

  /** The popped old root is genuine and the stack is what the generator pushes on the rest, or a clash. */
  predicate StackPinned<D(==)>(node: NodeFn<D>, m: nat, leaves: seq<D>, lo: nat, hi: nat, stack: Stack<D>,
                               o: Outcome<(D, D), D>)
    requires 1 <= m && lo + m <= hi <= |leaves|
  {
    || (&& o.result.Some?
        && o.result.value.0 == RangeRoot(node, leaves, lo, lo + m)
        && stack == PushedSubproof(node, m, leaves, lo, hi, false, o.rest))
    || Clashes(node, SubproofClash(node, m, leaves, lo, hi, stack))
  }

  lemma PinnedUnderLeft<D>(node: NodeFn<D>, m: nat, leaves: seq<D>, lo: nat, mid: nat, hi: nat, stack: Stack<D>,
                           right: Outcome<(D, D), D>)
    requires lo + m < hi <= |leaves| && lo + 1 < hi && mid == lo + Split(hi - lo) && lo + m > mid
    requires stack.Pushed? && stack.top == RangeRoot(node, leaves, lo, mid) && right.result.Some?
    requires StackPinned(node, lo + m - mid, leaves, mid, hi, stack.below, right)
    requires SubproofClash(node, m, leaves, lo, hi, stack)
          == SubproofClash(node, lo + m - mid, leaves, mid, hi, stack.below)
    ensures StackPinned(node, m, leaves, lo, hi, stack, UnderOldLeft(node, stack.top, right))
  {
    PrefixRoot(node, leaves, lo, hi, m);
    PushedRight(node, m, leaves, lo, mid, hi, false, right.rest);
  }

  lemma PushedLeft<D>(node: NodeFn<D>, m: nat, leaves: seq<D>, lo: nat, mid: nat, hi: nat, b: bool, rest: Stack<D>)
    requires 1 <= m && lo + 1 < hi <= |leaves| && mid == lo + Split(hi - lo) && lo + m <= mid
    ensures PushedSubproof(node, m, leaves, lo, hi, b, rest)
         == Pushed(RangeRoot(node, leaves, mid, hi), PushedSubproof(node, m, leaves, lo, mid, b, rest))
  {
  }

  lemma PinnedUnderRight<D>(node: NodeFn<D>, m: nat, leaves: seq<D>, lo: nat, mid: nat, hi: nat, stack: Stack<D>,
                            left: Outcome<(D, D), D>)
    requires 1 <= m && lo + 1 < hi <= |leaves| && mid == lo + Split(hi - lo) && lo + m <= mid
    requires stack.Pushed? && stack.top == RangeRoot(node, leaves, mid, hi) && left.result.Some?
    requires StackPinned(node, m, leaves, lo, mid, stack.below, left)
    requires SubproofClash(node, m, leaves, lo, hi, stack) == SubproofClash(node, m, leaves, lo, mid, stack.below)
    ensures StackPinned(node, m, leaves, lo, hi, stack, UnderNewRight(node, left, stack.top))
  {
    PushedLeft(node, m, leaves, lo, mid, hi, false, left.rest);
  }

  /** The old root reaches past the split point: the left root is in both trees. */
  lemma {:induction false} SubproofSoundRight<D>(node: NodeFn<D>, m: nat, leaves: seq<D>, lo: nat, mid: nat, hi: nat,
                                                 stack: Stack<D>)
    requires lo + m < hi <= |leaves| && lo + 1 < hi && mid == lo + Split(hi - lo) && lo + m > mid
    requires SubproofRoots(node, m, hi - lo, stack).result.Some?
    requires SubproofRoots(node, m, hi - lo, stack).result.value.1 == RangeRoot(node, leaves, lo, hi)
    ensures StackPinned(node, m, leaves, lo, hi, stack, SubproofRoots(node, m, hi - lo, stack))
    decreases hi - lo, 0
  {
    RootsRight(node, m, lo, mid, hi, stack);
    ClashRight(node, m, leaves, lo, mid, hi, stack);
    var right := SubproofRoots(node, lo + m - mid, hi - mid, stack.below);
    if stack.top == RangeRoot(node, leaves, lo, mid) && right.result.value.1 == RangeRoot(node, leaves, mid, hi) {
      SubproofSound(node, lo + m - mid, leaves, mid, hi, stack.below);
      PinnedUnderLeft(node, m, leaves, lo, mid, hi, stack, right);
    }
  }

  lemma RootsLeft<D>(node: NodeFn<D>, m: nat, lo: nat, mid: nat, hi: nat, stack: Stack<D>)
    requires 1 <= m && lo + 1 < hi && mid == lo + Split(hi - lo) && lo + m <= mid && stack.Pushed?
    ensures SubproofRoots(node, m, hi - lo, stack)
         == UnderNewRight(node, SubproofRoots(node, m, mid - lo, stack.below), stack.top)
  {
  }

  lemma ClashLeft<D>(node: NodeFn<D>, m: nat, leaves: seq<D>, lo: nat, mid: nat, hi: nat, stack: Stack<D>)
    requires 1 <= m && lo + 1 < hi <= |leaves| && mid == lo + Split(hi - lo) && lo + m <= mid && stack.Pushed?
    requires SubproofRoots(node, m, mid - lo, stack.below).result.Some?
    ensures var l, r := RangeRoot(node, leaves, lo, mid), RangeRoot(node, leaves, mid, hi);
      var left := SubproofRoots(node, m, mid - lo, stack.below).result.value.1;
      SubproofClash(node, m, leaves, lo, hi, stack)
      == if left != l || stack.top != r then Clash(left, stack.top, l, r)
         else SubproofClash(node, m, leaves, lo, mid, stack.below)
  {
  }

  /** The old root lies within the left part: the right root is new. */
  lemma {:induction false} SubproofSoundLeft<D>(node: NodeFn<D>, m: nat, leaves: seq<D>, lo: nat, mid: nat, hi: nat,
                                                stack: Stack<D>)
    requires 1 <= m && lo + 1 < hi <= |leaves| && mid == lo + Split(hi - lo) && lo + m <= mid
    requires SubproofRoots(node, m, hi - lo, stack).result.Some?
    requires SubproofRoots(node, m, hi - lo, stack).result.value.1 == RangeRoot(node, leaves, lo, hi)
    ensures StackPinned(node, m, leaves, lo, hi, stack, SubproofRoots(node, m, hi - lo, stack))
    decreases hi - lo, 0
  {
    RootsLeft(node, m, lo, mid, hi, stack);
    ClashLeft(node, m, leaves, lo, mid, hi, stack);
    var left := SubproofRoots(node, m, mid - lo, stack.below);
    if left.result.value.1 == RangeRoot(node, leaves, lo, mid) && stack.top == RangeRoot(node, leaves, mid, hi) {
      SubproofSound(node, m, leaves, lo, mid, stack.below);
      PinnedUnderRight(node, m, leaves, lo, mid, hi, stack, left);
    }
  }

  lemma {:induction false} SubproofSound<D>(node: NodeFn<D>, m: nat, leaves: seq<D>, lo: nat, hi: nat, stack: Stack<D>)
    requires 1 <= m && lo + m <= hi <= |leaves|
    requires SubproofRoots(node, m, hi - lo, stack).result.Some?
    requires SubproofRoots(node, m, hi - lo, stack).result.value.1 == RangeRoot(node, leaves, lo, hi)
    ensures var o := SubproofRoots(node, m, hi - lo, stack);
      || (&& o.result.value.0 == RangeRoot(node, leaves, lo, lo + m)
          && stack == PushedSubproof(node, m, leaves, lo, hi, false, o.rest))
      || Clashes(node, SubproofClash(node, m, leaves, lo, hi, stack))
    decreases hi - lo, 1
  {
    if m == hi - lo {
    } else if m > Split(hi - lo) {
      SubproofSoundRight(node, m, leaves, lo, lo + Split(hi - lo), hi, stack);
    } else {
      SubproofSoundLeft(node, m, leaves, lo, lo + Split(hi - lo), hi, stack);
    }
  }

  function RebuildClash<D(==)>(node: NodeFn<D>, m: nat, leaves: seq<D>, lo: nat, hi: nat,
                               stack: Stack<D>, prevRoot: D): Clash<D>
    requires 1 <= m && lo + m <= hi <= |leaves|
    decreases hi - lo
  {
    if m == hi - lo || stack.Empty? then NoClash(leaves[lo])
    else
      var k := Split(hi - lo);
      var mid := lo + k;
      var l, r := RangeRoot(node, leaves, lo, mid), RangeRoot(node, leaves, mid, hi);
      if m <= k then
        match RebuiltRoot(node, m, k, stack.below, prevRoot).result
        case None => NoClash(leaves[lo])
        case Some(sub) =>
          if sub != l || stack.top != r then Clash(sub, stack.top, l, r)
          else RebuildClash(node, m, leaves, lo, mid, stack.below, prevRoot)
      else
        match SubproofRoots(node, m - k, hi - mid, stack.below).result
        case None => NoClash(leaves[lo])
        case Some(sub) =>
          if stack.top != l || sub.1 != r then Clash(stack.top, sub.1, l, r)
          else SubproofClash(node, m - k, leaves, mid, hi, stack.below)
  }

  lemma RebuiltRight<D>(node: NodeFn<D>, m: nat, lo: nat, mid: nat, hi: nat, stack: Stack<D>, prevRoot: D)
    requires lo + m < hi && lo + 1 < hi && mid == lo + Split(hi - lo) && lo + m > mid
    ensures var o := RebuiltRoot(node, m, hi - lo, stack, prevRoot);
      o.result.Some? ==>
        && stack.Pushed?
        && var right := SubproofRoots(node, lo + m - mid, hi - mid, stack.below);
        && right.result.Some? && o.rest == right.rest
        && prevRoot == node(stack.top, right.result.value.0) && o.result.value == node(stack.top, right.result.value.1)
  {
  }

  lemma RebuildClashRight<D>(node: NodeFn<D>, m: nat, leaves: seq<D>, lo: nat, mid: nat, hi: nat,
                             stack: Stack<D>, prevRoot: D)
    requires lo + m < hi <= |leaves| && lo + 1 < hi && mid == lo + Split(hi - lo) && lo + m > mid && stack.Pushed?
    requires SubproofRoots(node, lo + m - mid, hi - mid, stack.below).result.Some?
    ensures var l, r := RangeRoot(node, leaves, lo, mid), RangeRoot(node, leaves, mid, hi);
      var right := SubproofRoots(node, lo + m - mid, hi - mid, stack.below).result.value.1;
      RebuildClash(node, m, leaves, lo, hi, stack, prevRoot)
      == if stack.top != l || right != r then Clash(stack.top, right, l, r)
         else SubproofClash(node, lo + m - mid, leaves, mid, hi, stack.below)
  {
  }

  /** The old root lies past the split point: both subtrees are pinned by the new root. */
  lemma RebuildSoundRight<D>(node: NodeFn<D>, m: nat, leaves: seq<D>, lo: nat, mid: nat, hi: nat,
                             stack: Stack<D>, prevRoot: D)
    requires lo + m < hi <= |leaves| && lo + 1 < hi && mid == lo + Split(hi - lo) && lo + m > mid
    requires RebuiltRoot(node, m, hi - lo, stack, prevRoot).result == Some(RangeRoot(node, leaves, lo, hi))
    ensures var rest := RebuiltRoot(node, m, hi - lo, stack, prevRoot).rest;
      || (&& prevRoot == RangeRoot(node, leaves, lo, lo + m)
          && stack == PushedSubproof(node, m, leaves, lo, hi, true, rest))
      || Clashes(node, RebuildClash(node, m, leaves, lo, hi, stack, prevRoot))
  {
    RebuiltRight(node, m, lo, mid, hi, stack, prevRoot);
    RebuildClashRight(node, m, leaves, lo, mid, hi, stack, prevRoot);
    var right := SubproofRoots(node, lo + m - mid, hi - mid, stack.below);
    if stack.top == RangeRoot(node, leaves, lo, mid) && right.result.value.1 == RangeRoot(node, leaves, mid, hi) {
      SubproofSound(node, lo + m - mid, leaves, mid, hi, stack.below);
      PrefixRoot(node, leaves, lo, hi, m);
      PushedRight(node, m, leaves, lo, mid, hi, true, right.rest);
    }
  }

  lemma {:induction false} RebuildSound<D>(node: NodeFn<D>, m: nat, leaves: seq<D>, lo: nat, hi: nat,
                                           stack: Stack<D>, prevRoot: D)
    requires 1 <= m && lo + m <= hi <= |leaves|
    requires RebuiltRoot(node, m, hi - lo, stack, prevRoot).result == Some(RangeRoot(node, leaves, lo, hi))
    ensures var rest := RebuiltRoot(node, m, hi - lo, stack, prevRoot).rest;
      || (&& prevRoot == RangeRoot(node, leaves, lo, lo + m)
          && stack == PushedSubproof(node, m, leaves, lo, hi, true, rest))
      || Clashes(node, RebuildClash(node, m, leaves, lo, hi, stack, prevRoot))
    decreases hi - lo
  {
    if m == hi - lo {
    } else if m > Split(hi - lo) {
      RebuildSoundRight(node, m, leaves, lo, lo + Split(hi - lo), hi, stack, prevRoot);
    } else {
      var k := Split(hi - lo);
      var mid := lo + k;
      var sub := RebuiltRoot(node, m, k, stack.below, prevRoot).result.value;
      if sub == RangeRoot(node, leaves, lo, mid) && stack.top == RangeRoot(node, leaves, mid, hi) {
        RebuildSound(node, m, leaves, lo, mid, stack.below, prevRoot);
      }
    }
  }

  /** The full verifier, on what the generator pushed for a range, recovers both roots and leaves the rest. */
  predicate Recovers<D(==)>(node: NodeFn<D>, m: nat, leaves: seq<D>, lo: nat, hi: nat, rest: Stack<D>)
    requires 1 <= m && lo + m <= hi <= |leaves|
  {
    SubproofRoots(node, m, hi - lo, PushedSubproof(node, m, leaves, lo, hi, false, rest))
    == Outcome(Some((RangeRoot(node, leaves, lo, lo + m), RangeRoot(node, leaves, lo, hi))), rest)
  }

  lemma RecoversOnLeft<D>(node: NodeFn<D>, m: nat, leaves: seq<D>, lo: nat, mid: nat, hi: nat, rest: Stack<D>)
    requires 1 <= m && lo + 1 < hi <= |leaves| && mid == lo + Split(hi - lo) && lo + m <= mid
    requires Recovers(node, m, leaves, lo, mid, rest)
    ensures Recovers(node, m, leaves, lo, hi, rest)
  {
    PushedLeft(node, m, leaves, lo, mid, hi, false, rest);
  }

  lemma RecoversOnRight<D>(node: NodeFn<D>, m: nat, leaves: seq<D>, lo: nat, mid: nat, hi: nat, rest: Stack<D>)
    requires lo + m < hi <= |leaves| && lo + 1 < hi && mid == lo + Split(hi - lo) && lo + m > mid
    requires Recovers(node, lo + m - mid, leaves, mid, hi, rest)
    ensures Recovers(node, m, leaves, lo, hi, rest)
  {
    PushedRight(node, m, leaves, lo, mid, hi, false, rest);
    RootsRight(node, m, lo, mid, hi, PushedSubproof(node, m, leaves, lo, hi, false, rest));
    PrefixRoot(node, leaves, lo, hi, m);
  }

  /** It pops exactly what was pushed, whatever lies below. */
  lemma {:induction false} SubproofComplete<D>(node: NodeFn<D>, m: nat, leaves: seq<D>, lo: nat, hi: nat,
                                               rest: Stack<D>)
    requires 1 <= m && lo + m <= hi <= |leaves|
    ensures Recovers(node, m, leaves, lo, hi, rest)
    decreases hi - lo
  {
    if m == hi - lo {
    } else {
      var mid := lo + Split(hi - lo);
      if lo + m <= mid {
        SubproofComplete(node, m, leaves, lo, mid, rest);
        RecoversOnLeft(node, m, leaves, lo, mid, hi, rest);
      } else {
        SubproofComplete(node, lo + m - mid, leaves, mid, hi, rest);
        RecoversOnRight(node, m, leaves, lo, mid, hi, rest);
      }
    }
  }

  /** The outer verifier, given the old root, rebuilds the new one and leaves the rest. */
  predicate Rebuilds<D(==)>(node: NodeFn<D>, m: nat, leaves: seq<D>, lo: nat, hi: nat, rest: Stack<D>)
    requires 1 <= m && lo + m <= hi <= |leaves|
  {
    RebuiltRoot(node, m, hi - lo, PushedSubproof(node, m, leaves, lo, hi, true, rest),
                RangeRoot(node, leaves, lo, lo + m))
    == Outcome(Some(RangeRoot(node, leaves, lo, hi)), rest)
  }

  lemma RebuildsOnLeft<D>(node: NodeFn<D>, m: nat, leaves: seq<D>, lo: nat, mid: nat, hi: nat, rest: Stack<D>)
    requires 1 <= m && lo + 1 < hi <= |leaves| && mid == lo + Split(hi - lo) && lo + m <= mid
    requires Rebuilds(node, m, leaves, lo, mid, rest)
    ensures Rebuilds(node, m, leaves, lo, hi, rest)
  {
    PushedLeft(node, m, leaves, lo, mid, hi, true, rest);
  }

  lemma RebuildsOnRight<D>(node: NodeFn<D>, m: nat, leaves: seq<D>, lo: nat, mid: nat, hi: nat, rest: Stack<D>)
    requires lo + m < hi <= |leaves| && lo + 1 < hi && mid == lo + Split(hi - lo) && lo + m > mid
    requires Recovers(node, lo + m - mid, leaves, mid, hi, rest)
    ensures Rebuilds(node, m, leaves, lo, hi, rest)
  {
    PushedRight(node, m, leaves, lo, mid, hi, true, rest);
    PrefixRoot(node, leaves, lo, hi, m);
  }

  /** So does the outer verifier. */
  lemma {:induction false} RebuildComplete<D>(node: NodeFn<D>, m: nat, leaves: seq<D>, lo: nat, hi: nat, rest: Stack<D>)
    requires 1 <= m && lo + m <= hi <= |leaves|
    ensures Rebuilds(node, m, leaves, lo, hi, rest)
    decreases hi - lo
  {
    if m == hi - lo {
    } else {
      var mid := lo + Split(hi - lo);
      if lo + m <= mid {
        RebuildComplete(node, m, leaves, lo, mid, rest);
        RebuildsOnLeft(node, m, leaves, lo, mid, hi, rest);
      } else {
        SubproofComplete(node, lo + m - mid, leaves, mid, hi, rest);
        RebuildsOnRight(node, m, leaves, lo, mid, hi, rest);
      }
    }
  }
}
