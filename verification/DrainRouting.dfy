/** Which logs meet in the tree: tokens with digits, and parameters, are not told apart on the way down. */
module DrainRouting {
  import opened Decimal
  import opened Drain
  import opened DrainIndex
  import opened DrainRuns
  import opened Options

  /** A parameter, or a token with an ASCII digit in it. */
  predicate ParamLike(t: string) {
    t == "<*>" || exists i :: 0 <= i < |t| && 48 <= t[i] as int <= 57
  }

  lemma ParamLikeRoutes(t: string)
    ensures HasDigitOrParam(t) <==> ParamLike(t)
  {
  }

  /** The tree keeps the two tokens on one way. */
  predicate Alike(t: string, u: string) {
    t == u || (ParamLike(t) && ParamLike(u))
  }

  /** How many tokens steer through the tree. */
  function Steering(cfg: DrainConfig, n: nat): nat {
    if cfg.depth - 2 < n then cfg.depth - 2 else n
  }

  /** Two logs of one length that the tree cannot tell apart. */
  predicate RoutedAlike(cfg: DrainConfig, a: Tokens, b: Tokens) {
    |a| == |b| && forall i :: 0 <= i < Steering(cfg, |a|) ==> Alike(a[i], b[i])
  }

  lemma {:induction false} SearchAlike(node: Node, p: Tokens, q: Tokens)
    requires |p| == |q| && forall i :: 0 <= i < |p| ==> Alike(p[i], q[i])
    ensures SearchNode(node, p) == SearchNode(node, q)
    decreases p
  {
    if p != [] {
      ParamLikeRoutes(p[0]);
      ParamLikeRoutes(q[0]);
      assert SearchKey(node, p[0]) == SearchKey(node, q[0]);
      match SearchKey(node, p[0])
      case None =>
      case Some(key) => SearchAlike(node.children[key], p[1..], q[1..]);
    }
  }

  lemma {:induction false} SameCandidates(cfg: DrainConfig, root: Node, a: Tokens, b: Tokens)
    requires RoutedAlike(cfg, a, b)
    ensures Candidates(cfg, root, a) == Candidates(cfg, root, b)
  {
    var p, q := Prefix(cfg, a), Prefix(cfg, b);
    assert forall i :: 0 <= i < |p| ==> p[i] == a[i] && q[i] == b[i];
    if LengthKey(a) in root.children { SearchAlike(root.children[LengthKey(a)], p, q); }
  }

  /**
   From any indexed state: after a log has started a cluster on a path that is not shadowed, every log the tree
   cannot tell from it is compared with that cluster.
   */
  lemma {:induction false} ComparedWithNewCluster(cfg: DrainConfig, m: Miner, first: Tokens, second: Tokens, nowMs: int)
    requires StartedCluster(cfg, m, first) && !ShadowedInTree(cfg, m, first) && RoutedAlike(cfg, first, second)
    ensures var m' := AddLog(cfg, m, first, nowMs).0;
      m.nextClusterId in m'.clusters && m.nextClusterId in Candidates(cfg, m'.root, second)
  {
    var m', id := AddLog(cfg, m, first, nowMs).0, m.nextClusterId;
    var key, prefix := LengthKey(first), Prefix(cfg, first);
    SearchFollowsInsert(ChildOr(m.root, key), prefix, cfg.maxChildren, id);
    TreeIds(cfg, m.root, first, id, HomePath(cfg, m.root, first));
    SearchNodeIds(ChildOr(m'.root, key), prefix);
    assert id in IdsAt(m'.root, HomePath(cfg, m.root, first));
    assert HomePath(cfg, m.root, first)[1..] == InsertPath(ChildOr(m.root, key), prefix, cfg.maxChildren);
    SameCandidates(cfg, m'.root, first, second);
  }

  // ----- The second log of all, exactly -----

  /** On the way of the only cluster: where its log went to `*` any token follows, elsewhere only the same one. */
  predicate OnWayOf(cfg: DrainConfig, first: Tokens, second: Tokens) {
    forall i :: 0 <= i < Steering(cfg, |first|) && i < |second| ==>
      cfg.maxChildren == 0 || ParamLike(first[i]) || first[i] == "*" || second[i] == first[i]
  }

  lemma {:induction false} SearchOnlyPath(p: Tokens, q: Tokens, maxChildren: nat, id: nat)
    requires |p| == |q|
    ensures var found := SearchNode(Inserted(EMPTY_NODE, p, maxChildren, id), q);
      if forall i :: 0 <= i < |p| ==> maxChildren == 0 || ParamLike(p[i]) || p[i] == "*" || q[i] == p[i]
      then found.Some? && found.value.clusterIds == [id] else found.None?
    decreases p
  {
    if p == [] {
    } else {
      var key := InsertKey(EMPTY_NODE, p[0], maxChildren);
      var after := Inserted(EMPTY_NODE, p, maxChildren, id);
      ParamLikeRoutes(p[0]);
      ParamLikeRoutes(q[0]);
      assert after.children == map[key := Inserted(EMPTY_NODE, p[1..], maxChildren, id)];
      assert SearchKey(after, q[0])
          == if maxChildren == 0 || ParamLike(p[0]) || p[0] == "*" || q[0] == p[0] then Some(key) else None;
      SearchOnlyPath(p[1..], q[1..], maxChildren, id);
      assert forall i :: 1 <= i < |p| ==> p[i] == p[1..][i - 1] && q[i] == q[1..][i - 1];
      assert forall i :: 0 <= i < |p| - 1 ==> p[1..][i] == p[i + 1] && q[1..][i] == q[i + 1];
    }
  }

  /** An anchor on either side stands against something else. */
  predicate AnchorsConflict(cfg: DrainConfig, a: Tokens, b: Tokens) {
    exists i :: 0 <= i < |a| && i < |b| && (Upper(a[i]) in cfg.anchors || Upper(b[i]) in cfg.anchors)
                && Upper(a[i]) != Upper(b[i])
  }

  /** The positions at which the second log has the token of the first, or the first a parameter. */
  function Fitting(a: Tokens, b: Tokens): set<nat> {
    set i: nat | i < |a| && i < |b| && (a[i] == "<*>" || a[i] == b[i])
  }

  lemma FittingCounts(a: Tokens, b: Tokens)
    requires |a| == |b|
    ensures MatchCount(a, b) == |Fitting(a, b)|
  {
    MatchCountCounts(a, b);
    assert Fitting(a, b) == set i | 0 <= i < |a| && (a[i] == WILDCARD || a[i] == b[i]);
  }

  /** The share of fitting positions is positive and reaches the threshold. */
  predicate SimilarEnough(cfg: DrainConfig, a: Tokens, b: Tokens)
    requires a != []
  {
    var n := |Fitting(a, b)|;
    n > 0 && n as real / |a| as real >= cfg.similarityThreshold
  }

  /** The second log joins the first one's cluster. */
  predicate Joins(cfg: DrainConfig, first: Tokens, second: Tokens)
    requires first != []
  {
    && |first| == |second| && OnWayOf(cfg, first, second)
    && !AnchorsConflict(cfg, first, second) && SimilarEnough(cfg, first, second)
  }

  lemma {:induction false} OnlyCandidate(cfg: DrainConfig, first: Tokens, second: Tokens, t: int)
    requires first != []
    ensures var m := AddLog(cfg, NEW_MINER, first, t).0;
      && m.clusters == map[1 := NewCluster(1, first, t)] && m.nextClusterId == 2
      && Candidates(cfg, m.root, second) == if |first| == |second| && OnWayOf(cfg, first, second) then [1] else []
  {
    var m := AddLog(cfg, NEW_MINER, first, t).0;
    var p, q := Prefix(cfg, first), Prefix(cfg, second);
    assert m.root.children == map[LengthKey(first) := Inserted(EMPTY_NODE, p, cfg.maxChildren, 1)];
    if |first| == |second| {
      SearchOnlyPath(p, q, cfg.maxChildren, 1);
      assert |p| == Steering(cfg, |first|);
      assert forall i :: 0 <= i < |p| ==> p[i] == first[i] && q[i] == second[i];
    } else if LengthKey(first) == LengthKey(second) {
      DecimalInjective(|first|, |second|);
    }
  }

  lemma PositiveShare(n: nat, d: nat)
    requires d > 0
    ensures n as real / d as real > 0.0 <==> n > 0
  {
  }

  lemma ClashIsConflict(cfg: DrainConfig, first: Tokens, second: Tokens)
    ensures AnchorsClash(first, second, cfg.anchors) <==> AnchorsConflict(cfg, first, second)
  {
    forall i | 0 <= i < |first| && i < |second|
      ensures Conflict(first[i], second[i], cfg.anchors)
         <==> (Upper(first[i]) in cfg.anchors || Upper(second[i]) in cfg.anchors) && Upper(first[i]) != Upper(second[i])
    {
    }
  }

  lemma SimilarityIsShare(cfg: DrainConfig, first: Tokens, second: Tokens)
    requires first != [] && |first| == |second|
    ensures var sim := Similarity(first, second, cfg.anchors);
      (sim > 0.0 && sim >= cfg.similarityThreshold)
      <==> !AnchorsConflict(cfg, first, second) && SimilarEnough(cfg, first, second)
  {
    FittingCounts(first, second);
    PositiveShare(MatchCount(first, second), |first|);
    ClashIsConflict(cfg, first, second);
  }

  /**
   The first two logs of a miner, for any configuration: the second one joins the first one's cluster exactly when
   they have one length, the tree leads it there, no anchor stands against something else, and the share of fitting
   positions is positive and reaches the threshold. Otherwise it starts the second cluster.
   */
  lemma {:induction false} SecondLogExact(cfg: DrainConfig, first: Tokens, second: Tokens, t0: int, t1: int)
    requires first != [] && second != []
    ensures var (m, one) := AddLog(cfg, NEW_MINER, first, t0);
      var two := AddLog(cfg, m, second, t1).1;
      && one.isNew && one.clusterId == 1
      && (if Joins(cfg, first, second) then !two.isNew && two.clusterId == 1 else two.isNew && two.clusterId == 2)
  {
    var m := AddLog(cfg, NEW_MINER, first, t0).0;
    OnlyCandidate(cfg, first, second, t0);
    FindIsBestCandidate(cfg, m, second);
    assert [1][..0] == [];
    if |first| == |second| { SimilarityIsShare(cfg, first, second); }
    assert BestOf(cfg, m.clusters, [], second) == NO_MATCH;
  }
}
