/** The prefix tree as an index over clusters, and the search as an argmax over its candidates. */
module DrainIndex {
  import opened Decimal
  import opened Drain
  import opened Options

  // ----- Where ids are stored -----

  lemma {:induction false} NothingInEmptyNode(path: seq<string>)
    ensures IdsAt(EMPTY_NODE, path) == []
    decreases path
  {
    if path == [] {
    } else {
      NothingInEmptyNode(path[1..]);
    }
  }

  /** Inserting adds the id at the end of one path and changes no other. */
  lemma {:induction false} InsertedIds(node: Node, prefix: Tokens, maxChildren: nat, id: nat, path: seq<string>)
    ensures IdsAt(Inserted(node, prefix, maxChildren, id), path) ==
      IdsAt(node, path) + if path == InsertPath(node, prefix, maxChildren) then [id] else []
    decreases prefix
  {
    if prefix != [] && path != [] {
      var key := InsertKey(node, prefix[0], maxChildren);
      var after := Inserted(node, prefix, maxChildren, id);
      assert path == [path[0]] + path[1..];
      if path[0] == key {
        InsertedIds(ChildOr(node, key), prefix[1..], maxChildren, id, path[1..]);
      } else {
        assert ChildOr(after, path[0]) == ChildOr(node, path[0]);
      }
    }
  }

  lemma TreeIds(cfg: DrainConfig, root: Node, tokens: Tokens, id: nat, path: seq<string>)
    ensures IdsAt(InsertToTree(cfg, root, tokens, id), path) ==
      IdsAt(root, path) + if path == HomePath(cfg, root, tokens) then [id] else []
  {
    var key := LengthKey(tokens);
    if path != [] {
      assert path == [path[0]] + path[1..];
      if path[0] == key {
        InsertedIds(ChildOr(root, key), Prefix(cfg, tokens), cfg.maxChildren, id, path[1..]);
      }
    }
  }

  predicate Stored(root: Node, path: seq<string>, j: nat, id: nat) {
    j < |IdsAt(root, path)| && IdsAt(root, path)[j] == id
  }

  lemma StoredAfterInsert(cfg: DrainConfig, root: Node, tokens: Tokens, id: nat, path: seq<string>, j: nat, x: nat)
    ensures Stored(InsertToTree(cfg, root, tokens, id), path, j, x) <==>
      || Stored(root, path, j, x)
      || (path == HomePath(cfg, root, tokens) && j == |IdsAt(root, path)| && x == id)
  {
    TreeIds(cfg, root, tokens, id, path);
  }

  /** Every stored id is a cluster, under the length key of its size. */
  ghost predicate UnderOwnLength(m: Miner) {
    forall path, j, id :: Stored(m.root, path, j, id) ==>
      id in m.clusters && path != [] && path[0] == ToDecimal(m.clusters[id].size)
  }

  ghost predicate StoredOnce(m: Miner) {
    forall p, q, i, j, id :: Stored(m.root, p, i, id) && Stored(m.root, q, j, id) ==> p == q && i == j
  }

  ghost predicate StoredSomewhere(m: Miner) {
    forall id :: id in m.clusters ==> exists path, j :: Stored(m.root, path, j, id)
  }

  /** Each cluster's id occurs in exactly one node, at one place, under the key of the cluster's length. */
  ghost predicate Indexed(m: Miner) {
    UnderOwnLength(m) && StoredOnce(m) && StoredSomewhere(m)
  }

  /** The ids stored are those of before and one new id at a place of its own. */
  ghost predicate OneMoreStored(before: Node, after: Node, home: seq<string>, id: nat) {
    forall path, j, x :: Stored(after, path, j, x) <==>
      Stored(before, path, j, x) || (path == home && j == |IdsAt(before, path)| && x == id)
  }

  lemma InsertStoresOneMore(cfg: DrainConfig, root: Node, tokens: Tokens, id: nat)
    ensures OneMoreStored(root, InsertToTree(cfg, root, tokens, id), HomePath(cfg, root, tokens), id)
  {
    forall path, j, x ensures Stored(InsertToTree(cfg, root, tokens, id), path, j, x) <==>
      || Stored(root, path, j, x)
      || (path == HomePath(cfg, root, tokens) && j == |IdsAt(root, path)| && x == id)
    {
      StoredAfterInsert(cfg, root, tokens, id, path, j, x);
    }
  }

  lemma StoredSomewhereGrows(m: Miner, m': Miner, home: seq<string>, c: LogCluster)
    requires StoredSomewhere(m) && OneMoreStored(m.root, m'.root, home, m.nextClusterId)
    requires m'.clusters == m.clusters[m.nextClusterId := c]
    ensures StoredSomewhere(m')
  {
    forall x | x in m'.clusters ensures exists path, j :: Stored(m'.root, path, j, x) {
      if x == m.nextClusterId {
        assert Stored(m'.root, home, |IdsAt(m.root, home)|, x);
      } else {
        var path, j :| Stored(m.root, path, j, x);
        assert Stored(m'.root, path, j, x);
      }
    }
  }

  lemma StoredOnceGrows(m: Miner, m': Miner, home: seq<string>)
    requires StoredOnce(m) && UnderOwnLength(m) && m.nextClusterId !in m.clusters
    requires OneMoreStored(m.root, m'.root, home, m.nextClusterId)
    ensures StoredOnce(m')
  {
  }

  lemma InsertKeepsIndexed(cfg: DrainConfig, m: Miner, tokens: Tokens, c: LogCluster, m': Miner)
    requires Indexed(m) && m.nextClusterId !in m.clusters && c.size == |tokens|
    requires m'.root == InsertToTree(cfg, m.root, tokens, m.nextClusterId)
    requires m'.clusters == m.clusters[m.nextClusterId := c]
    ensures Indexed(m')
  {
    var home := HomePath(cfg, m.root, tokens);
    InsertStoresOneMore(cfg, m.root, tokens, m.nextClusterId);
    StoredSomewhereGrows(m, m', home, c);
    StoredOnceGrows(m, m', home);
  }

  lemma UpdateKeepsIndexed(m: Miner, id: nat, c: LogCluster, m': Miner)
    requires Indexed(m) && id in m.clusters && c.size == m.clusters[id].size
    requires m'.root == m.root && m'.clusters == m.clusters[id := c]
    ensures Indexed(m')
  {
  }

  // ----- The search -----

  /** The keys a search follows, as far as it gets. */
  function SearchPath(node: Node, prefix: Tokens): seq<string>
    decreases prefix
  {
    if prefix == [] then []
    else
      match SearchKey(node, prefix[0])
      case None => []
      case Some(key) => [key] + SearchPath(node.children[key], prefix[1..])
  }

  lemma {:induction false} SearchNodeIds(node: Node, prefix: Tokens)
    requires SearchNode(node, prefix).Some?
    ensures SearchNode(node, prefix).value.clusterIds == IdsAt(node, SearchPath(node, prefix))
    ensures |SearchPath(node, prefix)| == |prefix|
    decreases prefix
  {
    if prefix == [] {
    } else {
      var key := SearchKey(node, prefix[0]).value;
      SearchNodeIds(node.children[key], prefix[1..]);
      assert ([key] + SearchPath(node.children[key], prefix[1..]))[1..] == SearchPath(node.children[key], prefix[1..]);
    }
  }

  /** The ids a search compares the tokens against. */
  function Candidates(cfg: DrainConfig, root: Node, tokens: Tokens): seq<nat> {
    if LengthKey(tokens) !in root.children then []
    else
      match SearchNode(root.children[LengthKey(tokens)], Prefix(cfg, tokens))
      case None => []
      case Some(node) => node.clusterIds
  }

  lemma FindIsBestCandidate(cfg: DrainConfig, m: Miner, tokens: Tokens)
    ensures FindBestMatch(cfg, m, tokens) == BestOf(cfg, m.clusters, Candidates(cfg, m.root, tokens), tokens)
  {
  }

  /** Candidates come from one path, which starts with the length key of the tokens. */
  lemma CandidatesStored(cfg: DrainConfig, root: Node, tokens: Tokens)
    requires Candidates(cfg, root, tokens) != []
    ensures var child := ChildOr(root, LengthKey(tokens));
      && LengthKey(tokens) in root.children
      && SearchNode(child, Prefix(cfg, tokens)).Some?
      && Candidates(cfg, root, tokens) == IdsAt(root, [LengthKey(tokens)] + SearchPath(child, Prefix(cfg, tokens)))
  {
    var child := ChildOr(root, LengthKey(tokens));
    SearchNodeIds(child, Prefix(cfg, tokens));
    var path := [LengthKey(tokens)] + SearchPath(child, Prefix(cfg, tokens));
    assert path[1..] == SearchPath(child, Prefix(cfg, tokens));
  }

  /** The size filter of the search never fires: all candidates are clusters of the tokens' length. */
  lemma CandidatesHaveSize(cfg: DrainConfig, m: Miner, tokens: Tokens, j: nat)
    requires UnderOwnLength(m) && j < |Candidates(cfg, m.root, tokens)|
    ensures var id := Candidates(cfg, m.root, tokens)[j];
      id in m.clusters && m.clusters[id].size == |tokens|
  {
    CandidatesStored(cfg, m.root, tokens);
    var path := [LengthKey(tokens)] + SearchPath(ChildOr(m.root, LengthKey(tokens)), Prefix(cfg, tokens));
    var id := Candidates(cfg, m.root, tokens)[j];
    assert Stored(m.root, path, j, id);
    DecimalInjective(m.clusters[id].size, |tokens|);
  }

  /** `j` is the first candidate whose similarity is `max`, and `max` bounds them all. */
  predicate FirstMaximum(cfg: DrainConfig, clusters: map<nat, LogCluster>, ids: seq<nat>, tokens: Tokens,
                         j: nat, max: real) {
    && j < |ids|
    && SimOf(cfg, clusters, ids[j], tokens) == max
    && (forall k :: 0 <= k < |ids| ==> SimOf(cfg, clusters, ids[k], tokens) <= max)
    && (forall k :: 0 <= k < j ==> SimOf(cfg, clusters, ids[k], tokens) < max)
  }

  /** What `BestOf` reports is the first maximum when that is positive and reaches the threshold. */
  lemma {:induction false} BestIsFirstMaximum(cfg: DrainConfig, clusters: map<nat, LogCluster>, ids: seq<nat>,
                                              tokens: Tokens)
    returns (j: nat)
    ensures var best := BestOf(cfg, clusters, ids, tokens);
      && (forall k :: 0 <= k < |ids| ==> SimOf(cfg, clusters, ids[k], tokens) <= best.similarity)
      && (best.similarity > 0.0 ==> FirstMaximum(cfg, clusters, ids, tokens, j, best.similarity))
      && best.clusterId == if best.similarity > 0.0 && best.similarity >= cfg.similarityThreshold
                           then Some(ids[j]) else None
  {
    j := 0;
    if ids == [] {
    } else {
      var n := |ids| - 1;
      var first := ids[..n];
      var i := BestIsFirstMaximum(cfg, clusters, first, tokens);
      var before := BestOf(cfg, clusters, first, tokens);
      assert forall k :: 0 <= k < n ==> first[k] == ids[k];
      j := if SimOf(cfg, clusters, ids[n], tokens) > before.similarity then n else i;
    }
  }

  // ----- Searching for what was just inserted -----

  /** A full node on the way has a child for its token, which the insertion passes by for `*`. */
  predicate Shadowed(node: Node, prefix: Tokens, maxChildren: nat)
    decreases prefix
  {
    && prefix != []
    && (var key := InsertKey(node, prefix[0], maxChildren);
        || (key != prefix[0] && !HasDigitOrParam(prefix[0]) && prefix[0] in node.children)
        || Shadowed(ChildOr(node, key), prefix[1..], maxChildren))
  }

  lemma InsertedChildren(node: Node, prefix: Tokens, maxChildren: nat, id: nat)
    requires prefix != []
    ensures var key := InsertKey(node, prefix[0], maxChildren);
      var after := Inserted(node, prefix, maxChildren, id);
      && after.children.Keys == node.children.Keys + {key}
      && after.children[key] == Inserted(ChildOr(node, key), prefix[1..], maxChildren, id)
  {
  }

  /** Unless shadowed, a search after the insertion follows it to its end. */
  lemma {:induction false} SearchFollowsInsert(node: Node, prefix: Tokens, maxChildren: nat, id: nat)
    requires !Shadowed(node, prefix, maxChildren)
    ensures var after := Inserted(node, prefix, maxChildren, id);
      && SearchNode(after, prefix).Some?
      && SearchPath(after, prefix) == InsertPath(node, prefix, maxChildren)
    decreases prefix
  {
    if prefix == [] {
    } else {
      var key := InsertKey(node, prefix[0], maxChildren);
      InsertedChildren(node, prefix, maxChildren, id);
      SearchFollowsInsert(ChildOr(node, key), prefix[1..], maxChildren, id);
      assert SearchKey(Inserted(node, prefix, maxChildren, id), prefix[0]) == Some(key);
    }
  }

  /** When shadowed, the search turns off the insertion's path. */
  lemma {:induction false} ShadowMisleadsSearch(node: Node, prefix: Tokens, maxChildren: nat, id: nat)
    requires Shadowed(node, prefix, maxChildren)
    ensures SearchPath(Inserted(node, prefix, maxChildren, id), prefix) != InsertPath(node, prefix, maxChildren)
    decreases prefix
  {
    var key := InsertKey(node, prefix[0], maxChildren);
    var after := Inserted(node, prefix, maxChildren, id);
    InsertedChildren(node, prefix, maxChildren, id);
    var below := InsertPath(ChildOr(node, key), prefix[1..], maxChildren);
    assert InsertPath(node, prefix, maxChildren) == [key] + below;
    if key != prefix[0] && !HasDigitOrParam(prefix[0]) && prefix[0] in node.children {
      assert SearchKey(after, prefix[0]) == Some(prefix[0]);
      assert SearchPath(after, prefix)[0] != key;
    } else {
      ShadowMisleadsSearch(ChildOr(node, key), prefix[1..], maxChildren, id);
      assert SearchKey(after, prefix[0]) == Some(key);
      assert SearchPath(after, prefix)[1..] != ([key] + below)[1..];
    }
  }

  /** Before the insertion the search went the same way, wherever the way existed. */
  lemma {:induction false} SearchWentTheSameWay(node: Node, prefix: Tokens, maxChildren: nat)
    requires !Shadowed(node, prefix, maxChildren)
    requires IdsAt(node, InsertPath(node, prefix, maxChildren)) != []
    ensures SearchNode(node, prefix).Some? && SearchPath(node, prefix) == InsertPath(node, prefix, maxChildren)
    decreases prefix
  {
    if prefix == [] {
    } else {
      var key := InsertKey(node, prefix[0], maxChildren);
      var below := InsertPath(ChildOr(node, key), prefix[1..], maxChildren);
      assert ([key] + below)[1..] == below;
      if key !in node.children {
        NothingInEmptyNode(below);
      }
      SearchWentTheSameWay(ChildOr(node, key), prefix[1..], maxChildren);
      assert SearchKey(node, prefix[0]) == Some(key);
    }
  }

  /** Nothing shadows a path that does not exist yet. */
  lemma {:induction false} EmptyNotShadowed(prefix: Tokens, maxChildren: nat)
    ensures !Shadowed(EMPTY_NODE, prefix, maxChildren)
    decreases prefix
  {
    if prefix == [] {
    } else {
      EmptyNotShadowed(prefix[1..], maxChildren);
    }
  }

  /** The same outcome of a search: both give up, or both end at the same ids. */
  predicate SameIds(a: Option<Node>, b: Option<Node>) {
    if a.Some? then b.Some? && a.value.clusterIds == b.value.clusterIds else b.None?
  }

  /** When shadowed, the search goes where it went before the insertion. */
  lemma {:induction false} ShadowedSearchUnchanged(node: Node, prefix: Tokens, maxChildren: nat, id: nat)
    requires Shadowed(node, prefix, maxChildren)
    ensures SameIds(SearchNode(node, prefix), SearchNode(Inserted(node, prefix, maxChildren, id), prefix))
    decreases prefix
  {
    var key := InsertKey(node, prefix[0], maxChildren);
    var after := Inserted(node, prefix, maxChildren, id);
    InsertedChildren(node, prefix, maxChildren, id);
    if key != prefix[0] && !HasDigitOrParam(prefix[0]) && prefix[0] in node.children {
      assert SearchKey(after, prefix[0]) == SearchKey(node, prefix[0]) == Some(prefix[0]);
    } else {
      EmptyNotShadowed(prefix[1..], maxChildren);
      assert SearchKey(after, prefix[0]) == SearchKey(node, prefix[0]) == Some(key);
      ShadowedSearchUnchanged(node.children[key], prefix[1..], maxChildren, id);
    }
  }

  lemma {:induction false} SubsetSize<T>(a: set<T>, b: set<T>)
    requires a <= b
    ensures |a| <= |b|
  {
    assert b == a + (b - a);
  }

  /** And it stays shadowed: nodes only get fuller. */
  lemma {:induction false} ShadowPersists(node: Node, prefix: Tokens, maxChildren: nat, id: nat)
    requires Shadowed(node, prefix, maxChildren)
    ensures Shadowed(Inserted(node, prefix, maxChildren, id), prefix, maxChildren)
    decreases prefix
  {
    var key := InsertKey(node, prefix[0], maxChildren);
    var after := Inserted(node, prefix, maxChildren, id);
    InsertedChildren(node, prefix, maxChildren, id);
    assert |after.children| == |after.children.Keys| >= |node.children.Keys| == |node.children| by {
      SubsetSize(node.children.Keys, after.children.Keys);
    }
    if key != prefix[0] && !HasDigitOrParam(prefix[0]) && prefix[0] in node.children {
    } else {
      EmptyNotShadowed(prefix[1..], maxChildren);
      ShadowPersists(node.children[key], prefix[1..], maxChildren, id);
      assert after.children.Keys == node.children.Keys;
    }
  }
}
