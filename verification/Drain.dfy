/** The Drain template miner: similarity, the prefix tree, and what one log does to the miner. */
module Drain {
  import opened Decimal
  import opened Options

  type Tokens = seq<string>

  const WILDCARD := "<*>"
  const STAR := "*"

  datatype DrainSettings = DrainSettings(depth: nat, similarityThreshold: real, maxChildren: nat, anchors: seq<string>)

  /** The source subtracts 2 from the depth. */
  type DrainConfig = c: DrainSettings | c.depth >= 2 witness DrainSettings(4, 0.5, 100, [])

  datatype LogCluster = LogCluster(
    clusterId: nat, templateTokens: Tokens, template: string, count: nat, size: nat, createdAt: int, lastSeen: int)

  function Joined(tokens: Tokens): string {
    if tokens == [] then ""
    else if |tokens| == 1 then tokens[0]
    else Joined(tokens[..|tokens| - 1]) + " " + tokens[|tokens| - 1]
  }

  // ----- Similarity -----

  function UpperChar(c: char): char {
    if 'a' <= c <= 'z' then (c as int - 32) as char else c
  }

  /** `to_ascii_uppercase`. */
  function Upper(s: string): (u: string)
    ensures |u| == |s|
  {
    seq(|s|, i requires 0 <= i < |s| => UpperChar(s[i]))
  }

  /** At one position an anchor stands against something else. */
  predicate Conflict(t: string, u: string, anchors: seq<string>) {
    (Upper(t) in anchors || Upper(u) in anchors) && Upper(t) != Upper(u)
  }

  predicate AnchorsClash(tmpl: Tokens, tokens: Tokens, anchors: seq<string>) {
    exists i :: 0 <= i < |tmpl| && i < |tokens| && Conflict(tmpl[i], tokens[i], anchors)
  }

  predicate Fits(t: string, u: string) {
    t == WILDCARD || t == u
  }

  function MatchCount(tmpl: Tokens, tokens: Tokens): (n: nat)
    requires |tmpl| == |tokens|
    ensures n <= |tmpl|
  {
    if tmpl == [] then 0
    else
      var k := |tmpl| - 1;
      MatchCount(tmpl[..k], tokens[..k]) + if Fits(tmpl[k], tokens[k]) then 1 else 0
  }

  /** The match count is the number of positions that fit. */
  lemma {:induction false} MatchCountCounts(tmpl: Tokens, tokens: Tokens)
    requires |tmpl| == |tokens|
    ensures MatchCount(tmpl, tokens) == |set i | 0 <= i < |tmpl| && (tmpl[i] == WILDCARD || tmpl[i] == tokens[i])|
  {
    if tmpl == [] {
    } else {
      var k := |tmpl| - 1;
      MatchCountCounts(tmpl[..k], tokens[..k]);
      var below := set i | 0 <= i < k && (tmpl[i] == WILDCARD || tmpl[i] == tokens[i]);
      var all := set i | 0 <= i < |tmpl| && (tmpl[i] == WILDCARD || tmpl[i] == tokens[i]);
      assert below == set i | 0 <= i < |tmpl[..k]| && (tmpl[..k][i] == WILDCARD || tmpl[..k][i] == tokens[..k][i]);
      assert all == if Fits(tmpl[k], tokens[k]) then below + {k} else below;
    }
  }

  lemma RatioBounds(m: nat, n: nat)
    requires m <= n && n > 0
    ensures 0.0 <= m as real / n as real <= 1.0
    ensures m == n ==> m as real / n as real == 1.0
  {
  }

  function Similarity(tmpl: Tokens, tokens: Tokens, anchors: seq<string>): (sim: real)
    ensures 0.0 <= sim <= 1.0
  {
    if |tmpl| != |tokens| || tmpl == [] then 0.0
    else if AnchorsClash(tmpl, tokens, anchors) then 0.0
    else
      RatioBounds(MatchCount(tmpl, tokens), |tmpl|);
      MatchCount(tmpl, tokens) as real / |tmpl| as real
  }

  method ComputeSimilarity(tmpl: Tokens, tokens: Tokens, anchors: seq<string>) returns (sim: real)
    ensures sim == Similarity(tmpl, tokens, anchors)
  {
    if |tmpl| != |tokens| || tmpl == [] {
      return 0.0;
    }
    if anchors != [] {
      for i := 0 to |tmpl|
        invariant forall j :: 0 <= j < i ==> !Conflict(tmpl[j], tokens[j], anchors)
      {
        var upper, upper' := Upper(tmpl[i]), Upper(tokens[i]);
        var isAnchor := upper in anchors || upper' in anchors;
        if isAnchor && upper != upper' {
          assert Conflict(tmpl[i], tokens[i], anchors);
          return 0.0;
        }
      }
    }
    assert !AnchorsClash(tmpl, tokens, anchors);
    var matches := 0;
    for i := 0 to |tmpl|
      invariant matches == MatchCount(tmpl[..i], tokens[..i])
    {
      assert tmpl[..i + 1][..i] == tmpl[..i] && tokens[..i + 1][..i] == tokens[..i];
      if tmpl[i] == WILDCARD || tmpl[i] == tokens[i] {
        matches := matches + 1;
      }
    }
    assert tmpl[..|tmpl|] == tmpl && tokens[..|tmpl|] == tokens;
    return matches as real / |tmpl| as real;
  }

  // ----- The prefix tree -----

  datatype Node = Node(children: map<string, Node>, clusterIds: seq<nat>)

  const EMPTY_NODE := Node(map[], [])

  predicate HasDigitOrParam(token: string) {
    token == WILDCARD || exists i :: 0 <= i < |token| && '0' <= token[i] <= '9'
  }

  function ChildOr(node: Node, key: string): Node {
    if key in node.children then node.children[key] else EMPTY_NODE
  }

  /** The ids stored at the end of a path of keys. */
  function IdsAt(node: Node, path: seq<string>): seq<nat>
    decreases path
  {
    if path == [] then node.clusterIds else IdsAt(ChildOr(node, path[0]), path[1..])
  }

  /** The tokens that steer through the tree below the length key. */
  function Prefix(cfg: DrainConfig, tokens: Tokens): Tokens {
    tokens[..if cfg.depth - 2 < |tokens| then cfg.depth - 2 else |tokens|]
  }

  function SearchKey(node: Node, token: string): (r: Option<string>)
    ensures r.Some? ==> r.value in node.children
  {
    var key := if HasDigitOrParam(token) then STAR else token;
    if key in node.children then Some(key)
    else if STAR in node.children then Some(STAR)
    else None
  }

  /** The node a search ends in; `None` where it gives up. */
  function SearchNode(node: Node, prefix: Tokens): Option<Node>
    decreases prefix
  {
    if prefix == [] then Some(node)
    else
      match SearchKey(node, prefix[0])
      case None => None
      case Some(key) => SearchNode(node.children[key], prefix[1..])
  }

  function InsertKey(node: Node, token: string, maxChildren: nat): string {
    if HasDigitOrParam(token) || |node.children| >= maxChildren then STAR else token
  }

  /** The keys an insertion follows, making the nodes that are missing. */
  function InsertPath(node: Node, prefix: Tokens, maxChildren: nat): seq<string>
    decreases prefix
  {
    if prefix == [] then []
    else
      var key := InsertKey(node, prefix[0], maxChildren);
      [key] + InsertPath(ChildOr(node, key), prefix[1..], maxChildren)
  }

  function Inserted(node: Node, prefix: Tokens, maxChildren: nat, id: nat): Node
    decreases prefix
  {
    if prefix == [] then Node(node.children, node.clusterIds + [id])
    else
      var key := InsertKey(node, prefix[0], maxChildren);
      Node(node.children[key := Inserted(ChildOr(node, key), prefix[1..], maxChildren, id)], node.clusterIds)
  }

  function LengthKey(tokens: Tokens): string {
    ToDecimal(|tokens|)
  }

  function InsertToTree(cfg: DrainConfig, root: Node, tokens: Tokens, id: nat): Node {
    var key := LengthKey(tokens);
    Node(root.children[key := Inserted(ChildOr(root, key), Prefix(cfg, tokens), cfg.maxChildren, id)], root.clusterIds)
  }

  /** The whole path of a new cluster, from the root. */
  function HomePath(cfg: DrainConfig, root: Node, tokens: Tokens): seq<string> {
    [LengthKey(tokens)] + InsertPath(ChildOr(root, LengthKey(tokens)), Prefix(cfg, tokens), cfg.maxChildren)
  }

  // ----- The miner -----

  datatype Miner = Miner(root: Node, clusters: map<nat, LogCluster>, nextClusterId: nat, totalLogs: nat)

  const NEW_MINER := Miner(EMPTY_NODE, map[], 1, 0)

  /** The similarity of one candidate; a candidate that is missing or of another size is skipped. */
  function SimOf(cfg: DrainConfig, clusters: map<nat, LogCluster>, id: nat, tokens: Tokens): (sim: real)
    ensures 0.0 <= sim <= 1.0
  {
    if id in clusters && clusters[id].size == |tokens|
    then Similarity(clusters[id].templateTokens, tokens, cfg.anchors) else 0.0
  }

  datatype Match = Match(clusterId: Option<nat>, similarity: real)

  const NO_MATCH := Match(None, 0.0)

  function BestOf(cfg: DrainConfig, clusters: map<nat, LogCluster>, ids: seq<nat>, tokens: Tokens): (best: Match)
    ensures best.similarity >= 0.0
    ensures best.clusterId.Some? ==> best.clusterId.value in clusters
  {
    if ids == [] then NO_MATCH
    else
      var id := ids[|ids| - 1];
      var best := BestOf(cfg, clusters, ids[..|ids| - 1], tokens);
      var sim := SimOf(cfg, clusters, id, tokens);
      if sim > best.similarity then
        Match(if sim >= cfg.similarityThreshold then Some(id) else best.clusterId, sim)
      else best
  }

  function FindBestMatch(cfg: DrainConfig, m: Miner, tokens: Tokens): (best: Match)
    ensures best.clusterId.Some? ==> best.clusterId.value in m.clusters
  {
    if LengthKey(tokens) !in m.root.children then NO_MATCH
    else
      match SearchNode(m.root.children[LengthKey(tokens)], Prefix(cfg, tokens))
      case None => NO_MATCH
      case Some(node) => BestOf(cfg, m.clusters, node.clusterIds, tokens)
  }

  /** The template against one more log: what differs becomes the wildcard. */
  function Merged(tmpl: Tokens, incoming: Tokens): (merged: Tokens)
    ensures |merged| == |tmpl|
  {
    seq(|tmpl|, i requires 0 <= i < |tmpl| =>
      if i < |incoming| && tmpl[i] != incoming[i] && tmpl[i] != WILDCARD then WILDCARD else tmpl[i])
  }

  function NewCluster(id: nat, tokens: Tokens, nowMs: int): LogCluster {
    LogCluster(id, tokens, Joined(tokens), 1, |tokens|, nowMs, nowMs)
  }

  function Updated(c: LogCluster, incoming: Tokens, nowMs: int): LogCluster {
    var merged := Merged(c.templateTokens, incoming);
    c.(count := c.count + 1, lastSeen := nowMs, templateTokens := merged,
       template := if merged != c.templateTokens then Joined(merged) else c.template)
  }

  datatype ClusterResult = ClusterResult(clusterId: nat, template: string, isNew: bool, similarity: real)

  /** One log: counted only, merged into the best match, or the start of a new cluster. */
  function AddLog(cfg: DrainConfig, m: Miner, tokens: Tokens, nowMs: int): (Miner, ClusterResult) {
    var counted := m.(totalLogs := m.totalLogs + 1);
    if tokens == [] then (counted, ClusterResult(0, "", false, 1.0))
    else
      var best := FindBestMatch(cfg, m, tokens);
      if best.clusterId.Some? then
        var c := Updated(m.clusters[best.clusterId.value], tokens, nowMs);
        (counted.(clusters := m.clusters[best.clusterId.value := c]),
         ClusterResult(best.clusterId.value, c.template, false, best.similarity))
      else
        var id := m.nextClusterId;
        (counted.(root := InsertToTree(cfg, m.root, tokens, id),
                  clusters := m.clusters[id := NewCluster(id, tokens, nowMs)],
                  nextClusterId := id + 1),
         ClusterResult(id, Joined(tokens), true, best.similarity))
  }

  /** What a match says about the cluster it names: it is a candidate of the right size, above the threshold. */
  lemma {:induction false} BestIsCandidate(cfg: DrainConfig, clusters: map<nat, LogCluster>, ids: seq<nat>,
                                           tokens: Tokens)
    ensures var best := BestOf(cfg, clusters, ids, tokens);
      best.clusterId.Some? ==>
        var id := best.clusterId.value;
        && id in ids && id in clusters && clusters[id].size == |tokens|
        && Similarity(clusters[id].templateTokens, tokens, cfg.anchors) == best.similarity > 0.0
        && best.similarity >= cfg.similarityThreshold
  {
    if ids == [] {
    } else {
      var first, id := ids[..|ids| - 1], ids[|ids| - 1];
      BestIsCandidate(cfg, clusters, first, tokens);
      var before, sim := BestOf(cfg, clusters, first, tokens), SimOf(cfg, clusters, id, tokens);
      assert forall x :: x in first ==> x in ids;
      if sim > before.similarity && sim < cfg.similarityThreshold {
        assert before.clusterId.None?;
      }
    }
  }

  method UpdateCluster(c: LogCluster, incoming: Tokens, nowMs: int) returns (updated: LogCluster)
    ensures updated == Updated(c, incoming, nowMs)
  {
    var tokens, changed := c.templateTokens, false;
    for i := 0 to |c.templateTokens|
      invariant |tokens| == |c.templateTokens|
      invariant forall j :: 0 <= j < i ==> tokens[j] == Merged(c.templateTokens, incoming)[j]
      invariant forall j :: i <= j < |tokens| ==> tokens[j] == c.templateTokens[j]
      invariant changed <==> tokens != c.templateTokens
    {
      if i >= |incoming| {
        break;
      }
      if tokens[i] != incoming[i] && tokens[i] != WILDCARD {
        tokens := tokens[i := WILDCARD];
        changed := true;
        assert tokens[i] != c.templateTokens[i];
      }
    }
    assert tokens == Merged(c.templateTokens, incoming);
    updated := c.(count := c.count + 1, lastSeen := nowMs, templateTokens := tokens,
                  template := if changed then Joined(tokens) else c.template);
  }

  class DrainMiner {
    const config: DrainConfig
    var root: Node
    var clusters: map<nat, LogCluster>
    var nextClusterId: nat
    var totalLogsProcessed: nat

    function State(): Miner
      reads this
    {
      Miner(root, clusters, nextClusterId, totalLogsProcessed)
    }

    constructor (config: DrainConfig)
      ensures this.config == config && State() == NEW_MINER
    {
      this.config := config;
      root, clusters, nextClusterId, totalLogsProcessed := EMPTY_NODE, map[], 1, 0;
    }

    method Search(tokens: Tokens) returns (r: Match)
      ensures r == FindBestMatch(config, State(), tokens)
    {
      var lenKey := LengthKey(tokens);
      if lenKey !in root.children {
        return NO_MATCH;
      }
      var current := root.children[lenKey];
      ghost var prefix := Prefix(config, tokens);
      for i := 0 to config.depth - 2
        invariant i <= |prefix|
        invariant SearchNode(root.children[lenKey], prefix) == SearchNode(current, prefix[i..])
      {
        if i >= |tokens| {
          break;
        }
        var token := tokens[i];
        assert prefix[i..][0] == token && prefix[i..][1..] == prefix[i + 1..];
        var key := if HasDigitOrParam(token) then STAR else token;
        if key in current.children {
          current := current.children[key];
        } else if STAR in current.children {
          current := current.children[STAR];
        } else {
          return NO_MATCH;
        }
      }
      r := BestCandidate(current.clusterIds, tokens);
    }

    method BestCandidate(ids: seq<nat>, tokens: Tokens) returns (best: Match)
      ensures best == BestOf(config, clusters, ids, tokens)
    {
      var bestClusterId, maxSim := None, 0.0;
      for k := 0 to |ids|
        invariant Match(bestClusterId, maxSim) == BestOf(config, clusters, ids[..k], tokens)
        invariant maxSim >= 0.0
      {
        assert ids[..k + 1][..k] == ids[..k];
        var id := ids[k];
        if id in clusters && clusters[id].size == |tokens| {
          var sim := ComputeSimilarity(clusters[id].templateTokens, tokens, config.anchors);
          if sim > maxSim {
            maxSim := sim;
            if sim >= config.similarityThreshold {
              bestClusterId := Some(id);
            }
          }
        }
      }
      assert ids[..|ids|] == ids;
      best := Match(bestClusterId, maxSim);
    }

    method Add(tokens: Tokens, nowMs: int) returns (r: ClusterResult)
      modifies this
      ensures (State(), r) == AddLog(config, old(State()), tokens, nowMs)
    {
      totalLogsProcessed := totalLogsProcessed + 1;
      if tokens == [] {
        return ClusterResult(0, "", false, 1.0);
      }
      var found := Search(tokens);
      if found.clusterId.Some? {
        var id := found.clusterId.value;
        var cluster := UpdateCluster(clusters[id], tokens, nowMs);
        clusters := clusters[id := cluster];
        return ClusterResult(id, cluster.template, false, found.similarity);
      }
      var id := nextClusterId;
      nextClusterId := nextClusterId + 1;
      var cluster := NewCluster(id, tokens, nowMs);
      root := InsertToTree(config, root, tokens, id);
      clusters := clusters[id := cluster];
      return ClusterResult(id, cluster.template, true, found.similarity);
    }
  }
}
