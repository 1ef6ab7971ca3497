/** Whole runs of the miner: every state reached by adding any sequence of tokenised logs. */
module DrainRuns {
  import opened Drain
  import opened DrainIndex
  import opened Options

  datatype Input = Input(tokens: Tokens, nowMs: int)

  /** The miner and, for each cluster, the logs assigned to it in order. */
  datatype Mined = Mined(miner: Miner, history: map<nat, seq<Tokens>>)

  function LogsOf(history: map<nat, seq<Tokens>>, id: nat): seq<Tokens> {
    if id in history then history[id] else []
  }

  function Step(cfg: DrainConfig, s: Mined, input: Input): Mined {
    var (m, r) := AddLog(cfg, s.miner, input.tokens, input.nowMs);
    Mined(m, if input.tokens == [] then s.history
             else s.history[r.clusterId := LogsOf(s.history, r.clusterId) + [input.tokens]])
  }

  function Run(cfg: DrainConfig, inputs: seq<Input>): Mined {
    if inputs == [] then Mined(NEW_MINER, map[])
    else Step(cfg, Run(cfg, inputs[..|inputs| - 1]), inputs[|inputs| - 1])
  }

  // ----- Templates are exact generalisations -----

  predicate AllOfLength(logs: seq<Tokens>, n: nat) {
    forall j :: 0 <= j < |logs| ==> |logs[j]| == n
  }

  predicate AgreeAt(logs: seq<Tokens>, n: nat, i: nat)
    requires logs != [] && AllOfLength(logs, n) && i < n
  {
    forall j :: 0 <= j < |logs| ==> logs[j][i] == logs[0][i]
  }

  /** At each position the common token if all logs agree there, else the wildcard. */
  predicate Generalises(tmpl: Tokens, logs: seq<Tokens>) {
    && logs != []
    && AllOfLength(logs, |tmpl|)
    && forall i :: 0 <= i < |tmpl| ==> tmpl[i] == if AgreeAt(logs, |tmpl|, i) then logs[0][i] else WILDCARD
  }

  lemma MergedGeneralises(tmpl: Tokens, logs: seq<Tokens>, tokens: Tokens)
    requires Generalises(tmpl, logs) && |tokens| == |tmpl|
    ensures Generalises(Merged(tmpl, tokens), logs + [tokens])
  {
    var n := |tmpl|;
    var more := logs + [tokens];
    forall i | 0 <= i < n ensures AgreeAt(more, n, i) <==> AgreeAt(logs, n, i) && tokens[i] == logs[0][i] {
      if AgreeAt(more, n, i) {
        assert forall j :: 0 <= j < |logs| ==> logs[j] == more[j];
        assert more[|logs|] == tokens;
      }
    }
  }

  // ----- Anchors -----

  predicate IsAnchor(cfg: DrainConfig, token: string) {
    Upper(token) in cfg.anchors && token != WILDCARD
  }

  /** At every position, an anchor in any log of a cluster is the one its first log has there. */
  predicate AnchorsKept(cfg: DrainConfig, logs: seq<Tokens>, n: nat)
    requires logs != [] && AllOfLength(logs, n)
  {
    forall j, i :: 0 <= j < |logs| && 0 <= i < n && IsAnchor(cfg, logs[j][i]) ==>
      Upper(logs[j][i]) == Upper(logs[0][i])
  }

  predicate AgreeBefore(logs: seq<Tokens>, n: nat, i: nat, j: nat)
    requires logs != [] && AllOfLength(logs, n) && i < n && j <= |logs|
  {
    forall k :: 0 <= k < j ==> logs[k][i] == logs[0][i]
  }

  /** Where the first log has an anchor, the first log to differ only spells it in another case. */
  predicate FirstDeviationIsCase(cfg: DrainConfig, logs: seq<Tokens>, n: nat)
    requires logs != [] && AllOfLength(logs, n)
  {
    forall j, i :: 0 <= j < |logs| && 0 <= i < n && IsAnchor(cfg, logs[0][i]) && AgreeBefore(logs, n, i, j) ==>
      Upper(logs[j][i]) == Upper(logs[0][i])
  }

  lemma UpperOfWildcard(t: string)
    requires Upper(t) == Upper(WILDCARD)
    ensures t == WILDCARD
  {
    assert |t| == 3;
    assert Upper(t)[0] == Upper(WILDCARD)[0] == '<';
    assert Upper(t)[1] == Upper(WILDCARD)[1] == '*';
    assert Upper(t)[2] == Upper(WILDCARD)[2] == '>';
  }

  lemma NewAnchorIsFirst(cfg: DrainConfig, tmpl: Tokens, logs: seq<Tokens>, tokens: Tokens, i: nat)
    requires Generalises(tmpl, logs) && |tokens| == |tmpl| && !AnchorsClash(tmpl, tokens, cfg.anchors)
    requires i < |tmpl| && IsAnchor(cfg, tokens[i])
    ensures Upper(tokens[i]) == Upper(logs[0][i])
  {
    assert !Conflict(tmpl[i], tokens[i], cfg.anchors);
    if tmpl[i] == WILDCARD {
      UpperOfWildcard(tokens[i]);
      assert false;
    }
  }

  /** The anchors survive one more log: also where the template has become the wildcard. */
  lemma MergeKeepsAnchors(cfg: DrainConfig, tmpl: Tokens, logs: seq<Tokens>, tokens: Tokens)
    requires Generalises(tmpl, logs) && |tokens| == |tmpl| && !AnchorsClash(tmpl, tokens, cfg.anchors)
    requires AnchorsKept(cfg, logs, |tmpl|) && FirstDeviationIsCase(cfg, logs, |tmpl|)
    ensures var more := logs + [tokens];
      AllOfLength(more, |tmpl|) && AnchorsKept(cfg, more, |tmpl|) && FirstDeviationIsCase(cfg, more, |tmpl|)
  {
    var n := |tmpl|;
    var more := logs + [tokens];
    forall j, i | 0 <= j < |more| && 0 <= i < n && IsAnchor(cfg, more[j][i])
      ensures Upper(more[j][i]) == Upper(more[0][i])
    {
      if j == |logs| {
        NewAnchorIsFirst(cfg, tmpl, logs, tokens, i);
      }
    }
    forall j, i | 0 <= j < |more| && 0 <= i < n && IsAnchor(cfg, more[0][i]) && AgreeBefore(more, n, i, j)
      ensures Upper(more[j][i]) == Upper(more[0][i])
    {
      if j < |logs| {
        assert forall k :: 0 <= k < j ==> logs[k] == more[k];
        assert AgreeBefore(logs, n, i, j);
      } else {
        assert forall k :: 0 <= k < |logs| ==> logs[k] == more[k];
        assert AgreeAt(logs, n, i);
        assert !Conflict(tmpl[i], tokens[i], cfg.anchors);
      }
    }
  }

  // ----- The invariant of every reachable state -----

  predicate ClusterOk(cfg: DrainConfig, id: nat, c: LogCluster, logs: seq<Tokens>) {
    && c.clusterId == id
    && c.size == |c.templateTokens| > 0
    && Generalises(c.templateTokens, logs)
    && c.template == Joined(c.templateTokens)
    && c.count == |logs|
    && AnchorsKept(cfg, logs, c.size)
    && FirstDeviationIsCase(cfg, logs, c.size)
  }

  ghost predicate IdsAreConsecutive(m: Miner) {
    m.nextClusterId >= 1 && forall id :: id in m.clusters <==> 1 <= id < m.nextClusterId
  }

  predicate ClustersOk(cfg: DrainConfig, clusters: map<nat, LogCluster>, history: map<nat, seq<Tokens>>) {
    && history.Keys == clusters.Keys
    && forall id :: id in clusters ==> ClusterOk(cfg, id, clusters[id], history[id])
  }

  ghost predicate Inv(cfg: DrainConfig, s: Mined) {
    IdsAreConsecutive(s.miner) && ClustersOk(cfg, s.miner.clusters, s.history) && Indexed(s.miner)
  }

  lemma ClusterReplaced(cfg: DrainConfig, clusters: map<nat, LogCluster>, history: map<nat, seq<Tokens>>,
                        id: nat, c: LogCluster, logs: seq<Tokens>)
    requires ClustersOk(cfg, clusters, history) && ClusterOk(cfg, id, c, logs)
    ensures ClustersOk(cfg, clusters[id := c], history[id := logs])
  {
  }

  lemma {:induction false} UpdateKeepsClusterOk(cfg: DrainConfig, id: nat, c: LogCluster, logs: seq<Tokens>,
                                                tokens: Tokens, nowMs: int)
    requires ClusterOk(cfg, id, c, logs) && |tokens| == c.size
    requires Similarity(c.templateTokens, tokens, cfg.anchors) > 0.0
    ensures ClusterOk(cfg, id, Updated(c, tokens, nowMs), logs + [tokens])
  {
    MergedGeneralises(c.templateTokens, logs, tokens);
    MergeKeepsAnchors(cfg, c.templateTokens, logs, tokens);
  }

  lemma NewClusterOk(cfg: DrainConfig, id: nat, tokens: Tokens, nowMs: int)
    requires tokens != []
    ensures ClusterOk(cfg, id, NewCluster(id, tokens, nowMs), [tokens])
  {
  }

  lemma {:induction false} MergeStep(cfg: DrainConfig, s: Mined, input: Input, id: nat)
    requires s.history.Keys == s.miner.clusters.Keys && input.tokens != []
    requires FindBestMatch(cfg, s.miner, input.tokens).clusterId == Some(id)
    ensures var m, m' := s.miner, Step(cfg, s, input).miner;
      && id in m.clusters && m.clusters[id].size == |input.tokens|
      && Similarity(m.clusters[id].templateTokens, input.tokens, cfg.anchors) > 0.0
      && m'.root == m.root && m'.nextClusterId == m.nextClusterId
      && m'.clusters == m.clusters[id := Updated(m.clusters[id], input.tokens, input.nowMs)]
      && Step(cfg, s, input).history == s.history[id := s.history[id] + [input.tokens]]
  {
    FindIsBestCandidate(cfg, s.miner, input.tokens);
    BestIsCandidate(cfg, s.miner.clusters, Candidates(cfg, s.miner.root, input.tokens), input.tokens);
  }

  lemma {:induction false} MergeKeepsInv(cfg: DrainConfig, s: Mined, input: Input, id: nat)
    requires Inv(cfg, s) && input.tokens != []
    requires FindBestMatch(cfg, s.miner, input.tokens).clusterId == Some(id)
    ensures Inv(cfg, Step(cfg, s, input))
  {
    var m, tokens := s.miner, input.tokens;
    MergeStep(cfg, s, input, id);
    UpdateKeepsClusterOk(cfg, id, m.clusters[id], s.history[id], tokens, input.nowMs);
    var c := Updated(m.clusters[id], tokens, input.nowMs);
    ClusterReplaced(cfg, m.clusters, s.history, id, c, s.history[id] + [tokens]);
    UpdateKeepsIndexed(m, id, c, Step(cfg, s, input).miner);
  }

  lemma NewClusterStep(cfg: DrainConfig, s: Mined, input: Input)
    requires Inv(cfg, s) && input.tokens != []
    requires FindBestMatch(cfg, s.miner, input.tokens).clusterId == None
    ensures var m, m', id := s.miner, Step(cfg, s, input).miner, s.miner.nextClusterId;
      && id !in m.clusters && m'.nextClusterId == id + 1
      && m'.root == InsertToTree(cfg, m.root, input.tokens, id)
      && m'.clusters == m.clusters[id := NewCluster(id, input.tokens, input.nowMs)]
      && Step(cfg, s, input).history == s.history[id := [input.tokens]]
  {
    assert [] + [input.tokens] == [input.tokens];
  }

  lemma NextIdKeepsIds(m: Miner, c: LogCluster, m': Miner)
    requires IdsAreConsecutive(m)
    requires m'.clusters == m.clusters[m.nextClusterId := c] && m'.nextClusterId == m.nextClusterId + 1
    ensures IdsAreConsecutive(m')
  {
  }

  lemma NewClusterKeepsInv(cfg: DrainConfig, s: Mined, input: Input)
    requires Inv(cfg, s) && input.tokens != []
    requires FindBestMatch(cfg, s.miner, input.tokens).clusterId == None
    ensures Inv(cfg, Step(cfg, s, input))
  {
    var id := s.miner.nextClusterId;
    NewClusterStep(cfg, s, input);
    NewClusterOk(cfg, id, input.tokens, input.nowMs);
    var c, next := NewCluster(id, input.tokens, input.nowMs), Step(cfg, s, input);
    ClusterReplaced(cfg, s.miner.clusters, s.history, id, c, [input.tokens]);
    NextIdKeepsIds(s.miner, c, next.miner);
    InsertKeepsIndexed(cfg, s.miner, input.tokens, c, next.miner);
  }

  /** Adding one log keeps the invariant, whether it is merged, starts a cluster, or has no tokens. */
  lemma {:induction false} StepKeepsInv(cfg: DrainConfig, s: Mined, input: Input)
    requires Inv(cfg, s)
    ensures Inv(cfg, Step(cfg, s, input))
  {
    if input.tokens != [] {
      match FindBestMatch(cfg, s.miner, input.tokens).clusterId
      case Some(id) => MergeKeepsInv(cfg, s, input, id);
      case None => NewClusterKeepsInv(cfg, s, input);
    }
  }

  lemma NewMinerIndexed()
    ensures Indexed(NEW_MINER)
  {
    forall path, j, id ensures !Stored(NEW_MINER.root, path, j, id) {
      NothingInEmptyNode(path);
    }
  }

  lemma {:induction false} RunInv(cfg: DrainConfig, inputs: seq<Input>)
    ensures Inv(cfg, Run(cfg, inputs))
  {
    if inputs == [] {
      NewMinerIndexed();
    } else {
      RunInv(cfg, inputs[..|inputs| - 1]);
      StepKeepsInv(cfg, Run(cfg, inputs[..|inputs| - 1]), inputs[|inputs| - 1]);
    }
  }

  // ----- What the invariant gives -----

  /** Templates are exact generalisations of the logs assigned, in every reachable state. */
  lemma TemplatesExact(cfg: DrainConfig, inputs: seq<Input>, id: nat)
    requires id in Run(cfg, inputs).miner.clusters
    ensures var s := Run(cfg, inputs);
      var c := s.miner.clusters[id];
      && id in s.history
      && Generalises(c.templateTokens, s.history[id])
      && c.template == Joined(c.templateTokens)
      && c.count == |s.history[id]|
      && c.size == |c.templateTokens|
  {
    RunInv(cfg, inputs);
  }

  /** All logs of a cluster that carry an anchor at a position carry the one of the cluster's first log. */
  lemma AnchorsInviolable(cfg: DrainConfig, inputs: seq<Input>, id: nat, j: nat, i: nat)
    requires id in Run(cfg, inputs).history && j < |Run(cfg, inputs).history[id]|
    requires i < |Run(cfg, inputs).history[id][j]|
    requires IsAnchor(cfg, Run(cfg, inputs).history[id][j][i])
    ensures var logs := Run(cfg, inputs).history[id];
      i < |logs[0]| && Upper(logs[j][i]) == Upper(logs[0][i])
  {
    RunInv(cfg, inputs);
  }

  lemma FirstDeviation(logs: seq<Tokens>, n: nat, i: nat) returns (j: nat)
    requires logs != [] && AllOfLength(logs, n) && i < n && !AgreeAt(logs, n, i)
    ensures j < |logs| && logs[j][i] != logs[0][i] && AgreeBefore(logs, n, i, j)
  {
    j := 0;
    while logs[j][i] == logs[0][i]
      invariant j < |logs| && AgreeBefore(logs, n, i, j)
      decreases |logs| - j
    {
      assert !(j + 1 == |logs|) by {
        if j + 1 == |logs| { assert AgreeAt(logs, n, i); }
      }
      j := j + 1;
    }
  }

  /**
   When an anchor position ends up as the wildcard: exactly when some log of the cluster spells the
   anchor of the first log in another case.
   */
  lemma {:induction false} AnchorLostIffCaseVariant(cfg: DrainConfig, inputs: seq<Input>, id: nat, i: nat)
    requires id in Run(cfg, inputs).miner.clusters && id in Run(cfg, inputs).history
    requires Run(cfg, inputs).history[id] != [] && i < |Run(cfg, inputs).history[id][0]|
    requires IsAnchor(cfg, Run(cfg, inputs).history[id][0][i])
    ensures var s := Run(cfg, inputs);
      var logs := s.history[id];
      && i < |s.miner.clusters[id].templateTokens|
      && (s.miner.clusters[id].templateTokens[i] == WILDCARD <==>
          exists j :: 0 <= j < |logs| && i < |logs[j]|
                      && logs[j][i] != logs[0][i] && Upper(logs[j][i]) == Upper(logs[0][i]))
  {
    RunInv(cfg, inputs);
    var s := Run(cfg, inputs);
    var logs, c := s.history[id], s.miner.clusters[id];
    if c.templateTokens[i] == WILDCARD {
      var j := FirstDeviation(logs, c.size, i);
      assert logs[j][i] != logs[0][i] && Upper(logs[j][i]) == Upper(logs[0][i]);
    }
  }

  /** Ids are exactly 1..next-1, each at one place in the tree, under the key of the cluster's length. */
  lemma TreeIsIndex(cfg: DrainConfig, inputs: seq<Input>)
    ensures var m := Run(cfg, inputs).miner;
      IdsAreConsecutive(m) && Indexed(m)
  {
    RunInv(cfg, inputs);
  }

  // ----- Counting -----

  function TotalCount(clusters: map<nat, LogCluster>, next: nat): nat
    requires forall id :: 1 <= id < next ==> id in clusters
  {
    if next <= 1 then 0 else TotalCount(clusters, next - 1) + clusters[next - 1].count
  }

  lemma {:induction false} TotalCountChanges(before: map<nat, LogCluster>, after: map<nat, LogCluster>,
                                             next: nat, id: nat)
    requires forall k :: 1 <= k < next ==> k in before && k in after
    requires forall k :: 1 <= k < next && k != id ==> before[k].count == after[k].count
    ensures TotalCount(after, next) ==
      TotalCount(before, next) + if 1 <= id < next then after[id].count - before[id].count else 0
  {
    if next <= 1 {
    } else {
      TotalCountChanges(before, after, next - 1, id);
    }
  }

  function NonEmpty(inputs: seq<Input>): nat {
    if inputs == [] then 0
    else NonEmpty(inputs[..|inputs| - 1]) + if inputs[|inputs| - 1].tokens == [] then 0 else 1
  }

  lemma AddCounts(cfg: DrainConfig, m: Miner, tokens: Tokens, nowMs: int)
    requires IdsAreConsecutive(m)
    ensures var after := AddLog(cfg, m, tokens, nowMs).0;
      && IdsAreConsecutive(after)
      && TotalCount(after.clusters, after.nextClusterId)
         == TotalCount(m.clusters, m.nextClusterId) + (if tokens == [] then 0 else 1)
      && after.totalLogs == m.totalLogs + 1
  {
    var (after, r) := AddLog(cfg, m, tokens, nowMs);
    TotalCountChanges(m.clusters, after.clusters, m.nextClusterId, r.clusterId);
  }

  /** The counts of all clusters add up to the logs that had tokens; the total counts every log. */
  lemma {:induction false} CountsAddUp(cfg: DrainConfig, inputs: seq<Input>)
    ensures var m := Run(cfg, inputs).miner;
      && IdsAreConsecutive(m)
      && TotalCount(m.clusters, m.nextClusterId) == NonEmpty(inputs)
      && m.totalLogs == |inputs|
  {
    if inputs == [] {
    } else {
      var input := inputs[|inputs| - 1];
      CountsAddUp(cfg, inputs[..|inputs| - 1]);
      AddCounts(cfg, Run(cfg, inputs[..|inputs| - 1]).miner, input.tokens, input.nowMs);
    }
  }

  // ----- Adding the same log again -----

  lemma {:induction false} SelfMatch(tokens: Tokens)
    ensures MatchCount(tokens, tokens) == |tokens|
  {
    if tokens == [] {
    } else {
      SelfMatch(tokens[..|tokens| - 1]);
    }
  }

  lemma SelfSimilarity(tokens: Tokens, anchors: seq<string>)
    requires tokens != []
    ensures Similarity(tokens, tokens, anchors) == 1.0
  {
    SelfMatch(tokens);
    RatioBounds(|tokens|, |tokens|);
  }

  lemma {:induction false} BestUnchanged(cfg: DrainConfig, before: map<nat, LogCluster>, after: map<nat, LogCluster>,
                                         ids: seq<nat>, tokens: Tokens)
    requires forall j :: 0 <= j < |ids| ==> ids[j] in before && ids[j] in after && before[ids[j]] == after[ids[j]]
    ensures BestOf(cfg, after, ids, tokens) == BestOf(cfg, before, ids, tokens)
  {
    if ids == [] {
    } else {
      BestUnchanged(cfg, before, after, ids[..|ids| - 1], tokens);
    }
  }

  /** The log just started a cluster, from an indexed state. */
  ghost predicate StartedCluster(cfg: DrainConfig, m: Miner, tokens: Tokens) {
    && tokens != [] && Indexed(m) && IdsAreConsecutive(m)
    && FindBestMatch(cfg, m, tokens).clusterId.None?
  }

  predicate ShadowedInTree(cfg: DrainConfig, m: Miner, tokens: Tokens) {
    Shadowed(ChildOr(m.root, LengthKey(tokens)), Prefix(cfg, tokens), cfg.maxChildren)
  }

  lemma StoredBelowNext(m: Miner, path: seq<string>, x: nat)
    requires UnderOwnLength(m) && IdsAreConsecutive(m) && x in IdsAt(m.root, path)
    ensures x in m.clusters && x < m.nextClusterId
  {
    var j :| 0 <= j < |IdsAt(m.root, path)| && IdsAt(m.root, path)[j] == x;
    assert Stored(m.root, path, j, x);
  }

  lemma ReaddFound(cfg: DrainConfig, m: Miner, tokens: Tokens, nowMs: int)
    requires StartedCluster(cfg, m, tokens) && !ShadowedInTree(cfg, m, tokens) && cfg.similarityThreshold <= 1.0
    ensures var m' := AddLog(cfg, m, tokens, nowMs).0;
      FindBestMatch(cfg, m', tokens) == Match(Some(m.nextClusterId), 1.0)
  {
    var m', id := AddLog(cfg, m, tokens, nowMs).0, m.nextClusterId;
    var key, prefix := LengthKey(tokens), Prefix(cfg, tokens);
    var child := ChildOr(m.root, key);
    var home := HomePath(cfg, m.root, tokens);
    SearchFollowsInsert(child, prefix, cfg.maxChildren, id);
    TreeIds(cfg, m.root, tokens, id, home);
    var old' := IdsAt(m.root, home);
    assert Candidates(cfg, m'.root, tokens) == old' + [id] by {
      SearchNodeIds(ChildOr(m'.root, key), prefix);
      CandidatesStored(cfg, m'.root, tokens);
    }
    forall j | 0 <= j < |old'| ensures old'[j] in m.clusters && old'[j] < id {
      StoredBelowNext(m, home, old'[j]);
    }
    BestUnchanged(cfg, m.clusters, m'.clusters, old', tokens);
    assert home[1..] == InsertPath(child, prefix, cfg.maxChildren);
    if old' != [] {
      if key !in m.root.children { NothingInEmptyNode(home[1..]); }
      SearchWentTheSameWay(child, prefix, cfg.maxChildren);
      SearchNodeIds(child, prefix);
      assert Candidates(cfg, m.root, tokens) == old';
    }
    var j := BestIsFirstMaximum(cfg, m.clusters, old', tokens);
    SelfSimilarity(tokens, cfg.anchors);
    assert (old' + [id])[..|old'|] == old';
    assert BestOf(cfg, m.clusters, old', tokens).similarity < 1.0;
  }

  /** Adding a log again finds the cluster it just started exactly when it is not shadowed and can match. */
  lemma ReaddExact(cfg: DrainConfig, m: Miner, tokens: Tokens, nowMs: int)
    requires StartedCluster(cfg, m, tokens)
    ensures var m' := AddLog(cfg, m, tokens, nowMs).0;
      FindBestMatch(cfg, m', tokens) == Match(Some(m.nextClusterId), 1.0)
      <==> cfg.similarityThreshold <= 1.0 && !ShadowedInTree(cfg, m, tokens)
  {
    var m', id := AddLog(cfg, m, tokens, nowMs).0, m.nextClusterId;
    FindIsBestCandidate(cfg, m', tokens);
    BestIsCandidate(cfg, m'.clusters, Candidates(cfg, m'.root, tokens), tokens);
    if cfg.similarityThreshold <= 1.0 && !ShadowedInTree(cfg, m, tokens) {
      ReaddFound(cfg, m, tokens, nowMs);
    } else if ShadowedInTree(cfg, m, tokens) && Candidates(cfg, m'.root, tokens) != [] {
      var key, prefix := LengthKey(tokens), Prefix(cfg, tokens);
      ShadowMisleadsSearch(ChildOr(m.root, key), prefix, cfg.maxChildren, id);
      CandidatesStored(cfg, m'.root, tokens);
      var path := [key] + SearchPath(ChildOr(m'.root, key), prefix);
      assert path[1..] == SearchPath(ChildOr(m'.root, key), prefix);
      assert HomePath(cfg, m.root, tokens)[1..] == InsertPath(ChildOr(m.root, key), prefix, cfg.maxChildren);
      TreeIds(cfg, m.root, tokens, id, path);
      if id in IdsAt(m.root, path) { StoredBelowNext(m, path, id); }
    }
  }

  lemma NeverAboveOne(cfg: DrainConfig, m: Miner, tokens: Tokens)
    requires cfg.similarityThreshold > 1.0
    ensures FindBestMatch(cfg, m, tokens).clusterId == None
  {
    FindIsBestCandidate(cfg, m, tokens);
    BestIsCandidate(cfg, m.clusters, Candidates(cfg, m.root, tokens), tokens);
  }

  /** When shadowed, the search after the insertion finds what it found before, and stays shadowed. */
  lemma ShadowedStaysUnmatched(cfg: DrainConfig, m: Miner, tokens: Tokens, nowMs: int)
    requires StartedCluster(cfg, m, tokens) && ShadowedInTree(cfg, m, tokens)
    ensures var m' := AddLog(cfg, m, tokens, nowMs).0;
      FindBestMatch(cfg, m', tokens) == FindBestMatch(cfg, m, tokens) && ShadowedInTree(cfg, m', tokens)
  {
    var m' := AddLog(cfg, m, tokens, nowMs).0;
    var key, prefix := LengthKey(tokens), Prefix(cfg, tokens);
    EmptyNotShadowed(prefix, cfg.maxChildren);
    ShadowedSearchUnchanged(m.root.children[key], prefix, cfg.maxChildren, m.nextClusterId);
    ShadowPersists(m.root.children[key], prefix, cfg.maxChildren, m.nextClusterId);
    var ids := Candidates(cfg, m.root, tokens);
    assert Candidates(cfg, m'.root, tokens) == ids;
    if ids != [] { CandidatesStored(cfg, m.root, tokens); }
    forall j | 0 <= j < |ids| ensures ids[j] in m.clusters && ids[j] < m.nextClusterId {
      StoredBelowNext(m, [key] + SearchPath(m.root.children[key], prefix), ids[j]);
    }
    BestUnchanged(cfg, m.clusters, m'.clusters, ids, tokens);
    FindIsBestCandidate(cfg, m, tokens);
    FindIsBestCandidate(cfg, m', tokens);
  }

  /** The same over runs: the next log repeats the last one, which started a cluster. */
  lemma ReaddAfterRun(cfg: DrainConfig, inputs: seq<Input>, tokens: Tokens, t0: int, t1: int)
    requires tokens != [] && AddLog(cfg, Run(cfg, inputs).miner, tokens, t0).1.isNew
    ensures var (m, first) := AddLog(cfg, Run(cfg, inputs).miner, tokens, t0);
      var again := AddLog(cfg, m, tokens, t1).1;
      && (again.clusterId == first.clusterId && again.similarity == 1.0
          <==> cfg.similarityThreshold <= 1.0 && !ShadowedInTree(cfg, Run(cfg, inputs).miner, tokens))
      && (again.isNew
          <==> cfg.similarityThreshold > 1.0 || ShadowedInTree(cfg, Run(cfg, inputs).miner, tokens))
  {
    RunInv(cfg, inputs);
    var s := Run(cfg, inputs).miner;
    ReaddExact(cfg, s, tokens, t0);
    var m := AddLog(cfg, s, tokens, t0).0;
    assert m.nextClusterId == s.nextClusterId + 1;
    if cfg.similarityThreshold > 1.0 {
      NeverAboveOne(cfg, m, tokens);
    } else if ShadowedInTree(cfg, s, tokens) {
      ShadowedStaysUnmatched(cfg, s, tokens, t0);
    }
  }

  // ----- Any number of repetitions -----

  function Again(tokens: Tokens, times: seq<int>): (inputs: seq<Input>)
    ensures |inputs| == |times|
  {
    if times == [] then [] else Again(tokens, times[..|times| - 1]) + [Input(tokens, times[|times| - 1])]
  }

  lemma RunOneMore(cfg: DrainConfig, inputs: seq<Input>, input: Input)
    ensures Run(cfg, inputs + [input]) == Step(cfg, Run(cfg, inputs), input)
  {
    assert (inputs + [input])[..|inputs|] == inputs;
  }

  lemma RunAgain(cfg: DrainConfig, inputs: seq<Input>, tokens: Tokens, times: seq<int>)
    requires times != []
    ensures var n := |times| - 1;
      Run(cfg, inputs + Again(tokens, times)).miner
      == AddLog(cfg, Run(cfg, inputs + Again(tokens, times[..n])).miner, tokens, times[n]).0
  {
    var n := |times| - 1;
    RunOneMore(cfg, inputs + Again(tokens, times[..n]), Input(tokens, times[n]));
    assert inputs + Again(tokens, times) == inputs + Again(tokens, times[..n]) + [Input(tokens, times[n])];
  }

  lemma {:induction false} FullCountFits(tmpl: Tokens, tokens: Tokens)
    requires |tmpl| == |tokens| && MatchCount(tmpl, tokens) == |tmpl|
    ensures Merged(tmpl, tokens) == tmpl && forall i :: 0 <= i < |tmpl| ==> Fits(tmpl[i], tokens[i])
  {
    if tmpl == [] {
    } else {
      var k := |tmpl| - 1;
      FullCountFits(tmpl[..k], tokens[..k]);
      forall i | 0 <= i < |tmpl| ensures Merged(tmpl, tokens)[i] == tmpl[i] && Fits(tmpl[i], tokens[i]) {
        if i < k { assert Fits(tmpl[..k][i], tokens[..k][i]); }
      }
    }
  }

  lemma SimilarityOneFits(tmpl: Tokens, tokens: Tokens, anchors: seq<string>)
    requires Similarity(tmpl, tokens, anchors) == 1.0
    ensures |tmpl| == |tokens| && Merged(tmpl, tokens) == tmpl
    ensures forall i :: 0 <= i < |tmpl| ==> Fits(tmpl[i], tokens[i])
  {
    var m, n := MatchCount(tmpl, tokens), |tmpl|;
    assert m as real == 1.0 * n as real;
    FullCountFits(tmpl, tokens);
  }

  lemma {:induction false} BestAfterSameTemplate(cfg: DrainConfig, before: map<nat, LogCluster>,
                                                 after: map<nat, LogCluster>, ids: seq<nat>, tokens: Tokens)
    requires before.Keys == after.Keys
    requires forall id :: id in before ==>
      before[id].size == after[id].size && before[id].templateTokens == after[id].templateTokens
    ensures BestOf(cfg, after, ids, tokens) == BestOf(cfg, before, ids, tokens)
  {
    if ids == [] {
    } else {
      BestAfterSameTemplate(cfg, before, after, ids[..|ids| - 1], tokens);
    }
  }

  /** A log found with similarity 1 is found so again. */
  lemma FullMatchStays(cfg: DrainConfig, m: Miner, tokens: Tokens, nowMs: int, id: nat)
    requires tokens != [] && FindBestMatch(cfg, m, tokens) == Match(Some(id), 1.0)
    ensures var m' := AddLog(cfg, m, tokens, nowMs).0;
      FindBestMatch(cfg, m', tokens) == Match(Some(id), 1.0) && m'.nextClusterId == m.nextClusterId
  {
    var m' := AddLog(cfg, m, tokens, nowMs).0;
    FindIsBestCandidate(cfg, m, tokens);
    FindIsBestCandidate(cfg, m', tokens);
    var ids := Candidates(cfg, m.root, tokens);
    BestIsCandidate(cfg, m.clusters, ids, tokens);
    SimilarityOneFits(m.clusters[id].templateTokens, tokens, cfg.anchors);
    BestAfterSameTemplate(cfg, m.clusters, m'.clusters, ids, tokens);
  }

  /** What `k` repetitions of a log leave behind, from a state where the first starts a cluster. */
  predicate Repeated(cfg: DrainConfig, before: Miner, after: Miner, tokens: Tokens, k: nat) {
    if cfg.similarityThreshold > 1.0 || ShadowedInTree(cfg, before, tokens) then
      && after.nextClusterId == before.nextClusterId + k
      && FindBestMatch(cfg, after, tokens).clusterId == None
      && (cfg.similarityThreshold > 1.0 || ShadowedInTree(cfg, after, tokens))
    else
      && after.nextClusterId == before.nextClusterId + 1
      && FindBestMatch(cfg, after, tokens) == Match(Some(before.nextClusterId), 1.0)
  }

  lemma {:induction false} RepetitionsLeave(cfg: DrainConfig, inputs: seq<Input>, tokens: Tokens, times: seq<int>)
    requires tokens != [] && times != []
    requires FindBestMatch(cfg, Run(cfg, inputs).miner, tokens).clusterId == None
    ensures Repeated(cfg, Run(cfg, inputs).miner, Run(cfg, inputs + Again(tokens, times)).miner, tokens, |times|)
    decreases |times|
  {
    var n := |times| - 1;
    var before := inputs + Again(tokens, times[..n]);
    var s, m := Run(cfg, inputs).miner, Run(cfg, before).miner;
    RunInv(cfg, inputs);
    RunInv(cfg, before);
    RunAgain(cfg, inputs, tokens, times);
    if n == 0 {
      assert before == inputs;
      ReaddExact(cfg, s, tokens, times[0]);
    } else {
      RepetitionsLeave(cfg, inputs, tokens, times[..n]);
    }
    if cfg.similarityThreshold > 1.0 {
      NeverAboveOne(cfg, AddLog(cfg, m, tokens, times[n]).0, tokens);
    } else if ShadowedInTree(cfg, s, tokens) {
      ShadowedStaysUnmatched(cfg, m, tokens, times[n]);
    } else if n > 0 {
      FullMatchStays(cfg, m, tokens, times[n], s.nextClusterId);
    }
  }

  /**
   How many clusters `k` repetitions of one log start when the first starts one: all `k` of them when
   its path is shadowed or nothing can match, and otherwise just the first.
   */
  lemma {:induction false} RepetitionsExact(cfg: DrainConfig, inputs: seq<Input>, tokens: Tokens, times: seq<int>)
    requires tokens != [] && times != []
    requires FindBestMatch(cfg, Run(cfg, inputs).miner, tokens).clusterId == None
    ensures var s := Run(cfg, inputs).miner;
      Run(cfg, inputs + Again(tokens, times)).miner.nextClusterId - s.nextClusterId
      == if cfg.similarityThreshold > 1.0 || ShadowedInTree(cfg, s, tokens) then |times| else 1
  {
    RepetitionsLeave(cfg, inputs, tokens, times);
  }

  const NARROW := DrainSettings(3, 0.9, 1, [])

  lemma {:induction false} NarrowRun(nowMs: int)
    ensures var m := Run(NARROW, [Input(["a", "x"], nowMs)]).miner;
      && m.nextClusterId == 2
      && m.clusters == map[1 := NewCluster(1, ["a", "x"], nowMs)]
      && LengthKey(["a", "y"]) in m.root.children
      && m.root.children[LengthKey(["a", "y"])] == Node(map["a" := Node(map[], [1])], [])
  {
    var first := ["a", "x"];
    RunOneMore(NARROW, [], Input(first, nowMs));
    assert [] + [Input(first, nowMs)] == [Input(first, nowMs)];
    assert Prefix(NARROW, first) == ["a"];
    assert ["a"][1..] == [] && [] + [1] == [1];
    assert !HasDigitOrParam("a");
  }

  lemma HalfSimilar()
    ensures Similarity(["a", "x"], ["a", "y"], []) == 0.5
  {
    assert ["a", "x"][..1] == ["a", "y"][..1] == ["a"] && ["a"][..0] == [];
    assert MatchCount(["a"], ["a"]) == 1;
  }

  /** After one log the path of a second one is shadowed, and the second log matches nothing. */
  lemma {:induction false} NarrowStart(nowMs: int)
    ensures var m := Run(NARROW, [Input(["a", "x"], nowMs)]).miner;
      && m.nextClusterId == 2
      && ShadowedInTree(NARROW, m, ["a", "y"])
      && FindBestMatch(NARROW, m, ["a", "y"]).clusterId == None
  {
    var tokens := ["a", "y"];
    NarrowRun(nowMs);
    HalfSimilar();
    var m := Run(NARROW, [Input(["a", "x"], nowMs)]).miner;
    var node, leaf := m.root.children[LengthKey(tokens)], Node(map[], [1]);
    assert Prefix(NARROW, tokens) == ["a"] && ["a"][1..] == [];
    assert !HasDigitOrParam("a");
    assert SearchKey(node, "a") == Some("a") && SearchNode(node, ["a"]) == Some(leaf);
    assert [1][..0] == [];
    assert BestOf(NARROW, m.clusters, [1], tokens) == Match(None, 0.5);
  }

  /** A shadowed state is reached after one log: then every repetition of a second log starts a cluster. */
  lemma {:induction false} EveryRepetitionNew(nowMs: int, times: seq<int>)
    ensures Run(NARROW, [Input(["a", "x"], nowMs)] + Again(["a", "y"], times)).miner.nextClusterId == 2 + |times|
  {
    var first := [Input(["a", "x"], nowMs)];
    NarrowStart(nowMs);
    if times == [] {
      assert first + [] == first;
    } else {
      RepetitionsExact(NARROW, first, ["a", "y"], times);
    }
  }
}
