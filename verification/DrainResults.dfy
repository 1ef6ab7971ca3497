/** What the miner answers and records for each log: the result of a call, the times of a cluster, its text. */
module DrainResults {
  import opened Drain
  import opened DrainIndex
  import opened DrainRuns
  import opened Text

  // ----- The result of one call -----

  /** The result names the cluster the log is in now, with its text as it is now. */
  lemma {:induction false} ResultExact(cfg: DrainConfig, m: Miner, tokens: Tokens, nowMs: int)
    requires IdsAreConsecutive(m) && tokens != []
    ensures var (m', r) := AddLog(cfg, m, tokens, nowMs);
      && r.clusterId in m'.clusters
      && r.template == m'.clusters[r.clusterId].template
      && (r.isNew <==> r.clusterId !in m.clusters)
      && m'.clusters.Keys == m.clusters.Keys + {r.clusterId}
      && (r.isNew ==> r.template == Joined(tokens) && m'.clusters[r.clusterId].templateTokens == tokens)
      && (r.isNew ==> m'.clusters[r.clusterId].count == 1)
      && (!r.isNew ==> m'.clusters[r.clusterId].count == m.clusters[r.clusterId].count + 1)
      && (forall id :: id in m.clusters && id != r.clusterId ==> m'.clusters[id] == m.clusters[id])
  {
  }

  /** The similarity answered is the highest of all candidates, and decides whether the log is merged. */
  lemma {:induction false} SimilarityAnswered(cfg: DrainConfig, m: Miner, tokens: Tokens, nowMs: int)
    requires tokens != []
    ensures var r, ids := AddLog(cfg, m, tokens, nowMs).1, Candidates(cfg, m.root, tokens);
      && (forall k :: 0 <= k < |ids| ==> SimOf(cfg, m.clusters, ids[k], tokens) <= r.similarity)
      && (r.similarity > 0.0 ==> exists k :: 0 <= k < |ids| && SimOf(cfg, m.clusters, ids[k], tokens) == r.similarity)
      && (r.isNew <==> !(r.similarity > 0.0 && r.similarity >= cfg.similarityThreshold))
  {
    FindIsBestCandidate(cfg, m, tokens);
    var j := BestIsFirstMaximum(cfg, m.clusters, Candidates(cfg, m.root, tokens), tokens);
  }

  /** A log without tokens is counted and nothing else. */
  lemma NothingToMine(cfg: DrainConfig, m: Miner, nowMs: int)
    ensures var (m', r) := AddLog(cfg, m, [], nowMs);
      && m' == m.(totalLogs := m.totalLogs + 1)
      && r.clusterId == 0 && r.template == "" && !r.isNew && r.similarity == 1.0
  {
  }

  // ----- Which logs a cluster has, and since when -----

  /** The logs of a run that were answered with the cluster, in order. */
  function Assigned(cfg: DrainConfig, inputs: seq<Input>, id: nat): seq<Input> {
    if inputs == [] then []
    else
      var before, input := inputs[..|inputs| - 1], inputs[|inputs| - 1];
      var r := AddLog(cfg, Run(cfg, before).miner, input.tokens, input.nowMs).1;
      Assigned(cfg, before, id) + if input.tokens != [] && r.clusterId == id then [input] else []
  }

  function TokensOf(inputs: seq<Input>): (logs: seq<Tokens>)
    ensures |logs| == |inputs|
  {
    seq(|inputs|, i requires 0 <= i < |inputs| => inputs[i].tokens)
  }

  lemma TokensOneMore(inputs: seq<Input>, input: Input)
    ensures TokensOf(inputs + [input]) == TokensOf(inputs) + [input.tokens]
  {
  }

  lemma AssignedNext(cfg: DrainConfig, inputs: seq<Input>, id: nat)
    requires inputs != [] && inputs[|inputs| - 1].tokens != []
    ensures var before, input := inputs[..|inputs| - 1], inputs[|inputs| - 1];
      var r := AddLog(cfg, Run(cfg, before).miner, input.tokens, input.nowMs).1;
      Assigned(cfg, inputs, id) == if r.clusterId == id then Assigned(cfg, before, id) + [input]
                                   else Assigned(cfg, before, id)
  {
  }

  /** The history of a cluster is the tokens of these logs. */
  lemma {:induction false} HistoryIsAssigned(cfg: DrainConfig, inputs: seq<Input>, id: nat)
    ensures LogsOf(Run(cfg, inputs).history, id) == TokensOf(Assigned(cfg, inputs, id))
  {
    if inputs == [] {
    } else {
      var before, input := inputs[..|inputs| - 1], inputs[|inputs| - 1];
      HistoryIsAssigned(cfg, before, id);
      if input.tokens == [] {
        assert Assigned(cfg, before, id) + [] == Assigned(cfg, before, id);
      } else {
        AssignedNext(cfg, inputs, id);
        TokensOneMore(Assigned(cfg, before, id), input);
      }
    }
  }

  predicate Timed(c: LogCluster, got: seq<Input>) {
    && got != [] && c.count == |got|
    && c.createdAt == got[0].nowMs && c.lastSeen == got[|got| - 1].nowMs
  }

  lemma TimedGrows(c: LogCluster, got: seq<Input>, input: Input)
    requires Timed(c, got)
    ensures Timed(Updated(c, input.tokens, input.nowMs), got + [input])
  {
  }

  lemma AddedCluster(cfg: DrainConfig, m: Miner, input: Input, id: nat)
    requires IdsAreConsecutive(m) && input.tokens != []
    ensures var (m', r) := AddLog(cfg, m, input.tokens, input.nowMs);
      && (r.clusterId == id && r.isNew ==>
          id !in m.clusters && id in m'.clusters && m'.clusters[id] == NewCluster(id, input.tokens, input.nowMs))
      && (r.clusterId == id && !r.isNew ==>
          && id in m.clusters && id in m'.clusters
          && m'.clusters[id] == Updated(m.clusters[id], input.tokens, input.nowMs))
      && (r.clusterId != id ==>
          (id in m'.clusters <==> id in m.clusters) && (id in m.clusters ==> m'.clusters[id] == m.clusters[id]))
  {
  }

  lemma {:induction false} NothingAssignedYet(cfg: DrainConfig, inputs: seq<Input>, id: nat)
    requires id !in Run(cfg, inputs).miner.clusters
    ensures Assigned(cfg, inputs, id) == []
  {
    if inputs == [] {
    } else {
      var before, input := inputs[..|inputs| - 1], inputs[|inputs| - 1];
      RunInv(cfg, before);
      if input.tokens != [] { AddedCluster(cfg, Run(cfg, before).miner, input, id); }
      NothingAssignedYet(cfg, before, id);
    }
  }

  /** In every reachable state a cluster was created with its first log and last seen with its last one. */
  lemma {:induction false} TimesExact(cfg: DrainConfig, inputs: seq<Input>, id: nat)
    requires id in Run(cfg, inputs).miner.clusters
    ensures Timed(Run(cfg, inputs).miner.clusters[id], Assigned(cfg, inputs, id))
  {
    if inputs == [] {
    } else {
      var before, input := inputs[..|inputs| - 1], inputs[|inputs| - 1];
      var m := Run(cfg, before).miner;
      RunInv(cfg, before);
      if input.tokens == [] {
        TimesExact(cfg, before, id);
      } else {
        AddedCluster(cfg, m, input, id);
        AssignedNext(cfg, inputs, id);
        if id in m.clusters {
          TimesExact(cfg, before, id);
          TimedGrows(m.clusters[id], Assigned(cfg, before, id), input);
        } else {
          NothingAssignedYet(cfg, before, id);
        }
      }
    }
  }

  // ----- The text of a template -----

  lemma {:induction false} JoinedByLast(tokens: Tokens, c: char)
    requires |tokens| > 1
    ensures JoinedBy(tokens, c) == JoinedBy(tokens[..|tokens| - 1], c) + [c] + tokens[|tokens| - 1]
  {
    var n := |tokens| - 1;
    if n == 1 {
      assert tokens[1..] == [tokens[1]];
    } else {
      JoinedByLast(tokens[1..], c);
      assert tokens[1..][..n - 1] == tokens[..n][1..] && tokens[1..][n - 1] == tokens[n];
      assert tokens[0] + [c] + (JoinedBy(tokens[..n][1..], c) + [c] + tokens[n])
          == (tokens[0] + [c] + JoinedBy(tokens[..n][1..], c)) + [c] + tokens[n];
    }
  }

  lemma {:induction false} JoinedIsJoinedBy(tokens: Tokens)
    requires tokens != []
    ensures Joined(tokens) == JoinedBy(tokens, ' ')
  {
    if |tokens| > 1 {
      JoinedIsJoinedBy(tokens[..|tokens| - 1]);
      JoinedByLast(tokens, ' ');
    }
  }

  /** The text of a template gives its tokens back, when no token holds a space. */
  lemma {:induction false} TemplateTextSplits(tokens: Tokens)
    requires tokens != [] && forall i :: 0 <= i < |tokens| ==> Without(tokens[i], ' ')
    ensures SplitOn(Joined(tokens), ' ') == tokens
  {
    JoinedIsJoinedBy(tokens);
    SplitOfJoined(tokens, ' ');
  }
}
