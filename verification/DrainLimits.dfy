/** Where the miner's documented promises about anchors stop: for which configurations they hold of every run. */
module DrainLimits {
  import opened Drain
  import opened DrainIndex
  import opened DrainRuns
  import opened Options

  // ----- Runs that build one cluster -----

  /** `n` times the same token, then `t`: with `n` large all such logs meet in one node. */
  function Line(n: nat, t: string): (tokens: Tokens)
    ensures |tokens| == n + 1 && tokens[n] == t
  {
    seq(n, i => "x") + [t]
  }

  predicate Roomy(cfg: DrainConfig, n: nat) {
    n >= 1 && n >= cfg.depth - 2 && n as real / (n + 1) as real >= cfg.similarityThreshold
  }

  lemma ProductAtLeastOne(x: real, gap: real)
    requires gap > 0.0 && x >= 1.0 / gap
    ensures x * gap >= 1.0
  {
    assert (1.0 / gap) * gap == 1.0;
    assert (x - 1.0 / gap) * gap >= 0.0;
  }

  lemma RatioAtLeast(x: real, y: real, t: real)
    requires y == x + 1.0 && y > 0.0 && y * (1.0 - t) >= 1.0
    ensures x / y >= t
  {
    assert x >= t * y;
    assert x / y - t == (x - t * y) / y;
  }

  lemma RoomyEnough(cfg: DrainConfig) returns (n: nat)
    requires cfg.similarityThreshold < 1.0
    ensures Roomy(cfg, n)
  {
    var gap := 1.0 - cfg.similarityThreshold;
    n := cfg.depth + (1.0 / gap).Floor + 1;
    assert 1.0 / gap >= 0.0;
    assert n as real >= 1.0 / gap;
    ProductAtLeastOne(n as real, gap);
    assert (n + 1) as real * gap >= 1.0;
    RatioAtLeast(n as real, (n + 1) as real, cfg.similarityThreshold);
  }

  lemma {:induction false} LineMatches(n: nat, t: string, u: string)
    ensures MatchCount(Line(n, t), Line(n, u)) == n + if Fits(t, u) then 1 else 0
  {
    var xs := seq(n, i => "x");
    assert Line(n, t)[..n] == xs && Line(n, u)[..n] == xs;
    SelfMatch(xs);
  }

  lemma RatioGrows(a: real, b: real, y: real)
    requires 0.0 < a <= b && y > 0.0
    ensures b / y >= a / y > 0.0
  {
  }

  lemma LineSimilarity(n: nat, t: string, u: string, anchors: seq<string>)
    requires n >= 1 && !Conflict(t, u, anchors)
    ensures Similarity(Line(n, t), Line(n, u), anchors) >= n as real / (n + 1) as real > 0.0
  {
    LineMatches(n, t, u);
    assert forall i :: 0 <= i < n ==> Line(n, t)[i] == Line(n, u)[i] == "x";
    assert !AnchorsClash(Line(n, t), Line(n, u), anchors);
    var m := MatchCount(Line(n, t), Line(n, u));
    RatioGrows(n as real, m as real, (n + 1) as real);
  }

  lemma LineMerged(n: nat, t: string, u: string)
    ensures Merged(Line(n, t), Line(n, u)) == Line(n, if t != u && t != WILDCARD then WILDCARD else t)
  {
  }

  /** After one such log, its node is where every other one searches. */
  lemma {:induction false} LinesMeet(cfg: DrainConfig, n: nat, a: string, b: string)
    requires n >= cfg.depth - 2
    ensures Candidates(cfg, InsertToTree(cfg, EMPTY_NODE, Line(n, a), 1), Line(n, b)) == [1]
  {
    var first, tokens := Line(n, a), Line(n, b);
    var prefix, key := Prefix(cfg, tokens), LengthKey(tokens);
    assert Prefix(cfg, first) == prefix;
    var root := InsertToTree(cfg, EMPTY_NODE, first, 1);
    EmptyNotShadowed(prefix, cfg.maxChildren);
    SearchFollowsInsert(EMPTY_NODE, prefix, cfg.maxChildren, 1);
    var child := Inserted(EMPTY_NODE, prefix, cfg.maxChildren, 1);
    SearchNodeIds(child, prefix);
    InsertedIds(EMPTY_NODE, prefix, cfg.maxChildren, 1, InsertPath(EMPTY_NODE, prefix, cfg.maxChildren));
    NothingInEmptyNode(InsertPath(EMPTY_NODE, prefix, cfg.maxChildren));
    assert root.children[key] == child;
  }

  function Log(n: nat, t: string): Input {
    Input(Line(n, t), 0)
  }

  /** One cluster, which the log ending in `a` started, with its template and the logs assigned to it. */
  ghost predicate OnlyCluster(cfg: DrainConfig, n: nat, a: string, s: Mined, t: string, logs: seq<Tokens>) {
    && s.miner.root == InsertToTree(cfg, EMPTY_NODE, Line(n, a), 1)
    && s.miner.clusters.Keys == {1} && s.miner.clusters[1].size == n + 1
    && s.miner.clusters[1].templateTokens == Line(n, t)
    && s.history == map[1 := logs]
  }

  lemma {:induction false} FirstLogStarts(cfg: DrainConfig, n: nat, a: string)
    ensures OnlyCluster(cfg, n, a, Run(cfg, [Log(n, a)]), a, [Line(n, a)])
  {
    RunOneMore(cfg, [], Log(n, a));
    assert [] + [Log(n, a)] == [Log(n, a)];
    assert [] + [Line(n, a)] == [Line(n, a)];
  }

  lemma {:induction false} LineFindsCluster(cfg: DrainConfig, n: nat, a: string, s: Mined, t: string, u: string,
                                            logs: seq<Tokens>)
    requires Roomy(cfg, n) && !Conflict(t, u, cfg.anchors) && OnlyCluster(cfg, n, a, s, t, logs)
    ensures FindBestMatch(cfg, s.miner, Line(n, u)).clusterId == Some(1)
  {
    var tokens := Line(n, u);
    LinesMeet(cfg, n, a, u);
    FindIsBestCandidate(cfg, s.miner, tokens);
    LineSimilarity(n, t, u, cfg.anchors);
    assert [1][..0] == [];
    assert SimOf(cfg, s.miner.clusters, 1, tokens) == Similarity(Line(n, t), tokens, cfg.anchors);
  }

  /** One more log that raises no conflict with the only cluster joins it. */
  lemma {:induction false} NextLogJoins(cfg: DrainConfig, n: nat, a: string, s: Mined, t: string, u: string,
                                        logs: seq<Tokens>)
    requires Roomy(cfg, n) && !Conflict(t, u, cfg.anchors) && OnlyCluster(cfg, n, a, s, t, logs)
    ensures OnlyCluster(cfg, n, a, Step(cfg, s, Log(n, u)), if t != u && t != WILDCARD then WILDCARD else t,
                        logs + [Line(n, u)])
  {
    LineFindsCluster(cfg, n, a, s, t, u, logs);
    LineMerged(n, t, u);
  }

  /** Two logs that differ without a conflict leave the wildcard behind. */
  lemma {:induction false} SecondLogJoins(cfg: DrainConfig, n: nat, a: string, b: string)
    requires Roomy(cfg, n) && a != b && a != WILDCARD && !Conflict(a, b, cfg.anchors)
    ensures OnlyCluster(cfg, n, a, Run(cfg, [Log(n, a), Log(n, b)]), WILDCARD, [Line(n, a), Line(n, b)])
  {
    FirstLogStarts(cfg, n, a);
    NextLogJoins(cfg, n, a, Run(cfg, [Log(n, a)]), a, b, [Line(n, a)]);
    RunOneMore(cfg, [Log(n, a)], Log(n, b));
    assert [Log(n, a)] + [Log(n, b)] == [Log(n, a), Log(n, b)];
    assert [Line(n, a)] + [Line(n, b)] == [Line(n, a), Line(n, b)];
  }

  /** And open the position to any third that raises none with the wildcard. */
  lemma {:induction false} ThirdLogJoins(cfg: DrainConfig, n: nat, a: string, b: string, c: string)
    requires Roomy(cfg, n) && a != b && a != WILDCARD
    requires !Conflict(a, b, cfg.anchors) && !Conflict(WILDCARD, c, cfg.anchors)
    ensures OnlyCluster(cfg, n, a, Run(cfg, [Log(n, a), Log(n, b), Log(n, c)]), WILDCARD,
                        [Line(n, a), Line(n, b), Line(n, c)])
  {
    var two, logs := [Log(n, a), Log(n, b)], [Line(n, a), Line(n, b)];
    SecondLogJoins(cfg, n, a, b);
    NextLogJoins(cfg, n, a, Run(cfg, two), WILDCARD, c, logs);
    RunOneMore(cfg, two, Log(n, c));
    assert two + [Log(n, c)] == [Log(n, a), Log(n, b), Log(n, c)];
    assert logs + [Line(n, c)] == [Line(n, a), Line(n, b), Line(n, c)];
  }

  // ----- A threshold nothing but a full match reaches -----

  predicate FitAll(tmpl: Tokens, logs: seq<Tokens>) {
    forall j :: 0 <= j < |logs| ==> |logs[j]| == |tmpl| && forall i :: 0 <= i < |tmpl| ==> Fits(tmpl[i], logs[j][i])
  }

  predicate UnmergedCluster(c: LogCluster, logs: seq<Tokens>) {
    logs != [] && c.templateTokens == logs[0] && FitAll(logs[0], logs)
  }

  /** No template has changed, and every log fits the template its cluster began with. */
  predicate Unmerged(s: Mined) {
    forall id :: id in s.miner.clusters && id in s.history ==>
      UnmergedCluster(s.miner.clusters[id], s.history[id])
  }

  lemma OneMoreFits(c: LogCluster, logs: seq<Tokens>, tokens: Tokens, nowMs: int)
    requires UnmergedCluster(c, logs) && |tokens| == |c.templateTokens|
    requires Merged(c.templateTokens, tokens) == c.templateTokens
    requires forall i :: 0 <= i < |tokens| ==> Fits(c.templateTokens[i], tokens[i])
    ensures UnmergedCluster(Updated(c, tokens, nowMs), logs + [tokens])
  {
    assert (logs + [tokens])[0] == logs[0];
  }

  lemma FullMatchFits(cfg: DrainConfig, m: Miner, tokens: Tokens, id: nat)
    requires cfg.similarityThreshold >= 1.0 && FindBestMatch(cfg, m, tokens).clusterId == Some(id)
    ensures var tmpl := m.clusters[id].templateTokens;
      && |tmpl| == |tokens| && Merged(tmpl, tokens) == tmpl
      && forall i :: 0 <= i < |tmpl| ==> Fits(tmpl[i], tokens[i])
  {
    FindIsBestCandidate(cfg, m, tokens);
    BestIsCandidate(cfg, m.clusters, Candidates(cfg, m.root, tokens), tokens);
    SimilarityOneFits(m.clusters[id].templateTokens, tokens, cfg.anchors);
  }

  lemma {:induction false} FullMatchKeepsUnmerged(cfg: DrainConfig, s: Mined, input: Input, id: nat)
    requires Inv(cfg, s) && Unmerged(s) && input.tokens != [] && cfg.similarityThreshold >= 1.0
    requires FindBestMatch(cfg, s.miner, input.tokens).clusterId == Some(id)
    ensures Unmerged(Step(cfg, s, input))
  {
    MergeStep(cfg, s, input, id);
    FullMatchFits(cfg, s.miner, input.tokens, id);
    OneMoreFits(s.miner.clusters[id], s.history[id], input.tokens, input.nowMs);
  }

  lemma {:induction false} StepKeepsUnmerged(cfg: DrainConfig, s: Mined, input: Input)
    requires Inv(cfg, s) && Unmerged(s) && cfg.similarityThreshold >= 1.0
    ensures Unmerged(Step(cfg, s, input))
  {
    if input.tokens == [] {
    } else {
      match FindBestMatch(cfg, s.miner, input.tokens).clusterId
      case Some(id) => FullMatchKeepsUnmerged(cfg, s, input, id);
      case None => NewClusterStep(cfg, s, input);
    }
  }

  lemma {:induction false} RunUnmerged(cfg: DrainConfig, inputs: seq<Input>)
    requires cfg.similarityThreshold >= 1.0
    ensures Unmerged(Run(cfg, inputs))
  {
    if inputs == [] {
    } else {
      RunInv(cfg, inputs[..|inputs| - 1]);
      RunUnmerged(cfg, inputs[..|inputs| - 1]);
      StepKeepsUnmerged(cfg, Run(cfg, inputs[..|inputs| - 1]), inputs[|inputs| - 1]);
    }
  }

  // ----- Anchors and the wildcard -----

  /** The cluster's first log has an anchor at the position. */
  predicate StartsWithAnchor(cfg: DrainConfig, s: Mined, id: nat, i: nat) {
    && id in s.miner.clusters && id in s.history && s.history[id] != []
    && i < |s.history[id][0]| && i < |s.miner.clusters[id].templateTokens|
    && IsAnchor(cfg, s.history[id][0][i])
  }

  /** In the state, no position at which a cluster's first log has an anchor has become the wildcard. */
  ghost predicate AnchorsStay(cfg: DrainConfig, s: Mined) {
    forall id, i: nat :: StartsWithAnchor(cfg, s, id, i) ==> s.miner.clusters[id].templateTokens[i] != WILDCARD
  }

  ghost predicate AnchorsNeverMerged(cfg: DrainConfig) {
    forall inputs :: AnchorsStay(cfg, Run(cfg, inputs))
  }

  predicate HasLetter(s: string) {
    exists i :: 0 <= i < |s| && 'A' <= s[i] <= 'Z'
  }

  /** An anchor that tokens can match, and can match in more than one spelling. */
  predicate Respellable(anchor: string) {
    Upper(anchor) == anchor && HasLetter(anchor)
  }

  function LowerAt(s: string, i: nat): (t: string)
    requires i < |s| && 'A' <= s[i] <= 'Z'
    ensures t != s && Upper(t) == Upper(s)
  {
    assert UpperChar((s[i] as int + 32) as char) == s[i];
    s[i := (s[i] as int + 32) as char]
  }

  /** Two tokens with one upper-case form that has no letter are the same token. */
  lemma LetterlessSpelling(t: string, u: string)
    requires Upper(t) == Upper(u) && !HasLetter(Upper(t))
    ensures t == u
  {
    assert |t| == |Upper(t)| == |Upper(u)| == |u|;
    forall i | 0 <= i < |t| ensures t[i] == u[i] {
      assert Upper(t)[i] == UpperChar(t[i]) && Upper(u)[i] == UpperChar(u[i]);
      assert !('A' <= Upper(t)[i] <= 'Z');
    }
  }

  lemma UpperTwice(s: string)
    ensures Upper(Upper(s)) == Upper(s)
  {
    assert forall i :: 0 <= i < |s| ==> UpperChar(UpperChar(s[i])) == UpperChar(s[i]);
  }

  lemma {:induction false} LetterlessAnchorsStay(cfg: DrainConfig, inputs: seq<Input>)
    requires forall a :: a in cfg.anchors ==> !Respellable(a)
    ensures AnchorsStay(cfg, Run(cfg, inputs))
  {
    var s := Run(cfg, inputs);
    forall id, i: nat | StartsWithAnchor(cfg, s, id, i)
      ensures s.miner.clusters[id].templateTokens[i] != WILDCARD
    {
      var logs := s.history[id];
      AnchorLostIffCaseVariant(cfg, inputs, id, i);
      UpperTwice(logs[0][i]);
      forall j | 0 <= j < |logs| && i < |logs[j]| && Upper(logs[j][i]) == Upper(logs[0][i])
        ensures logs[j][i] == logs[0][i]
      {
        LetterlessSpelling(logs[j][i], logs[0][i]);
      }
    }
  }

  lemma {:induction false} FullMatchAnchorsStay(cfg: DrainConfig, inputs: seq<Input>)
    requires cfg.similarityThreshold >= 1.0
    ensures AnchorsStay(cfg, Run(cfg, inputs))
  {
    RunUnmerged(cfg, inputs);
  }

  /** A log with the anchor and one with the same anchor in another spelling lose it. */
  lemma {:induction false} RespelledAnchorLost(cfg: DrainConfig, n: nat, anchor: string, variant: string)
    requires Roomy(cfg, n) && anchor in cfg.anchors && Upper(anchor) == anchor && HasLetter(anchor)
    requires variant != anchor && Upper(variant) == anchor
    ensures !AnchorsStay(cfg, Run(cfg, [Log(n, anchor), Log(n, variant)]))
  {
    assert !HasLetter(WILDCARD);
    SecondLogJoins(cfg, n, anchor, variant);
    var s := Run(cfg, [Log(n, anchor), Log(n, variant)]);
    assert StartsWithAnchor(cfg, s, 1, n);
    assert s.miner.clusters[1].templateTokens[n] == WILDCARD;
  }

  /**
   "Anchors are never merged into a wildcard" holds of every run exactly when nothing but a full match
   merges, or no configured anchor can be spelled in another case.
   */
  lemma {:induction false} AnchorsNeverMergedExact(cfg: DrainConfig)
    ensures AnchorsNeverMerged(cfg)
       <==> cfg.similarityThreshold >= 1.0 || forall a :: a in cfg.anchors ==> !Respellable(a)
  {
    if cfg.similarityThreshold >= 1.0 {
      forall inputs ensures AnchorsStay(cfg, Run(cfg, inputs)) { FullMatchAnchorsStay(cfg, inputs); }
    } else if forall a :: a in cfg.anchors ==> !Respellable(a) {
      forall inputs ensures AnchorsStay(cfg, Run(cfg, inputs)) { LetterlessAnchorsStay(cfg, inputs); }
    } else {
      var a :| a in cfg.anchors && Respellable(a);
      var i :| 0 <= i < |a| && 'A' <= a[i] <= 'Z';
      var n := RoomyEnough(cfg);
      RespelledAnchorLost(cfg, n, a, LowerAt(a, i));
    }
  }

  // ----- By the inputs alone -----

  predicate AlikeAt(cfg: DrainConfig, a: Tokens, b: Tokens, i: nat) {
    |a| == |b| && i < |a| && IsAnchor(cfg, a[i]) && Upper(a[i]) == Upper(b[i]) ==> a[i] == b[i]
  }

  /** Where two logs of one length have the same anchor at one position, they spell it the same way. */
  ghost predicate SpelledAlike(cfg: DrainConfig, inputs: seq<Input>) {
    forall j, k, i :: 0 <= j < |inputs| && 0 <= k < |inputs| ==> AlikeAt(cfg, inputs[j].tokens, inputs[k].tokens, i)
  }

  lemma {:induction false} HistoryFromInputs(cfg: DrainConfig, inputs: seq<Input>, id: nat, j: nat) returns (k: nat)
    requires id in Run(cfg, inputs).history && j < |Run(cfg, inputs).history[id]|
    ensures k < |inputs| && inputs[k].tokens == Run(cfg, inputs).history[id][j]
  {
    if inputs == [] {
      assert false;
    } else {
      var before := inputs[..|inputs| - 1];
      var s := Run(cfg, before);
      if id in s.history && j < |s.history[id]| {
        k := HistoryFromInputs(cfg, before, id, j);
      } else {
        k := |inputs| - 1;
      }
    }
  }

  /** When the inputs spell their anchors alike, no anchor position is lost. */
  lemma {:induction false} SpelledAlikeAnchorsStay(cfg: DrainConfig, inputs: seq<Input>)
    requires SpelledAlike(cfg, inputs)
    ensures AnchorsStay(cfg, Run(cfg, inputs))
  {
    var s := Run(cfg, inputs);
    RunInv(cfg, inputs);
    forall id, i: nat | StartsWithAnchor(cfg, s, id, i)
      ensures s.miner.clusters[id].templateTokens[i] != WILDCARD
    {
      var logs := s.history[id];
      AnchorLostIffCaseVariant(cfg, inputs, id, i);
      var k0 := HistoryFromInputs(cfg, inputs, id, 0);
      forall j | 0 <= j < |logs| && i < |logs[j]| && Upper(logs[j][i]) == Upper(logs[0][i])
        ensures logs[j][i] == logs[0][i]
      {
        var k := HistoryFromInputs(cfg, inputs, id, j);
        assert AlikeAt(cfg, inputs[k0].tokens, inputs[k].tokens, i);
      }
    }
  }

  // ----- The default configuration -----

  const DEFAULT := DrainSettings(4, 0.5, 100, ["ALLOW", "DENY", "DROP", "BLOCK", "PERMIT", "REJECT", "PASS"])

  lemma UpperOfLetters()
    ensures Upper("allow") == Upper("ALLOW") == "ALLOW" && Upper("open") == "OPEN" && Upper(WILDCARD) == WILDCARD
  {
    assert Upper("<*>") == "<*>";
  }

  lemma TwoThirds()
    ensures Roomy(DEFAULT, 2)
  {
  }

  /** By default `ALLOW` is merged into the wildcard by `allow`, and then shares its place with any other word. */
  lemma {:induction false} AnchorMergedIntoWildcard()
    ensures var s := Run(DEFAULT, [Log(2, "ALLOW"), Log(2, "allow"), Log(2, "open")]);
      && 1 in s.history && s.history[1] == [Line(2, "ALLOW"), Line(2, "allow"), Line(2, "open")]
      && 1 in s.miner.clusters && s.miner.clusters[1].templateTokens == Line(2, WILDCARD)
      && IsAnchor(DEFAULT, "ALLOW")
  {
    UpperOfLetters();
    TwoThirds();
    assert DEFAULT.anchors[0] == "ALLOW";
    assert "OPEN" !in DEFAULT.anchors && WILDCARD !in DEFAULT.anchors;
    ThirdLogJoins(DEFAULT, 2, "ALLOW", "allow", "open");
  }

  // ----- The wildcard as an anchor -----

  predicate KeptAt(cfg: DrainConfig, first: Tokens, log: Tokens, i: nat) {
    i < |log| && Upper(log[i]) in cfg.anchors ==> i < |first| && Upper(log[i]) == Upper(first[i])
  }

  /** Anchors are kept, the wildcard not excepted. */
  ghost predicate EveryAnchorKept(cfg: DrainConfig, history: map<nat, seq<Tokens>>) {
    forall id, j, i :: id in history && 0 <= j < |history[id]| ==> KeptAt(cfg, history[id][0], history[id][j], i)
  }

  function Longest(strings: seq<string>): (n: nat)
    ensures forall s :: s in strings ==> |s| <= n
  {
    if strings == [] then 0
    else
      var rest := Longest(strings[..|strings| - 1]);
      if |strings[|strings| - 1]| > rest then |strings[|strings| - 1]| else rest
  }

  /** Two tokens too long to be anchors. */
  lemma NoAnchors(cfg: DrainConfig) returns (a: string, b: string)
    ensures a != b && a != WILDCARD && Upper(a) != Upper(WILDCARD)
    ensures Upper(a) !in cfg.anchors && Upper(b) !in cfg.anchors
  {
    var k := Longest(cfg.anchors) + 4;
    a, b := seq(k, i => 'a'), seq(k + 1, i => 'a');
    assert |Upper(a)| == |a| == k && |Upper(b)| == |b| == k + 1;
  }

  /** A configured `<*>` joins a cluster that began with another token, for any threshold below 1. */
  lemma {:induction false} WildcardAnchorNotKept(cfg: DrainConfig, n: nat)
    requires Roomy(cfg, n) && WILDCARD in cfg.anchors
    ensures exists inputs :: !EveryAnchorKept(cfg, Run(cfg, inputs).history)
  {
    var a, b := NoAnchors(cfg);
    UpperOfLetters();
    ThirdLogJoins(cfg, n, a, b, WILDCARD);
    var inputs := [Log(n, a), Log(n, b), Log(n, WILDCARD)];
    var history := Run(cfg, inputs).history;
    assert history[1] == [Line(n, a), Line(n, b), Line(n, WILDCARD)];
    assert !KeptAt(cfg, history[1][0], history[1][2], n);
    assert !EveryAnchorKept(cfg, Run(cfg, inputs).history);
  }

  lemma {:induction false} AnchorsKeptInRun(cfg: DrainConfig, inputs: seq<Input>)
    requires WILDCARD !in cfg.anchors || cfg.similarityThreshold >= 1.0
    ensures EveryAnchorKept(cfg, Run(cfg, inputs).history)
  {
    var history := Run(cfg, inputs).history;
    UpperOfLetters();
    RunInv(cfg, inputs);
    if cfg.similarityThreshold >= 1.0 { RunUnmerged(cfg, inputs); }
    forall id, j, i: nat | id in history && 0 <= j < |history[id]| && i < |history[id][j]|
      && Upper(history[id][j][i]) in cfg.anchors
      ensures KeptAt(cfg, history[id][0], history[id][j], i)
    {
      if history[id][j][i] != WILDCARD {
        AnchorsInviolable(cfg, inputs, id, j, i);
      } else {
        assert FitAll(history[id][0], history[id]);
        assert Fits(history[id][0][i], history[id][j][i]);
      }
    }
  }

  /** Every anchor is kept in every run exactly when the wildcard is no anchor or only full matches merge. */
  lemma {:induction false} WildcardAnchorExact(cfg: DrainConfig)
    ensures (forall inputs :: EveryAnchorKept(cfg, Run(cfg, inputs).history))
       <==> WILDCARD !in cfg.anchors || cfg.similarityThreshold >= 1.0
  {
    UpperOfLetters();
    if WILDCARD in cfg.anchors && cfg.similarityThreshold < 1.0 {
      var n := RoomyEnough(cfg);
      WildcardAnchorNotKept(cfg, n);
    } else {
      forall inputs ensures EveryAnchorKept(cfg, Run(cfg, inputs).history) {
        AnchorsKeptInRun(cfg, inputs);
      }
    }
  }
}
