/** When the pipeline's answers are those of plain lossless parsing, for every interleaving: the exact condition. */
module PipelineExact {
  import opened Drain
  import opened DrainIndex
  import opened DrainRuns
  import opened Ocsf
  import opened Options
  import opened Pipeline
  import opened SignatureCache
  import opened UniversalParser

  /** The event is the plain one for the readings of the first parse, or of the second. */
  predicate Plain(lib: Library, raw: string, event: NetworkActivity, r1: Readings, r2: Readings, r3: Readings) {
    event == ParseLossless(lib, raw, r1, r3) || event == ParseLossless(lib, raw, r2, r3)
  }

  predicate ReturnedPlain(lib: Library, c: Call) {
    c.pc.Returned? ==> Plain(lib, c.raw, c.pc.event, c.pc.r1, c.pc.r2, c.pc.r3)
  }

  /** Every call of every interleaving returns a plain event. */
  ghost predicate AlwaysPlain(su: Setup, numShards: nat, capacity: nat)
    requires ShardCount(numShards)
  {
    forall steps, k: nat :: k < |Pipeline.Run(su, numShards, capacity, steps).calls| ==>
      ReturnedPlain(su.lib, Pipeline.Run(su, numShards, capacity, steps).calls[k])
  }

  predicate MayBeCachedFor(su: Setup, a: string, b: string) {
    su.lib.signature(a) == su.lib.signature(b) && su.lib.classify(a) != Unknown && Promotable(su, a)
  }

  /** A log may be processed with any known format of a log of its signature that the miner can meet again. */
  ghost predicate Reprocessable(su: Setup) {
    forall a, b, r1, r2, r3 :: MayBeCachedFor(su, a, b) ==>
      Plain(su.lib, b, ProcessEvent(su.lib, b, su.lib.classify(a), r1, r2, r3), r1, r2, r3)
  }

  lemma {:induction false} ReprocessableSuffices(su: Setup, numShards: nat, capacity: nat,
                                                 steps: seq<Pipeline.Step>, k: nat)
    requires ShardCount(numShards) && Reprocessable(su)
    requires k < |Pipeline.Run(su, numShards, capacity, steps).calls|
    ensures ReturnedPlain(su.lib, Pipeline.Run(su, numShards, capacity, steps).calls[k])
  {
    Pipeline.RunInv(su, numShards, capacity, steps);
    var st := Pipeline.Run(su, numShards, capacity, steps);
    var c := st.calls[k];
    assert CallOk(su, c, Seen(su, st));
    if c.pc.Returned? {
      if c.pc.format == su.lib.classify(c.raw) {
        ProcessOwnFormat(su.lib, c.raw, c.pc.r1, c.pc.r2, c.pc.r3);
      } else {
        var seen := Seen(su, st);
        var j :| 0 <= j < |seen| && su.lib.signature(seen[j]) == su.lib.signature(c.raw)
              && su.lib.classify(seen[j]) == c.pc.format;
        PromotableListed(su, Raws(st.calls), seen[j]);
        assert MayBeCachedFor(su, seen[j], c.raw);
      }
    }
  }

  // ----- A run that caches the format of any log the miner can meet again -----

  const ANY := Readings("", 0, 0)

  function Go(k: nat): Pipeline.Step {
    Advance(k, 0, false, ANY, ANY, ANY)
  }

  lemma Proceed(su: Setup, numShards: nat, capacity: nat, steps: seq<Pipeline.Step>, step: Pipeline.Step)
    requires ShardCount(numShards)
    ensures Pipeline.Run(su, numShards, capacity, steps + [step])
         == Next(su, Pipeline.Run(su, numShards, capacity, steps), step)
  {
    assert (steps + [step])[..|steps|] == steps;
  }

  /** A call that misses the cache, up to the miner's lock. */
  lemma {:induction false} BeginMiss(su: Setup, numShards: nat, capacity: nat, steps: seq<Pipeline.Step>, raw: string)
    returns (more: seq<Pipeline.Step>)
    requires ShardCount(numShards)
    requires Lookup(Pipeline.Run(su, numShards, capacity, steps).cache, su.lib.signature(raw)).None?
    ensures var st, u := Pipeline.Run(su, numShards, capacity, steps), Pipeline.Run(su, numShards, capacity, more);
      && u.calls == st.calls + [Call(raw, Unmined)]
      && u.miner == st.miner && u.cache.shards == st.cache.shards
  {
    var k := |Pipeline.Run(su, numShards, capacity, steps).calls|;
    Proceed(su, numShards, capacity, steps, Begin(raw));
    var one := steps + [Begin(raw)];
    Proceed(su, numShards, capacity, one, Go(k));
    var two := one + [Go(k)];
    Proceed(su, numShards, capacity, two, Go(k));
    more := two + [Go(k)];
  }

  /** At the lock, a log the miner knows is promoted: its format goes into the cache. */
  lemma {:induction false} KnownIsCached(su: Setup, numShards: nat, capacity: nat, steps: seq<Pipeline.Step>, k: nat)
    returns (more: seq<Pipeline.Step>)
    requires ShardCount(numShards) && k < |Pipeline.Run(su, numShards, capacity, steps).calls|
    requires var st := Pipeline.Run(su, numShards, capacity, steps);
      && st.calls[k].pc == Unmined
      && !AddLog(su.drain, st.miner, su.tokenise(st.calls[k].raw), 0).1.isNew
      && su.lib.classify(st.calls[k].raw) != Unknown
    ensures var st, u := Pipeline.Run(su, numShards, capacity, steps), Pipeline.Run(su, numShards, capacity, more);
      Lookup(u.cache, su.lib.signature(st.calls[k].raw)) == Some(su.lib.classify(st.calls[k].raw))
  {
    Proceed(su, numShards, capacity, steps, Go(k));
    var one := steps + [Go(k)];
    Proceed(su, numShards, capacity, one, Go(k));
    var two := one + [Go(k)];
    Proceed(su, numShards, capacity, two, Go(k));
    more := two + [Go(k)];
    var st := Pipeline.Run(su, numShards, capacity, two);
    assert st.calls[k].pc == Promoting;
  }

  lemma NothingCached(su: Setup, numShards: nat, capacity: nat, key: nat)
    requires ShardCount(numShards)
    ensures Lookup(Start(numShards, capacity).cache, key).None?
  {
  }

  /** The second call with one log finds the cluster the first one started. */
  lemma {:induction false} SecondIsKnown(su: Setup, raw: string)
    requires su.tokenise(raw) != [] && su.drain.similarityThreshold <= 1.0
    ensures var (m, first) := AddLog(su.drain, NEW_MINER, su.tokenise(raw), 0);
      first.isNew && !AddLog(su.drain, m, su.tokenise(raw), 0).1.isNew
  {
    var tokens := su.tokenise(raw);
    assert DrainRuns.Run(su.drain, []).miner == NEW_MINER;
    EmptyNotShadowed(Prefix(su.drain, tokens), su.drain.maxChildren);
    ReaddAfterRun(su.drain, [], tokens, 0, 0);
  }

  lemma {:induction false} CanBeCached(su: Setup, numShards: nat, capacity: nat, raw: string)
    returns (steps: seq<Pipeline.Step>)
    requires ShardCount(numShards) && Promotable(su, raw) && su.lib.classify(raw) != Unknown
    ensures Lookup(Pipeline.Run(su, numShards, capacity, steps).cache, su.lib.signature(raw))
         == Some(su.lib.classify(raw))
  {
    NothingCached(su, numShards, capacity, su.lib.signature(raw));
    steps := BeginMiss(su, numShards, capacity, [], raw);
    var k := 0;
    if su.tokenise(raw) != [] {
      SecondIsKnown(su, raw);
      Proceed(su, numShards, capacity, steps, Go(0));
      steps := BeginMiss(su, numShards, capacity, steps + [Go(0)], raw);
      k := 1;
    }
    steps := KnownIsCached(su, numShards, capacity, steps, k);
  }

  /** A later call with the signature is processed with the cached format. */
  lemma {:induction false} HitReturns(su: Setup, numShards: nat, capacity: nat, steps: seq<Pipeline.Step>, raw: string,
                                      format: VendorFormat, r1: Readings, r2: Readings, r3: Readings)
    returns (more: seq<Pipeline.Step>)
    requires ShardCount(numShards)
    requires Lookup(Pipeline.Run(su, numShards, capacity, steps).cache, su.lib.signature(raw)) == Some(format)
    ensures var calls := Pipeline.Run(su, numShards, capacity, more).calls;
      calls != [] && calls[|calls| - 1]
        == Call(raw, Returned(ProcessEvent(su.lib, raw, format, r1, r2, r3), format, r1, r2, r3))
  {
    var k := |Pipeline.Run(su, numShards, capacity, steps).calls|;
    Proceed(su, numShards, capacity, steps, Begin(raw));
    var one := steps + [Begin(raw)];
    Proceed(su, numShards, capacity, one, Go(k));
    var two := one + [Go(k)];
    Proceed(su, numShards, capacity, two, Go(k));
    var three := two + [Go(k)];
    Proceed(su, numShards, capacity, three, Advance(k, 0, false, r1, r2, r3));
    more := three + [Advance(k, 0, false, r1, r2, r3)];
  }

  lemma {:induction false} ReprocessableNeeded(su: Setup, numShards: nat, capacity: nat, a: string, b: string,
                                               r1: Readings, r2: Readings, r3: Readings)
    requires ShardCount(numShards) && AlwaysPlain(su, numShards, capacity) && MayBeCachedFor(su, a, b)
    ensures Plain(su.lib, b, ProcessEvent(su.lib, b, su.lib.classify(a), r1, r2, r3), r1, r2, r3)
  {
    var steps := CanBeCached(su, numShards, capacity, a);
    var more := HitReturns(su, numShards, capacity, steps, b, su.lib.classify(a), r1, r2, r3);
    var calls := Pipeline.Run(su, numShards, capacity, more).calls;
    assert ReturnedPlain(su.lib, calls[|calls| - 1]);
  }

  /**
   The pipeline stands in for plain parsing exactly when a log may be processed with any known format of
   its signature that can come to be cached. A parse that fails is no harm: the log is classified afresh.
   */
  lemma {:induction false} ProcessExact(su: Setup, numShards: nat, capacity: nat)
    requires ShardCount(numShards)
    ensures AlwaysPlain(su, numShards, capacity) <==> Reprocessable(su)
  {
    if AlwaysPlain(su, numShards, capacity) {
      forall a, b, r1, r2, r3 | MayBeCachedFor(su, a, b)
        ensures Plain(su.lib, b, ProcessEvent(su.lib, b, su.lib.classify(a), r1, r2, r3), r1, r2, r3)
      {
        ReprocessableNeeded(su, numShards, capacity, a, b, r1, r2, r3);
      }
    }
    if Reprocessable(su) {
      forall steps, k: nat | k < |Pipeline.Run(su, numShards, capacity, steps).calls|
        ensures ReturnedPlain(su.lib, Pipeline.Run(su, numShards, capacity, steps).calls[k])
      {
        ReprocessableSuffices(su, numShards, capacity, steps, k);
      }
    }
  }
}
