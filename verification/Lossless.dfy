/** What a lossless event carries, with or without the cache, and through the pipeline: the log itself, always. */
module Lossless {
  import opened Ocsf
  import opened Options
  import opened Pipeline
  import opened SignatureCache
  import opened UniversalParser

  /** The log, its digest, and the id and ingest time of one reading. */
  predicate Carries(lib: Library, raw: string, e: NetworkActivity, r: Readings) {
    && e.metadata.rawData == raw && e.metadata.rawHash == lib.sha256Hex(raw)
    && e.metadata.eventId == r.eventId && e.metadata.ingestTime == r.ingestTime
  }

  /** The format is known and its extractor accepts the log. */
  predicate Extracts(lib: Library, format: VendorFormat, raw: string) {
    format != Unknown && lib.extract(format, raw).Ok?
  }

  /** Two events that differ at most in what the parser writes into the metadata. */
  predicate SameFields(a: NetworkActivity, b: NetworkActivity) {
    && a.activityId == b.activityId && a.time == b.time && a.disposition == b.disposition
    && a.srcEndpoint == b.srcEndpoint && a.dstEndpoint == b.dstEndpoint && a.connectionInfo == b.connectionInfo
    && a.traffic == b.traffic && a.unmapped == b.unmapped && a.metadata.product == b.metadata.product
  }

  /** The event is what the extractor makes of the log, and carries it. */
  predicate IsExtraction(lib: Library, format: VendorFormat, raw: string, e: NetworkActivity, r: Readings)
    requires Extracts(lib, format, raw)
  {
    SameFields(e, lib.extract(format, raw).value(r.clock)) && Carries(lib, raw, e, r)
  }

  /** Why there is no extraction. */
  function Reason(lib: Library, format: VendorFormat, raw: string): string
    requires !Extracts(lib, format, raw)
  {
    if format == Unknown then "Unrecognized log format for raw line: " + raw else lib.extract(format, raw).error
  }

  /** The event says nothing but why the log could not be parsed, and carries it. */
  predicate IsFallback(lib: Library, raw: string, e: NetworkActivity, reason: string, r: Readings) {
    && e.unmapped == Some(map["parse_error" := reason])
    && e.activityId == 99 && e.time == r.ingestTime && e.disposition == "Unknown"
    && e.srcEndpoint == e.dstEndpoint == Endpoint(None, None)
    && e.connectionInfo == ConnectionInfo(None, None) && e.traffic == None
    && e.metadata.product == Product("Unknown", "Generic / Unparsed")
    && Carries(lib, raw, e, r)
  }

  /** The event for a log of a format: its extraction, or the fallback with the reason. */
  predicate IsLossless(lib: Library, format: VendorFormat, raw: string, e: NetworkActivity, r: Readings, r': Readings) {
    if Extracts(lib, format, raw) then IsExtraction(lib, format, raw, e, r)
    else IsFallback(lib, raw, e, Reason(lib, format, raw), r')
  }

  lemma FallbackSays(lib: Library, raw: string, reason: string, r: Readings)
    ensures IsFallback(lib, raw, Fallback(lib, raw, reason, r), reason, r)
  {
    assert "parse_error" in map["parse_error" := reason];
    assert map["parse_error" := reason] != map[];
  }

  /** For any format, right or wrong, the event is one of the two. */
  lemma {:induction false} LosslessExact(lib: Library, format: VendorFormat, raw: string, r: Readings, r': Readings)
    ensures IsLossless(lib, format, raw, LosslessWith(lib, raw, format, r, r'), r, r')
  {
    if !Extracts(lib, format, raw) { FallbackSays(lib, raw, Reason(lib, format, raw), r'); }
  }

  /** Whatever the cache holds, no log is lost by parsing it through the cache. */
  lemma {:induction false} CachedCarries(lib: Library, c: CacheState, raw: string, r: Readings, r': Readings)
    requires ShardCount(|c.shards|)
    ensures var e := ParseCachedLossless(lib, c, raw, r, r');
      && IsLossless(lib, CachedFormat(lib, c, raw), raw, e, r, r')
      && (Carries(lib, raw, e, r) || Carries(lib, raw, e, r'))
  {
    LosslessExact(lib, CachedFormat(lib, c, raw), raw, r, r');
  }

  // ----- Through the pipeline -----

  /** The logs of the calls begun, in order. */
  function Begun(steps: seq<Step>): seq<string> {
    if steps == [] then []
    else
      var step := steps[|steps| - 1];
      Begun(steps[..|steps| - 1]) + if step.Begin? then [step.raw] else []
  }

  lemma StepKeepsLogs(su: Setup, st: State, step: Step)
    requires ShardCount(|st.cache.shards|)
    ensures var u := Next(su, st, step);
      && Raws(u.calls) == Raws(st.calls) + (if step.Begin? then [step.raw] else [])
      && u.totalEvents == st.totalEvents + if step.Begin? then 1 else 0
  {
    if step.Advance? && step.k < |st.calls| { CallsAfterAdvance(su, st, step); }
  }

  /** Under every interleaving call `k` is about the log begun as number `k`, and every call is counted. */
  lemma {:induction false} CallsAreBegun(su: Setup, numShards: nat, capacity: nat, steps: seq<Step>)
    requires ShardCount(numShards)
    ensures var st := Run(su, numShards, capacity, steps);
      Raws(st.calls) == Begun(steps) && st.totalEvents == |st.calls|
  {
    if steps == [] {
    } else {
      var before := steps[..|steps| - 1];
      CallsAreBegun(su, numShards, capacity, before);
      StepKeepsLogs(su, Run(su, numShards, capacity, before), steps[|steps| - 1]);
      assert Raws(Run(su, numShards, capacity, steps).calls) == Begun(steps);
    }
  }

  /**
   What the event of a call is: the extraction of its log with the format it was processed with, or, when there is
   none, of the log's own format, or the fallback with the reason why that one fails too.
   */
  predicate IsProcessed(lib: Library, raw: string, e: NetworkActivity, format: VendorFormat,
                        r1: Readings, r2: Readings, r3: Readings) {
    if Extracts(lib, format, raw) then IsExtraction(lib, format, raw, e, r1)
    else IsLossless(lib, lib.classify(raw), raw, e, r2, r3)
  }

  lemma {:induction false} ProcessedExact(lib: Library, raw: string, format: VendorFormat,
                                          r1: Readings, r2: Readings, r3: Readings)
    ensures IsProcessed(lib, raw, ProcessEvent(lib, raw, format, r1, r2, r3), format, r1, r2, r3)
  {
    LosslessExact(lib, lib.classify(raw), raw, r2, r3);
  }

  /**
   Under every interleaving, whatever was cached for whatever reason: a call that has returned carries the log it
   was begun with, its digest, and an id and ingest time read for it; nothing is lost on the way.
   */
  lemma {:induction false} EveryCallCarriesItsLog(su: Setup, numShards: nat, capacity: nat, steps: seq<Step>, k: nat)
    requires ShardCount(numShards)
    requires k < |Run(su, numShards, capacity, steps).calls|
    requires Run(su, numShards, capacity, steps).calls[k].pc.Returned?
    ensures k < |Begun(steps)|
    ensures var pc, raw := Run(su, numShards, capacity, steps).calls[k].pc, Begun(steps)[k];
      && IsProcessed(su.lib, raw, pc.event, pc.format, pc.r1, pc.r2, pc.r3)
      && (|| Carries(su.lib, raw, pc.event, pc.r1)
          || Carries(su.lib, raw, pc.event, pc.r2)
          || Carries(su.lib, raw, pc.event, pc.r3))
  {
    RunInv(su, numShards, capacity, steps);
    CallsAreBegun(su, numShards, capacity, steps);
    var st := Run(su, numShards, capacity, steps);
    var c := st.calls[k];
    assert CallOk(su, c, Seen(su, st));
    assert Raws(st.calls)[k] == c.raw;
    ProcessedExact(su.lib, c.raw, c.pc.format, c.pc.r1, c.pc.r2, c.pc.r3);
  }
}
