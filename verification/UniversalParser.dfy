/**
 Parsing with and without the signature cache. Classification, signature, SHA-256 and the vendor
 extractors are arbitrary functions; ids and clock readings are inputs.
 */
module UniversalParser {
  import opened Ocsf
  import opened Options
  import opened SignatureCache

  /** What one parse reads from its surroundings: a fresh event id, the ingest time, the extractor's clock. */
  datatype Readings = Readings(eventId: string, ingestTime: int, clock: int)

  /** The library code around the parser. Whether an extractor fails does not depend on the clock. */
  datatype Library = Library(
    classify: string -> VendorFormat,
    signature: string -> nat,
    sha256Hex: string -> string,
    extract: (VendorFormat, string) -> Result<int -> NetworkActivity, string>)

  type ParseResult = Result<NetworkActivity, string>

  function Stamped(lib: Library, a: NetworkActivity, raw: string, r: Readings): NetworkActivity {
    a.(metadata := a.metadata.(rawData := raw, rawHash := lib.sha256Hex(raw), eventId := r.eventId,
                               ingestTime := r.ingestTime))
  }

  function ParseWithFormat(lib: Library, raw: string, format: VendorFormat, r: Readings): ParseResult {
    if format == Unknown then Err("Unrecognized log format for raw line: " + raw)
    else
      match lib.extract(format, raw)
      case Ok(activity) => Ok(Stamped(lib, activity(r.clock), raw, r))
      case Err(e) => Err(e)
  }

  function Parse(lib: Library, raw: string, r: Readings): ParseResult {
    ParseWithFormat(lib, raw, lib.classify(raw), r)
  }

  /** The event that stands for a log nothing could parse. */
  function Fallback(lib: Library, raw: string, error: string, r: Readings): NetworkActivity {
    var metadata := Metadata(Product("Unknown", "Generic / Unparsed"), raw, lib.sha256Hex(raw), r.eventId,
                             r.ingestTime);
    WithUnmapped(NetworkActivity(ACTIVITY_OTHER, r.ingestTime, UNKNOWN, NO_ENDPOINT, NO_ENDPOINT, NO_CONNECTION,
                                 None, metadata, None),
                 map["parse_error" := error])
  }

  /** The event for a log of a given format: `r` is read by the parse, `r'` by the fallback. */
  function LosslessWith(lib: Library, raw: string, format: VendorFormat, r: Readings, r': Readings): NetworkActivity {
    match ParseWithFormat(lib, raw, format, r)
    case Ok(a) => a
    case Err(e) => Fallback(lib, raw, e, r')
  }

  function ParseLossless(lib: Library, raw: string, r: Readings, r': Readings): NetworkActivity {
    LosslessWith(lib, raw, lib.classify(raw), r, r')
  }

  // ----- With the cache -----

  function CachedFormat(lib: Library, c: CacheState, raw: string): VendorFormat
    requires ShardCount(|c.shards|)
  {
    match Lookup(c, lib.signature(raw))
    case Some(format) => format
    case None => lib.classify(raw)
  }

  /** The cache after the lookup, and after the insertion that follows a miss on a known format. */
  function CacheAfter(lib: Library, c: CacheState, raw: string): (c': CacheState)
    requires ShardCount(|c.shards|)
    ensures |c'.shards| == |c.shards|
  {
    var looked := CacheGet(c, lib.signature(raw));
    if Lookup(c, lib.signature(raw)).None? && lib.classify(raw) != Unknown
    then CacheInsert(looked, lib.signature(raw), lib.classify(raw)) else looked
  }

  function ParseCachedLossless(lib: Library, c: CacheState, raw: string, r: Readings, r': Readings): NetworkActivity
    requires ShardCount(|c.shards|)
  {
    LosslessWith(lib, raw, CachedFormat(lib, c, raw), r, r')
  }

  class Parser {
    const lib: Library
    const cache: SignatureLruCache

    constructor (lib: Library, cache: SignatureLruCache)
      ensures this.lib == lib && this.cache == cache
    {
      this.lib, this.cache := lib, cache;
    }

    method ParseCached(raw: string, r: Readings) returns (result: ParseResult)
      requires cache.Valid()
      modifies cache, cache.shards
      ensures cache.State() == CacheAfter(lib, old(cache.State()), raw)
      ensures result == ParseWithFormat(lib, raw, CachedFormat(lib, old(cache.State()), raw), r)
      ensures result.Ok? ==>
        var metadata := result.value.metadata;
        && metadata.rawData == raw && metadata.rawHash == lib.sha256Hex(raw)
        && (metadata.eventId, metadata.ingestTime) == (r.eventId, r.ingestTime)
    {
      var signature := lib.signature(raw);
      var found := cache.Get(signature);
      var format;
      match found {
        case Some(f) =>
          format := f;
        case None =>
          format := lib.classify(raw);
          if format != Unknown {
            cache.Insert(signature, format);
          }
      }
      result := ParseWithFormat(lib, raw, format, r);
    }

    method ParseCachedLosslessly(raw: string, r: Readings, r': Readings) returns (a: NetworkActivity)
      requires cache.Valid()
      modifies cache, cache.shards
      ensures cache.State() == CacheAfter(lib, old(cache.State()), raw)
      ensures a == ParseCachedLossless(lib, old(cache.State()), raw, r, r')
      ensures a.metadata.rawData == raw && a.metadata.rawHash == lib.sha256Hex(raw)
      ensures (a.metadata.eventId, a.metadata.ingestTime) in {(r.eventId, r.ingestTime), (r'.eventId, r'.ingestTime)}
    {
      var result := ParseCached(raw, r);
      match result {
        case Ok(activity) => a := activity;
        case Err(e) => a := Fallback(lib, raw, e, r');
      }
    }
  }

  // ----- What the cache may hold -----

  /** A cached format is known, and is the classification of some log seen with that signature. */
  predicate Justified(lib: Library, key: nat, format: VendorFormat, seen: seq<string>) {
    format != Unknown && exists k :: 0 <= k < |seen| && lib.signature(seen[k]) == key && lib.classify(seen[k]) == format
  }

  ghost predicate CacheJustified(lib: Library, c: CacheState, seen: seq<string>) {
    forall i, key :: 0 <= i < |c.shards| && key in c.shards[i].entries ==>
      Justified(lib, key, c.shards[i].entries[key], seen)
  }

  lemma JustifiedGrows(lib: Library, key: nat, format: VendorFormat, seen: seq<string>, raw: string)
    requires Justified(lib, key, format, seen)
    ensures Justified(lib, key, format, seen + [raw])
  {
    var k :| 0 <= k < |seen| && lib.signature(seen[k]) == key && lib.classify(seen[k]) == format;
    assert (seen + [raw])[k] == seen[k];
  }

  lemma CacheJustifiedGrows(lib: Library, c: CacheState, seen: seq<string>, raw: string)
    requires CacheJustified(lib, c, seen)
    ensures CacheJustified(lib, c, seen + [raw])
  {
    forall i, key | 0 <= i < |c.shards| && key in c.shards[i].entries
      ensures Justified(lib, key, c.shards[i].entries[key], seen + [raw])
    {
      JustifiedGrows(lib, key, c.shards[i].entries[key], seen, raw);
    }
  }

  lemma InsertKeepsJustified(lib: Library, c: CacheState, seen: seq<string>, key: nat, format: VendorFormat)
    requires ShardCount(|c.shards|) && CacheJustified(lib, c, seen) && Justified(lib, key, format, seen)
    ensures CacheJustified(lib, CacheInsert(c, key, format), seen)
  {
  }

  lemma CacheAfterJustified(lib: Library, c: CacheState, seen: seq<string>, raw: string)
    requires ShardCount(|c.shards|) && CacheJustified(lib, c, seen)
    ensures CacheJustified(lib, CacheAfter(lib, c, raw), seen + [raw])
  {
    CacheJustifiedGrows(lib, c, seen, raw);
    if lib.classify(raw) != Unknown {
      assert (seen + [raw])[|seen|] == raw;
      assert Justified(lib, lib.signature(raw), lib.classify(raw), seen + [raw]);
      InsertKeepsJustified(lib, CacheGet(c, lib.signature(raw)), seen + [raw], lib.signature(raw), lib.classify(raw));
    }
  }

  /** The cache after any sequence of cached parses. */
  function CachedRun(lib: Library, n: nat, capacity: nat, logs: seq<string>): (c: CacheState)
    requires ShardCount(n)
    ensures |c.shards| == n
  {
    if logs == [] then NewCache(n, capacity)
    else CacheAfter(lib, CachedRun(lib, n, capacity, logs[..|logs| - 1]), logs[|logs| - 1])
  }

  lemma {:induction false} CachedRunJustified(lib: Library, n: nat, capacity: nat, logs: seq<string>)
    requires ShardCount(n)
    ensures CacheJustified(lib, CachedRun(lib, n, capacity, logs), logs)
  {
    if logs == [] {
    } else {
      var before := logs[..|logs| - 1];
      CachedRunJustified(lib, n, capacity, before);
      CacheAfterJustified(lib, CachedRun(lib, n, capacity, before), before, logs[|logs| - 1]);
      assert before + [logs[|logs| - 1]] == logs;
    }
  }

  /** Cached parsing never differs from plain parsing, whatever was parsed before, for equal readings. */
  ghost predicate CachedAgrees(lib: Library, n: nat, capacity: nat)
    requires ShardCount(n)
  {
    forall logs, raw, r, r' ::
      ParseCachedLossless(lib, CachedRun(lib, n, capacity, logs), raw, r, r') == ParseLossless(lib, raw, r, r')
  }

  /** A log may be parsed as any known format that some log of the same signature has. */
  ghost predicate FormatsInterchangeable(lib: Library) {
    forall a, b, r, r' :: lib.signature(a) == lib.signature(b) && lib.classify(a) != Unknown ==>
      LosslessWith(lib, b, lib.classify(a), r, r') == ParseLossless(lib, b, r, r')
  }

  lemma InterchangeableSuffices(lib: Library, n: nat, capacity: nat, logs: seq<string>, raw: string,
                                r: Readings, r': Readings)
    requires ShardCount(n) && FormatsInterchangeable(lib)
    ensures ParseCachedLossless(lib, CachedRun(lib, n, capacity, logs), raw, r, r') == ParseLossless(lib, raw, r, r')
  {
    var c := CachedRun(lib, n, capacity, logs);
    CachedRunJustified(lib, n, capacity, logs);
    var key := lib.signature(raw);
    if Lookup(c, key).Some? {
      var format := c.shards[ShardIndex(key, n)].entries[key];
      assert Justified(lib, key, format, logs);
      var k :| 0 <= k < |logs| && lib.signature(logs[k]) == key && lib.classify(logs[k]) == format;
      assert LosslessWith(lib, raw, lib.classify(logs[k]), r, r') == ParseLossless(lib, raw, r, r');
    }
  }

  lemma OneLogIsCached(lib: Library, n: nat, capacity: nat, a: string)
    requires ShardCount(n) && lib.classify(a) != Unknown
    ensures Lookup(CachedRun(lib, n, capacity, [a]), lib.signature(a)) == Some(lib.classify(a))
  {
    assert [a][..0] == [];
    assert CachedRun(lib, n, capacity, [a]) == CacheAfter(lib, NewCache(n, capacity), a);
  }

  /**
   When the cache may stand in for the classifier: exactly when formats of one signature are
   interchangeable. The source assumes it of its signatures; nothing in it enforces it.
   */
  lemma CachedParsingExact(lib: Library, n: nat, capacity: nat)
    requires ShardCount(n)
    ensures CachedAgrees(lib, n, capacity) <==> FormatsInterchangeable(lib)
  {
    if CachedAgrees(lib, n, capacity) {
      forall a, b, r, r' | lib.signature(a) == lib.signature(b) && lib.classify(a) != Unknown
        ensures LosslessWith(lib, b, lib.classify(a), r, r') == ParseLossless(lib, b, r, r')
      {
        OneLogIsCached(lib, n, capacity, a);
        assert ParseCachedLossless(lib, CachedRun(lib, n, capacity, [a]), b, r, r') == ParseLossless(lib, b, r, r');
      }
    }
    if FormatsInterchangeable(lib) {
      forall logs, raw, r, r'
        ensures ParseCachedLossless(lib, CachedRun(lib, n, capacity, logs), raw, r, r')
             == ParseLossless(lib, raw, r, r')
      {
        InterchangeableSuffices(lib, n, capacity, logs, raw, r, r');
      }
    }
  }

  /** Logs with one signature are of one format. */
  ghost predicate SignatureTellsFormat(lib: Library) {
    forall a, b :: lib.signature(a) == lib.signature(b) ==> lib.classify(a) == lib.classify(b)
  }

  /** Then cached parsing gives the event plain parsing gives, for the same readings, whatever came before. */
  lemma {:induction false} CachedParsingRefinesPlain(lib: Library, n: nat, capacity: nat, logs: seq<string>,
                                                     raw: string, r: Readings, r': Readings)
    requires ShardCount(n) && SignatureTellsFormat(lib)
    ensures ParseCachedLossless(lib, CachedRun(lib, n, capacity, logs), raw, r, r') == ParseLossless(lib, raw, r, r')
  {
    InterchangeableSuffices(lib, n, capacity, logs, raw, r, r');
  }
}
