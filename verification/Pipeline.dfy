/**
 The three-tier pipeline as interleaved atomic steps: any number of concurrent calls to `process`,
 each advancing one shared access at a time, and the worker draining the bounded queue.
 */
module Pipeline {
  import opened Drain
  import opened DrainIndex
  import opened DrainRuns
  import opened Ocsf
  import opened Options
  import opened Sequences
  import opened SignatureCache
  import opened UniversalParser

  datatype Setup = Setup(lib: Library, tokenise: string -> Tokens, drain: DrainConfig, queueCapacity: nat)

  /** Where a call stands: what it has read and what it does next. */
  datatype Pc =
    | Entered                          // the event is counted; next the cache is read
    | Found(format: VendorFormat)      // next the hit is counted
    | Missed                           // next the miss is counted
    | Unmined                          // next the miner's lock is taken
    | Known                            // a cluster matched; next the tier-2 hit is counted
    | Promoting                        // next the log is classified and the cache filled
    | NewCluster(clusterId: nat)       // next the cluster is offered to the queue
    | Offered                          // next the dispatch is counted
    | Unparsed                         // next the log is parsed losslessly
    | Parsing(format: VendorFormat)    // next the log is parsed with the format
    | Returned(event: NetworkActivity, format: VendorFormat, r1: Readings, r2: Readings, r3: Readings)

  datatype Call = Call(raw: string, pc: Pc)

  /** `offered`, `sent` and `received` are histories: ids offered, accepted, taken by the worker. */
  datatype State = State(
    calls: seq<Call>, cache: CacheState, miner: Miner, mined: seq<Input>,
    totalEvents: nat, tier2Hits: nat, dispatches: nat,
    queue: seq<nat>, offered: seq<nat>, sent: seq<nat>, received: seq<nat>)

  datatype Step =
    | Begin(raw: string)
    | Advance(k: nat, nowMs: int, accepted: bool, r1: Readings, r2: Readings, r3: Readings)
    | Receive

  function Start(numShards: nat, capacity: nat): State {
    State([], NewCache(numShards, capacity), NEW_MINER, [], 0, 0, 0, [], [], [], [])
  }

  /** `parse_with_format` of the pipeline: on failure the log is classified and parsed afresh. */
  function ProcessEvent(lib: Library, raw: string, format: VendorFormat, r1: Readings, r2: Readings, r3: Readings)
    : NetworkActivity
  {
    match ParseWithFormat(lib, raw, format, r1)
    case Ok(a) => a
    case Err(_) => ParseLossless(lib, raw, r2, r3)
  }

  function Moved(st: State, k: nat, pc: Pc): State
    requires k < |st.calls|
  {
    st.(calls := st.calls[k := st.calls[k].(pc := pc)])
  }

  function MineStep(su: Setup, st: State, k: nat, nowMs: int): State
    requires k < |st.calls|
  {
    var input := Input(su.tokenise(st.calls[k].raw), nowMs);
    var (m, r) := AddLog(su.drain, st.miner, input.tokens, nowMs);
    Moved(st, k, if r.isNew then NewCluster(r.clusterId) else Known).(miner := m, mined := st.mined + [input])
  }

  function PromoteStep(su: Setup, st: State, k: nat): State
    requires k < |st.calls| && ShardCount(|st.cache.shards|)
  {
    var raw := st.calls[k].raw;
    var format := su.lib.classify(raw);
    Moved(st, k, Parsing(format)).(
      cache := if format != Unknown then CacheInsert(st.cache, su.lib.signature(raw), format) else st.cache)
  }

  /** `try_send`: never blocks; refused when full, and possibly when the receiver is gone. */
  function OfferStep(su: Setup, st: State, k: nat, accepted: bool): State
    requires k < |st.calls| && st.calls[k].pc.NewCluster?
  {
    var id := st.calls[k].pc.clusterId;
    var u := Moved(st, k, Offered).(offered := st.offered + [id]);
    if !accepted then u
    else if su.queueCapacity == 0 then u.(sent := st.sent + [id], received := st.received + [id])
    else if |st.queue| < su.queueCapacity then u.(sent := st.sent + [id], queue := st.queue + [id])
    else u
  }

  /** One atomic step; a step that is not enabled changes nothing. */
  function Next(su: Setup, st: State, step: Step): (st': State)
    requires ShardCount(|st.cache.shards|)
    ensures |st'.cache.shards| == |st.cache.shards|
  {
    match step
    case Begin(raw) => st.(calls := st.calls + [Call(raw, Entered)], totalEvents := st.totalEvents + 1)
    case Receive =>
      if st.queue == [] then st else st.(queue := st.queue[1..], received := st.received + [st.queue[0]])
    case Advance(k, nowMs, accepted, r1, r2, r3) =>
      if k >= |st.calls| then st
      else
        var raw := st.calls[k].raw;
        match st.calls[k].pc
        case Entered =>
          (match Lookup(st.cache, su.lib.signature(raw))
           case Some(format) => Moved(st, k, Found(format))
           case None => Moved(st, k, Missed))
        case Found(format) => Moved(st, k, Parsing(format)).(cache := st.cache.(hits := st.cache.hits + 1))
        case Missed => Moved(st, k, Unmined).(cache := st.cache.(misses := st.cache.misses + 1))
        case Unmined => MineStep(su, st, k, nowMs)
        case Known => Moved(st, k, Promoting).(tier2Hits := st.tier2Hits + 1)
        case Promoting => PromoteStep(su, st, k)
        case NewCluster(_) => OfferStep(su, st, k, accepted)
        case Offered => Moved(st, k, Unparsed).(dispatches := st.dispatches + 1)
        case Unparsed =>
          Moved(st, k, Returned(ParseLossless(su.lib, raw, r1, r3), su.lib.classify(raw), r1, r2, r3))
        case Parsing(format) =>
          Moved(st, k, Returned(ProcessEvent(su.lib, raw, format, r1, r2, r3), format, r1, r2, r3))
        case Returned(_, _, _, _, _) => st
  }

  function Run(su: Setup, numShards: nat, capacity: nat, steps: seq<Step>): (st: State)
    requires ShardCount(numShards)
    ensures |st.cache.shards| == numShards
  {
    if steps == [] then Start(numShards, capacity)
    else Next(su, Run(su, numShards, capacity, steps[..|steps| - 1]), steps[|steps| - 1])
  }

  // ----- Accounting -----

  /** The call is counted as an event but not yet as a hit, a tier-2 hit or a dispatch. */
  predicate InFlight(pc: Pc) {
    pc.Entered? || pc.Found? || pc.Missed? || pc.Unmined? || pc.Known? || pc.NewCluster? || pc.Offered?
  }

  /** The call started a cluster whose dispatch is not yet counted. */
  predicate Dispatching(pc: Pc) {
    pc.NewCluster? || pc.Offered?
  }

  function CountCalls(calls: seq<Call>, which: Pc -> bool): nat {
    if calls == [] then 0
    else CountCalls(calls[..|calls| - 1], which) + if which(calls[|calls| - 1].pc) then 1 else 0
  }

  lemma {:induction false} CountAfterMove(calls: seq<Call>, k: nat, c: Call, which: Pc -> bool)
    requires k < |calls|
    ensures CountCalls(calls[k := c], which)
      == CountCalls(calls, which) - (if which(calls[k].pc) then 1 else 0) + (if which(c.pc) then 1 else 0)
  {
    var n := |calls| - 1;
    if k == n {
      assert calls[k := c][..n] == calls[..n];
    } else {
      CountAfterMove(calls[..n], k, c, which);
      assert calls[k := c][..n] == calls[..n][k := c];
    }
  }

  lemma CountAfterBegin(calls: seq<Call>, c: Call, which: Pc -> bool)
    ensures CountCalls(calls + [c], which) == CountCalls(calls, which) + if which(c.pc) then 1 else 0
  {
    assert (calls + [c])[..|calls|] == calls;
  }

  predicate Accounted(st: State) {
    && st.totalEvents == st.cache.hits + st.tier2Hits + st.dispatches + CountCalls(st.calls, InFlight)
    && st.miner.nextClusterId == 1 + st.dispatches + CountCalls(st.calls, Dispatching)
  }

  lemma MovedCounts(st: State, k: nat, pc: Pc)
    requires k < |st.calls|
    ensures CountCalls(Moved(st, k, pc).calls, InFlight)
      == CountCalls(st.calls, InFlight)
         - (if InFlight(st.calls[k].pc) then 1 else 0) + (if InFlight(pc) then 1 else 0)
    ensures CountCalls(Moved(st, k, pc).calls, Dispatching)
      == CountCalls(st.calls, Dispatching)
         - (if Dispatching(st.calls[k].pc) then 1 else 0) + (if Dispatching(pc) then 1 else 0)
  {
    var c := st.calls[k].(pc := pc);
    CountAfterMove(st.calls, k, c, InFlight);
    CountAfterMove(st.calls, k, c, Dispatching);
  }

  /** A new cluster takes the next id; nothing else moves the id. */
  lemma MineStepShape(su: Setup, st: State, k: nat, nowMs: int)
    requires k < |st.calls|
    ensures var u := MineStep(su, st, k, nowMs);
      && u == Moved(st, k, u.calls[k].pc).(miner := u.miner, mined := u.mined)
      && (|| (u.calls[k].pc == Known && u.miner.nextClusterId == st.miner.nextClusterId)
          || (u.calls[k].pc == NewCluster(st.miner.nextClusterId)
              && u.miner.nextClusterId == st.miner.nextClusterId + 1))
  {
  }

  lemma AccountedMine(su: Setup, st: State, k: nat, nowMs: int)
    requires Accounted(st) && k < |st.calls| && st.calls[k].pc.Unmined?
    ensures Accounted(MineStep(su, st, k, nowMs))
  {
    MineStepShape(su, st, k, nowMs);
    MovedCounts(st, k, MineStep(su, st, k, nowMs).calls[k].pc);
  }

  lemma AdvanceMoves(su: Setup, st: State, step: Step)
    requires ShardCount(|st.cache.shards|)
    requires step.Advance? && step.k < |st.calls| && !st.calls[step.k].pc.Unmined?
    ensures var u, k := Next(su, st, step), step.k;
      && |u.calls| == |st.calls|
      && u.calls == Moved(st, k, u.calls[k].pc).calls
      && u.miner == st.miner && u.totalEvents == st.totalEvents
  {
  }

  lemma AdvanceDispatches(su: Setup, st: State, step: Step)
    requires ShardCount(|st.cache.shards|)
    requires step.Advance? && step.k < |st.calls| && !st.calls[step.k].pc.Unmined?
    ensures var u, k := Next(su, st, step), step.k;
      && |u.calls| == |st.calls|
      && u.dispatches + (if Dispatching(u.calls[k].pc) then 1 else 0)
         == st.dispatches + (if Dispatching(st.calls[k].pc) then 1 else 0)
  {
  }

  /** Every other advance counts its call exactly when it stops being in flight. */
  lemma AdvanceCounts(su: Setup, st: State, step: Step)
    requires ShardCount(|st.cache.shards|)
    requires step.Advance? && step.k < |st.calls| && !st.calls[step.k].pc.Unmined?
    ensures var u, k := Next(su, st, step), step.k;
      && |u.calls| == |st.calls|
      && u.cache.hits + u.tier2Hits + u.dispatches + (if InFlight(u.calls[k].pc) then 1 else 0)
         == st.cache.hits + st.tier2Hits + st.dispatches + (if InFlight(st.calls[k].pc) then 1 else 0)
  {
  }

  lemma AccountedAdvance(su: Setup, st: State, step: Step)
    requires ShardCount(|st.cache.shards|) && Accounted(st)
    requires step.Advance? && step.k < |st.calls| && !st.calls[step.k].pc.Unmined?
    ensures Accounted(Next(su, st, step))
  {
    var u := Next(su, st, step);
    AdvanceMoves(su, st, step);
    AdvanceDispatches(su, st, step);
    AdvanceCounts(su, st, step);
    MovedCounts(st, step.k, u.calls[step.k].pc);
  }

  lemma AccountedStep(su: Setup, st: State, step: Step)
    requires ShardCount(|st.cache.shards|) && Accounted(st)
    ensures Accounted(Next(su, st, step))
  {
    match step
    case Begin(raw) =>
      CountAfterBegin(st.calls, Call(raw, Entered), InFlight);
      CountAfterBegin(st.calls, Call(raw, Entered), Dispatching);
    case Receive =>
    case Advance(k, nowMs, _, _, _, _) =>
      if k < |st.calls| {
        if st.calls[k].pc.Unmined? { AccountedMine(su, st, k, nowMs); } else { AccountedAdvance(su, st, step); }
      }
  }

  // ----- The miner under its lock -----

  /** Calls from any interleaving are a sequential run of the miner. */
  ghost predicate MinedInOrder(su: Setup, st: State) {
    && st.miner == DrainRuns.Run(su.drain, st.mined).miner
    && st.miner.nextClusterId == 1 + |st.miner.clusters|
  }

  lemma AddKeepsIdCount(cfg: DrainConfig, m: Miner, tokens: Tokens, nowMs: int)
    requires IdsAreConsecutive(m) && m.nextClusterId == 1 + |m.clusters|
    ensures AddLog(cfg, m, tokens, nowMs).0.nextClusterId == 1 + |AddLog(cfg, m, tokens, nowMs).0.clusters|
  {
  }

  lemma MinedMine(su: Setup, st: State, k: nat, nowMs: int)
    requires MinedInOrder(su, st) && k < |st.calls|
    ensures MinedInOrder(su, MineStep(su, st, k, nowMs))
  {
    var input := Input(su.tokenise(st.calls[k].raw), nowMs);
    assert (st.mined + [input])[..|st.mined|] == st.mined;
    DrainRuns.RunInv(su.drain, st.mined);
    AddKeepsIdCount(su.drain, st.miner, input.tokens, nowMs);
  }

  lemma OtherStepsDoNotMine(su: Setup, st: State, step: Step)
    requires ShardCount(|st.cache.shards|)
    requires step.Advance? && step.k < |st.calls| ==> !st.calls[step.k].pc.Unmined?
    ensures Next(su, st, step).miner == st.miner && Next(su, st, step).mined == st.mined
  {
  }

  lemma MinedStep(su: Setup, st: State, step: Step)
    requires ShardCount(|st.cache.shards|) && MinedInOrder(su, st)
    ensures MinedInOrder(su, Next(su, st, step))
  {
    if step.Advance? && step.k < |st.calls| && st.calls[step.k].pc.Unmined? {
      MinedMine(su, st, step.k, step.nowMs);
    } else {
      OtherStepsDoNotMine(su, st, step);
    }
  }

  // ----- Each miss is mined once -----

  predicate AtLock(pc: Pc) {
    pc.Unmined?
  }

  predicate MissesMined(st: State) {
    st.cache.misses == |st.mined| + CountCalls(st.calls, AtLock)
  }

  lemma MissShape(su: Setup, st: State, step: Step)
    requires ShardCount(|st.cache.shards|) && step.Advance? && step.k < |st.calls|
    ensures var u, k := Next(su, st, step), step.k;
      && |u.calls| == |st.calls|
      && u.calls == st.calls[k := st.calls[k].(pc := u.calls[k].pc)]
      && u.cache.misses - |u.mined| - (if AtLock(u.calls[k].pc) then 1 else 0)
         == st.cache.misses - |st.mined| - (if AtLock(st.calls[k].pc) then 1 else 0)
  {
    if st.calls[step.k].pc.Unmined? { MineStepShape(su, st, step.k, step.nowMs); }
  }

  lemma MissesMinedStep(su: Setup, st: State, step: Step)
    requires ShardCount(|st.cache.shards|) && MissesMined(st)
    ensures MissesMined(Next(su, st, step))
  {
    match step
    case Begin(raw) => CountAfterBegin(st.calls, Call(raw, Entered), AtLock);
    case Receive =>
    case Advance(k, _, _, _, _, _) =>
      if k < |st.calls| {
        MissShape(su, st, step);
        CountAfterMove(st.calls, k, st.calls[k].(pc := Next(su, st, step).calls[k].pc), AtLock);
      }
  }

  // ----- The queue -----

  predicate Pending(st: State, k: nat, id: nat) {
    k < |st.calls| && st.calls[k].pc == NewCluster(id)
  }

  /** Cluster ids on their way to the queue are all different, and below the next id. */
  ghost predicate OffersUnique(st: State) {
    && NoRepeats(st.offered)
    && (forall id :: id in st.offered ==> id < st.miner.nextClusterId)
    && (forall k: nat, id: nat :: Pending(st, k, id) ==> id < st.miner.nextClusterId && id !in st.offered)
    && (forall j: nat, k: nat, id: nat :: Pending(st, j, id) && Pending(st, k, id) ==> j == k)
  }

  /** What was accepted is what the worker took followed by what waits, within the capacity. */
  predicate ChannelOk(su: Setup, st: State) {
    && NoRepeats(st.sent)
    && (forall i :: 0 <= i < |st.sent| ==> st.sent[i] in st.offered)
    && st.sent == st.received + st.queue
    && |st.queue| <= su.queueCapacity
  }

  lemma UniqueAfterMine(su: Setup, st: State, k: nat, nowMs: int)
    requires OffersUnique(st) && k < |st.calls|
    ensures OffersUnique(MineStep(su, st, k, nowMs))
  {
    var u := MineStep(su, st, k, nowMs);
    MineStepShape(su, st, k, nowMs);
    assert forall j: nat, id: nat :: j != k && Pending(u, j, id) ==> Pending(st, j, id);
  }

  lemma UniqueAfterOffer(su: Setup, st: State, k: nat, accepted: bool)
    requires OffersUnique(st) && k < |st.calls| && st.calls[k].pc.NewCluster?
    ensures OffersUnique(OfferStep(su, st, k, accepted))
  {
    var u := OfferStep(su, st, k, accepted);
    assert Pending(st, k, st.calls[k].pc.clusterId);
    assert forall j: nat, id: nat :: Pending(u, j, id) ==> j != k && Pending(st, j, id);
  }

  lemma OtherStepsDoNotOffer(su: Setup, st: State, step: Step)
    requires ShardCount(|st.cache.shards|)
    requires step.Advance? && step.k < |st.calls| ==> !st.calls[step.k].pc.Unmined? && !st.calls[step.k].pc.NewCluster?
    ensures Next(su, st, step).offered == st.offered
    ensures forall j: nat, id: nat :: Pending(Next(su, st, step), j, id) ==> Pending(st, j, id)
  {
  }

  lemma OffersUniqueStep(su: Setup, st: State, step: Step)
    requires ShardCount(|st.cache.shards|) && OffersUnique(st)
    ensures OffersUnique(Next(su, st, step))
  {
    if step.Advance? && step.k < |st.calls| && st.calls[step.k].pc.Unmined? {
      UniqueAfterMine(su, st, step.k, step.nowMs);
    } else if step.Advance? && step.k < |st.calls| && st.calls[step.k].pc.NewCluster? {
      UniqueAfterOffer(su, st, step.k, step.accepted);
    } else {
      OtherStepsDoNotMine(su, st, step);
      OtherStepsDoNotOffer(su, st, step);
    }
  }

  lemma ChannelAfterOffer(su: Setup, st: State, k: nat, accepted: bool)
    requires OffersUnique(st) && ChannelOk(su, st) && k < |st.calls| && st.calls[k].pc.NewCluster?
    ensures ChannelOk(su, OfferStep(su, st, k, accepted))
  {
    assert Pending(st, k, st.calls[k].pc.clusterId);
  }

  lemma {:induction false} ChannelStep(su: Setup, st: State, step: Step)
    requires ShardCount(|st.cache.shards|) && OffersUnique(st) && ChannelOk(su, st)
    ensures ChannelOk(su, Next(su, st, step))
  {
    if step.Advance? && step.k < |st.calls| && st.calls[step.k].pc.NewCluster? {
      ChannelAfterOffer(su, st, step.k, step.accepted);
    }
  }

  // ----- The formats -----

  function Raws(calls: seq<Call>): (raws: seq<string>)
    ensures |raws| == |calls|
  {
    seq(|calls|, i requires 0 <= i < |calls| => calls[i].raw)
  }

  /** A log the miner can meet again: it has no tokens, or a full match reaches the threshold. */
  predicate Promotable(su: Setup, raw: string) {
    su.tokenise(raw) == [] || su.drain.similarityThreshold <= 1.0
  }

  /** The logs begun whose formats may come to be cached. */
  function Promotables(su: Setup, raws: seq<string>): seq<string> {
    if raws == [] then []
    else
      var raw := raws[|raws| - 1];
      Promotables(su, raws[..|raws| - 1]) + if Promotable(su, raw) then [raw] else []
  }

  function Seen(su: Setup, st: State): seq<string> {
    Promotables(su, Raws(st.calls))
  }

  lemma {:induction false} PromotableListed(su: Setup, raws: seq<string>, raw: string)
    ensures raw in Promotables(su, raws) <==> raw in raws && Promotable(su, raw)
  {
    if raws == [] {
    } else {
      var n := |raws| - 1;
      PromotableListed(su, raws[..n], raw);
      assert raws == raws[..n] + [raws[n]];
    }
  }

  /** The format a call works with: its log's own, or that of an earlier log of the same signature. */
  predicate FormatOk(lib: Library, raw: string, format: VendorFormat, seen: seq<string>) {
    format == lib.classify(raw) || Justified(lib, lib.signature(raw), format, seen)
  }

  predicate CallOk(su: Setup, c: Call, seen: seq<string>) {
    var lib := su.lib;
    match c.pc
    case Known => Promotable(su, c.raw)
    case Promoting => Promotable(su, c.raw)
    case Found(format) => Justified(lib, lib.signature(c.raw), format, seen)
    case Parsing(format) => FormatOk(lib, c.raw, format, seen)
    case Returned(event, format, r1, r2, r3) =>
      FormatOk(lib, c.raw, format, seen) && event == ProcessEvent(lib, c.raw, format, r1, r2, r3)
    case _ => true
  }

  ghost predicate FormatsOk(su: Setup, st: State) {
    && CacheJustified(su.lib, st.cache, Seen(su, st))
    && forall k :: 0 <= k < |st.calls| ==> CallOk(su, st.calls[k], Seen(su, st))
  }

  lemma CallOkGrows(su: Setup, c: Call, seen: seq<string>, raw: string)
    requires CallOk(su, c, seen)
    ensures CallOk(su, c, seen + [raw])
  {
    var lib := su.lib;
    match c.pc
    case Found(format) => JustifiedGrows(lib, lib.signature(c.raw), format, seen, raw);
    case Parsing(format) =>
      if format != lib.classify(c.raw) { JustifiedGrows(lib, lib.signature(c.raw), format, seen, raw); }
    case Returned(_, format, _, _, _) =>
      if format != lib.classify(c.raw) { JustifiedGrows(lib, lib.signature(c.raw), format, seen, raw); }
    case _ =>
  }

  /** With the log's own format, processing is plain lossless parsing: the second try fails like the first. */
  lemma ProcessOwnFormat(lib: Library, raw: string, r1: Readings, r2: Readings, r3: Readings)
    ensures ProcessEvent(lib, raw, lib.classify(raw), r1, r2, r3) == ParseLossless(lib, raw, r1, r3)
  {
  }

  lemma FormatsAfterBegin(su: Setup, st: State, raw: string)
    requires ShardCount(|st.cache.shards|) && FormatsOk(su, st)
    ensures FormatsOk(su, Next(su, st, Begin(raw)))
  {
    var st' := Next(su, st, Begin(raw));
    assert Raws(st'.calls) == Raws(st.calls) + [raw];
    assert Raws(st'.calls)[..|st.calls|] == Raws(st.calls);
    if Promotable(su, raw) {
      assert Seen(su, st') == Seen(su, st) + [raw];
      CacheJustifiedGrows(su.lib, st.cache, Seen(su, st), raw);
      forall k | 0 <= k < |st.calls| ensures CallOk(su, st.calls[k], Seen(su, st')) {
        CallOkGrows(su, st.calls[k], Seen(su, st), raw);
      }
    } else {
      assert Seen(su, st') == Seen(su, st);
    }
    assert forall k :: 0 <= k < |st.calls| ==> st'.calls[k] == st.calls[k];
  }

  lemma CacheAfterAdvance(su: Setup, st: State, step: Step)
    requires step.Advance? && step.k < |st.calls|
    requires ShardCount(|st.cache.shards|) && FormatsOk(su, st)
    ensures CacheJustified(su.lib, Next(su, st, step).cache, Seen(su, st))
  {
    var c := st.calls[step.k];
    var format := su.lib.classify(c.raw);
    assert CallOk(su, c, Seen(su, st));
    if c.pc.Promoting? && format != Unknown {
      assert Raws(st.calls)[step.k] == c.raw;
      PromotableListed(su, Raws(st.calls), c.raw);
      assert Justified(su.lib, su.lib.signature(c.raw), format, Seen(su, st));
      InsertKeepsJustified(su.lib, st.cache, Seen(su, st), su.lib.signature(c.raw), format);
    }
  }

  /** Only a log without tokens, or one the threshold admits, is met again. */
  lemma MetAgainIsPromotable(su: Setup, st: State, k: nat, nowMs: int)
    requires k < |st.calls| && MineStep(su, st, k, nowMs).calls[k].pc.Known?
    ensures Promotable(su, st.calls[k].raw)
  {
    var tokens := su.tokenise(st.calls[k].raw);
    if tokens != [] {
      FindIsBestCandidate(su.drain, st.miner, tokens);
      BestIsCandidate(su.drain, st.miner.clusters, Candidates(su.drain, st.miner.root, tokens), tokens);
    }
  }

  lemma CallAfterAdvance(su: Setup, st: State, step: Step)
    requires step.Advance? && step.k < |st.calls|
    requires ShardCount(|st.cache.shards|) && FormatsOk(su, st)
    ensures CallOk(su, Next(su, st, step).calls[step.k], Seen(su, st))
  {
    var c := st.calls[step.k];
    assert CallOk(su, c, Seen(su, st));
    if c.pc.Entered? && Lookup(st.cache, su.lib.signature(c.raw)).Some? {
      var key := su.lib.signature(c.raw);
      var i := ShardIndex(key, |st.cache.shards|);
      assert Justified(su.lib, key, st.cache.shards[i].entries[key], Seen(su, st));
    } else if c.pc.Unmined? {
      if MineStep(su, st, step.k, step.nowMs).calls[step.k].pc.Known? {
        MetAgainIsPromotable(su, st, step.k, step.nowMs);
      }
    } else if c.pc.Unparsed? {
      ProcessOwnFormat(su.lib, c.raw, step.r1, step.r2, step.r3);
    }
  }

  lemma CallsAfterAdvance(su: Setup, st: State, step: Step)
    requires step.Advance? && step.k < |st.calls| && ShardCount(|st.cache.shards|)
    ensures var u := Next(su, st, step);
      |u.calls| == |st.calls| && u.calls == Moved(st, step.k, u.calls[step.k].pc).calls
  {
  }

  lemma FormatsAfterAdvance(su: Setup, st: State, step: Step)
    requires step.Advance? && step.k < |st.calls|
    requires ShardCount(|st.cache.shards|) && FormatsOk(su, st)
    ensures FormatsOk(su, Next(su, st, step))
  {
    var u, k := Next(su, st, step), step.k;
    CallsAfterAdvance(su, st, step);
    assert Raws(u.calls) == Raws(st.calls);
    CacheAfterAdvance(su, st, step);
    CallAfterAdvance(su, st, step);
  }

  lemma FormatsStep(su: Setup, st: State, step: Step)
    requires ShardCount(|st.cache.shards|) && FormatsOk(su, st)
    ensures FormatsOk(su, Next(su, st, step))
  {
    match step
    case Begin(raw) => FormatsAfterBegin(su, st, raw);
    case Receive =>
    case Advance(k, _, _, _, _, _) => if k < |st.calls| { FormatsAfterAdvance(su, st, step); }
  }

  // ----- Every reachable state -----

  ghost predicate Inv(su: Setup, st: State) {
    && Accounted(st)
    && MinedInOrder(su, st)
    && MissesMined(st)
    && OffersUnique(st)
    && ChannelOk(su, st)
    && FormatsOk(su, st)
  }

  lemma {:induction false} RunInv(su: Setup, numShards: nat, capacity: nat, steps: seq<Step>)
    requires ShardCount(numShards)
    ensures Inv(su, Run(su, numShards, capacity, steps))
  {
    if steps == [] {
    } else {
      var before, step := steps[..|steps| - 1], steps[|steps| - 1];
      RunInv(su, numShards, capacity, before);
      var st := Run(su, numShards, capacity, before);
      AccountedStep(su, st, step);
      MinedStep(su, st, step);
      MissesMinedStep(su, st, step);
      OffersUniqueStep(su, st, step);
      ChannelStep(su, st, step);
      FormatsStep(su, st, step);
    }
  }

  lemma {:induction false} DispatchingIsInFlight(calls: seq<Call>)
    ensures CountCalls(calls, Dispatching) <= CountCalls(calls, InFlight)
  {
    if calls == [] {
    } else {
      DispatchingIsInFlight(calls[..|calls| - 1]);
    }
  }

  /** Every event is a hit, a tier-2 hit, a dispatch or in flight; at rest dispatches are the clusters. */
  lemma {:induction false} Accounting(su: Setup, numShards: nat, capacity: nat, steps: seq<Step>)
    requires ShardCount(numShards)
    ensures var st := Run(su, numShards, capacity, steps);
      && st.totalEvents == st.cache.hits + st.tier2Hits + st.dispatches + CountCalls(st.calls, InFlight)
      && |st.miner.clusters| == st.dispatches + CountCalls(st.calls, Dispatching)
      && (CountCalls(st.calls, InFlight) == 0 ==> st.dispatches == |st.miner.clusters|)
  {
    RunInv(su, numShards, capacity, steps);
    DispatchingIsInFlight(Run(su, numShards, capacity, steps).calls);
  }

  /** No cluster id is offered to the queue twice, however many offers are dropped. */
  lemma EachClusterQueuedOnce(su: Setup, numShards: nat, capacity: nat, steps: seq<Step>)
    requires ShardCount(numShards)
    ensures var st := Run(su, numShards, capacity, steps);
      && NoRepeats(st.offered) && NoRepeats(st.sent)
      && st.sent == st.received + st.queue && |st.queue| <= su.queueCapacity
      && forall id :: id in st.offered ==> id < st.miner.nextClusterId
  {
    RunInv(su, numShards, capacity, steps);
  }

  /**
   The miner's state is that of a sequential run with one log for each counted miss whose call has been
   through the lock: what holds of sequential runs holds under every interleaving, and no miss is mined twice.
   */
  lemma {:induction false} MinerIsSequential(su: Setup, numShards: nat, capacity: nat, steps: seq<Step>)
    requires ShardCount(numShards)
    ensures var st := Run(su, numShards, capacity, steps);
      && st.miner == DrainRuns.Run(su.drain, st.mined).miner
      && st.cache.misses == |st.mined| + CountCalls(st.calls, AtLock)
  {
    RunInv(su, numShards, capacity, steps);
  }

  /** Any cached format is known and classifies some log already begun, of that signature, that can be met again. */
  lemma CachedFormatsJustified(su: Setup, numShards: nat, capacity: nat, steps: seq<Step>, key: nat)
    requires ShardCount(numShards)
    requires Lookup(Run(su, numShards, capacity, steps).cache, key).Some?
    ensures var st := Run(su, numShards, capacity, steps);
      && Justified(su.lib, key, Lookup(st.cache, key).value, Seen(su, st))
      && forall raw :: raw in Seen(su, st) <==> raw in Raws(st.calls) && Promotable(su, raw)
  {
    RunInv(su, numShards, capacity, steps);
    var st := Run(su, numShards, capacity, steps);
    forall raw ensures raw in Seen(su, st) <==> raw in Raws(st.calls) && Promotable(su, raw) {
      PromotableListed(su, Raws(st.calls), raw);
    }
  }

  /** When signatures tell formats apart, every call returns what plain lossless parsing returns. */
  lemma ProcessRefinesLossless(su: Setup, numShards: nat, capacity: nat, steps: seq<Step>, k: nat)
    requires ShardCount(numShards) && SignatureTellsFormat(su.lib)
    requires k < |Run(su, numShards, capacity, steps).calls|
    requires Run(su, numShards, capacity, steps).calls[k].pc.Returned?
    ensures var c := Run(su, numShards, capacity, steps).calls[k];
      c.pc.event == ParseLossless(su.lib, c.raw, c.pc.r1, c.pc.r3)
  {
    RunInv(su, numShards, capacity, steps);
    var st := Run(su, numShards, capacity, steps);
    var c := st.calls[k];
    assert CallOk(su, c, Seen(su, st));
    assert c.pc.format == su.lib.classify(c.raw);
    ProcessOwnFormat(su.lib, c.raw, c.pc.r1, c.pc.r2, c.pc.r3);
  }
}
