/**
 Whole runs of the integrity plane: every sequence of pushes, timeouts, flushes with any write
 outcome, and restarts, from an empty disk.
 */
module LedgerRuns {
  import opened Auditor
  import opened Batcher
  import opened Digests
  import opened MerkleSoundness
  import opened MerkleSpec
  import opened Options
  import opened Storage

  datatype Event =
    | Push(log: IncomingLog, env: Env)
    | CheckTimeout(env: Env)
    | Flush(env: Env)
    | Restart

  /** What became of a piece of the input: a block with a ledger line on disk, or lost. */
  datatype Fate = Committed(entry: LedgerEntry, logs: seq<IncomingLog>) | Lost(logs: seq<IncomingLog>)

  datatype Trace = Trace(plane: Plane, fates: seq<Fate>)

  function FlushFate(H: HashFn, p: Plane, env: Env): seq<Fate> {
    if p.buffer == [] then []
    else if env.outcome == Written || env.outcome == SyncFailed then
      [Committed(EntryFor(H, p.buffer, p.currentBlockId, env), p.buffer)]
    else [Lost(p.buffer)]
  }

  function AfterFlush(H: HashFn, t: Trace, env: Env): Trace {
    Trace(FlushStep(H, t.plane, env), t.fates + FlushFate(H, t.plane, env))
  }

  /** The plane moves by the functions the accumulator's methods are proved against; the fates keep account. */
  function Step(cfg: BatcherConfig, H: HashFn, t: Trace, e: Event): Trace {
    match e
    case Push(log, env) =>
      var q := Ingested(t.plane, log, env.arrived);
      Trace(PushStep(cfg, H, t.plane, log, env),
            if ShouldFlush(cfg, q, env.checked) then t.fates + FlushFate(H, q, env) else t.fates)
    case CheckTimeout(env) =>
      var due := t.plane.buffer != [] && TimedOut(cfg, t.plane, env.checked);
      Trace(TimeoutStep(cfg, H, t.plane, env), if due then t.fates + FlushFate(H, t.plane, env) else t.fates)
    case Flush(env) => Trace(FlushStep(H, t.plane, env), t.fates + FlushFate(H, t.plane, env))
    case Restart =>
      Trace(RestartStep(t.plane), if t.plane.buffer == [] then t.fates else t.fates + [Lost(t.plane.buffer)])
  }

  const START := Trace(Plane([], None, 0, [], [], map[]), [])

  function Run(cfg: BatcherConfig, H: HashFn, events: seq<Event>): Trace {
    if events == [] then START
    else Step(cfg, H, Run(cfg, H, events[..|events| - 1]), events[|events| - 1])
  }

  // ----- Conservation -----

  function FateLogs(fates: seq<Fate>): seq<IncomingLog> {
    if fates == [] then [] else FateLogs(fates[..|fates| - 1]) + fates[|fates| - 1].logs
  }

  lemma FateLogsAppend(fates: seq<Fate>, f: Fate)
    ensures FateLogs(fates + [f]) == FateLogs(fates) + f.logs
  {
    assert (fates + [f])[..|fates|] == fates;
  }

  function Pushed(events: seq<Event>): seq<IncomingLog> {
    if events == [] then []
    else
      var e := events[|events| - 1];
      Pushed(events[..|events| - 1]) + (if e.Push? then [e.log] else [])
  }

  lemma FlushConserves(H: HashFn, t: Trace, env: Env)
    ensures var u := AfterFlush(H, t, env);
      FateLogs(u.fates) + u.plane.buffer == FateLogs(t.fates) + t.plane.buffer
  {
    if t.plane.buffer == [] {
      assert t.fates + FlushFate(H, t.plane, env) == t.fates;
    } else {
      FateLogsAppend(t.fates, FlushFate(H, t.plane, env)[0]);
    }
  }

  lemma StepConserves(cfg: BatcherConfig, H: HashFn, t: Trace, e: Event)
    ensures var u := Step(cfg, H, t, e);
      FateLogs(u.fates) + u.plane.buffer == FateLogs(t.fates) + t.plane.buffer + (if e.Push? then [e.log] else [])
  {
    match e
    case Push(log, env) =>
      assert FateLogs(t.fates) + (t.plane.buffer + [log]) == FateLogs(t.fates) + t.plane.buffer + [log];
      FlushConserves(H, Trace(Ingested(t.plane, log, env.arrived), t.fates), env);
    case CheckTimeout(env) => FlushConserves(H, t, env);
    case Flush(env) => FlushConserves(H, t, env);
    case Restart =>
      if t.plane.buffer != [] { FateLogsAppend(t.fates, Lost(t.plane.buffer)); }
  }

  /** No log is dropped, duplicated or reordered silently: fates and buffer make up what was pushed. */
  lemma {:induction false} Conservation(cfg: BatcherConfig, H: HashFn, events: seq<Event>)
    ensures var t := Run(cfg, H, events);
      FateLogs(t.fates) + t.plane.buffer == Pushed(events)
  {
    if events == [] {
    } else {
      var before, e := events[..|events| - 1], events[|events| - 1];
      Conservation(cfg, H, before);
      StepConserves(cfg, H, Run(cfg, H, before), e);
    }
  }

  // ----- When something is lost, and when memory falls behind -----

  /** The step writes: it meets a non-empty buffer and a reason to flush it. */
  predicate Flushes(cfg: BatcherConfig, p: Plane, e: Event) {
    match e
    case Push(log, env) => ShouldFlush(cfg, Ingested(p, log, env.arrived), env.checked)
    case CheckTimeout(env) => p.buffer != [] && TimedOut(cfg, p, env.checked)
    case Flush(_) => p.buffer != []
    case Restart => false
  }

  /** A flush whose block or ledger line does not reach the disk, or a restart on a non-empty buffer. */
  predicate Loses(cfg: BatcherConfig, p: Plane, e: Event) {
    if e.Restart? then p.buffer != []
    else Flushes(cfg, p, e) && (e.env.outcome.BlockFailed? || e.env.outcome == AppendFailed)
  }

  /** Whether step `k` of the run loses logs. */
  predicate LosesAt(cfg: BatcherConfig, H: HashFn, events: seq<Event>, k: nat)
    requires k < |events|
  {
    Loses(cfg, Run(cfg, H, events[..k]).plane, events[k])
  }

  predicate AllCommitted(fates: seq<Fate>) {
    forall i :: 0 <= i < |fates| ==> fates[i].Committed?
  }

  lemma AllCommittedAppend(fates: seq<Fate>, more: seq<Fate>)
    ensures AllCommitted(fates + more) <==> AllCommitted(fates) && AllCommitted(more)
  {
    if AllCommitted(fates + more) {
      assert forall i :: 0 <= i < |fates| ==> fates[i] == (fates + more)[i];
      assert forall i :: 0 <= i < |more| ==> more[i] == (fates + more)[|fates| + i];
    }
  }

  lemma FlushCommits(H: HashFn, t: Trace, env: Env)
    ensures AllCommitted(AfterFlush(H, t, env).fates) <==>
      AllCommitted(t.fates)
      && (t.plane.buffer == [] || !(env.outcome.BlockFailed? || env.outcome == AppendFailed))
  {
    var fate := FlushFate(H, t.plane, env);
    AllCommittedAppend(t.fates, fate);
    if fate != [] { assert fate[0].Committed? <==> AllCommitted(fate); }
  }

  lemma StepCommits(cfg: BatcherConfig, H: HashFn, t: Trace, e: Event)
    ensures AllCommitted(Step(cfg, H, t, e).fates) <==> AllCommitted(t.fates) && !Loses(cfg, t.plane, e)
  {
    match e
    case Push(log, env) => FlushCommits(H, Trace(Ingested(t.plane, log, env.arrived), t.fates), env);
    case CheckTimeout(env) => FlushCommits(H, t, env);
    case Flush(env) => FlushCommits(H, t, env);
    case Restart =>
      AllCommittedAppend(t.fates, [Lost(t.plane.buffer)]);
      assert ![Lost(t.plane.buffer)][0].Committed?;
  }

  lemma LosesAtInPrefix(cfg: BatcherConfig, H: HashFn, events: seq<Event>, n: nat, k: nat)
    requires k < n <= |events|
    ensures LosesAt(cfg, H, events[..n], k) <==> LosesAt(cfg, H, events, k)
  {
    assert events[..n][..k] == events[..k];
  }

  /** Every fate is a committed block exactly when no step of the run loses logs. */
  lemma {:induction false} NothingLost(cfg: BatcherConfig, H: HashFn, events: seq<Event>)
    ensures AllCommitted(Run(cfg, H, events).fates)
       <==> forall k :: 0 <= k < |events| ==> !LosesAt(cfg, H, events, k)
  {
    if events == [] {
    } else {
      var n := |events| - 1;
      var before := events[..n];
      NothingLost(cfg, H, before);
      StepCommits(cfg, H, Run(cfg, H, before), events[n]);
      forall k | 0 <= k < n ensures LosesAt(cfg, H, before, k) <==> LosesAt(cfg, H, events, k) {
        LosesAtInPrefix(cfg, H, events, n, k);
      }
      assert LosesAt(cfg, H, events, n) <==> Loses(cfg, Run(cfg, H, before).plane, events[n]);
    }
  }

  /** The step appends a ledger line and then fails its sync: the line is on disk and not in memory. */
  predicate SyncFails(cfg: BatcherConfig, p: Plane, e: Event) {
    Flushes(cfg, p, e) && e.env.outcome == SyncFailed
  }

  /** No flush since the last restart, or since the start, failed its sync. */
  predicate SyncedSinceRestart(cfg: BatcherConfig, H: HashFn, events: seq<Event>) {
    || events == []
    || (var n := |events| - 1;
        || events[n].Restart?
        || (&& SyncedSinceRestart(cfg, H, events[..n])
            && !SyncFails(cfg, Run(cfg, H, events[..n]).plane, events[n])))
  }

  lemma LedgersExtended<T>(a: seq<T>, b: seq<T>, x: T)
    requires |a| <= |b|
    ensures a + [x] == b + [x] <==> a == b
    ensures a != b + [x]
  {
    if a + [x] == b + [x] {
      assert a == (a + [x])[..|a|] && b == (b + [x])[..|b|];
    }
  }

  lemma StepLedgers(cfg: BatcherConfig, H: HashFn, t: Trace, e: Event)
    requires |t.plane.inMemoryLedger| <= |t.plane.diskLedger|
    ensures var p, q := t.plane, Step(cfg, H, t, e).plane;
      && |q.inMemoryLedger| <= |q.diskLedger|
      && (q.inMemoryLedger == q.diskLedger <==>
          e.Restart? || (p.inMemoryLedger == p.diskLedger && !SyncFails(cfg, p, e)))
  {
    var p, q := t.plane, Step(cfg, H, t, e).plane;
    if !e.Restart? && Flushes(cfg, p, e) {
      var buffer := if e.Push? then p.buffer + [e.log] else p.buffer;
      LedgersExtended(p.inMemoryLedger, p.diskLedger, EntryFor(H, buffer, p.currentBlockId, e.env));
    }
  }

  /** The ledger in memory is the ledger on disk exactly when no flush since the last restart failed its sync. */
  lemma {:induction false} MemoryIsDiskExact(cfg: BatcherConfig, H: HashFn, events: seq<Event>)
    ensures var p := Run(cfg, H, events).plane;
      && |p.inMemoryLedger| <= |p.diskLedger|
      && (p.inMemoryLedger == p.diskLedger <==> SyncedSinceRestart(cfg, H, events))
  {
    if events == [] {
    } else {
      var before := events[..|events| - 1];
      MemoryIsDiskExact(cfg, H, before);
      StepLedgers(cfg, H, Run(cfg, H, before), events[|events| - 1]);
    }
  }

  /** The two do differ: one push that fills a batch of one, with a failed sync, for any log. */
  lemma MemoryBehindDisk(H: HashFn, log: IncomingLog, env: Env, maxDurationMs: nat)
    requires env.outcome == SyncFailed
    ensures var p := Run(BatcherConfig(1, maxDurationMs), H, [Push(log, env)]).plane;
      p.inMemoryLedger == [] && p.diskLedger == [EntryFor(H, [log], 0, env)]
  {
    var cfg, events := BatcherConfig(1, maxDurationMs), [Push(log, env)];
    assert events[..0] == [];
    assert Run(cfg, H, events) == Step(cfg, H, START, Push(log, env));
    assert START.plane.buffer + [log] == [log];
  }

  // ----- The invariant of every reachable trace -----

  function LedgerOf(fates: seq<Fate>): seq<LedgerEntry> {
    if fates == [] then []
    else
      var f := fates[|fates| - 1];
      LedgerOf(fates[..|fates| - 1]) + (if f.Committed? then [f.entry] else [])
  }

  lemma LedgerOfAppend(fates: seq<Fate>, f: Fate)
    ensures LedgerOf(fates + [f]) == LedgerOf(fates) + if f.Committed? then [f.entry] else []
  {
    assert (fates + [f])[..|fates|] == fates;
  }

  predicate Increasing(ledger: seq<LedgerEntry>, bound: nat) {
    && (forall i, j :: 0 <= i < j < |ledger| ==> ledger[i].blockId < ledger[j].blockId)
    && (forall i :: 0 <= i < |ledger| ==> ledger[i].blockId < bound)
  }

  predicate Subsequence<T(==)>(a: seq<T>, b: seq<T>) {
    || a == []
    || (&& b != []
        && (|| (a[|a| - 1] == b[|b| - 1] && Subsequence(a[..|a| - 1], b[..|b| - 1]))
            || Subsequence(a, b[..|b| - 1])))
  }

  lemma {:induction false} SubsequenceOfSelf<T>(a: seq<T>)
    ensures Subsequence(a, a)
  {
    if a == [] {
    } else {
      SubsequenceOfSelf(a[..|a| - 1]);
    }
  }

  lemma SubsequenceGrows<T>(a: seq<T>, b: seq<T>, x: T)
    requires Subsequence(a, b)
    ensures Subsequence(a, b + [x]) && Subsequence(a + [x], b + [x])
  {
    assert (a + [x])[..|a|] == a && (b + [x])[..|b|] == b;
  }

  function MaxRows(cfg: BatcherConfig): nat {
    if cfg.maxBatchSize == 0 then 1 else cfg.maxBatchSize
  }

  /** What is stored of a log: its own id, time and event text where it has them; the write's time otherwise. */
  predicate RowCarries(H: HashFn, row: StoredLogRecord, log: IncomingLog, i: nat, entry: LedgerEntry) {
    && row.rawLog == log.rawLog && row.vendor == log.vendor && row.rawHash == Hex(H(log.rawLog))
    && row.blockId == entry.blockId && row.leafIndex == i % 0x1_0000_0000
    && (log.eventId.Some? ==> row.eventId == log.eventId.value)
    && row.timestamp == (if log.timestamp.Some? then log.timestamp.value else entry.timestamp)
    && row.ocsfJson == (if log.ocsfJson.Some? then log.ocsfJson.value else "{}")
  }

  predicate RowsCarry(H: HashFn, rows: seq<StoredLogRecord>, logs: seq<IncomingLog>, entry: LedgerEntry) {
    |rows| == |logs| && forall i :: 0 <= i < |rows| ==> RowCarries(H, rows[i], logs[i], i, entry)
  }

  /** The file of a committed block is there and holds that block's logs, fit for its ledger line. */
  predicate Backed(cfg: BatcherConfig, H: HashFn, f: Fate, files: map<string, FileState>)
    requires f.Committed?
  {
    && 1 <= |f.logs| <= MaxRows(cfg)
    && f.entry.merkleRoot == Hex(Mth(H, RawOf(f.logs)))
    && f.entry.parquetFile == BlockFileName(f.entry.blockId)
    && f.entry.parquetFile in files
    && files[f.entry.parquetFile].Complete?
    && files[f.entry.parquetFile].batch.WellFormed()
    && (var rows := RowsOf(files[f.entry.parquetFile].batch);
        && RawLogs(rows) == RawOf(f.logs)
        && Untampered(H, rows, f.entry)
        && rows[0].blockId == f.entry.blockId
        && RowsCarry(H, rows, f.logs, f.entry))
  }

  predicate AllBacked(cfg: BatcherConfig, H: HashFn, t: Trace) {
    forall i :: 0 <= i < |t.fates| && t.fates[i].Committed? ==> Backed(cfg, H, t.fates[i], t.plane.files)
  }

  predicate LedgerInOrder(p: Plane) {
    Increasing(p.diskLedger, p.currentBlockId) && Subsequence(p.inMemoryLedger, p.diskLedger)
  }

  predicate IdsBelow(fates: seq<Fate>, bound: nat) {
    forall i :: 0 <= i < |fates| && fates[i].Committed? ==> fates[i].entry.blockId < bound
  }

  /** The buffer between two calls: below the size that would have flushed it, and timed iff non-empty. */
  predicate BufferOk(cfg: BatcherConfig, p: Plane) {
    |p.buffer| < MaxRows(cfg) && (p.firstItemTime.Some? <==> p.buffer != [])
  }

  predicate Inv(cfg: BatcherConfig, H: HashFn, t: Trace) {
    && BufferOk(cfg, t.plane)
    && LedgerInOrder(t.plane)
    && LedgerOf(t.fates) == t.plane.diskLedger
    && IdsBelow(t.fates, t.plane.currentBlockId)
    && AllBacked(cfg, H, t)
  }

  lemma NewBlockBacked(cfg: BatcherConfig, H: HashFn, p: Plane, env: Env)
    requires 1 <= |p.buffer| <= MaxRows(cfg) && !env.outcome.BlockFailed?
    ensures Backed(cfg, H, Committed(EntryFor(H, p.buffer, p.currentBlockId, env), p.buffer), FilesAfter(H, p, env))
  {
    var stored := StoredRecords(H, p.buffer, p.currentBlockId, env);
    RowsOfBatchOf(stored);
    assert RawLogs(stored) == RawOf(p.buffer);
  }

  lemma OldBlockStaysBacked(cfg: BatcherConfig, H: HashFn, f: Fate, p: Plane, env: Env)
    requires f.Committed? && f.entry.blockId < p.currentBlockId && Backed(cfg, H, f, p.files)
    ensures Backed(cfg, H, f, FilesAfter(H, p, env))
  {
    if BlockFileName(p.currentBlockId) == f.entry.parquetFile {
      BlockFileNameInjective(p.currentBlockId, f.entry.blockId);
    }
    assert f.entry.parquetFile != BlockFileName(p.currentBlockId);
  }

  lemma FlushKeepsBacked(cfg: BatcherConfig, H: HashFn, t: Trace, env: Env)
    requires 1 <= |t.plane.buffer| <= MaxRows(cfg)
    requires IdsBelow(t.fates, t.plane.currentBlockId) && AllBacked(cfg, H, t)
    ensures AllBacked(cfg, H, AfterFlush(H, t, env))
  {
    var u := AfterFlush(H, t, env);
    forall i | 0 <= i < |u.fates| && u.fates[i].Committed? ensures Backed(cfg, H, u.fates[i], u.plane.files) {
      if i < |t.fates| {
        OldBlockStaysBacked(cfg, H, t.fates[i], t.plane, env);
      } else {
        NewBlockBacked(cfg, H, t.plane, env);
      }
    }
  }

  lemma IncreasingGrows(ledger: seq<LedgerEntry>, entry: LedgerEntry)
    requires Increasing(ledger, entry.blockId)
    ensures Increasing(ledger, entry.blockId + 1) && Increasing(ledger + [entry], entry.blockId + 1)
  {
  }

  lemma FlushKeepsOrder(H: HashFn, p: Plane, env: Env)
    requires p.buffer != [] && LedgerInOrder(p)
    ensures LedgerInOrder(FlushStep(H, p, env))
  {
    var entry := EntryFor(H, p.buffer, p.currentBlockId, env);
    SubsequenceGrows(p.inMemoryLedger, p.diskLedger, entry);
    IncreasingGrows(p.diskLedger, entry);
  }

  lemma {:induction false} FlushKeepsInv(cfg: BatcherConfig, H: HashFn, t: Trace, env: Env)
    requires |t.plane.buffer| <= MaxRows(cfg)
    requires t.plane.buffer == [] ==> BufferOk(cfg, t.plane)
    requires LedgerInOrder(t.plane) && LedgerOf(t.fates) == t.plane.diskLedger
    requires IdsBelow(t.fates, t.plane.currentBlockId) && AllBacked(cfg, H, t)
    ensures Inv(cfg, H, AfterFlush(H, t, env))
  {
    if t.plane.buffer == [] {
      assert t.fates + FlushFate(H, t.plane, env) == t.fates;
    } else {
      FlushKeepsOrder(H, t.plane, env);
      FlushKeepsBacked(cfg, H, t, env);
      LedgerOfAppend(t.fates, FlushFate(H, t.plane, env)[0]);
    }
  }

  lemma {:induction false} LedgerIdsBelow(fates: seq<Fate>, bound: nat)
    requires forall i :: 0 <= i < |LedgerOf(fates)| ==> LedgerOf(fates)[i].blockId < bound
    ensures IdsBelow(fates, bound)
  {
    if fates == [] {
    } else {
      var n := |fates| - 1;
      var shorter := LedgerOf(fates[..n]);
      assert forall i :: 0 <= i < |shorter| ==> shorter[i] == LedgerOf(fates)[i];
      LedgerIdsBelow(fates[..n], bound);
      assert fates == fates[..n] + [fates[n]];
      if fates[n].Committed? {
        assert fates[n].entry == LedgerOf(fates)[|shorter|];
      }
    }
  }

  lemma RestartKeepsOrder(p: Plane)
    requires LedgerInOrder(p)
    ensures LedgerInOrder(RestartStep(p))
  {
    SubsequenceOfSelf(p.diskLedger);
    assert Increasing(p.diskLedger, NextBlockId(p.diskLedger));
  }

  lemma LostKeepsBacked(cfg: BatcherConfig, H: HashFn, t: Trace, u: Trace)
    requires AllBacked(cfg, H, t) && u.plane.files == t.plane.files
    requires exists logs :: u.fates == t.fates + [Lost(logs)]
    ensures AllBacked(cfg, H, u) && LedgerOf(u.fates) == LedgerOf(t.fates)
  {
    var logs :| u.fates == t.fates + [Lost(logs)];
    LedgerOfAppend(t.fates, Lost(logs));
  }

  lemma RestartKeepsInv(cfg: BatcherConfig, H: HashFn, t: Trace)
    requires Inv(cfg, H, t)
    ensures Inv(cfg, H, Step(cfg, H, t, Restart))
  {
    var u := Step(cfg, H, t, Restart);
    RestartKeepsOrder(t.plane);
    if t.plane.buffer != [] { LostKeepsBacked(cfg, H, t, u); }
    LedgerIdsBelow(u.fates, NextBlockId(t.plane.diskLedger));
  }

  /** One step of any kind keeps the invariant. */
  lemma {:induction false} StepKeepsInv(cfg: BatcherConfig, H: HashFn, t: Trace, e: Event)
    requires Inv(cfg, H, t)
    ensures Inv(cfg, H, Step(cfg, H, t, e))
  {
    match e
    case Push(log, env) =>
      var q := Trace(Ingested(t.plane, log, env.arrived), t.fates);
      if ShouldFlush(cfg, q.plane, env.checked) {
        FlushKeepsInv(cfg, H, q, env);
      }
    case CheckTimeout(env) => FlushKeepsInv(cfg, H, t, env);
    case Flush(env) => FlushKeepsInv(cfg, H, t, env);
    case Restart => RestartKeepsInv(cfg, H, t);
  }

  lemma {:induction false} RunInv(cfg: BatcherConfig, H: HashFn, events: seq<Event>)
    ensures Inv(cfg, H, Run(cfg, H, events))
  {
    if events == [] {
    } else {
      RunInv(cfg, H, events[..|events| - 1]);
      StepKeepsInv(cfg, H, Run(cfg, H, events[..|events| - 1]), events[|events| - 1]);
    }
  }

  // ----- What the invariant gives -----

  lemma {:induction false} CommittedInLedger(fates: seq<Fate>, i: nat)
    requires i < |fates| && fates[i].Committed?
    ensures fates[i].entry in LedgerOf(fates)
    decreases |fates|
  {
    if i == |fates| - 1 {
    } else {
      CommittedInLedger(fates[..|fates| - 1], i);
    }
  }

  /** With strictly increasing ids the lookup finds the one entry with that id. */
  lemma {:induction false} LookupFindsEntry(ledger: seq<LedgerEntry>, entry: LedgerEntry, bound: nat)
    requires Increasing(ledger, bound) && entry in ledger
    ensures FirstEntry(ledger, entry.blockId) == Some(entry)
  {
    if ledger[0] == entry {
    } else {
      assert entry in ledger[1..];
      LookupFindsEntry(ledger[1..], entry, bound);
    }
  }

  /**
   Ledger order over all runs, with failed writes and restarts in any order: ids on disk strictly
   increase and stay below the next id, memory is a subsequence of disk, each id has one entry.
   */
  lemma {:induction false} LedgerOrder(cfg: BatcherConfig, H: HashFn, events: seq<Event>)
    ensures var p := Run(cfg, H, events).plane;
      && Increasing(p.diskLedger, p.currentBlockId)
      && Subsequence(p.inMemoryLedger, p.diskLedger)
      && forall e :: e in p.diskLedger ==> FirstEntry(p.diskLedger, e.blockId) == Some(e)
  {
    RunInv(cfg, H, events);
    var p := Run(cfg, H, events).plane;
    forall e | e in p.diskLedger ensures FirstEntry(p.diskLedger, e.blockId) == Some(e) {
      LookupFindsEntry(p.diskLedger, e, p.currentBlockId);
    }
  }

  /** The batches are what a reader may get from the file of `entry`. */
  predicate ReadFrom(files: map<string, FileState>, entry: LedgerEntry, batches: seq<RecordBatch>) {
    && entry.parquetFile in files
    && files[entry.parquetFile].Complete?
    && SplitOf(batches, files[entry.parquetFile].batch)
  }

  /** Every committed block is on disk: its file is complete and can be read whole. */
  lemma {:induction false} CommittedBlocksReadable(cfg: BatcherConfig, H: HashFn, events: seq<Event>, i: nat)
    requires i < |Run(cfg, H, events).fates| && Run(cfg, H, events).fates[i].Committed?
    ensures var t := Run(cfg, H, events);
      && t.fates[i].entry in t.plane.diskLedger
      && t.fates[i].entry.parquetFile in t.plane.files
      && t.plane.files[t.fates[i].entry.parquetFile].Complete?
      && ReadFrom(t.plane.files, t.fates[i].entry, [t.plane.files[t.fates[i].entry.parquetFile].batch])
  {
    RunInv(cfg, H, events);
    var t := Run(cfg, H, events);
    CommittedInLedger(t.fates, i);
    var b := t.plane.files[t.fates[i].entry.parquetFile].batch;
    assert Concatenated([b]) == Appended(EMPTY_BATCH, b) == b;
  }

  /**
   Self-audit over all runs: a committed block, read back from its file under any cut into batches,
   is looked up under its own entry, is judged untampered, and carries the block's raw logs in order.
   */
  lemma SelfAudit(cfg: BatcherConfig, H: HashFn, events: seq<Event>, i: nat, batches: seq<RecordBatch>, stem: string)
    requires i < |Run(cfg, H, events).fates| && Run(cfg, H, events).fates[i].Committed?
    requires ReadFrom(Run(cfg, H, events).plane.files, Run(cfg, H, events).fates[i].entry, batches)
    ensures var t := Run(cfg, H, events);
      var rows := FileRows(batches);
      && FirstEntry(t.plane.diskLedger, TargetBlock(rows, stem)) == Some(t.fates[i].entry)
      && Untampered(H, rows, t.fates[i].entry)
      && RawLogs(rows) == RawOf(t.fates[i].logs)
      && 1 <= |rows| <= MaxRows(cfg)
  {
    var t := Run(cfg, H, events);
    var f := t.fates[i];
    RunInv(cfg, H, events);
    ReadBackRows(batches, t.plane.files[f.entry.parquetFile].batch);
    CommittedInLedger(t.fates, i);
    LookupFindsEntry(t.plane.diskLedger, f.entry, t.plane.currentBlockId);
  }

  /** Nothing of a log is lost on the way to disk: read back under any cut, every row carries its log. */
  lemma {:induction false} RowsCarryLogs(cfg: BatcherConfig, H: HashFn, events: seq<Event>, i: nat,
                                         batches: seq<RecordBatch>)
    requires i < |Run(cfg, H, events).fates| && Run(cfg, H, events).fates[i].Committed?
    requires ReadFrom(Run(cfg, H, events).plane.files, Run(cfg, H, events).fates[i].entry, batches)
    ensures var f := Run(cfg, H, events).fates[i]; RowsCarry(H, FileRows(batches), f.logs, f.entry)
  {
    RunInv(cfg, H, events);
    ReadBackRows(batches, Run(cfg, H, events).plane.files[Run(cfg, H, events).fates[i].entry.parquetFile].batch);
  }

  /**
   A committed block's file put under another block's name is judged untampered all the same. What would tell
   is the id in its rows: it is the one the name says exactly when the file has its own name.
   */
  lemma {:induction false} MisplacedFileAccepted(cfg: BatcherConfig, H: HashFn, events: seq<Event>, i: nat,
                                                 batches: seq<RecordBatch>, named: nat)
    requires i < |Run(cfg, H, events).fates| && Run(cfg, H, events).fates[i].Committed?
    requires ReadFrom(Run(cfg, H, events).plane.files, Run(cfg, H, events).fates[i].entry, batches)
    requires named < U64_LIMIT
    ensures var t := Run(cfg, H, events);
      var rows, stem := FileRows(batches), BlockFileStem(named);
      && FirstEntry(t.plane.diskLedger, TargetBlock(rows, stem)) == Some(t.fates[i].entry)
      && Untampered(H, rows, t.fates[i].entry)
      && rows != []
      && (rows[0].blockId == BlockIdOfStem(stem) <==> named == t.fates[i].entry.blockId)
  {
    var f := Run(cfg, H, events).fates[i];
    RunInv(cfg, H, events);
    SelfAudit(cfg, H, events, i, batches, BlockFileStem(named));
    ReadBackRows(batches, Run(cfg, H, events).plane.files[f.entry.parquetFile].batch);
    BlockIdOfBlockStem(named);
  }

  /** Whatever rows someone presents: judged valid against a committed block's entry, they are its logs. */
  lemma AcceptedRowsAreCommitted(cfg: BatcherConfig, H: HashFn, events: seq<Event>, i: nat, rows: seq<StoredLogRecord>)
    requires i < |Run(cfg, H, events).fates| && Run(cfg, H, events).fates[i].Committed?
    requires Untampered(H, rows, Run(cfg, H, events).fates[i].entry)
    ensures var logs := RawOf(Run(cfg, H, events).fates[i].logs);
      RawLogs(rows) == logs || Collides(H, ListCollision(H, RawLogs(rows), logs))
  {
    RunInv(cfg, H, events);
    var f := Run(cfg, H, events).fates[i];
    ValidRowsAreTheBlock(H, rows, f.entry, RawOf(f.logs));
  }
}
