/**
 The batch accumulator. A flush takes the buffer and a block id first and writes afterwards, so a
 failed write loses the block; a restart loses the buffer and takes its next id from the ledger on disk.
 Clocks, fresh ids and the outcome of the two writes are inputs.
 */
module Batcher {
  import opened Auditor
  import opened Digests
  import opened MerkleSpec
  import opened MerkleTree
  import opened Options
  import opened Storage

  datatype BatcherConfig = BatcherConfig(maxBatchSize: nat, maxBatchDurationMs: nat)

  datatype IncomingLog = IncomingLog(
    vendor: string, rawLog: Bytes, timestamp: Option<int>, eventId: Option<string>, ocsfJson: Option<string>)

  /**
   How the writes of a flush end. The block file comes first; when it fails the file may be left
   broken. The ledger line comes second: it is appended whole or not at all, and the final sync may
   report an error although the line is there.
   */
  datatype WriteOutcome = Written | BlockFailed(fileTouched: bool) | AppendFailed | SyncFailed

  /** What one call observes: two readings of the monotonic clock, the wall clock, ids, write outcome. */
  datatype Env = Env(arrived: nat, checked: nat, nowMs: int, freshId: nat -> string, outcome: WriteOutcome)

  datatype FileState = Complete(batch: RecordBatch) | Broken

  datatype BlockFlushResult = BlockFlushResult(blockId: nat, merkleRoot: Digest, leafCount: nat)

  datatype FlushError = WriteError

  type FlushReturn = Result<Option<BlockFlushResult>, FlushError>

  /** The accumulator together with the disk it writes to. */
  datatype Plane = Plane(
    buffer: seq<IncomingLog>, firstItemTime: Option<nat>, currentBlockId: nat,
    inMemoryLedger: seq<LedgerEntry>, diskLedger: seq<LedgerEntry>, files: map<string, FileState>)

  function GetOr<T>(o: Option<T>, default: T): T {
    match o
    case Some(v) => v
    case None => default
  }

  function StoredRecord(H: HashFn, log: IncomingLog, i: nat, blockId: nat, env: Env): StoredLogRecord {
    StoredLogRecord(GetOr(log.eventId, env.freshId(i)), blockId, AsU32(i), GetOr(log.timestamp, env.nowMs),
                    log.vendor, log.rawLog, RawDigest(H, log.rawLog), GetOr(log.ocsfJson, "{}"))
  }

  function StoredRecords(H: HashFn, logs: seq<IncomingLog>, blockId: nat, env: Env): (rs: seq<StoredLogRecord>)
    ensures |rs| == |logs|
  {
    seq(|logs|, i requires 0 <= i < |logs| => StoredRecord(H, logs[i], i, blockId, env))
  }

  function RawOf(logs: seq<IncomingLog>): (raw: seq<Bytes>)
    ensures |raw| == |logs|
  {
    seq(|logs|, i requires 0 <= i < |logs| => logs[i].rawLog)
  }

  function EntryFor(H: HashFn, logs: seq<IncomingLog>, blockId: nat, env: Env): LedgerEntry {
    LedgerEntry(blockId, env.nowMs, |logs|, Hex(Mth(H, RawOf(logs))), BlockFileName(blockId))
  }

  /** The file written for a block, or what a failed write leaves. */
  function FilesAfter(H: HashFn, p: Plane, env: Env): map<string, FileState> {
    var name := BlockFileName(p.currentBlockId);
    match env.outcome
    case BlockFailed(false) => p.files
    case BlockFailed(true) => p.files[name := Broken]
    case _ => p.files[name := Complete(BatchOf(StoredRecords(H, p.buffer, p.currentBlockId, env)))]
  }

  function FlushStep(H: HashFn, p: Plane, env: Env): Plane {
    if p.buffer == [] then p
    else
      var entry := EntryFor(H, p.buffer, p.currentBlockId, env);
      var onDisk := env.outcome == Written || env.outcome == SyncFailed;
      Plane([], None, p.currentBlockId + 1,
            if env.outcome == Written then p.inMemoryLedger + [entry] else p.inMemoryLedger,
            if onDisk then p.diskLedger + [entry] else p.diskLedger,
            FilesAfter(H, p, env))
  }

  function FlushReturned(H: HashFn, p: Plane, env: Env): FlushReturn {
    if p.buffer == [] then Ok(None)
    else if env.outcome == Written then
      Ok(Some(BlockFlushResult(p.currentBlockId, Mth(H, RawOf(p.buffer)), |p.buffer|)))
    else Err(WriteError)
  }

  /** `t.elapsed()` on a clock that never runs backwards. */
  function Elapsed(since: nat, now: nat): nat {
    if now < since then 0 else now - since
  }

  predicate TimedOut(cfg: BatcherConfig, p: Plane, now: nat) {
    p.firstItemTime.Some? && Elapsed(p.firstItemTime.value, now) >= cfg.maxBatchDurationMs
  }

  predicate ShouldFlush(cfg: BatcherConfig, p: Plane, now: nat) {
    p.buffer != [] && (|p.buffer| >= cfg.maxBatchSize || TimedOut(cfg, p, now))
  }

  function Ingested(p: Plane, log: IncomingLog, now: nat): Plane {
    p.(buffer := p.buffer + [log], firstItemTime := if p.buffer == [] then Some(now) else p.firstItemTime)
  }

  function PushStep(cfg: BatcherConfig, H: HashFn, p: Plane, log: IncomingLog, env: Env): Plane {
    var q := Ingested(p, log, env.arrived);
    if ShouldFlush(cfg, q, env.checked) then FlushStep(H, q, env) else q
  }

  function TimeoutStep(cfg: BatcherConfig, H: HashFn, p: Plane, env: Env): Plane {
    if p.buffer != [] && TimedOut(cfg, p, env.checked) then FlushStep(H, p, env) else p
  }

  function NextBlockId(ledger: seq<LedgerEntry>): nat {
    if ledger == [] then 0 else ledger[|ledger| - 1].blockId + 1
  }

  /** A new process on the same disk. */
  function RestartStep(p: Plane): Plane {
    Plane([], None, NextBlockId(p.diskLedger), p.diskLedger, p.diskLedger, p.files)
  }

  /** The disk: the ledger file as its lines, and the block files by name. */
  class Disk {
    var ledger: seq<LedgerEntry>
    var files: map<string, FileState>

    constructor ()
      ensures ledger == [] && files == map[]
    {
      ledger, files := [], map[];
    }
  }

  method BuildRecords(H: HashFn, logs: seq<IncomingLog>, blockId: nat, env: Env) returns (stored: seq<StoredLogRecord>)
    ensures stored == StoredRecords(H, logs, blockId, env)
  {
    stored := [];
    for i := 0 to |logs|
      invariant stored == StoredRecords(H, logs, blockId, env)[..i]
    {
      var item := logs[i];
      var eventId := match item.eventId case Some(id) => id case None => env.freshId(i);
      var timestamp := match item.timestamp case Some(t) => t case None => env.nowMs;
      var rawHash := Hex(H(item.rawLog));
      var ocsf := match item.ocsfJson case Some(j) => j case None => "{}";
      stored := stored + [StoredLogRecord(eventId, blockId, AsU32(i), timestamp, item.vendor,
                                          item.rawLog, rawHash, ocsf)];
    }
  }

  class BatchAccumulator {
    const config: BatcherConfig
    const disk: Disk
    var buffer: seq<IncomingLog>
    var firstItemTime: Option<nat>
    var currentBlockId: nat
    var inMemoryLedger: seq<LedgerEntry>

    function State(): Plane
      reads this, disk
    {
      Plane(buffer, firstItemTime, currentBlockId, inMemoryLedger, disk.ledger, disk.files)
    }

    constructor (config: BatcherConfig, disk: Disk)
      ensures this.config == config && this.disk == disk
      ensures State() == RestartStep(Plane([], None, 0, [], disk.ledger, disk.files))
    {
      this.config, this.disk := config, disk;
      buffer, firstItemTime := [], None;
      inMemoryLedger := disk.ledger;
      currentBlockId := NextBlockId(disk.ledger);
    }

    method Push(H: HashFn, log: IncomingLog, env: Env) returns (r: FlushReturn)
      modifies this, disk
      ensures State() == PushStep(config, H, old(State()), log, env)
      ensures r == if ShouldFlush(config, Ingested(old(State()), log, env.arrived), env.checked)
                   then FlushReturned(H, Ingested(old(State()), log, env.arrived), env) else Ok(None)
    {
      if buffer == [] {
        firstItemTime := Some(env.arrived);
      }
      buffer := buffer + [log];
      var due := ShouldFlushNow(env.checked);
      if due {
        r := Flush(H, env);
      } else {
        r := Ok(None);
      }
    }

    method CheckTimeout(H: HashFn, env: Env) returns (r: FlushReturn)
      modifies this, disk
      ensures State() == TimeoutStep(config, H, old(State()), env)
      ensures var due := && old(buffer) != [] && old(firstItemTime).Some?
                         && (|| config.maxBatchDurationMs == 0
                             || old(firstItemTime).value + config.maxBatchDurationMs <= env.checked);
        && r == (if due then FlushReturned(H, old(State()), env) else Ok(None))
        && State() == (if due then FlushStep(H, old(State()), env) else old(State()))
    {
      if buffer == [] {
        return Ok(None);
      }
      if firstItemTime.Some? && Elapsed(firstItemTime.value, env.checked) >= config.maxBatchDurationMs {
        r := Flush(H, env);
        return;
      }
      return Ok(None);
    }

    method ShouldFlushNow(now: nat) returns (b: bool)
      ensures b == ShouldFlush(config, State(), now)
      ensures b <==>
        && buffer != []
        && (|| |buffer| >= config.maxBatchSize
            || (&& firstItemTime.Some?
                && (config.maxBatchDurationMs == 0 || firstItemTime.value + config.maxBatchDurationMs <= now)))
    {
      if buffer == [] {
        return false;
      }
      var countMet := |buffer| >= config.maxBatchSize;
      var durationMet := firstItemTime.Some? && Elapsed(firstItemTime.value, now) >= config.maxBatchDurationMs;
      return countMet || durationMet;
    }

    method Flush(H: HashFn, env: Env) returns (r: FlushReturn)
      modifies this, disk
      ensures State() == FlushStep(H, old(State()), env)
      ensures r == FlushReturned(H, old(State()), env)
    {
      if buffer == [] {
        return Ok(None);
      }
      var logs := buffer;
      buffer, firstItemTime := [], None;
      var blockId := currentBlockId;
      currentBlockId := currentBlockId + 1;

      var stored := BuildRecords(H, logs, blockId, env);
      assert RawLogs(stored) == RawOf(logs);
      FromRawLogsRoot(H, RawLogs(stored));
      var root := FromRawLogs(H, RawLogs(stored)).root;
      var name := BlockFileName(blockId);

      var batch := RecordsToBatch(stored);
      if env.outcome.BlockFailed? {
        if env.outcome.fileTouched {
          disk.files := disk.files[name := Broken];
        }
        return Err(WriteError);
      }
      disk.files := disk.files[name := Complete(batch)];

      var entry := LedgerEntry(blockId, env.nowMs, |logs|, Hex(root), name);
      if env.outcome == AppendFailed {
        return Err(WriteError);
      }
      disk.ledger := disk.ledger + [entry];
      if env.outcome == SyncFailed {
        return Err(WriteError);
      }
      inMemoryLedger := inMemoryLedger + [entry];
      return Ok(Some(BlockFlushResult(blockId, root, |logs|)));
    }
  }
}
