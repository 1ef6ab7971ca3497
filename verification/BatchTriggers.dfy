/**
 When the accumulator writes a block, over whole runs and by the clock readings of the calls: by size, or once
 the oldest log waiting is old enough, and never otherwise. An age is cut off at 0.
 */
module BatchTriggers {
  import opened Auditor
  import opened Batcher
  import opened Digests
  import opened LedgerRuns
  import MerkleSpec
  import opened Options
  import opened Storage

  /** The clock reading of every push. */
  function PushTimes(events: seq<Event>): seq<nat> {
    if events == [] then []
    else
      var e := events[|events| - 1];
      PushTimes(events[..|events| - 1]) + (if e.Push? then [e.env.arrived] else [])
  }

  lemma {:induction false} PushTimesOfPushed(events: seq<Event>)
    ensures |PushTimes(events)| == |Pushed(events)|
  {
    if events != [] { PushTimesOfPushed(events[..|events| - 1]); }
  }

  /** The buffer holds the logs pushed last. */
  lemma {:induction false} BufferIsLastPushed(cfg: BatcherConfig, H: HashFn, events: seq<Event>)
    ensures var buffer := Run(cfg, H, events).plane.buffer;
      && |buffer| <= |Pushed(events)| == |PushTimes(events)|
      && buffer == Pushed(events)[|Pushed(events)| - |buffer|..]
  {
    Conservation(cfg, H, events);
    PushTimesOfPushed(events);
    var t := Run(cfg, H, events);
    assert Pushed(events)[|FateLogs(t.fates)|..] == t.plane.buffer;
  }

  /** When the log now at the front of the buffer was pushed. */
  function OldestArrival(cfg: BatcherConfig, H: HashFn, events: seq<Event>): nat
    requires Run(cfg, H, events).plane.buffer != []
  {
    BufferIsLastPushed(cfg, H, events);
    PushTimes(events)[|PushTimes(events)| - |Run(cfg, H, events).plane.buffer|]
  }

  /** The age of something from `since` has reached the limit. */
  predicate OldEnough(since: nat, now: nat, limit: nat) {
    limit == 0 || since + limit <= now
  }

  /** What one call does to the buffer. */
  lemma StepBuffer(cfg: BatcherConfig, H: HashFn, t: Trace, e: Event)
    ensures var before, after := t.plane.buffer, Step(cfg, H, t, e).plane.buffer;
      after == [] || after == before + (if e.Push? then [e.log] else [])
  {
  }

  lemma StepTimer(cfg: BatcherConfig, H: HashFn, t: Trace, e: Event)
    requires t.plane.buffer == [] <==> t.plane.firstItemTime.None?
    ensures var before, after := t.plane, Step(cfg, H, t, e).plane;
      && (after.buffer == [] <==> after.firstItemTime.None?)
      && (after.buffer != [] ==>
          after.firstItemTime == if before.buffer == [] then Some(e.env.arrived) else before.firstItemTime)
      && (after.buffer != [] && before.buffer == [] ==> e.Push?)
  {
  }

  /** In every reachable state the timer is the arrival of the log at the front of the buffer. */
  lemma {:induction false} TimerIsOldestArrival(cfg: BatcherConfig, H: HashFn, events: seq<Event>)
    ensures var p := Run(cfg, H, events).plane;
      p.firstItemTime == if p.buffer == [] then None else Some(OldestArrival(cfg, H, events))
  {
    if events == [] {
    } else {
      var before, e := events[..|events| - 1], events[|events| - 1];
      var t, u := Run(cfg, H, before), Run(cfg, H, events);
      TimerIsOldestArrival(cfg, H, before);
      StepTimer(cfg, H, t, e);
      StepBuffer(cfg, H, t, e);
      BufferIsLastPushed(cfg, H, before);
      BufferIsLastPushed(cfg, H, events);
    }
  }

  // ----- What makes a call write -----

  /** The logs waiting when the call decides: those before it, and the one it brings. */
  function Waiting(cfg: BatcherConfig, H: HashFn, events: seq<Event>, e: Event): nat {
    |Run(cfg, H, events).plane.buffer| + if e.Push? then 1 else 0
  }

  /** When the oldest of them came. */
  function WaitingSince(cfg: BatcherConfig, H: HashFn, events: seq<Event>, e: Event): nat
    requires Waiting(cfg, H, events, e) > 0
  {
    if Run(cfg, H, events).plane.buffer == [] then e.env.arrived else OldestArrival(cfg, H, events)
  }

  /** The call takes all logs waiting out of the buffer: by size, by age, or because it is told to. */
  predicate Empties(cfg: BatcherConfig, H: HashFn, events: seq<Event>, e: Event) {
    && Waiting(cfg, H, events, e) > 0
    && (match e
        case Push(_, env) =>
          || Waiting(cfg, H, events, e) >= cfg.maxBatchSize
          || OldEnough(WaitingSince(cfg, H, events, e), env.checked, cfg.maxBatchDurationMs)
        case CheckTimeout(env) =>
          OldEnough(WaitingSince(cfg, H, events, e), env.checked, cfg.maxBatchDurationMs)
        case Flush(_) => true
        case Restart => true)
  }

  lemma RunOneMore(cfg: BatcherConfig, H: HashFn, events: seq<Event>, e: Event)
    ensures Run(cfg, H, events + [e]) == Step(cfg, H, Run(cfg, H, events), e)
  {
    assert (events + [e])[..|events|] == events;
  }

  lemma {:induction false} FlushesWhenEmptied(cfg: BatcherConfig, H: HashFn, events: seq<Event>, e: Event)
    requires !e.Restart?
    ensures Flushes(cfg, Run(cfg, H, events).plane, e) <==> Empties(cfg, H, events, e)
  {
    TimerIsOldestArrival(cfg, H, events);
  }

  /** The dual trigger, exactly: the buffer is emptied when a trigger fires, and otherwise only grows by the push. */
  lemma {:induction false} TriggersExact(cfg: BatcherConfig, H: HashFn, events: seq<Event>, e: Event)
    ensures var before, after := Run(cfg, H, events).plane.buffer, Run(cfg, H, events + [e]).plane.buffer;
      after == if Empties(cfg, H, events, e) then [] else before + (if e.Push? then [e.log] else [])
  {
    RunOneMore(cfg, H, events, e);
    if !e.Restart? { FlushesWhenEmptied(cfg, H, events, e); }
  }

  lemma {:induction false} WaitingSinceIsOldest(cfg: BatcherConfig, H: HashFn, events: seq<Event>, e: Event)
    requires !Empties(cfg, H, events, e) && Waiting(cfg, H, events, e) > 0
    ensures Run(cfg, H, events + [e]).plane.buffer != []
    ensures OldestArrival(cfg, H, events + [e]) == WaitingSince(cfg, H, events, e)
  {
    TriggersExact(cfg, H, events, e);
    TimerIsOldestArrival(cfg, H, events);
    TimerIsOldestArrival(cfg, H, events + [e]);
    RunOneMore(cfg, H, events, e);
    StepTimer(cfg, H, Run(cfg, H, events), e);
  }

  /** No log outstays the limit: after a push or a timeout check, what still waits is younger at its reading. */
  lemma {:induction false} NothingOutstaysLimit(cfg: BatcherConfig, H: HashFn, events: seq<Event>, e: Event)
    requires e.Push? || e.CheckTimeout?
    requires Run(cfg, H, events + [e]).plane.buffer != []
    ensures !OldEnough(OldestArrival(cfg, H, events + [e]), e.env.checked, cfg.maxBatchDurationMs)
    ensures e.Push? ==> |Run(cfg, H, events + [e]).plane.buffer| < cfg.maxBatchSize
  {
    TriggersExact(cfg, H, events, e);
    WaitingSinceIsOldest(cfg, H, events, e);
  }

  // ----- Block ids and ledger lines -----

  /** The line of the block a call writes. */
  predicate LineOf(H: HashFn, entry: LedgerEntry, logs: seq<IncomingLog>, blockId: nat, env: Env) {
    && entry.blockId == blockId && entry.leafCount == |logs| && entry.timestamp == env.nowMs
    && entry.merkleRoot == Hex(MerkleSpec.Mth(H, RawOf(logs)))
  }

  /**
   Every call that writes takes one block id, whatever becomes of the writes, and no other call does; a restart
   goes on behind the last line on disk.
   */
  lemma {:induction false} IdsTaken(cfg: BatcherConfig, H: HashFn, events: seq<Event>, e: Event)
    ensures var p, q := Run(cfg, H, events).plane, Run(cfg, H, events + [e]).plane;
      if e.Restart? then
        && q.diskLedger == q.inMemoryLedger == p.diskLedger
        && q.currentBlockId
           == if p.diskLedger == [] then 0 else p.diskLedger[|p.diskLedger| - 1].blockId + 1
      else q.currentBlockId == p.currentBlockId + if Empties(cfg, H, events, e) then 1 else 0
  {
    RunOneMore(cfg, H, events, e);
    if !e.Restart? { FlushesWhenEmptied(cfg, H, events, e); }
  }

  /** The two ledgers, before and after a call that writes `logs`: as far as its writes go, they get its line. */
  predicate Wrote(H: HashFn, p: Plane, q: Plane, logs: seq<IncomingLog>, env: Env) {
    && (if env.outcome.BlockFailed? || env.outcome.AppendFailed? then q.diskLedger == p.diskLedger
        else
          && |q.diskLedger| == |p.diskLedger| + 1 && p.diskLedger <= q.diskLedger
          && LineOf(H, q.diskLedger[|p.diskLedger|], logs, p.currentBlockId, env))
    && (if !env.outcome.Written? then q.inMemoryLedger == p.inMemoryLedger
        else
          && |q.inMemoryLedger| == |p.inMemoryLedger| + 1 && p.inMemoryLedger <= q.inMemoryLedger
          && LineOf(H, q.inMemoryLedger[|p.inMemoryLedger|], logs, p.currentBlockId, env))
  }

  lemma FlushWrote(H: HashFn, p: Plane, env: Env)
    requires p.buffer != []
    ensures Wrote(H, p, FlushStep(H, p, env), p.buffer, env)
  {
  }

  /** A call that writes adds its line, and no other call does. */
  lemma {:induction false} LinesWritten(cfg: BatcherConfig, H: HashFn, events: seq<Event>, e: Event)
    requires !e.Restart?
    ensures var p, q := Run(cfg, H, events).plane, Run(cfg, H, events + [e]).plane;
      if Empties(cfg, H, events, e) then Wrote(H, p, q, p.buffer + (if e.Push? then [e.log] else []), e.env)
      else q.diskLedger == p.diskLedger && q.inMemoryLedger == p.inMemoryLedger
  {
    var p := Run(cfg, H, events).plane;
    RunOneMore(cfg, H, events, e);
    FlushesWhenEmptied(cfg, H, events, e);
    if Empties(cfg, H, events, e) {
      FlushWrote(H, if e.Push? then Ingested(p, e.log, e.env.arrived) else p, e.env);
      assert p.buffer + [] == p.buffer;
    }
  }

  /** What a flush returns is what it wrote. */
  lemma ReturnedIsWritten(H: HashFn, p: Plane, env: Env)
    ensures var r, q := FlushReturned(H, p, env), FlushStep(H, p, env);
      && (r == Ok(None) <==> p.buffer == [])
      && (r.Err? <==> p.buffer != [] && !env.outcome.Written?)
      && (r.Ok? && r.value.Some? ==>
          var result := r.value.value;
          && q.inMemoryLedger != []
          && (var entry := q.inMemoryLedger[|q.inMemoryLedger| - 1];
              && entry.blockId == result.blockId == p.currentBlockId
              && entry.merkleRoot == Hex(result.merkleRoot)
              && entry.leafCount == result.leafCount == |p.buffer|))
  {
    var entry := EntryFor(H, p.buffer, p.currentBlockId, env);
    if p.buffer != [] && env.outcome == Written {
      assert FlushStep(H, p, env).inMemoryLedger == p.inMemoryLedger + [entry];
      assert |p.inMemoryLedger + [entry]| == |p.inMemoryLedger| + 1;
    }
  }

  /** A call that writes touches the file of its own block only: whole, or as its failed write leaves it. */
  lemma {:induction false} FilesWritten(cfg: BatcherConfig, H: HashFn, events: seq<Event>, e: Event)
    ensures var p, q := Run(cfg, H, events).plane, Run(cfg, H, events + [e]).plane;
      var name := BlockFileName(p.currentBlockId);
      if e.Restart? || !Empties(cfg, H, events, e) || e.env.outcome == BlockFailed(false) then q.files == p.files
      else
        && q.files.Keys == p.files.Keys + {name}
        && (forall other :: other in p.files && other != name ==> q.files[other] == p.files[other])
        && (q.files[name].Broken? <==> e.env.outcome == BlockFailed(true))
  {
    RunOneMore(cfg, H, events, e);
    if !e.Restart? { FlushesWhenEmptied(cfg, H, events, e); }
  }
}
