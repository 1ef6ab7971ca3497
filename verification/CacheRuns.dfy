/** The cache over any sequence of lookups and insertions, against the unbounded map it stands for. */
module CacheRuns {
  import opened Options
  import opened PowersOfTwo
  import opened Sequences
  import opened SignatureCache

  datatype Put = Put(key: nat, format: VendorFormat)

  // ----- One shard -----

  function ShardRun(capacity: nat, puts: seq<Put>): ShardState {
    if puts == [] then ShardState(capacity, map[], [])
    else
      var p := puts[|puts| - 1];
      InsertInto(ShardRun(capacity, puts[..|puts| - 1]), p.key, p.format).shard
  }

  /** The keys inserted while absent, in the order this happened. */
  function FreshKeys(capacity: nat, puts: seq<Put>): seq<nat> {
    if puts == [] then []
    else
      var p, before := puts[|puts| - 1], puts[..|puts| - 1];
      FreshKeys(capacity, before) + if p.key in ShardRun(capacity, before).entries then [] else [p.key]
  }

  function Evictions(capacity: nat, puts: seq<Put>): nat {
    if puts == [] then 0
    else
      var p, before := puts[|puts| - 1], puts[..|puts| - 1];
      Evictions(capacity, before) + if InsertInto(ShardRun(capacity, before), p.key, p.format).evicted then 1 else 0
  }

  /** The value an unbounded map would hold. */
  function LastPut(puts: seq<Put>, key: nat): Option<VendorFormat> {
    if puts == [] then None
    else
      var p := puts[|puts| - 1];
      if p.key == key then Some(p.format) else LastPut(puts[..|puts| - 1], key)
  }

  /** The queue lists each present key once, and the size stays within the capacity, or one. */
  ghost predicate QueueOk(s: ShardState) {
    && NoRepeats(s.order)
    && (forall k :: k in s.order <==> k in s.entries)
    && |s.entries| == |s.order|
    && |s.entries| <= if s.capacity == 0 then 1 else s.capacity
  }

  lemma FrontRemoved(s: ShardState)
    requires QueueOk(s) && s.order != []
    ensures var kept := ShardState(s.capacity, s.entries - {s.order[0]}, s.order[1..]);
      QueueOk(kept) && |kept.entries| == |s.entries| - 1
  {
    var oldest := s.order[0];
    var kept := s.entries - {oldest};
    assert kept.Keys == s.entries.Keys - {oldest};
    assert |kept| == |kept.Keys| == |s.entries.Keys| - 1;
    assert forall k :: k in s.order[1..] <==> k in s.order && k != oldest;
  }

  lemma FreshAppended(s: ShardState, key: nat, format: VendorFormat)
    requires QueueOk(s) && key !in s.entries && (|s.entries| < s.capacity || s.order == [])
    ensures var t := s.(entries := s.entries[key := format], order := s.order + [key]);
      QueueOk(t) && |t.entries| == |s.entries| + 1
  {
    assert s.entries[key := format].Keys == s.entries.Keys + {key};
  }

  lemma EvictionKeepsQueue(s: ShardState, key: nat, format: VendorFormat)
    requires QueueOk(s) && key !in s.entries && |s.entries| >= s.capacity && s.order != []
    ensures var r := InsertInto(s, key, format); QueueOk(r.shard) && |r.shard.entries| == |s.entries|
  {
    var kept := ShardState(s.capacity, s.entries - {s.order[0]}, s.order[1..]);
    FrontRemoved(s);
    FreshAppended(kept, key, format);
  }

  lemma InsertKeepsQueue(s: ShardState, key: nat, format: VendorFormat)
    requires QueueOk(s)
    ensures QueueOk(InsertInto(s, key, format).shard)
    ensures var r := InsertInto(s, key, format).shard;
      |r.entries| + (if InsertInto(s, key, format).evicted then 1 else 0)
      == |s.entries| + if key in s.entries then 0 else 1
  {
    if key !in s.entries && |s.entries| >= s.capacity && s.order != [] {
      EvictionKeepsQueue(s, key, format);
    }
  }

  lemma {:induction false} ShardQueueOk(capacity: nat, puts: seq<Put>)
    ensures QueueOk(ShardRun(capacity, puts)) && ShardRun(capacity, puts).capacity == capacity
  {
    if puts == [] {
    } else {
      var p, before := puts[|puts| - 1], puts[..|puts| - 1];
      ShardQueueOk(capacity, before);
      InsertKeepsQueue(ShardRun(capacity, before), p.key, p.format);
    }
  }

  lemma TailGrows(s: seq<nat>, from: nat, x: nat)
    requires from <= |s|
    ensures (s + [x])[from..] == s[from..] + [x]
    ensures from < |s| ==> (s + [x])[from + 1..] == s[from..][1..] + [x]
  {
  }

  lemma InsertIsFifo(s: ShardState, keys: seq<nat>, gone: nat, key: nat, format: VendorFormat)
    requires gone <= |keys| && s.order == keys[gone..]
    ensures var r := InsertInto(s, key, format);
      var keys' := if key in s.entries then keys else keys + [key];
      var gone' := if r.evicted then gone + 1 else gone;
      gone' <= |keys'| && r.shard.order == keys'[gone'..]
  {
    TailGrows(keys, gone, key);
  }

  /**
   First in, first out: with `Evictions` keys gone, the queue is the rest of the fresh insertions in
   the order they were made.
   */
  lemma {:induction false} ShardIsFifo(capacity: nat, puts: seq<Put>)
    ensures Evictions(capacity, puts) <= |FreshKeys(capacity, puts)|
    ensures ShardRun(capacity, puts).order == FreshKeys(capacity, puts)[Evictions(capacity, puts)..]
  {
    if puts == [] {
    } else {
      var p, before := puts[|puts| - 1], puts[..|puts| - 1];
      var s, keys := ShardRun(capacity, before), FreshKeys(capacity, before);
      ShardIsFifo(capacity, before);
      InsertIsFifo(s, keys, Evictions(capacity, before), p.key, p.format);
      assert keys + [] == keys;
    }
  }

  /** A key that is present has the value put last. */
  lemma {:induction false} PresentIsLastPut(capacity: nat, puts: seq<Put>, key: nat)
    requires key in ShardRun(capacity, puts).entries
    ensures LastPut(puts, key) == Some(ShardRun(capacity, puts).entries[key])
  {
    var p, before := puts[|puts| - 1], puts[..|puts| - 1];
    if p.key == key {
    } else {
      PresentIsLastPut(capacity, before, key);
    }
  }

  // ----- The whole cache -----

  datatype Op = Get(key: nat) | Insert(put: Put)

  function Step(c: CacheState, op: Op): (c': CacheState)
    requires ShardCount(|c.shards|)
    ensures |c'.shards| == |c.shards|
  {
    match op
    case Get(key) => CacheGet(c, key)
    case Insert(p) => CacheInsert(c, p.key, p.format)
  }

  function Run(n: nat, capacity: nat, ops: seq<Op>): (c: CacheState)
    requires ShardCount(n)
    ensures |c.shards| == n
  {
    if ops == [] then NewCache(n, capacity)
    else Step(Run(n, capacity, ops[..|ops| - 1]), ops[|ops| - 1])
  }

  /** The insertions whose key belongs to shard `i`. */
  function PutsOf(ops: seq<Op>, n: nat, i: nat): seq<Put>
    requires n > 0
  {
    if ops == [] then []
    else
      var op := ops[|ops| - 1];
      PutsOf(ops[..|ops| - 1], n, i) + if op.Insert? && op.put.key % n == i then [op.put] else []
  }

  function AllPuts(ops: seq<Op>): seq<Put> {
    if ops == [] then []
    else
      var op := ops[|ops| - 1];
      AllPuts(ops[..|ops| - 1]) + if op.Insert? then [op.put] else []
  }

  lemma ShardRunNext(capacity: nat, puts: seq<Put>, p: Put)
    ensures ShardRun(capacity, puts + [p]) == InsertInto(ShardRun(capacity, puts), p.key, p.format).shard
    ensures LastPut(puts + [p], p.key) == Some(p.format)
    ensures forall key :: key != p.key ==> LastPut(puts + [p], key) == LastPut(puts, key)
  {
    assert (puts + [p])[..|puts|] == puts;
  }

  /** Each shard is a cache of its own, fed by exactly the keys it is responsible for. */
  lemma {:induction false} ShardsAreIndependent(n: nat, capacity: nat, ops: seq<Op>, i: nat)
    requires ShardCount(n) && i < n
    ensures Run(n, capacity, ops).shards[i] == ShardRun(capacity, PutsOf(ops, n, i))
  {
    if ops == [] {
    } else {
      var op, before := ops[|ops| - 1], ops[..|ops| - 1];
      ShardsAreIndependent(n, capacity, before, i);
      if op.Insert? && op.put.key % n == i {
        ShardRunNext(capacity, PutsOf(before, n, i), op.put);
      } else {
        assert PutsOf(before, n, i) + [] == PutsOf(before, n, i);
      }
    }
  }

  lemma {:induction false} LastPutInShard(ops: seq<Op>, n: nat, key: nat)
    requires n > 0
    ensures LastPut(PutsOf(ops, n, key % n), key) == LastPut(AllPuts(ops), key)
  {
    if ops == [] {
    } else {
      var op, before := ops[|ops| - 1], ops[..|ops| - 1];
      LastPutInShard(before, n, key);
      if op.Insert? {
        ShardRunNext(0, AllPuts(before), op.put);
        ShardRunNext(0, PutsOf(before, n, key % n), op.put);
        if op.put.key % n != key % n {
          assert PutsOf(before, n, key % n) + [] == PutsOf(before, n, key % n);
        }
      } else {
        assert AllPuts(before) + [] == AllPuts(before);
        assert PutsOf(before, n, key % n) + [] == PutsOf(before, n, key % n);
      }
    }
  }

  /** A hit answers what the unbounded map holds. */
  lemma CacheRefinesMap(n: nat, capacity: nat, ops: seq<Op>, key: nat)
    requires ShardCount(n) && Lookup(Run(n, capacity, ops), key).Some?
    ensures Lookup(Run(n, capacity, ops), key) == LastPut(AllPuts(ops), key)
  {
    ShardsAreIndependent(n, capacity, ops, key % n);
    PresentIsLastPut(capacity, PutsOf(ops, n, key % n), key);
    LastPutInShard(ops, n, key);
  }

  lemma {:induction false} ShardKeys(capacity: nat, ops: seq<Op>, n: nat, i: nat, key: nat)
    requires n > 0 && key in ShardRun(capacity, PutsOf(ops, n, i)).entries
    ensures key % n == i
  {
    if ops == [] {
    } else {
      var op, before := ops[|ops| - 1], ops[..|ops| - 1];
      if op.Insert? && op.put.key % n == i {
        ShardRunNext(capacity, PutsOf(before, n, i), op.put);
        if op.put.key != key { ShardKeys(capacity, before, n, i, key); }
      } else {
        assert PutsOf(before, n, i) + [] == PutsOf(before, n, i);
        ShardKeys(capacity, before, n, i, key);
      }
    }
  }

  /** A key lives nowhere but in the shard its low bits name, and every shard keeps its bound and queue. */
  lemma {:induction false} EveryShardOk(n: nat, capacity: nat, ops: seq<Op>, i: nat)
    requires ShardCount(n) && i < n
    ensures var s := Run(n, capacity, ops).shards[i];
      && QueueOk(s) && s.capacity == capacity
      && forall key :: key in s.entries ==> key % n == i
  {
    ShardsAreIndependent(n, capacity, ops, i);
    ShardQueueOk(capacity, PutsOf(ops, n, i));
    forall key | key in Run(n, capacity, ops).shards[i].entries ensures key % n == i {
      ShardKeys(capacity, ops, n, i, key);
    }
  }

  // ----- The counters -----

  function TotalEntries(shards: seq<ShardState>): nat {
    if shards == [] then 0 else TotalEntries(shards[..|shards| - 1]) + |shards[|shards| - 1].entries|
  }

  lemma {:induction false} TotalAfterUpdate(shards: seq<ShardState>, i: nat, s: ShardState)
    requires i < |shards|
    ensures TotalEntries(shards[i := s]) == TotalEntries(shards) - |shards[i].entries| + |s.entries|
  {
    var n := |shards| - 1;
    var after := shards[i := s];
    if i == n {
      assert after[..n] == shards[..n];
    } else {
      TotalAfterUpdate(shards[..n], i, s);
      assert after[..n] == shards[..n][i := s];
    }
  }

  lemma {:induction false} NewCacheEmpty(capacity: nat, n: nat)
    ensures TotalEntries(NewCache(n, capacity).shards) == 0
  {
    if n == 0 {
    } else {
      NewCacheEmpty(capacity, n - 1);
      assert NewCache(n, capacity).shards[..n - 1] == NewCache(n - 1, capacity).shards;
    }
  }

  function FreshInserts(n: nat, capacity: nat, ops: seq<Op>): nat
    requires ShardCount(n)
  {
    if ops == [] then 0
    else
      var op, before := ops[|ops| - 1], ops[..|ops| - 1];
      FreshInserts(n, capacity, before)
      + if op.Insert? && Lookup(Run(n, capacity, before), op.put.key).None? then 1 else 0
  }

  function Gets(ops: seq<Op>): nat {
    if ops == [] then 0 else Gets(ops[..|ops| - 1]) + if ops[|ops| - 1].Get? then 1 else 0
  }

  /** Every fresh key is still an entry or was evicted; every lookup is a hit or a miss. */
  lemma {:induction false} CountersBalance(n: nat, capacity: nat, ops: seq<Op>)
    requires ShardCount(n)
    ensures var c := Run(n, capacity, ops);
      && c.evictions + TotalEntries(c.shards) == FreshInserts(n, capacity, ops)
      && c.hits + c.misses == Gets(ops)
  {
    if ops == [] {
      NewCacheEmpty(capacity, n);
    } else {
      var op, before := ops[|ops| - 1], ops[..|ops| - 1];
      CountersBalance(n, capacity, before);
      if op.Insert? {
        var c := Run(n, capacity, before);
        var i := ShardIndex(op.put.key, n);
        EveryShardOk(n, capacity, before, i);
        InsertKeepsQueue(c.shards[i], op.put.key, op.put.format);
        TotalAfterUpdate(c.shards, i, InsertInto(c.shards[i], op.put.key, op.put.format).shard);
      }
    }
  }

  // ----- Not least recently used -----

  function KeyOf(op: Op): nat {
    match op
    case Get(key) => key
    case Insert(p) => p.key
  }

  /** When a key was last looked up or inserted, counting operations from 1; 0 if never. */
  function LastUse(ops: seq<Op>, key: nat): (when: nat)
    ensures when <= |ops|
  {
    if ops == [] then 0
    else
      if KeyOf(ops[|ops| - 1]) == key then |ops| else LastUse(ops[..|ops| - 1], key)
  }

  /** Inserting `key` now would evict a key from its shard. */
  predicate Evicts(c: CacheState, key: nat)
    requires ShardCount(|c.shards|)
  {
    var s := c.shards[ShardIndex(key, |c.shards|)];
    InsertInto(s, key, Unknown).evicted
  }

  /** What would go is the key of its shard that was used least recently. */
  ghost predicate EvictsLeastRecent(c: CacheState, key: nat, ops: seq<Op>)
    requires ShardCount(|c.shards|) && Evicts(c, key)
  {
    var s := c.shards[ShardIndex(key, |c.shards|)];
    forall k :: k in s.entries ==> LastUse(ops, s.order[0]) <= LastUse(ops, k)
  }

  /** Every eviction of every run takes the least recently used key of the shard. */
  ghost predicate AlwaysLeastRecent(n: nat, capacity: nat)
    requires ShardCount(n)
  {
    forall ops, key :: Evicts(Run(n, capacity, ops), key) ==> EvictsLeastRecent(Run(n, capacity, ops), key, ops)
  }

  lemma {:induction false} SmallShardsAreLru(n: nat, capacity: nat, ops: seq<Op>, key: nat)
    requires ShardCount(n) && capacity <= 1 && Evicts(Run(n, capacity, ops), key)
    ensures EvictsLeastRecent(Run(n, capacity, ops), key, ops)
  {
    var s := Run(n, capacity, ops).shards[ShardIndex(key, n)];
    EveryShardOk(n, capacity, ops, ShardIndex(key, n));
    assert |s.order| == 1;
    forall k | k in s.entries ensures k == s.order[0] {
      assert k in s.order;
    }
  }

  lemma RunOneMore(n: nat, capacity: nat, ops: seq<Op>, op: Op)
    requires ShardCount(n)
    ensures Run(n, capacity, ops + [op]) == Step(Run(n, capacity, ops), op)
  {
    assert (ops + [op])[..|ops|] == ops;
  }

  lemma LastUseNext(ops: seq<Op>, op: Op, key: nat)
    ensures LastUse(ops + [op], key) == if key == KeyOf(op) then |ops| + 1 else LastUse(ops, key)
  {
    assert (ops + [op])[..|ops|] == ops;
  }

  /** The insertions of the first `m` keys of shard 0, in order. */
  function Filling(n: nat, m: nat): (ops: seq<Op>)
    ensures |ops| == m
  {
    if m == 0 then [] else Filling(n, m - 1) + [Insert(Put(n * (m - 1), CiscoAsa))]
  }

  lemma Multiple(n: nat, i: nat)
    requires n > 0
    ensures (n * i) % n == 0
  {
    RemainderUnique(n * i, n, i, 0);
  }

  /** A shard that holds the first `m` keys of shard 0, in order. */
  ghost predicate HoldsFirst(s: ShardState, n: nat, m: nat) {
    && |s.order| == |s.entries| == m
    && (forall i :: 0 <= i < m ==> s.order[i] == n * i && s.order[i] in s.entries)
    && (forall k :: k in s.entries ==> k < n * m)
  }

  lemma Ascending(n: nat, i: nat, j: nat)
    requires n > 0 && i < j
    ensures n * i < n * j
  {
  }

  lemma HoldsOneMore(s: ShardState, n: nat, m: nat)
    requires n > 0 && HoldsFirst(s, n, m) && m < s.capacity
    ensures HoldsFirst(InsertInto(s, n * m, CiscoAsa).shard, n, m + 1)
  {
    Ascending(n, m, m + 1);
    assert n * m !in s.entries;
  }

  /** Filling a shard up to its capacity evicts nothing. */
  lemma {:induction false} Filled(n: nat, capacity: nat, m: nat)
    requires ShardCount(n) && m <= capacity
    ensures var s := Run(n, capacity, Filling(n, m)).shards[0];
      s.capacity == capacity && HoldsFirst(s, n, m)
  {
    if m == 0 {
    } else {
      var before, put := Filling(n, m - 1), Put(n * (m - 1), CiscoAsa);
      Filled(n, capacity, m - 1);
      RunOneMore(n, capacity, before, Insert(put));
      Multiple(n, m - 1);
      HoldsOneMore(Run(n, capacity, before).shards[0], n, m - 1);
    }
  }

  /** Key `i` of the filling is used at `i + 1`. */
  lemma {:induction false} FillingUse(n: nat, m: nat, i: nat)
    requires ShardCount(n) && i < m
    ensures LastUse(Filling(n, m), n * i) == i + 1
  {
    LastUseNext(Filling(n, m - 1), Insert(Put(n * (m - 1), CiscoAsa)), n * i);
    if i == m - 1 {
    } else {
      FillingUse(n, m - 1, i);
      Ascending(n, i, m - 1);
    }
  }

  /** With room for two keys or more: fill the shard, look up the front, insert a fresh key. */
  lemma {:induction false} FrontLookedUpIsEvicted(n: nat, capacity: nat)
    requires ShardCount(n) && capacity >= 2
    ensures var ops := Filling(n, capacity) + [Get(0)];
      var c := Run(n, capacity, ops);
      Evicts(c, n * capacity) && !EvictsLeastRecent(c, n * capacity, ops)
  {
    var filling := Filling(n, capacity);
    var ops := filling + [Get(0)];
    Filled(n, capacity, capacity);
    FillingUse(n, capacity, 1);
    RunOneMore(n, capacity, filling, Get(0));
    LastUseNext(filling, Get(0), 0);
    LastUseNext(filling, Get(0), n * 1);
    Multiple(n, capacity);
    var c := Run(n, capacity, ops);
    var s := c.shards[0];
    assert s == Run(n, capacity, filling).shards[0];
    assert s.order[0] == n * 0 == 0 && s.order[1] == n * 1 && s.order[1] in s.entries;
    assert LastUse(ops, 0) == capacity + 1;
    assert LastUse(ops, n * 1) == LastUse(filling, n * 1) == 2;
  }

  /** First in, first out is least recently used exactly when no shard holds two keys at a time. */
  lemma {:induction false} LruExact(n: nat, capacity: nat)
    requires ShardCount(n)
    ensures AlwaysLeastRecent(n, capacity) <==> capacity <= 1
  {
    if capacity <= 1 {
      forall ops, key | Evicts(Run(n, capacity, ops), key)
        ensures EvictsLeastRecent(Run(n, capacity, ops), key, ops)
      {
        SmallShardsAreLru(n, capacity, ops, key);
      }
    } else {
      FrontLookedUpIsEvicted(n, capacity);
    }
  }

  /** One shard for two keys: insert 0 and 1, look 0 up, insert 2: the key used last goes. */
  lemma {:induction false} RecentKeyEvicted(a: VendorFormat, b: VendorFormat, c: VendorFormat)
    ensures var ops := [Insert(Put(0, a)), Insert(Put(1, b)), Get(0)];
      var before, after := Run(1, 2, ops), Run(1, 2, ops + [Insert(Put(2, c))]);
      && LastUse(ops, 1) < LastUse(ops, 0)
      && Lookup(before, 0) == Some(a) && Lookup(before, 1) == Some(b)
      && Lookup(after, 0) == None && Lookup(after, 1) == Some(b) && Lookup(after, 2) == Some(c)
  {
    var ops := [Insert(Put(0, a)), Insert(Put(1, b)), Get(0)];
    RunOneMore(1, 2, [], ops[0]);
    RunOneMore(1, 2, ops[..1], ops[1]);
    RunOneMore(1, 2, ops[..2], ops[2]);
    RunOneMore(1, 2, ops, Insert(Put(2, c)));
    LastUseNext(ops[..2], ops[2], 0);
    LastUseNext(ops[..2], ops[2], 1);
    assert [] + [ops[0]] == ops[..1] && ops[..1] + [ops[1]] == ops[..2] && ops[..2] + [ops[2]] == ops;
  }

  /** The lookups that were answered. */
  function Answered(n: nat, capacity: nat, ops: seq<Op>): nat
    requires ShardCount(n)
  {
    if ops == [] then 0
    else
      var op, before := ops[|ops| - 1], ops[..|ops| - 1];
      Answered(n, capacity, before) + if op.Get? && Lookup(Run(n, capacity, before), op.key).Some? then 1 else 0
  }

  /** Hits are the lookups answered, misses the others. */
  lemma {:induction false} HitsAreAnswers(n: nat, capacity: nat, ops: seq<Op>)
    requires ShardCount(n)
    ensures Run(n, capacity, ops).hits == Answered(n, capacity, ops)
    ensures Run(n, capacity, ops).misses == Gets(ops) - Answered(n, capacity, ops)
  {
    if ops == [] {
    } else {
      HitsAreAnswers(n, capacity, ops[..|ops| - 1]);
    }
  }

  /** What is put can be looked up at once, whatever had to go for it. */
  lemma {:induction false} PutIsFound(n: nat, capacity: nat, ops: seq<Op>, put: Put)
    requires ShardCount(n)
    ensures Lookup(Run(n, capacity, ops + [Insert(put)]), put.key) == Some(put.format)
  {
    RunOneMore(n, capacity, ops, Insert(put));
  }

  /** A key goes only when it is the oldest of a full shard and a fresh key of that shard comes. */
  lemma {:induction false} KeyGoesExactly(n: nat, capacity: nat, ops: seq<Op>, op: Op, key: nat)
    requires ShardCount(n) && Lookup(Run(n, capacity, ops), key).Some?
    ensures var s := Run(n, capacity, ops).shards[key % n];
      Lookup(Run(n, capacity, ops + [op]), key).None?
      <==> && op.Insert? && op.put.key % n == key % n && op.put.key !in s.entries
           && |s.entries| >= capacity && s.order != [] && s.order[0] == key
  {
    RunOneMore(n, capacity, ops, op);
    EveryShardOk(n, capacity, ops, key % n);
  }
}
