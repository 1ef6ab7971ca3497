/**
 The sharded signature cache. The source calls it LRU; a lookup changes nothing and a shard evicts the
 key that was inserted first, so what is proved is a first-in first-out cache.
 */
module SignatureCache {
  import opened Options
  import opened PowersOfTwo

  datatype VendorFormat = CiscoAsa | Fortinet | PaloAlto | Suricata | PfSense | KaggleFirewall | Unknown

  datatype ShardState = ShardState(capacity: nat, entries: map<nat, VendorFormat>, order: seq<nat>)

  datatype Inserted = Inserted(shard: ShardState, evicted: bool)

  /** An occupied key is overwritten in place; a fresh key first evicts the front of a full queue. */
  function InsertInto(s: ShardState, key: nat, format: VendorFormat): Inserted {
    if key in s.entries then Inserted(s.(entries := s.entries[key := format]), false)
    else if |s.entries| >= s.capacity && s.order != [] then
      Inserted(s.(entries := (s.entries - {s.order[0]})[key := format], order := s.order[1..] + [key]), true)
    else Inserted(s.(entries := s.entries[key := format], order := s.order + [key]), false)
  }

  class Shard {
    const capacity: nat
    var entries: map<nat, VendorFormat>
    var order: seq<nat>

    function State(): ShardState
      reads this
    {
      ShardState(capacity, entries, order)
    }

    constructor (capacity: nat)
      ensures State() == ShardState(capacity, map[], [])
    {
      this.capacity := capacity;
      entries, order := map[], [];
    }

    method Insert(key: nat, format: VendorFormat) returns (evicted: bool)
      modifies this
      ensures Inserted(State(), evicted) == InsertInto(old(State()), key, format)
    {
      if key in entries {
        entries := entries[key := format];
        return false;
      }
      evicted := false;
      if |entries| >= capacity {
        if order != [] {
          var oldest := order[0];
          order := order[1..];
          entries := entries - {oldest};
          evicted := true;
        }
      }
      entries := entries[key := format];
      order := order + [key];
    }
  }

  datatype CacheState = CacheState(shards: seq<ShardState>, hits: nat, misses: nat, evictions: nat)

  predicate ShardCount(n: nat) {
    IsPowerOfTwo(n)
  }

  lemma {:induction false} PowerIsPow2(n: nat) returns (e: nat)
    requires IsPowerOfTwo(n)
    ensures n == Pow2(e)
  {
    if n == 1 {
      e := 0;
    } else {
      var d := PowerIsPow2(n / 2);
      e := d + 1;
    }
  }

  lemma MaskByPower(key: nat, n: nat)
    requires IsPowerOfTwo(n)
    ensures BitAnd(key, n - 1) == key % n
  {
    var e := PowerIsPow2(n);
    MaskIsRemainder(key, e);
  }

  /** The low bits of the signature, by masking. */
  function ShardIndex(key: nat, n: nat): (i: nat)
    requires ShardCount(n)
    ensures i == key % n < n
  {
    MaskByPower(key, n);
    BitAnd(key, n - 1)
  }

  function Lookup(c: CacheState, key: nat): Option<VendorFormat>
    requires ShardCount(|c.shards|)
  {
    var entries := c.shards[ShardIndex(key, |c.shards|)].entries;
    if key in entries then Some(entries[key]) else None
  }

  function CacheGet(c: CacheState, key: nat): CacheState
    requires ShardCount(|c.shards|)
  {
    if Lookup(c, key).Some? then c.(hits := c.hits + 1) else c.(misses := c.misses + 1)
  }

  function CacheInsert(c: CacheState, key: nat, format: VendorFormat): CacheState
    requires ShardCount(|c.shards|)
  {
    var i := ShardIndex(key, |c.shards|);
    var r := InsertInto(c.shards[i], key, format);
    c.(shards := c.shards[i := r.shard], evictions := if r.evicted then c.evictions + 1 else c.evictions)
  }

  function NewCache(n: nat, capacity: nat): CacheState {
    CacheState(seq(n, i => ShardState(capacity, map[], [])), 0, 0, 0)
  }

  class SignatureLruCache {
    const shards: seq<Shard>
    var hits: nat
    var misses: nat
    var evictions: nat

    ghost predicate Valid() {
      ShardCount(|shards|) && forall i, j :: 0 <= i < j < |shards| ==> shards[i] != shards[j]
    }

    function State(): CacheState
      reads this, shards
    {
      CacheState(seq(|shards|, i requires 0 <= i < |shards| reads shards => shards[i].State()), hits, misses, evictions)
    }

    constructor (numShards: nat, capacityPerShard: nat)
      requires ShardCount(numShards)
      ensures Valid() && fresh(shards)
      ensures State() == NewCache(numShards, capacityPerShard)
    {
      var made: seq<Shard> := [];
      for i := 0 to numShards
        invariant |made| == i && fresh(made)
        invariant forall j :: 0 <= j < i ==> made[j].State() == ShardState(capacityPerShard, map[], [])
        invariant forall j, k :: 0 <= j < k < i ==> made[j] != made[k]
      {
        var shard := new Shard(capacityPerShard);
        made := made + [shard];
      }
      shards := made;
      hits, misses, evictions := 0, 0, 0;
    }

    method Get(key: nat) returns (r: Option<VendorFormat>)
      requires Valid()
      modifies this
      ensures r == Lookup(old(State()), key)
      ensures State() == CacheGet(old(State()), key)
    {
      var shard := shards[ShardIndex(key, |shards|)];
      if key in shard.entries {
        hits := hits + 1;
        return Some(shard.entries[key]);
      }
      misses := misses + 1;
      return None;
    }

    method Insert(key: nat, format: VendorFormat)
      requires Valid()
      modifies this, shards
      ensures State() == CacheInsert(old(State()), key, format)
    {
      var i := ShardIndex(key, |shards|);
      var evicted := shards[i].Insert(key, format);
      if evicted {
        evictions := evictions + 1;
      }
      assert State().shards[i] == InsertInto(old(State()).shards[i], key, format).shard;
      assert forall j :: 0 <= j < |shards| && j != i ==> State().shards[j] == old(State()).shards[j];
    }
  }
}
