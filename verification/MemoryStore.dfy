/** The in-memory store (MemoryStore.h) over sharded maps (KVStore.h). */
module MemoryStores {
  import opened Text

  class KVStore {
    const shards: array<map<string, string>>

    constructor (n: nat)
      ensures shards.Length == n && fresh(shards) && forall i :: 0 <= i < n ==> shards[i] == map[]
    {
      shards := new map<string, string>[n](_ => map[]);
    }

    function Get(shard: nat, k: string): Option<string>
      requires shard < shards.Length
      reads shards
    {
      if k in shards[shard] then Some(shards[shard][k]) else None
    }

    method Set(shard: nat, k: string, v: string)
      requires shard < shards.Length
      modifies shards
      ensures shards[shard] == old(shards[shard])[k := v]
      ensures forall i :: 0 <= i < shards.Length && i != shard ==> shards[i] == old(shards[i])
    {
      shards[shard] := shards[shard][k := v];
    }
  }

  /** The first byte picks the shard; an empty key has a NUL there. */
  function ShardOf(key: string, n: nat): (shard: nat)
    requires n > 0
    ensures shard < n
  {
    if key == "" then 0 else key[0] as int % 256 % n
  }

  class MemoryStore {
    const kv: KVStore
    const shards: nat
    ghost var contents: map<string, string>

    /** The shards together hold `contents`, each key in the shard of its first byte. */
    ghost predicate Valid()
      reads this, kv.shards
    {
      && 0 < shards == kv.shards.Length
      && forall k :: kv.Get(ShardOf(k, shards), k) == if k in contents then Some(contents[k]) else None
    }

    constructor (kv: KVStore, shards: nat)
      requires 0 < shards == kv.shards.Length && forall i :: 0 <= i < shards ==> kv.shards[i] == map[]
      ensures Valid() && this.kv == kv && contents == map[]
    {
      this.kv, this.shards := kv, shards;
      contents := map[];
    }

    method Get(key: string) returns (v: Option<string>)
      requires Valid()
      ensures v == if key in contents then Some(contents[key]) else None
    {
      v := kv.Get(ShardOf(key, shards), key);
    }

    /** The ttl is ignored. */
    method SetNX(key: string, value: string, ttl: int) returns (ok: bool)
      requires Valid()
      modifies this, kv.shards
      ensures Valid() && ok == (key !in old(contents))
      ensures contents == if ok then old(contents)[key := value] else old(contents)
    {
      var shard := ShardOf(key, shards);
      var v := kv.Get(shard, key);
      if v.Some? {
        return false;
      }
      kv.Set(shard, key, value);
      contents := contents[key := value];
      ok := true;
    }

    method Set(key: string, value: string, ttl: int)
      requires Valid()
      modifies this, kv.shards
      ensures Valid() && contents == old(contents)[key := value]
    {
      kv.Set(ShardOf(key, shards), key, value);
      contents := contents[key := value];
    }
  }
}
