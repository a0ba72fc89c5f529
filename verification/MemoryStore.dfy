/** The in-memory cache: entries spread over shards by the hash of their key. */
module MemoryStore {
  import opened Machine
  import opened Sequences
  import opened TagSets
  import opened TimedMap

  /** FNV-1a over the bytes of a key, 32 bits wide. */
  function Fnv32a(key: string): bv32 {
    if key == "" then 2166136261
    else (Fnv32a(key[..|key| - 1]) ^ ((key[|key| - 1] as int % 256) as bv32)) * 16777619
  }

  class Shard {
    var items: map<string, Entry>

    constructor ()
      ensures items == map[]
    {
      items := map[];
    }
  }

  /** Drops what has expired from one shard. */
  method SweepItems(sh: Shard, now: int)
    modifies sh
    ensures forall k :: k in sh.items <==> k in old(sh.items) && !Expired(old(sh.items)[k], now)
    ensures forall k :: k in sh.items ==> sh.items[k] == old(sh.items)[k]
  {
    ghost var was := sh.items;
    var rest := sh.items.Keys;
    while rest != {}
      invariant rest <= sh.items.Keys
      invariant forall k :: k in sh.items <==> k in was && (k in rest || !Expired(was[k], now))
      invariant forall k :: k in sh.items ==> sh.items[k] == was[k]
      decreases rest
    {
      var k :| k in rest;
      if Expired(sh.items[k], now) {
        sh.items := sh.items - {k};
      }
      rest := rest - {k};
    }
  }

  const DEFAULT_SHARDS: nat := 32

  class Store {
    const shards: seq<Shard>
    var tags: Tags
    /** All shards together. */
    ghost var items: map<string, Entry>

    function ShardOf(key: string): (i: nat)
      requires |shards| > 0
      ensures i < |shards|
    {
      Fnv32a(key) as nat % |shards|
    }

    /** A key is in its hash shard and in no other, and items is what the shards hold. */
    ghost predicate Valid()
      reads this, shards
    {
      && |shards| > 0
      && (forall i, j :: 0 <= i < j < |shards| ==> shards[i] != shards[j])
      && (forall i, k :: 0 <= i < |shards| ==> (k in shards[i].items <==> k in items && ShardOf(k) == i))
      && (forall i, k :: 0 <= i < |shards| && k in shards[i].items ==> shards[i].items[k] == items[k])
    }

    ghost function Now(): View
      reads this
    {
      View(items, tags)
    }

    constructor (shardCount: int)
      ensures Valid() && fresh(shards) && Now() == EMPTY
      ensures |shards| == if shardCount <= 0 then DEFAULT_SHARDS else shardCount
    {
      var n := if shardCount <= 0 then DEFAULT_SHARDS else shardCount;
      var made: seq<Shard> := [];
      for i := 0 to n
        invariant |made| == i && fresh(made)
        invariant forall j :: 0 <= j < i ==> made[j].items == map[]
        invariant forall j, k :: 0 <= j < k < i ==> made[j] != made[k]
      {
        var shard := new Shard();
        made := made + [shard];
      }
      shards := made;
      tags := map[];
      items := map[];
    }

    /** The entry a key has, expired or not, from its own shard. */
    method Find(key: string) returns (e: Option<Entry>)
      requires Valid()
      ensures e == if key in items then Some(items[key]) else None
    {
      var sh := shards[ShardOf(key)];
      e := if key in sh.items then Some(sh.items[key]) else None;
    }

    method Get(key: string, now: int) returns (v: Option<Any>)
      requires Valid()
      ensures Apply(Now(), now, TimedMap.Get(key)) == (Now(), Found(v))
    {
      var e := Find(key);
      if e.None? || Expired(e.value, now) {
        return None;
      }
      return Some(e.value.value);
    }

    method Has(key: string, now: int) returns (b: bool)
      requires Valid()
      ensures Apply(Now(), now, TimedMap.Has(key)) == (Now(), Is(b))
    {
      var e := Find(key);
      b := e.Some? && !Expired(e.value, now);
    }

    /** Writes one entry into its shard. */
    method Write(key: string, e: Entry)
      requires Valid()
      modifies this`items, shards
      ensures Valid() && items == old(items)[key := e]
    {
      hide Fnv32a;
      var sh := shards[ShardOf(key)];
      sh.items := sh.items[key := e];
      items := items[key := e];
    }

    /** Deletes one entry from its shard. */
    method Delete(key: string)
      requires Valid()
      modifies this`items, shards
      ensures Valid() && items == old(items) - {key}
    {
      hide Fnv32a;
      var sh := shards[ShardOf(key)];
      sh.items := sh.items - {key};
      items := items - {key};
    }

    method Put(key: string, value: Any, ttl: int, now: int)
      requires Valid()
      modifies this`items, shards
      ensures Valid() && Now() == Apply(old(Now()), now, TimedMap.Put(key, value, ttl)).0
    {
      hide Valid;
      var expireAt := 0;
      if ttl > 0 {
        expireAt := now + ttl;
      }
      Write(key, Entry(value, expireAt));
    }

    /** Takes the key out of its shard, then out of every tag. */
    method Forget(key: string, now: int)
      requires Valid()
      modifies this, shards
      ensures Valid() && Now() == Apply(old(Now()), now, TimedMap.Forget(key)).0
      ensures items == old(items) - {key}
    {
      Delete(key);
      ForgetTags(key);
    }

    /** Takes the key out of every tag. */
    method ForgetTags(key: string)
      modifies this`tags
      ensures tags == Untrack(old(tags), {key})
    {
      ghost var was := tags;
      var rest := tags.Keys;
      while rest != {}
        invariant rest <= tags.Keys == was.Keys
        invariant forall t :: t in was ==> tags[t] == if t in rest then was[t] else was[t] - {key}
        decreases rest
      {
        var t :| t in rest;
        tags := tags[t := tags[t] - {key}];
        rest := rest - {t};
      }
      assert tags == Untrack(was, {key});
    }

    method Flush(now: int)
      requires Valid()
      modifies this, shards
      ensures Valid() && Now() == Apply(old(Now()), now, TimedMap.Flush).0
      ensures items == map[] && tags == map[]
    {
      for i := 0 to |shards|
        invariant forall j :: 0 <= j < i ==> shards[j].items == map[]
      {
        shards[i].items := map[];
      }
      items := map[];
      tags := map[];
    }

    method Pull(key: string, now: int) returns (v: Option<Any>)
      requires Valid()
      modifies this, shards
      ensures Valid() && Apply(old(Now()), now, TimedMap.Pull(key)) == (Now(), Found(v))
      ensures items == old(items) - {key}
    {
      v := Get(key, now);
      Forget(key, now);
    }

    /** A new counter has no expiry; an old one keeps its own. */
    method Increment(key: string, delta: int, now: int) returns (r: Reply)
      requires Valid()
      modifies this`items, shards
      ensures Valid() && Apply(old(Now()), now, TimedMap.Increment(key, delta)) == (Now(), r)
    {
      hide Valid;
      var e := Find(key);
      if e.None? || Expired(e.value, now) {
        Write(key, Entry(Int64(delta), 0));
        return Count(delta);
      }
      var cur := ToInt64(e.value.value);
      if cur.None? {
        return NotNumeric;
      }
      var n := Wrap64(cur.value + delta);
      Write(key, e.value.(value := Int64(n)));
      return Count(n);
    }

    /** The collector's turn on one shard: drops what has expired. */
    method SweepShard(i: nat, now: int)
      requires Valid() && i < |shards|
      modifies this`items, shards[i]
      ensures Valid() && Now() == Apply(old(Now()), now, Sweep(set k | k in old(items) && ShardOf(k) == i)).0
    {
      hide Fnv32a;
      SweepItems(shards[i], now);
      items := Swept(items, (set k | k in items && ShardOf(k) == i), now);
    }

    // ---- tagged access ---------------------------------------------------------------------------

    method Track(tagList: seq<string>, key: string)
      modifies this`tags
      ensures tags == TimedMap.Track(old(tags), tagList, key)
    {
      ghost var was := tags;
      TrackNone(was, key);
      for i := 0 to |tagList|
        invariant tags == TimedMap.Track(was, tagList[..i], key)
      {
        var t := tagList[i];
        if t !in tags {
          tags := tags[t := {}];
        }
        tags := tags[t := tags[t] + {key}];
        TrackMore(was, tagList[..i], t, key);
        assert tagList[..i + 1] == tagList[..i] + [t];
      }
      assert tagList[..|tagList|] == tagList;
    }

    method TaggedPut(tagList: seq<string>, key: string, value: Any, ttl: int, now: int)
      requires Valid()
      modifies this, shards
      ensures Valid() && Now() == Apply(old(Now()), now, TagPut(tagList, key, value, ttl)).0
    {
      Track(tagList, key);
      Put(key, value, ttl, now);
    }

    method TaggedIncrement(tagList: seq<string>, key: string, delta: int, now: int) returns (r: Reply)
      requires Valid()
      modifies this, shards
      ensures Valid() && Apply(old(Now()), now, TagIncrement(tagList, key, delta)) == (Now(), r)
    {
      Track(tagList, key);
      r := Increment(key, delta, now);
    }

    /** Collects the keys of the tags and drops the tags. */
    method DropTags(tagList: seq<string>) returns (keys: set<string>)
      modifies this`tags
      ensures keys == AllKeysUnder(old(tags), tagList) && tags == Without(old(tags), tagList)
    {
      ghost var was := tags;
      keys := {};
      for i := 0 to |tagList|
        invariant tags == Without(was, tagList[..i]) && keys == AllKeysUnder(was, tagList[..i])
      {
        var t := tagList[i];
        MoreKeys(was, tagList[..i], t);
        assert tagList[..i + 1] == tagList[..i] + [t];
        keys := keys + KeysUnder(tags, t);
        tags := tags - {t};
      }
      assert tagList[..|tagList|] == tagList;
    }

    /** Forgets keys one by one. */
    method ForgetEach(keys: set<string>, now: int)
      requires Valid()
      modifies this, shards
      ensures Valid() && Now() == ForgetAll(old(Now()), keys)
    {
      hide Valid;
      ghost var v := Now();
      var rest := keys;
      ForgetNone(v);
      assert keys - rest == {};
      while rest != {}
        invariant Valid() && rest <= keys
        invariant Now() == ForgetAll(v, keys - rest)
        decreases rest
      {
        var k :| k in rest;
        Forget(k, now);
        ForgetMore(v, keys - rest, k);
        assert keys - (rest - {k}) == keys - rest + {k};
        rest := rest - {k};
      }
      assert keys - rest == keys;
    }

    /** Collects the keys of the tags, drops the tags, then forgets the keys. */
    method TaggedFlush(tagList: seq<string>, now: int)
      requires Valid()
      modifies this, shards
      ensures Valid() && Now() == Apply(old(Now()), now, TagFlush(tagList)).0
    {
      hide Fnv32a;
      var keys := DropTags(tagList);
      ForgetEach(keys, now);
    }
  }

  function Without(tags: Tags, ts: seq<string>): Tags {
    tags - (set t | t in ts)
  }

  lemma TrackNone(tags: Tags, key: string)
    ensures TimedMap.Track(tags, [], key) == tags
  {
    assert TimedMap.Track(tags, [], key).Keys == tags.Keys;
    assert forall t :: t in tags ==> KeysUnder(tags, t) + {} == tags[t];
  }

  lemma TrackMore(tags: Tags, ts: seq<string>, t: string, key: string)
    ensures var was := TimedMap.Track(tags, ts, key);
      TimedMap.Track(tags, ts + [t], key) == was[t := KeysUnder(was, t) + {key}]
  {
    var was, more := TimedMap.Track(tags, ts, key), TimedMap.Track(tags, ts + [t], key);
    assert more.Keys == was.Keys + {t};
    forall x | x in more ensures more[x] == was[t := KeysUnder(was, t) + {key}][x] {
    }
  }

  lemma MoreKeys(tags: Tags, ts: seq<string>, t: string)
    ensures AllKeysUnder(tags, ts + [t]) == AllKeysUnder(tags, ts) + KeysUnder(Without(tags, ts), t)
    ensures Without(tags, ts + [t]) == Without(tags, ts) - {t}
  {
    assert forall x :: x in ts + [t] <==> x in ts || x == t;
    forall k: string
      ensures k in AllKeysUnder(tags, ts + [t]) <==> k in AllKeysUnder(tags, ts) || k in KeysUnder(Without(tags, ts), t)
    {
      assert k in KeysUnder(tags, t) ==> t in ts + [t];
      if k in AllKeysUnder(tags, ts) {
        var x :| x in ts && k in KeysUnder(tags, x);
        assert x in ts + [t];
      }
    }
  }

  lemma ForgetNone(v: View)
    ensures ForgetAll(v, {}) == v
  {
    assert forall t :: t in v.tags ==> v.tags[t] - {} == v.tags[t];
    assert Untrack(v.tags, {}) == v.tags;
    assert v.items - {} == v.items;
  }

  lemma ForgetMore(v: View, keys: set<string>, k: string)
    ensures ForgetAll(ForgetAll(v, keys), {k}) == ForgetAll(v, keys + {k})
  {
    assert forall t :: t in v.tags ==> v.tags[t] - keys - {k} == v.tags[t] - (keys + {k});
    assert Untrack(Untrack(v.tags, keys), {k}) == Untrack(v.tags, keys + {k});
    assert v.items - keys - {k} == v.items - (keys + {k});
  }
}
