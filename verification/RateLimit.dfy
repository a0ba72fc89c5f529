/** The fixed-window rate limiter on top of the in-memory cache. */
module RateLimit {
  import opened Sequences
  import opened TimedMap
  import opened RateWindow
  import MemoryStore

  class Limiter {
    const store: MemoryStore.Store

    constructor (store: MemoryStore.Store)
      ensures this.store == store
    {
      this.store := store;
    }

    /** Counts a call; the first one of a window sets the expiry, later ones keep it. */
    method Hit(key: string, window: int, now: int) returns (count: Option<int>)
      requires store.Valid()
      modifies store, store.shards
      ensures store.Valid()
      ensures RateWindow.Hit(old(store.Now()), now, key, window) == (store.Now(), count)
    {
      hide store.Valid;
      var ck := CountKey(key);
      var has := store.Has(ck, now);
      if !has {
        store.Put(ck, Int64(1), window, now);
        store.Put(TimerKey(key), Int64((now + window) / NANOS), window, now);
        return Some(1);
      }
      var r := store.Increment(ck, 1, now);
      return if r.Count? then Some(r.n) else None;
    }

    /** Lets a call through while the count is within the limit. */
    method Allow(key: string, limit: int, window: int, now: int) returns (allowed: bool, remaining: int)
      requires store.Valid()
      modifies store, store.shards
      ensures store.Valid()
      ensures var (v', count) := RateWindow.Hit(old(store.Now()), now, key, window);
        && store.Now() == v'
        && allowed == (count.Some? && count.value <= limit)
        && remaining == if allowed then limit - count.value else 0
    {
      var count := Hit(key, window, now);
      if count.None? {
        return false, 0;
      }
      remaining := limit - count.value;
      if remaining < 0 {
        remaining := 0;
      }
      allowed := count.value <= limit;
    }

    method Attempts(key: string, now: int) returns (n: int)
      requires store.Valid()
      ensures n == RateWindow.Attempts(store.Now(), now, key)
    {
      var v := store.Get(CountKey(key), now);
      n := AsInt64(v);
    }

    method TooManyAttempts(key: string, limit: int, now: int) returns (b: bool)
      requires store.Valid()
      ensures b == (RateWindow.Attempts(store.Now(), now, key) >= limit)
    {
      var n := Attempts(key, now);
      b := n >= limit;
    }

    method Clear(key: string, now: int)
      requires store.Valid()
      modifies store, store.shards
      ensures store.Valid() && store.Now() == RateWindow.Clear(old(store.Now()), key)
      ensures store.items == old(store.items) - {"ratelimit:" + key, "ratelimit:" + key + ":timer"}
    {
      store.Forget(CountKey(key), now);
      store.Forget(TimerKey(key), now);
    }
  }
}
