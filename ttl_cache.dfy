/**
 * The freshness rule every getter of the scope cache applies to one data
 * kind: a map from repository name to a cached list, beside a map from
 * repository name to the instant that list was stored.
 */
module TtlCache {

  /** One day, in seconds: the single time-to-live of every cache entry. */
  const TTL: int := 86400

  /**
   * An entry stamped at `stamp` has expired at `now` when it is older than
   * one day: an entry exactly one day old is still fresh.
   */
  predicate IsCacheExpired(stamp: int, now: int)
    ensures IsCacheExpired(stamp, now) <==> now - stamp > TTL
  {
    stamp < now - TTL
  }

  /** An expired entry stays expired as time goes on; a fresh one was fresh all along. */
  lemma ExpiredStaysExpired(stamp: int, t0: int, t1: int)
    requires t0 <= t1
    ensures IsCacheExpired(stamp, t0) ==> IsCacheExpired(stamp, t1)
    ensures !IsCacheExpired(stamp, t1) ==> !IsCacheExpired(stamp, t0)
  {
  }

  datatype Cache<T> = Cache(entries: map<string, seq<T>>, stamps: map<string, int>) {
    /** Every cached key has a timestamp, so a staleness check never misses. */
    predicate Stamped() {
      entries.Keys <= stamps.Keys
    }

    /** `key` is cached and its entry is still fresh at `now`. */
    predicate FreshAt(key: string, now: int)
      requires key in entries ==> key in stamps
    {
      key in entries && !IsCacheExpired(stamps[key], now)
    }
  }

  /** The cache after a lookup, and the list the lookup returned. */
  datatype Lookup<T> = Lookup(cache: Cache<T>, value: seq<T>)

  /**
   * A getter's lookup of `key` at `now`: a fresh entry is served as it is;
   * otherwise `fetched` (the list the platform returns in full) replaces
   * the entry and the entry is stamped `now`.
   */
  function Get<T>(c: Cache<T>, key: string, now: int, fetched: seq<T>): (r: Lookup<T>)
    requires key in c.entries ==> key in c.stamps
    ensures key in r.cache.entries && key in r.cache.stamps && r.value == r.cache.entries[key]
    ensures r.cache.entries.Keys == c.entries.Keys + {key}
    ensures r.cache.stamps.Keys == c.stamps.Keys + {key}
    ensures forall k :: k != key && k in c.entries ==> r.cache.entries[k] == c.entries[k]
    ensures forall k :: k != key && k in c.stamps ==> r.cache.stamps[k] == c.stamps[k]
    ensures r.cache == c || (r.value == fetched && r.cache.stamps[key] == now)
    ensures c.Stamped() ==> r.cache.Stamped()
  {
    if c.FreshAt(key, now) then Lookup(c, c.entries[key])
    else Lookup(Cache(c.entries[key := fetched], c.stamps[key := now]), fetched)
  }

  /** A fresh entry is returned unchanged and nothing in the cache changes. */
  lemma FreshHit<T>(c: Cache<T>, key: string, now: int, fetched: seq<T>)
    requires key in c.entries ==> key in c.stamps
    requires c.FreshAt(key, now)
    ensures Get(c, key, now, fetched) == Lookup(c, c.entries[key])
  {
  }

  /**
   * A missing or stale entry is replaced by the fetched list, not merged
   * with it, and stamped `now`.
   */
  lemma MissOverwrites<T>(c: Cache<T>, key: string, now: int, fetched: seq<T>)
    requires key in c.entries ==> key in c.stamps
    requires !c.FreshAt(key, now)
    ensures Get(c, key, now, fetched).value == fetched
    ensures Get(c, key, now, fetched).cache == Cache(c.entries[key := fetched], c.stamps[key := now])
  {
  }

  /**
   * After a lookup that fetched at `t0`, a second lookup at `t1` is served
   * from the cache, with nothing changed, exactly when `t1` is at most one
   * day after `t0`; later than that it refetches and restamps.
   */
  lemma SecondLookup<T>(c: Cache<T>, key: string, t0: int, f0: seq<T>, t1: int, f1: seq<T>)
    requires key in c.entries ==> key in c.stamps
    requires !c.FreshAt(key, t0)
    ensures var first := Get(c, key, t0, f0);
            var second := Get(first.cache, key, t1, f1);
            (t1 <= t0 + TTL ==> second == Lookup(first.cache, f0))
            && (t1 > t0 + TTL ==> second.value == f1 && second.cache.stamps[key] == t1)
  {
  }

  /**
   * The lookups of a getter that walks a list of repositories: `keys[i]`
   * is looked up at `now` with `fetched[i]` as the platform's answer, in
   * order.
   */
  function RefreshAll<T>(c: Cache<T>, keys: seq<string>, fetched: seq<seq<T>>, now: int): (r: Cache<T>)
    requires |keys| == |fetched| && c.Stamped()
    ensures r.Stamped()
    decreases |keys|
  {
    if keys == [] then c
    else
      var n := |keys| - 1;
      Get(RefreshAll(c, keys[..n], fetched[..n], now), keys[n], now, fetched[n]).cache
  }

  /** Walking a list of keys leaves each of them cached and stamped, and adds no other key. */
  lemma {:induction false} RefreshAllDomain<T>(c: Cache<T>, keys: seq<string>, fetched: seq<seq<T>>, now: int)
    requires |keys| == |fetched| && c.Stamped()
    ensures var r := RefreshAll(c, keys, fetched, now);
            && (forall k :: k in keys ==> k in r.entries && k in r.stamps)
            && (forall k :: k in r.entries ==> k in c.entries || k in keys)
            && (forall k :: k in r.stamps ==> k in c.stamps || k in keys)
    decreases |keys|
  {
    if keys != [] {
      var n := |keys| - 1;
      RefreshAllDomain(c, keys[..n], fetched[..n], now);
      assert forall k :: k in keys <==> k in keys[..n] || k == keys[n] by {
        assert keys == keys[..n] + [keys[n]];
      }
    }
  }

  /** Walking a list of keys leaves the entry and the timestamp of every other key as it was. */
  lemma {:induction false} RefreshAllUnchanged<T>(c: Cache<T>, keys: seq<string>, fetched: seq<seq<T>>, now: int, k: string)
    requires |keys| == |fetched| && c.Stamped() && k !in keys
    ensures var r := RefreshAll(c, keys, fetched, now);
            && (k in c.entries ==> k in r.entries && r.entries[k] == c.entries[k])
            && (k in c.stamps ==> k in r.stamps && r.stamps[k] == c.stamps[k])
    decreases |keys|
  {
    if keys != [] {
      var n := |keys| - 1;
      assert k !in keys[..n] && k != keys[n] by {
        assert keys == keys[..n] + [keys[n]];
      }
      RefreshAllUnchanged(c, keys[..n], fetched[..n], now, k);
    }
  }

  /** Walking one more key is one more lookup on the cache walked so far. */
  lemma RefreshAllStep<T>(c: Cache<T>, keys: seq<string>, fetched: seq<seq<T>>, now: int, i: int)
    requires |keys| == |fetched| && c.Stamped() && 0 <= i < |keys|
    ensures RefreshAll(c, keys[..i + 1], fetched[..i + 1], now)
            == Get(RefreshAll(c, keys[..i], fetched[..i], now), keys[i], now, fetched[i]).cache
  {
    assert keys[..i + 1][..i] == keys[..i];
    assert fetched[..i + 1][..i] == fetched[..i];
  }

  /**
   * One more step of the walk, written as the getters' own test: the next
   * key is refetched and restamped when it is missing or stale.
   */
  lemma RefreshAllNext<T>(c: Cache<T>, keys: seq<string>, fetched: seq<seq<T>>, now: int, i: int,
                          entries: map<string, seq<T>>, stamps: map<string, int>)
    requires |keys| == |fetched| && c.Stamped() && 0 <= i < |keys|
    requires Cache(entries, stamps) == RefreshAll(c, keys[..i], fetched[..i], now)
    ensures keys[i] in entries ==> keys[i] in stamps
    ensures RefreshAll(c, keys[..i + 1], fetched[..i + 1], now)
            == if keys[i] !in entries || IsCacheExpired(stamps[keys[i]], now)
               then Cache(entries[keys[i] := fetched[i]], stamps[keys[i] := now])
               else Cache(entries, stamps)
  {
    RefreshAllStep(c, keys, fetched, now, i);
  }

  /** Two caches that agree on `key` give the same lookup of `key`. */
  lemma GetAgrees<T>(c: Cache<T>, d: Cache<T>, key: string, now: int, fetched: seq<T>)
    requires key in c.entries ==> key in c.stamps
    requires key in c.entries <==> key in d.entries
    requires key in c.entries ==> c.entries[key] == d.entries[key] && key in d.stamps && c.stamps[key] == d.stamps[key]
    ensures Get(c, key, now, fetched).value == Get(d, key, now, fetched).value
    ensures Get(c, key, now, fetched).cache.stamps[key] == Get(d, key, now, fetched).cache.stamps[key]
  {
  }

  predicate Distinct(keys: seq<string>) {
    forall i, j :: 0 <= i < j < |keys| ==> keys[i] != keys[j]
  }

  /**
   * When the keys are distinct, walking them leaves each one exactly as a
   * single lookup of it on the starting cache would.
   */
  lemma {:induction false} RefreshAllPerKey<T>(c: Cache<T>, keys: seq<string>, fetched: seq<seq<T>>, now: int, i: int)
    requires |keys| == |fetched| && c.Stamped() && Distinct(keys) && 0 <= i < |keys|
    ensures var single := Get(c, keys[i], now, fetched[i]);
            var all := RefreshAll(c, keys, fetched, now);
            && keys[i] in all.entries && keys[i] in all.stamps
            && all.entries[keys[i]] == single.value
            && all.stamps[keys[i]] == single.cache.stamps[keys[i]]
    decreases |keys|
  {
    var n := |keys| - 1;
    var before := RefreshAll(c, keys[..n], fetched[..n], now);
    assert RefreshAll(c, keys, fetched, now) == Get(before, keys[n], now, fetched[n]).cache;
    if i == n {
      assert keys[n] !in keys[..n] by {
        forall j | 0 <= j < n ensures keys[..n][j] != keys[n] {
          assert keys[..n][j] == keys[j];
        }
      }
      RefreshAllDomain(c, keys[..n], fetched[..n], now);
      RefreshAllUnchanged(c, keys[..n], fetched[..n], now, keys[n]);
      GetAgrees(c, before, keys[n], now, fetched[n]);
    } else {
      assert keys[..n][i] == keys[i] && fetched[..n][i] == fetched[i];
      assert Distinct(keys[..n]) by {
        forall a, b | 0 <= a < b < n ensures keys[..n][a] != keys[..n][b] {
          assert keys[..n][a] == keys[a] && keys[..n][b] == keys[b];
        }
      }
      RefreshAllPerKey(c, keys[..n], fetched[..n], now, i);
      assert keys[i] != keys[n];
    }
  }
}
