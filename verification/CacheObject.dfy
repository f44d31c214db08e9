/** The expiring cache as an object; clock readings are inputs. Items are pointed to by their key. */
module CacheObject {
  import opened CacheModel
  import opened CacheRuns

  class ExpiringCache<K(==, !new), V(!new)> {
    const m: Setup
    const nullValue: V
    var items: map<K, Item<V>>
    var byUse: map<nat, K>
    var byExp: seq<K>
    var nextUse: nat

    ghost function Model(): Cache<K, V>
      reads this
    {
      Cache(items, byUse, byExp, nextUse)
    }

    ghost predicate Valid()
      reads this
    {
      Agree(Model()) && |items| <= m.maxSize
    }

    constructor (m: Setup, nullValue: V)
      ensures Valid() && this.m == m && this.nullValue == nullValue && Model() == NewCache()
    {
      NewAgrees<K, V>();
      this.m, this.nullValue := m, nullValue;
      items, byUse, byExp, nextUse := map[], map[], [], 0;
    }

    method DelItemLocked(key: K)
      requires Valid() && key in items
      modifies `items, `byUse, `byExp
      ensures Valid() && Model() == Removed(old(Model()), key)
    {
      hide Agree, Without;
      RemovedAgrees(Model(), key);
      var use := items[key].use;
      items := items - {key};
      byUse := byUse - {use};
      byExp := Without(byExp, key);
    }

    /** Deletes by the replacement algorithm; `victim` is what went, if anything. */
    method DelByAlgorithmLocked(ghost unused: K) returns (ghost victim: K)
      requires Valid()
      modifies `items, `byUse, `byExp
      ensures Valid() && Doomed(m, old(Model()), victim) && Model() == Removed(old(Model()), victim)
    {
      victim := unused;
      StampsOrNothing(Model());
      if byUse.Keys == {} {
        return;
      }
      var key: K;
      match m.algorithm {
        case LRU =>
          ghost var least := LeastStamp(byUse.Keys);
          var u :| u in byUse && forall v :: v in byUse ==> u <= v;
          key := byUse[u];
        case MRU =>
          ghost var greatest := GreatestStamp(byUse.Keys);
          var u :| u in byUse && forall v :: v in byUse ==> v <= u;
          key := byUse[u];
        case RANDOM =>
          var k :| k in items;
          key := k;
      }
      victim := key;
      VictimIsItem(m.algorithm, Model(), key);
      DelItemLocked(key);
    }

    /** Deletes items from the front of the expiry list up to the first that is still good. */
    method ExpireSomeCache(now: int)
      requires Valid()
      modifies `items, `byUse, `byExp
      ensures Valid() && Model() == Expired(old(Model()), now)
    {
      hide Agree, Removed, ExpiredPrefix, RemovedAll;
      var n := CountExpired(now);
      DelAll(byExp[..n]);
    }

    method CountExpired(now: int) returns (n: nat)
      requires Valid()
      ensures n == ExpiredPrefix(byExp, items, now)
    {
      ListedAreItems(Model());
      hide Agree;
      n := 0;
      while n < |byExp|
        invariant n <= |byExp| && ExpiredPrefix(byExp, items, now) == n + ExpiredPrefix(byExp[n..], items, now)
      {
        if items[byExp[n]].expiration > now {
          break;
        }
        assert byExp[n..][1..] == byExp[n + 1..];
        n := n + 1;
      }
    }

    method DelAll(keys: seq<K>)
      requires Valid()
      modifies `items, `byUse, `byExp
      ensures Valid() && Model() == RemovedAll(old(Model()), keys)
    {
      hide Agree, Removed;
      ghost var target := RemovedAll(Model(), keys);
      assert keys[0..] == keys;
      for i := 0 to |keys|
        invariant Valid() && RemovedAll(Model(), keys[i..]) == target
      {
        assert keys[i..][1..] == keys[i + 1..] && keys[i..][0] == keys[i];
        Del(keys[i]);
      }
    }

    method Del(key: K)
      requires Valid()
      modifies `items, `byUse, `byExp
      ensures Valid() && Model() == Removed(old(Model()), key)
    {
      if key in items {
        DelItemLocked(key);
      }
    }

    /** Adds a value; false when the cache can hold none. */
    method Add(key: K, value: V, ms: int, now: int, later: int) returns (kept: bool, ghost victim: K)
      requires Valid()
      modifies this
      ensures Valid() && Eligible(m, Cleared(old(Model()), key, now), victim)
      ensures Model() == Added(m, old(Model()), key, value, ms, now, later, victim) && kept == (m.maxSize > 0)
    {
      hide Agree, Expired, Removed, Doomed, Inserted;
      victim := key;
      var expiration := if ms == -1 then m.defaultMs else ms;
      ExpireSomeCache(now);
      Del(key);
      ClearedAgrees(old(Model()), key, now);
      ghost var cleared := Model();
      if |items| >= m.maxSize {
        victim := DelByAlgorithmLocked(key);
      }
      PlacedMeans(m, cleared, key, value, later + expiration, victim);
      RemovedAgrees(cleared, victim);
      if |items| >= m.maxSize {
        return false, victim;
      }
      InsertItem(key, value, later + expiration);
      return true, victim;
    }

    method InsertItem(key: K, value: V, expiration: int)
      requires Agree(Model()) && key !in items && |items| < m.maxSize
      modifies this
      ensures Valid() && Model() == Inserted(old(Model()), key, value, expiration)
    {
      hide Agree;
      InsertedAgrees(Model(), key, value, expiration);
      var use := nextUse;
      nextUse := nextUse + 1;
      items := items[key := Item(value, use, expiration)];
      byExp := byExp + [key];
      byUse := byUse[use := key];
    }

    /** The value of a key, which becomes the most recently used. */
    method Get(key: K, now: int) returns (value: V)
      requires Valid()
      modifies this
      ensures Valid() && Model() == Fetched(Expired(old(Model()), now), key)
      ensures value == if key in items then items[key].value else nullValue
      ensures forall k :: k in items ==> k in old(items) && items[k].value == old(items)[k].value
    {
      hide Agree, Expired;
      ExpireSomeCache(now);
      ExpiresExactly(old(Model()), now);
      FetchedAgrees(Model(), key);
      if key !in items {
        return nullValue;
      }
      var item := items[key];
      var use := nextUse;
      nextUse := nextUse + 1;
      byUse := (byUse - {item.use})[use := key];
      items := items[key := item.(use := use)];
      return item.value;
    }
  }

  lemma StampsOrNothing<K, V>(s: Cache<K, V>)
    requires Agree(s)
    ensures s.byUse.Keys == {} <==> s.items.Keys == {}
    ensures s.items.Keys != {} ==> exists k :: k in s.items
  {
    assert (forall k :: k !in s.items) ==> s.items.Keys == {};
    assert (forall u :: u !in s.byUse) ==> s.byUse.Keys == {};
  }

  lemma {:induction false} LeastStamp(stamps: set<nat>) returns (least: nat)
    requires stamps != {}
    ensures least in stamps && forall v :: v in stamps ==> least <= v
    decreases |stamps|
  {
    assert (forall u :: u !in stamps) ==> stamps == {};
    least :| least in stamps;
    var rest := stamps - {least};
    assert forall v :: v in stamps ==> v == least || v in rest;
    if rest != {} {
      var other := LeastStamp(rest);
      least := if least < other then least else other;
    }
  }

  lemma {:induction false} GreatestStamp(stamps: set<nat>) returns (greatest: nat)
    requires stamps != {}
    ensures greatest in stamps && forall v :: v in stamps ==> v <= greatest
    decreases |stamps|
  {
    assert (forall u :: u !in stamps) ==> stamps == {};
    greatest :| greatest in stamps;
    var rest := stamps - {greatest};
    assert forall v :: v in stamps ==> v == greatest || v in rest;
    if rest != {} {
      var other := GreatestStamp(rest);
      greatest := if greatest > other then greatest else other;
    }
  }
}
