/** The expiring cache as a value: items by key, by use stamp and in order of insertion. */
module CacheModel {
  import opened Collections

  datatype Algorithm = LRU | MRU | RANDOM

  datatype Item<V> = Item(value: V, use: nat, expiration: int)

  datatype Cache<K, V> = Cache(
    items: map<K, Item<V>>,
    byUse: map<nat, K>,
    byExp: seq<K>,
    nextUse: nat)

  datatype Setup = Setup(algorithm: Algorithm, maxSize: nat, defaultMs: int)

  ghost function NewCache<K, V>(): Cache<K, V> {
    Cache(map[], map[], [], 0)
  }

  // ------------------------------------------------------------------ sequences without repetition

  ghost function Elements<K>(q: seq<K>): set<K> {
    set k | k in q
  }

  function Without<K(==)>(q: seq<K>, k: K): seq<K> {
    if q == [] then [] else if q[0] == k then q[1..] else [q[0]] + Without(q[1..], k)
  }

  lemma {:induction false} WithoutElements<K>(q: seq<K>, k: K)
    requires Distinct(q)
    ensures Distinct(Without(q, k)) && Elements(Without(q, k)) == Elements(q) - {k}
  {
    if q != [] {
      DistinctSplit(q);
      assert q == [q[0]] + q[1..];
      WithoutElements(q[1..], k);
      var w := Without(q[1..], k);
      DistinctSplit([q[0]] + w);
      assert q[0] !in Elements(w);
      assert ([q[0]] + w)[1..] == w;
      assert Elements([q[0]] + w) == {q[0]} + Elements(w);
      assert Elements(q) == {q[0]} + Elements(q[1..]);
    }
  }

  lemma {:induction false} AppendElements<K>(q: seq<K>, k: K)
    requires Distinct(q) && k !in q
    ensures Distinct(q + [k]) && Elements(q + [k]) == Elements(q) + {k}
  {
    if q != [] {
      DistinctSplit(q);
      AppendElements(q[1..], k);
      assert (q + [k])[1..] == q[1..] + [k];
      DistinctSplit(q + [k]);
    }
  }

  // ------------------------------------------------------------------ the invariant

  /** Use stamps and items point at each other. */
  ghost predicate Stamped<K, V>(items: map<K, Item<V>>, byUse: map<nat, K>, nextUse: nat) {
    && (forall k :: k in items ==> items[k].use < nextUse && items[k].use in byUse && byUse[items[k].use] == k)
    && (forall u :: u in byUse ==> byUse[u] in items && items[byUse[u]].use == u)
  }

  /** The three indexes hold the same items. */
  ghost predicate Agree<K, V>(s: Cache<K, V>) {
    Stamped(s.items, s.byUse, s.nextUse) && Distinct(s.byExp) && Elements(s.byExp) == s.items.Keys
  }

  // ------------------------------------------------------------------ steps

  function Removed<K(==), V>(s: Cache<K, V>, k: K): Cache<K, V> {
    if k !in s.items then s
    else Cache(s.items - {k}, s.byUse - {s.items[k].use}, Without(s.byExp, k), s.nextUse)
  }

  function Inserted<K(==), V>(s: Cache<K, V>, k: K, v: V, expiration: int): Cache<K, V> {
    Cache(s.items[k := Item(v, s.nextUse, expiration)], s.byUse[s.nextUse := k], s.byExp + [k], s.nextUse + 1)
  }

  function Fetched<K(==), V>(s: Cache<K, V>, k: K): Cache<K, V> {
    if k !in s.items then s
    else
      var item := s.items[k];
      Cache(s.items[k := item.(use := s.nextUse)], (s.byUse - {item.use})[s.nextUse := k], s.byExp, s.nextUse + 1)
  }

  /** The item with the least or the greatest stamp, or any. */
  ghost predicate IsVictim<K, V>(algorithm: Algorithm, s: Cache<K, V>, k: K) {
    match algorithm
    case LRU => exists u :: u in s.byUse && s.byUse[u] == k && forall v :: v in s.byUse ==> u <= v
    case MRU => exists u :: u in s.byUse && s.byUse[u] == k && forall v :: v in s.byUse ==> v <= u
    case RANDOM => k in s.items
  }

  function RemovedAll<K(==), V>(s: Cache<K, V>, keys: seq<K>): Cache<K, V>
    decreases |keys|
  {
    if keys == [] then s else RemovedAll(Removed(s, keys[0]), keys[1..])
  }

  /** The length of the longest prefix of the expiry list that has expired. */
  function ExpiredPrefix<K(==), V>(byExp: seq<K>, items: map<K, Item<V>>, now: int): (n: nat)
    ensures n <= |byExp|
  {
    if byExp == [] || byExp[0] !in items || items[byExp[0]].expiration > now then 0
    else 1 + ExpiredPrefix(byExp[1..], items, now)
  }

  function Expired<K(==), V>(s: Cache<K, V>, now: int): Cache<K, V> {
    RemovedAll(s, s.byExp[..ExpiredPrefix(s.byExp, s.items, now)])
  }

  /** A full cache loses the victim. If it is still full it keeps nothing new. */
  function Placed<K(==), V>(m: Setup, s: Cache<K, V>, k: K, v: V, expiration: int, victim: K): Cache<K, V> {
    var t := if |s.items| >= m.maxSize then Removed(s, victim) else s;
    if |t.items| >= m.maxSize then t else Inserted(t, k, v, expiration)
  }

  /** Before anything is added, what has expired goes, and so does an old item of that key. */
  function Cleared<K(==), V>(s: Cache<K, V>, k: K, now: int): Cache<K, V> {
    Removed(Expired(s, now), k)
  }

  function Added<K(==), V>(m: Setup, s: Cache<K, V>, k: K, v: V, ms: int, now: int, later: int, victim: K): Cache<K, V> {
    Placed(m, Cleared(s, k, now), k, v, later + if ms == -1 then m.defaultMs else ms, victim)
  }

  // ------------------------------------------------------------------ every step keeps it

  lemma StampedRemoved<K, V>(items: map<K, Item<V>>, byUse: map<nat, K>, nextUse: nat, k: K)
    requires Stamped(items, byUse, nextUse) && k in items
    ensures Stamped(items - {k}, byUse - {items[k].use}, nextUse)
  {
  }

  lemma StampedInserted<K, V>(items: map<K, Item<V>>, byUse: map<nat, K>, nextUse: nat, k: K, item: Item<V>)
    requires Stamped(items, byUse, nextUse) && k !in items && item.use == nextUse
    ensures Stamped(items[k := item], byUse[nextUse := k], nextUse + 1)
  {
  }

  lemma RemovedAgrees<K, V>(s: Cache<K, V>, k: K)
    requires Agree(s)
    ensures Agree(Removed(s, k)) && Removed(s, k).items == s.items - {k} && Removed(s, k).nextUse == s.nextUse
    ensures |Removed(s, k).items| == |s.items| - if k in s.items then 1 else 0
  {
    hide Without, Distinct, Elements, Stamped;
    if k in s.items {
      WithoutElements(s.byExp, k);
      StampedRemoved(s.items, s.byUse, s.nextUse, k);
      assert (s.items - {k}).Keys == s.items.Keys - {k};
    } else {
      assert s.items - {k} == s.items;
    }
  }

  lemma NotListed<K>(q: seq<K>, k: K)
    requires k !in Elements(q)
    ensures k !in q
  {
  }

  lemma InsertedAgrees<K, V>(s: Cache<K, V>, k: K, v: V, expiration: int)
    requires Agree(s) && k !in s.items
    ensures Agree(Inserted(s, k, v, expiration))
  {
    hide Distinct, Elements;
    NotListed(s.byExp, k);
    AppendElements(s.byExp, k);
    var item := Item(v, s.nextUse, expiration);
    StampedInserted(s.items, s.byUse, s.nextUse, k, item);
    hide Stamped;
    assert s.items[k := item].Keys == s.items.Keys + {k};
  }

  lemma FetchedAgrees<K, V>(s: Cache<K, V>, k: K)
    requires Agree(s)
    ensures Agree(Fetched(s, k)) && Fetched(s, k).items.Keys == s.items.Keys
  {
    hide Without, Distinct, Elements, Stamped;
    if k in s.items {
      RemovedAgrees(s, k);
      var r, item := Removed(s, k), s.items[k];
      InsertedAgrees(r, k, item.value, item.expiration);
      var i := Inserted(r, k, item.value, item.expiration);
      assert i.items == s.items[k := item.(use := s.nextUse)];
      assert i.items.Keys == s.items.Keys;
    }
  }

  lemma {:induction false} RemovedAllAgrees<K, V>(s: Cache<K, V>, keys: seq<K>)
    requires Agree(s)
    ensures Agree(RemovedAll(s, keys))
    ensures RemovedAll(s, keys).items == s.items - Elements(keys) && RemovedAll(s, keys).nextUse == s.nextUse
    decreases |keys|
  {
    hide Agree, Removed;
    if keys == [] {
      assert s.items - Elements(keys) == s.items;
    } else {
      RemovedAgrees(s, keys[0]);
      RemovedAllAgrees(Removed(s, keys[0]), keys[1..]);
      assert Elements(keys) == {keys[0]} + Elements(keys[1..]);
      hide Elements;
      OneThenRest(s.items, keys[0], Elements(keys[1..]));
    }
  }

  lemma OneThenRest<K, W>(m: map<K, W>, k: K, rest: set<K>)
    ensures m - ({k} + rest) == (m - {k}) - rest
  {
  }
}
