/** The LRU cache as a value: a recency-ordered sequence of entries over reference-counted
    values, with the handles that callers hold. `R` names the reference-counted objects. */
module LruModel {
  import opened Collections

  datatype Entry<K, R> = Entry(key: K, ref: R)

  datatype Lru<K, V, R> = Lru(
    entries: seq<Entry<K, R>>,  // most recently used first
    counts: map<R, int>,        // the count of every reference made so far
    values: map<R, V>,          // what each of them holds
    held: multiset<R>,          // handles that were handed out and not released
    pending: set<V>,            // values created by a missed Get that has not come back yet
    destroyed: seq<V>)          // destroyed values, in order

  function Empty<K, V, R>(): Lru<K, V, R> {
    Lru([], map[], map[], multiset{}, {}, [])
  }

  // ------------------------------------------------------------------ positions

  /** The position of a key, or the length when it is absent. */
  function IndexOf<K(==), R>(entries: seq<Entry<K, R>>, key: K): (i: nat)
    ensures i <= |entries|
    ensures i < |entries| ==> entries[i].key == key
    ensures forall j :: 0 <= j < i ==> entries[j].key != key
  {
    if entries == [] || entries[0].key == key then 0 else 1 + IndexOf(entries[1..], key)
  }

  predicate Has<K(==), R>(entries: seq<Entry<K, R>>, key: K) {
    IndexOf(entries, key) < |entries|
  }

  function Without<K, R>(entries: seq<Entry<K, R>>, i: nat): seq<Entry<K, R>>
    requires i < |entries|
  {
    entries[..i] + entries[i + 1..]
  }

  /** Moves an entry to the front. */
  function Touched<K, R>(entries: seq<Entry<K, R>>, i: nat): seq<Entry<K, R>>
    requires i < |entries|
  {
    [entries[i]] + Without(entries, i)
  }

  // ------------------------------------------------------------------ reference counts

  ghost predicate InMap<K, R>(entries: seq<Entry<K, R>>, r: R) {
    exists i :: 0 <= i < |entries| && entries[i].ref == r
  }

  ghost function MapCount<K, R>(entries: seq<Entry<K, R>>, r: R): nat {
    if InMap(entries, r) then 1 else 0
  }

  function Increased<K, V, R(==)>(s: Lru<K, V, R>, r: R): Lru<K, V, R>
    requires r in s.counts
  {
    s.(counts := s.counts[r := s.counts[r] + 1])
  }

  /** `DecRef`: the last reference takes the value with it. */
  function Decreased<K, V, R(==)>(s: Lru<K, V, R>, r: R): Lru<K, V, R>
    requires r in s.counts && r in s.values
  {
    s.(counts := s.counts[r := s.counts[r] - 1],
       destroyed := if s.counts[r] == 1 then s.destroyed + [s.values[r]] else s.destroyed)
  }

  // ------------------------------------------------------------------ the locked regions

  /** A hit: the entry becomes the most recent, and the caller gets a handle. */
  function Hit<K(==), V, R(==)>(s: Lru<K, V, R>, key: K): Lru<K, V, R>
    requires Has(s.entries, key) && s.entries[IndexOf(s.entries, key)].ref in s.counts
  {
    var i := IndexOf(s.entries, key);
    var r := s.entries[i].ref;
    Increased(s, r).(entries := Touched(s.entries, i), held := s.held + multiset{r})
  }

  /** Between the two halves of a missed Get, the policy creates a value. */
  function Created<K, V(==), R>(s: Lru<K, V, R>, v: V): Lru<K, V, R> {
    s.(pending := s.pending + {v})
  }

  /** A new entry at the front, with `count` references to it. */
  function Added<K, V, R(==)>(s: Lru<K, V, R>, key: K, v: V, r: R, count: int): Lru<K, V, R> {
    s.(entries := [Entry(key, r)] + s.entries, counts := s.counts[r := count], values := s.values[r := v])
  }

  /** The second half of a missed Get: the created value becomes the entry unless somebody else's
      got there first, in which case it is destroyed. `r` is the new reference, if one is made. */
  function Finish<K(==), V(==), R(==)>(s: Lru<K, V, R>, key: K, v: V, r: R): Lru<K, V, R>
    requires Has(s.entries, key) ==> s.entries[IndexOf(s.entries, key)].ref in s.counts
  {
    var t := s.(pending := s.pending - {v});
    if Has(s.entries, key) then Hit(t, key).(destroyed := s.destroyed + [v])
    else Added(t, key, v, r, 2).(held := s.held + multiset{r})
  }

  /** Put: a replaced entry is handed to the caller, who also gets the new one if asked for. */
  function Put<K(==), V, R(==)>(s: Lru<K, V, R>, key: K, v: V, r: R, wantAdded: bool): Lru<K, V, R> {
    var i := IndexOf(s.entries, key);
    var t := if i < |s.entries|
             then s.(entries := Without(s.entries, i), held := s.held + multiset{s.entries[i].ref}) else s;
    var u := Added(t, key, v, r, if wantAdded then 2 else 1);
    if wantAdded then u.(held := u.held + multiset{r}) else u
  }

  /** Remove: the entry's reference goes to the caller. */
  function Remove<K(==), V, R(==)>(s: Lru<K, V, R>, key: K): Lru<K, V, R> {
    var i := IndexOf(s.entries, key);
    if i < |s.entries| then s.(entries := Without(s.entries, i), held := s.held + multiset{s.entries[i].ref}) else s
  }

  /** One eviction: the least recent entry loses the cache's reference. */
  function Evict<K, V, R(==)>(s: Lru<K, V, R>): Lru<K, V, R>
    requires s.entries != [] && var r := s.entries[|s.entries| - 1].ref; r in s.counts && r in s.values
  {
    var n := |s.entries| - 1;
    Decreased(s, s.entries[n].ref).(entries := s.entries[..n])
  }

  /** A caller gives a handle back. */
  function Release<K, V, R(==)>(s: Lru<K, V, R>, r: R): Lru<K, V, R>
    requires r in s.counts && r in s.values
  {
    Decreased(s, r).(held := s.held - multiset{r})
  }

  // ------------------------------------------------------------------ the invariant

  ghost predicate DistinctKeys<K, R>(entries: seq<Entry<K, R>>) {
    forall i, j :: 0 <= i < j < |entries| ==> entries[i].key != entries[j].key
  }

  ghost predicate DistinctRefs<K, R>(entries: seq<Entry<K, R>>) {
    forall i, j :: 0 <= i < j < |entries| ==> entries[i].ref != entries[j].ref
  }

  /** Each count is one for the map plus one for every handle, and references are found nowhere
      else than among the counted ones. */
  ghost predicate Counted<K, V, R>(s: Lru<K, V, R>) {
    && s.counts.Keys == s.values.Keys
    && (forall i :: 0 <= i < |s.entries| ==> s.entries[i].ref in s.counts)
    && (forall r :: r in s.held ==> r in s.counts)
    && (forall r :: r in s.counts ==> s.counts[r] == MapCount(s.entries, r) + s.held[r])
  }

  /** Every value has one fate: it waits for its Get, it is held by one live reference, or it has
      been destroyed, once. */
  ghost predicate Fated<K, V, R>(s: Lru<K, V, R>)
    requires s.counts.Keys == s.values.Keys
  {
    && Distinct(s.destroyed)
    && (forall q, r :: q in s.values && r in s.values && q != r ==> s.values[q] != s.values[r])
    && (forall r :: r in s.values ==> s.values[r] !in s.pending && (s.values[r] in s.destroyed <==> s.counts[r] == 0))
    && (forall v :: v in s.pending ==> v !in s.destroyed)
  }

  ghost predicate Inv<K, V, R>(s: Lru<K, V, R>) {
    DistinctKeys(s.entries) && DistinctRefs(s.entries) && Counted(s) && Fated(s)
  }

  /** A value that the cache has not seen. */
  ghost predicate NewValue<K, V, R>(s: Lru<K, V, R>, v: V) {
    v !in s.pending && v !in s.destroyed && forall r :: r in s.values ==> s.values[r] != v
  }

  /** A reference that is in the cache or in a caller's hands has not been destroyed. */
  lemma NoDanglingReference<K, V, R>(s: Lru<K, V, R>, r: R)
    requires Inv(s) && (InMap(s.entries, r) || r in s.held)
    ensures r in s.counts && s.counts[r] > 0 && s.values[r] !in s.destroyed
  {
  }

  // ------------------------------------------------------------------ every step keeps it

  lemma WithoutKeeps<K, R>(entries: seq<Entry<K, R>>, i: nat)
    requires i < |entries| && DistinctKeys(entries) && DistinctRefs(entries)
    ensures var w := Without(entries, i);
            && DistinctKeys(w) && DistinctRefs(w)
            && (forall r :: InMap(w, r) <==> InMap(entries, r) && r != entries[i].ref)
            && (forall j :: 0 <= j < |w| ==> w[j].key != entries[i].key)
  {
    var w := Without(entries, i);
    assert forall j :: 0 <= j < |w| ==> w[j] == entries[if j < i then j else j + 1];
    forall r | InMap(entries, r) && r != entries[i].ref ensures InMap(w, r) {
      var j :| 0 <= j < |entries| && entries[j].ref == r;
      assert w[if j < i then j else j - 1].ref == r;
    }
  }

  lemma FrontKeeps<K, R>(e: Entry<K, R>, w: seq<Entry<K, R>>)
    requires DistinctKeys(w) && DistinctRefs(w) && !InMap(w, e.ref)
    requires forall j :: 0 <= j < |w| ==> w[j].key != e.key
    ensures var f := [e] + w;
            && DistinctKeys(f) && DistinctRefs(f)
            && (forall r :: InMap(f, r) <==> InMap(w, r) || r == e.ref)
  {
    var f := [e] + w;
    forall r ensures InMap(f, r) <==> InMap(w, r) || r == e.ref {
      FrontInMap(e, w, r);
    }
    forall i, j | 0 <= i < j < |f| ensures f[i].key != f[j].key && f[i].ref != f[j].ref {
      assert f[j] == w[j - 1] && InMap(w, w[j - 1].ref);
      assert i > 0 ==> f[i] == w[i - 1];
    }
  }

  lemma FrontInMap<K, R>(e: Entry<K, R>, w: seq<Entry<K, R>>, r: R)
    ensures InMap([e] + w, r) <==> InMap(w, r) || r == e.ref
  {
    var f := [e] + w;
    if InMap(w, r) {
      var j :| 0 <= j < |w| && w[j].ref == r;
      assert f[j + 1].ref == r;
    }
    if r == e.ref {
      assert f[0].ref == r;
    }
    if InMap(f, r) && r != e.ref {
      var j :| 0 <= j < |f| && f[j].ref == r;
      assert w[j - 1].ref == r;
    }
  }

  lemma TouchedKeeps<K, R>(entries: seq<Entry<K, R>>, i: nat)
    requires i < |entries| && DistinctKeys(entries) && DistinctRefs(entries)
    ensures DistinctKeys(Touched(entries, i)) && DistinctRefs(Touched(entries, i))
    ensures forall r :: InMap(Touched(entries, i), r) <==> InMap(entries, r)
  {
    WithoutKeeps(entries, i);
    FrontKeeps(entries[i], Without(entries, i));
  }

  lemma HitKeeps<K, V, R>(s: Lru<K, V, R>, key: K)
    requires Inv(s) && Has(s.entries, key)
    ensures Inv(Hit(s, key))
  {
    TouchedKeeps(s.entries, IndexOf(s.entries, key));
    var i := IndexOf(s.entries, key);
    assert InMap(s.entries, s.entries[i].ref);
    RefsOf(Touched(s.entries, i), s.entries, s.counts);
  }

  /** Entries whose references all come from counted entries are counted. */
  lemma RefsOf<K, R>(a: seq<Entry<K, R>>, b: seq<Entry<K, R>>, counts: map<R, int>)
    requires forall i :: 0 <= i < |b| ==> b[i].ref in counts
    requires forall r :: InMap(a, r) ==> InMap(b, r)
    ensures forall i :: 0 <= i < |a| ==> a[i].ref in counts
  {
    forall i | 0 <= i < |a| ensures a[i].ref in counts {
      assert InMap(a, a[i].ref);
    }
  }

  lemma AddedKeeps<K, V, R>(s: Lru<K, V, R>, key: K, v: V, r: R, wanted: bool)
    requires Inv(s) && NewValue(s, v) && r !in s.counts && !Has(s.entries, key)
    ensures var u := Added(s, key, v, r, if wanted then 2 else 1);
            Inv(if wanted then u.(held := s.held + multiset{r}) else u)
  {
    UnknownRef(s, r);
    hide Counted, Fated, NewValue, InMap, DistinctKeys, DistinctRefs;
    FrontKeeps(Entry(key, r), s.entries);
    var u := Added(s, key, v, r, if wanted then 2 else 1);
    var t := if wanted then u.(held := s.held + multiset{r}) else u;
    assert t.held[r] == if wanted then 1 else 0;
    AddedCounted(s, t, key, v, r);
    AddedFated(s, t, v, r, 1 + t.held[r]);
  }

  lemma UnknownRef<K, V, R>(s: Lru<K, V, R>, r: R)
    requires Counted(s) && r !in s.counts
    ensures s.counts.Keys == s.values.Keys && !InMap(s.entries, r) && s.held[r] == 0
  {
  }

  lemma AddedFated<K, V, R>(s: Lru<K, V, R>, t: Lru<K, V, R>, v: V, r: R, n: int)
    requires s.counts.Keys == s.values.Keys && Fated(s) && NewValue(s, v) && r !in s.counts
    requires t.values == s.values[r := v] && n > 0 && t.counts == s.counts[r := n]
    requires t.pending == s.pending && t.destroyed == s.destroyed
    ensures Fated(t)
  {
  }

  lemma AddedCounted<K, V, R>(s: Lru<K, V, R>, t: Lru<K, V, R>, key: K, v: V, r: R)
    requires Counted(s) && r !in s.counts && t.entries == [Entry(key, r)] + s.entries
    requires t.values == s.values[r := v] && (t.held == s.held || t.held == s.held + multiset{r})
    requires t.counts == s.counts[r := 1 + t.held[r]]
    requires forall q :: InMap(t.entries, q) <==> InMap(s.entries, q) || q == r
    ensures Counted(t)
  {
    assert forall i :: 0 <= i < |t.entries| ==> t.entries[i] == if i == 0 then Entry(key, r) else s.entries[i - 1];
    forall q | q in t.counts ensures t.counts[q] == MapCount(t.entries, q) + t.held[q] {
      assert q != r ==> t.held[q] == s.held[q];
    }
  }

  lemma RemoveKeeps<K, V, R>(s: Lru<K, V, R>, key: K)
    requires Inv(s)
    ensures Inv(Remove(s, key)) && !Has(Remove(s, key).entries, key)
  {
    var i := IndexOf(s.entries, key);
    if i < |s.entries| {
      WithoutKeeps(s.entries, i);
      assert InMap(s.entries, s.entries[i].ref);
      RefsOf(Without(s.entries, i), s.entries, s.counts);
    }
  }

  lemma PutKeeps<K, V, R>(s: Lru<K, V, R>, key: K, v: V, r: R, wantAdded: bool)
    requires Inv(s) && NewValue(s, v) && r !in s.counts
    ensures Inv(Put(s, key, v, r, wantAdded))
  {
    RemoveKeeps(s, key);
    AddedKeeps(Remove(s, key), key, v, r, wantAdded);
  }

  lemma FinishKeeps<K, V, R>(s: Lru<K, V, R>, key: K, v: V, r: R)
    requires Inv(s) && v in s.pending && r !in s.counts
    ensures Inv(Finish(s, key, v, r))
  {
    var t := s.(pending := s.pending - {v});
    assert Inv(t);
    if Has(s.entries, key) {
      HitKeeps(t, key);
      var u := Hit(t, key);
      assert forall i :: 0 <= i < |s.destroyed| ==> s.destroyed[i] in s.destroyed;
    } else {
      AddedKeeps(t, key, v, r, true);
    }
  }

  lemma DestroyedOnce<V>(destroyed: seq<V>, v: V)
    requires Distinct(destroyed) && v !in destroyed
    ensures Distinct(destroyed + [v])
  {
  }

  lemma EvictKeeps<K, V, R>(s: Lru<K, V, R>)
    requires Inv(s) && s.entries != []
    ensures Inv(Evict(s))
  {
    var n := |s.entries| - 1;
    var r := s.entries[n].ref;
    assert Without(s.entries, n) == s.entries[..n];
    WithoutKeeps(s.entries, n);
    assert InMap(s.entries, r);
    DestroyedOnceIfLast(s, r);
  }

  lemma DestroyedOnceIfLast<K, V, R>(s: Lru<K, V, R>, r: R)
    requires Inv(s) && r in s.counts && s.counts[r] > 0
    ensures Fated(Decreased(s, r))
  {
    if s.counts[r] == 1 {
      DestroyedOnce(s.destroyed, s.values[r]);
    }
  }

  lemma ReleaseKeeps<K, V, R>(s: Lru<K, V, R>, r: R)
    requires Inv(s) && r in s.held
    ensures Inv(Release(s, r))
  {
    DestroyedOnceIfLast(s, r);
  }

  // ------------------------------------------------------------------ whole runs

  /** What threads do, one locked region at a time, in any order. */
  datatype Event<K, V, R> =
    | GetHit(key: K)
    | GetCreated(value: V)
    | GetFinish(key: K, value: V, ref: R)
    | PutValue(key: K, value: V, ref: R, wantAdded: bool)
    | RemoveKey(key: K)
    | EvictLast
    | ReleaseHandle(ref: R)

  ghost predicate Enabled<K, V, R>(s: Lru<K, V, R>, e: Event<K, V, R>) {
    match e
    case GetHit(key) => Has(s.entries, key)
    case GetCreated(v) => NewValue(s, v)
    case GetFinish(key, v, r) => v in s.pending && r !in s.counts
    case PutValue(key, v, r, _) => NewValue(s, v) && r !in s.counts
    case RemoveKey(key) => true
    case EvictLast => s.entries != []
    case ReleaseHandle(r) => r in s.held
  }

  ghost function Apply<K, V, R>(s: Lru<K, V, R>, e: Event<K, V, R>): (t: Lru<K, V, R>)
    requires Inv(s) && Enabled(s, e)
  {
    match e
    case GetHit(key) => Hit(s, key)
    case GetCreated(v) => Created(s, v)
    case GetFinish(key, v, r) => Finish(s, key, v, r)
    case PutValue(key, v, r, wantAdded) => Put(s, key, v, r, wantAdded)
    case RemoveKey(key) => Remove(s, key)
    case EvictLast => Evict(s)
    case ReleaseHandle(r) => Release(s, r)
  }

  lemma ApplyKeeps<K, V, R>(s: Lru<K, V, R>, e: Event<K, V, R>)
    requires Inv(s) && Enabled(s, e)
    ensures Inv(Apply(s, e))
  {
    match e
    case GetHit(key) => HitKeeps(s, key);
    case GetCreated(v) =>
    case GetFinish(key, v, r) => FinishKeeps(s, key, v, r);
    case PutValue(key, v, r, wantAdded) => PutKeeps(s, key, v, r, wantAdded);
    case RemoveKey(key) => RemoveKeeps(s, key);
    case EvictLast => EvictKeeps(s);
    case ReleaseHandle(r) => ReleaseKeeps(s, r);
  }

  ghost predicate Follows<K, V, R>(s: Lru<K, V, R>, e: Event<K, V, R>, t: Lru<K, V, R>) {
    Inv(s) ==> Enabled(s, e) && t == Apply(s, e)
  }

  /** A run: states linked by enabled events. */
  ghost predicate IsRun<K, V, R>(states: seq<Lru<K, V, R>>, events: seq<Event<K, V, R>>) {
    && |states| == |events| + 1
    && states[0] == Empty()
    && forall i :: 0 <= i < |events| ==> Follows(states[i], events[i], states[i + 1])
  }

  /** Reference conservation over every interleaving: in every state of every run, counts, map
      and handles agree, and no value is destroyed twice or while anything refers to it. */
  lemma {:induction false} EveryRunKeepsCount<K, V, R>(
    states: seq<Lru<K, V, R>>, events: seq<Event<K, V, R>>, n: nat)
    requires IsRun(states, events) && n < |states|
    ensures Inv(states[n])
  {
    if n > 0 {
      EveryRunKeepsCount(states, events, n - 1);
      assert Follows(states[n - 1], events[n - 1], states[n - 1 + 1]);
      ApplyKeeps(states[n - 1], events[n - 1]);
    }
  }

  /** What becomes of a created value: it is the newest entry, or it was destroyed because the
      key had been filled in the meantime. Either way the caller gets the entry for the key. */
  lemma FateOfCreated<K, V, R>(s: Lru<K, V, R>, key: K, v: V, r: R)
    requires Inv(s) && v in s.pending && r !in s.counts
    ensures var t := Finish(s, key, v, r);
            && t.entries != [] && t.entries[0].key == key
            && t.held == s.held + multiset{t.entries[0].ref}
            && t.counts[t.entries[0].ref] >= 2
            && (if Has(s.entries, key) then
                  t.destroyed == s.destroyed + [v] && t.values == s.values
                else
                  t.destroyed == s.destroyed && t.values[t.entries[0].ref] == v)
  {
    FinishKeeps(s, key, v, r);
    var t := Finish(s, key, v, r);
    assert InMap(t.entries, t.entries[0].ref);
  }
}
