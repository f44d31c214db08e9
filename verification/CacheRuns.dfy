/** What the expiring cache evicts and expires, and what holds in all of its runs. */
module CacheRuns {
  import opened Collections
  import opened CacheModel

  // ------------------------------------------------------------------ expiry

  /** The scan stops at the first item that has not expired. */
  lemma {:induction false} PrefixStops<K, V>(byExp: seq<K>, items: map<K, Item<V>>, now: int)
    requires forall k :: k in byExp ==> k in items
    ensures var n := ExpiredPrefix(byExp, items, now);
            && (forall i :: 0 <= i < n ==> items[byExp[i]].expiration <= now)
            && (n < |byExp| ==> items[byExp[n]].expiration > now)
  {
    if byExp != [] && items[byExp[0]].expiration <= now {
      PrefixStops(byExp[1..], items, now);
      var n := ExpiredPrefix(byExp[1..], items, now);
      assert forall i :: 1 <= i <= n ==> byExp[i] == byExp[1..][i - 1];
    }
  }

  /** No item that is still good stands before one that has expired. */
  ghost predicate NoneBlocked<K, V>(s: Cache<K, V>, now: int)
    requires forall k :: k in s.byExp ==> k in s.items
  {
    forall i, j :: 0 <= i < j < |s.byExp| && s.items[s.byExp[i]].expiration > now ==> s.items[s.byExp[j]].expiration > now
  }

  lemma ListedAreItems<K, V>(s: Cache<K, V>)
    requires Agree(s)
    ensures forall k :: k in s.byExp ==> k in s.items
    ensures forall k :: k in s.items ==> k in s.byExp
  {
    assert forall k :: k in s.byExp ==> k in Elements(s.byExp);
    assert forall k :: k in s.items ==> k in Elements(s.byExp);
  }

  /** Whatever goes has expired. Everything that has expired goes exactly when none is blocked. */
  lemma ExpiresExactly<K, V>(s: Cache<K, V>, now: int)
    requires Agree(s)
    ensures Agree(Expired(s, now)) && forall k :: k in s.byExp ==> k in s.items
    ensures forall k :: k in Expired(s, now).items ==> k in s.items && Expired(s, now).items[k] == s.items[k]
    ensures forall k :: k in s.items && k !in Expired(s, now).items ==> s.items[k].expiration <= now
    ensures (forall k :: k in Expired(s, now).items ==> s.items[k].expiration > now) <==> NoneBlocked(s, now)
  {
    ListedAreItems(s);
    var n := ExpiredPrefix(s.byExp, s.items, now);
    PrefixStops(s.byExp, s.items, now);
    RemovedAllAgrees(s, s.byExp[..n]);
    PrefixGoes(s, now);
    hide ExpiredPrefix, RemovedAll, NoneBlocked;
    BlockedIff(s, now, n, Expired(s, now));
  }

  /** Exactly the expired prefix of the list goes. */
  lemma PrefixGoes<K, V>(s: Cache<K, V>, now: int)
    requires Agree(s)
    ensures var n := ExpiredPrefix(s.byExp, s.items, now);
            forall i :: 0 <= i < |s.byExp| ==> (s.byExp[i] in Expired(s, now).items <==> n <= i)
  {
    ListedAreItems(s);
    var n := ExpiredPrefix(s.byExp, s.items, now);
    RemovedAllAgrees(s, s.byExp[..n]);
    var t := Expired(s, now);
    hide ExpiredPrefix, RemovedAll;
    forall i | 0 <= i < |s.byExp| ensures s.byExp[i] in t.items <==> n <= i {
      if i < n {
        assert s.byExp[..n][i] in Elements(s.byExp[..n]);
      } else {
        assert forall j :: 0 <= j < n ==> s.byExp[j] != s.byExp[i];
      }
    }
  }

  ghost predicate ExpiredUpTo<K, V>(byExp: seq<K>, items: map<K, Item<V>>, k: K, now: int) {
    exists i :: 0 <= i < |byExp| && byExp[i] == k &&
                forall j :: 0 <= j <= i ==> byExp[j] in items && items[byExp[j]].expiration <= now
  }

  /** An item has expired, and so has everything that was added before it. */
  ghost predicate OutOfDate<K, V>(s: Cache<K, V>, k: K, now: int) {
    ExpiredUpTo(s.byExp, s.items, k, now)
  }

  lemma ExpiryTakesOutOfDate<K, V>(s: Cache<K, V>, now: int, k: K)
    requires Agree(s) && k in s.items
    ensures k in Expired(s, now).items <==> !OutOfDate(s, k, now)
  {
    ListedAreItems(s);
    PrefixStops(s.byExp, s.items, now);
    PrefixGoes(s, now);
    PrefixIsOutOfDate(s.byExp, s.items, ExpiredPrefix(s.byExp, s.items, now), Expired(s, now).items, now, k);
  }

  lemma PrefixIsOutOfDate<K, V>(byExp: seq<K>, items: map<K, Item<V>>, n: nat, left: map<K, Item<V>>, now: int, k: K)
    requires n <= |byExp| && k in byExp && forall i :: 0 <= i < |byExp| ==> byExp[i] in items
    requires forall i :: 0 <= i < |byExp| ==> (byExp[i] in left <==> n <= i)
    requires forall i :: 0 <= i < n ==> items[byExp[i]].expiration <= now
    requires n < |byExp| ==> items[byExp[n]].expiration > now
    ensures k in left <==> !ExpiredUpTo(byExp, items, k, now)
  {
    var i :| 0 <= i < |byExp| && byExp[i] == k;
    if i < n {
      assert byExp[i] == k && forall j :: 0 <= j <= i ==> byExp[j] in items && items[byExp[j]].expiration <= now;
    }
    if ExpiredUpTo(byExp, items, k, now) {
      var x :| 0 <= x < |byExp| && byExp[x] == k &&
               forall j :: 0 <= j <= x ==> byExp[j] in items && items[byExp[j]].expiration <= now;
      assert forall j :: 0 <= j <= x ==> items[byExp[j]].expiration <= now && j != n;
      assert byExp[x] !in left;
    }
  }

  lemma BlockedIff<K, V>(s: Cache<K, V>, now: int, n: nat, t: Cache<K, V>)
    requires forall k :: k in s.byExp ==> k in s.items
    requires forall k :: k in t.items ==> k in s.byExp
    requires n <= |s.byExp| && (forall i :: 0 <= i < n ==> s.items[s.byExp[i]].expiration <= now)
    requires n < |s.byExp| ==> s.items[s.byExp[n]].expiration > now
    requires forall i :: 0 <= i < |s.byExp| ==> (s.byExp[i] in t.items <==> n <= i)
    ensures (forall k :: k in t.items ==> s.items[k].expiration > now) <==> NoneBlocked(s, now)
  {
    if NoneBlocked(s, now) {
      forall k | k in t.items ensures s.items[k].expiration > now {
        var i :| 0 <= i < |s.byExp| && s.byExp[i] == k;
        assert n < |s.byExp| && (i == n || n < i);
      }
    }
    if forall k :: k in t.items ==> s.items[k].expiration > now {
      assert forall i :: n <= i < |s.byExp| ==> s.byExp[i] in t.items;
    }
  }

  // ------------------------------------------------------------------ adding

  lemma ClearedAgrees<K, V>(s: Cache<K, V>, k: K, now: int)
    requires Agree(s)
    ensures var t := Cleared(s, k, now);
            && Agree(t) && k !in t.items && |t.items| <= |s.items| && t.nextUse == s.nextUse
            && forall j :: j in t.items ==> j in s.items && t.items[j] == s.items[j]
  {
    hide Agree;
    RemovedAllAgrees(s, s.byExp[..ExpiredPrefix(s.byExp, s.items, now)]);
    RemovedAgrees(Expired(s, now), k);
    SmallerMap(Cleared(s, k, now).items, s.items);
  }

  /** What is deleted to make room, if there is anything. */
  ghost predicate Doomed<K, V>(m: Setup, s: Cache<K, V>, victim: K) {
    s.items.Keys == {} || IsVictim(m.algorithm, s, victim)
  }

  /** A victim is needed only when the cache is full. */
  ghost predicate Eligible<K, V>(m: Setup, s: Cache<K, V>, victim: K) {
    |s.items| >= m.maxSize ==> Doomed(m, s, victim)
  }

  lemma PlacedMeans<K, V>(m: Setup, s: Cache<K, V>, k: K, v: V, expiration: int, victim: K)
    requires Agree(s) && |s.items| <= m.maxSize && k !in s.items && Eligible(m, s, victim)
    ensures var t := Placed(m, s, k, v, expiration, victim);
            && Agree(t) && |t.items| <= m.maxSize
            && (m.maxSize > 0 ==> k in t.items && t.items[k].value == v)
            && (forall j :: j in t.items && j != k ==> j in s.items && t.items[j] == s.items[j])
            && (forall j :: j in s.items ==> (j !in t.items <==> j == victim && |s.items| == m.maxSize))
  {
    if |s.items| >= m.maxSize {
      VictimIsItem(m.algorithm, s, victim);
    }
    hide Agree, IsVictim;
    RemovedAgrees(s, victim);
    var u := if |s.items| >= m.maxSize then Removed(s, victim) else s;
    hide Removed;
    InsertedAgrees(u, k, v, expiration);
  }

  /** After adding, the key has its new value, unless the cache can hold nothing; apart from the
      victim of a full cache, all that had not been cleared away is still there. */
  lemma AddedMeans<K, V>(m: Setup, s: Cache<K, V>, k: K, v: V, ms: int, now: int, later: int, victim: K)
    requires Agree(s) && |s.items| <= m.maxSize && Eligible(m, Cleared(s, k, now), victim)
    ensures var t, b := Added(m, s, k, v, ms, now, later, victim), Cleared(s, k, now);
            && Agree(t) && |t.items| <= m.maxSize
            && (m.maxSize > 0 ==> k in t.items && t.items[k].value == v)
            && (forall j :: j in t.items && j != k ==> j in b.items && t.items[j] == b.items[j])
            && (forall j :: j in b.items ==> (j !in t.items <==> j == victim && |b.items| == m.maxSize))
  {
    hide Agree, Cleared, Placed, Eligible;
    ClearedAgrees(s, k, now);
    PlacedMeans(m, Cleared(s, k, now), k, v, later + if ms == -1 then m.defaultMs else ms, victim);
  }

  lemma SmallerMap<K, W>(a: map<K, W>, b: map<K, W>)
    requires a.Keys <= b.Keys
    ensures |a| <= |b|
  {
    SmallerSet(a.Keys, b.Keys);
  }

  lemma {:induction false} SmallerSet<K>(a: set<K>, b: set<K>)
    requires a <= b
    ensures |a| <= |b|
  {
    assert b == a + (b - a);
  }

  lemma VictimIsItem<K, V>(algorithm: Algorithm, s: Cache<K, V>, k: K)
    requires Agree(s) && (s.items.Keys == {} || IsVictim(algorithm, s, k))
    ensures s.items.Keys != {} ==> k in s.items
    ensures s.items.Keys == {} <==> |s.items| == 0
  {
    assert |s.items| == |s.items.Keys|;
  }

  // ------------------------------------------------------------------ whole runs

  datatype Event<K, V> =
    | Add(key: K, value: V, ms: int, now: int, later: int, victim: K)
    | Get(key: K, now: int)
    | Del(key: K)
    | DelVictim(victim: K)

  ghost predicate Enabled<K, V>(m: Setup, s: Cache<K, V>, e: Event<K, V>) {
    match e
    case Add(k, _, _, now, _, victim) => Eligible(m, Cleared(s, k, now), victim)
    case DelVictim(victim) => Doomed(m, s, victim)
    case _ => true
  }

  ghost function Apply<K, V>(m: Setup, s: Cache<K, V>, e: Event<K, V>): Cache<K, V> {
    match e
    case Add(k, v, ms, now, later, victim) => Added(m, s, k, v, ms, now, later, victim)
    case Get(k, now) => Fetched(Expired(s, now), k)
    case Del(k) => Removed(s, k)
    case DelVictim(victim) => Removed(s, victim)
  }

  ghost predicate Follows<K, V>(m: Setup, s: Cache<K, V>, e: Event<K, V>, t: Cache<K, V>) {
    Enabled(m, s, e) && t == Apply(m, s, e)
  }

  ghost predicate IsRun<K, V>(m: Setup, states: seq<Cache<K, V>>, events: seq<Event<K, V>>) {
    && |states| == |events| + 1
    && states[0] == NewCache()
    && forall i :: 0 <= i < |events| ==> Follows(m, states[i], events[i], states[i + 1])
  }

  ghost predicate Touches<K, V>(e: Event<K, V>, k: K) {
    (e.Add? || e.Get?) && e.key == k
  }

  /** A step changes values only by adding, and stamps only by adding or fetching. */
  ghost predicate Carried<K, V>(s: Cache<K, V>, e: Event<K, V>, t: Cache<K, V>, k: K)
    requires k in t.items
  {
    && (if e.Add? && e.key == k then t.items[k].value == e.value else k in s.items && t.items[k].value == s.items[k].value)
    && (if Touches(e, k) then t.items[k].use == s.nextUse else k in s.items && t.items[k].use == s.items[k].use)
  }

  lemma StepAgrees<K, V>(m: Setup, s: Cache<K, V>, e: Event<K, V>, t: Cache<K, V>)
    requires Agree(s) && |s.items| <= m.maxSize && Follows(m, s, e, t)
    ensures Agree(t) && |t.items| <= m.maxSize
    ensures forall k :: k in t.items ==> Carried(s, e, t, k)
  {
    hide Agree, Cleared;
    match e
    case Add(k, v, ms, now, later, victim) =>
      ClearedAgrees(s, k, now);
      AddedMeans(m, s, k, v, ms, now, later, victim);
      AddedStamp(m, s, k, v, ms, now, later, victim);
    case Get(k, now) =>
      RemovedAllAgrees(s, s.byExp[..ExpiredPrefix(s.byExp, s.items, now)]);
      var x := Expired(s, now);
      SmallerMap(x.items, s.items);
      hide Expired;
      FetchedAgrees(x, k);
      SmallerMap(t.items, x.items);
    case Del(k) => RemovedAgrees(s, k);
    case DelVictim(k) => RemovedAgrees(s, k);
  }

  lemma AddedStamp<K, V>(m: Setup, s: Cache<K, V>, k: K, v: V, ms: int, now: int, later: int, victim: K)
    requires Agree(s)
    ensures var t := Added(m, s, k, v, ms, now, later, victim);
            k in t.items ==> t.items[k] == Item(v, s.nextUse, later + if ms == -1 then m.defaultMs else ms)
  {
    hide Agree, Cleared, Removed;
    ClearedAgrees(s, k, now);
    RemovedAgrees(Cleared(s, k, now), victim);
  }

  lemma NewAgrees<K, V>()
    ensures Agree(NewCache<K, V>())
  {
    assert Elements<K>([]) == {};
  }

  /** In every run the three indexes hold the same items, stamps are unique and below the next one,
      and the cache is never over its size. */
  lemma {:induction false} EveryRunAgrees<K, V>(m: Setup, states: seq<Cache<K, V>>, events: seq<Event<K, V>>, n: nat)
    requires IsRun(m, states, events) && n < |states|
    ensures Agree(states[n]) && |states[n].items| <= m.maxSize
  {
    hide Agree, Follows;
    if n == 0 {
      NewAgrees<K, V>();
    } else {
      EveryRunAgrees(m, states, events, n - 1);
      StepAgrees(m, states[n - 1], events[n - 1], states[n]);
    }
  }

  /** The values that were added for a key, the last one last. */
  ghost function AddedFor<K, V>(events: seq<Event<K, V>>, k: K): seq<V> {
    if events == [] then []
    else
      var e := events[|events| - 1];
      AddedFor(events[..|events| - 1], k) + if e.Add? && e.key == k then [e.value] else []
  }

  /** What the cache holds for a key is the last value added for it. */
  lemma {:induction false} HoldsLastAdded<K, V>(m: Setup, states: seq<Cache<K, V>>, events: seq<Event<K, V>>, n: nat, k: K)
    requires IsRun(m, states, events) && n < |states| && k in states[n].items
    ensures var vs := AddedFor(events[..n], k); vs != [] && states[n].items[k].value == vs[|vs| - 1]
  {
    if n > 0 {
      EveryRunAgrees(m, states, events, n - 1);
      hide Agree, Follows;
      var e := events[n - 1];
      StepAgrees(m, states[n - 1], e, states[n]);
      assert events[..n][..n - 1] == events[..n - 1] && events[..n][n - 1] == e;
      assert Carried(states[n - 1], e, states[n], k);
      if !(e.Add? && e.key == k) {
        HoldsLastAdded(m, states, events, n - 1, k);
      }
    }
  }

  /** The events after which a key that was cached is gone, or has been added anew. */
  ghost predicate Loses<K, V>(m: Setup, s: Cache<K, V>, e: Event<K, V>, k: K) {
    match e
    case Add(key, _, _, now, _, victim) =>
      key == k || OutOfDate(s, k, now) || (victim == k && |Cleared(s, key, now).items| == m.maxSize)
    case Get(_, now) => OutOfDate(s, k, now)
    case Del(key) => key == k
    case DelVictim(victim) => victim == k
  }

  lemma KeptUnlessLost<K, V>(m: Setup, s: Cache<K, V>, e: Event<K, V>, t: Cache<K, V>, k: K)
    requires Agree(s) && |s.items| <= m.maxSize && Follows(m, s, e, t) && !(e.Add? && e.key == k)
    ensures k in t.items <==> k in s.items && !Loses(m, s, e, k)
  {
    StepAgrees(m, s, e, t);
    hide Agree, Expired, OutOfDate, Eligible;
    assert k in t.items ==> Carried(s, e, t, k);
    if k in s.items {
      match e
      case Add(key, v, ms, now, later, victim) =>
        ExpiryTakesOutOfDate(s, now, k);
        KeptByClearing(s, key, now, k);
        AddedMeans(m, s, key, v, ms, now, later, victim);
      case Get(key, now) =>
        ExpiryTakesOutOfDate(s, now, k);
        FetchedKeys(Expired(s, now), key);
      case Del(key) => RemovedAgrees(s, key);
      case DelVictim(victim) => RemovedAgrees(s, victim);
    }
  }

  lemma KeptByClearing<K, V>(s: Cache<K, V>, key: K, now: int, k: K)
    requires Agree(s) && k != key
    ensures k in Cleared(s, key, now).items <==> k in Expired(s, now).items
  {
    ExpiresExactly(s, now);
    hide Agree, Expired;
    RemovedAgrees(Expired(s, now), key);
  }

  lemma FetchedKeys<K, V>(s: Cache<K, V>, k: K)
    ensures Fetched(s, k).items.Keys == s.items.Keys
  {
  }

  /** The `i`-th event added the key, and nothing has taken it away since. */
  ghost predicate Lasts<K, V>(m: Setup, states: seq<Cache<K, V>>, events: seq<Event<K, V>>, i: nat, n: nat, k: K)
    requires i < n <= |events| <= |states|
  {
    events[i].Add? && events[i].key == k && m.maxSize > 0 && forall j :: i < j < n ==> !Loses(m, states[j], events[j], k)
  }

  /** A key is in the cache exactly when it was added and nothing has taken it away since, and then
      with the value that was added. */
  lemma {:induction false} CachedExactly<K, V>(
    m: Setup, states: seq<Cache<K, V>>, events: seq<Event<K, V>>, n: nat, k: K)
    requires IsRun(m, states, events) && n < |states|
    ensures k in states[n].items <==> exists i :: 0 <= i < n && Lasts(m, states, events, i, n, k)
    ensures forall i :: 0 <= i < n && Lasts(m, states, events, i, n, k) ==> states[n].items[k].value == events[i].value
  {
    hide Agree, Follows, Loses;
    if n > 0 {
      var e, s, t := events[n - 1], states[n - 1], states[n];
      CachedExactly(m, states, events, n - 1, k);
      EveryRunAgrees(m, states, events, n - 1);
      assert Follows(m, s, e, t);
      StepAgrees(m, s, e, t);
      hide IsRun;
      assert k in t.items ==> Carried(s, e, t, k);
      if e.Add? && e.key == k {
        AddedIsCached(m, s, e, t, k);
        AddingLoses(m, s, e, k);
        forall i | 0 <= i < n - 1 ensures !Lasts(m, states, events, i, n, k) {
          LastsStep(m, states, events, i, n - 1, k);
        }
        assert m.maxSize > 0 ==> Lasts(m, states, events, n - 1, n, k);
      } else {
        KeptUnlessLost(m, s, e, t, k);
        assert !Lasts(m, states, events, n - 1, n, k);
        forall i | 0 <= i < n - 1
          ensures Lasts(m, states, events, i, n, k) <==> Lasts(m, states, events, i, n - 1, k) && !Loses(m, s, e, k)
        {
          LastsStep(m, states, events, i, n - 1, k);
        }
        if k in t.items {
          var i :| 0 <= i < n - 1 && Lasts(m, states, events, i, n - 1, k);
          assert Lasts(m, states, events, i, n, k);
        }
      }
    }
  }

  lemma LastsStep<K, V>(m: Setup, states: seq<Cache<K, V>>, events: seq<Event<K, V>>, i: nat, n: nat, k: K)
    requires i < n < |events| <= |states|
    ensures Lasts(m, states, events, i, n + 1, k) <==>
            Lasts(m, states, events, i, n, k) && !Loses(m, states[n], events[n], k)
  {
    hide Loses;
    if Lasts(m, states, events, i, n, k) && !Loses(m, states[n], events[n], k) {
      forall j | i < j < n + 1 ensures !Loses(m, states[j], events[j], k) {
        assert j < n || j == n;
      }
    }
  }

  lemma AddingLoses<K, V>(m: Setup, s: Cache<K, V>, e: Event<K, V>, k: K)
    requires e.Add? && e.key == k
    ensures Loses(m, s, e, k)
  {
  }

  lemma AddedIsCached<K, V>(m: Setup, s: Cache<K, V>, e: Event<K, V>, t: Cache<K, V>, k: K)
    requires Agree(s) && |s.items| <= m.maxSize && Follows(m, s, e, t) && e.Add? && e.key == k
    ensures k in t.items <==> m.maxSize > 0
    ensures k in t.items ==> t.items[k].value == e.value
  {
    hide Agree, Cleared, Eligible;
    AddedMeans(m, s, k, e.value, e.ms, e.now, e.later, e.victim);
    if m.maxSize == 0 {
      assert |t.items.Keys| == 0;
      assert t.items.Keys == {};
    }
  }

  // ------------------------------------------------------------------ the victim

  /** When a key was last added or fetched. */
  ghost function LastTouch<K, V>(events: seq<Event<K, V>>, k: K): int {
    if events == [] then -1
    else if Touches(events[|events| - 1], k) then |events| - 1
    else LastTouch(events[..|events| - 1], k)
  }

  lemma {:induction false} TouchedBefore<K, V>(events: seq<Event<K, V>>, k: K)
    ensures LastTouch(events, k) < |events|
  {
    if events != [] {
      TouchedBefore(events[..|events| - 1], k);
    }
  }

  /** Stamps tell who was added or fetched later. */
  lemma {:induction false} StampsAreInOrder<K, V>(
    m: Setup, states: seq<Cache<K, V>>, events: seq<Event<K, V>>, n: nat, j: K, k: K)
    requires IsRun(m, states, events) && n < |states| && j in states[n].items && k in states[n].items && j != k
    ensures states[n].items[j].use < states[n].items[k].use <==> LastTouch(events[..n], j) < LastTouch(events[..n], k)
    ensures states[n].items[j].use != states[n].items[k].use
  {
    hide Agree, Follows;
    EveryRunAgrees(m, states, events, n);
    StampsDiffer(states[n], j, k);
    if n > 0 {
      hide IsRun;
      var i, s, e, t := n - 1, states[n - 1], events[n - 1], states[n];
      RunStep(m, states, events, i, j);
      RunStep(m, states, events, i, k);
      if !Touches(e, j) && !Touches(e, k) {
        StampsAreInOrder(m, states, events, i, j, k);
      }
      hide LastTouch;
      LastTouchStep(events, i, j);
      LastTouchStep(events, i, k);
      StampsStayInOrder(s, e, t, j, k, LastTouch(events[..i], j), LastTouch(events[..i], k), i);
    }
  }

  lemma RunStep<K, V>(m: Setup, states: seq<Cache<K, V>>, events: seq<Event<K, V>>, i: nat, k: K)
    requires IsRun(m, states, events) && i < |events| && k in states[i + 1].items
    ensures Agree(states[i]) && Carried(states[i], events[i], states[i + 1], k)
  {
    hide Agree, Follows;
    EveryRunAgrees(m, states, events, i);
    assert Follows(m, states[i], events[i], states[i + 1]);
    StepAgrees(m, states[i], events[i], states[i + 1]);
  }

  lemma LastTouchStep<K, V>(events: seq<Event<K, V>>, i: nat, k: K)
    requires i < |events|
    ensures LastTouch(events[..i + 1], k) == if Touches(events[i], k) then i else LastTouch(events[..i], k)
    ensures LastTouch(events[..i], k) < i
  {
    assert events[..i + 1][..i] == events[..i];
    TouchedBefore(events[..i], k);
  }

  /** One step puts what it touches last and keeps the order of the rest. */
  lemma StampsStayInOrder<K, V>(s: Cache<K, V>, e: Event<K, V>, t: Cache<K, V>, j: K, k: K, touchJ: int, touchK: int, i: nat)
    requires Agree(s) && j in t.items && k in t.items && j != k && touchJ < i && touchK < i
    requires Carried(s, e, t, j) && Carried(s, e, t, k)
    requires !Touches(e, j) && !Touches(e, k) ==> (s.items[j].use < s.items[k].use <==> touchJ < touchK)
    ensures t.items[j].use < t.items[k].use <==>
            (if Touches(e, j) then i as int else touchJ) < (if Touches(e, k) then i as int else touchK)
  {
    hide Agree;
    StampsInUse(s);
  }

  lemma StampsDiffer<K, V>(s: Cache<K, V>, j: K, k: K)
    requires Agree(s) && j in s.items && k in s.items && j != k
    ensures s.items[j].use != s.items[k].use
  {
  }

  lemma StampsInUse<K, V>(s: Cache<K, V>)
    requires Agree(s)
    ensures forall k :: k in s.items ==> s.items[k].use < s.nextUse
  {
  }

  /** The LRU victim is the item that was added or fetched the longest ago, the MRU victim the
      latest one: at any moment of a run, among the items that are left at that moment. */
  lemma VictimByLastTouch<K, V>(
    m: Setup, states: seq<Cache<K, V>>, events: seq<Event<K, V>>, n: nat, s: Cache<K, V>, k: K)
    requires IsRun(m, states, events) && n < |states| && Agree(s)
    requires forall j :: j in s.items ==> j in states[n].items && s.items[j] == states[n].items[j]
    ensures IsVictim(LRU, s, k) <==>
            k in s.items && forall j :: j in s.items && j != k ==> LastTouch(events[..n], k) < LastTouch(events[..n], j)
    ensures IsVictim(MRU, s, k) <==>
            k in s.items && forall j :: j in s.items && j != k ==> LastTouch(events[..n], j) < LastTouch(events[..n], k)
  {
    VictimByStamp(s, k);
    if k in s.items {
      forall j | j in s.items && j != k
        ensures s.items[k].use < s.items[j].use <==> LastTouch(events[..n], k) < LastTouch(events[..n], j)
        ensures s.items[j].use < s.items[k].use <==> LastTouch(events[..n], j) < LastTouch(events[..n], k)
      {
        StampsAreInOrder(m, states, events, n, j, k);
        StampsAreInOrder(m, states, events, n, k, j);
      }
    }
  }

  lemma VictimByStamp<K, V>(s: Cache<K, V>, k: K)
    requires Agree(s)
    ensures IsVictim(LRU, s, k) <==> k in s.items && forall j :: j in s.items && j != k ==> s.items[k].use < s.items[j].use
    ensures IsVictim(MRU, s, k) <==> k in s.items && forall j :: j in s.items && j != k ==> s.items[j].use < s.items[k].use
  {
    if k in s.items {
      assert s.items[k].use in s.byUse && s.byUse[s.items[k].use] == k;
      assert forall u :: u in s.byUse && s.byUse[u] == k ==> u == s.items[k].use;
    }
  }

  // ------------------------------------------------------------------ expiry in step with the clock

  /** Expirations do not fall along the list. */
  ghost predicate InOrder<K, V>(byExp: seq<K>, items: map<K, Item<V>>) {
    byExp != [] ==>
      && byExp[0] in items
      && (forall k :: k in byExp[1..] ==> k in items && items[byExp[0]].expiration <= items[k].expiration)
      && InOrder(byExp[1..], items)
  }

  lemma {:induction false} InOrderWithout<K, V>(byExp: seq<K>, items: map<K, Item<V>>, k: K)
    requires InOrder(byExp, items) && Distinct(byExp)
    ensures InOrder(Without(byExp, k), items - {k})
  {
    if byExp != [] {
      DistinctSplit(byExp);
      InOrderWithout(byExp[1..], items, k);
      WithoutElements(byExp[1..], k);
      var w := Without(byExp[1..], k);
      assert forall x :: x in w ==> x in Elements(byExp[1..]) - {k};
      if byExp[0] == k {
        InOrderElsewhere(byExp[1..], items, items - {k});
      } else {
        assert ([byExp[0]] + w)[1..] == w;
      }
    }
  }

  lemma {:induction false} InOrderElsewhere<K, V>(byExp: seq<K>, items: map<K, Item<V>>, other: map<K, Item<V>>)
    requires InOrder(byExp, items) && forall k :: k in byExp ==> k in items && k in other && other[k].expiration == items[k].expiration
    ensures InOrder(byExp, other)
  {
    if byExp != [] {
      InOrderElsewhere(byExp[1..], items, other);
    }
  }

  lemma {:induction false} InOrderAppend<K, V>(byExp: seq<K>, items: map<K, Item<V>>, k: K, item: Item<V>)
    requires InOrder(byExp, items) && k !in byExp
    requires forall x :: x in byExp ==> x in items && items[x].expiration <= item.expiration
    ensures InOrder(byExp + [k], items[k := item])
  {
    if byExp == [] {
      assert byExp + [k] == [k] && [k][1..] == [] && InOrder<K, V>([], items[k := item]);
    } else {
      InOrderAppend(byExp[1..], items, k, item);
      assert (byExp + [k])[1..] == byExp[1..] + [k];
    }
  }

  lemma {:induction false} InOrderPair<K, V>(byExp: seq<K>, items: map<K, Item<V>>, i: nat, j: nat)
    requires InOrder(byExp, items) && i < j < |byExp|
    ensures byExp[i] in items && byExp[j] in items && items[byExp[i]].expiration <= items[byExp[j]].expiration
  {
    if i == 0 {
      assert byExp[j] in byExp[1..];
    } else {
      InOrderPair(byExp[1..], items, i - 1, j - 1);
    }
  }

  /** The list is in order, and nothing in it expires after `bound`. */
  ghost predicate Clocked<K, V>(s: Cache<K, V>, bound: int) {
    InOrder(s.byExp, s.items) && forall k :: k in s.items ==> s.items[k].expiration <= bound
  }

  lemma RemovedClocked<K, V>(s: Cache<K, V>, k: K, bound: int)
    requires Agree(s) && Clocked(s, bound)
    ensures Clocked(Removed(s, k), bound)
  {
    if k in s.items {
      InOrderWithout(s.byExp, s.items, k);
      hide InOrder, Without;
    }
  }

  lemma {:induction false} RemovedAllClocked<K, V>(s: Cache<K, V>, keys: seq<K>, bound: int)
    requires Agree(s) && Clocked(s, bound)
    ensures Clocked(RemovedAll(s, keys), bound)
    decreases |keys|
  {
    hide Agree, Clocked, Removed;
    if keys != [] {
      RemovedAgrees(s, keys[0]);
      RemovedClocked(s, keys[0], bound);
      RemovedAllClocked(Removed(s, keys[0]), keys[1..], bound);
    }
  }

  lemma ExpiredClocked<K, V>(s: Cache<K, V>, now: int, bound: int)
    requires Agree(s) && Clocked(s, bound)
    ensures Agree(Expired(s, now)) && Clocked(Expired(s, now), bound)
  {
    hide Agree, Clocked;
    var keys := s.byExp[..ExpiredPrefix(s.byExp, s.items, now)];
    RemovedAllAgrees(s, keys);
    RemovedAllClocked(s, keys, bound);
  }

  lemma ClearedClocked<K, V>(s: Cache<K, V>, k: K, now: int, bound: int)
    requires Agree(s) && Clocked(s, bound)
    ensures var t := Cleared(s, k, now); Agree(t) && Clocked(t, bound) && k !in t.items
  {
    hide Agree, Clocked, Expired;
    ExpiredClocked(s, now, bound);
    RemovedAgrees(Expired(s, now), k);
    RemovedClocked(Expired(s, now), k, bound);
  }

  lemma FetchedClocked<K, V>(s: Cache<K, V>, k: K, bound: int)
    requires Agree(s) && Clocked(s, bound)
    ensures Clocked(Fetched(s, k), bound)
  {
    ListedAreItems(s);
    if k in s.items {
      InOrderElsewhere(s.byExp, s.items, Fetched(s, k).items);
    }
  }

  lemma InsertedClocked<K, V>(s: Cache<K, V>, k: K, v: V, bound: int)
    requires Agree(s) && Clocked(s, bound) && k !in s.items
    ensures Clocked(Inserted(s, k, v, bound), bound)
  {
    ListedAreItems(s);
    InOrderAppend(s.byExp, s.items, k, Item(v, s.nextUse, bound));
    hide InOrder;
  }

  /** A later bound will do as well. */
  lemma ClockedLater<K, V>(s: Cache<K, V>, bound: int, later: int)
    requires Clocked(s, bound) && bound <= later
    ensures Clocked(s, later)
  {
  }

  /** What the list is bound by after an event: only adding moves it. */
  ghost function Bound<K, V>(m: Setup, bound: int, e: Event<K, V>): int {
    if e.Add? then e.later + m.defaultMs else bound
  }

  lemma StepClocked<K, V>(m: Setup, s: Cache<K, V>, e: Event<K, V>, t: Cache<K, V>, bound: int)
    requires Agree(s) && |s.items| <= m.maxSize && Follows(m, s, e, t) && Clocked(s, bound)
    requires e.Add? ==> e.ms == -1 && bound <= e.later + m.defaultMs
    ensures Clocked(t, Bound(m, bound, e))
  {
    hide Agree, Clocked;
    match e
    case Add(k, v, ms, now, later, victim) =>
      ClearedClocked(s, k, now, bound);
      PlacedClocked(m, Cleared(s, k, now), k, v, bound, later + m.defaultMs, victim);
    case Get(k, now) =>
      ExpiredClocked(s, now, bound);
      FetchedClocked(Expired(s, now), k, bound);
    case Del(k) => RemovedClocked(s, k, bound);
    case DelVictim(k) => RemovedClocked(s, k, bound);
  }

  lemma PlacedClocked<K, V>(m: Setup, s: Cache<K, V>, k: K, v: V, bound: int, later: int, victim: K)
    requires Agree(s) && Clocked(s, bound) && k !in s.items && bound <= later
    ensures Clocked(Placed(m, s, k, v, later, victim), later)
  {
    hide Agree, Clocked, Removed;
    RemovedAgrees(s, victim);
    RemovedClocked(s, victim, bound);
    var t := if |s.items| >= m.maxSize then Removed(s, victim) else s;
    ClockedLater(t, bound, later);
    InsertedClocked(t, k, v, later);
  }

  /** Only the default expiration is used, and the clock does not run backwards between additions. */
  ghost predicate Steady<K, V>(events: seq<Event<K, V>>) {
    && (forall i :: 0 <= i < |events| && events[i].Add? ==> events[i].ms == -1)
    && (forall i, j :: 0 <= i < j < |events| && events[i].Add? && events[j].Add? ==> events[i].later <= events[j].later)
  }

  ghost function BoundAfter<K, V>(m: Setup, events: seq<Event<K, V>>, start: int): int {
    if events == [] then start
    else Bound(m, BoundAfter(m, events[..|events| - 1], start), events[|events| - 1])
  }

  lemma {:induction false} BoundIsEarlier<K, V>(m: Setup, events: seq<Event<K, V>>, start: int, n: nat, j: nat)
    requires Steady(events) && n <= j < |events| && events[j].Add? && start <= events[j].later + m.defaultMs
    ensures BoundAfter(m, events[..n], start) <= events[j].later + m.defaultMs
  {
    if n > 0 {
      assert events[..n][..n - 1] == events[..n - 1];
      BoundIsEarlier(m, events, start, n - 1, j);
    }
  }

  lemma {:induction false} RunClocked<K, V>(m: Setup, states: seq<Cache<K, V>>, events: seq<Event<K, V>>, start: int, n: nat)
    requires IsRun(m, states, events) && Steady(events) && n < |states|
    requires forall j :: 0 <= j < |events| && events[j].Add? ==> start <= events[j].later + m.defaultMs
    ensures Clocked(states[n], BoundAfter(m, events[..n], start))
  {
    hide Agree, Follows;
    if n > 0 {
      hide Clocked;
      var i := n - 1;
      RunClocked(m, states, events, start, i);
      EveryRunAgrees(m, states, events, i);
      assert events[..n][..i] == events[..i] && events[..n][i] == events[i];
      if events[i].Add? {
        BoundIsEarlier(m, events, start, i, i);
      }
      assert Follows(m, states[i], events[i], states[i + 1]);
      hide IsRun;
      StepClocked(m, states[i], events[i], states[n], BoundAfter(m, events[..i], start));
    }
  }

  lemma {:induction false} Earliest<K, V>(m: Setup, events: seq<Event<K, V>>) returns (start: int)
    ensures forall j :: 0 <= j < |events| && events[j].Add? ==> start <= events[j].later + m.defaultMs
  {
    if events == [] {
      start := 0;
    } else {
      var e := events[|events| - 1];
      start := Earliest(m, events[..|events| - 1]);
      assert forall j :: 0 <= j < |events| - 1 ==> events[j] == events[..|events| - 1][j];
      if e.Add? && e.later + m.defaultMs < start {
        start := e.later + m.defaultMs;
      }
    }
  }

  /** With a steady clock and the default expiration, expiry at any moment of a run removes exactly
      the items whose time has come. */
  lemma SteadyRunExpiresExactly<K, V>(m: Setup, states: seq<Cache<K, V>>, events: seq<Event<K, V>>, n: nat, now: int)
    requires IsRun(m, states, events) && Steady(events) && n < |states|
    ensures forall k :: k in states[n].items ==> (k in Expired(states[n], now).items <==> states[n].items[k].expiration > now)
  {
    var s := states[n];
    EveryRunAgrees(m, states, events, n);
    var start := Earliest(m, events);
    RunClocked(m, states, events, start, n);
    ExpiresExactly(s, now);
    forall i, j | 0 <= i < j < |s.byExp| ensures s.items[s.byExp[i]].expiration <= s.items[s.byExp[j]].expiration {
      InOrderPair(s.byExp, s.items, i, j);
    }
    assert NoneBlocked(s, now);
  }

  // ------------------------------------------------------------------ an item that is missed

  /** Nothing expires from the front of a list whose first item is good. */
  lemma NothingExpires<K, V>(s: Cache<K, V>, now: int)
    requires s.byExp == [] || (s.byExp[0] in s.items && s.items[s.byExp[0]].expiration > now)
    ensures Expired(s, now) == s
  {
    assert s.byExp[..0] == [];
  }

  lemma SimplyAdded<K, V>(m: Setup, s: Cache<K, V>, e: Event<K, V>)
    requires e.Add? && e.ms != -1 && Expired(s, e.now) == s && e.key !in s.items && |s.items| < m.maxSize
    ensures Follows(m, s, e, Inserted(s, e.key, e.value, e.later + e.ms))
  {
    hide Expired, Inserted;
  }

  const SHORT_BEHIND_LONG: seq<Event<int, int>> := [Add(1, 0, 100, 0, 0, 1), Add(2, 0, 1, 0, 0, 1)]

  /** The cache after a long-lived and a short-lived item were added. */
  lemma ShortIsBehindLong(s1: Cache<int, int>, s2: Cache<int, int>)
    requires s1 == Inserted(NewCache(), 1, 0, 100) && s2 == Inserted(s1, 2, 0, 1)
    ensures IsRun(Setup(LRU, 2, 10), [NewCache(), s1, s2], SHORT_BEHIND_LONG)
    ensures s2.byExp == [1, 2] && s2.items == map[1 := Item(0, 0, 100), 2 := Item(0, 1, 1)]
  {
    var m, s0 := Setup(LRU, 2, 10), NewCache<int, int>();
    NothingExpires(s0, 0);
    NothingExpires(s1, 0);
    hide Expired;
    SimplyAdded(m, s0, SHORT_BEHIND_LONG[0]);
    SimplyAdded(m, s1, SHORT_BEHIND_LONG[1]);
    hide Follows;
  }

  /** A run in which a short-lived item is added behind a long-lived one: it has expired, and stays. */
  lemma ExpiredItemIsMissed()
    ensures exists m: Setup, states: seq<Cache<int, int>>, events: seq<Event<int, int>>, now: int ::
              && IsRun(m, states, events)
              && var s := states[|events|];
                 && Agree(s) && (forall k :: k in s.byExp ==> k in s.items) && !NoneBlocked(s, now)
                 && 2 in s.items && 2 in Expired(s, now).items && s.items[2].expiration <= now
  {
    var s1 := Inserted(NewCache<int, int>(), 1, 0, 100);
    var s2 := Inserted(s1, 2, 0, 1);
    ShortIsBehindLong(s1, s2);
    NothingExpires(s2, 50);
    hide Expired, Inserted, IsRun, Agree;
    var states := [NewCache<int, int>(), s1, s2];
    EveryRunAgrees(Setup(LRU, 2, 10), states, SHORT_BEHIND_LONG, 2);
    assert s2.items[s2.byExp[0]].expiration > 50 && s2.items[s2.byExp[1]].expiration <= 50;
    assert !NoneBlocked(s2, 50);
    assert states[|SHORT_BEHIND_LONG|] == s2;
  }
}
