/** What is in the LRU cache, with which value and in which order, in every run of locked regions. */
module LruRecency {
  import opened LruModel

  /** The event uses the key: it gets its entry or makes one. */
  ghost predicate Touches<K, V, R>(e: Event<K, V, R>, key: K) {
    (e.GetHit? || e.GetFinish? || e.PutValue?) && e.key == key
  }

  /** When a key was last used. */
  ghost function LastTouch<K, V, R>(events: seq<Event<K, V, R>>, key: K): (n: int)
    ensures -1 <= n < |events|
  {
    if events == [] then -1
    else if Touches(events[|events| - 1], key) then |events| - 1
    else LastTouch(events[..|events| - 1], key)
  }

  // ------------------------------------------------------------------ the order of the entries

  /** The later an entry was used, the nearer it is to the front. */
  ghost predicate InOrder<K, V, R>(entries: seq<Entry<K, R>>, events: seq<Event<K, V, R>>) {
    forall i, j :: 0 <= i < j < |entries| ==> LastTouch(events, entries[j].key) < LastTouch(events, entries[i].key)
  }

  lemma OneMoreEvent<K, V, R>(events: seq<Event<K, V, R>>, e: Event<K, V, R>, key: K)
    ensures LastTouch(events + [e], key) == if Touches(e, key) then |events| else LastTouch(events, key)
  {
    assert (events + [e])[..|events|] == events;
  }

  lemma OrderStays<K, V, R>(entries: seq<Entry<K, R>>, events: seq<Event<K, V, R>>, e: Event<K, V, R>)
    requires InOrder(entries, events) && forall i :: 0 <= i < |entries| ==> !Touches(e, entries[i].key)
    ensures InOrder(entries, events + [e])
  {
    forall i | 0 <= i < |entries|
      ensures LastTouch(events + [e], entries[i].key) == LastTouch(events, entries[i].key)
    {
      OneMoreEvent(events, e, entries[i].key);
    }
  }

  lemma OrderAfterTouch<K, V, R>(entries: seq<Entry<K, R>>, events: seq<Event<K, V, R>>, e: Event<K, V, R>, first: Entry<K, R>)
    requires InOrder(entries, events) && Touches(e, first.key)
    requires forall i :: 0 <= i < |entries| ==> entries[i].key != first.key
    ensures InOrder([first] + entries, events + [e])
  {
    OrderStays(entries, events, e);
    OneMoreEvent(events, e, first.key);
    forall i | 0 <= i < |entries| ensures LastTouch(events + [e], entries[i].key) < |events| {
      OneMoreEvent(events, e, entries[i].key);
    }
    assert forall i :: 1 <= i < |[first] + entries| ==> ([first] + entries)[i] == entries[i - 1];
  }

  lemma OrderWithout<K, V, R>(entries: seq<Entry<K, R>>, events: seq<Event<K, V, R>>, i: nat)
    requires i < |entries| && InOrder(entries, events) && DistinctKeys(entries)
    ensures InOrder(Without(entries, i), events)
    ensures forall j :: 0 <= j < |Without(entries, i)| ==> Without(entries, i)[j].key != entries[i].key
  {
    assert forall j :: 0 <= j < |Without(entries, i)| ==> Without(entries, i)[j] == entries[if j < i then j else j + 1];
  }

  lemma StepKeepsOrder<K, V, R>(s: Lru<K, V, R>, events: seq<Event<K, V, R>>, e: Event<K, V, R>)
    requires Inv(s) && Enabled(s, e) && InOrder(s.entries, events)
    ensures InOrder(Apply(s, e).entries, events + [e])
  {
    match e
    case GetHit(key) => TouchKeepsOrder(s, events, e, key);
    case GetFinish(key, v, r) =>
      if Has(s.entries, key) {
        TouchKeepsOrder(s, events, e, key);
      } else {
        OrderAfterTouch(s.entries, events, e, Entry(key, r));
      }
    case PutValue(key, v, r, wanted) =>
      if Has(s.entries, key) {
        var i := IndexOf(s.entries, key);
        OrderWithout(s.entries, events, i);
        OrderAfterTouch(Without(s.entries, i), events, e, Entry(key, r));
      } else {
        OrderAfterTouch(s.entries, events, e, Entry(key, r));
      }
    case RemoveKey(key) =>
      if Has(s.entries, key) {
        OrderWithout(s.entries, events, IndexOf(s.entries, key));
      }
      OrderStays(Remove(s, key).entries, events, e);
    case EvictLast =>
      OrderStays(s.entries[..|s.entries| - 1], events, e);
    case GetCreated(_) => OrderStays(s.entries, events, e);
    case ReleaseHandle(_) => OrderStays(s.entries, events, e);
  }

  lemma TouchKeepsOrder<K, V, R>(s: Lru<K, V, R>, events: seq<Event<K, V, R>>, e: Event<K, V, R>, key: K)
    requires Has(s.entries, key) && DistinctKeys(s.entries) && InOrder(s.entries, events) && Touches(e, key)
    ensures InOrder(Touched(s.entries, IndexOf(s.entries, key)), events + [e])
  {
    var i := IndexOf(s.entries, key);
    OrderWithout(s.entries, events, i);
    OrderAfterTouch(Without(s.entries, i), events, e, s.entries[i]);
  }

  lemma RunStep<K, V, R>(states: seq<Lru<K, V, R>>, events: seq<Event<K, V, R>>, i: nat)
    requires IsRun(states, events) && i < |events|
    ensures Inv(states[i]) && Enabled(states[i], events[i]) && states[i + 1] == Apply(states[i], events[i])
  {
    EveryRunKeepsCount(states, events, i);
    assert Follows(states[i], events[i], states[i + 1]);
  }

  /** In every state of every run the entries are in the order in which their keys were last used,
      the latest first. */
  lemma {:induction false} EveryRunKeepsOrder<K, V, R>(
    states: seq<Lru<K, V, R>>, events: seq<Event<K, V, R>>, n: nat)
    requires IsRun(states, events) && n < |states|
    ensures InOrder(states[n].entries, events[..n])
  {
    hide Inv, Enabled, Apply, InOrder;
    if n == 0 {
      NothingInOrder<K, V, R>(events[..0]);
    } else {
      var i := n - 1;
      EveryRunKeepsOrder(states, events, i);
      RunStep(states, events, i);
      StepKeepsOrder(states[i], events[..i], events[i]);
      assert events[..i] + [events[i]] == events[..n];
    }
  }

  lemma NothingInOrder<K, V, R>(events: seq<Event<K, V, R>>)
    ensures InOrder<K, V, R>([], events)
  {
  }

  /** What is evicted is what was used the longest ago. */
  lemma EvictsOldest<K, V, R>(states: seq<Lru<K, V, R>>, events: seq<Event<K, V, R>>, n: nat, i: nat)
    requires IsRun(states, events) && n < |events| && events[n].EvictLast? && i < |states[n].entries|
    ensures var s, t := states[n], states[n + 1];
            var last := s.entries[|s.entries| - 1];
            && t.entries == s.entries[..|s.entries| - 1]
            && (i < |s.entries| - 1 ==> LastTouch(events[..n], last.key) < LastTouch(events[..n], s.entries[i].key))
  {
    EveryRunKeepsOrder(states, events, n);
    RunStep(states, events, n);
  }

  // ------------------------------------------------------------------ what is cached

  /** The cache holds this value for the key. */
  ghost predicate Holds<K, V, R>(s: Lru<K, V, R>, key: K, v: V) {
    exists i :: 0 <= i < |s.entries| && HoldsAt(s, i, key, v)
  }

  ghost predicate HoldsAt<K, V, R>(s: Lru<K, V, R>, i: nat, key: K, v: V)
    requires i < |s.entries|
  {
    s.entries[i].key == key && s.entries[i].ref in s.values && s.values[s.entries[i].ref] == v
  }

  /** The event makes an entry for the key: the second half of a miss does so unless there is one. */
  ghost predicate Stores<K, V, R>(s: Lru<K, V, R>, e: Event<K, V, R>, key: K) {
    (e.PutValue? && e.key == key) || (e.GetFinish? && e.key == key && !Has(s.entries, key))
  }

  /** The value that the event stores. */
  ghost predicate Carries<K, V, R>(e: Event<K, V, R>, v: V) {
    (e.PutValue? || e.GetFinish?) && e.value == v
  }

  /** The event takes the entry of the key away. */
  ghost predicate Loses<K, V, R>(s: Lru<K, V, R>, e: Event<K, V, R>, key: K) {
    (e.RemoveKey? && e.key == key) || (e.EvictLast? && s.entries != [] && s.entries[|s.entries| - 1].key == key)
  }

  /** The entries of `t` are those of `s` that have another key than `key`, and maybe `first`. */
  ghost predicate Rest<K, V, R>(s: Lru<K, V, R>, t: Lru<K, V, R>, key: K, from: nat) {
    && from <= |t.entries|
    && (forall i :: from <= i < |t.entries| ==> t.entries[i] in s.entries && t.entries[i].key != key)
    && (forall e :: e in s.entries && e.key != key ==> e in t.entries[from..])
    && (forall r :: r in s.values ==> r in t.values && t.values[r] == s.values[r])
  }

  lemma RestHolds<K, V, R>(s: Lru<K, V, R>, t: Lru<K, V, R>, key: K, from: nat, k: K, v: V)
    requires Rest(s, t, key, from) && k != key && (forall i :: 0 <= i < from ==> t.entries[i].key != k)
    requires forall i :: 0 <= i < |s.entries| ==> s.entries[i].ref in s.values
    ensures Holds(t, k, v) <==> Holds(s, k, v)
  {
    if Holds(s, k, v) {
      var i :| 0 <= i < |s.entries| && HoldsAt(s, i, k, v);
      assert s.entries[i] in s.entries;
      var j :| from <= j < |t.entries| && t.entries[j] == s.entries[i];
      assert HoldsAt(t, j, k, v);
    }
    if Holds(t, k, v) {
      var j :| 0 <= j < |t.entries| && HoldsAt(t, j, k, v);
      assert t.entries[j] in s.entries;
      var i :| 0 <= i < |s.entries| && s.entries[i] == t.entries[j];
      assert HoldsAt(s, i, k, v);
    }
  }

  lemma WithoutRest<K, R>(entries: seq<Entry<K, R>>, i: nat)
    requires i < |entries| && DistinctKeys(entries)
    ensures var w := Without(entries, i);
            && (forall j :: 0 <= j < |w| ==> w[j] in entries && w[j].key != entries[i].key)
            && (forall e :: e in entries && e.key != entries[i].key ==> e in w)
  {
    var w := Without(entries, i);
    assert forall j :: 0 <= j < |w| ==> w[j] == entries[if j < i then j else j + 1];
    forall e | e in entries && e.key != entries[i].key ensures e in w {
      var j :| 0 <= j < |entries| && entries[j] == e;
      assert w[if j < i then j else j - 1] == e;
    }
  }

  lemma NothingHeld<K, V, R>(s: Lru<K, V, R>, key: K, v: V)
    requires !Has(s.entries, key)
    ensures !Holds(s, key, v)
  {
  }

  lemma HasOnce<K, V, R>(s: Lru<K, V, R>, key: K, v: V)
    requires Has(s.entries, key) && DistinctKeys(s.entries)
    ensures Holds(s, key, v) <==> HoldsAt(s, IndexOf(s.entries, key), key, v)
  {
  }

  /** A key whose entry is touched or replaced keeps or gets its value, and the others keep theirs. */
  lemma FrontHolds<K, V, R>(s: Lru<K, V, R>, t: Lru<K, V, R>, first: Entry<K, R>, k: K, v: V)
    requires Inv(s) && t.entries != [] && t.entries[0] == first && Rest(s, t, first.key, 1)
    ensures k != first.key ==> (Holds(t, k, v) <==> Holds(s, k, v))
    ensures Holds(t, first.key, v) <==> first.ref in t.values && t.values[first.ref] == v
  {
    if k != first.key {
      RestHolds(s, t, first.key, 1, k, v);
    }
    assert t.entries[0] == first;
    if first.ref in t.values && t.values[first.ref] == v {
      assert HoldsAt(t, 0, first.key, v);
    }
  }

  lemma TouchHolds<K, V, R>(s: Lru<K, V, R>, t: Lru<K, V, R>, key: K, k: K, v: V)
    requires Inv(s) && Has(s.entries, key) && t.entries == Touched(s.entries, IndexOf(s.entries, key)) && t.values == s.values
    ensures Holds(t, k, v) <==> Holds(s, k, v)
  {
    var i := IndexOf(s.entries, key);
    WithoutRest(s.entries, i);
    assert t.entries[1..] == Without(s.entries, i);
    FrontHolds(s, t, s.entries[i], k, v);
    HasOnce(s, key, v);
  }

  lemma AddHolds<K, V, R>(s: Lru<K, V, R>, t: Lru<K, V, R>, key: K, r: R, value: V, k: K, v: V)
    requires Inv(s) && r !in s.values && t.values == s.values[r := value]
    requires t.entries == [Entry(key, r)] + if Has(s.entries, key) then Without(s.entries, IndexOf(s.entries, key)) else s.entries
    ensures Holds(t, k, v) <==> if k == key then v == value else Holds(s, k, v)
  {
    if Has(s.entries, key) {
      WithoutRest(s.entries, IndexOf(s.entries, key));
    }
    assert forall i :: 0 <= i < |s.entries| ==> s.entries[i] in s.entries;
    FrontHolds(s, t, Entry(key, r), k, v);
  }

  lemma StepHolds<K, V, R>(s: Lru<K, V, R>, e: Event<K, V, R>, k: K, v: V)
    requires Inv(s) && Enabled(s, e)
    ensures Holds(Apply(s, e), k, v) <==>
            if Stores(s, e, k) then Carries(e, v) else Holds(s, k, v) && !Loses(s, e, k)
  {
    hide Inv, Holds, Hit, Finish, Put, Remove, Evict, Release, IndexOf;
    match e
    case GetHit(key) => HitHolds(s, key, k, v);
    case GetFinish(key, value, r) => FinishHolds(s, key, value, r, k, v);
    case PutValue(key, value, r, wanted) => PutHolds(s, key, value, r, wanted, k, v);
    case RemoveKey(key) => RemoveHolds(s, key, k, v);
    case EvictLast => EvictHolds(s, k, v);
    case GetCreated(value) => SameHolds(s, Created(s, value), k, v);
    case ReleaseHandle(r) => ReleaseHolds(s, r, k, v);
  }

  lemma HitHolds<K, V, R>(s: Lru<K, V, R>, key: K, k: K, v: V)
    requires Inv(s) && Has(s.entries, key)
    ensures s.entries[IndexOf(s.entries, key)].ref in s.counts
    ensures Holds(Hit(s, key), k, v) <==> Holds(s, k, v)
  {
    TouchHolds(s, Hit(s, key), key, k, v);
  }

  lemma FinishHolds<K, V, R>(s: Lru<K, V, R>, key: K, value: V, r: R, k: K, v: V)
    requires Inv(s) && r !in s.counts
    ensures Has(s.entries, key) ==> s.entries[IndexOf(s.entries, key)].ref in s.counts
    ensures Holds(Finish(s, key, value, r), k, v) <==> if k == key && !Has(s.entries, key) then v == value else Holds(s, k, v)
  {
    if Has(s.entries, key) {
      TouchHolds(s, Finish(s, key, value, r), key, k, v);
    } else {
      AddHolds(s, Finish(s, key, value, r), key, r, value, k, v);
    }
  }

  lemma PutHolds<K, V, R>(s: Lru<K, V, R>, key: K, value: V, r: R, wanted: bool, k: K, v: V)
    requires Inv(s) && r !in s.counts
    ensures Holds(Put(s, key, value, r, wanted), k, v) <==> if k == key then v == value else Holds(s, k, v)
  {
    PutIs(s, key, value, r, wanted);
    hide Put;
    AddHolds(s, Put(s, key, value, r, wanted), key, r, value, k, v);
  }

  lemma ReleaseHolds<K, V, R>(s: Lru<K, V, R>, r: R, k: K, v: V)
    requires Inv(s) && r in s.held
    ensures r in s.counts && r in s.values && (Holds(Release(s, r), k, v) <==> Holds(s, k, v))
  {
    SameHolds(s, Release(s, r), k, v);
  }

  lemma PutIs<K, V, R>(s: Lru<K, V, R>, key: K, v: V, r: R, wanted: bool)
    ensures var t := Put(s, key, v, r, wanted);
            && t.values == s.values[r := v]
            && t.entries == [Entry(key, r)] + if Has(s.entries, key) then Without(s.entries, IndexOf(s.entries, key)) else s.entries
  {
  }

  lemma SameHolds<K, V, R>(s: Lru<K, V, R>, t: Lru<K, V, R>, k: K, v: V)
    requires t.entries == s.entries && t.values == s.values
    ensures Holds(t, k, v) <==> Holds(s, k, v)
  {
    assert forall i :: 0 <= i < |s.entries| ==> (HoldsAt(t, i, k, v) <==> HoldsAt(s, i, k, v));
  }

  lemma RemoveHolds<K, V, R>(s: Lru<K, V, R>, key: K, k: K, v: V)
    requires Inv(s)
    ensures Holds(Remove(s, key), k, v) <==> Holds(s, k, v) && k != key
  {
    if Has(s.entries, key) {
      var i := IndexOf(s.entries, key);
      WithoutRest(s.entries, i);
      var t := Remove(s, key);
      assert t.entries[0..] == t.entries;
      if k != key {
        RestHolds(s, t, key, 0, k, v);
      }
    } else if k == key {
      NothingHeld(s, key, v);
    }
  }

  lemma EvictHolds<K, V, R>(s: Lru<K, V, R>, k: K, v: V)
    requires Inv(s) && s.entries != []
    ensures var last := |s.entries| - 1; s.entries[last].ref in s.counts && s.entries[last].ref in s.values
    ensures Holds(Evict(s), k, v) <==> Holds(s, k, v) && k != s.entries[|s.entries| - 1].key
  {
    var t, n := Evict(s), |s.entries| - 1;
    assert forall i :: 0 <= i < n ==> t.entries[i] == s.entries[i];
    if Holds(s, k, v) && k != s.entries[n].key {
      var i :| 0 <= i < |s.entries| && HoldsAt(s, i, k, v);
      assert HoldsAt(t, i, k, v);
    }
    if Holds(t, k, v) {
      var i :| 0 <= i < n && HoldsAt(t, i, k, v);
      assert HoldsAt(s, i, k, v);
    }
  }

  /** The `i`-th event made the entry, and nothing has taken it away or replaced it since. */
  ghost predicate Lasts<K, V, R>(states: seq<Lru<K, V, R>>, events: seq<Event<K, V, R>>, i: nat, n: nat, key: K)
    requires i < n <= |events| <= |states|
  {
    && Stores(states[i], events[i], key)
    && forall j :: i < j < n ==> !Stores(states[j], events[j], key) && !Loses(states[j], events[j], key)
  }

  /** In every run the cache holds a value for a key exactly when that was the last one stored for it,
      and it has been neither removed nor evicted since. */
  lemma {:induction false} HoldsExactly<K, V, R>(
    states: seq<Lru<K, V, R>>, events: seq<Event<K, V, R>>, n: nat, key: K, v: V)
    requires IsRun(states, events) && n < |states|
    ensures Holds(states[n], key, v) <==> exists i :: 0 <= i < n && Lasts(states, events, i, n, key) && Carries(events[i], v)
  {
    hide Inv, Enabled, Apply, Stores, Loses, Holds;
    if n == 0 {
      NothingAtFirst<K, V, R>(key, v);
    } else {
      var m, e, s := n - 1, events[n - 1], states[n - 1];
      HoldsExactly(states, events, m, key, v);
      RunStep(states, events, m);
      StepHolds(s, e, key, v);
      hide IsRun;
      forall i | 0 <= i < m
        ensures Lasts(states, events, i, n, key) <==>
                Lasts(states, events, i, m, key) && !Stores(s, e, key) && !Loses(s, e, key)
      {
        LastsStep(states, events, i, m, key);
      }
      assert Lasts(states, events, m, n, key) <==> Stores(s, e, key);
      if Holds(states[n], key, v) && !Stores(s, e, key) {
        var i :| 0 <= i < m && Lasts(states, events, i, m, key) && Carries(events[i], v);
        assert Lasts(states, events, i, n, key);
      }
    }
  }

  lemma LastsStep<K, V, R>(states: seq<Lru<K, V, R>>, events: seq<Event<K, V, R>>, i: nat, m: nat, key: K)
    requires i < m < |events| <= |states|
    ensures Lasts(states, events, i, m + 1, key) <==>
            Lasts(states, events, i, m, key) && !Stores(states[m], events[m], key) && !Loses(states[m], events[m], key)
  {
    hide Stores, Loses;
    if Lasts(states, events, i, m, key) && !Stores(states[m], events[m], key) && !Loses(states[m], events[m], key) {
      forall j | i < j < m + 1 ensures !Stores(states[j], events[j], key) && !Loses(states[j], events[j], key) {
        assert j < m || j == m;
      }
    }
  }

  lemma NothingAtFirst<K, V, R>(key: K, v: V)
    ensures !Holds(Empty<K, V, R>(), key, v)
  {
  }
}
