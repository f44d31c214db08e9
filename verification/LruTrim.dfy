/** Sizes of the LRU cache: what trimming leaves, and bounds on the total. */
module LruTrim {
  import opened LruModel

  function EntrySize<K, V, R(==)>(e: Entry<K, R>, values: map<R, V>, sizeOf: (K, V) -> nat): nat {
    if e.ref in values then sizeOf(e.key, values[e.ref]) else 0
  }

  /** The sum of the entry sizes. */
  function Size<K, V, R(==)>(entries: seq<Entry<K, R>>, values: map<R, V>, sizeOf: (K, V) -> nat): nat {
    if entries == [] then 0 else EntrySize(entries[0], values, sizeOf) + Size(entries[1..], values, sizeOf)
  }

  lemma {:induction false} SizeConcat<K, V, R>(
    a: seq<Entry<K, R>>, b: seq<Entry<K, R>>, values: map<R, V>, sizeOf: (K, V) -> nat)
    ensures Size(a + b, values, sizeOf) == Size(a, values, sizeOf) + Size(b, values, sizeOf)
  {
    if a == [] {
      assert a + b == b;
    } else {
      assert (a + b)[1..] == a[1..] + b;
      SizeConcat(a[1..], b, values, sizeOf);
    }
  }

  lemma SizeOne<K, V, R>(e: Entry<K, R>, values: map<R, V>, sizeOf: (K, V) -> nat)
    ensures Size([e], values, sizeOf) == EntrySize(e, values, sizeOf)
  {
    assert [e][1..] == [];
  }

  lemma SizeWithout<K, V, R>(entries: seq<Entry<K, R>>, i: nat, values: map<R, V>, sizeOf: (K, V) -> nat)
    requires i < |entries|
    ensures Size(Without(entries, i), values, sizeOf) ==
            Size(entries, values, sizeOf) - EntrySize(entries[i], values, sizeOf)
    ensures Size(Touched(entries, i), values, sizeOf) == Size(entries, values, sizeOf)
  {
    assert entries == entries[..i] + ([entries[i]] + entries[i + 1..]);
    SizeConcat(entries[..i], [entries[i]] + entries[i + 1..], values, sizeOf);
    SizeConcat([entries[i]], entries[i + 1..], values, sizeOf);
    SizeConcat(entries[..i], entries[i + 1..], values, sizeOf);
    SizeConcat([entries[i]], Without(entries, i), values, sizeOf);
    SizeOne(entries[i], values, sizeOf);
  }

  /** New references change the size of no old entry. */
  lemma {:induction false} SizeStable<K, V, R>(
    entries: seq<Entry<K, R>>, values: map<R, V>, r: R, v: V, sizeOf: (K, V) -> nat)
    requires forall i :: 0 <= i < |entries| ==> entries[i].ref != r
    ensures Size(entries, values[r := v], sizeOf) == Size(entries, values, sizeOf)
  {
    if entries != [] {
      SizeStable(entries[1..], values, r, v, sizeOf);
    }
  }

  // ------------------------------------------------------------------ trimming

  ghost function Total<K, V, R>(s: Lru<K, V, R>, sizeOf: (K, V) -> nat): nat {
    Size(s.entries, s.values, sizeOf)
  }

  /** Evictions until the total fits; a negative limit evicts everything. */
  ghost function Trim<K, V, R>(s: Lru<K, V, R>, maxSize: int, sizeOf: (K, V) -> nat): (t: Lru<K, V, R>)
    requires Inv(s)
    ensures Inv(t)
    decreases |s.entries|
  {
    if Total(s, sizeOf) <= maxSize || s.entries == [] then s
    else
      EvictKeeps(s);
      Trim(Evict(s), maxSize, sizeOf)
  }

  /** The longest prefix of the recency order that fits. */
  ghost predicate LongestFit<K, V, R>(
    kept: seq<Entry<K, R>>, entries: seq<Entry<K, R>>, values: map<R, V>, maxSize: int, sizeOf: (K, V) -> nat)
  {
    && kept <= entries
    && (kept == [] || Size(kept, values, sizeOf) <= maxSize)
    && forall k :: |kept| < k <= |entries| ==> Size(entries[..k], values, sizeOf) > maxSize
  }

  /** Trimming keeps exactly the longest most-recent prefix that fits, and nothing but counts and
      destructions changes otherwise. */
  lemma {:induction false} TrimKeepsLongestFit<K, V, R>(s: Lru<K, V, R>, maxSize: int, sizeOf: (K, V) -> nat)
    requires Inv(s)
    ensures var t := Trim(s, maxSize, sizeOf);
            && LongestFit(t.entries, s.entries, s.values, maxSize, sizeOf)
            && t.values == s.values && t.held == s.held && t.pending == s.pending
            && s.destroyed <= t.destroyed
            && (t.entries != [] || maxSize >= 0 ==> Total(t, sizeOf) <= maxSize)
    decreases |s.entries|
  {
    hide Size, Inv;
    if Total(s, sizeOf) <= maxSize || s.entries == [] {
      assert s.entries[..|s.entries|] == s.entries;
      EmptySize(s.values, sizeOf);
    } else {
      EvictKeeps(s);
      LastIsCounted(s);
      var d := Evict(s);
      TrimKeepsLongestFit(d, maxSize, sizeOf);
      LongestFitBeyond(Trim(d, maxSize, sizeOf).entries, s.entries, s.values, maxSize, sizeOf);
    }
  }

  lemma LastIsCounted<K, V, R>(s: Lru<K, V, R>)
    requires Inv(s) && s.entries != []
    ensures var r := s.entries[|s.entries| - 1].ref; r in s.counts && r in s.values
  {
  }

  lemma EmptySize<K, V, R>(values: map<R, V>, sizeOf: (K, V) -> nat)
    ensures Size<K, V, R>([], values, sizeOf) == 0
  {
  }

  lemma LongestFitBeyond<K, V, R>(
    kept: seq<Entry<K, R>>, entries: seq<Entry<K, R>>, values: map<R, V>, maxSize: int, sizeOf: (K, V) -> nat)
    requires entries != [] && Size(entries, values, sizeOf) > maxSize
    requires LongestFit(kept, entries[..|entries| - 1], values, maxSize, sizeOf)
    ensures LongestFit(kept, entries, values, maxSize, sizeOf)
  {
    hide Size;
    var shorter := entries[..|entries| - 1];
    forall k | |kept| < k <= |entries| ensures Size(entries[..k], values, sizeOf) > maxSize {
      assert entries[..k] == if k == |entries| then entries else shorter[..k];
    }
  }

  /** The prefix kept is determined by the order and the sizes alone. */
  lemma LongestFitIsUnique<K, V, R>(
    a: seq<Entry<K, R>>, b: seq<Entry<K, R>>, entries: seq<Entry<K, R>>, values: map<R, V>, maxSize: int,
    sizeOf: (K, V) -> nat)
    requires LongestFit(a, entries, values, maxSize, sizeOf) && LongestFit(b, entries, values, maxSize, sizeOf)
    ensures a == b
  {
    assert a == entries[..|a|] && b == entries[..|b|];
  }

  // ------------------------------------------------------------------ bounds for one thread

  /** At most the limit or, where overshooting is allowed, the limit plus one entry. */
  ghost predicate Bounded<K, V, R>(s: Lru<K, V, R>, maxSize: int, overshoot: bool, sizeOf: (K, V) -> nat) {
    || Total(s, sizeOf) <= maxSize
    || (overshoot &&
        exists i :: 0 <= i < |s.entries| && Total(s, sizeOf) - EntrySize(s.entries[i], s.values, sizeOf) <= maxSize)
  }

  /** A whole Get by a single thread. `created` is what the policy creates on a miss, if anything. */
  ghost function GetWhole<K, V, R>(
    s: Lru<K, V, R>, key: K, created: seq<V>, r: R, maxSize: int, overshoot: bool, sizeOf: (K, V) -> nat): Lru<K, V, R>
    requires Inv(s) && |created| <= 1 && r !in s.counts && forall v :: v in created ==> NewValue(s, v)
  {
    if Has(s.entries, key) then Hit(s, key)
    else
      var t := if overshoot then Trim(s, maxSize, sizeOf) else s;
      if created == [] then t
      else
        MissedKey(s, key, created[0], r, maxSize, overshoot, sizeOf);
        var u := Finish(Created(t, created[0]), key, created[0], r);
        if overshoot then u else Trim(u, maxSize, sizeOf)
  }

  ghost function PutWhole<K, V, R>(
    s: Lru<K, V, R>, key: K, v: V, r: R, wantAdded: bool, maxSize: int, overshoot: bool, sizeOf: (K, V) -> nat): Lru<K, V, R>
    requires Inv(s) && NewValue(s, v) && r !in s.counts
  {
    if overshoot then
      Put(Trim(s, maxSize, sizeOf), key, v, r, wantAdded)
    else
      PutKeeps(s, key, v, r, wantAdded);
      Trim(Put(s, key, v, r, wantAdded), maxSize, sizeOf)
  }

  lemma {:induction false} TrimForgets<K, V, R>(s: Lru<K, V, R>, key: K, v: V, maxSize: int, sizeOf: (K, V) -> nat)
    requires Inv(s) && NewValue(s, v)
    ensures var t := Trim(s, maxSize, sizeOf);
            NewValue(t, v) && t.counts.Keys == s.counts.Keys && (!Has(s.entries, key) ==> !Has(t.entries, key))
    decreases |s.entries|
  {
    if Total(s, sizeOf) <= maxSize || s.entries == [] {
    } else {
      EvictKeeps(s);
      TrimForgets(Evict(s), key, v, maxSize, sizeOf);
    }
  }

  lemma MissedKey<K, V, R>(
    s: Lru<K, V, R>, key: K, v: V, r: R, maxSize: int, overshoot: bool, sizeOf: (K, V) -> nat)
    requires Inv(s) && NewValue(s, v) && r !in s.counts && !Has(s.entries, key)
    ensures var t := if overshoot then Trim(s, maxSize, sizeOf) else s;
            !Has(t.entries, key) && Inv(Created(t, v)) && Inv(Finish(Created(t, v), key, v, r))
  {
    TrimForgets(s, key, v, maxSize, sizeOf);
    var t := if overshoot then Trim(s, maxSize, sizeOf) else s;
    FinishKeeps(Created(t, v), key, v, r);
  }

  lemma AddedTotal<K, V, R>(s: Lru<K, V, R>, key: K, v: V, r: R, n: int, sizeOf: (K, V) -> nat)
    requires Inv(s) && r !in s.counts
    ensures var t := Added(s, key, v, r, n);
            && Total(t, sizeOf) == Total(s, sizeOf) + sizeOf(key, v)
            && EntrySize(t.entries[0], t.values, sizeOf) == sizeOf(key, v)
  {
    SizeStable(s.entries, s.values, r, v, sizeOf);
    assert ([Entry(key, r)] + s.entries)[1..] == s.entries;
  }

  /** After any operation of a single thread the total is within its bound. */
  lemma GetStaysBounded<K, V, R>(
    s: Lru<K, V, R>, key: K, created: seq<V>, r: R, maxSize: int, overshoot: bool, sizeOf: (K, V) -> nat)
    requires Inv(s) && |created| <= 1 && r !in s.counts && forall v :: v in created ==> NewValue(s, v)
    requires maxSize >= 0 && Bounded(s, maxSize, overshoot, sizeOf)
    ensures Bounded(GetWhole(s, key, created, r, maxSize, overshoot, sizeOf), maxSize, overshoot, sizeOf)
  {
    if Has(s.entries, key) {
      HitStaysBounded(s, key, maxSize, overshoot, sizeOf);
    } else {
      TrimKeepsLongestFit(s, maxSize, sizeOf);
      var t := if overshoot then Trim(s, maxSize, sizeOf) else s;
      if created != [] {
        var v := created[0];
        MissedKey(s, key, v, r, maxSize, overshoot, sizeOf);
        AddedTotal(t, key, v, r, 2, sizeOf);
        var u := Finish(Created(t, v), key, v, r);
        TrimKeepsLongestFit(u, maxSize, sizeOf);
        assert Total(u, sizeOf) == Total(t, sizeOf) + EntrySize(u.entries[0], u.values, sizeOf);
      }
    }
  }

  lemma HitStaysBounded<K, V, R>(s: Lru<K, V, R>, key: K, maxSize: int, overshoot: bool, sizeOf: (K, V) -> nat)
    requires Inv(s) && Has(s.entries, key) && Bounded(s, maxSize, overshoot, sizeOf)
    ensures Bounded(Hit(s, key), maxSize, overshoot, sizeOf)
  {
    hide Size, DistinctKeys, DistinctRefs, Fated;
    var i := IndexOf(s.entries, key);
    SizeWithout(s.entries, i, s.values, sizeOf);
    var t := Hit(s, key);
    assert Total(t, sizeOf) == Total(s, sizeOf) && t.values == s.values;
    hide Counted;
    if Total(s, sizeOf) > maxSize {
      var j :| 0 <= j < |s.entries| && Total(s, sizeOf) - EntrySize(s.entries[j], s.values, sizeOf) <= maxSize;
      var k := if j == i then 0 else if j < i then j + 1 else j;
      assert t.entries[k] == s.entries[j];
    }
  }

  lemma PutStaysBounded<K, V, R>(
    s: Lru<K, V, R>, key: K, v: V, r: R, wantAdded: bool, maxSize: int, overshoot: bool, sizeOf: (K, V) -> nat)
    requires Inv(s) && NewValue(s, v) && r !in s.counts && maxSize >= 0
    ensures Bounded(PutWhole(s, key, v, r, wantAdded, maxSize, overshoot, sizeOf), maxSize, overshoot, sizeOf)
  {
    if overshoot {
      TrimKeepsLongestFit(s, maxSize, sizeOf);
      TrimForgets(s, key, v, maxSize, sizeOf);
      var t := Trim(s, maxSize, sizeOf);
      RemoveKeeps(t, key);
      RemovedTotal(t, key, sizeOf);
      AddedTotal(Remove(t, key), key, v, r, if wantAdded then 2 else 1, sizeOf);
      var u := Put(t, key, v, r, wantAdded);
      assert Total(u, sizeOf) - EntrySize(u.entries[0], u.values, sizeOf) <= maxSize;
    } else {
      PutKeeps(s, key, v, r, wantAdded);
      TrimKeepsLongestFit(Put(s, key, v, r, wantAdded), maxSize, sizeOf);
    }
  }

  lemma RemovedTotal<K, V, R>(s: Lru<K, V, R>, key: K, sizeOf: (K, V) -> nat)
    ensures Total(Remove(s, key), sizeOf) ==
            Total(s, sizeOf) - if Has(s.entries, key) then EntrySize(s.entries[IndexOf(s.entries, key)], s.values, sizeOf) else 0
  {
    if Has(s.entries, key) {
      SizeWithout(s.entries, IndexOf(s.entries, key), s.values, sizeOf);
    }
  }

  lemma RemoveStaysBounded<K, V, R>(s: Lru<K, V, R>, key: K, maxSize: int, overshoot: bool, sizeOf: (K, V) -> nat)
    requires Inv(s) && Bounded(s, maxSize, overshoot, sizeOf)
    ensures Bounded(Remove(s, key), maxSize, overshoot, sizeOf)
  {
    hide Size, Inv;
    RemovedTotal(s, key, sizeOf);
    var i := IndexOf(s.entries, key);
    if Total(s, sizeOf) > maxSize && i < |s.entries| {
      var j :| 0 <= j < |s.entries| && Total(s, sizeOf) - EntrySize(s.entries[j], s.values, sizeOf) <= maxSize;
      var t := Remove(s, key);
      if j != i {
        assert t.entries[if j < i then j else j - 1] == s.entries[j];
      }
    }
  }

  // ------------------------------------------------------------------ what whole calls leave

  /** The entries of the other keys, in the same order. */
  function Others<K(==), R>(entries: seq<Entry<K, R>>, key: K): seq<Entry<K, R>> {
    if entries == [] then []
    else (if entries[0].key == key then [] else [entries[0]]) + Others(entries[1..], key)
  }

  lemma OthersAre<K, R>(entries: seq<Entry<K, R>>, key: K)
    requires DistinctKeys(entries)
    ensures var i := IndexOf(entries, key);
            Others(entries, key) == if i < |entries| then Without(entries, i) else entries
  {
    hide DistinctKeys, Others, IndexOf;
    var i := IndexOf(entries, key);
    if i == |entries| {
      AllOthers(entries, key);
    } else {
      KeysAround(entries, i);
      OthersAround(entries[..i], entries[i], entries[i + 1..]);
      assert entries == entries[..i] + ([entries[i]] + entries[i + 1..]);
    }
  }

  ghost predicate NoneHas<K, R>(entries: seq<Entry<K, R>>, key: K) {
    forall i :: 0 <= i < |entries| ==> entries[i].key != key
  }

  lemma KeysAround<K, R>(entries: seq<Entry<K, R>>, i: nat)
    requires DistinctKeys(entries) && i < |entries|
    ensures NoneHas(entries[..i], entries[i].key) && NoneHas(entries[i + 1..], entries[i].key)
  {
  }

  lemma OthersAround<K, R>(front: seq<Entry<K, R>>, e: Entry<K, R>, back: seq<Entry<K, R>>)
    requires NoneHas(front, e.key) && NoneHas(back, e.key)
    ensures Others(front + ([e] + back), e.key) == front + back
  {
    hide Others, NoneHas;
    AllOthers(front, e.key);
    AllOthers(back, e.key);
    OthersTogether(front, [e] + back, e.key);
    OthersTogether([e], back, e.key);
    NotAnother(e);
    assert [] + back == back;
  }

  lemma NotAnother<K, R>(e: Entry<K, R>)
    ensures Others([e], e.key) == []
  {
    assert [e][1..] == [];
  }

  lemma {:induction false} OthersTogether<K, R>(a: seq<Entry<K, R>>, b: seq<Entry<K, R>>, key: K)
    ensures Others(a + b, key) == Others(a, key) + Others(b, key)
  {
    if a == [] {
      assert a + b == b;
    } else {
      assert (a + b)[1..] == a[1..] + b;
      OthersTogether(a[1..], b, key);
    }
  }

  lemma {:induction false} AllOthers<K, R>(entries: seq<Entry<K, R>>, key: K)
    requires NoneHas(entries, key)
    ensures Others(entries, key) == entries
  {
    if entries != [] {
      AllOthers(entries[1..], key);
    }
  }

  /** What a Get leaves in the cache: on a hit the entry in front of the others; on a miss the created value,
      if there is one, in front of what was there. It is trimmed before the new entry comes where overshooting
      is allowed, and with the new entry otherwise. */
  lemma GetMeans<K, V, R>(
    s: Lru<K, V, R>, key: K, created: seq<V>, r: R, maxSize: int, overshoot: bool, sizeOf: (K, V) -> nat)
    requires Inv(s) && |created| <= 1 && r !in s.counts && forall v :: v in created ==> NewValue(s, v)
    ensures var t := GetWhole(s, key, created, r, maxSize, overshoot, sizeOf);
            if exists e :: e in s.entries && e.key == key then
              exists e :: e in s.entries && e.key == key && t.entries == [e] + Others(s.entries, key)
            else if created == [] then
              if overshoot then LongestFit(t.entries, s.entries, s.values, maxSize, sizeOf) else t.entries == s.entries
            else if overshoot then
              && t.entries != [] && t.entries[0] == Entry(key, r)
              && LongestFit(t.entries[1..], s.entries, s.values, maxSize, sizeOf)
            else
              LongestFit(t.entries, [Entry(key, r)] + s.entries, s.values[r := created[0]], maxSize, sizeOf)
  {
    hide Inv, Trim, LongestFit;
    FoundIff(s.entries, key);
    if Has(s.entries, key) {
      HitLeaves(s, key);
    } else {
      TrimKeepsLongestFit(s, maxSize, sizeOf);
      if created != [] {
        MissedKey(s, key, created[0], r, maxSize, overshoot, sizeOf);
        var t := if overshoot then Trim(s, maxSize, sizeOf) else s;
        var u := Finish(Created(t, created[0]), key, created[0], r);
        assert u.entries == [Entry(key, r)] + t.entries && u.values == s.values[r := created[0]];
        TrimKeepsLongestFit(u, maxSize, sizeOf);
      }
    }
  }

  lemma FoundIff<K, R>(entries: seq<Entry<K, R>>, key: K)
    ensures Has(entries, key) <==> exists e :: e in entries && e.key == key
  {
    if Has(entries, key) {
      assert entries[IndexOf(entries, key)] in entries;
    }
  }

  lemma HitLeaves<K, V, R>(s: Lru<K, V, R>, key: K)
    requires Inv(s) && Has(s.entries, key)
    ensures var e := s.entries[IndexOf(s.entries, key)];
            e in s.entries && e.key == key && e.ref in s.counts && Hit(s, key).entries == [e] + Others(s.entries, key)
  {
    OthersAre(s.entries, key);
  }

  /** What a Put leaves: the new entry in front of those of the other keys, trimmed before or with it. */
  lemma PutMeans<K, V, R>(
    s: Lru<K, V, R>, key: K, v: V, r: R, wantAdded: bool, maxSize: int, overshoot: bool, sizeOf: (K, V) -> nat)
    requires Inv(s) && NewValue(s, v) && r !in s.counts
    ensures var t := PutWhole(s, key, v, r, wantAdded, maxSize, overshoot, sizeOf);
            if overshoot then
              exists kept :: LongestFit(kept, s.entries, s.values, maxSize, sizeOf) && t.entries == [Entry(key, r)] + Others(kept, key)
            else
              LongestFit(t.entries, [Entry(key, r)] + Others(s.entries, key), s.values[r := v], maxSize, sizeOf)
  {
    PutKeeps(s, key, v, r, wantAdded);
    PutLeaves(s, key, v, r, wantAdded);
    PutLeaves(Trim(s, maxSize, sizeOf), key, v, r, wantAdded);
    hide Inv, Trim, Put, LongestFit;
    if overshoot {
      TrimKeepsLongestFit(s, maxSize, sizeOf);
    } else {
      TrimKeepsLongestFit(Put(s, key, v, r, wantAdded), maxSize, sizeOf);
    }
  }

  lemma PutLeaves<K, V, R>(s: Lru<K, V, R>, key: K, v: V, r: R, wantAdded: bool)
    requires DistinctKeys(s.entries)
    ensures var t := Put(s, key, v, r, wantAdded);
            t.entries == [Entry(key, r)] + Others(s.entries, key) && t.values == s.values[r := v]
  {
    OthersAre(s.entries, key);
  }

  // ------------------------------------------------------------------ whole runs of one thread

  /** What a single thread calls. `ref` names the reference that is made, if one is. */
  datatype Call<K, V, R> =
    | CallGet(key: K, created: seq<V>, ref: R)
    | CallPut(key: K, value: V, ref: R, wantAdded: bool)
    | CallRemove(key: K)
    | CallRelease(ref: R)
    | CallEvictAll

  ghost predicate MayCall<K, V, R>(s: Lru<K, V, R>, c: Call<K, V, R>) {
    match c
    case CallGet(_, created, r) => |created| <= 1 && r !in s.counts && forall v :: v in created ==> NewValue(s, v)
    case CallPut(_, v, r, _) => NewValue(s, v) && r !in s.counts
    case CallRelease(r) => r in s.held
    case _ => true
  }

  ghost function Called<K, V, R>(
    s: Lru<K, V, R>, c: Call<K, V, R>, maxSize: int, overshoot: bool, sizeOf: (K, V) -> nat): Lru<K, V, R>
    requires Inv(s) && MayCall(s, c)
  {
    match c
    case CallGet(key, created, r) => GetWhole(s, key, created, r, maxSize, overshoot, sizeOf)
    case CallPut(key, v, r, wantAdded) => PutWhole(s, key, v, r, wantAdded, maxSize, overshoot, sizeOf)
    case CallRemove(key) => Remove(s, key)
    case CallRelease(r) => Release(s, r)
    case CallEvictAll => Trim(s, -1, sizeOf)
  }

  lemma CalledKeeps<K, V, R>(s: Lru<K, V, R>, c: Call<K, V, R>, maxSize: int, overshoot: bool, sizeOf: (K, V) -> nat)
    requires Inv(s) && MayCall(s, c) && maxSize >= 0 && Bounded(s, maxSize, overshoot, sizeOf)
    ensures var t := Called(s, c, maxSize, overshoot, sizeOf); Inv(t) && Bounded(t, maxSize, overshoot, sizeOf)
  {
    hide Inv, Bounded;
    match c
    case CallGet(key, created, r) =>
      GetStaysBounded(s, key, created, r, maxSize, overshoot, sizeOf);
      GetKeeps(s, key, created, r, maxSize, overshoot, sizeOf);
    case CallPut(key, v, r, wantAdded) =>
      PutStaysBounded(s, key, v, r, wantAdded, maxSize, overshoot, sizeOf);
      PutWholeKeeps(s, key, v, r, wantAdded, maxSize, overshoot, sizeOf);
    case CallRemove(key) =>
      RemoveKeeps(s, key);
      RemoveStaysBounded(s, key, maxSize, overshoot, sizeOf);
    case CallRelease(r) =>
      ReleaseKeeps(s, r);
      ReleaseStaysBounded(s, r, maxSize, overshoot, sizeOf);
    case CallEvictAll =>
      NothingStaysBounded(s, maxSize, overshoot, sizeOf);
  }

  lemma GetKeeps<K, V, R>(
    s: Lru<K, V, R>, key: K, created: seq<V>, r: R, maxSize: int, overshoot: bool, sizeOf: (K, V) -> nat)
    requires Inv(s) && |created| <= 1 && r !in s.counts && forall v :: v in created ==> NewValue(s, v)
    ensures Inv(GetWhole(s, key, created, r, maxSize, overshoot, sizeOf))
  {
    hide Inv, Trim, Finish;
    if Has(s.entries, key) {
      HitKeeps(s, key);
    } else if created != [] {
      MissedKey(s, key, created[0], r, maxSize, overshoot, sizeOf);
    }
  }

  lemma PutWholeKeeps<K, V, R>(
    s: Lru<K, V, R>, key: K, v: V, r: R, wantAdded: bool, maxSize: int, overshoot: bool, sizeOf: (K, V) -> nat)
    requires Inv(s) && NewValue(s, v) && r !in s.counts
    ensures Inv(PutWhole(s, key, v, r, wantAdded, maxSize, overshoot, sizeOf))
  {
    hide Inv, Trim;
    TrimForgets(s, key, v, maxSize, sizeOf);
    PutKeeps(s, key, v, r, wantAdded);
    PutKeeps(Trim(s, maxSize, sizeOf), key, v, r, wantAdded);
  }

  lemma ReleaseStaysBounded<K, V, R>(s: Lru<K, V, R>, r: R, maxSize: int, overshoot: bool, sizeOf: (K, V) -> nat)
    requires Inv(s) && r in s.held && Bounded(s, maxSize, overshoot, sizeOf)
    ensures Bounded(Release(s, r), maxSize, overshoot, sizeOf)
  {
    hide Size, DistinctKeys, DistinctRefs, Fated;
    var t := Release(s, r);
    assert t.entries == s.entries && t.values == s.values;
    hide Counted;
  }

  lemma NothingStaysBounded<K, V, R>(s: Lru<K, V, R>, maxSize: int, overshoot: bool, sizeOf: (K, V) -> nat)
    requires Inv(s) && maxSize >= 0
    ensures Inv(Trim(s, -1, sizeOf)) && Bounded(Trim(s, -1, sizeOf), maxSize, overshoot, sizeOf)
  {
    hide Inv, Trim;
    TrimKeepsLongestFit(s, -1, sizeOf);
    assert Trim(s, -1, sizeOf).entries == [];
  }

  ghost predicate CallFollows<K, V, R>(
    s: Lru<K, V, R>, c: Call<K, V, R>, t: Lru<K, V, R>, maxSize: int, overshoot: bool, sizeOf: (K, V) -> nat)
  {
    Inv(s) ==> MayCall(s, c) && t == Called(s, c, maxSize, overshoot, sizeOf)
  }

  ghost predicate IsSequentialRun<K, V, R>(
    states: seq<Lru<K, V, R>>, calls: seq<Call<K, V, R>>, maxSize: int, overshoot: bool, sizeOf: (K, V) -> nat)
  {
    && |states| == |calls| + 1 && states[0] == Empty()
    && forall i :: 0 <= i < |calls| ==> CallFollows(states[i], calls[i], states[i + 1], maxSize, overshoot, sizeOf)
  }

  /** In every run of one thread the size is within the limit, or the limit plus one entry where
      overshooting is allowed. */
  lemma {:induction false} EverySequentialRunIsBounded<K, V, R>(
    states: seq<Lru<K, V, R>>, calls: seq<Call<K, V, R>>, maxSize: int, overshoot: bool, sizeOf: (K, V) -> nat, n: nat)
    requires maxSize >= 0 && IsSequentialRun(states, calls, maxSize, overshoot, sizeOf) && n < |states|
    ensures Inv(states[n]) && Bounded(states[n], maxSize, overshoot, sizeOf)
  {
    if n > 0 {
      EverySequentialRunIsBounded(states, calls, maxSize, overshoot, sizeOf, n - 1);
      hide Inv, Bounded, Called;
      assert CallFollows(states[n - 1], calls[n - 1], states[n], maxSize, overshoot, sizeOf);
      CalledKeeps(states[n - 1], calls[n - 1], maxSize, overshoot, sizeOf);
    }
  }
}
