/** The LRU cache as an object: a hash map whose slots point into a recency list, a running
    size, and reference-counted values. Each method is one locked region (or a loop of them). */
module LruCacheObject {
  import opened LruModel
  import opened LruTrim

  /** Reference counting through encapsulation: dropping the last reference deletes the object. */
  class RefCounted<V> {
    const data: V
    var refCount: int
    var deleted: bool

    constructor (data: V)
      ensures this.data == data && refCount == 0 && !deleted
    {
      this.data := data;
      refCount, deleted := 0, false;
    }

    method IncRef()
      requires !deleted
      modifies this
      ensures refCount == old(refCount) + 1 && !deleted
    {
      refCount := refCount + 1;
    }

    /** Returns true when the object was deleted. */
    method DecRef() returns (gone: bool)
      requires !deleted && refCount >= 1
      modifies this
      ensures refCount == old(refCount) - 1 && gone == deleted == (refCount == 0)
    {
      gone := refCount == 1;
      refCount := refCount - 1;
      if gone {
        deleted := true;
      }
    }
  }

  /** A reference for the map and, if asked for, one more for the caller. */
  method CreateRef<V>(value: V, handOut: bool) returns (ref: RefCounted<V>)
    ensures fresh(ref) && ref.data == value && !ref.deleted && ref.refCount == if handOut then 2 else 1
  {
    ref := new RefCounted(value);
    ref.IncRef();
    if handOut {
      ref.IncRef();
    }
  }

  /** A list node; its id stands for the iterator that points at it. */
  datatype Node<K> = Node(id: nat, key: K)

  datatype Slot<V> = Slot(ref: RefCounted<V>, node: nat)

  /** Where an iterator points, or past the end. */
  function Position<K>(list: seq<Node<K>>, id: nat): (i: nat)
    ensures i <= |list|
    ensures i < |list| ==> list[i].id == id
    ensures forall j :: 0 <= j < i ==> list[j].id != id
  {
    if list == [] || list[0].id == id then 0 else 1 + Position(list[1..], id)
  }

  /** Position `i` of the list holds the key of entry `i`, and the slot of that key points back. */
  ghost predicate LinkedAt<K, V>(
    list: seq<Node<K>>, slots: map<K, Slot<V>>, entries: seq<Entry<K, RefCounted<V>>>, next: nat, i: nat)
    requires i < |list| == |entries|
  {
    && list[i].key == entries[i].key
    && list[i].id < next
    && list[i].key in slots
    && slots[list[i].key] == Slot(entries[i].ref, list[i].id)
  }

  ghost predicate DistinctIds<K>(list: seq<Node<K>>) {
    forall i, j :: 0 <= i < j < |list| ==> list[i].id != list[j].id
  }

  /** The list and the map hold the entries, each slot pointing at its own node. */
  ghost predicate Linked<K, V>(
    list: seq<Node<K>>, slots: map<K, Slot<V>>, entries: seq<Entry<K, RefCounted<V>>>, next: nat)
  {
    && |list| == |entries|
    && (forall i :: 0 <= i < |list| ==> LinkedAt(list, slots, entries, next, i))
    && DistinctIds(list) && DistinctKeys(entries)
    && (forall k :: k in slots ==> Has(entries, k))
  }

  function Unlinked<K>(list: seq<Node<K>>, i: nat): seq<Node<K>>
    requires i < |list|
  {
    list[..i] + list[i + 1..]
  }

  /** The iterator in a slot points at the node of its key. */
  lemma SlotPosition<K, V>(
    list: seq<Node<K>>, slots: map<K, Slot<V>>, entries: seq<Entry<K, RefCounted<V>>>, next: nat, key: K)
    requires Linked(list, slots, entries, next)
    ensures key in slots <==> Has(entries, key)
    ensures key in slots ==>
              && Position(list, slots[key].node) == IndexOf(entries, key) < |list|
              && slots[key].ref == entries[IndexOf(entries, key)].ref
  {
    var i := IndexOf(entries, key);
    if i < |entries| {
      assert LinkedAt(list, slots, entries, next, i);
      var p := Position(list, slots[key].node);
      assert p <= i;
      assert list[p].id == list[i].id;
    }
  }

  lemma LinkedWithout<K, V>(
    list: seq<Node<K>>, slots: map<K, Slot<V>>, entries: seq<Entry<K, RefCounted<V>>>, next: nat, i: nat)
    requires Linked(list, slots, entries, next) && i < |entries|
    ensures Linked(Unlinked(list, i), slots - {entries[i].key}, Without(entries, i), next)
  {
    var l, w, left := Unlinked(list, i), Without(entries, i), slots - {entries[i].key};
    forall j | 0 <= j < |l| ensures LinkedAt(l, left, w, next, j) {
      var p := if j < i then j else j + 1;
      assert l[j] == list[p] && w[j] == entries[p] && LinkedAt(list, slots, entries, next, p);
    }
    forall a, b | 0 <= a < b < |l| ensures l[a].id != l[b].id && w[a].key != w[b].key {
      var p, q := if a < i then a else a + 1, if b < i then b else b + 1;
      assert l[a] == list[p] && l[b] == list[q] && w[a] == entries[p] && w[b] == entries[q];
    }
    forall k | k in left ensures Has(w, k) {
      var p := IndexOf(entries, k);
      assert w[if p < i then p else p - 1].key == k;
    }
  }

  lemma LinkedFront<K, V>(
    list: seq<Node<K>>, slots: map<K, Slot<V>>, entries: seq<Entry<K, RefCounted<V>>>, next: nat, key: K, ref: RefCounted<V>)
    requires Linked(list, slots, entries, next) && key !in slots
    ensures Linked([Node(next, key)] + list, slots[key := Slot(ref, next)], [Entry(key, ref)] + entries, next + 1)
  {
    var l, f, more := [Node(next, key)] + list, [Entry(key, ref)] + entries, slots[key := Slot(ref, next)];
    var after := next + 1;
    forall j | 0 <= j < |l| ensures LinkedAt(l, more, f, after, j) {
      if j > 0 {
        assert l[j] == list[j - 1] && f[j] == entries[j - 1] && LinkedAt(list, slots, entries, next, j - 1);
      }
    }
    forall a, b | 0 <= a < b < |l| ensures l[a].id != l[b].id && f[a].key != f[b].key {
      assert l[b] == list[b - 1] && f[b] == entries[b - 1] && LinkedAt(list, slots, entries, next, b - 1);
      assert a > 0 ==> l[a] == list[a - 1] && f[a] == entries[a - 1];
    }
    forall k | k in more ensures Has(f, k) {
      assert f[if k == key then 0 else 1 + IndexOf(entries, k)].key == k;
    }
  }

  lemma LinkedTouched<K, V>(
    list: seq<Node<K>>, slots: map<K, Slot<V>>, entries: seq<Entry<K, RefCounted<V>>>, next: nat, key: K)
    requires Linked(list, slots, entries, next) && key in slots
    ensures var i := IndexOf(entries, key);
            && i < |list|
            && Linked([Node(next, key)] + Unlinked(list, i), slots[key := Slot(slots[key].ref, next)],
                      Touched(entries, i), next + 1)
  {
    SlotPosition(list, slots, entries, next, key);
    var i := IndexOf(entries, key);
    LinkedWithout(list, slots, entries, next, i);
    LinkedFront(Unlinked(list, i), slots - {key}, Without(entries, i), next, key, entries[i].ref);
    assert (slots - {key})[key := Slot(slots[key].ref, next)] == slots[key := Slot(slots[key].ref, next)];
  }

  /** The objects carry the counts and values of the model. */
  ghost predicate Tracked<K, V>(s: Lru<K, V, RefCounted<V>>)
    reads s.counts.Keys
  {
    forall r :: r in s.counts ==>
      && r in s.values && r.data == s.values[r]
      && r.refCount == s.counts[r] && r.deleted == (s.counts[r] == 0)
  }

  /** Gives up one reference to a counted object. */
  method DropReference<K, V>(ref: RefCounted<V>, ghost s: Lru<K, V, RefCounted<V>>) returns (gone: bool)
    requires Tracked(s) && ref in s.counts && ref in s.values && s.counts[ref] >= 1
    modifies ref
    ensures Tracked(Decreased(s, ref)) && gone == (s.counts[ref] == 1)
  {
    gone := ref.DecRef();
  }

  class LruCache<K(==), V(==)> {
    const sizeOf: (K, V) -> nat
    const maxSize: int
    const allowOvershoot: bool
    var list: seq<Node<K>>
    var slots: map<K, Slot<V>>
    var size: int
    var nextNode: nat
    var putCount: int
    var createCount: int
    var evictionCount: int
    var hitCount: int
    var missCount: int
    ghost var model: Lru<K, V, RefCounted<V>>

    ghost predicate Valid()
      reads this, model.counts.Keys
    {
      Inv(model) && Linked(list, slots, model.entries, nextNode) && Tracked(model) && size == Total(model, sizeOf)
    }

    constructor (maxSize: int, allowOvershoot: bool, sizeOf: (K, V) -> nat)
      requires maxSize > 0
      ensures Valid() && model == Empty()
      ensures this.maxSize == maxSize && this.allowOvershoot == allowOvershoot && this.sizeOf == sizeOf
    {
      this.sizeOf, this.maxSize, this.allowOvershoot := sizeOf, maxSize, allowOvershoot;
      list, slots, size, nextNode := [], map[], 0, 0;
      putCount, createCount, evictionCount, hitCount, missCount := 0, 0, 0, 0, 0;
      model := Empty();
    }

    method HasKey(key: K) returns (has: bool)
      requires Valid()
      ensures has == Has(model.entries, key)
    {
      SlotPosition(list, slots, model.entries, nextNode, key);
      has := key in slots;
    }

    /** Makes an entry the most recent one and hands out a reference to it. */
    method TouchAndHand(key: K) returns (ref: RefCounted<V>)
      requires Valid() && Has(model.entries, key) && key in slots
      modifies `list, `slots, `nextNode, `model, slots[key].ref
      ensures Valid() && model == Hit(old(model), key)
      ensures ref == model.entries[0].ref && !ref.deleted && ref.refCount >= 2
    {
      hide Linked, Inv, Size;
      ghost var before := model;
      ghost var i := IndexOf(model.entries, key);
      SlotPosition(list, slots, model.entries, nextNode, key);
      LinkedTouched(list, slots, model.entries, nextNode, key);
      SizeWithout(model.entries, i, model.values, sizeOf);
      HitKeeps(model, key);
      EntryIsAlive(model, i);
      ref := slots[key].ref;
      var at := Position(list, slots[key].node);
      list := [Node(nextNode, key)] + Unlinked(list, at);
      slots := slots[key := Slot(ref, nextNode)];
      nextNode := nextNode + 1;
      ref.IncRef();
      model := Hit(model, key);
    }

    /** The first half of a Get: a hit, or a miss that goes off to create a value. */
    method GetFirstHalf(key: K) returns (found: bool, ref: RefCounted?<V>)
      requires Valid()
      modifies this, model.counts.Keys
      ensures Valid() && found == Has(old(model).entries, key) && model.counts.Keys == old(model.counts.Keys)
      ensures found ==> model == Hit(old(model), key) && ref == model.entries[0].ref && !ref.deleted
      ensures !found ==> model == old(model) && ref == null
    {
      SlotPosition(list, slots, model.entries, nextNode, key);
      if key in slots {
        ghost var i := IndexOf(model.entries, key);
        EntryIsAlive(model, i);
        var r := TouchAndHand(key);
        ref, found := r, true;
        hitCount := hitCount + 1;
      } else {
        missCount := missCount + 1;
        ref, found := null, false;
      }
    }

    /** While the lock is released, the policy has created a value. */
    ghost method RecordCreated(v: V)
      requires Valid() && NewValue(model, v)
      modifies `model
      ensures Valid() && model == Created(old(model), v)
    {
      hide Linked, Inv, Size, Tracked;
      CreatedKeeps(model, v);
      ghost var before := model;
      model := Created(model, v);
      TrackedSame(before, model);
    }

    /** Puts a new reference at the front. `references` are made to it at once. */
    method InsertFront(key: K, value: V, handOut: bool) returns (ref: RefCounted<V>)
      requires Valid() && NewValue(model, value) && key !in slots
      modifies `list, `slots, `nextNode, `size, `model
      ensures Valid() && fresh(ref) && ref !in old(model.counts) && !ref.deleted
      ensures var t := Added(old(model), key, value, ref, if handOut then 2 else 1);
              model == if handOut then t.(held := t.held + multiset{ref}) else t
    {
      hide Linked, Inv, Total, Tracked, NewValue, IndexOf;
      ref := CreateRef(value, handOut);
      ghost var u := Added(model, key, value, ref, if handOut then 2 else 1);
      ghost var t := if handOut then u.(held := u.held + multiset{ref}) else u;
      TrackedAdded(model, t, ref, value, if handOut then 2 else 1);
      InsertedKeeps(list, slots, nextNode, model, t, key, value, ref, handOut, sizeOf);
      list := [Node(nextNode, key)] + list;
      slots := slots[key := Slot(ref, nextNode)];
      nextNode := nextNode + 1;
      size := size + sizeOf(key, value);
      model := t;
    }

    /** The second half of a missed Get. */
    method GetSecondHalf(key: K, created: V) returns (ref: RefCounted<V>)
      requires Valid() && created in model.pending
      modifies this, model.counts.Keys
      ensures Valid() && model == Finish(old(model), key, created, ref)
      ensures model.entries != [] && ref == model.entries[0].ref && !ref.deleted
      ensures Has(old(model).entries, key) ==> model.counts.Keys == old(model.counts.Keys)
      ensures !Has(old(model).entries, key) ==>
                fresh(ref) && ref !in old(model.counts) && model.counts.Keys == old(model.counts.Keys) + {ref}
    {
      hide Linked, Inv, Size, Tracked;
      createCount := createCount + 1;
      ghost var before := model;
      SlotPosition(list, slots, model.entries, nextNode, key);
      NoLongerPending(model, created);
      model := model.(pending := model.pending - {created});
      TrackedSame(before, model);
      if key in slots {
        EntryIsAlive(model, IndexOf(model.entries, key));
        ref := TouchAndHand(key);
        DumpedKeeps(before, key, created);
        ghost var touched := model;
        model := model.(destroyed := model.destroyed + [created]);
        TrackedSame(touched, model);
      } else {
        ref := InsertFront(key, created, true);
      }
    }

    /** Drops an entry from the list and the map; its reference goes to the caller. */
    method Unlink(key: K) returns (ref: RefCounted<V>)
      requires Valid() && key in slots && Has(model.entries, key)
      modifies `list, `slots, `size, `model
      ensures Valid() && model == Remove(old(model), key) && key !in slots
      ensures ref == old(model).entries[IndexOf(old(model).entries, key)].ref && ref in model.counts
      ensures !ref.deleted && ref.refCount >= 1
    {
      hide Linked, Inv, Size;
      ghost var i := IndexOf(model.entries, key);
      SlotPosition(list, slots, model.entries, nextNode, key);
      LinkedWithout(list, slots, model.entries, nextNode, i);
      RemovedTotal(model, key, sizeOf);
      RemoveKeeps(model, key);
      EntryIsAlive(model, i);
      ref := slots[key].ref;
      size := size - sizeOf(key, ref.data);
      var at := Position(list, slots[key].node);
      list := Unlinked(list, at);
      slots := slots - {key};
      model := Remove(model, key);
    }

    /** What happens to a reference that leaves the map: one for the caller, one less for the map. */
    method HandOver(ref: RefCounted<V>)
      requires Valid() && ref in model.counts && !ref.deleted && ref.refCount >= 1
      modifies ref
      ensures Valid() && !ref.deleted
    {
      hide Linked, Inv, Size, Tracked;
      ref.IncRef();
      var gone := ref.DecRef();
      TrackedBack(model);
    }

    /** Caches a value. A replaced entry's reference goes to the caller, who also gets one to the
        new entry if `wantAdded`. */
    method PutValue(key: K, value: V, wantAdded: bool) returns (previous: RefCounted?<V>, added: RefCounted<V>)
      requires Valid() && NewValue(model, value)
      modifies this, model.counts.Keys
      ensures Valid() && fresh(added) && added !in old(model.counts) && model.counts.Keys == old(model.counts.Keys) + {added}
      ensures model == LruModel.Put(old(model), key, value, added, wantAdded)
      ensures previous == if Has(old(model).entries, key) then old(model).entries[IndexOf(old(model).entries, key)].ref else null
    {
      hide Linked, Inv, Size, Tracked, NewValue, Total, IndexOf, Without;
      putCount := putCount + 1;
      previous := null;
      NewValueStays(model, key, value);
      SlotPosition(list, slots, model.entries, nextNode, key);
      if key in slots {
        previous := Unlink(key);
      }
      added := InsertFront(key, value, wantAdded);
      if previous != null {
        HandOver(previous);
      }
    }

    method RemoveKey(key: K) returns (previous: RefCounted?<V>)
      requires Valid()
      modifies this, model.counts.Keys
      ensures Valid() && model == Remove(old(model), key) && model.counts.Keys == old(model.counts.Keys)
      ensures (previous != null) == Has(old(model).entries, key)
      ensures previous != null ==> previous in model.held && !previous.deleted
    {
      previous := null;
      SlotPosition(list, slots, model.entries, nextNode, key);
      if key in slots {
        previous := Unlink(key);
        HandOver(previous);
      }
    }

    /** A caller gives back a handle. */
    method Release(ref: RefCounted<V>) returns (gone: bool)
      requires Valid() && ref in model.held
      modifies `model, model.counts.Keys
      ensures Valid() && model == LruModel.Release(old(model), ref) && model.counts.Keys == old(model.counts.Keys)
      ensures gone == (old(model).counts[ref] == 1)
    {
      hide Linked, Inv, Size, Tracked;
      ReleaseKeeps(model, ref);
      HeldIsCounted(model, ref);
      gone := DropReference(ref, model);
      model := LruModel.Release(model, ref);
      TrackedSame(Decreased(old(model), ref), model);
    }

    /** One eviction, from the back of the list. */
    method EvictOne()
      requires Valid() && model.entries != []
      modifies this, model.counts.Keys
      ensures Valid() && model == Evict(old(model)) && model.counts.Keys == old(model.counts.Keys)
    {
      hide Linked, Inv, Size, Tracked;
      ghost var before := model;
      ghost var n := |model.entries| - 1;
      EvictKeeps(model);
      EntryIsAlive(model, n);
      TrackedHas(model, model.entries[n].ref);
      LastNode(list, slots, model.entries, nextNode, sizeOf, model.values);
      var key := list[|list| - 1].key;
      list := list[..|list| - 1];
      var value := slots[key].ref;
      slots := slots - {key};
      size := size - sizeOf(key, value.data);
      evictionCount := evictionCount + 1;
      var gone := DropReference(value, model);
      model := Evict(model);
      TrackedSame(Decreased(before, value), model);
    }

    /** Evicts from the back until the rest fits; every entry goes when the limit is negative. */
    method TrimToSize(limit: int)
      requires Valid()
      modifies this, model.counts.Keys
      ensures Valid() && model == Trim(old(model), limit, sizeOf) && model.counts.Keys == old(model.counts.Keys)
    {
      hide Inv, Size;
      while true
        invariant Valid() && model.counts.Keys == old(model.counts.Keys)
        invariant Trim(model, limit, sizeOf) == Trim(old(model), limit, sizeOf)
        decreases |model.entries|
      {
        NoEntriesNoSize(list, slots, model.entries, nextNode, model.values, sizeOf);
        assert size >= 0 && !(slots == map[] && size != 0);
        if size <= limit || slots == map[] {
          break;
        }
        EvictOne();
      }
    }

    method EvictAll()
      requires Valid()
      modifies this, model.counts.Keys
      ensures Valid() && model == Trim(old(model), -1, sizeOf) && model.entries == [] && size == 0
    {
      TrimKeepsLongestFit(model, -1, sizeOf);
      TrimToSize(-1);
    }

    /** A whole Get by one thread; `created` is what the policy creates on a miss, if anything. */
    method Get(key: K, created: seq<V>) returns (found: bool, ref: RefCounted?<V>)
      requires Valid() && |created| <= 1 && forall v :: v in created ==> NewValue(model, v)
      modifies this, model.counts.Keys
      ensures Valid() && found == (ref != null) == (Has(old(model).entries, key) || created != [])
      ensures found ==> ref in model.held && !ref.deleted
      ensures Has(old(model).entries, key) ==> model == Hit(old(model), key)
      ensures !Has(old(model).entries, key) && created == [] ==>
                model == if allowOvershoot then Trim(old(model), maxSize, sizeOf) else old(model)
      ensures !Has(old(model).entries, key) && created != [] ==>
                ref !in old(model).counts &&
                model == GetWhole(old(model), key, created, ref, maxSize, allowOvershoot, sizeOf)
    {
      hide Linked, Inv, Size, Tracked;
      ghost var before := model;
      found, ref := GetFirstHalf(key);
      if found {
        return;
      }
      if allowOvershoot {
        if created != [] {
          TrimForgets(model, key, created[0], maxSize, sizeOf);
        }
        TrimToSize(maxSize);
      }
      if created == [] {
        return;
      }
      RecordCreated(created[0]);
      var r := GetSecondHalf(key, created[0]);
      ref, found := r, true;
      MissedKey(before, key, created[0], r, maxSize, allowOvershoot, sizeOf);
      if !allowOvershoot {
        TrimKeepsLongestFit(model, maxSize, sizeOf);
        TrimToSize(maxSize);
      }
      HeldIsAlive(model, r);
    }

    /** A whole Put by one thread. */
    method Put(key: K, value: V, wantAdded: bool) returns (previous: RefCounted?<V>, added: RefCounted<V>)
      requires Valid() && NewValue(model, value)
      modifies this, model.counts.Keys
      ensures Valid() && added !in old(model).counts
      ensures model == PutWhole(old(model), key, value, added, wantAdded, maxSize, allowOvershoot, sizeOf)
    {
      if allowOvershoot {
        TrimForgets(model, key, value, maxSize, sizeOf);
        TrimToSize(maxSize);
      }
      previous, added := PutValue(key, value, wantAdded);
      if !allowOvershoot {
        TrimToSize(maxSize);
      }
    }
  }

  lemma InsertedKeeps<K, V>(
    list: seq<Node<K>>, slots: map<K, Slot<V>>, next: nat, s: Lru<K, V, RefCounted<V>>, t: Lru<K, V, RefCounted<V>>,
    key: K, v: V, r: RefCounted<V>, handOut: bool, sizeOf: (K, V) -> nat)
    requires Linked(list, slots, s.entries, next) && key !in slots && Inv(s) && NewValue(s, v) && r !in s.counts
    requires var u := Added(s, key, v, r, if handOut then 2 else 1);
             t == if handOut then u.(held := u.held + multiset{r}) else u
    ensures Linked([Node(next, key)] + list, slots[key := Slot(r, next)], t.entries, next + 1)
    ensures Inv(t) && Total(t, sizeOf) == Total(s, sizeOf) + sizeOf(key, v)
  {
    hide Linked, Inv, Size, NewValue, IndexOf;
    SlotPosition(list, slots, s.entries, next, key);
    LinkedFront(list, slots, s.entries, next, key, r);
    AddedTotal(s, key, v, r, if handOut then 2 else 1, sizeOf);
    AddedKeeps(s, key, v, r, handOut);
  }

  lemma TrackedAdded<K, V>(s: Lru<K, V, RefCounted<V>>, t: Lru<K, V, RefCounted<V>>, r: RefCounted<V>, v: V, n: int)
    requires Tracked(s) && r !in s.counts && r.data == v && r.refCount == n >= 1 && !r.deleted
    requires t.counts == s.counts[r := n] && t.values == s.values[r := v]
    ensures Tracked(t)
  {
  }

  lemma NewValueStays<K, V, R>(s: Lru<K, V, R>, key: K, v: V)
    requires NewValue(s, v)
    ensures NewValue(Remove(s, key), v)
  {
  }

  /** Counts that went up and down again are what they were. */
  twostate lemma TrackedBack<K, V>(s: Lru<K, V, RefCounted<V>>)
    requires old(Tracked(s))
    requires forall r :: r in s.counts ==> r.refCount == old(r.refCount) && r.deleted == old(r.deleted)
    ensures Tracked(s)
  {
  }

  lemma TrackedHas<K, V>(s: Lru<K, V, RefCounted<V>>, r: RefCounted<V>)
    requires Tracked(s) && r in s.counts
    ensures r in s.values && r.refCount == s.counts[r] && r.data == s.values[r] && r.deleted == (s.counts[r] == 0)
  {
  }

  lemma HeldIsAlive<K, V>(s: Lru<K, V, RefCounted<V>>, r: RefCounted<V>)
    requires Inv(s) && Tracked(s) && r in s.held
    ensures !r.deleted && r.refCount >= 1
  {
    NoDanglingReference(s, r);
  }

  lemma TrackedSame<K, V>(s: Lru<K, V, RefCounted<V>>, t: Lru<K, V, RefCounted<V>>)
    requires Tracked(s) && t.counts == s.counts && t.values == s.values
    ensures Tracked(t)
  {
  }

  lemma CreatedKeeps<K, V, R>(s: Lru<K, V, R>, v: V)
    requires Inv(s) && NewValue(s, v)
    ensures Inv(Created(s, v))
  {
  }

  lemma NoLongerPending<K, V, R>(s: Lru<K, V, R>, v: V)
    requires Inv(s) && v in s.pending
    ensures var t := s.(pending := s.pending - {v}); Inv(t) && NewValue(t, v)
  {
  }

  /** When the key was filled in the meantime, the created value is destroyed. */
  lemma DumpedKeeps<K, V, R>(s: Lru<K, V, R>, key: K, v: V)
    requires Inv(s) && v in s.pending && Has(s.entries, key)
    ensures Inv(Hit(s.(pending := s.pending - {v}), key).(destroyed := s.destroyed + [v]))
  {
    var t := s.(pending := s.pending - {v});
    HitKeeps(t, key);
    DestroyedOnce(s.destroyed, v);
  }

  lemma LastNode<K, V>(
    list: seq<Node<K>>, slots: map<K, Slot<V>>, entries: seq<Entry<K, RefCounted<V>>>, next: nat,
    sizeOf: (K, V) -> nat, values: map<RefCounted<V>, V>)
    requires Linked(list, slots, entries, next) && entries != []
    ensures var n := |list| - 1;
            && |list| == |entries| && list[n].key in slots && slots[list[n].key].ref == entries[n].ref
            && list[n].key == entries[n].key
            && Linked(list[..n], slots - {list[n].key}, entries[..n], next)
            && Size(entries[..n], values, sizeOf) == Size(entries, values, sizeOf) - EntrySize(entries[n], values, sizeOf)
  {
    var n := |list| - 1;
    assert LinkedAt(list, slots, entries, next, n);
    LinkedWithout(list, slots, entries, next, n);
    SizeWithout(entries, n, values, sizeOf);
    assert Unlinked(list, n) == list[..n] && Without(entries, n) == entries[..n];
  }

  lemma NoEntriesNoSize<K, V>(
    list: seq<Node<K>>, slots: map<K, Slot<V>>, entries: seq<Entry<K, RefCounted<V>>>, next: nat,
    values: map<RefCounted<V>, V>, sizeOf: (K, V) -> nat)
    requires Linked(list, slots, entries, next)
    ensures slots == map[] <==> entries == []
    ensures entries == [] ==> Size(entries, values, sizeOf) == 0
  {
    if entries != [] {
      assert LinkedAt(list, slots, entries, next, 0);
    } else {
      assert forall k :: k !in slots;
    }
  }

  lemma HeldIsCounted<K, V, R>(s: Lru<K, V, R>, r: R)
    requires Inv(s) && r in s.held
    ensures r in s.counts && r in s.values && s.counts[r] >= 1
  {
  }

  lemma EntryIsAlive<K, V, R>(s: Lru<K, V, R>, i: nat)
    requires Inv(s) && i < |s.entries|
    ensures var r := s.entries[i].ref; r in s.counts && r in s.values && s.counts[r] >= 1
  {
    assert InMap(s.entries, s.entries[i].ref);
  }
}
