/** Where requests are: in every run of the fail-safe client each started request is in exactly
    one place, and is sent no more often than allowed. */
module FailSafeSafety {
  import opened FailSafeModel

  /** How often a serial is queued and not canceled. */
  ghost function Count<R, C>(queue: seq<Pending<R, C>>, k: nat): nat {
    if queue == [] then 0 else (if !queue[0].canceled && queue[0].serial == k then 1 else 0) + Count(queue[1..], k)
  }

  /** How often a serial is anywhere: in the queue, in what is left of a queue being worked on
      (`rest`), in hand, on a connection, completed, canceled. */
  ghost function Places<R, C>(s: State<R, C>, rest: seq<Pending<R, C>>, hand: seq<Pending<R, C>>, k: nat): nat {
    Count(s.queue, k) + Count(rest, k) + Count(hand, k) +
    (if k in s.flights then 1 else 0) + s.ledger.done[k] + s.ledger.canceled[k]
  }

  ghost predicate EachOnce<R, C>(s: State<R, C>, rest: seq<Pending<R, C>>, hand: seq<Pending<R, C>>) {
    forall k: nat :: Places(s, rest, hand, k) == if k < s.ledger.next then 1 else 0
  }

  /** With a limit, what was sent and what may still be sent add up to it. */
  ghost predicate InBudget(c: Config, left: int, sent: nat) {
    if c.numRetries >= 0 then left >= 0 && left + sent == c.numRetries else left < 0
  }

  ghost predicate Known<R, C>(c: Config, m: Records<R, C>, e: Pending<R, C>) {
    && e.serial in m.jobs && m.jobs[e.serial] == Job(e.request, e.closure)
    && e.serial in m.sends && InBudget(c, e.retriesLeft, m.sends[e.serial])
  }

  /** Entries of a queue that were not canceled are also in the map of pending requests. */
  ghost predicate Queued<R, C>(c: Config, m: Records<R, C>, pending: map<R, nat>, queue: seq<Pending<R, C>>) {
    forall e :: e in queue && !e.canceled ==> Known(c, m, e) && e.request in pending && pending[e.request] == e.serial
  }

  ghost predicate InHand<R, C>(c: Config, m: Records<R, C>, hand: seq<Pending<R, C>>) {
    forall e :: e in hand ==> !e.canceled && Known(c, m, e)
  }

  ghost predicate Flying<R, C>(c: Config, m: Records<R, C>, flights: map<nat, Flight<R, C>>) {
    forall k :: k in flights ==> flights[k].pending.serial == k && !flights[k].pending.canceled && Known(c, m, flights[k].pending)
  }

  /** Pending requests are queued, under their own serial. */
  ghost predicate Named<R, C>(m: Records<R, C>, pending: map<R, nat>, queue: seq<Pending<R, C>>, rest: seq<Pending<R, C>>) {
    forall r :: r in pending ==>
      && Count(queue, pending[r]) + Count(rest, pending[r]) > 0
      && pending[r] in m.jobs && m.jobs[pending[r]].request == r
  }

  ghost predicate Settled<R, C>(l: Ledger<R, C>, k: nat) {
    l.done[k] + l.canceled[k] > 0
  }

  /** No request is started again before it is settled. */
  ghost predicate StartedOnce<R, C>(l: Ledger<R, C>) {
    forall j, k :: j in l.records.jobs && k in l.records.jobs && j != k && !Settled(l, j) && !Settled(l, k) ==>
      l.records.jobs[j].request != l.records.jobs[k].request
  }

  ghost predicate Limited<R, C>(c: Config, next: nat, m: Records<R, C>) {
    && (forall k: nat :: (k < next <==> k in m.jobs) && (k < next <==> k in m.sends))
    && (forall k :: k in m.sends && c.numRetries >= 0 ==> m.sends[k] <= c.numRetries)
  }

  ghost predicate Inv<R, C>(c: Config, s: State<R, C>, rest: seq<Pending<R, C>>, hand: seq<Pending<R, C>>) {
    var m := s.ledger.records;
    && EachOnce(s, rest, hand)
    && Queued(c, m, s.pending, s.queue) && Queued(c, m, s.pending, rest)
    && InHand(c, m, hand) && Flying(c, m, s.flights)
    && Named(m, s.pending, s.queue, rest)
    && StartedOnce(s.ledger) && Limited(c, s.ledger.next, m)
  }

  // ------------------------------------------------------------------ queues

  lemma {:induction false} CountConcat<R, C>(a: seq<Pending<R, C>>, b: seq<Pending<R, C>>, k: nat)
    ensures Count(a + b, k) == Count(a, k) + Count(b, k)
  {
    if a == [] {
      assert a + b == b;
    } else {
      assert (a + b)[1..] == a[1..] + b;
      CountConcat(a[1..], b, k);
    }
  }

  ghost function One<R, C>(e: Pending<R, C>, k: nat): nat {
    if !e.canceled && e.serial == k then 1 else 0
  }

  lemma CountFront<R, C>(e: Pending<R, C>, b: seq<Pending<R, C>>)
    ensures forall k :: Count([e] + b, k) == One(e, k) + Count(b, k)
  {
    assert ([e] + b)[1..] == b;
  }

  lemma CountBack<R, C>(a: seq<Pending<R, C>>, e: Pending<R, C>)
    ensures forall k :: Count(a + [e], k) == Count(a, k) + One(e, k)
  {
    CountFront(e, []);
    assert [e] + [] == [e];
    forall k ensures Count(a + [e], k) == Count(a, k) + One(e, k) {
      CountConcat(a, [e], k);
    }
  }

  lemma {:induction false} CountHas<R, C>(queue: seq<Pending<R, C>>, e: Pending<R, C>)
    requires e in queue && !e.canceled
    ensures Count(queue, e.serial) > 0
  {
    if queue[0] != e {
      assert e in queue[1..];
      CountHas(queue[1..], e);
    }
  }

  // ------------------------------------------------------------------ small steps keep it

  /** A request in hand is nowhere else. */
  lemma InHandIsAlone<R, C>(c: Config, s: State<R, C>, rest: seq<Pending<R, C>>, e: Pending<R, C>, hand: seq<Pending<R, C>>)
    requires Inv(c, s, rest, [e] + hand)
    ensures forall k :: Count([e] + hand, k) == One(e, k) + Count(hand, k)
    ensures e.serial < s.ledger.next && e.serial !in s.flights && !Settled(s.ledger, e.serial)
    ensures Count(s.queue, e.serial) == Count(rest, e.serial) == Count(hand, e.serial) == 0
    ensures !e.canceled && Known(c, s.ledger.records, e) && InHand(c, s.ledger.records, hand)
  {
    CountFront(e, hand);
    assert e in [e] + hand;
    assert forall x :: x in hand ==> x in [e] + hand;
    assert Places(s, rest, [e] + hand, e.serial) == if e.serial < s.ledger.next then 1 else 0;
  }

  lemma CompletedKeeps<R, C>(c: Config, s: State<R, C>, rest: seq<Pending<R, C>>, e: Pending<R, C>, hand: seq<Pending<R, C>>)
    requires Inv(c, s, rest, [e] + hand)
    ensures Inv(c, Completed(s, e.serial), rest, hand)
  {
    InHandIsAlone(c, s, rest, e, hand);
    hide Count, Queued, InHand, Flying, Named, Limited, Known;
    var t := Completed(s, e.serial);
    forall k: nat ensures Places(t, rest, hand, k) == Places(s, rest, [e] + hand, k) {
    }
  }

  /** The name of a request in hand is not that of a queued one. */
  lemma NotPending<R, C>(c: Config, s: State<R, C>, rest: seq<Pending<R, C>>, e: Pending<R, C>, hand: seq<Pending<R, C>>)
    requires Inv(c, s, rest, [e] + hand)
    ensures e.request !in s.pending
  {
    InHandIsAlone(c, s, rest, e, hand);
    hide Count, Queued, InHand, Flying, Limited;
    forall k: nat ensures Count(s.queue, k) + Count(rest, k) > 0 ==> k != e.serial && !Settled(s.ledger, k) {
      assert Places(s, rest, [e] + hand, k) <= 1;
    }
  }

  lemma QueuedMore<R, C>(c: Config, m: Records<R, C>, pending: map<R, nat>, queue: seq<Pending<R, C>>, e: Pending<R, C>)
    requires Queued(c, m, pending, queue) && Known(c, m, e) && e.request !in pending
    ensures var more := pending[e.request := e.serial];
            Queued(c, m, more, queue) && Queued(c, m, more, queue + [e]) && Queued(c, m, more, [e] + queue)
  {
  }

  lemma NamedMore<R, C>(m: Records<R, C>, pending: map<R, nat>, queue: seq<Pending<R, C>>, rest: seq<Pending<R, C>>, more: seq<Pending<R, C>>, e: Pending<R, C>)
    requires Named(m, pending, queue, rest) && e.serial in m.jobs && m.jobs[e.serial].request == e.request && !e.canceled
    requires forall k :: Count(more, k) == Count(queue, k) + One(e, k)
    ensures Named(m, pending[e.request := e.serial], more, rest)
  {
  }

  lemma EnqueuedKeeps<R, C>(c: Config, s: State<R, C>, rest: seq<Pending<R, C>>, e: Pending<R, C>, hand: seq<Pending<R, C>>)
    requires Inv(c, s, rest, [e] + hand)
    ensures Inv(c, Enqueued(s, e), rest, hand)
  {
    InHandIsAlone(c, s, rest, e, hand);
    NotPending(c, s, rest, e, hand);
    var t := Enqueued(s, e);
    CountFront(e, s.queue);
    CountBack(s.queue, e);
    QueuedMore(c, s.ledger.records, s.pending, s.queue, e);
    QueuedMore(c, s.ledger.records, s.pending, rest, e);
    NamedMore(s.ledger.records, s.pending, s.queue, rest, t.queue, e);
    hide Count, InHand, Flying, Limited, StartedOnce, Known, Queued, Named;
    forall k: nat ensures Places(t, rest, hand, k) == Places(s, rest, [e] + hand, k) {
    }
  }

  lemma QueuedStays<R, C>(c: Config, m: Records<R, C>, pending: map<R, nat>, queue: seq<Pending<R, C>>, serial: nat)
    requires Queued(c, m, pending, queue) && Count(queue, serial) == 0
    ensures Queued(c, Recorded(m, serial), pending, queue)
  {
    forall e | e in queue && !e.canceled ensures e.serial != serial {
      CountHas(queue, e);
    }
  }

  lemma InHandStays<R, C>(c: Config, m: Records<R, C>, hand: seq<Pending<R, C>>, serial: nat)
    requires InHand(c, m, hand) && Count(hand, serial) == 0
    ensures InHand(c, Recorded(m, serial), hand)
  {
    forall e | e in hand ensures e.serial != serial {
      CountHas(hand, e);
    }
  }

  lemma FlyingMore<R, C>(c: Config, m: Records<R, C>, flights: map<nat, Flight<R, C>>, e: Pending<R, C>, client: nat)
    requires Flying(c, m, flights) && Known(c, m, e) && !e.canceled && e.serial !in flights && e.retriesLeft != 0
    ensures var e' := if e.retriesLeft > 0 then e.(retriesLeft := e.retriesLeft - 1) else e;
            Flying(c, Recorded(m, e.serial), flights[e.serial := Flight(e', client)])
  {
  }

  lemma LedgerMore<R, C>(c: Config, l: Ledger<R, C>, e: Pending<R, C>)
    requires StartedOnce(l) && Limited(c, l.next, l.records) && Known(c, l.records, e) && e.retriesLeft != 0
    ensures var l' := l.(records := Recorded(l.records, e.serial)); StartedOnce(l') && Limited(c, l'.next, l'.records)
  {
    var l' := l.(records := Recorded(l.records, e.serial));
    assert l'.records.jobs == l.records.jobs && forall k :: Settled(l', k) == Settled(l, k);
  }

  lemma NamedStays<R, C>(m: Records<R, C>, pending: map<R, nat>, queue: seq<Pending<R, C>>, rest: seq<Pending<R, C>>, serial: nat)
    requires Named(m, pending, queue, rest)
    ensures Named(Recorded(m, serial), pending, queue, rest)
  {
  }

  lemma SentKeeps<R, C>(c: Config, s: State<R, C>, rest: seq<Pending<R, C>>, e: Pending<R, C>, hand: seq<Pending<R, C>>, client: nat)
    requires Inv(c, s, rest, [e] + hand) && e.retriesLeft != 0
    ensures Inv(c, Sent(s, e, client), rest, hand)
  {
    hide Count, InHand, Queued, Flying, Known, StartedOnce, Limited, Named, Recorded;
    InHandIsAlone(c, s, rest, e, hand);
    var m, t := s.ledger.records, Sent(s, e, client);
    QueuedStays(c, m, s.pending, s.queue, e.serial);
    QueuedStays(c, m, s.pending, rest, e.serial);
    InHandStays(c, m, hand, e.serial);
    FlyingMore(c, m, s.flights, e, client);
    LedgerMore(c, s.ledger, e);
    NamedStays(m, s.pending, s.queue, rest, e.serial);
    forall k: nat ensures Places(t, rest, hand, k) == Places(s, rest, [e] + hand, k) {
    }
  }

  // ------------------------------------------------------------------ taking from a queue

  lemma QueuedLess<R, C>(c: Config, m: Records<R, C>, pending: map<R, nat>, queue: seq<Pending<R, C>>, e: Pending<R, C>)
    requires Queued(c, m, pending, queue) && e.request in pending && pending[e.request] == e.serial
    requires Count(queue, e.serial) == 0
    ensures Queued(c, m, pending - {e.request}, queue)
  {
    forall x | x in queue && !x.canceled ensures x.request != e.request {
      CountHas(queue, x);
    }
  }

  /** A name goes together with the count of its serial. */
  lemma NamedLess<R, C>(
    m: Records<R, C>, pending: map<R, nat>, queue: seq<Pending<R, C>>, rest: seq<Pending<R, C>>,
    queue': seq<Pending<R, C>>, rest': seq<Pending<R, C>>, r: R)
    requires Named(m, pending, queue, rest) && r in pending
    requires forall k :: k != pending[r] ==> Count(queue', k) + Count(rest', k) == Count(queue, k) + Count(rest, k)
    ensures Named(m, pending - {r}, queue', rest')
  {
    assert forall q :: q in pending && q != r ==> pending[q] != pending[r];
  }

  /** The first of the rest is taken in hand. */
  lemma TakenKeeps<R, C>(c: Config, s: State<R, C>, e: Pending<R, C>, rest: seq<Pending<R, C>>, hand: seq<Pending<R, C>>)
    requires Inv(c, s, [e] + rest, hand) && Found(s, e)
    ensures Inv(c, Taken(s, e), rest, [e] + hand)
  {
    var m, t := s.ledger.records, Taken(s, e);
    CountFront(e, rest);
    CountFront(e, hand);
    assert e in [e] + rest && forall x :: x in rest ==> x in [e] + rest;
    assert Places(s, [e] + rest, hand, e.serial) <= 1;
    QueuedLess(c, m, s.pending, s.queue, e);
    QueuedLess(c, m, s.pending, rest, e);
    NamedLess(m, s.pending, s.queue, [e] + rest, s.queue, rest, e.request);
    assert InHand(c, m, [e] + hand);
    hide Count, Flying, Limited, StartedOnce, Known, Queued, Named;
    forall k: nat ensures Places(t, rest, [e] + hand, k) == Places(s, [e] + rest, hand, k) {
    }
  }

  /** Entries that are not found are exactly the canceled ones, and can be dropped. */
  lemma DroppedKeeps<R, C>(c: Config, s: State<R, C>, e: Pending<R, C>, rest: seq<Pending<R, C>>, hand: seq<Pending<R, C>>)
    requires Inv(c, s, [e] + rest, hand)
    ensures Found(s, e) <==> !e.canceled
    ensures e.canceled ==> Inv(c, s, rest, hand)
  {
    CountFront(e, rest);
    hide Count, InHand, Flying, Limited, StartedOnce, Known;
    assert e in [e] + rest && forall x :: x in rest ==> x in [e] + rest;
    assert e.canceled ==> forall k :: Places(s, rest, hand, k) == Places(s, [e] + rest, hand, k);
  }

  lemma PutBackKeeps<R, C>(c: Config, s: State<R, C>, e: Pending<R, C>, rest: seq<Pending<R, C>>, hand: seq<Pending<R, C>>)
    requires Inv(c, s, [e] + rest, hand) && !e.canceled
    ensures Inv(c, s.(queue := s.queue + [e]), rest, hand)
  {
    CountFront(e, rest);
    CountBack(s.queue, e);
    hide Count, InHand, Flying, Limited, StartedOnce, Known;
    var t := s.(queue := s.queue + [e]);
    assert e in [e] + rest && forall x :: x in rest ==> x in [e] + rest;
    forall k: nat ensures Places(t, rest, hand, k) == Places(s, [e] + rest, hand, k) {
    }
  }

  // ------------------------------------------------------------------ whole operations keep it

  lemma TickKeeps<R, C>(c: Config, s: State<R, C>, rest: seq<Pending<R, C>>, hand: seq<Pending<R, C>>, t: State<R, C>)
    requires Inv(c, s, rest, hand)
    requires t.queue == s.queue && t.pending == s.pending && t.flights == s.flights && t.ledger == s.ledger
    ensures Inv(c, t, rest, hand)
  {
    hide Count, Queued, Flying, Limited, StartedOnce, Known, Named, InHand;
    assert forall k: nat :: Places(t, rest, hand, k) == Places(s, rest, hand, k);
  }

  lemma LaunchKeeps<R, C>(c: Config, w: World, s: State<R, C>, rest: seq<Pending<R, C>>, e: Pending<R, C>, hand: seq<Pending<R, C>>)
    requires Inv(c, s, rest, [e] + hand)
    ensures Inv(c, Launch(c, w, s, e).state, rest, hand)
  {
    hide Inv, Choose;
    var t := s.(tick := s.tick + 1);
    var choice := Choose(c, w, s.tick, s.slots);
    var u := t.(slots := choice.slots);
    TickKeeps(c, s, rest, [e] + hand, t);
    TickKeeps(c, s, rest, [e] + hand, u);
    CompletedKeeps(c, t, rest, e, hand);
    EnqueuedKeeps(c, u, rest, e, hand);
    if e.retriesLeft != 0 && !Refused(c, choice) {
      SentKeeps(c, u, rest, e, hand, choice.slot);
    }
  }

  lemma {:induction false} RefillKeeps<R, C>(c: Config, w: World, s: State<R, C>, rest: seq<Pending<R, C>>, hand: seq<Pending<R, C>>)
    requires Inv(c, s, rest, hand)
    ensures Inv(c, Refill(c, w, s, rest), [], hand)
    decreases |rest|
  {
    hide Inv;
    if rest != [] {
      var e := rest[0];
      assert rest == [e] + rest[1..];
      DroppedKeeps(c, s, e, rest[1..], hand);
      if !Found(s, e) {
        RefillKeeps(c, w, s, rest[1..], hand);
      } else if w.now(s.tick) - e.start > c.timeout {
        TakenKeeps(c, s, e, rest[1..], hand);
        CompletedKeeps(c, Taken(s, e), rest[1..], e, hand);
        RefillKeeps(c, w, Completed(Taken(s, e), e.serial), rest[1..], hand);
      } else {
        PutBackKeeps(c, s, e, rest[1..], hand);
        RefillKeeps(c, w, s.(queue := s.queue + [e]), rest[1..], hand);
      }
    }
  }

  lemma {:induction false} DrainKeeps<R, C>(c: Config, w: World, s: State<R, C>, rest: seq<Pending<R, C>>, hand: seq<Pending<R, C>>)
    requires Inv(c, s, rest, hand)
    ensures Inv(c, Drain(c, w, s, rest), [], hand)
    decreases |rest|
  {
    hide Inv;
    if rest != [] {
      var e := rest[0];
      assert rest == [e] + rest[1..];
      DroppedKeeps(c, s, e, rest[1..], hand);
      if !Found(s, e) {
        DrainKeeps(c, w, s, rest[1..], hand);
      } else {
        TakenKeeps(c, s, e, rest[1..], hand);
        LaunchKeeps(c, w, Taken(s, e), rest[1..], e, hand);
        var r := Launch(c, w, Taken(s, e), e);
        if r.more {
          DrainKeeps(c, w, r.state, rest[1..], hand);
        } else {
          RefillKeeps(c, w, r.state, rest[1..], hand);
        }
      }
    }
  }

  lemma RequeueKeeps<R, C>(c: Config, w: World, s: State<R, C>, hand: seq<Pending<R, C>>)
    requires Inv(c, s, [], hand)
    ensures Inv(c, Requeue(c, w, s), [], hand)
  {
    QueueInHand(c, s, hand);
    DrainKeeps(c, w, s.(queue := []), s.queue, hand);
  }

  lemma QueueInHand<R, C>(c: Config, s: State<R, C>, hand: seq<Pending<R, C>>)
    requires Inv(c, s, [], hand)
    ensures Inv(c, s.(queue := []), s.queue, hand)
  {
    hide Flying, Limited, StartedOnce, Known, InHand;
    var t := s.(queue := []);
    forall k: nat ensures Places(t, s.queue, hand, k) == Places(s, [], hand, k) {
    }
  }

  /** An empty queue leaves nothing pending: the check that guards requeueing never fails. */
  lemma EmptyQueueNothingPending<R, C>(c: Config, s: State<R, C>, hand: seq<Pending<R, C>>)
    requires Inv(c, s, [], hand) && s.queue == []
    ensures s.pending == map[]
  {
    assert forall r :: r !in s.pending;
  }

  /** A request may be started when it is not being worked on already. */
  ghost predicate Startable<R, C>(l: Ledger<R, C>, r: R) {
    forall k :: k in l.records.jobs && !Settled(l, k) ==> l.records.jobs[k].request != r
  }

  lemma BeginKeeps<R, C>(c: Config, w: World, s: State<R, C>, request: R, closure: C, urgent: bool)
    requires Inv(c, s, [], []) && Startable(s.ledger, request)
    ensures var (t, e) := Begin(c, w, s, request, closure, urgent); Inv(c, t, [], [e])
  {
    var (t, e) := Begin(c, w, s, request, closure, urgent);
    CountFront(e, []);
    assert [e] + [] == [e];
    assert Places(s, [], [], s.ledger.next) == 0;
    BeginLedger(c, w, s, request, closure, urgent);
    NewRecords(c, s, t.ledger.records);
    hide Count, Known, Queued, Flying, Named, Limited, StartedOnce;
    assert InHand(c, t.ledger.records, [e]);
    forall k: nat ensures Places(t, [], [e], k) == Places(s, [], [], k) + if k == s.ledger.next then 1 else 0 {
    }
  }

  lemma BeginLedger<R, C>(c: Config, w: World, s: State<R, C>, request: R, closure: C, urgent: bool)
    requires StartedOnce(s.ledger) && Limited(c, s.ledger.next, s.ledger.records) && Startable(s.ledger, request)
    ensures var (t, e) := Begin(c, w, s, request, closure, urgent);
            StartedOnce(t.ledger) && Limited(c, t.ledger.next, t.ledger.records) && Known(c, t.ledger.records, e)
  {
    var (t, e) := Begin(c, w, s, request, closure, urgent);
    assert forall k :: Settled(t.ledger, k) == Settled(s.ledger, k);
  }

  /** What was known stays known when records are added. */
  lemma NewRecords<R, C>(c: Config, s: State<R, C>, m: Records<R, C>)
    requires Inv(c, s, [], [])
    requires forall k :: k in s.ledger.records.jobs ==> k in m.jobs && m.jobs[k] == s.ledger.records.jobs[k]
    requires forall k :: k in s.ledger.records.sends ==> k in m.sends && m.sends[k] == s.ledger.records.sends[k]
    ensures Queued(c, m, s.pending, s.queue) && Flying(c, m, s.flights) && Named(m, s.pending, s.queue, [])
    ensures Queued(c, m, s.pending, [])
  {
    hide Count, EachOnce, Limited, StartedOnce;
    assert forall e :: Known(c, s.ledger.records, e) ==> Known(c, m, e);
  }

  lemma StartKeeps<R, C>(c: Config, w: World, s: State<R, C>, request: R, closure: C, urgent: bool)
    requires Inv(c, s, [], []) && Startable(s.ledger, request)
    ensures Inv(c, Start(c, w, s, request, closure, urgent), [], [])
  {
    hide Inv;
    BeginKeeps(c, w, s, request, closure, urgent);
    var (t, e) := Begin(c, w, s, request, closure, urgent);
    assert [e] + [] == [e];
    LaunchKeeps(c, w, t, [], e, []);
    var r := Launch(c, w, t, e);
    if r.more {
      RequeueKeeps(c, w, r.state, []);
    }
  }

  lemma {:induction false} CountMarked<R, C>(queue: seq<Pending<R, C>>, serial: nat, k: nat)
    ensures Count(Marked(queue, serial), k) == if k == serial then 0 else Count(queue, k)
    ensures forall e :: e in Marked(queue, serial) && !e.canceled ==> e in queue && e.serial != serial
  {
    if queue != [] {
      CountMarked(queue[1..], serial, k);
      var first := if queue[0].serial == serial then queue[0].(canceled := true) else queue[0];
      assert Marked(queue, serial) == [first] + Marked(queue[1..], serial);
      CountFront(first, Marked(queue[1..], serial));
    }
  }

  lemma CancelKeeps<R, C>(c: Config, s: State<R, C>, request: R)
    requires Inv(c, s, [], [])
    ensures Inv(c, Cancel(s, request), [], [])
  {
    hide Count, Known, Flying, Named, Limited, Queued;
    if request in s.pending {
      var t, serial := Cancel(s, request), s.pending[request];
      forall k ensures Count(t.queue, k) == if k == serial then 0 else Count(s.queue, k) {
        CountMarked(s.queue, serial, k);
      }
      PendingIsQueued(c, s, request);
      NamedLess(s.ledger.records, s.pending, s.queue, [], t.queue, [], request);
      QueuedWithout(c, s.ledger.records, s.pending, s.queue, request);
      forall k: nat ensures Places(t, [], [], k) == Places(s, [], [], k) {
      }
    }
  }

  lemma PendingIsQueued<R, C>(c: Config, s: State<R, C>, request: R)
    requires Inv(c, s, [], []) && request in s.pending
    ensures Count(s.queue, s.pending[request]) == 1
  {
    assert Places(s, [], [], s.pending[request]) <= 1;
  }

  lemma QueuedWithout<R, C>(c: Config, m: Records<R, C>, pending: map<R, nat>, queue: seq<Pending<R, C>>, request: R)
    requires Queued(c, m, pending, queue) && request in pending
    ensures Queued(c, m, pending - {request}, Marked(queue, pending[request]))
    ensures Queued(c, m, pending - {request}, [])
  {
    hide Known;
    CountMarked(queue, pending[request], 0);
  }

  /** A resolved request is back in hand. */
  lemma LandedKeeps<R, C>(c: Config, s: State<R, C>, rest: seq<Pending<R, C>>, serial: nat, hand: seq<Pending<R, C>>)
    requires Inv(c, s, rest, hand) && serial in s.flights
    ensures Inv(c, s.(flights := s.flights - {serial}), rest, [s.flights[serial].pending] + hand)
    ensures s.flights[serial].pending.serial == serial
  {
    var e, t := s.flights[serial].pending, s.(flights := s.flights - {serial});
    CountFront(e, hand);
    hide Count, Known, Queued, Named, Limited, StartedOnce;
    forall k: nat ensures Places(t, rest, [e] + hand, k) == Places(s, rest, hand, k) {
    }
  }

  lemma ResolveKeeps<R, C>(c: Config, w: World, s: State<R, C>, serial: nat, result: Result)
    requires Inv(c, s, [], []) && serial in s.flights
    ensures Inv(c, Resolve(c, w, s, serial, result), [], [])
  {
    LandedKeeps(c, s, [], serial, []);
    hide Inv, Requeue, Launch;
    var flight := s.flights[serial];
    var t := s.(flights := s.flights - {serial});
    assert [flight.pending] + [] == [flight.pending];
    if result != Incomplete && (s.closing || result == Okay) {
      var u := t.(slots := GivenUp(c, t.slots, flight.client, s.closing));
      TickKeeps(c, t, [], [flight.pending], u);
      RequeueKeeps(c, w, u, [flight.pending]);
      CompletedKeeps(c, Requeue(c, w, u), [], flight.pending, []);
    } else {
      LaunchKeeps(c, w, t, [], flight.pending, []);
    }
  }

  lemma {:induction false} ResolveEachKeeps<R, C>(c: Config, w: World, s: State<R, C>, order: seq<nat>, results: nat -> Result)
    requires Inv(c, s, [], [])
    ensures Inv(c, ResolveEach(c, w, s, order, results), [], [])
    decreases |order|
  {
    hide Inv, Resolve;
    if order != [] {
      var k := order[0];
      if k in s.flights {
        ResolveKeeps(c, w, s, k, results(k));
      }
      ResolveEachKeeps(c, w, if k in s.flights then Resolve(c, w, s, k, results(k)) else s, order[1..], results);
    }
  }

  lemma CloseAllKeeps<R, C>(c: Config, w: World, s: State<R, C>, order: seq<nat>, results: nat -> Result)
    requires Inv(c, s, [], [])
    ensures Inv(c, CloseAll(c, w, s, order, results), [], [])
  {
    hide Inv;
    TickKeeps(c, s, [], [], s.(closing := true));
    ResolveEachKeeps(c, w, s.(closing := true), order, results);
    TickKeeps(c, ResolveEach(c, w, s.(closing := true), order, results), [], [], CloseAll(c, w, s, order, results));
  }

  lemma ResetKeeps<R, C>(c: Config, w: World, s: State<R, C>, order: seq<nat>)
    requires Inv(c, s, [], [])
    ensures Inv(c, Reset(c, w, s, order), [], [])
  {
    hide Inv;
    TickKeeps(c, s, [], [], s.(slots := []));
    ResolveEachKeeps(c, w, s.(slots := []), order, (k: nat) => Failed);
  }
}
