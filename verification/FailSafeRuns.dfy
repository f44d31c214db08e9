/** Whole runs of the fail-safe client, and which connection it picks. */
module FailSafeRuns {
  import opened FailSafeModel
  import opened FailSafeSafety

  datatype Event<R, C> =
    | Started(request: R, closure: C, urgent: bool)
    | Canceled(request: R)
    | Alarm
    | Resolved(serial: nat, result: Result)
    | ClosedAll(order: seq<nat>, results: nat -> Result)
    | WasReset(order: seq<nat>)

  ghost predicate Enabled<R, C>(s: State<R, C>, e: Event<R, C>) {
    match e
    case Started(r, _, _) => Startable(s.ledger, r)
    case Resolved(k, _) => k in s.flights
    case _ => true
  }

  ghost function Apply<R, C>(c: Config, w: World, s: State<R, C>, e: Event<R, C>): State<R, C>
    requires Enabled(s, e)
  {
    match e
    case Started(r, closure, urgent) => Start(c, w, s, r, closure, urgent)
    case Canceled(r) => Cancel(s, r)
    case Alarm => Requeue(c, w, s)
    case Resolved(k, result) => Resolve(c, w, s, k, result)
    case ClosedAll(order, results) => CloseAll(c, w, s, order, results)
    case WasReset(order) => Reset(c, w, s, order)
  }

  ghost predicate Follows<R, C>(c: Config, w: World, s: State<R, C>, e: Event<R, C>, t: State<R, C>) {
    Enabled(s, e) && t == Apply(c, w, s, e)
  }

  ghost predicate IsRun<R, C>(c: Config, w: World, states: seq<State<R, C>>, events: seq<Event<R, C>>) {
    && |states| == |events| + 1
    && states[0] == NewState()
    && forall i :: 0 <= i < |events| ==> Follows(c, w, states[i], events[i], states[i + 1])
  }

  lemma StepKeeps<R, C>(c: Config, w: World, s: State<R, C>, e: Event<R, C>, t: State<R, C>)
    requires Inv(c, s, [], []) && Follows(c, w, s, e, t)
    ensures Inv(c, t, [], [])
  {
    hide Inv;
    match e
    case Started(r, closure, urgent) => StartKeeps(c, w, s, r, closure, urgent);
    case Canceled(r) => CancelKeeps(c, s, r);
    case Alarm => RequeueKeeps(c, w, s, []);
    case Resolved(k, result) => ResolveKeeps(c, w, s, k, result);
    case ClosedAll(order, results) => CloseAllKeeps(c, w, s, order, results);
    case WasReset(order) => ResetKeeps(c, w, s, order);
  }

  lemma {:induction false} EveryRunKeepsInv<R, C>(c: Config, w: World, states: seq<State<R, C>>, events: seq<Event<R, C>>, n: nat)
    requires IsRun(c, w, states, events) && n < |states|
    ensures Inv(c, states[n], [], [])
  {
    if n > 0 {
      EveryRunKeepsInv(c, w, states, events, n - 1);
      hide Inv, Follows;
      StepKeeps(c, w, states[n - 1], events[n - 1], states[n]);
    }
  }

  /** Queued means in the queue and in the map, under the name it was started with. */
  ghost predicate IsQueued<R, C>(s: State<R, C>, k: nat) {
    && (exists e :: e in s.queue && !e.canceled && e.serial == k && e.request in s.pending && s.pending[e.request] == k)
    && Count(s.queue, k) == 1
  }

  /** In every run, each started request is in exactly one place: queued, on one connection,
      completed with its closure scheduled once, or canceled. With a retry limit it was sent no
      more often than the limit says. */
  lemma EveryRequestInOnePlace<R, C>(c: Config, w: World, states: seq<State<R, C>>, events: seq<Event<R, C>>, n: nat, k: nat)
    requires IsRun(c, w, states, events) && n < |states| && k < states[n].ledger.next
    ensures var s := states[n];
            && (if IsQueued(s, k) then 1 else 0) + (if k in s.flights then 1 else 0) + s.ledger.done[k] + s.ledger.canceled[k] == 1
            && k in s.ledger.records.sends && (c.numRetries >= 0 ==> s.ledger.records.sends[k] <= c.numRetries)
  {
    EveryRunKeepsInv(c, w, states, events, n);
    var s := states[n];
    assert Places(s, [], [], k) == 1;
    if Count(s.queue, k) > 0 {
      var e := QueuedEntry(s.queue, k);
      assert IsQueued(s, k);
    }
  }

  lemma {:induction false} QueuedEntry<R, C>(queue: seq<Pending<R, C>>, k: nat) returns (e: Pending<R, C>)
    requires Count(queue, k) > 0
    ensures e in queue && !e.canceled && e.serial == k
  {
    if !queue[0].canceled && queue[0].serial == k {
      e := queue[0];
    } else {
      e := QueuedEntry(queue[1..], k);
    }
  }

  /** A request that is on a connection cannot be canceled. */
  lemma CancelOnlyQueued<R, C>(c: Config, s: State<R, C>, k: nat)
    requires Inv(c, s, [], []) && k in s.flights
    ensures Cancel(s, s.flights[k].pending.request) == s
  {
    LandedKeeps(c, s, [], k, []);
    NotPending(c, s.(flights := s.flights - {k}), [], s.flights[k].pending, []);
  }

  // ------------------------------------------------------------------ the end

  lemma {:induction false} ClosingRefill<R, C>(c: Config, w: World, s: State<R, C>, rest: seq<Pending<R, C>>)
    ensures var t := Refill(c, w, s, rest); t.flights == s.flights && t.closing == s.closing && t.ledger.next == s.ledger.next
    decreases |rest|
  {
    if rest != [] {
      if !Found(s, rest[0]) {
        ClosingRefill(c, w, s, rest[1..]);
      } else if w.now(s.tick) - rest[0].start > c.timeout {
        ClosingRefill(c, w, Completed(Taken(s, rest[0]), rest[0].serial), rest[1..]);
      } else {
        ClosingRefill(c, w, s.(queue := s.queue + [rest[0]]), rest[1..]);
      }
    }
  }

  lemma {:induction false} ClosingDrain<R, C>(c: Config, w: World, s: State<R, C>, rest: seq<Pending<R, C>>)
    requires s.closing
    ensures var t := Drain(c, w, s, rest); t.flights == s.flights && t.closing && t.ledger.next == s.ledger.next
    decreases |rest|
  {
    if rest != [] {
      if !Found(s, rest[0]) {
        ClosingDrain(c, w, s, rest[1..]);
      } else {
        ClosingRefill(c, w, Launch(c, w, Taken(s, rest[0]), rest[0]).state, rest[1..]);
      }
    }
  }

  /** While closing, nothing is sent: resolved requests leave their connection for good. */
  lemma {:induction false} ClosingResolves<R, C>(c: Config, w: World, s: State<R, C>, order: seq<nat>, results: nat -> Result)
    requires s.closing
    ensures var t := ResolveEach(c, w, s, order, results);
            && t.closing && t.ledger.next == s.ledger.next
            && forall k :: k in t.flights <==> k in s.flights && k !in order
    decreases |order|
  {
    if order != [] {
      var k := order[0];
      assert forall j :: j in order <==> j == k || j in order[1..];
      if k in s.flights {
        var t := s.(flights := s.flights - {k});
        ClosingDrain(c, w, t.(queue := [], slots := GivenUp(c, t.slots, s.flights[k].client, true)), t.queue);
        ClosingResolves(c, w, Resolve(c, w, s, k, results(k)), order[1..], results);
      } else {
        ClosingResolves(c, w, s, order[1..], results);
      }
    }
  }

  /** Once all connections are closed there are none, and only what they did not resolve is still in flight;
      the client goes on as it was. */
  lemma ClosedMeans<R, C>(c: Config, w: World, s: State<R, C>, order: seq<nat>, results: nat -> Result)
    ensures var t := CloseAll(c, w, s, order, results);
            && t.slots == [] && t.closing == s.closing && t.ledger.next == s.ledger.next
            && forall k :: k in t.flights <==> k in s.flights && k !in order
  {
    hide ResolveEach;
    ClosingResolves(c, w, s.(closing := true), order, results);
  }

  lemma {:induction false} FinishedSettles<R, C>(s: State<R, C>, queue: seq<Pending<R, C>>, k: nat)
    ensures var t := Finished(s, queue);
            && t.ledger.done[k] == s.ledger.done[k] + Count(queue, k)
            && t.ledger.canceled == s.ledger.canceled && t.flights == s.flights && t.ledger.next == s.ledger.next
    decreases |queue|
  {
    if queue != [] {
      FinishedSettles(if queue[0].canceled then s else Completed(s, queue[0].serial), queue[1..], k);
    }
  }

  /** When the client is destroyed, a request has had its closure scheduled exactly once, or was
      canceled, unless it was in flight and no connection resolved it. */
  lemma DestructionSettles<R, C>(c: Config, w: World, s: State<R, C>, order: seq<nat>, results: nat -> Result, k: nat)
    requires Inv(c, s, [], [])
    ensures var t := Destroyed(c, w, s, order, results);
            && t.ledger.next == s.ledger.next
            && t.ledger.done[k] + t.ledger.canceled[k] ==
               if k < s.ledger.next && (k in s.flights ==> k in order) then 1 else 0
  {
    hide Inv, ResolveEach;
    var d := s.(closing := true);
    TickKeeps(c, s, [], [], d);
    CloseAllKeeps(c, w, d, order, results);
    ClosingResolves(c, w, d, order, results);
    var t := CloseAll(c, w, d, order, results);
    InvPlaces(c, s, k);
    InvPlaces(c, t, k);
    FinishedSettles(t.(queue := [], pending := map[]), t.queue, k);
  }

  /** With everything resolved, every request ever started has had its closure scheduled exactly
      once, or was canceled. */
  lemma DestructionSettlesAll<R, C>(c: Config, w: World, s: State<R, C>, order: seq<nat>, results: nat -> Result, k: nat)
    requires Inv(c, s, [], []) && forall j :: j in s.flights ==> j in order
    ensures var t := Destroyed(c, w, s, order, results);
            && t.ledger.next == s.ledger.next
            && t.ledger.done[k] + t.ledger.canceled[k] == if k < s.ledger.next then 1 else 0
  {
    hide Inv, Destroyed;
    DestructionSettles(c, w, s, order, results, k);
  }

  lemma InvPlaces<R, C>(c: Config, s: State<R, C>, k: nat)
    requires Inv(c, s, [], [])
    ensures Count(s.queue, k) + (if k in s.flights then 1 else 0) + s.ledger.done[k] + s.ledger.canceled[k] ==
            if k < s.ledger.next then 1 else 0
  {
    assert Places(s, [], [], k) == if k < s.ledger.next then 1 else 0;
  }

  // ------------------------------------------------------------------ the least loaded connection

  ghost predicate Usable(w: World, tick: nat, slots: seq<Slot>, i: nat) {
    i < |slots| && slots[i].open && w.alive(tick, i)
  }

  /** The chosen slot is open, and the load is that of its connection, which is 0 for a new one. */
  ghost predicate Reported(w: World, tick: nat, slots: seq<Slot>, choice: Choice) {
    && 0 <= choice.slot < |choice.slots| && choice.slots[choice.slot].open
    && choice.load == if Usable(w, tick, slots, choice.slot) then w.load(tick, choice.slot) else 0
  }

  /** Among the first `n` slots none is alive and less loaded than the choice. */
  ghost predicate LeastOf(w: World, tick: nat, slots: seq<Slot>, n: nat, choice: Choice) {
    && -1 <= choice.slot < n
    && (choice.slot >= 0 ==> Reported(w, tick, slots, choice))
    && forall i :: 0 <= i < n && Usable(w, tick, slots, i) ==> choice.slot >= 0 && choice.load <= w.load(tick, i)
  }

  lemma {:induction false} ScanKeepsLeast(c: Config, w: World, tick: nat, slots: seq<Slot>, i: nat, choice: Choice)
    requires i <= |choice.slots| == |slots| && slots[i..] == choice.slots[i..] && LeastOf(w, tick, slots, i, choice)
    ensures var r := ScanFrom(c, w, tick, i, choice); |r.slots| == |slots| && LeastOf(w, tick, slots, |slots|, r)
    decreases |slots| - i
  {
    if i < |slots| {
      assert slots[i] == slots[i..][0] == choice.slots[i..][0] == choice.slots[i];
      var next := ScanOne(c, w, tick, i, choice);
      assert slots[i + 1..] == slots[i..][1..] == choice.slots[i..][1..];
      assert next.slots[i + 1..] == choice.slots[i + 1..];
      ScanKeepsLeast(c, w, tick, slots, i + 1, next);
    }
  }

  /** No live connection is less loaded than the chosen one, which is open and has the load that is
      reported, and one is chosen if any is alive or a server is left.
      Slots stay within the servers. */
  lemma ChoosesLeastLoaded(c: Config, w: World, tick: nat, slots: seq<Slot>)
    ensures var r := Choose(c, w, tick, slots);
            && (forall i :: Usable(w, tick, slots, i) ==> r.slot >= 0 && r.load <= w.load(tick, i))
            && (r.slot >= 0 ==> Reported(w, tick, slots, r))
            && (|slots| < c.servers ==> r.slot >= 0)
            && (|slots| <= c.servers ==> |slots| <= |r.slots| <= c.servers)
            && -1 <= r.slot < |r.slots|
  {
    ScanKeepsLeast(c, w, tick, slots, 0, Choice(slots, -1, 0));
  }
}
