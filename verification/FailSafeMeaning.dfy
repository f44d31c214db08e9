/** What the fail-safe client does with each request: when it is completed, when it is sent, and in
    which order requests wait. */
module FailSafeMeaning {
  import opened FailSafeModel
  import opened FailSafeSafety
  import opened FailSafeRuns

  /** The time of a request is over. */
  predicate Overdue<R, C>(c: Config, w: World, tick: nat, e: Pending<R, C>) {
    w.now(tick) > e.start + c.timeout
  }

  /** Neither time nor a try is left. */
  predicate Hopeless<R, C>(c: Config, w: World, tick: nat, e: Pending<R, C>) {
    Overdue(c, w, tick, e) || e.retriesLeft == 0
  }

  /** There is a connection that takes one more request; without keep-alive that is an idle one. */
  predicate HasRoom(c: Config, choice: Choice) {
    choice.slot >= 0 && choice.load < c.maxConcurrent && (c.keepAlive != 0 || choice.load == 0)
  }

  // ------------------------------------------------------------------ one request

  /** A request that is taken up is completed when the client is closing or it is hopeless; otherwise
      it is sent to the chosen connection if that has room, and waits if not, an urgent one in front. */
  lemma LaunchMeans<R, C>(c: Config, w: World, s: State<R, C>, e: Pending<R, C>)
    ensures var r, choice := Launch(c, w, s, e), Choose(c, w, s.tick, s.slots);
            var t, over := r.state, s.closing || Hopeless(c, w, s.tick, e);
            && t.tick == s.tick + 1 && t.closing == s.closing && t.ledger.canceled == s.ledger.canceled
            && t.ledger.done == s.ledger.done + (if over then multiset{e.serial} else multiset{})
            && (over || HasRoom(c, choice) ==> t.queue == s.queue && t.pending == s.pending)
            && (over || !HasRoom(c, choice) ==> t.flights == s.flights)
            && (!over && HasRoom(c, choice) ==>
                  && t.flights.Keys == s.flights.Keys + {e.serial} && t.flights[e.serial].client == choice.slot
                  && t.flights[e.serial].pending.retriesLeft == (if e.retriesLeft > 0 then e.retriesLeft - 1 else e.retriesLeft))
            && (!over && !HasRoom(c, choice) ==> t.queue == if e.urgent then [e] + s.queue else s.queue + [e])
            && (r.more <==> !s.closing && (over || HasRoom(c, choice)))
  {
    hide Choose;
  }

  // ------------------------------------------------------------------ the queue

  /** The entries that were not canceled. */
  ghost function Live<R, C>(queue: seq<Pending<R, C>>): seq<Pending<R, C>> {
    if queue == [] then [] else (if queue[0].canceled then [] else [queue[0]]) + Live(queue[1..])
  }

  ghost function InTime<R, C>(c: Config, w: World, tick: nat, queue: seq<Pending<R, C>>): seq<Pending<R, C>> {
    if queue == [] then []
    else (if Overdue(c, w, tick, queue[0]) then [] else [queue[0]]) + InTime(c, w, tick, queue[1..])
  }

  ghost function OutOfTime<R, C>(c: Config, w: World, tick: nat, queue: seq<Pending<R, C>>): multiset<nat> {
    if queue == [] then multiset{}
    else (if Overdue(c, w, tick, queue[0]) then multiset{queue[0].serial} else multiset{}) + OutOfTime(c, w, tick, queue[1..])
  }

  /** Of a queue of which the first `m` are taken up, one at each tick, and the next one has to wait or
      finds the client closing: what is completed. */
  ghost function Completes<R, C>(c: Config, w: World, tick: nat, closing: bool, queue: seq<Pending<R, C>>, m: nat): multiset<nat>
    decreases |queue|
  {
    if queue == [] then multiset{}
    else if m == 0 then (if closing then multiset{queue[0].serial} else multiset{}) + OutOfTime(c, w, tick + 1, queue[1..])
    else (if Hopeless(c, w, tick, queue[0]) then multiset{queue[0].serial} else multiset{})
         + Completes(c, w, tick + 1, closing, queue[1..], m - 1)
  }

  /** What is sent. */
  ghost function Leaves<R, C>(c: Config, w: World, tick: nat, queue: seq<Pending<R, C>>, m: nat): set<nat>
    decreases |queue|
  {
    if queue == [] || m == 0 then {}
    else (if Hopeless(c, w, tick, queue[0]) then {} else {queue[0].serial}) + Leaves(c, w, tick + 1, queue[1..], m - 1)
  }

  /** What still waits, in the order in which it waited. */
  ghost function Stays<R, C>(c: Config, w: World, tick: nat, closing: bool, queue: seq<Pending<R, C>>, m: nat): seq<Pending<R, C>> {
    if m >= |queue| then []
    else (if closing then [] else [queue[m]]) + InTime(c, w, tick + m + 1, queue[m + 1..])
  }

  /** How many are taken up before one has to wait. */
  ghost function TakenUp<R, C>(c: Config, w: World, s: State<R, C>, queue: seq<Pending<R, C>>): (m: nat)
    ensures m <= |queue|
    decreases |queue|
  {
    if queue == [] then 0
    else
      var r := Launch(c, w, Taken(s, queue[0]), queue[0]);
      if r.more then 1 + TakenUp(c, w, r.state, queue[1..]) else 0
  }

  /** The queue has been worked on: the first `m` live entries were taken up, and the rest sorted. */
  ghost predicate Worked<R, C>(c: Config, w: World, s: State<R, C>, queue: seq<Pending<R, C>>, m: nat, t: State<R, C>) {
    && t.queue == Stays(c, w, s.tick, s.closing, queue, m)
    && t.ledger.done == s.ledger.done + Completes(c, w, s.tick, s.closing, queue, m)
    && t.flights.Keys == s.flights.Keys + Leaves(c, w, s.tick, queue, m)
    && t.ledger.canceled == s.ledger.canceled && t.closing == s.closing && t.ledger.next == s.ledger.next
  }

  lemma LiveFront<R, C>(e: Pending<R, C>, rest: seq<Pending<R, C>>)
    ensures Live([e] + rest) == (if e.canceled then [] else [e]) + Live(rest)
  {
    assert ([e] + rest)[1..] == rest;
  }

  lemma SortedFront<R, C>(c: Config, w: World, tick: nat, e: Pending<R, C>, rest: seq<Pending<R, C>>)
    ensures InTime(c, w, tick, [e] + rest) == (if Overdue(c, w, tick, e) then [] else [e]) + InTime(c, w, tick, rest)
    ensures OutOfTime(c, w, tick, [e] + rest) ==
            (if Overdue(c, w, tick, e) then multiset{e.serial} else multiset{}) + OutOfTime(c, w, tick, rest)
  {
    assert ([e] + rest)[1..] == rest;
  }

  /** The rest of the queue has been sorted: what is overdue is completed, the rest put back in order. */
  ghost predicate Refilled<R, C>(c: Config, w: World, s: State<R, C>, queue: seq<Pending<R, C>>, t: State<R, C>) {
    && t.queue == s.queue + InTime(c, w, s.tick, queue)
    && t.ledger.done == s.ledger.done + OutOfTime(c, w, s.tick, queue)
    && t.flights == s.flights && t.ledger.canceled == s.ledger.canceled && t.closing == s.closing
    && t.ledger.next == s.ledger.next
  }

  lemma RefilledFront<R, C>(c: Config, w: World, s: State<R, C>, u: State<R, C>, e: Pending<R, C>, queue: seq<Pending<R, C>>, t: State<R, C>)
    requires u.tick == s.tick && u.flights == s.flights && u.closing == s.closing && u.ledger.next == s.ledger.next
    requires u.ledger.canceled == s.ledger.canceled && Refilled(c, w, u, queue, t)
    requires u.queue == s.queue + if Overdue(c, w, s.tick, e) then [] else [e]
    requires u.ledger.done == s.ledger.done + if Overdue(c, w, s.tick, e) then multiset{e.serial} else multiset{}
    ensures Refilled(c, w, s, [e] + queue, t)
  {
    hide InTime, OutOfTime, Overdue;
    SortedFront(c, w, s.tick, e, queue);
  }

  lemma {:induction false} RefillMeans<R, C>(
    c: Config, w: World, s: State<R, C>, rest: seq<Pending<R, C>>, hand: seq<Pending<R, C>>)
    requires Inv(c, s, rest, hand)
    ensures Refilled(c, w, s, Live(rest), Refill(c, w, s, rest))
    decreases |rest|
  {
    hide Inv, Live, Refilled;
    if rest == [] {
      NothingRefilled(c, w, s);
    } else {
      var e := rest[0];
      assert rest == [e] + rest[1..];
      DroppedKeeps(c, s, e, rest[1..], hand);
      LiveFront(e, rest[1..]);
      if !Found(s, e) {
        RefillMeans(c, w, s, rest[1..], hand);
        assert [] + Live(rest[1..]) == Live(rest[1..]);
      } else if Overdue(c, w, s.tick, e) {
        TakenKeeps(c, s, e, rest[1..], hand);
        CompletedKeeps(c, Taken(s, e), rest[1..], e, hand);
        var u := Completed(Taken(s, e), e.serial);
        assert u.queue + [] == u.queue;
        RefillMeans(c, w, u, rest[1..], hand);
        RefilledFront(c, w, s, u, e, Live(rest[1..]), Refill(c, w, s, rest));
      } else {
        PutBackKeeps(c, s, e, rest[1..], hand);
        RefillMeans(c, w, s.(queue := s.queue + [e]), rest[1..], hand);
        RefilledFront(c, w, s, s.(queue := s.queue + [e]), e, Live(rest[1..]), Refill(c, w, s, rest));
      }
    }
  }

  lemma NothingRefilled<R, C>(c: Config, w: World, s: State<R, C>)
    ensures Refilled(c, w, s, Live([]), s)
  {
  }

  // ------------------------------------------------------------------ working on the whole queue

  /** The first of the queue is taken up, and others after it. */
  lemma WorkedFront<R, C>(
    c: Config, w: World, s: State<R, C>, u: State<R, C>, e: Pending<R, C>, queue: seq<Pending<R, C>>, m: nat, t: State<R, C>)
    requires !s.closing && u.tick == s.tick + 1 && u.closing == s.closing && u.ledger.next == s.ledger.next
    requires u.ledger.canceled == s.ledger.canceled && Worked(c, w, u, queue, m, t)
    requires u.flights.Keys == s.flights.Keys + if Hopeless(c, w, s.tick, e) then {} else {e.serial}
    requires u.ledger.done == s.ledger.done + if Hopeless(c, w, s.tick, e) then multiset{e.serial} else multiset{}
    ensures Worked(c, w, s, [e] + queue, m + 1, t)
  {
    hide InTime, OutOfTime, Hopeless;
    var all := [e] + queue;
    assert all[0] == e && all[1..] == queue;
    assert m < |queue| ==> all[m + 1] == queue[m] && all[m + 2..] == queue[m + 1..];
  }

  /** The first one has to wait, or finds the client closing. */
  lemma WorkedLast<R, C>(
    c: Config, w: World, s: State<R, C>, u: State<R, C>, e: Pending<R, C>, queue: seq<Pending<R, C>>, t: State<R, C>)
    requires u.tick == s.tick + 1 && u.closing == s.closing && u.ledger.next == s.ledger.next && u.flights == s.flights
    requires u.ledger.canceled == s.ledger.canceled && Refilled(c, w, u, queue, t)
    requires u.queue == if s.closing then [] else [e]
    requires u.ledger.done == s.ledger.done + if s.closing then multiset{e.serial} else multiset{}
    ensures Worked(c, w, s, [e] + queue, 0, t)
  {
    hide InTime, OutOfTime;
    var all := [e] + queue;
    assert all[0] == e && all[1..] == queue;
  }

  lemma {:induction false} DrainMeans<R, C>(
    c: Config, w: World, s: State<R, C>, rest: seq<Pending<R, C>>, hand: seq<Pending<R, C>>)
    requires Inv(c, s, rest, hand) && s.queue == []
    ensures Worked(c, w, s, Live(rest), TakenUp(c, w, s, Live(rest)), Drain(c, w, s, rest))
    decreases |rest|
  {
    hide Inv, Live, Worked, Launch;
    if rest == [] {
      NothingWorked(c, w, s);
    } else {
      var e := rest[0];
      assert rest == [e] + rest[1..];
      DroppedKeeps(c, s, e, rest[1..], hand);
      LiveFront(e, rest[1..]);
      if !Found(s, e) {
        DrainMeans(c, w, s, rest[1..], hand);
        assert [] + Live(rest[1..]) == Live(rest[1..]);
      } else {
        TakenKeeps(c, s, e, rest[1..], hand);
        LaunchKeeps(c, w, Taken(s, e), rest[1..], e, hand);
        LaunchMeans(c, w, Taken(s, e), e);
        LaunchFrame(c, w, Taken(s, e), e);
        var r, queue := Launch(c, w, Taken(s, e), e), Live(rest[1..]);
        assert Live(rest)[0] == e && Live(rest)[1..] == queue;
        if r.more {
          DrainMeans(c, w, r.state, rest[1..], hand);
          WorkedFront(c, w, s, r.state, e, queue, TakenUp(c, w, r.state, queue), Drain(c, w, s, rest));
        } else {
          RefillMeans(c, w, r.state, rest[1..], hand);
          assert [e] + [] == [e] && [] + [e] == [e];
          WorkedLast(c, w, s, r.state, e, queue, Drain(c, w, s, rest));
        }
      }
    }
  }

  lemma LaunchFrame<R, C>(c: Config, w: World, s: State<R, C>, e: Pending<R, C>)
    ensures Launch(c, w, s, e).state.ledger.next == s.ledger.next
  {
    hide Choose;
  }

  lemma NothingWorked<R, C>(c: Config, w: World, s: State<R, C>)
    requires s.queue == []
    ensures Worked(c, w, s, Live([]), TakenUp(c, w, s, Live([])), s)
  {
  }

  /** Working on the queue: entries are taken up in their order, one at each tick, until one has to
      wait; those that are hopeless then are completed, the others sent. Of the rest, what is overdue is
      completed, and what is not keeps its order behind the one that waits. */
  lemma RequeueMeans<R, C>(c: Config, w: World, s: State<R, C>, hand: seq<Pending<R, C>>)
    requires Inv(c, s, [], hand)
    ensures Worked(c, w, s, Live(s.queue), TakenUp(c, w, s.(queue := []), Live(s.queue)), Requeue(c, w, s))
  {
    hide Inv, Drain, TakenUp;
    QueueInHand(c, s, hand);
    DrainMeans(c, w, s.(queue := []), s.queue, hand);
  }

  // ------------------------------------------------------------------ a resolved request

  /** The connection that gave an answer has let go of the request, and is given up without keep-alive. */
  function Freed<R, C>(c: Config, s: State<R, C>, serial: nat): State<R, C>
    requires serial in s.flights
  {
    s.(flights := s.flights - {serial}, slots := GivenUp(c, s.slots, s.flights[serial].client, s.closing))
  }

  lemma GivenUpMeans(c: Config, slots: seq<Slot>, client: nat, closing: bool)
    ensures var after := GivenUp(c, slots, client, closing);
            && |after| == |slots|
            && (forall i :: 0 <= i < |slots| && i != client ==> after[i] == slots[i])
            && (client < |slots| ==> (after[client].open <==> slots[client].open && (c.keepAlive != 0 || closing)))
            && (client < |slots| && after[client].open ==> after[client] == slots[client])
  {
  }

  /** The request is complete: it was answered well, or the client is closing. */
  predicate Answered(closing: bool, result: Result) {
    result == Okay || (closing && result != Incomplete)
  }

  /** A request that was answered well, or is resolved while the client is closing, is completed and is
      nowhere else. Any other is sent or queued again, unless it is hopeless. */
  lemma ResolveMeans<R, C>(c: Config, w: World, s: State<R, C>, k: nat, result: Result)
    requires Inv(c, s, [], []) && k in s.flights
    ensures var t := Resolve(c, w, s, k, result);
            var over := result == Okay || s.closing || Hopeless(c, w, s.tick, s.flights[k].pending);
            && t.ledger.done[k] == s.ledger.done[k] + (if over then 1 else 0)
            && (over ==> k !in t.flights && Count(t.queue, k) == 0)
            && (!over ==> t.ledger.done == s.ledger.done && (k in t.flights || IsQueued(t, k)))
  {
    var e := s.flights[k].pending;
    LandedKeeps(c, s, [], k, []);
    var landed := s.(flights := s.flights - {k});
    ResolveKeeps(c, w, s, k, result);
    var t := Resolve(c, w, s, k, result);
    PlacesOf(c, t, k);
    PlacesOf(c, s, k);
    if Answered(s.closing, result) {
      hide Inv, Launch, Requeue;
    } else {
      LaunchMeans(c, w, landed, e);
      hide Launch;
      if !s.closing && !Hopeless(c, w, s.tick, e) && k !in t.flights {
        QueuedIs(c, t, k);
      }
    }
  }

  /** Where a request is: in the queue, in flight, completed or canceled, once. */
  lemma PlacesOf<R, C>(c: Config, s: State<R, C>, k: nat)
    requires Inv(c, s, [], [])
    ensures Count(s.queue, k) + (if k in s.flights then 1 else 0) + s.ledger.done[k] + s.ledger.canceled[k] ==
            if k < s.ledger.next then 1 else 0
  {
    InvPlaces(c, s, k);
  }

  lemma QueuedIs<R, C>(c: Config, s: State<R, C>, k: nat)
    requires Inv(c, s, [], []) && Count(s.queue, k) == 1
    ensures IsQueued(s, k)
  {
    var e := QueuedEntry(s.queue, k);
    assert e in s.queue && !e.canceled;
  }

  // ------------------------------------------------------------------ when a request is completed

  /** Working on the queue completes the request. */
  ghost predicate WorkEnds<R, C>(c: Config, w: World, s: State<R, C>, k: nat) {
    k in Completes(c, w, s.tick, s.closing, Live(s.queue), TakenUp(c, w, s.(queue := []), Live(s.queue)))
  }

  /** The request is answered, hopeless or meets a client that is closing; or another one is answered,
      and the work on the queue that follows completes it. */
  ghost predicate ResolveEnds<R, C>(c: Config, w: World, s: State<R, C>, j: nat, result: Result, k: nat)
    requires j in s.flights
  {
    if j == k then result == Okay || s.closing || Hopeless(c, w, s.tick, s.flights[k].pending)
    else Answered(s.closing, result) && WorkEnds(c, w, Freed(c, s, j), k)
  }

  ghost predicate StartEnds<R, C>(c: Config, w: World, s: State<R, C>, request: R, closure: C, urgent: bool, k: nat) {
    var (t, e) := Begin(c, w, s, request, closure, urgent);
    var r := Launch(c, w, t, e);
    if k == e.serial then s.closing || Hopeless(c, w, s.tick, e)
    else r.more && WorkEnds(c, w, r.state, k)
  }

  ghost predicate EachEnds<R, C>(c: Config, w: World, s: State<R, C>, order: seq<nat>, results: nat -> Result, k: nat)
    decreases |order|
  {
    order != [] &&
    if order[0] !in s.flights then EachEnds(c, w, s, order[1..], results, k)
    else
      || ResolveEnds(c, w, s, order[0], results(order[0]), k)
      || EachEnds(c, w, Resolve(c, w, s, order[0], results(order[0])), order[1..], results, k)
  }

  /** The event completes the request. */
  ghost predicate Ends<R, C>(c: Config, w: World, s: State<R, C>, e: Event<R, C>, k: nat)
    requires Enabled(s, e)
  {
    match e
    case Started(r, closure, urgent) => StartEnds(c, w, s, r, closure, urgent, k)
    case Canceled(_) => false
    case Alarm => WorkEnds(c, w, s, k)
    case Resolved(j, result) => ResolveEnds(c, w, s, j, result, k)
    case ClosedAll(order, results) => EachEnds(c, w, s.(closing := true), order, results, k)
    case WasReset(order) => EachEnds(c, w, s.(slots := []), order, (j: nat) => Failed, k)
  }

  /** From `s` to `t`, the request was completed if and only if `ends` says so. */
  ghost predicate EndsIff<R, C>(s: State<R, C>, t: State<R, C>, k: nat, ends: bool) {
    t.ledger.done[k] == s.ledger.done[k] + if ends then 1 else 0
  }

  lemma WorkEndsMeans<R, C>(c: Config, w: World, s: State<R, C>, hand: seq<Pending<R, C>>, k: nat)
    requires Inv(c, s, [], hand)
    ensures EndsIff(s, Requeue(c, w, s), k, WorkEnds(c, w, s, k))
  {
    RequeueMeans(c, w, s, hand);
    RequeueKeeps(c, w, s, hand);
    AtMostOnce(c, Requeue(c, w, s), hand, k);
    hide Inv, Completes, Live, TakenUp, Requeue, Stays, Leaves;
  }

  lemma AtMostOnce<R, C>(c: Config, s: State<R, C>, hand: seq<Pending<R, C>>, k: nat)
    requires Inv(c, s, [], hand)
    ensures s.ledger.done[k] <= 1 && (Count(hand, k) > 0 ==> s.ledger.done[k] == 0)
  {
    assert Places(s, [], hand, k) == if k < s.ledger.next then 1 else 0;
  }

  lemma ResolveEndsMeans<R, C>(c: Config, w: World, s: State<R, C>, j: nat, result: Result, k: nat)
    requires Inv(c, s, [], []) && j in s.flights
    ensures EndsIff(s, Resolve(c, w, s, j, result), k, ResolveEnds(c, w, s, j, result, k))
  {
    if j == k {
      ResolveMeans(c, w, s, k, result);
    } else {
      LandedKeeps(c, s, [], j, []);
      var e, landed := s.flights[j].pending, s.(flights := s.flights - {j});
      if Answered(s.closing, result) {
        var u := Freed(c, s, j);
        TickKeeps(c, landed, [], [e] + [], u);
        WorkEndsMeans(c, w, u, [e] + [], k);
        hide Inv, Requeue, WorkEnds;
      } else {
        LaunchMeans(c, w, landed, e);
        hide Inv, Launch;
      }
    }
  }

  lemma StartEndsMeans<R, C>(c: Config, w: World, s: State<R, C>, request: R, closure: C, urgent: bool, k: nat)
    requires Inv(c, s, [], []) && Startable(s.ledger, request)
    ensures EndsIff(s, Start(c, w, s, request, closure, urgent), k, StartEnds(c, w, s, request, closure, urgent, k))
  {
    BeginKeeps(c, w, s, request, closure, urgent);
    var (t, e) := Begin(c, w, s, request, closure, urgent);
    assert [e] + [] == [e];
    LaunchKeeps(c, w, t, [], e, []);
    LaunchMeans(c, w, t, e);
    var r := Launch(c, w, t, e);
    hide Inv, Launch, WorkEnds, Requeue;
    if k == e.serial {
      FreshIsNotDone(c, s, k);
      if r.more {
        SettledStays(c, w, r.state, k);
      }
    } else if r.more {
      WorkEndsMeans(c, w, r.state, [], k);
    }
  }

  /** Working on the queue completes nothing that is not in the queue. */
  lemma SettledStays<R, C>(c: Config, w: World, s: State<R, C>, k: nat)
    requires Inv(c, s, [], []) && (k in s.flights || s.ledger.done[k] == 1)
    ensures Requeue(c, w, s).ledger.done[k] == s.ledger.done[k]
  {
    RequeueKeeps(c, w, s, []);
    RequeueMeans(c, w, s, []);
    PlacesOf(c, s, k);
    PlacesOf(c, Requeue(c, w, s), k);
    hide Inv, Requeue, Completes, Leaves, Stays, Live, TakenUp;
    assert s.ledger.done[k] <= Requeue(c, w, s).ledger.done[k];
  }

  lemma FreshIsNotDone<R, C>(c: Config, s: State<R, C>, k: nat)
    requires Inv(c, s, [], []) && k >= s.ledger.next
    ensures s.ledger.done[k] == 0
  {
    PlacesOf(c, s, k);
  }

  lemma {:induction false} EachEndsMeans<R, C>(
    c: Config, w: World, s: State<R, C>, order: seq<nat>, results: nat -> Result, k: nat)
    requires Inv(c, s, [], [])
    ensures EndsIff(s, ResolveEach(c, w, s, order, results), k, EachEnds(c, w, s, order, results, k))
    decreases |order|
  {
    hide Inv, Resolve, ResolveEnds;
    if order != [] {
      if order[0] in s.flights {
        var u := Resolve(c, w, s, order[0], results(order[0]));
        ResolveKeeps(c, w, s, order[0], results(order[0]));
        ResolveEndsMeans(c, w, s, order[0], results(order[0]), k);
        EachEndsMeans(c, w, u, order[1..], results, k);
        ResolveEachKeeps(c, w, u, order[1..], results);
        AtMostOnce(c, ResolveEach(c, w, u, order[1..], results), [], k);
      } else {
        EachEndsMeans(c, w, s, order[1..], results, k);
      }
    }
  }

  lemma EndsMeans<R, C>(c: Config, w: World, s: State<R, C>, e: Event<R, C>, t: State<R, C>, k: nat)
    requires Inv(c, s, [], []) && Follows(c, w, s, e, t)
    ensures EndsIff(s, t, k, Ends(c, w, s, e, k))
  {
    hide Inv, Start, StartEnds, Requeue, WorkEnds, Resolve, ResolveEnds, ResolveEach, EachEnds;
    match e
    case Started(r, closure, urgent) => StartEndsMeans(c, w, s, r, closure, urgent, k);
    case Canceled(_) =>
    case Alarm => WorkEndsMeans(c, w, s, [], k);
    case Resolved(j, result) => ResolveEndsMeans(c, w, s, j, result, k);
    case ClosedAll(order, results) =>
      TickKeeps(c, s, [], [], s.(closing := true));
      EachEndsMeans(c, w, s.(closing := true), order, results, k);
    case WasReset(order) =>
      TickKeeps(c, s, [], [], s.(slots := []));
      EachEndsMeans(c, w, s.(slots := []), order, (j: nat) => Failed, k);
  }

  /** In every run a request has been completed if and only if some event completed it. */
  lemma {:induction false} CompletedExactly<R, C>(
    c: Config, w: World, states: seq<State<R, C>>, events: seq<Event<R, C>>, n: nat, k: nat)
    requires IsRun(c, w, states, events) && n < |states|
    ensures states[n].ledger.done[k] == 1 <==> exists i :: 0 <= i < n && EndsAt(c, w, states, events, i, k)
    ensures states[n].ledger.done[k] <= 1
  {
    hide Follows, EndsAt;
    if n == 0 {
      assert states[0].ledger.done[k] == 0;
    } else {
      var i := n - 1;
      CompletedExactly(c, w, states, events, i, k);
      EveryRunKeepsInv(c, w, states, events, i);
      EveryRunKeepsInv(c, w, states, events, n);
      AtMostOnce(c, states[n], [], k);
      hide Inv;
      assert Follows(c, w, states[i], events[i], states[i + 1]);
      EndsMeans(c, w, states[i], events[i], states[n], k);
      EndsAtMeans(c, w, states, events, i, k);
    }
  }

  ghost predicate EndsAt<R, C>(c: Config, w: World, states: seq<State<R, C>>, events: seq<Event<R, C>>, i: nat, k: nat) {
    i < |states| && i < |events| && Enabled(states[i], events[i]) && Ends(c, w, states[i], events[i], k)
  }

  lemma EndsAtMeans<R, C>(c: Config, w: World, states: seq<State<R, C>>, events: seq<Event<R, C>>, i: nat, k: nat)
    requires i < |events| < |states| && Follows(c, w, states[i], events[i], states[i + 1])
    ensures Enabled(states[i], events[i]) && (EndsAt(c, w, states, events, i, k) <==> Ends(c, w, states[i], events[i], k))
  {
    hide Ends;
  }

  // ------------------------------------------------------------------ the slots after a scan

  /** A live connection stays. A dead one is reopened when it has been dead for longer than the interval;
      until then the slot is closed, and remembers when it was first found dead. */
  ghost predicate SlotScanned(c: Config, w: World, tick: nat, before: Slot, i: nat, after: Slot) {
    var alive, due := before.open && w.alive(tick, i), before.death > 0 && before.death + c.reopenInterval < w.now(tick);
    && (after.open <==> alive || due)
    && (alive ==> after == before)
    && (!alive ==> after.death == if due || before.death == 0 then w.now(tick) else before.death)
  }

  lemma {:induction false} ScanMeans(c: Config, w: World, tick: nat, i: nat, choice: Choice)
    requires i <= |choice.slots|
    ensures var r := ScanFrom(c, w, tick, i, choice);
            && |r.slots| == |choice.slots| && r.slots[..i] == choice.slots[..i]
            && forall j :: i <= j < |choice.slots| ==> SlotScanned(c, w, tick, choice.slots[j], j, r.slots[j])
    decreases |choice.slots| - i
  {
    hide SlotScanned;
    if i < |choice.slots| {
      var next := ScanOne(c, w, tick, i, choice);
      OneScanned(c, w, tick, i, choice);
      ScanMeans(c, w, tick, i + 1, next);
      var r := ScanFrom(c, w, tick, i + 1, next);
      assert r.slots[..i + 1][i] == r.slots[i] && next.slots[..i + 1][i] == next.slots[i];
      assert r.slots[..i + 1][..i] == r.slots[..i] && next.slots[..i + 1][..i] == next.slots[..i];
    }
  }

  lemma OneScanned(c: Config, w: World, tick: nat, i: nat, choice: Choice)
    requires i < |choice.slots|
    ensures var next := ScanOne(c, w, tick, i, choice);
            && |next.slots| == |choice.slots| && next.slots[..i] == choice.slots[..i]
            && SlotScanned(c, w, tick, choice.slots[i], i, next.slots[i])
            && forall j :: i < j < |choice.slots| ==> next.slots[j] == choice.slots[j]
  {
  }

  /** Choosing a connection changes the slots as the scan says, and opens one more, which is chosen
      then, exactly while a server is left and no idle connection has been found. */
  lemma ChooseMeans(c: Config, w: World, tick: nat, slots: seq<Slot>)
    ensures var r := Choose(c, w, tick, slots);
            && |slots| <= |r.slots| <= |slots| + 1
            && (forall i :: 0 <= i < |slots| ==> SlotScanned(c, w, tick, slots[i], i, r.slots[i]))
            && (|r.slots| == |slots| + 1 ==> r.slots[|slots|] == Slot(true, 0) && r.slot == |slots| && r.load == 0 && |slots| < c.servers)
            && (|r.slots| == |slots| + 1 ==> forall i :: Usable(w, tick, slots, i) ==> w.load(tick, i) > 0)
            && (|r.slots| == |slots| < c.servers ==> r.slot >= 0 && r.load == 0)
  {
    hide SlotScanned;
    ScanKeepsLeast(c, w, tick, slots, 0, Choice(slots, -1, 0));
    ScanMeans(c, w, tick, 0, Choice(slots, -1, 0));
  }

  // ------------------------------------------------------------------ starting

  /** A request starts now, with all its tries, as the next one in number; the queue is worked on if it did
      not have to wait. */
  lemma StartMeans<R, C>(c: Config, w: World, s: State<R, C>, request: R, closure: C, urgent: bool)
    ensures var t, e := Begin(c, w, s, request, closure, urgent).0, Begin(c, w, s, request, closure, urgent).1;
            && e == Pending(s.ledger.next, w.now(s.tick), c.numRetries, request, closure, urgent, false)
            && t == s.(ledger := t.ledger) && t.ledger.next == s.ledger.next + 1
            && t.ledger.done == s.ledger.done && t.ledger.canceled == s.ledger.canceled
            && Start(c, w, s, request, closure, urgent) ==
               if Launch(c, w, t, e).more then Requeue(c, w, Launch(c, w, t, e).state) else Launch(c, w, t, e).state
  {
    hide Launch, Requeue;
  }
}
