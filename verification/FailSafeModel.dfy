/** The fail-safe HTTP client as a value: requests are queued, sent to one of several servers,
    retried, and in the end completed or canceled. Time, and which connections live and how loaded
    they are, come from a `World` that is asked at every tick. */
module FailSafeModel {

  datatype Config = Config(
    numRetries: int, timeout: int, reopenInterval: int, keepAlive: int, maxConcurrent: nat, servers: nat)

  datatype World = World(now: nat -> int, alive: (nat, nat) -> bool, load: (nat, nat) -> nat)

  /** A started request. The serial number tells apart requests that are started more than once. */
  datatype Pending<R, C> = Pending(
    serial: nat, start: int, retriesLeft: int, request: R, closure: C, urgent: bool, canceled: bool)

  datatype Flight<R, C> = Flight(pending: Pending<R, C>, client: nat)

  /** The connection to one server: whether there is a client, and when the last one was given up. */
  datatype Slot = Slot(open: bool, death: int)

  datatype Job<R, C> = Job(request: R, closure: C)

  /** What was started, and how often each was sent, by serial number. */
  datatype Records<R, C> = Records(jobs: map<nat, Job<R, C>>, sends: map<nat, nat>)

  /** What has become of the requests: `done` are those whose closure was scheduled. */
  datatype Ledger<R, C> = Ledger(next: nat, records: Records<R, C>, done: multiset<nat>, canceled: multiset<nat>)

  datatype State<R, C> = State(
    queue: seq<Pending<R, C>>,
    pending: map<R, nat>,              // the queued requests
    flights: map<nat, Flight<R, C>>,   // the requests handed to a connection
    slots: seq<Slot>,
    closing: bool,
    ledger: Ledger<R, C>,
    tick: nat)

  function NewState<R, C>(): State<R, C> {
    State([], map[], map[], [], false, Ledger(0, Records(map[], map[]), multiset{}, multiset{}), 0)
  }

  // ------------------------------------------------------------------ choosing a connection

  /** The slots after a scan, with the one chosen (or -1) and its load. */
  datatype Choice = Choice(slots: seq<Slot>, slot: int, load: nat)

  function ScanOne(c: Config, w: World, tick: nat, i: nat, choice: Choice): Choice
    requires i < |choice.slots|
  {
    var now, death := w.now(tick), choice.slots[i].death;
    if choice.slots[i].open && w.alive(tick, i) then
      if w.load(tick, i) < choice.load || choice.slot < 0 then choice.(slot := i, load := w.load(tick, i)) else choice
    else if now - death > c.reopenInterval && death > 0 then
      Choice(choice.slots[i := Slot(true, now)], i, 0)
    else
      choice.(slots := choice.slots[i := Slot(false, if death == 0 then now else death)])
  }

  function ScanFrom(c: Config, w: World, tick: nat, i: nat, choice: Choice): Choice
    requires i <= |choice.slots|
    decreases |choice.slots| - i
  {
    if i == |choice.slots| then choice else ScanFrom(c, w, tick, i + 1, ScanOne(c, w, tick, i, choice))
  }

  /** A new connection is opened when every other one is busy or dead, while servers are left. */
  function Choose(c: Config, w: World, tick: nat, slots: seq<Slot>): Choice {
    var r := ScanFrom(c, w, tick, 0, Choice(slots, -1, 0));
    if (r.slot < 0 || r.load > 0) && |r.slots| < c.servers then Choice(r.slots + [Slot(true, 0)], |r.slots|, 0) else r
  }

  predicate Refused(c: Config, choice: Choice) {
    choice.slot < 0 || (choice.load > 0 && c.keepAlive == 0) || choice.load >= c.maxConcurrent
  }

  // ------------------------------------------------------------------ steps

  /** A state, and whether the queue may be worked on further. */
  datatype Outcome<R, C> = Outcome(state: State<R, C>, more: bool)

  function Completed<R, C>(s: State<R, C>, serial: nat): State<R, C> {
    s.(ledger := s.ledger.(done := s.ledger.done + multiset{serial}))
  }

  function Enqueued<R(==), C>(s: State<R, C>, e: Pending<R, C>): State<R, C> {
    s.(pending := if e.request in s.pending then s.pending else s.pending[e.request := e.serial],
       queue := if e.urgent then [e] + s.queue else s.queue + [e])
  }

  function Recorded<R, C>(records: Records<R, C>, serial: nat): Records<R, C> {
    records.(sends := records.sends[serial := (if serial in records.sends then records.sends[serial] else 0) + 1])
  }

  function Sent<R, C>(s: State<R, C>, e: Pending<R, C>, client: nat): State<R, C> {
    var e' := if e.retriesLeft > 0 then e.(retriesLeft := e.retriesLeft - 1) else e;
    s.(flights := s.flights[e.serial := Flight(e', client)],
       ledger := s.ledger.(records := Recorded(s.ledger.records, e.serial)))
  }

  function Launch<R(==), C>(c: Config, w: World, s: State<R, C>, e: Pending<R, C>): Outcome<R, C>
  {
    var t := s.(tick := s.tick + 1);
    if s.closing then Outcome(Completed(t, e.serial), false)
    else if w.now(s.tick) - e.start > c.timeout then Outcome(Completed(t, e.serial), true)
    else if e.retriesLeft == 0 then Outcome(Completed(t, e.serial), true)
    else
      var choice := Choose(c, w, s.tick, s.slots);
      var u := t.(slots := choice.slots);
      if Refused(c, choice) then Outcome(Enqueued(u, e), false) else Outcome(Sent(u, e, choice.slot), true)
  }

  /** A canceled request has been forgotten, so that it is found under no name. */
  predicate Found<R(==), C>(s: State<R, C>, e: Pending<R, C>) {
    !e.canceled && e.request in s.pending
  }

  function Taken<R(==), C>(s: State<R, C>, e: Pending<R, C>): State<R, C> {
    s.(pending := s.pending - {e.request})
  }

  /** Starts queued requests until one has to wait. */
  function Drain<R(==), C>(c: Config, w: World, s: State<R, C>, rest: seq<Pending<R, C>>): State<R, C>
    decreases |rest|
  {
    if rest == [] then s
    else if !Found(s, rest[0]) then Drain(c, w, s, rest[1..])
    else
      var r := Launch(c, w, Taken(s, rest[0]), rest[0]);
      if r.more then Drain(c, w, r.state, rest[1..])
      else Refill(c, w, r.state, rest[1..])
  }

  /** Puts the others back in order, except those that have expired. */
  function Refill<R(==), C>(c: Config, w: World, s: State<R, C>, rest: seq<Pending<R, C>>): State<R, C>
    decreases |rest|
  {
    if rest == [] then s
    else if !Found(s, rest[0]) then Refill(c, w, s, rest[1..])
    else if w.now(s.tick) - rest[0].start > c.timeout then
      Refill(c, w, Completed(Taken(s, rest[0]), rest[0].serial), rest[1..])
    else Refill(c, w, s.(queue := s.queue + [rest[0]]), rest[1..])
  }

  function Requeue<R(==), C>(c: Config, w: World, s: State<R, C>): State<R, C>
  {
    Drain(c, w, s.(queue := []), s.queue)
  }

  function Begin<R, C>(c: Config, w: World, s: State<R, C>, request: R, closure: C, urgent: bool): (r: (State<R, C>, Pending<R, C>)) {
    var l := s.ledger;
    var e := Pending(l.next, w.now(s.tick), c.numRetries, request, closure, urgent, false);
    var records := Records(l.records.jobs[l.next := Job(request, closure)], l.records.sends[l.next := 0]);
    (s.(ledger := l.(next := l.next + 1, records := records)), e)
  }

  function Start<R(==), C>(c: Config, w: World, s: State<R, C>, request: R, closure: C, urgent: bool): State<R, C>
  {
    var (t, e) := Begin(c, w, s, request, closure, urgent);
    var r := Launch(c, w, t, e);
    if r.more then Requeue(c, w, r.state) else r.state
  }

  /** The entry with this serial is canceled and forgotten, but stays where it is. */
  function Marked<R, C>(queue: seq<Pending<R, C>>, serial: nat): seq<Pending<R, C>> {
    if queue == [] then []
    else [if queue[0].serial == serial then queue[0].(canceled := true) else queue[0]] + Marked(queue[1..], serial)
  }

  function Cancel<R(==), C>(s: State<R, C>, request: R): State<R, C> {
    if request !in s.pending then s
    else
      s.(queue := Marked(s.queue, s.pending[request]), pending := s.pending - {request},
         ledger := s.ledger.(canceled := s.ledger.canceled + multiset{s.pending[request]}))
  }

  datatype Result = Incomplete | Okay | Failed

  /** Without keep-alive a connection is given up after one reply. */
  function GivenUp(c: Config, slots: seq<Slot>, client: nat, closing: bool): seq<Slot> {
    if c.keepAlive == 0 && !closing && client < |slots| && slots[client].open then slots[client := Slot(false, 0)] else slots
  }

  /** A connection resolves a request. */
  function Resolve<R(==), C>(c: Config, w: World, s: State<R, C>, serial: nat, result: Result): State<R, C>
    requires serial in s.flights
  {
    var flight := s.flights[serial];
    var t := s.(flights := s.flights - {serial});
    if result != Incomplete && (s.closing || result == Okay) then
      var u := Requeue(c, w, t.(slots := GivenUp(c, t.slots, flight.client, s.closing)));
      Completed(u, serial)
    else Launch(c, w, t, flight.pending).state
  }

  /** Connections resolve the requests they hold, in some order. */
  function ResolveEach<R(==), C>(c: Config, w: World, s: State<R, C>, order: seq<nat>, results: nat -> Result): State<R, C>
    decreases |order|
  {
    if order == [] then s
    else ResolveEach(c, w, if order[0] in s.flights then Resolve(c, w, s, order[0], results(order[0])) else s, order[1..], results)
  }

  /** All connections are closed: nothing is sent again meanwhile. */
  function CloseAll<R(==), C>(c: Config, w: World, s: State<R, C>, order: seq<nat>, results: nat -> Result): State<R, C> {
    ResolveEach(c, w, s.(closing := true), order, results).(slots := [], closing := s.closing)
  }

  /** All connections are reopened: what they held is sent again elsewhere. */
  function Reset<R(==), C>(c: Config, w: World, s: State<R, C>, order: seq<nat>): State<R, C> {
    ResolveEach(c, w, s.(slots := []), order, (k: nat) => Failed)
  }

  /** Completes what is queued. */
  function Finished<R, C>(s: State<R, C>, queue: seq<Pending<R, C>>): State<R, C>
    decreases |queue|
  {
    if queue == [] then s
    else Finished(if queue[0].canceled then s else Completed(s, queue[0].serial), queue[1..])
  }

  function Destroyed<R(==), C>(c: Config, w: World, s: State<R, C>, order: seq<nat>, results: nat -> Result): State<R, C> {
    var t := CloseAll(c, w, s.(closing := true), order, results);
    Finished(t.(queue := [], pending := map[]), t.queue)
  }
}
