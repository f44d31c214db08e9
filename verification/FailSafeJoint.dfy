/** The fail-safe client together with its connections, which are clients of the protocol of
    `ClientModel`. Which connection a request goes to is open, except that it is one with the load
    that was reported when it was chosen. */
module FailSafeJoint {
  import ClientModel
  import opened FailSafeModel
  import opened FailSafeSafety
  import FailSafeRuns

  /** A connection, and those of its callbacks that the fail-safe client has seen run. Callbacks go by
      the serial of the request they are for. */
  datatype Link<R(==)> = Link(client: ClientModel.Client<R, nat>, seen: multiset<ClientModel.Job<R, nat>>)

  /** All connections there ever were, and where each request was last sent. */
  datatype Net<R(==)> = Net(links: seq<Link<R>>, home: map<nat, nat>)

  datatype Joint<R(==), C> = Joint(front: State<R, C>, net: Net<R>)

  // ------------------------------------------------------------------ what is sent

  datatype Sending<R> = Sending(serial: nat, request: R, load: nat)

  function LaunchSends<R, C>(c: Config, w: World, s: State<R, C>, e: Pending<R, C>): seq<Sending<R>> {
    if s.closing || w.now(s.tick) - e.start > c.timeout || e.retriesLeft == 0 then []
    else
      var choice := Choose(c, w, s.tick, s.slots);
      if Refused(c, choice) then [] else [Sending(e.serial, e.request, choice.load)]
  }

  ghost function DrainSends<R, C>(c: Config, w: World, s: State<R, C>, rest: seq<Pending<R, C>>): seq<Sending<R>>
    decreases |rest|
  {
    if rest == [] then []
    else if !Found(s, rest[0]) then DrainSends(c, w, s, rest[1..])
    else
      var r := Launch(c, w, Taken(s, rest[0]), rest[0]);
      LaunchSends(c, w, Taken(s, rest[0]), rest[0]) + if r.more then DrainSends(c, w, r.state, rest[1..]) else []
  }

  ghost function RequeueSends<R, C>(c: Config, w: World, s: State<R, C>): seq<Sending<R>> {
    DrainSends(c, w, s.(queue := []), s.queue)
  }

  ghost function StartSends<R, C>(c: Config, w: World, s: State<R, C>, request: R, closure: C, urgent: bool): seq<Sending<R>> {
    var (t, e) := Begin(c, w, s, request, closure, urgent);
    var r := Launch(c, w, t, e);
    LaunchSends(c, w, t, e) + if r.more then RequeueSends(c, w, r.state) else []
  }

  ghost function ResolveSends<R, C>(c: Config, w: World, s: State<R, C>, serial: nat, result: Result): seq<Sending<R>>
    requires serial in s.flights
  {
    var flight := s.flights[serial];
    var t := s.(flights := s.flights - {serial});
    if result != Incomplete && (s.closing || result == Okay) then
      RequeueSends(c, w, t.(slots := GivenUp(c, t.slots, flight.client, s.closing)))
    else LaunchSends(c, w, t, flight.pending)
  }

  // ------------------------------------------------------------------ where it goes

  /** The connection that is taken, a new one if the number is the next one; the id that the request
      carries; what the connection is like. */
  datatype Hop = Hop(link: nat, wish: int, connection: ClientModel.Connection)

  ghost function Opened<R>(net: Net<R>, link: nat): Net<R> {
    if link == |net.links| then net.(links := net.links + [Link(ClientModel.NewClient(), multiset{})]) else net
  }

  /** The connection has the load that was reported. One that is still to be opened has read nothing. */
  ghost predicate HopFits<R>(net: Net<R>, x: Sending<R>, hop: Hop) {
    && hop.link <= |net.links|
    && var client := Opened(net, hop.link).links[hop.link].client;
       && |client.active| + |client.waiting| == x.load
       && (hop.connection.Opening? ==> client.reading.Idle?)
  }

  ghost predicate LinkInv<R>(p: ClientModel.Params, net: Net<R>, i: nat) {
    i < |net.links| && ClientModel.Inv(p, net.links[i].client)
  }

  ghost function SentBy<R>(p: ClientModel.Params, net: Net<R>, x: Sending<R>, hop: Hop): Net<R>
    requires LinkInv(p, net, hop.link)
  {
    var link := net.links[hop.link];
    var client := ClientModel.Sent(p, link.client, x.request, x.serial, hop.wish, hop.connection);
    Net(net.links[hop.link := link.(client := client)], net.home[x.serial := hop.link])
  }

  /** Sending everything, one after the other, leads from `net` to `after`. */
  ghost predicate Carries<R(!new)>(p: ClientModel.Params, net: Net<R>, sends: seq<Sending<R>>, hops: seq<Hop>, after: Net<R>)
    decreases |sends|
  {
    && |hops| == |sends|
    && if sends == [] then after == net
       else
         && HopFits(net, sends[0], hops[0])
         && var open := Opened(net, hops[0].link);
            LinkInv(p, open, hops[0].link) ==> Carries(p, SentBy(p, open, sends[0], hops[0]), sends[1..], hops[1..], after)
  }

  // ------------------------------------------------------------------ the invariant

  /** 1 for the callback of a request that is in flight on that connection. */
  ghost function At<R, C>(flights: map<nat, Flight<R, C>>, home: map<nat, nat>, i: nat, job: ClientModel.Job<R, nat>): nat {
    var k := job.callback;
    if k in flights && k in home && home[k] == i && flights[k].pending.request == job.request then 1 else 0
  }

  /** Every callback that a connection was given has been seen to run or is that of one request in
      flight there, and none was seen that has not run. */
  ghost predicate LinkCarries<R, C>(flights: map<nat, Flight<R, C>>, net: Net<R>, i: nat, job: ClientModel.Job<R, nat>)
    requires i < |net.links|
  {
    && net.links[i].client.book.submitted[job] == net.links[i].seen[job] + At(flights, net.home, i, job)
    && net.links[i].seen[job] <= net.links[i].client.book.ran[job]
  }

  ghost predicate Carried<R(!new), C>(flights: map<nat, Flight<R, C>>, net: Net<R>) {
    && (forall k :: k in flights ==> k in net.home && net.home[k] < |net.links|)
    && (forall i, job :: 0 <= i < |net.links| ==> LinkCarries(flights, net, i, job))
  }

  ghost predicate NetInv<R(!new), C>(p: ClientModel.Params, flights: map<nat, Flight<R, C>>, net: Net<R>) {
    Carried(flights, net) && forall i :: 0 <= i < |net.links| ==> LinkInv(p, net, i)
  }

  ghost predicate JointInv<R(!new), C>(c: Config, p: ClientModel.Params, b: Joint<R, C>) {
    Inv(c, b.front, [], []) && NetInv(p, b.front.flights, b.net)
  }

  // ------------------------------------------------------------------ sending keeps it

  lemma OpenedKeeps<R(!new), C>(p: ClientModel.Params, flights: map<nat, Flight<R, C>>, net: Net<R>, link: nat)
    requires NetInv(p, flights, net)
    ensures NetInv(p, flights, Opened(net, link))
  {
    hide ClientModel.Inv;
    var n := Opened(net, link);
    if link == |net.links| {
      ClientModel.NewIsInOrder<R, nat>(p);
      forall i, job | 0 <= i < |n.links| ensures LinkCarries(flights, n, i, job) {
        assert i < link ==> LinkCarries(flights, net, i, job);
      }
      forall i | 0 <= i < |n.links| ensures LinkInv(p, n, i) {
        assert i < link ==> LinkInv(p, net, i);
      }
    }
  }

  /** No other request in flight is the same object. */
  lemma NoOtherFlight<R, C>(c: Config, s: State<R, C>, rest: seq<Pending<R, C>>, e: Pending<R, C>, hand: seq<Pending<R, C>>, k: nat)
    requires Inv(c, s, rest, [e] + hand) && k in s.flights
    ensures k != e.serial && s.flights[k].pending.request != e.request
  {
    InHandIsAlone(c, s, rest, e, hand);
    assert Places(s, rest, [e] + hand, k) == if k < s.ledger.next then 1 else 0;
  }

  /** What is in hand is outstanding on no connection. */
  lemma NotOutstanding<R(!new), C>(
    c: Config, p: ClientModel.Params, s: State<R, C>, rest: seq<Pending<R, C>>, e: Pending<R, C>, hand: seq<Pending<R, C>>,
    net: Net<R>, i: nat)
    requires Inv(c, s, rest, [e] + hand) && NetInv(p, s.flights, net) && i < |net.links|
    ensures e.request !in net.links[i].client.callbacks
  {
    hide Inv, ClientModel.Inv, ClientModel.Conserved;
    var client := net.links[i].client;
    assert LinkInv(p, net, i);
    ClientModel.InvConserves(p, client);
    if e.request in client.callbacks {
      var job := ClientModel.Job(e.request, client.callbacks[e.request]);
      ClientModel.OutstandingIsSubmitted(client, e.request);
      assert LinkCarries(s.flights, net, i, job);
      NoOtherFlight(c, s, rest, e, hand, job.callback);
    }
  }

  /** The fail-safe client sends only what may be sent: never a request whose old reply is being read
      by a connection that cannot write it at once. */
  lemma SendsWhatMayBeSent<R(!new), C>(
    c: Config, p: ClientModel.Params, s: State<R, C>, rest: seq<Pending<R, C>>, e: Pending<R, C>, hand: seq<Pending<R, C>>,
    net: Net<R>, x: Sending<R>, hop: Hop)
    requires Inv(c, s, rest, [e] + hand) && NetInv(p, s.flights, net) && x.request == e.request
    requires HopFits(net, x, hop) && x.load < p.maxConcurrent
    ensures var open := Opened(net, hop.link);
            && NetInv(p, s.flights, open) && LinkInv(p, open, hop.link)
            && ClientModel.MaySend(p, open.links[hop.link].client, x.request, x.serial, hop.connection)
  {
    hide Inv, Carried;
    var open := Opened(net, hop.link);
    OpenedKeeps(p, s.flights, net, hop.link);
    NotOutstanding(c, p, s, rest, e, hand, open, hop.link);
    assert LinkInv(p, open, hop.link);
    var client := open.links[hop.link].client;
    NotActive(p, client, x.request);
  }

  lemma NotActive<R(!new), D>(p: ClientModel.Params, client: ClientModel.Client<R, D>, r: R)
    requires ClientModel.Inv(p, client) && r !in client.callbacks
    ensures !ClientModel.IsActive(client, r)
  {
  }

  lemma SentByKeeps<R(!new), C>(p: ClientModel.Params, flights: map<nat, Flight<R, C>>, net: Net<R>, x: Sending<R>, hop: Hop, flight: Flight<R, C>)
    requires NetInv(p, flights, net) && LinkInv(p, net, hop.link) && x.serial !in flights && flight.pending.request == x.request
    requires ClientModel.MaySend(p, net.links[hop.link].client, x.request, x.serial, hop.connection)
    ensures NetInv(p, flights[x.serial := flight], SentBy(p, net, x, hop))
  {
    hide ClientModel.Inv, ClientModel.MaySend, ClientModel.Sent;
    var n, client, more := SentBy(p, net, x, hop), net.links[hop.link].client, flights[x.serial := flight];
    var sent := ClientModel.Sent(p, client, x.request, x.serial, hop.wish, hop.connection);
    ClientModel.SentKeeps(p, client, x.request, x.serial, hop.wish, hop.connection);
    ClientModel.SentSubmits(p, client, x.request, x.serial, hop.wish, hop.connection);
    ClientModel.SentRan(p, client, x.request, x.serial, hop.wish, hop.connection);
    forall i | 0 <= i < |n.links| ensures LinkInv(p, n, i) {
      assert LinkInv(p, net, i);
    }
    hide LinkInv;
    forall i, job | 0 <= i < |n.links| ensures LinkCarries(more, n, i, job) {
      assert LinkCarries(flights, net, i, job);
      OneMoreCarried(flights, net, x, hop.link, flight, sent, i, job);
    }
  }

  lemma OneMoreCarried<R, C>(
    flights: map<nat, Flight<R, C>>, net: Net<R>, x: Sending<R>, link: nat, flight: Flight<R, C>,
    sent: ClientModel.Client<R, nat>, i: nat, job: ClientModel.Job<R, nat>)
    requires i < |net.links| && link < |net.links| && LinkCarries(flights, net, i, job)
    requires x.serial !in flights && flight.pending.request == x.request
    requires var book := net.links[link].client.book;
             && sent.book.submitted == book.submitted + multiset{ClientModel.Job(x.request, x.serial)}
             && book.ran <= sent.book.ran
    ensures LinkCarries(flights[x.serial := flight],
                        Net(net.links[link := net.links[link].(client := sent)], net.home[x.serial := link]), i, job)
  {
    assert net.links[link].client.book.ran[job] <= sent.book.ran[job];
  }

  /** Launching one request, with what else is sent after it. */
  lemma LaunchCarries<R(!new), C>(
    c: Config, w: World, p: ClientModel.Params, s: State<R, C>, rest: seq<Pending<R, C>>, e: Pending<R, C>,
    hand: seq<Pending<R, C>>, net: Net<R>, more: seq<Sending<R>>, hops: seq<Hop>, after: Net<R>)
    returns (mid: Net<R>, left: seq<Hop>)
    requires Inv(c, s, rest, [e] + hand) && NetInv(p, s.flights, net) && c.maxConcurrent == p.maxConcurrent
    requires Carries(p, net, LaunchSends(c, w, s, e) + more, hops, after)
    ensures NetInv(p, Launch(c, w, s, e).state.flights, mid) && Carries(p, mid, more, left, after)
  {
    hide Inv, NetInv, HopFits, Choose;
    var sends := LaunchSends(c, w, s, e);
    if sends == [] {
      assert sends + more == more;
      mid, left := net, hops;
    } else {
      var x, hop := sends[0], hops[0];
      assert (sends + more)[0] == x && (sends + more)[1..] == more;
      var open := Opened(net, hop.link);
      SendsWhatMayBeSent(c, p, s, rest, e, hand, net, x, hop);
      InHandIsAlone(c, s, rest, e, hand);
      mid, left := SentBy(p, open, x, hop), hops[1..];
      var t := Launch(c, w, s, e).state;
      SentByKeeps(p, s.flights, open, x, hop, t.flights[e.serial]);
    }
  }

  lemma {:induction false} DrainCarries<R(!new), C>(
    c: Config, w: World, p: ClientModel.Params, s: State<R, C>, rest: seq<Pending<R, C>>, hand: seq<Pending<R, C>>,
    net: Net<R>, more: seq<Sending<R>>, hops: seq<Hop>, after: Net<R>)
    returns (mid: Net<R>, left: seq<Hop>)
    requires Inv(c, s, rest, hand) && NetInv(p, s.flights, net) && c.maxConcurrent == p.maxConcurrent
    requires Carries(p, net, DrainSends(c, w, s, rest) + more, hops, after)
    ensures NetInv(p, Drain(c, w, s, rest).flights, mid) && Carries(p, mid, more, left, after)
    decreases |rest|
  {
    hide Inv, NetInv, Launch, LaunchSends, Carries;
    if rest == [] {
      assert [] + more == more;
      mid, left := net, hops;
    } else {
      var e := rest[0];
      assert rest == [e] + rest[1..];
      DroppedKeeps(c, s, e, rest[1..], hand);
      if !Found(s, e) {
        mid, left := DrainCarries(c, w, p, s, rest[1..], hand, net, more, hops, after);
      } else {
        TakenKeeps(c, s, e, rest[1..], hand);
        LaunchKeeps(c, w, Taken(s, e), rest[1..], e, hand);
        var r, sends := Launch(c, w, Taken(s, e), e), LaunchSends(c, w, Taken(s, e), e);
        var others := if r.more then DrainSends(c, w, r.state, rest[1..]) else [];
        assert (sends + others) + more == sends + (others + more);
        mid, left := LaunchCarries(c, w, p, Taken(s, e), rest[1..], e, hand, net, others + more, hops, after);
        if r.more {
          mid, left := DrainCarries(c, w, p, r.state, rest[1..], hand, mid, more, left, after);
        } else {
          assert [] + more == more;
          FailSafeRuns.ClosingRefill(c, w, r.state, rest[1..]);
        }
      }
    }
  }

  lemma RequeueCarries<R(!new), C>(
    c: Config, w: World, p: ClientModel.Params, s: State<R, C>, hand: seq<Pending<R, C>>, net: Net<R>, hops: seq<Hop>, after: Net<R>)
    requires Inv(c, s, [], hand) && NetInv(p, s.flights, net) && c.maxConcurrent == p.maxConcurrent
    requires Carries(p, net, RequeueSends(c, w, s), hops, after)
    ensures NetInv(p, Requeue(c, w, s).flights, after)
  {
    hide Inv, NetInv, Drain, DrainSends;
    QueueInHand(c, s, hand);
    assert RequeueSends(c, w, s) + [] == RequeueSends(c, w, s);
    var mid, left := DrainCarries(c, w, p, s.(queue := []), s.queue, hand, net, [], hops, after);
  }

  lemma StartCarries<R(!new), C>(
    c: Config, w: World, p: ClientModel.Params, s: State<R, C>, request: R, closure: C, urgent: bool, net: Net<R>,
    hops: seq<Hop>, after: Net<R>)
    requires Inv(c, s, [], []) && Startable(s.ledger, request) && NetInv(p, s.flights, net) && c.maxConcurrent == p.maxConcurrent
    requires Carries(p, net, StartSends(c, w, s, request, closure, urgent), hops, after)
    ensures NetInv(p, Start(c, w, s, request, closure, urgent).flights, after)
  {
    hide Inv, NetInv, Launch, LaunchSends, Requeue, RequeueSends;
    BeginKeeps(c, w, s, request, closure, urgent);
    var (t, e) := Begin(c, w, s, request, closure, urgent);
    assert [e] + [] == [e];
    LaunchKeeps(c, w, t, [], e, []);
    var r := Launch(c, w, t, e);
    var others := if r.more then RequeueSends(c, w, r.state) else [];
    var mid, left := LaunchCarries(c, w, p, t, [], e, [], net, others, hops, after);
    if r.more {
      RequeueCarries(c, w, p, r.state, [], mid, left, after);
    }
  }

  // ------------------------------------------------------------------ callbacks that have run

  ghost function JobOf<R, C>(flights: map<nat, Flight<R, C>>, k: nat): ClientModel.Job<R, nat>
    requires k in flights
  {
    ClientModel.Job(flights[k].pending.request, k)
  }

  /** The callback of a request in flight has run and is about to be seen by the fail-safe client. */
  ghost predicate Deliverable<R, C>(b: Joint<R, C>, k: nat) {
    && k in b.front.flights && k in b.net.home && b.net.home[k] < |b.net.links|
    && var link, job := b.net.links[b.net.home[k]], JobOf(b.front.flights, k);
       link.seen[job] < link.client.book.ran[job]
  }

  ghost function SeenBy<R, C>(b: Joint<R, C>, k: nat): Net<R>
    requires Deliverable(b, k)
  {
    var i := b.net.home[k];
    var link := b.net.links[i];
    b.net.(links := b.net.links[i := link.(seen := link.seen + multiset{JobOf(b.front.flights, k)})])
  }

  lemma SeenKeeps<R(!new), C>(p: ClientModel.Params, b: Joint<R, C>, k: nat)
    requires NetInv(p, b.front.flights, b.net) && Deliverable(b, k)
    ensures NetInv(p, b.front.flights - {k}, SeenBy(b, k))
  {
    hide ClientModel.Inv;
    var net, less := SeenBy(b, k), b.front.flights - {k};
    forall i | 0 <= i < |net.links| ensures LinkInv(p, net, i) {
      assert LinkInv(p, b.net, i);
    }
    forall i, job | 0 <= i < |net.links| ensures LinkCarries(less, net, i, job) {
      assert LinkCarries(b.front.flights, b.net, i, job);
    }
  }

  lemma ResolveCarries<R(!new), C>(
    c: Config, w: World, p: ClientModel.Params, b: Joint<R, C>, k: nat, result: Result, hops: seq<Hop>, after: Net<R>)
    requires JointInv(c, p, b) && Deliverable(b, k) && c.maxConcurrent == p.maxConcurrent
    requires Carries(p, SeenBy(b, k), ResolveSends(c, w, b.front, k, result), hops, after)
    ensures NetInv(p, Resolve(c, w, b.front, k, result).flights, after)
  {
    SeenKeeps(p, b, k);
    LandedKeeps(c, b.front, [], k, []);
    hide Inv, NetInv, Requeue, RequeueSends, Launch, LaunchSends, Deliverable, SeenBy;
    var s, flight := b.front, b.front.flights[k];
    var t := s.(flights := s.flights - {k});
    assert [flight.pending] + [] == [flight.pending];
    if result != Incomplete && (s.closing || result == Okay) {
      var u := t.(slots := GivenUp(c, t.slots, flight.client, s.closing));
      TickKeeps(c, t, [], [flight.pending], u);
      RequeueCarries(c, w, p, u, [flight.pending], SeenBy(b, k), hops, after);
    } else {
      assert LaunchSends(c, w, t, flight.pending) + [] == LaunchSends(c, w, t, flight.pending);
      var mid, left := LaunchCarries(c, w, p, t, [], flight.pending, [], SeenBy(b, k), [], hops, after);
    }
  }

  // ------------------------------------------------------------------ whole runs

  /** Closing all connections, or reopening them, is a run of these: the slots are given up, the
      connections resolve what they hold, and their callbacks are seen one after the other. */
  datatype Event<R, C> =
    | Started(request: R, closure: C, urgent: bool, hops: seq<Hop>)
    | Canceled(request: R)
    | Alarm(hops: seq<Hop>)
    | Delivered(serial: nat, result: Result, hops: seq<Hop>)
    | Closing(on: bool)
    | Dropped
    | OnConnection(link: nat, event: ClientModel.Event<R, nat>)

  ghost predicate Follows<R(!new), C>(c: Config, w: World, p: ClientModel.Params, b: Joint<R, C>, e: Event<R, C>, after: Joint<R, C>) {
    var s := b.front;
    match e
    case Started(r, closure, urgent, hops) =>
      && Startable(s.ledger, r) && after.front == Start(c, w, s, r, closure, urgent)
      && Carries(p, b.net, StartSends(c, w, s, r, closure, urgent), hops, after.net)
    case Canceled(r) => after == Joint(Cancel(s, r), b.net)
    case Alarm(hops) => after.front == Requeue(c, w, s) && Carries(p, b.net, RequeueSends(c, w, s), hops, after.net)
    case Delivered(k, result, hops) =>
      && Deliverable(b, k) && after.front == Resolve(c, w, s, k, result)
      && Carries(p, SeenBy(b, k), ResolveSends(c, w, s, k, result), hops, after.net)
    case Closing(on) => after == Joint(s.(closing := on), b.net)
    case Dropped => after == Joint(s.(slots := []), b.net)
    case OnConnection(i, event) =>
      && i < |b.net.links| && !event.Send? && after == Joint(s, Moved(b.net, i, after.net))
      && ClientModel.Follows(p, b.net.links[i].client, event, after.net.links[i].client)
  }

  /** Only the client of connection `i` has changed. */
  ghost function Moved<R>(net: Net<R>, i: nat, after: Net<R>): Net<R>
    requires i < |net.links|
  {
    if i < |after.links| then net.(links := net.links[i := net.links[i].(client := after.links[i].client)]) else net
  }

  ghost predicate IsRun<R(!new), C>(
    c: Config, w: World, p: ClientModel.Params, states: seq<Joint<R, C>>, events: seq<Event<R, C>>)
  {
    && |states| == |events| + 1
    && states[0] == Joint(NewState(), Net([], map[]))
    && forall i :: 0 <= i < |events| ==> Follows(c, w, p, states[i], events[i], states[i + 1])
  }

  lemma MovedKeeps<R(!new), C>(
    p: ClientModel.Params, flights: map<nat, Flight<R, C>>, net: Net<R>, i: nat, event: ClientModel.Event<R, nat>, after: Net<R>)
    requires NetInv(p, flights, net) && i < |net.links| && after == Moved(net, i, after) && !event.Send?
    requires ClientModel.Follows(p, net.links[i].client, event, after.links[i].client)
    ensures NetInv(p, flights, after)
  {
    hide ClientModel.Inv, ClientModel.Follows;
    assert LinkInv(p, net, i);
    var client, moved := net.links[i].client, after.links[i].client;
    OneMove(p, client, event, moved);
    forall j | 0 <= j < |after.links| ensures LinkInv(p, after, j) {
      assert LinkInv(p, net, j);
    }
    hide LinkInv;
    forall j, job | 0 <= j < |after.links| ensures LinkCarries(flights, after, j, job) {
      assert LinkCarries(flights, net, j, job);
      MovedCarries(flights, net, i, moved, j, job);
    }
  }

  lemma OneMove<R, D>(p: ClientModel.Params, s: ClientModel.Client<R, D>, event: ClientModel.Event<R, D>, t: ClientModel.Client<R, D>)
    requires ClientModel.Inv(p, s) && ClientModel.Follows(p, s, event, t) && !event.Send?
    ensures ClientModel.Inv(p, t) && t.book.submitted == s.book.submitted && s.book.ran <= t.book.ran
  {
    hide ClientModel.Inv, ClientModel.Enabled, ClientModel.Apply;
    ClientModel.ApplyKeeps(p, s, event);
    ClientModel.SubmittedGrows(p, s, event, t);
    ClientModel.RanGrows(p, s, event, t);
  }

  lemma MovedCarries<R, C>(
    flights: map<nat, Flight<R, C>>, net: Net<R>, i: nat, moved: ClientModel.Client<R, nat>, j: nat, job: ClientModel.Job<R, nat>)
    requires i < |net.links| && j < |net.links| && LinkCarries(flights, net, j, job)
    requires var book := net.links[i].client.book; moved.book.submitted == book.submitted && book.ran <= moved.book.ran
    ensures LinkCarries(flights, net.(links := net.links[i := net.links[i].(client := moved)]), j, job)
  {
    assert net.links[i].client.book.ran[job] <= moved.book.ran[job];
  }

  lemma StepKeeps<R(!new), C>(c: Config, w: World, p: ClientModel.Params, b: Joint<R, C>, e: Event<R, C>, after: Joint<R, C>)
    requires JointInv(c, p, b) && Follows(c, w, p, b, e, after) && c.maxConcurrent == p.maxConcurrent
    ensures JointInv(c, p, after)
  {
    hide Inv, NetInv, Carries, Start, StartSends, Requeue, RequeueSends, ResolveSends, Deliverable;
    match e
    case Started(r, closure, urgent, hops) =>
      StartKeeps(c, w, b.front, r, closure, urgent);
      StartCarries(c, w, p, b.front, r, closure, urgent, b.net, hops, after.net);
    case Canceled(r) => CancelKeeps(c, b.front, r);
    case Alarm(hops) =>
      RequeueKeeps(c, w, b.front, []);
      RequeueCarries(c, w, p, b.front, [], b.net, hops, after.net);
    case Delivered(k, result, hops) =>
      DeliverableFlies(b, k);
      ResolveKeeps(c, w, b.front, k, result);
      ResolveCarries(c, w, p, b, k, result, hops, after.net);
    case Closing(_) => TickKeeps(c, b.front, [], [], after.front);
    case Dropped => TickKeeps(c, b.front, [], [], after.front);
    case OnConnection(i, event) => MovedKeeps(p, b.front.flights, b.net, i, event, after.net);
  }

  lemma DeliverableFlies<R, C>(b: Joint<R, C>, k: nat)
    requires Deliverable(b, k)
    ensures k in b.front.flights
  {
  }

  /** In every state of every run of the two together the fail-safe client and each of its connections
      keep their own invariants, and the connections carry exactly the requests in flight. */
  lemma {:induction false} EveryJointRunKeeps<R(!new), C>(
    c: Config, w: World, p: ClientModel.Params, states: seq<Joint<R, C>>, events: seq<Event<R, C>>, n: nat)
    requires IsRun(c, w, p, states, events) && n < |states| && c.maxConcurrent == p.maxConcurrent
    ensures JointInv(c, p, states[n])
  {
    hide Follows;
    if n == 0 {
      assert forall k: nat :: Places(NewState<R, C>(), [], [], k) == 0;
    } else {
      hide JointInv;
      EveryJointRunKeeps(c, w, p, states, events, n - 1);
      assert Follows(c, w, p, states[n - 1], events[n - 1], states[n - 1 + 1]);
      StepKeeps(c, w, p, states[n - 1], events[n - 1], states[n]);
    }
  }

  // ------------------------------------------------------------------ no flight is lost

  ghost predicate Outstanding<R, C>(b: Joint<R, C>, k: nat) {
    && k in b.front.flights && k in b.net.home && b.net.home[k] < |b.net.links|
    && var callbacks, r := b.net.links[b.net.home[k]].client.callbacks, b.front.flights[k].pending.request;
       r in callbacks && callbacks[r] == k
  }

  /** In every run each request in flight has exactly one callback with its connection: outstanding,
      due, or run and about to be seen. */
  lemma NoFlightIsLost<R(!new), C>(
    c: Config, w: World, p: ClientModel.Params, states: seq<Joint<R, C>>, events: seq<Event<R, C>>, n: nat, k: nat)
    requires IsRun(c, w, p, states, events) && n < |states| && c.maxConcurrent == p.maxConcurrent
    requires k in states[n].front.flights
    ensures var b := states[n];
            && k in b.net.home && b.net.home[k] < |b.net.links|
            && var link, job := b.net.links[b.net.home[k]], JobOf(b.front.flights, k);
               && link.seen[job] <= link.client.book.ran[job]
               && (if Outstanding(b, k) then 1 else 0) + link.client.book.due[job] + link.client.book.ran[job] - link.seen[job] == 1
  {
    var b := states[n];
    EveryJointRunKeeps(c, w, p, states, events, n);
    hide Inv, ClientModel.Inv, IsRun;
    var i := b.net.home[k];
    var client, job := b.net.links[i].client, JobOf(b.front.flights, k);
    assert LinkInv(p, b.net, i) && LinkCarries(b.front.flights, b.net, i, job);
    ClientModel.InvConserves(p, client);
    OutstandingCounts(client, job.request, k);
    assert client.book.submitted[job] == ClientModel.Outstanding(client)[job] + client.book.due[job] + client.book.ran[job];
  }

  lemma OutstandingCounts<R, D>(client: ClientModel.Client<R, D>, r: R, d: D)
    ensures ClientModel.Outstanding(client)[ClientModel.Job(r, d)] == if r in client.callbacks && client.callbacks[r] == d then 1 else 0
  {
    var jobs := set q | q in client.callbacks :: ClientModel.Job(q, client.callbacks[q]);
    assert ClientModel.Job(r, d) in jobs <==> r in client.callbacks && client.callbacks[r] == d;
  }

  // ------------------------------------------------------------------ the end

  /** A connection calls back for a request when it resolves everything. */
  ghost predicate CallsBack<R(!new)>(client: ClientModel.Client<R, nat>, k: nat) {
    exists r :: ClientModel.Job(r, k) in ClientModel.ResolveAll(client).book.due - client.book.due
  }

  /** Resolving everything calls back exactly for what is outstanding. */
  lemma OutstandingIsCalledBack<R(!new)>(p: ClientModel.Params, client: ClientModel.Client<R, nat>, k: nat)
    requires ClientModel.Inv(p, client)
    ensures CallsBack(client, k) <==> exists r :: r in client.callbacks && client.callbacks[r] == k
  {
    ResolvedJobs(p, client);
    hide ClientModel.Inv, ClientModel.ResolveAll;
    forall r: R
      ensures ClientModel.Job(r, k) in ClientModel.ResolveAll(client).book.due - client.book.due <==>
              r in client.callbacks && client.callbacks[r] == k
    {
      OutstandingCounts(client, r, k);
    }
  }

  lemma ResolvedJobs<R(!new)>(p: ClientModel.Params, client: ClientModel.Client<R, nat>)
    requires ClientModel.Inv(p, client)
    ensures ClientModel.ResolveAll(client).book.due - client.book.due == ClientModel.Outstanding(client)
  {
    ClientModel.JobsOfIsSet(client.waiting, client.callbacks);
    ClientModel.JobsSplit(client);
    hide ClientModel.Inv, ClientModel.ActiveJobs, ClientModel.JobsOf, ClientModel.JobSet;
  }

  lemma CalledBackIffOutstanding<R(!new), C>(p: ClientModel.Params, b: Joint<R, C>, order: seq<nat>, k: nat)
    requires NetInv(p, b.front.flights, b.net) && k in b.front.flights
    requires k in order <==> exists i :: 0 <= i < |b.net.links| && CallsBack(b.net.links[i].client, k)
    ensures k in order <==> Outstanding(b, k)
  {
    hide ClientModel.Inv, CallsBack;
    if Outstanding(b, k) {
      var i := b.net.home[k];
      assert LinkInv(p, b.net, i);
      OutstandingIsCalledBack(p, b.net.links[i].client, k);
    }
    if k in order {
      var i :| 0 <= i < |b.net.links| && CallsBack(b.net.links[i].client, k);
      assert LinkInv(p, b.net, i);
      OutstandingIsCalledBack(p, b.net.links[i].client, k);
      OutstandingIsInFlight(p, b, i, k);
    }
  }

  /** What is outstanding on a connection is in flight there. */
  lemma OutstandingIsInFlight<R(!new), C>(p: ClientModel.Params, b: Joint<R, C>, i: nat, k: nat)
    requires NetInv(p, b.front.flights, b.net) && i < |b.net.links|
    requires exists r :: r in b.net.links[i].client.callbacks && b.net.links[i].client.callbacks[r] == k
    ensures Outstanding(b, k)
  {
    hide ClientModel.Inv, ClientModel.Conserved;
    var client := b.net.links[i].client;
    var r :| r in client.callbacks && client.callbacks[r] == k;
    assert LinkInv(p, b.net, i) && LinkCarries(b.front.flights, b.net, i, ClientModel.Job(r, k));
    ClientModel.InvConserves(p, client);
    ClientModel.OutstandingIsSubmitted(client, r);
  }

  /** The fail-safe client is destroyed in some state of a run: its connections call back for what is
      outstanding on them. Then a request has had its closure scheduled exactly once, or was canceled,
      if and only if its callback was not already due or on its way. */
  lemma DestructionOverClients<R(!new), C>(
    c: Config, w: World, p: ClientModel.Params, states: seq<Joint<R, C>>, events: seq<Event<R, C>>, n: nat, order: seq<nat>,
    results: nat -> Result, k: nat)
    requires IsRun(c, w, p, states, events) && n < |states| && c.maxConcurrent == p.maxConcurrent
    requires forall j: nat :: j in order <==> exists i :: 0 <= i < |states[n].net.links| && CallsBack(states[n].net.links[i].client, j)
    ensures var b := states[n];
            var t := Destroyed(c, w, b.front, order, results);
            && t.ledger.next == b.front.ledger.next
            && t.ledger.done[k] + t.ledger.canceled[k] ==
               if k < b.front.ledger.next && (k in b.front.flights ==> Outstanding(b, k)) then 1 else 0
  {
    var b := states[n];
    EveryJointRunKeeps(c, w, p, states, events, n);
    hide IsRun, Inv, CallsBack;
    if k in b.front.flights {
      CalledBackIffOutstanding(p, b, order, k);
    }
    FailSafeRuns.DestructionSettles(c, w, b.front, order, results, k);
  }
}
