/** A request that destroying the fail-safe client does not settle. */
module FailSafeWitness {
  import ClientModel
  import opened FailSafeModel
  import opened FailSafeSafety
  import opened FailSafeJoint

  const ONE_SERVER := Config(1, 10, 0, 1, 1, 1)

  /** Connections that let nothing wait. */
  const NO_QUEUE := ClientModel.Params(1, 0)

  const STILL := World((tick: nat) => 0, (tick: nat, i: nat) => true, (tick: nat, i: nat) => 0)

  const NO_LINKS: Net<int> := Net([], map[])

  /** The first request goes to a new connection. */
  lemma FirstIsSent(r: int)
    ensures var s := NewState<int, int>();
            var t := Start(ONE_SERVER, STILL, s, r, 0, false);
            && StartSends(ONE_SERVER, STILL, s, r, 0, false) == [Sending(0, r, 0)]
            && 0 in t.flights && t.flights[0].pending.request == r && t.ledger.next == 1
  {
    var s := NewState<int, int>();
    var (t, e) := Begin(ONE_SERVER, STILL, s, r, 0, false);
    assert Choose(ONE_SERVER, STILL, 0, []) == Choice([Slot(true, 0)], 0, 0) by {
      assert [] + [Slot(true, 0)] == [Slot(true, 0)];
    }
    var u := Launch(ONE_SERVER, STILL, t, e);
    assert u.more && u.state.queue == [];
    assert LaunchSends(ONE_SERVER, STILL, t, e) == [Sending(0, r, 0)];
    assert RequeueSends(ONE_SERVER, STILL, u.state) == [];
  }

  /** The connection rejects it: its callback is due, and nothing is outstanding. */
  lemma FirstIsRejected(r: int)
    ensures var net := Opened(NO_LINKS, 0);
            && LinkInv(NO_QUEUE, net, 0)
            && var after := SentBy(NO_QUEUE, net, Sending(0, r, 0), Hop(0, 0, ClientModel.Opening));
               && Carries(NO_QUEUE, NO_LINKS, [Sending(0, r, 0)], [Hop(0, 0, ClientModel.Opening)], after)
               && |after.links| == 1 && after.links[0].client.callbacks == map[]
  {
    ClientModel.NewIsInOrder<int, nat>(NO_QUEUE);
    var net := Opened(NO_LINKS, 0);
    assert net.links == [Link(ClientModel.NewClient(), multiset{})];
    hide ClientModel.Inv;
    var after := SentBy(NO_QUEUE, net, Sending(0, r, 0), Hop(0, 0, ClientModel.Opening));
    assert Carries(NO_QUEUE, after, [], [], after);
  }

  lemma RejectedRun() returns (states: seq<Joint<int, int>>, events: seq<Event<int, int>>)
    ensures IsRun(ONE_SERVER, STILL, NO_QUEUE, states, events) && |events| == 1 && |states| == 2
    ensures 0 < states[1].front.ledger.next && 0 in states[1].front.flights
    ensures |states[1].net.links| == 1 && states[1].net.links[0].client.callbacks == map[]
  {
    FirstIsSent(7);
    FirstIsRejected(7);
    hide Start, StartSends, SentBy, Opened, Carries, ClientModel.Inv;
    var front := Start(ONE_SERVER, STILL, NewState<int, int>(), 7, 0, false);
    var net := SentBy(NO_QUEUE, Opened(NO_LINKS, 0), Sending(0, 7, 0), Hop(0, 0, ClientModel.Opening));
    states := [Joint(NewState(), NO_LINKS), Joint(front, net)];
    events := [Started(7, 0, false, [Hop(0, 0, ClientModel.Opening)])];
    assert Follows(ONE_SERVER, STILL, NO_QUEUE, states[0], events[0], states[1]);
  }

  /** In such a state the client can be destroyed, and the request is neither completed nor canceled. */
  lemma RejectedIsNotSettled(results: nat -> Result)
    ensures exists states: seq<Joint<int, int>>, events: seq<Event<int, int>> ::
              && IsRun(ONE_SERVER, STILL, NO_QUEUE, states, events) && |events| == 1
              && 0 < states[1].front.ledger.next
              && (forall i :: 0 <= i < |states[1].net.links| ==> states[1].net.links[i].client.callbacks == map[])
              && var t := Destroyed(ONE_SERVER, STILL, states[1].front, [], results);
                 t.ledger.done[0] + t.ledger.canceled[0] == 0
  {
    var states, events := RejectedRun();
    hide IsRun, Destroyed;
    NotSettled(ONE_SERVER, STILL, NO_QUEUE, states, events, 1, results, 0);
  }

  /** With nothing outstanding, closing the connections resolves nothing. */
  lemma NotSettled<R(!new), C>(
    c: Config, w: World, p: ClientModel.Params, states: seq<Joint<R, C>>, events: seq<Event<R, C>>, n: nat,
    results: nat -> Result, k: nat)
    requires IsRun(c, w, p, states, events) && n < |states| && c.maxConcurrent == p.maxConcurrent
    requires k in states[n].front.flights
    requires forall i :: 0 <= i < |states[n].net.links| ==> states[n].net.links[i].client.callbacks == map[]
    ensures var t := Destroyed(c, w, states[n].front, [], results); t.ledger.done[k] + t.ledger.canceled[k] == 0
  {
    EveryJointRunKeeps(c, w, p, states, events, n);
    var b := states[n];
    assert !Outstanding(b, k);
    hide Inv, IsRun, ClientModel.Inv, Destroyed, CallsBack, Outstanding;
    forall j: nat, i | 0 <= i < |b.net.links| ensures !CallsBack(b.net.links[i].client, j) {
      assert LinkInv(p, b.net, i);
      OutstandingIsCalledBack(p, b.net.links[i].client, j);
    }
    DestructionOverClients(c, w, p, states, events, n, [], results, k);
  }
}
