/** The fail-safe client as an object. The clock and the connections are asked through `w`; the
    callbacks bound to a request in flight are entries of `flights`. */
module FailSafeClientObject {
  import opened FailSafeModel
  import opened FailSafeSafety
  import opened FailSafeRuns

  class FailSafeClient<R(==, !new), C(==, !new)> {
    const c: Config
    const w: World
    var queue: seq<Pending<R, C>>
    var pending: map<R, nat>
    var flights: map<nat, Flight<R, C>>
    var slots: seq<Slot>
    var closing: bool
    var ledger: Ledger<R, C>
    var tick: nat

    ghost function Model(): State<R, C>
      reads this
    {
      State(queue, pending, flights, slots, closing, ledger, tick)
    }

    ghost predicate Valid()
      reads this
    {
      Inv(c, Model(), [], [])
    }

    constructor (c: Config, w: World)
      requires c.servers >= 1
      ensures Valid() && this.c == c && this.w == w && Model() == NewState()
    {
      this.c, this.w := c, w;
      queue, pending, flights, slots := [], map[], map[], [];
      closing, tick := false, 0;
      ledger := Ledger(0, Records(map[], map[]), multiset{}, multiset{});
    }

    /** Picks the least loaded connection; dead ones are reopened after a while, and new ones are
        opened while there are servers without one. */
    method ChooseClient() returns (slot: int, load: nat)
      modifies `slots
      ensures Choose(c, w, tick, old(slots)) == Choice(slots, slot, load)
    {
      ghost var scanned := ScanFrom(c, w, tick, 0, Choice(slots, -1, 0));
      slot, load := -1, 0;
      for i := 0 to |slots|
        invariant |slots| == |old(slots)|
        invariant ScanFrom(c, w, tick, i, Choice(slots, slot, load)) == scanned
      {
        if slots[i].open && w.alive(tick, i) {
          var l := w.load(tick, i);
          if l < load || slot < 0 {
            slot, load := i, l;
          }
        } else {
          var death := slots[i].death;
          if w.now(tick) - death > c.reopenInterval && death > 0 {
            slots := slots[i := Slot(true, w.now(tick))];
            slot, load := i, 0;
          } else {
            slots := slots[i := Slot(false, if death == 0 then w.now(tick) else death)];
          }
        }
      }
      if (slot < 0 || load > 0) && |slots| < c.servers {
        slot, load := |slots|, 0;
        slots := slots + [Slot(true, 0)];
      }
    }

    method CompleteWithError(serial: nat)
      modifies `ledger
      ensures Model() == Completed(old(Model()), serial)
    {
      ledger := ledger.(done := ledger.done + multiset{serial});
    }

    /** Completes, sends or queues a request; true when others may be tried after it. */
    method InternalStartRequest(e: Pending<R, C>) returns (more: bool)
      modifies this
      ensures Launch(c, w, old(Model()), e) == Outcome(Model(), more)
    {
      var now := w.now(tick);
      if closing {
        tick := tick + 1;
        CompleteWithError(e.serial);
        return false;
      }
      if now - e.start > c.timeout || e.retriesLeft == 0 {
        tick := tick + 1;
        CompleteWithError(e.serial);
        return true;
      }
      var slot, load := ChooseClient();
      tick := tick + 1;
      if slot < 0 || (load > 0 && c.keepAlive == 0) || load >= c.maxConcurrent {
        if e.request !in pending {
          pending := pending[e.request := e.serial];
        }
        queue := if e.urgent then [e] + queue else queue + [e];
        return false;
      }
      var sent := e;
      if e.retriesLeft > 0 {
        sent := e.(retriesLeft := e.retriesLeft - 1);
      }
      ledger := ledger.(records := Recorded(ledger.records, e.serial));
      flights := flights[e.serial := Flight(sent, slot)];
      return true;
    }

    /** Tries all queued requests again; those that do not fit stay queued in order. `hand` holds
        the request being completed, if any. */
    method RequeuePending(ghost hand: seq<Pending<R, C>>)
      requires Inv(c, Model(), [], hand)
      modifies this
      ensures Model() == Requeue(c, w, old(Model())) && Inv(c, Model(), [], hand)
    {
      hide Inv, Launch;
      RequeueKeeps(c, w, Model(), hand);
      if queue == [] {
        EmptyQueueNothingPending(c, Model(), hand);
        assert pending == map[];
        return;
      }
      ghost var target := Requeue(c, w, Model());
      var rest := queue;
      queue := [];
      var more := true;
      while rest != [] && more
        invariant (if more then Drain(c, w, Model(), rest) else Refill(c, w, Model(), rest)) == target
        decreases |rest|
      {
        var first := rest[0];
        rest := rest[1..];
        if !first.canceled && first.request in pending {
          pending := pending - {first.request};
          more := InternalStartRequest(first);
        }
      }
      while rest != []
        invariant Refill(c, w, Model(), rest) == target
        decreases |rest|
      {
        var e := rest[0];
        rest := rest[1..];
        if !e.canceled && e.request in pending {
          if w.now(tick) - e.start > c.timeout {
            pending := pending - {e.request};
            CompleteWithError(e.serial);
          } else {
            queue := queue + [e];
          }
        }
      }
    }

    method StartRequestWithUrgency(request: R, closure: C, urgent: bool)
      requires Valid() && Startable(ledger, request)
      modifies this
      ensures Valid() && Model() == Start(c, w, old(Model()), request, closure, urgent)
    {
      hide Inv, Launch;
      StartKeeps(c, w, Model(), request, closure, urgent);
      BeginKeeps(c, w, Model(), request, closure, urgent);
      var e := Pending(ledger.next, w.now(tick), c.numRetries, request, closure, urgent, false);
      var records := Records(ledger.records.jobs[ledger.next := Job(request, closure)], ledger.records.sends[ledger.next := 0]);
      ledger := ledger.(next := ledger.next + 1, records := records);
      assert [e] + [] == [e];
      LaunchKeeps(c, w, Model(), [], e, []);
      var more := InternalStartRequest(e);
      if more {
        RequeuePending([]);
      }
    }

    /** Only queued requests can be canceled. */
    method CancelRequest(request: R) returns (canceled: bool)
      requires Valid()
      modifies `queue, `pending, `ledger
      ensures Valid() && Model() == Cancel(old(Model()), request) && canceled == (request in old(pending))
    {
      hide Inv;
      CancelKeeps(c, Model(), request);
      canceled := request in pending;
      if canceled {
        var serial := pending[request];
        queue := Marked(queue, serial);
        pending := pending - {request};
        ledger := ledger.(canceled := ledger.canceled + multiset{serial});
      }
    }

    method RequeuePendingAlarm()
      requires Valid()
      modifies this
      ensures Valid() && Model() == Requeue(c, w, old(Model()))
    {
      RequeuePending([]);
    }

    /** A connection is done with a request: complete it, or try again elsewhere. */
    method CompletionCallback(serial: nat, result: Result)
      requires Valid() && serial in flights
      modifies this
      ensures Valid() && Model() == Resolve(c, w, old(Model()), serial, result)
    {
      ResolveKeeps(c, w, Model(), serial, result);
      LandedKeeps(c, Model(), [], serial, []);
      var e, client := flights[serial].pending, flights[serial].client;
      assert !e.canceled && [e] + [] == [e];
      hide Inv, Launch, Requeue;
      flights := flights - {serial};
      if result != Incomplete && (closing || result == Okay) {
        ghost var landed := Model();
        if c.keepAlive == 0 && client < |slots| && slots[client].open && !closing {
          slots := slots[client := Slot(false, 0)];
        }
        TickKeeps(c, landed, [], [e], Model());
        RequeuePending([e]);
        CompleteWithError(serial);
      } else {
        var more := InternalStartRequest(e);
      }
    }

    /** Each connection resolves what it holds; `order` says in which order. */
    method ResolveAll(order: seq<nat>, results: nat -> Result)
      requires Valid()
      modifies this
      ensures Valid() && Model() == ResolveEach(c, w, old(Model()), order, results)
    {
      hide Inv, Resolve;
      assert order[0..] == order;
      for i := 0 to |order|
        invariant Valid() && ResolveEach(c, w, Model(), order[i..], results) == ResolveEach(c, w, old(Model()), order, results)
      {
        assert order[i..][0] == order[i] && order[i..][1..] == order[i + 1..];
        if order[i] in flights {
          CompletionCallback(order[i], results(order[i]));
        }
      }
    }

    method ForceCloseAll(order: seq<nat>, results: nat -> Result)
      requires Valid() && forall k :: k in flights ==> k in order
      modifies this
      ensures Valid() && Model() == CloseAll(c, w, old(Model()), order, results) && flights == map[]
    {
      hide Inv, ResolveEach;
      CloseAllKeeps(c, w, Model(), order, results);
      TickKeeps(c, Model(), [], [], Model().(closing := true));
      ClosingResolves(c, w, Model().(closing := true), order, results);
      var wasClosing := closing;
      closing := true;
      ResolveAll(order, results);
      slots := [];
      closing := wasClosing;
    }

    method ResetConnections(order: seq<nat>)
      requires Valid()
      modifies this
      ensures Valid() && Model() == Reset(c, w, old(Model()), order)
    {
      hide Inv, ResolveEach;
      TickKeeps(c, Model(), [], [], Model().(slots := []));
      slots := [];
      ResolveAll(order, (k: nat) => Failed);
    }

    /** What the destructor does. */
    method Destroy(order: seq<nat>, results: nat -> Result)
      requires Valid() && forall k :: k in flights ==> k in order
      modifies this
      ensures Model() == Destroyed(c, w, old(Model()), order, results) && flights == map[]
      ensures ledger.next == old(ledger).next
      ensures forall k: nat :: ledger.done[k] + ledger.canceled[k] == if k < ledger.next then 1 else 0
    {
      hide Inv, ResolveEach;
      forall k: nat ensures var t := Destroyed(c, w, Model(), order, results);
                            && t.ledger.next == ledger.next
                            && t.ledger.done[k] + t.ledger.canceled[k] == if k < ledger.next then 1 else 0 {
        DestructionSettlesAll(c, w, Model(), order, results, k);
      }
      TickKeeps(c, Model(), [], [], Model().(closing := true));
      closing := true;
      ForceCloseAll(order, results);
      var left := queue;
      queue, pending := [], map[];
      ghost var target := Finished(Model(), left);
      FinishedSettles(Model(), left, 0);
      while left != []
        invariant Finished(Model(), left) == target
        decreases |left|
      {
        if !left[0].canceled {
          CompleteWithError(left[0].serial);
        }
        left := left[1..];
      }
    }
  }
}
