/** The HTTP client protocol as an object that the selector thread drives. What the parser makes
    of the incoming data, and whether connecting succeeds, are inputs. `R` names the request
    objects; the id that each of them carries is kept in a map. */
module ClientProtocolObject {
  import opened ClientModel

  const REQUEST_TIMEOUT := 4

  datatype DataResult = ReadError | NeedMore | ReadComplete

  /** The callbacks of the active requests, in whatever order the map yields them. */
  method GatherActive<R(==), C>(active: map<int, R>, callbacks: map<R, C>) returns (jobs: seq<Job<R, C>>)
    requires Injective(active) && forall id :: id in active ==> active[id] in callbacks
    ensures multiset(jobs) == multiset(ActiveJobs(active, callbacks))
  {
    jobs := [];
    var left := active.Keys;
    ghost var seen: map<int, R> := map[];
    while left != {}
      invariant left <= active.Keys && seen == active - left
      invariant multiset(jobs) == multiset(ActiveJobs(seen, callbacks))
      decreases |left|
    {
      assert (forall id :: id !in left) ==> left == {};
      var id :| id in left;
      ActiveJobsStep(seen, callbacks, id, active[id]);
      jobs := jobs + [Job(active[id], callbacks[active[id]])];
      left := left - {id};
      seen := seen[id := active[id]];
    }
    assert seen == active;
  }

  method GatherWaiting<R(==), C>(waiting: seq<R>, callbacks: map<R, C>) returns (jobs: seq<Job<R, C>>)
    requires forall r :: r in waiting ==> r in callbacks
    ensures multiset(jobs) == JobsOf(waiting, callbacks)
  {
    jobs := [];
    for i := 0 to |waiting|
      invariant multiset(jobs) + JobsOf(waiting[i..], callbacks) == JobsOf(waiting, callbacks)
    {
      assert waiting[i..][1..] == waiting[i + 1..];
      jobs := jobs + [Job(waiting[i], callbacks[waiting[i]])];
    }
  }

  class ClientProtocol<R(==, !new), C(==, !new)> {
    const p: Params
    var nextId: int
    var active: map<int, R>
    var waiting: seq<R>
    var callbacks: map<R, C>
    var ids: map<R, int>
    var reading: Reading<R>
    var parserFinal: bool
    var alive: bool
    ghost var book: Book<R, C>

    ghost function Model(): Client<R, C>
      reads this
    {
      Client(nextId, active, waiting, callbacks, ids, reading, parserFinal, alive, book)
    }

    ghost predicate Valid()
      reads this
    {
      Inv(p, Model())
    }

    constructor (p: Params)
      ensures Valid() && this.p == p && Model() == NewClient()
    {
      this.p := p;
      nextId, active, waiting, callbacks, ids := 1, map[], [], map[], map[];
      reading, parserFinal, alive := Idle, false, true;
      book := Book(multiset{}, multiset{}, multiset{});
    }

    /** The id and the place in the queue; false when the request does not get one. `carried` is the
        id that the request has already. */
    method Enqueue(request: R, callback: C, carried: int) returns (queued: bool)
      requires Valid() && alive
      modifies this
      ensures Model() == Submit(p, old(Model()), request, callback, carried)
      ensures queued == (|old(waiting)| < p.maxWaiting)
    {
      hide Agree;
      if carried > nextId {
        ids := ids[request := carried];
        nextId := carried + 1;
      } else {
        ids := ids[request := nextId];
        nextId := nextId + 1;
      }
      book := book.(submitted := book.submitted + multiset{Job(request, callback)});
      queued := |waiting| < p.maxWaiting;
      if queued {
        callbacks := callbacks[request := callback];
        waiting := waiting + [request];
      } else {
        book := book.(due := book.due + multiset{Job(request, callback)});
      }
    }

    /** Sends or queues a request. */
    method SendRequest(request: R, callback: C, carried: int, connection: Connection)
      requires Valid() && MaySend(p, Model(), request, callback, connection)
      modifies this
      ensures Valid() && Model() == Sent(p, old(Model()), request, callback, carried, connection)
    {
      hide Agree, ResolveAll, WriteAll, Resolved;
      ghost var before := Model();
      SentKeeps(p, before, request, callback, carried, connection);
      if !alive {
        var job := Job(request, callback);
        book := book.(submitted := book.submitted + multiset{job}, ran := book.ran + multiset{job});
        return;
      }
      var queued := Enqueue(request, callback, carried);
      if !queued {
        return;
      }
      match connection {
        case Refused =>
          RefusedKeeps(p, before, request, callback, carried);
          NotifyConnectionDeletion();
        case Opening =>
        case Open =>
          SubmitKeeps(p, before, request, callback, carried);
          SubmitHasIds(p, before, request, callback, carried);
          WriteRequestsToServer();
      }
    }

    method NotifyConnected()
      requires Valid() && alive
      modifies this
      ensures Valid() && Model() == WriteAll(p, old(Model()))
    {
      hide Orderly;
      OrderlyHaveIds(p, Model());
      WriteAllKeeps(p, Model());
      WriteRequestsToServer();
    }

    method WriteRequestsToServer()
      requires Orderly(p, Model()) && alive && forall r :: r in waiting ==> r in ids
      modifies `active, `waiting
      ensures Model() == WriteAll(p, old(Model()))
    {
      hide Orderly;
      while waiting != [] && |active| < p.maxConcurrent
        invariant Orderly(p, Model()) && forall r :: r in waiting ==> r in ids
        invariant WriteAll(p, Model()) == WriteAll(p, old(Model()))
        decreases |waiting|
      {
        WriteOneKeeps(p, Model());
        var current := waiting[0];
        waiting := waiting[1..];
        assert ids[current] !in active;
        active := active[ids[current] := current];
      }
    }

    /** Matches the reply being read to an active request by the id in its header. */
    method IdentifyReadingRequest(id: int)
      requires Valid() && reading == Unmatched
      modifies `reading
      ensures Valid() && Model() == Identify(old(Model()), id)
      ensures reading != Unmatched
    {
      hide Agree;
      IdentifyKeeps(p, Model(), id);
      if id != -1 && id in active {
        reading := Of(active[id]);
      } else {
        reading := Orphan;
      }
    }

    /** The reply that is coming in now. */
    method BeginReading()
      requires Valid() && alive
      modifies `reading, `parserFinal
      ensures Valid() && alive && Model() == BeginRead(p, old(Model()))
    {
      hide Placed, IdsUnique, Conserved;
      BeginReadKeeps(p, Model());
      if reading == Idle {
        parserFinal := false;
        if p.maxConcurrent == 1 && active.Keys != {} {
          assert (forall id :: id !in active) ==> active.Keys == {};
          var id :| id in active;
          OnlyActive(active, id);
          assert |active| == 1;
          reading := Of(active[id]);
        } else {
          reading := Unmatched;
        }
      } else {
        assert !parserFinal;
      }
    }

    /** Feeds the parser, whose reports are `outcomes`, and matches the reply once its header is in. */
    method ParseReply(outcomes: seq<Outcome>)
      requires Valid() && alive
      modifies `reading
      ensures Valid() && alive && Model() == IdentifyAll(old(Model()), outcomes)
    {
      hide Agree;
      assert outcomes[0..] == outcomes;
      for i := 0 to |outcomes|
        invariant Valid() && IdentifyAll(Model(), outcomes[i..]) == IdentifyAll(old(Model()), outcomes)
      {
        assert outcomes[i..][1..] == outcomes[i + 1..];
        if outcomes[i].headerRead && reading == Unmatched {
          IdentifyReadingRequest(outcomes[i].id);
        }
      }
    }

    /** The reply to `request` is complete: its callback runs. */
    method CompleteRequest(request: R)
      requires Valid() && reading == Of(request) && request in ids
      modifies `active, `callbacks, `book, `reading, `parserFinal
      ensures Valid() && Model() == Complete(old(Model()).(parserFinal := true), request)
    {
      hide Agree;
      CompleteKeeps(p, Model());
      parserFinal := true;
      active := active - {ids[request]};
      if request in callbacks {
        var callback := callbacks[request];
        callbacks := callbacks - {request};
        book := book.(ran := book.ran + multiset{Job(request, callback)});
      }
      reading := Idle;
    }

    /** One round of reading; after an error the connection must be closed. */
    method ProcessMoreData(outcomes: seq<Outcome>, final: bool, error: bool) returns (result: DataResult)
      requires Valid() && alive
      modifies `reading, `parserFinal, `active, `waiting, `callbacks, `book
      ensures result.NeedMore? == !final
      ensures !result.ReadError? ==> Valid() && Model() == Read(p, old(Model()), outcomes, final, error)
      ensures result.ReadError? ==>
                && Agree(p, Model().(alive := false)) && book.due == old(book).due
                && Deleted(Model()) == Read(p, old(Model()), outcomes, final, error)
    {
      hide Placed, IdsUnique, Conserved, ResolveAll, WriteAll;
      BeginReading();
      BeginReadKeeps(p, old(Model()));
      IdentifyAllKeeps(p, Model(), outcomes);
      IdentifyAllFrame(Model(), outcomes);
      ParseReply(outcomes);
      if !final {
        return NeedMore;
      }
      if reading.Of? {
        CompleteRequest(reading.request);
        if error {
          ClosedAgrees(p, Model());
          return ReadError;
        }
        WaitingHaveIds(p, Model());
        WriteAllKeeps(p, Model());
        WriteRequestsToServer();
        return ReadComplete;
      }
      BrokenAgrees(p, Model());
      parserFinal := true;
      return ReadError;
    }

    /** The connection has data: replies are read as long as they are complete and there is more.
        False when the connection must be closed. */
    method NotifyConnectionRead(rounds: seq<Round>) returns (keep: bool)
      requires Valid() && alive && rounds != []
      modifies `reading, `parserFinal, `active, `waiting, `callbacks, `book
      ensures keep ==> Valid() && alive && Model() == ReadMany(p, old(Model()), rounds)
      ensures !keep ==>
                && Agree(p, Model().(alive := false)) && book.due == old(book).due
                && Deleted(Model()) == ReadMany(p, old(Model()), rounds)
    {
      hide Agree, Read, ResolveAll;
      ghost var target := ReadMany(p, Model(), rounds);
      var i := 0;
      assert rounds[0..] == rounds;
      while i < |rounds|
        invariant 0 <= i <= |rounds| && Valid() && alive && book.due == old(book).due
        invariant ReadMany(p, Model(), rounds[i..]) == target
      {
        ghost var before := Model();
        var round := rounds[i];
        assert rounds[i..][0] == round && rounds[i..][1..] == rounds[i + 1..];
        ReadDue(p, before, round.outcomes, round.final, round.error);
        var result := ProcessMoreData(round.outcomes, round.final, round.error);
        if result.ReadError? {
          DeletedIsGone(Model());
          return false;
        }
        if result.NeedMore? {
          return true;
        }
        i := i + 1;
      }
      return true;
    }

    /** Broken replies, and replies to nobody, end the connection. */
    method ConnectionReadHandler(rounds: seq<Round>)
      requires Valid() && alive && rounds != []
      modifies `reading, `parserFinal, `active, `waiting, `callbacks, `book, `alive
      ensures Valid() && Model() == Resolved(ReadMany(p, old(Model()), rounds), old(book).due)
    {
      hide Agree, Read, ResolveAll, ReadMany;
      ReadManyKeeps(p, Model(), rounds);
      var keep := NotifyConnectionRead(rounds);
      if !keep {
        AgreeIsResolvable(p, Model().(alive := false));
        NotifyConnectionDeletion();
      }
    }

    /** Runs every outstanding callback. */
    method ResolveAllRequestsWithError()
      requires Resolvable(p, Model())
      modifies `active, `waiting, `callbacks, `book
      ensures Valid() && Model() == Resolved(ResolveAll(old(Model())), old(book).due)
    {
      hide Agree, ActiveJobs, JobsOf;
      ghost var before := Model();
      var jobs := GatherActive(active, callbacks);
      var more := GatherWaiting(waiting, callbacks);
      AllResolved(before, jobs + more);
      waiting, active, callbacks := [], map[], map[];
      book := ResolveAll(before).book;
      hide Resolved, AfterJobs;
      RunJobs(jobs + more);
    }

    /** Runs callbacks one after the other. */
    method RunJobs(jobs: seq<Job<R, C>>)
      requires Valid() && multiset(jobs) <= book.due
      modifies `book
      ensures Valid() && Model() == AfterJobs(old(Model()), jobs)
    {
      hide Inv, BookAfter, RunOne;
      ghost var start := Model();
      NothingRun(start, jobs[..0]);
      for i := 0 to |jobs|
        invariant book == BookAfter(start.book, jobs[..i])
      {
        BookAfterStep(start.book, jobs, i);
        book := RunOne(book, jobs[i]);
      }
      assert jobs[..|jobs|] == jobs;
      AfterJobsKeeps(p, start, jobs, |jobs|);
    }

    method NotifyConnectionDeletion()
      requires Resolvable(p, Model().(alive := false))
      modifies `active, `waiting, `callbacks, `book, `alive
      ensures Valid() && Model() == Resolved(Deleted(old(Model())), old(book).due)
    {
      hide Agree, ResolveAll, Resolved;
      alive := false;
      ResolveAllRequestsWithError();
    }

    /** A timer has fired; false when the connection has to be closed. */
    method HandleTimeout(timeoutId: int) returns (keep: bool)
      requires Valid()
      modifies `active, `callbacks, `book
      ensures Valid()
      ensures keep == !(1 <= timeoutId < REQUEST_TIMEOUT)
      ensures Model() == if timeoutId >= REQUEST_TIMEOUT then TimedOut(old(Model()), timeoutId - REQUEST_TIMEOUT)
                         else old(Model())
    {
      hide Agree;
      keep := true;
      if timeoutId >= REQUEST_TIMEOUT {
        var id := timeoutId - REQUEST_TIMEOUT;
        AgreeIsResolvable(p, Model());
        TimedOutKeeps(p, Model(), id);
        if id in active {
          var request := active[id];
          assert request in callbacks;
          var callback := callbacks[request];
          active := active - {id};
          callbacks := callbacks - {request};
          book := book.(ran := book.ran + multiset{Job(request, callback)});
        }
      } else {
        keep := !(1 <= timeoutId);
      }
    }

    /** The selector's timer event. */
    method HandleTimeoutEvent(timeoutId: int)
      requires Valid()
      modifies `active, `waiting, `callbacks, `book, `alive
      ensures Valid()
      ensures Model() == if timeoutId >= REQUEST_TIMEOUT then TimedOut(old(Model()), timeoutId - REQUEST_TIMEOUT)
                         else if timeoutId >= 1 then Resolved(Deleted(old(Model())), old(book).due)
                         else old(Model())
    {
      hide Agree;
      var keep := HandleTimeout(timeoutId);
      if !keep {
        ClosedAgrees(p, Model());
        AgreeIsResolvable(p, Model().(alive := false));
        NotifyConnectionDeletion();
      }
    }
  }
}
