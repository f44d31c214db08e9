/** The HTTP client protocol as a value: requests wait, become active and are resolved. `R` names
    the request objects and `C` the callbacks. The book keeps what was submitted, which callbacks
    are about to run, and which have run. */
module ClientModel {
  import opened Collections

  datatype Job<R, C> = Job(request: R, callback: C)

  /** What is being read: nothing, a reply not yet matched to a request, one that matches none,
      or the reply to a request. */
  datatype Reading<R> = Idle | Unmatched | Orphan | Of(request: R)

  datatype Book<R(==), C(==)> = Book(submitted: multiset<Job<R, C>>, due: multiset<Job<R, C>>, ran: multiset<Job<R, C>>)

  datatype Client<R(==), C(==)> = Client(
    nextId: int,
    active: map<int, R>,     // sent to the server, by id
    waiting: seq<R>,
    callbacks: map<R, C>,
    ids: map<R, int>,        // the id of every request that was given one
    reading: Reading<R>,
    parserFinal: bool,
    alive: bool,             // the connection has not been deleted
    book: Book<R, C>)

  datatype Params = Params(maxConcurrent: nat, maxWaiting: nat)

  ghost function NewClient<R, C>(): Client<R, C> {
    Client(1, map[], [], map[], map[], Idle, false, true, Book(multiset{}, multiset{}, multiset{}))
  }

  // ------------------------------------------------------------------ steps

  /** The first part of sending: an id, and a place in the queue unless it is full. `wish` is the
      id the request carries already. */
  ghost function Submit<R, C>(p: Params, s: Client<R, C>, r: R, c: C, wish: int): Client<R, C> {
    var book := s.book.(submitted := s.book.submitted + multiset{Job(r, c)});
    if !s.alive then s.(book := book.(ran := book.ran + multiset{Job(r, c)}))
    else
      var id := if wish > s.nextId then wish else s.nextId;
      var t := s.(nextId := id + 1, ids := s.ids[r := id]);
      if |s.waiting| >= p.maxWaiting then t.(book := book.(due := book.due + multiset{Job(r, c)}))
      else t.(callbacks := s.callbacks[r := c], waiting := s.waiting + [r], book := book)
  }

  /** The first waiting request becomes active. */
  ghost function WriteOne<R, C>(s: Client<R, C>): Client<R, C>
    requires s.waiting != [] && s.waiting[0] in s.ids
  {
    s.(active := s.active[s.ids[s.waiting[0]] := s.waiting[0]], waiting := s.waiting[1..])
  }

  ghost predicate MayWrite<R, C>(p: Params, s: Client<R, C>) {
    s.waiting != [] && |s.active| < p.maxConcurrent
  }

  ghost function WriteAll<R, C>(p: Params, s: Client<R, C>): Client<R, C>
    requires forall r :: r in s.waiting ==> r in s.ids
    decreases |s.waiting|
  {
    if s.waiting != [] && |s.active| < p.maxConcurrent then WriteAll(p, WriteOne(s)) else s
  }

  ghost function AnyActive<R>(active: map<int, R>): (r: R)
    requires exists id :: id in active
    ensures r in active.Values
  {
    var id :| id in active;
    active[id]
  }

  /** Data arrives: with one request at a time the reply must be for it, otherwise it has to say. */
  ghost function BeginRead<R, C>(p: Params, s: Client<R, C>): Client<R, C> {
    if s.reading != Idle then s
    else if p.maxConcurrent == 1 && (exists id :: id in s.active) then
      s.(parserFinal := false, reading := Of(AnyActive(s.active)))
    else s.(parserFinal := false, reading := Unmatched)
  }

  /** The header of an unmatched reply names a request id; -1 stands for none. */
  ghost function Identify<R, C>(s: Client<R, C>, id: int): Client<R, C> {
    s.(reading := if id != -1 && id in s.active then Of(s.active[id]) else Orphan)
  }

  /** What one call of the parser reports. */
  datatype Outcome = Outcome(headerRead: bool, id: int)

  ghost function IdentifyAll<R, C>(s: Client<R, C>, outcomes: seq<Outcome>): Client<R, C>
    decreases |outcomes|
  {
    if outcomes == [] then s
    else
      var t := if outcomes[0].headerRead && s.reading == Unmatched then Identify(s, outcomes[0].id) else s;
      IdentifyAll(t, outcomes[1..])
  }

  /** A callback leaves the map to be run. */
  ghost function RunCallback<R, C>(s: Client<R, C>, r: R): Client<R, C> {
    if r !in s.callbacks then s
    else s.(callbacks := s.callbacks - {r}, book := s.book.(ran := s.book.ran + multiset{Job(r, s.callbacks[r])}))
  }

  /** The reply to `r` is complete. */
  ghost function Complete<R, C>(s: Client<R, C>, r: R): Client<R, C>
    requires r in s.ids
  {
    RunCallback(s.(active := s.active - {s.ids[r]}, reading := Idle), r)
  }

  ghost function TimedOut<R, C>(s: Client<R, C>, id: int): Client<R, C> {
    if id !in s.active then s
    else RunCallback(s.(active := s.active - {id}), s.active[id])
  }

  ghost function ActiveJobs<R, C>(active: map<int, R>, callbacks: map<R, C>): set<Job<R, C>> {
    set id | id in active && active[id] in callbacks :: Job(active[id], callbacks[active[id]])
  }

  ghost function JobsOf<R, C>(queue: seq<R>, callbacks: map<R, C>): multiset<Job<R, C>> {
    if queue == [] then multiset{}
    else (if queue[0] in callbacks then multiset{Job(queue[0], callbacks[queue[0]])} else multiset{})
         + JobsOf(queue[1..], callbacks)
  }

  /** All requests are taken out; the callbacks of the active and of the waiting ones are due. */
  ghost function ResolveAll<R, C>(s: Client<R, C>): Client<R, C> {
    s.(active := map[], waiting := [], callbacks := map[],
       book := s.book.(due := s.book.due + multiset(ActiveJobs(s.active, s.callbacks)) + JobsOf(s.waiting, s.callbacks)))
  }

  /** The callbacks that were not due before have been run. */
  ghost function Resolved<R, C>(s: Client<R, C>, due: multiset<Job<R, C>>): Client<R, C> {
    s.(book := s.book.(due := due, ran := s.book.ran + (s.book.due - due)))
  }

  ghost function Deleted<R, C>(s: Client<R, C>): Client<R, C> {
    ResolveAll(s.(alive := false))
  }

  ghost function RunOne<R, C>(b: Book<R, C>, job: Job<R, C>): Book<R, C> {
    b.(due := b.due - multiset{job}, ran := b.ran + multiset{job})
  }

  ghost function RunDue<R, C>(s: Client<R, C>, job: Job<R, C>): Client<R, C> {
    s.(book := RunOne(s.book, job))
  }

  /** The parser has no more data, or is done. A reply that is broken or matches nothing ends the
      connection. */
  ghost function EndRead<R, C>(p: Params, s: Client<R, C>, final: bool, error: bool): Client<R, C>
    requires Inv(p, s)
  {
    if !final then s
    else if s.reading.Of? then
      var t := Complete(s.(parserFinal := true), s.reading.request);
      CompleteKeeps(p, s);
      if error then Deleted(t) else WriteAll(p, t)
    else Deleted(s.(parserFinal := true))
  }

  ghost function Read<R, C>(p: Params, s: Client<R, C>, outcomes: seq<Outcome>, final: bool, error: bool): Client<R, C>
    requires Inv(p, s)
  {
    BeginReadKeeps(p, s);
    IdentifyAllKeeps(p, BeginRead(p, s), outcomes);
    EndRead(p, IdentifyAll(BeginRead(p, s), outcomes), final, error)
  }

  // ------------------------------------------------------------------ the invariant

  /** Ids are unique, positive and below the next one. */
  ghost predicate IdsUnique<R, C>(s: Client<R, C>) {
    && s.nextId >= 1
    && (forall r :: r in s.ids ==> 1 <= s.ids[r] < s.nextId)
    && (forall q, r :: q in s.ids && r in s.ids && q != r ==> s.ids[q] != s.ids[r])
  }

  /** The callback map holds exactly the active and the waiting requests, and none is both. */
  ghost predicate Placed<R, C>(s: Client<R, C>) {
    && (forall id :: id in s.active ==>
          && s.active[id] in s.ids && s.ids[s.active[id]] == id
          && s.active[id] in s.callbacks && s.active[id] !in s.waiting)
    && (forall r :: r in s.waiting ==> r in s.callbacks && r in s.ids && s.ids[r] !in s.active)
    && (forall r :: r in s.callbacks ==> r in s.waiting || (r in s.ids && s.ids[r] in s.active && s.active[s.ids[r]] == r))
    && Distinct(s.waiting)
  }

  /** What is being read was sent, and the parser has not finished with it. */
  ghost predicate ReadingSane<R, C>(s: Client<R, C>) {
    && (s.reading.Of? ==> s.reading.request in s.ids)
    && (s.alive && s.reading != Idle ==> !s.parserFinal)
  }

  /** What is being read is not waiting to be sent. */
  ghost predicate NotQueued<R, C>(s: Client<R, C>) {
    s.reading.Of? ==> s.reading.request !in s.waiting
  }

  ghost function Outstanding<R, C>(s: Client<R, C>): multiset<Job<R, C>> {
    multiset(set r | r in s.callbacks :: Job(r, s.callbacks[r]))
  }

  /** Conservation: every submitted callback is in the map, due, or has run. */
  ghost predicate Conserved<R, C>(s: Client<R, C>) {
    s.book.submitted == Outstanding(s) + s.book.due + s.book.ran
  }

  ghost predicate Orderly<R, C>(p: Params, s: Client<R, C>) {
    && IdsUnique(s) && Placed(s) && ReadingSane(s) && Conserved(s)
    && |s.active| <= p.maxConcurrent && |s.waiting| <= p.maxWaiting
  }

  ghost predicate Agree<R, C>(p: Params, s: Client<R, C>) {
    Orderly(p, s) && NotQueued(s)
  }

  /** The maps agree, and a client without a connection has nothing outstanding. */
  ghost predicate Inv<R, C>(p: Params, s: Client<R, C>) {
    Agree(p, s) && (!s.alive ==> s.callbacks == map[])
  }

  // ------------------------------------------------------------------ every step keeps it

  lemma NewOutstanding<R, C>(s: Client<R, C>, t: Client<R, C>, r: R, c: C)
    requires r !in s.callbacks && t.callbacks == s.callbacks[r := c]
    ensures Outstanding(t) == Outstanding(s) + multiset{Job(r, c)}
  {
    var were := set q | q in s.callbacks :: Job(q, s.callbacks[q]);
    var now := set q | q in t.callbacks :: Job(q, t.callbacks[q]);
    assert Job(r, c) !in were;
    forall j | j in now ensures j in were + {Job(r, c)} {
      assert j.request == r || j == Job(j.request, s.callbacks[j.request]);
    }
    forall j | j in were + {Job(r, c)} ensures j in now {
      assert j == Job(j.request, t.callbacks[j.request]);
    }
    assert now == were + {Job(r, c)};
  }

  lemma SubmitKeeps<R, C>(p: Params, s: Client<R, C>, r: R, c: C, wish: int)
    requires Inv(p, s) && r !in s.callbacks
    ensures var t := Submit(p, s, r, c, wish);
            && Orderly(p, t) && (!t.alive ==> t.callbacks == map[])
            && (t.waiting == s.waiting || s.reading != Of(r) ==> Inv(p, t))
  {
    hide Outstanding;
    var t := Submit(p, s, r, c, wish);
    SubmitConserves(p, s, r, c, wish);
    hide Conserved;
    SubmitNumbers(p, s, r, c, wish);
    hide IdsUnique;
    SubmitPlaces(p, s, r, c, wish);
    hide Placed;
  }

  lemma SubmitPlaces<R, C>(p: Params, s: Client<R, C>, r: R, c: C, wish: int)
    requires Placed(s) && r !in s.callbacks
    requires s.alive ==> Submit(p, s, r, c, wish).ids[r] !in s.active
    ensures Placed(Submit(p, s, r, c, wish))
    ensures Submit(p, s, r, c, wish).waiting == s.waiting || Submit(p, s, r, c, wish).waiting == s.waiting + [r]
  {
    assert r !in s.waiting;
    assert forall id :: id in s.active ==> s.active[id] != r;
    if s.alive && |s.waiting| < p.maxWaiting {
      QueuedPlaces(s, Submit(p, s, r, c, wish), r, c);
    }
  }

  lemma QueuedPlaces<R, C>(s: Client<R, C>, t: Client<R, C>, r: R, c: C)
    requires Placed(s) && r !in s.callbacks && r !in s.waiting && (forall id :: id in s.active ==> s.active[id] != r)
    requires r in t.ids && t.ids == s.ids[r := t.ids[r]] && t.ids[r] !in s.active && t.active == s.active
    requires t.callbacks == s.callbacks[r := c] && t.waiting == s.waiting + [r]
    ensures Placed(t)
  {
  }

  lemma SubmitNumbers<R, C>(p: Params, s: Client<R, C>, r: R, c: C, wish: int)
    requires IdsUnique(s) && Placed(s)
    ensures var t := Submit(p, s, r, c, wish);
            && IdsUnique(t)
            && (s.alive ==> t.ids[r] >= s.nextId && t.ids[r] !in s.active)
  {
    assert forall id :: id in s.active ==> id < s.nextId;
  }

  lemma SubmitConserves<R, C>(p: Params, s: Client<R, C>, r: R, c: C, wish: int)
    requires Conserved(s) && r !in s.callbacks
    ensures Conserved(Submit(p, s, r, c, wish))
  {
    var t := Submit(p, s, r, c, wish);
    if s.alive && |s.waiting| < p.maxWaiting {
      NewOutstanding(s, t, r, c);
    } else {
      assert Outstanding(t) == Outstanding(s);
    }
  }

  lemma {:induction false} WriteAllKeeps<R, C>(p: Params, s: Client<R, C>)
    requires Orderly(p, s)
    ensures Orderly(p, WriteAll(p, s)) && (NotQueued(s) ==> NotQueued(WriteAll(p, s)))
    ensures WriteAll(p, s).alive == s.alive
    decreases |s.waiting|
  {
    hide Orderly;
    OrderlyHaveIds(p, s);
    if MayWrite(p, s) {
      WriteOneKeeps(p, s);
      WriteAllKeeps(p, WriteOne(s));
    }
  }

  lemma OrderlyHaveIds<R, C>(p: Params, s: Client<R, C>)
    requires Orderly(p, s)
    ensures forall r :: r in s.waiting ==> r in s.ids
  {
  }

  lemma WriteOneKeeps<R, C>(p: Params, s: Client<R, C>)
    requires Orderly(p, s) && MayWrite(p, s)
    ensures Orderly(p, WriteOne(s)) && s.ids[s.waiting[0]] !in s.active
  {
    var t := WriteOne(s);
    var r := s.waiting[0];
    assert s.waiting == [r] + t.waiting;
    assert r !in t.waiting && Distinct(t.waiting);
    assert Outstanding(t) == Outstanding(s);
  }

  lemma BeginReadKeeps<R, C>(p: Params, s: Client<R, C>)
    requires Inv(p, s)
    ensures Inv(p, BeginRead(p, s))
  {
    assert Outstanding(BeginRead(p, s)) == Outstanding(s);
  }

  lemma IdentifyKeeps<R, C>(p: Params, s: Client<R, C>, id: int)
    requires Inv(p, s) && s.reading == Unmatched
    ensures Inv(p, Identify(s, id))
  {
    assert Outstanding(Identify(s, id)) == Outstanding(s);
  }

  lemma {:induction false} IdentifyAllKeeps<R, C>(p: Params, s: Client<R, C>, outcomes: seq<Outcome>)
    requires Inv(p, s)
    ensures Inv(p, IdentifyAll(s, outcomes))
    decreases |outcomes|
  {
    if outcomes != [] {
      if outcomes[0].headerRead && s.reading == Unmatched {
        IdentifyKeeps(p, s, outcomes[0].id);
      }
      IdentifyAllKeeps(p, if outcomes[0].headerRead && s.reading == Unmatched then Identify(s, outcomes[0].id) else s, outcomes[1..]);
    }
  }

  lemma RunCallbackConserves<R, C>(s: Client<R, C>, r: R)
    requires Conserved(s)
    ensures Conserved(RunCallback(s, r))
  {
    if r in s.callbacks {
      var t := RunCallback(s, r);
      assert s.callbacks == t.callbacks[r := s.callbacks[r]];
      NewOutstanding(t, s, r, s.callbacks[r]);
    }
  }

  lemma CompleteKeeps<R, C>(p: Params, s: Client<R, C>)
    requires Inv(p, s) && s.reading.Of?
    ensures Inv(p, Complete(s.(parserFinal := true), s.reading.request))
  {
    var r := s.reading.request;
    var u := s.(parserFinal := true, active := s.active - {s.ids[r]}, reading := Idle);
    assert Outstanding(u) == Outstanding(s);
    RunCallbackConserves(u, r);
    var t := RunCallback(u, r);
    assert r !in s.callbacks ==> s.ids[r] !in s.active;
    forall id | id in t.active ensures id in s.active && s.active[id] != r {
    }
    assert |t.active| <= |s.active|;
  }

  lemma TimedOutKeeps<R, C>(p: Params, s: Client<R, C>, id: int)
    requires Inv(p, s)
    ensures Inv(p, TimedOut(s, id))
  {
    if id in s.active {
      var u := s.(active := s.active - {id});
      assert Outstanding(u) == Outstanding(s);
      RunCallbackConserves(u, s.active[id]);
    }
  }

  ghost function JobSet<R, C>(queue: seq<R>, callbacks: map<R, C>): set<Job<R, C>> {
    set r | r in queue && r in callbacks :: Job(r, callbacks[r])
  }

  lemma JobSetStep<R, C>(r: R, rest: seq<R>, callbacks: map<R, C>)
    requires r in callbacks && r !in rest
    ensures JobSet([r] + rest, callbacks) == {Job(r, callbacks[r])} + JobSet(rest, callbacks)
    ensures Job(r, callbacks[r]) !in JobSet(rest, callbacks)
  {
    var whole := JobSet([r] + rest, callbacks);
    forall j | j in {Job(r, callbacks[r])} + JobSet(rest, callbacks) ensures j in whole {
      assert j.request in [r] + rest && j == Job(j.request, callbacks[j.request]);
    }
  }

  lemma {:induction false} JobsOfIsSet<R, C>(queue: seq<R>, callbacks: map<R, C>)
    requires Distinct(queue) && forall r :: r in queue ==> r in callbacks
    ensures JobsOf(queue, callbacks) == multiset(JobSet(queue, callbacks))
  {
    if queue != [] {
      var rest := queue[1..];
      assert queue == [queue[0]] + rest;
      assert forall i :: 0 <= i < |rest| ==> rest[i] == queue[i + 1];
      JobsOfIsSet(rest, callbacks);
      JobSetStep(queue[0], rest, callbacks);
      hide JobSet;
    }
  }

  /** The jobs of the callback map are those of the active and of the waiting requests. */
  lemma JobsSplit<R, C>(s: Client<R, C>)
    requires Placed(s)
    ensures ActiveJobs(s.active, s.callbacks) !! JobSet(s.waiting, s.callbacks)
    ensures (set r | r in s.callbacks :: Job(r, s.callbacks[r])) == ActiveJobs(s.active, s.callbacks) + JobSet(s.waiting, s.callbacks)
  {
    var waitingJobs := JobSet(s.waiting, s.callbacks);
    var jobs := set r | r in s.callbacks :: Job(r, s.callbacks[r]);
    forall j | j in jobs ensures j in ActiveJobs(s.active, s.callbacks) + waitingJobs {
      var r := j.request;
      assert r in s.callbacks && j == Job(r, s.callbacks[r]);
      if r !in s.waiting {
        var id := s.ids[r];
        assert id in s.active && s.active[id] == r;
      }
    }
    assert jobs == ActiveJobs(s.active, s.callbacks) + waitingJobs;
  }

  lemma ResolveAllConserves<R, C>(s: Client<R, C>)
    requires Placed(s) && Conserved(s)
    ensures Conserved(ResolveAll(s)) && ResolveAll(s).book.submitted == s.book.submitted
  {
    JobsOfIsSet(s.waiting, s.callbacks);
    JobsSplit(s);
    hide Placed, ActiveJobs, JobsOf, JobSet;
    assert Outstanding(ResolveAll(s)) == multiset{};
  }

  lemma ResolveAllKeeps<R, C>(p: Params, s: Client<R, C>)
    requires Agree(p, s)
    ensures Inv(p, ResolveAll(s)) && ResolveAll(s).book.submitted == s.book.submitted
    ensures Inv(p, Deleted(s)) && Deleted(s).book.submitted == s.book.submitted
  {
    hide Placed, Conserved, ActiveJobs, JobsOf;
    ResolveAllConserves(s);
    EmptyIsPlaced(ResolveAll(s));
    DeletedIsResolved(s);
    EmptyIsPlaced(Deleted(s));
  }

  lemma BrokenAgrees<R, C>(p: Params, s: Client<R, C>)
    requires Inv(p, s)
    ensures Agree(p, s.(alive := false, parserFinal := true))
  {
    assert Outstanding(s.(alive := false, parserFinal := true)) == Outstanding(s);
  }

  lemma ClosedAgrees<R, C>(p: Params, s: Client<R, C>)
    requires Inv(p, s)
    ensures Agree(p, s.(alive := false))
  {
    assert Outstanding(s.(alive := false)) == Outstanding(s);
  }

  lemma EmptyIsPlaced<R, C>(s: Client<R, C>)
    requires s.active == map[] && s.waiting == [] && s.callbacks == map[]
    ensures Placed(s)
  {
  }

  lemma DeletedIsResolved<R, C>(s: Client<R, C>)
    requires Conserved(ResolveAll(s))
    ensures Deleted(s).book == ResolveAll(s).book && Conserved(Deleted(s))
  {
    assert Outstanding(Deleted(s)) == Outstanding(ResolveAll(s));
  }

  lemma DeletedIsGone<R, C>(s: Client<R, C>)
    ensures !Deleted(s).alive
  {
  }

  lemma ActiveJobsStep<R, C>(active: map<int, R>, callbacks: map<R, C>, id: int, r: R)
    requires id !in active && r in callbacks && forall k :: k in active ==> active[k] != r
    ensures multiset(ActiveJobs(active[id := r], callbacks)) ==
            multiset(ActiveJobs(active, callbacks)) + multiset{Job(r, callbacks[r])}
  {
    var more, job := active[id := r], Job(r, callbacks[r]);
    var before, now := ActiveJobs(active, callbacks), ActiveJobs(more, callbacks);
    assert job !in before;
    forall k | k in active && active[k] in callbacks ensures Job(active[k], callbacks[active[k]]) in now {
      assert k in more && more[k] == active[k];
    }
    assert id in more && more[id] == r;
    assert now == before + {job};
  }

  /** No request is active twice. */
  ghost predicate Injective<R>(active: map<int, R>) {
    forall i, j :: i in active && j in active && i != j ==> active[i] != active[j]
  }

  ghost predicate Covered<R, C>(s: Client<R, C>) {
    && (forall id :: id in s.active ==> s.active[id] in s.callbacks)
    && (forall r :: r in s.waiting ==> r in s.callbacks)
  }

  /** What the client holds can be resolved. */
  ghost predicate Resolvable<R, C>(p: Params, s: Client<R, C>) {
    Injective(s.active) && Covered(s) && Inv(p, ResolveAll(s))
  }

  lemma AgreeIsResolvable<R, C>(p: Params, s: Client<R, C>)
    requires Agree(p, s)
    ensures Resolvable(p, s)
  {
    hide ResolveAll;
    ResolveAllKeeps(p, s);
  }

  lemma EndReadKeeps<R, C>(p: Params, s: Client<R, C>, final: bool, error: bool)
    requires Inv(p, s) && s.alive
    ensures Inv(p, EndRead(p, s, final, error))
    ensures EndRead(p, s, final, error).book.submitted == s.book.submitted
  {
    hide Placed, IdsUnique, Conserved, ResolveAll;
    if final && s.reading.Of? {
      CompleteKeeps(p, s);
      var u := Complete(s.(parserFinal := true), s.reading.request);
      assert u.alive && u.book.submitted == s.book.submitted;
      hide Complete;
      if error {
        ResolveAllKeeps(p, u);
      } else {
        WriteAllKeeps(p, u);
        WaitingHaveIds(p, u);
        WriteAllFrame(p, u);
      }
    } else if final {
      BrokenReadKeeps(p, s);
    }
  }

  lemma ReadKeeps<R, C>(p: Params, s: Client<R, C>, outcomes: seq<Outcome>, final: bool, error: bool)
    requires Inv(p, s) && s.alive
    ensures Inv(p, Read(p, s, outcomes, final, error))
    ensures Read(p, s, outcomes, final, error).book.submitted == s.book.submitted
  {
    hide Placed, IdsUnique, Conserved, ReadingSane, EndRead;
    BeginReadKeeps(p, s);
    var t := IdentifyAll(BeginRead(p, s), outcomes);
    IdentifyAllKeeps(p, BeginRead(p, s), outcomes);
    IdentifyAllFrame(BeginRead(p, s), outcomes);
    assert t.alive && t.book == s.book;
    hide BeginRead, IdentifyAll;
    EndReadKeeps(p, t, final, error);
  }

  /** Reading makes callbacks due only by ending the connection. */
  lemma ReadDue<R, C>(p: Params, s: Client<R, C>, outcomes: seq<Outcome>, final: bool, error: bool)
    requires Inv(p, s) && s.alive
    ensures var t := Read(p, s, outcomes, final, error); t.alive ==> t.book.due == s.book.due
  {
    hide Placed, IdsUnique, Conserved;
    BeginReadKeeps(p, s);
    IdentifyAllKeeps(p, BeginRead(p, s), outcomes);
    IdentifyAllFrame(BeginRead(p, s), outcomes);
    var t := IdentifyAll(BeginRead(p, s), outcomes);
    assert t.book == s.book;
    hide BeginRead, IdentifyAll;
    if final && t.reading.Of? && !error {
      CompleteKeeps(p, t);
      var u := Complete(t.(parserFinal := true), t.reading.request);
      WaitingHaveIds(p, u);
      WriteAllFrame(p, u);
    }
  }

  /** What the parser makes of one reply, or of the part of it that has arrived. */
  datatype Round = Round(outcomes: seq<Outcome>, final: bool, error: bool)

  /** Replies are read one after the other until one is incomplete or ends the connection. */
  ghost function ReadMany<R, C>(p: Params, s: Client<R, C>, rounds: seq<Round>): Client<R, C>
    requires Inv(p, s) && s.alive
    decreases |rounds|
  {
    if rounds == [] then s
    else
      var t := Read(p, s, rounds[0].outcomes, rounds[0].final, rounds[0].error);
      ReadKeeps(p, s, rounds[0].outcomes, rounds[0].final, rounds[0].error);
      if !rounds[0].final || !t.alive then t else ReadMany(p, t, rounds[1..])
  }

  lemma {:induction false} ReadManyKeeps<R, C>(p: Params, s: Client<R, C>, rounds: seq<Round>)
    requires Inv(p, s) && s.alive
    ensures var t := ReadMany(p, s, rounds);
            Inv(p, t) && t.book.submitted == s.book.submitted && (t.alive ==> t.book.due == s.book.due)
    decreases |rounds|
  {
    hide Inv, Read;
    if rounds != [] {
      var first := rounds[0];
      ReadKeeps(p, s, first.outcomes, first.final, first.error);
      ReadDue(p, s, first.outcomes, first.final, first.error);
      var t := Read(p, s, first.outcomes, first.final, first.error);
      if first.final && t.alive {
        ReadManyKeeps(p, t, rounds[1..]);
      }
    }
  }

  /** With one request at a time, the active one is the only one. */
  lemma OnlyActive<R>(active: map<int, R>, id: int)
    requires |active| <= 1 && id in active
    ensures |active| == 1 && AnyActive(active) == active[id]
  {
    assert {id} <= active.Keys;
    var rest := active.Keys - {id};
    assert |active.Keys| == |active| && |rest| == |active.Keys| - 1;
    assert rest == {};
    assert forall k :: k in active ==> k == id || k in rest;
  }

  lemma WaitingHaveIds<R, C>(p: Params, s: Client<R, C>)
    requires Agree(p, s)
    ensures forall r :: r in s.waiting ==> r in s.ids
  {
  }

  lemma {:induction false} IdentifyAllFrame<R, C>(s: Client<R, C>, outcomes: seq<Outcome>)
    ensures var t := IdentifyAll(s, outcomes); t == s.(reading := t.reading)
    decreases |outcomes|
  {
    if outcomes != [] {
      IdentifyAllFrame(if outcomes[0].headerRead && s.reading == Unmatched then Identify(s, outcomes[0].id) else s, outcomes[1..]);
    }
  }

  lemma BrokenReadKeeps<R, C>(p: Params, s: Client<R, C>)
    requires Inv(p, s)
    ensures var t := Deleted(s.(parserFinal := true)); Inv(p, t) && t.book.submitted == s.book.submitted
  {
    var d := s.(alive := false, parserFinal := true);
    assert Outstanding(d) == Outstanding(s);
    ResolveAllConserves(d);
  }

  // ------------------------------------------------------------------ sending

  /** The connection when a request is sent: open or being opened, or still to be opened, which may
      fail at once. */
  datatype Connection = Open | Opening | Refused

  /** The whole of sending a request: it is run at once, rejected, queued, or queued and written. */
  ghost function Sent<R, C>(p: Params, s: Client<R, C>, r: R, c: C, wish: int, connection: Connection): Client<R, C>
    requires Inv(p, s)
  {
    var t := Submit(p, s, r, c, wish);
    if !s.alive || |s.waiting| >= p.maxWaiting then t
    else match connection
      case Open => SubmitHasIds(p, s, r, c, wish); WriteAll(p, t)
      case Opening => t
      case Refused => Resolved(Deleted(t), s.book.due)
  }

  lemma SubmitHasIds<R, C>(p: Params, s: Client<R, C>, r: R, c: C, wish: int)
    requires Inv(p, s)
    ensures var t := Submit(p, s, r, c, wish); forall q :: q in t.waiting ==> q in t.ids
  {
  }

  /** What may be sent. A client that is full must not have the request active. Otherwise the
      request must not be outstanding, and if its old reply is still being read there must be room to
      write it at once. A connection that is refused resolves everything, so that only a different
      callback of an outstanding request is in the way. */
  ghost predicate MaySend<R, C>(p: Params, s: Client<R, C>, r: R, c: C, connection: Connection) {
    || !s.alive
    || (if |s.waiting| >= p.maxWaiting then !IsActive(s, r)
        else match connection
          case Open => r !in s.callbacks && (s.reading != Of(r) || Room(p, s))
          case Opening => r !in s.callbacks && s.reading != Of(r)
          case Refused => r in s.callbacks ==> s.callbacks[r] == c)
  }

  ghost predicate IsActive<R, C>(s: Client<R, C>, r: R) {
    exists id :: id in s.active && s.active[id] == r
  }

  /** All that waits, and one more, can be written. */
  ghost predicate Room<R, C>(p: Params, s: Client<R, C>) {
    |s.waiting| < p.maxConcurrent - |s.active|
  }

  lemma SentKeeps<R, C>(p: Params, s: Client<R, C>, r: R, c: C, wish: int, connection: Connection)
    requires Inv(p, s) && MaySend(p, s, r, c, connection)
    ensures Inv(p, Sent(p, s, r, c, wish, connection))
  {
    hide Orderly;
    var t := Submit(p, s, r, c, wish);
    if !s.alive {
      SubmitKeeps(p, s, r, c, wish);
    } else if |s.waiting| >= p.maxWaiting {
      RejectedKeeps(p, s, r, c, wish);
    } else {
      match connection
      case Open => WrittenKeeps(p, s, r, c, wish);
      case Opening => SubmitKeeps(p, s, r, c, wish);
      case Refused => RefusedKeeps(p, s, r, c, wish);
    }
  }

  /** A rejected request changes its id only. */
  lemma RejectedKeeps<R, C>(p: Params, s: Client<R, C>, r: R, c: C, wish: int)
    requires Inv(p, s) && s.alive && |s.waiting| >= p.maxWaiting && !IsActive(s, r)
    ensures Inv(p, Submit(p, s, r, c, wish))
  {
    hide Outstanding;
    RejectedConserves(p, s, r, c, wish);
    hide Conserved;
    SubmitNumbers(p, s, r, c, wish);
    hide IdsUnique;
    RejectedPlaces(p, s, r, c, wish);
    hide Placed;
  }

  lemma RejectedPlaces<R, C>(p: Params, s: Client<R, C>, r: R, c: C, wish: int)
    requires Placed(s) && s.alive && |s.waiting| >= p.maxWaiting && !IsActive(s, r)
    requires Submit(p, s, r, c, wish).ids[r] !in s.active
    ensures Placed(Submit(p, s, r, c, wish))
  {
    assert forall id :: id in s.active ==> s.active[id] != r;
  }

  lemma RejectedConserves<R, C>(p: Params, s: Client<R, C>, r: R, c: C, wish: int)
    requires Conserved(s) && s.alive && |s.waiting| >= p.maxWaiting
    ensures Conserved(Submit(p, s, r, c, wish))
  {
    assert Outstanding(Submit(p, s, r, c, wish)) == Outstanding(s);
  }

  /** Whatever waits is written in order; what is left waiting is the end of the queue. */
  lemma WrittenKeeps<R, C>(p: Params, s: Client<R, C>, r: R, c: C, wish: int)
    requires Inv(p, s) && s.alive && |s.waiting| < p.maxWaiting && r !in s.callbacks
    ensures var u := Sent(p, s, r, c, wish, Open);
            && (s.reading != Of(r) || Room(p, s) ==> Inv(p, u))
            && (!Room(p, s) ==> r in u.waiting)
            && u.reading == s.reading && u.alive
  {
    var t := Submit(p, s, r, c, wish);
    SubmitKeeps(p, s, r, c, wish);
    WriteAllKeeps(p, t);
    WriteAllInOrder(p, t);
    SubmitHasIds(p, s, r, c, wish);
    WriteAllFrame(p, t);
    hide Inv, Agree, Orderly, WriteAll, Wrote;
    var k := Lesser(|t.waiting|, p.maxConcurrent - |t.active|);
    assert t.waiting == s.waiting + [r] && t.active == s.active;
    if !Room(p, s) {
      EndOfQueue(t, WriteAll(p, t), k);
    }
  }

  /** What is left waiting ends as the queue did. */
  lemma EndOfQueue<R, C>(s: Client<R, C>, t: Client<R, C>, k: int)
    requires Wrote(s, t, k) && k < |s.waiting|
    ensures s.waiting[|s.waiting| - 1] in t.waiting
  {
    assert t.waiting[|t.waiting| - 1] == s.waiting[|s.waiting| - 1];
  }

  lemma AgreeIsCovered<R, C>(p: Params, s: Client<R, C>)
    requires Agree(p, s)
    ensures Injective(s.active) && Covered(s)
  {
  }

  /** Refusing resolves what the client holds, and the callback that has just come. */
  lemma RefusedResolves<R, C>(p: Params, s: Client<R, C>, r: R, c: C, wish: int)
    requires Inv(p, s) && s.alive && |s.waiting| < p.maxWaiting && (r in s.callbacks ==> s.callbacks[r] == c)
    ensures var t, job := Submit(p, s, r, c, wish), multiset{Job(r, c)};
            && Injective(t.active) && Covered(t)
            && Deleted(t).book == Deleted(s).book.(submitted := s.book.submitted + job, due := Deleted(s).book.due + job)
  {
    AgreeIsCovered(p, s);
    QueuedBook(p, s, r, c, wish);
    hide Inv, Injective, Deleted, Covered;
    OneMoreResolved(s, Submit(p, s, r, c, wish), r, c);
  }

  lemma OneMoreResolved<R, C>(s: Client<R, C>, t: Client<R, C>, r: R, c: C)
    requires Covered(s) && (r in s.callbacks ==> s.callbacks[r] == c)
    requires t.active == s.active && t.waiting == s.waiting + [r] && t.callbacks == s.callbacks[r := c]
    requires t.book == s.book.(submitted := s.book.submitted + multiset{Job(r, c)})
    ensures Covered(t)
    ensures Deleted(t).book ==
            Deleted(s).book.(submitted := s.book.submitted + multiset{Job(r, c)}, due := Deleted(s).book.due + multiset{Job(r, c)})
  {
    assert forall q :: q in s.callbacks ==> t.callbacks[q] == s.callbacks[q];
    SameActiveJobs(s.active, s.callbacks, t.callbacks);
    JobsOfOneMore(s.waiting, s.callbacks, t.callbacks, r);
    hide ActiveJobs, JobsOf;
    OneMoreRun(s.book.due + multiset(ActiveJobs(s.active, s.callbacks)), JobsOf(s.waiting, s.callbacks), Job(r, c));
  }

  lemma SameActiveJobs<R, C>(active: map<int, R>, before: map<R, C>, after: map<R, C>)
    requires forall id :: id in active ==> active[id] in before && active[id] in after && after[active[id]] == before[active[id]]
    ensures ActiveJobs(active, after) == ActiveJobs(active, before)
  {
  }

  lemma {:induction false} JobsOfOneMore<R, C>(queue: seq<R>, before: map<R, C>, after: map<R, C>, r: R)
    requires r in after && forall q :: q in queue ==> q in before && q in after && after[q] == before[q]
    ensures JobsOf(queue + [r], after) == JobsOf(queue, before) + multiset{Job(r, after[r])}
  {
    if queue == [] {
      assert [] + [r] == [r];
    } else {
      assert (queue + [r])[1..] == queue[1..] + [r];
      JobsOfOneMore(queue[1..], before, after, r);
    }
  }

  lemma RefusedKeeps<R, C>(p: Params, s: Client<R, C>, r: R, c: C, wish: int)
    requires Inv(p, s) && s.alive && |s.waiting| < p.maxWaiting && (r in s.callbacks ==> s.callbacks[r] == c)
    ensures var t := Submit(p, s, r, c, wish);
            Resolvable(p, t.(alive := false)) && Inv(p, Resolved(Deleted(t), s.book.due))
  {
    var t := Submit(p, s, r, c, wish);
    RefusedResolves(p, s, r, c, wish);
    RefusedFrame(p, s, r, c, wish);
    ResolveAllKeeps(p, s);
    DueGrows(s);
    InvConserves(p, Deleted(s));
    hide Inv, Submit, IdsUnique, Conserved, Injective, Covered, ActiveJobs, JobsOf;
    OneMoreConserves(Deleted(s), Deleted(t), Job(r, c), s.book.due);
    EmptyIsInOrder(p, s, Deleted(t));
    EmptyIsInOrder(p, s, Resolved(Deleted(t), s.book.due));
  }

  lemma RefusedFrame<R, C>(p: Params, s: Client<R, C>, r: R, c: C, wish: int)
    requires Inv(p, s) && s.alive
    ensures var t := Submit(p, s, r, c, wish);
            && t.reading == s.reading && (forall q :: q in s.ids ==> q in t.ids)
            && IdsUnique(Deleted(t)) && IdsUnique(Resolved(Deleted(t), s.book.due))
  {
    SubmitNumbers(p, s, r, c, wish);
  }

  /** With nothing outstanding only the ids and the book can be out of order. */
  lemma EmptyIsInOrder<R, C>(p: Params, s: Client<R, C>, t: Client<R, C>)
    requires Inv(p, s) && !t.alive && t.active == map[] && t.waiting == [] && t.callbacks == map[]
    requires IdsUnique(t) && t.reading == s.reading && forall r :: r in s.ids ==> r in t.ids
    ensures Conserved(t) ==> Inv(p, t)
  {
    hide Conserved, IdsUnique, Outstanding;
    EmptyIsPlaced(t);
  }

  lemma OneMoreConserves<R, C>(d: Client<R, C>, t: Client<R, C>, job: Job<R, C>, due: multiset<Job<R, C>>)
    requires Conserved(d) && d.callbacks == map[] == t.callbacks && due <= d.book.due
    requires t.book == d.book.(submitted := d.book.submitted + multiset{job}, due := d.book.due + multiset{job})
    ensures Conserved(t) && Conserved(Resolved(t, due))
  {
    assert Outstanding(d) == Outstanding(t) == Outstanding(Resolved(t, due)) == multiset{};
    hide Outstanding;
    assert t.book.due == due + (t.book.due - due);
  }

  lemma DueGrows<R, C>(s: Client<R, C>)
    ensures s.book.due <= Deleted(s).book.due
  {
    hide ActiveJobs, JobsOf;
  }

  lemma SentSubmits<R, C>(p: Params, s: Client<R, C>, r: R, c: C, wish: int, connection: Connection)
    requires Inv(p, s)
    ensures Sent(p, s, r, c, wish, connection).book.submitted == s.book.submitted + multiset{Job(r, c)}
  {
    SubmitHasIds(p, s, r, c, wish);
    WriteAllFrame(p, Submit(p, s, r, c, wish));
    hide Orderly, WriteAll, ActiveJobs, JobsOf;
  }

  /** Sending keeps the invariant exactly when the request may be sent. */
  lemma SentKeepsIff<R, C>(p: Params, s: Client<R, C>, r: R, c: C, wish: int, connection: Connection)
    requires Inv(p, s)
    ensures Inv(p, Sent(p, s, r, c, wish, connection)) <==> MaySend(p, s, r, c, connection)
  {
    if MaySend(p, s, r, c, connection) {
      SentKeeps(p, s, r, c, wish, connection);
    } else if |s.waiting| >= p.maxWaiting {
      RenamedIsMisplaced(p, s, r, c, wish);
    } else if r in s.callbacks {
      ReplacedIsLost(p, s, r, c, wish, connection);
    } else if connection == Open {
      WrittenKeeps(p, s, r, c, wish);
    } else {
      assert Sent(p, s, r, c, wish, connection).waiting[|s.waiting|] == r;
    }
  }

  lemma RenamedIsMisplaced<R, C>(p: Params, s: Client<R, C>, r: R, c: C, wish: int)
    requires Inv(p, s) && s.alive && |s.waiting| >= p.maxWaiting && IsActive(s, r)
    ensures !Placed(Submit(p, s, r, c, wish))
  {
    SubmitNumbers(p, s, r, c, wish);
    var id :| id in s.active && s.active[id] == r;
    var t := Submit(p, s, r, c, wish);
    assert id in t.active && t.active[id] == r && t.ids[r] != id;
  }

  /** A second callback for an outstanding request takes the place of the first. */
  lemma ReplacedIsLost<R, C>(p: Params, s: Client<R, C>, r: R, c: C, wish: int, connection: Connection)
    requires Inv(p, s) && s.alive && |s.waiting| < p.maxWaiting && r in s.callbacks
    requires connection == Refused ==> s.callbacks[r] != c
    ensures !Conserved(Sent(p, s, r, c, wish, connection))
  {
    if connection == Refused {
      InvConserves(p, s);
      hide Inv, Conserved, Deleted, Resolved, Submit;
      ReplacedIsNotRun(p, s, r, c, wish);
    } else {
      var t, u := Submit(p, s, r, c, wish), Sent(p, s, r, c, wish, connection);
      SubmitHasIds(p, s, r, c, wish);
      WriteAllFrame(p, t);
      assert u.callbacks == s.callbacks[r := c] && u.book == t.book;
      assert Conserved(s);
      hide WriteAll, Orderly, Conserved;
      NotConservedTwice(s, u, r, c);
    }
  }

  lemma ReplacedIsNotRun<R, C>(p: Params, s: Client<R, C>, r: R, c: C, wish: int)
    requires Conserved(s) && r in s.callbacks && s.callbacks[r] != c && s.alive && |s.waiting| < p.maxWaiting
    ensures !Conserved(Resolved(Deleted(Submit(p, s, r, c, wish)), s.book.due))
  {
    OutstandingIsSubmitted(s, r);
    hide Conserved, Deleted, Resolved, Submit;
    QueuedBook(p, s, r, c, wish);
    NotDueAgain(Submit(p, s, r, c, wish), r, s.callbacks[r]);
  }

  lemma QueuedBook<R, C>(p: Params, s: Client<R, C>, r: R, c: C, wish: int)
    requires s.alive && |s.waiting| < p.maxWaiting
    ensures var t := Submit(p, s, r, c, wish);
            && t.active == s.active && t.waiting == s.waiting + [r] && t.callbacks == s.callbacks[r := c]
            && t.book == s.book.(submitted := s.book.submitted + multiset{Job(r, c)})
  {
  }

  lemma InvConserves<R, C>(p: Params, s: Client<R, C>)
    requires Inv(p, s)
    ensures Conserved(s)
  {
  }

  lemma OutstandingIsSubmitted<R, C>(s: Client<R, C>, r: R)
    requires Conserved(s) && r in s.callbacks
    ensures var job := Job(r, s.callbacks[r]); s.book.submitted[job] == 1 + s.book.due[job] + s.book.ran[job]
  {
    assert Job(r, s.callbacks[r]) in Outstanding(s);
  }

  /** Resolving makes no callback due that is no longer in the map. */
  lemma NotDueAgain<R, C>(t: Client<R, C>, r: R, c: C)
    requires r in t.callbacks && t.callbacks[r] != c
    requires var job := Job(r, c); t.book.submitted[job] > t.book.due[job] + t.book.ran[job]
    ensures !Conserved(Resolved(Deleted(t), t.book.due))
  {
    var d, u, job := Deleted(t), Resolved(Deleted(t), t.book.due), Job(r, c);
    NoOtherJob(t.waiting, t.callbacks, r, c);
    assert d.book.due[job] == t.book.due[job];
    DeletedIsEmpty(t);
    hide Deleted, JobsOf, ActiveJobs;
    assert Outstanding(u) == multiset{};
    assert u.book.ran[job] == t.book.ran[job];
  }

  lemma DeletedIsEmpty<R, C>(s: Client<R, C>)
    ensures Deleted(s).callbacks == map[] && Deleted(s).book.submitted == s.book.submitted && Deleted(s).book.ran == s.book.ran
  {
  }

  lemma {:induction false} NoOtherJob<R, C>(queue: seq<R>, callbacks: map<R, C>, r: R, c: C)
    requires r in callbacks && callbacks[r] != c
    ensures Job(r, c) !in JobsOf(queue, callbacks)
  {
    if queue != [] {
      NoOtherJob(queue[1..], callbacks, r, c);
    }
  }

  lemma NotConservedTwice<R, C>(s: Client<R, C>, u: Client<R, C>, r: R, c: C)
    requires Conserved(s) && r in s.callbacks && u.callbacks == s.callbacks[r := c]
    requires u.book.submitted == s.book.submitted + multiset{Job(r, c)} && u.book.due == s.book.due && u.book.ran == s.book.ran
    ensures !Conserved(u)
  {
    var without := s.(callbacks := s.callbacks - {r});
    assert s.callbacks == without.callbacks[r := s.callbacks[r]] && u.callbacks == without.callbacks[r := c];
    NewOutstanding(without, s, r, s.callbacks[r]);
    NewOutstanding(without, u, r, c);
    hide Outstanding;
    var first := Job(r, s.callbacks[r]);
    assert s.book.submitted[first] == Outstanding(without)[first] + 1 + s.book.due[first] + s.book.ran[first];
    assert (Outstanding(u) + u.book.due + u.book.ran)[first] ==
           Outstanding(without)[first] + multiset{Job(r, c)}[first] + s.book.due[first] + s.book.ran[first];
  }

  /** What goes wrong otherwise: the reply being read resolves the new sending of the request
      while that still waits, so it waits without a callback. */
  lemma SentAgainIsLost<R, C>(p: Params, s: Client<R, C>, r: R, c: C, wish: int)
    requires Inv(p, s) && s.alive && |s.waiting| < p.maxWaiting
    requires s.reading == Of(r) && r !in s.callbacks && !Room(p, s)
    ensures var t := Sent(p, s, r, c, wish, Open);
            && t.reading == Of(r) && r in t.ids
            && var u := Complete(t, r); r in u.waiting && r !in u.callbacks && !Placed(u)
  {
    WrittenKeeps(p, s, r, c, wish);
    SubmitHasIds(p, s, r, c, wish);
    WriteAllFrame(p, Submit(p, s, r, c, wish));
    hide WriteAll, Orderly;
  }

  // ------------------------------------------------------------------ whole runs

  /** What may happen to a client. A callback may itself send further requests: such a request is
      an event of its own between the callback's and the next. */
  datatype Event<R, C> =
    | Send(request: R, callback: C, wish: int, connection: Connection)
    | Write
    | DataRead(rounds: seq<Round>)
    | Timeout(id: int)
    | Resolve
    | ConnectionDeleted
    | Callback(job: Job<R, C>)

  ghost predicate Enabled<R, C>(p: Params, s: Client<R, C>, e: Event<R, C>) {
    match e
    case Send(r, c, _, connection) => MaySend(p, s, r, c, connection)
    case Write => s.alive
    case DataRead(_) => s.alive
    case Callback(job) => job in s.book.due
    case _ => true
  }

  ghost function Apply<R, C>(p: Params, s: Client<R, C>, e: Event<R, C>): Client<R, C>
    requires Inv(p, s) && Enabled(p, s, e)
  {
    match e
    case Send(r, c, wish, connection) => Sent(p, s, r, c, wish, connection)
    case Write => WriteAll(p, s)
    case DataRead(rounds) => ReadMany(p, s, rounds)
    case Timeout(id) => TimedOut(s, id)
    case Resolve => ResolveAll(s)
    case ConnectionDeleted => Deleted(s)
    case Callback(job) => RunDue(s, job)
  }

  lemma ApplyKeeps<R, C>(p: Params, s: Client<R, C>, e: Event<R, C>)
    requires Inv(p, s) && Enabled(p, s, e)
    ensures Inv(p, Apply(p, s, e))
  {
    hide Placed, IdsUnique;
    match e
    case Send(r, c, wish, connection) => SentKeeps(p, s, r, c, wish, connection);
    case Write => WriteAllKeeps(p, s);
    case DataRead(rounds) => ReadManyKeeps(p, s, rounds);
    case Timeout(id) => TimedOutKeeps(p, s, id);
    case Resolve => ResolveAllKeeps(p, s);
    case ConnectionDeleted => ResolveAllKeeps(p, s);
    case Callback(job) => RunDueKeeps(p, s, job);
  }

  lemma RunDueKeeps<R, C>(p: Params, s: Client<R, C>, job: Job<R, C>)
    requires Inv(p, s) && job in s.book.due
    ensures Inv(p, RunDue(s, job))
  {
    var t := RunDue(s, job);
    assert s.book.due == t.book.due + multiset{job};
    assert Outstanding(t) == Outstanding(s);
  }

  ghost function BookAfter<R, C>(b: Book<R, C>, jobs: seq<Job<R, C>>): Book<R, C> {
    b.(due := b.due - multiset(jobs), ran := b.ran + multiset(jobs))
  }

  ghost function AfterJobs<R, C>(s: Client<R, C>, jobs: seq<Job<R, C>>): Client<R, C> {
    s.(book := BookAfter(s.book, jobs))
  }

  lemma BookAfterStep<R, C>(b: Book<R, C>, jobs: seq<Job<R, C>>, i: nat)
    requires multiset(jobs) <= b.due && i < |jobs|
    ensures jobs[i] in BookAfter(b, jobs[..i]).due
    ensures RunOne(BookAfter(b, jobs[..i]), jobs[i]) == BookAfter(b, jobs[..i + 1])
  {
    OneMoreOf(jobs, i);
    OneMoreTaken(b.due, multiset(jobs[..i]), jobs[i]);
    OneMoreRun(b.ran, multiset(jobs[..i]), jobs[i]);
  }

  lemma OneMoreOf<T>(q: seq<T>, i: nat)
    requires i < |q|
    ensures multiset(q[..i + 1]) == multiset(q[..i]) + multiset{q[i]} <= multiset(q)
  {
    assert q[..i + 1] == q[..i] + [q[i]];
    assert q == q[..i + 1] + q[i + 1..];
  }

  lemma OneMoreRun<T>(ran: multiset<T>, m: multiset<T>, x: T)
    ensures ran + m + multiset{x} == ran + (m + multiset{x})
  {
  }

  lemma OneMoreTaken<T>(due: multiset<T>, m: multiset<T>, x: T)
    requires m + multiset{x} <= due
    ensures x in due - m && (due - m) - multiset{x} == due - (m + multiset{x})
  {
  }

  lemma {:induction false} AfterJobsKeeps<R, C>(p: Params, s: Client<R, C>, jobs: seq<Job<R, C>>, i: nat)
    requires Inv(p, s) && multiset(jobs) <= s.book.due && i <= |jobs|
    ensures Inv(p, AfterJobs(s, jobs[..i]))
  {
    hide Inv, BookAfter, RunOne;
    if i == 0 {
      NothingRun(s, jobs[..0]);
    } else {
      AfterJobsKeeps(p, s, jobs, i - 1);
      BookAfterStep(s.book, jobs, i - 1);
      RunDueKeeps(p, AfterJobs(s, jobs[..i - 1]), jobs[i - 1]);
    }
  }

  lemma NothingRun<R, C>(s: Client<R, C>, jobs: seq<Job<R, C>>)
    requires jobs == []
    ensures AfterJobs(s, jobs) == s
  {
  }

  lemma AllResolved<R, C>(s: Client<R, C>, jobs: seq<Job<R, C>>)
    requires multiset(jobs) == multiset(ActiveJobs(s.active, s.callbacks)) + JobsOf(s.waiting, s.callbacks)
    ensures multiset(jobs) <= ResolveAll(s).book.due
    ensures AfterJobs(ResolveAll(s), jobs) == Resolved(ResolveAll(s), s.book.due)
  {
    hide ActiveJobs, JobsOf;
    var t := ResolveAll(s);
    assert t.book.due == s.book.due + multiset(jobs);
    assert t.book.due - multiset(jobs) == s.book.due && t.book.due - s.book.due == multiset(jobs);
  }

  ghost predicate Follows<R, C>(p: Params, s: Client<R, C>, e: Event<R, C>, t: Client<R, C>) {
    Inv(p, s) ==> Enabled(p, s, e) && t == Apply(p, s, e)
  }

  ghost predicate IsRun<R, C>(p: Params, states: seq<Client<R, C>>, events: seq<Event<R, C>>) {
    && |states| == |events| + 1
    && states[0] == NewClient()
    && forall i :: 0 <= i < |events| ==> Follows(p, states[i], events[i], states[i + 1])
  }

  lemma NewIsInOrder<R, C>(p: Params)
    ensures Inv(p, NewClient<R, C>())
  {
    assert Outstanding(NewClient<R, C>()) == multiset{};
  }

  /** In every state of every run the maps agree, ids are unique, the limits hold and no callback
      is lost or run twice. */
  lemma {:induction false} EveryRunKeepsPlaces<R, C>(p: Params, states: seq<Client<R, C>>, events: seq<Event<R, C>>, n: nat)
    requires IsRun(p, states, events) && n < |states|
    ensures Inv(p, states[n])
  {
    hide Agree, Apply, Enabled;
    if n == 0 {
      NewIsInOrder<R, C>(p);
    } else {
      EveryRunKeepsPlaces(p, states, events, n - 1);
      assert Follows(p, states[n - 1], events[n - 1], states[n - 1 + 1]);
      ApplyKeeps(p, states[n - 1], events[n - 1]);
    }
  }

  /** The number of times a request was handed in with a callback. */
  ghost function Sends<R, C>(events: seq<Event<R, C>>, job: Job<R, C>): nat {
    if events == [] then 0
    else Sends(events[..|events| - 1], job) +
         var e := events[|events| - 1]; if e.Send? && Job(e.request, e.callback) == job then 1 else 0
  }

  lemma {:induction false} SubmittedAreSends<R, C>(
    p: Params, states: seq<Client<R, C>>, events: seq<Event<R, C>>, n: nat, job: Job<R, C>)
    requires IsRun(p, states, events) && n < |states|
    ensures states[n].book.submitted[job] == Sends(events[..n], job)
  {
    hide Inv, Follows;
    if n > 0 {
      var i := n - 1;
      SubmittedAreSends(p, states, events, i, job);
      EveryRunKeepsPlaces(p, states, events, i);
      SubmittedGrows(p, states[i], events[i], states[n]);
      assert events[..n][..i] == events[..i];
    }
  }

  lemma SubmittedGrows<R, C>(p: Params, s: Client<R, C>, e: Event<R, C>, t: Client<R, C>)
    requires Inv(p, s) && Follows(p, s, e, t)
    ensures t.book.submitted == s.book.submitted + if e.Send? then multiset{Job(e.request, e.callback)} else multiset{}
  {
    if e.DataRead? {
      ReadManyKeeps(p, s, e.rounds);
    } else if e.Write? {
      WriteAllFrame(p, s);
    } else if e.Send? {
      SentSubmits(p, s, e.request, e.callback, e.wish, e.connection);
    }
  }

  /** What has run stays run. */
  lemma RanGrows<R, C>(p: Params, s: Client<R, C>, e: Event<R, C>, t: Client<R, C>)
    requires Inv(p, s) && Follows(p, s, e, t)
    ensures s.book.ran <= t.book.ran
  {
    hide Agree, ReadMany, WriteAll, ActiveJobs, JobsOf, Sent;
    match e
    case Send(r, c, wish, connection) => SentRan(p, s, r, c, wish, connection);
    case DataRead(rounds) => ReadManyRan(p, s, rounds);
    case Write =>
      WaitingHaveIds(p, s);
      WriteAllFrame(p, s);
    case _ =>
  }

  lemma SentRan<R, C>(p: Params, s: Client<R, C>, r: R, c: C, wish: int, connection: Connection)
    requires Inv(p, s)
    ensures s.book.ran <= Sent(p, s, r, c, wish, connection).book.ran
  {
    SubmitHasIds(p, s, r, c, wish);
    SubmitRan(p, s, r, c, wish);
    var t := Submit(p, s, r, c, wish);
    WriteAllFrame(p, t);
    DeletedIsEmpty(t);
    hide Inv, Submit, WriteAll, Deleted;
    assert t.book.ran <= Resolved(Deleted(t), s.book.due).book.ran;
  }

  lemma SubmitRan<R, C>(p: Params, s: Client<R, C>, r: R, c: C, wish: int)
    ensures s.book.ran <= Submit(p, s, r, c, wish).book.ran
  {
  }

  lemma {:induction false} ReadManyRan<R, C>(p: Params, s: Client<R, C>, rounds: seq<Round>)
    requires Inv(p, s) && s.alive
    ensures s.book.ran <= ReadMany(p, s, rounds).book.ran
    decreases |rounds|
  {
    hide Inv, Read;
    if rounds != [] {
      var first := rounds[0];
      ReadKeeps(p, s, first.outcomes, first.final, first.error);
      ReadRan(p, s, first.outcomes, first.final, first.error);
      var t := Read(p, s, first.outcomes, first.final, first.error);
      if first.final && t.alive {
        ReadManyRan(p, t, rounds[1..]);
      }
    }
  }

  lemma ReadRan<R, C>(p: Params, s: Client<R, C>, outcomes: seq<Outcome>, final: bool, error: bool)
    requires Inv(p, s) && s.alive
    ensures s.book.ran <= Read(p, s, outcomes, final, error).book.ran
  {
    hide Inv, EndRead;
    BeginReadKeeps(p, s);
    IdentifyAllKeeps(p, BeginRead(p, s), outcomes);
    IdentifyAllFrame(BeginRead(p, s), outcomes);
    assert BeginRead(p, s).book == s.book;
    EndReadRan(p, IdentifyAll(BeginRead(p, s), outcomes), final, error);
  }

  lemma EndReadRan<R, C>(p: Params, s: Client<R, C>, final: bool, error: bool)
    requires Inv(p, s)
    ensures s.book.ran <= EndRead(p, s, final, error).book.ran
  {
    hide ActiveJobs, JobsOf, WriteAll;
    if final && s.reading.Of? {
      CompleteKeeps(p, s);
      var u := Complete(s.(parserFinal := true), s.reading.request);
      hide Agree;
      assert s.book.ran <= u.book.ran;
      hide Complete;
      WaitingHaveIds(p, u);
      WriteAllFrame(p, u);
    }
  }

  lemma {:induction false} WriteAllFrame<R, C>(p: Params, s: Client<R, C>)
    requires forall r :: r in s.waiting ==> r in s.ids
    ensures var t := WriteAll(p, s); t == s.(active := t.active, waiting := t.waiting)
    decreases |s.waiting|
  {
    if MayWrite(p, s) {
      WriteAllFrame(p, WriteOne(s));
    }
  }

  /** No callback runs more often than its request was sent, and once the connection is deleted
      and the due callbacks have run, every callback has run exactly as often as it was sent. */
  lemma EveryCallbackRunsOnce<R, C>(
    p: Params, states: seq<Client<R, C>>, events: seq<Event<R, C>>, n: nat, job: Job<R, C>)
    requires IsRun(p, states, events) && n < |states|
    ensures var s := states[n];
            && s.book.ran[job] <= Sends(events[..n], job)
            && (!s.alive && s.book.due == multiset{} ==> s.book.ran[job] == Sends(events[..n], job))
  {
    EveryRunKeepsPlaces(p, states, events, n);
    SubmittedAreSends(p, states, events, n, job);
    var s := states[n];
    assert s.book.submitted[job] == Outstanding(s)[job] + s.book.due[job] + s.book.ran[job];
    if !s.alive {
      assert s.callbacks == map[];
      assert Outstanding(s) == multiset{};
    }
  }

  // ------------------------------------------------------------------ writing

  ghost function Lesser(a: int, b: int): int {
    if a < b then a else b
  }

  /** Writing takes requests off the front of the queue, in order, until it is empty or the
      active ones are as many as allowed. */
  lemma {:induction false} WriteAllInOrder<R, C>(p: Params, s: Client<R, C>)
    requires Orderly(p, s)
    ensures Wrote(s, WriteAll(p, s), Lesser(|s.waiting|, p.maxConcurrent - |s.active|))
    decreases |s.waiting|
  {
    hide Orderly, Wrote;
    WaitingHasIds(p, s);
    if MayWrite(p, s) {
      WriteOneKeeps(p, s);
      var u := WriteOne(s);
      WaitingHasIds(p, u);
      WriteAllInOrder(p, u);
      WroteOneMore(s, u, WriteAll(p, u), Lesser(|u.waiting|, p.maxConcurrent - |u.active|));
    }
  }

  lemma WaitingHasIds<R, C>(p: Params, s: Client<R, C>)
    requires Orderly(p, s)
    ensures forall r :: r in s.waiting ==> r in s.ids
    ensures s.waiting != [] ==> s.ids[s.waiting[0]] !in s.active
    ensures |s.active| <= p.maxConcurrent && (!MayWrite(p, s) ==> Wrote(s, s, 0))
    ensures MayWrite(p, s) ==> |WriteOne(s).active| == |s.active| + 1
  {
  }

  /** The first `k` waiting requests have become active, and nothing else has moved. */
  ghost predicate Wrote<R, C>(s: Client<R, C>, t: Client<R, C>, k: int) {
    && 0 <= k <= |s.waiting| && t.waiting == s.waiting[k..]
    && (forall r :: r in s.waiting ==> r in s.ids)
    && (forall i :: 0 <= i < k ==> s.ids[s.waiting[i]] in t.active && t.active[s.ids[s.waiting[i]]] == s.waiting[i])
    && (forall id :: id in s.active ==> id in t.active && t.active[id] == s.active[id])
    && |t.active| == |s.active| + k
  }

  lemma WroteOneMore<R, C>(s: Client<R, C>, u: Client<R, C>, t: Client<R, C>, k: nat)
    requires s.waiting != [] && (forall r :: r in s.waiting ==> r in s.ids) && s.ids[s.waiting[0]] !in s.active
    requires u == WriteOne(s) && Wrote(u, t, k)
    ensures Wrote(s, t, k + 1)
  {
    var first := s.ids[s.waiting[0]];
    assert first in u.active && u.active[first] == s.waiting[0];
    assert forall i :: 1 <= i < |s.waiting| ==> s.waiting[i] == u.waiting[i - 1];
  }

  /** Such a state is reached by a request that times out while its reply is arriving. */
  lemma ReadAfterTimeout<R, C>(p: Params, s: Client<R, C>, r: R)
    requires Inv(p, s) && s.reading == Of(r) && r in s.callbacks
    ensures var t := TimedOut(s, s.ids[r]); t.reading == Of(r) && r !in t.callbacks && Inv(p, t) && t.alive == s.alive
  {
    TimedOutKeeps(p, s, s.ids[r]);
  }
}
