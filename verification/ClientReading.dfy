/** Which request a reply is given to, and what reading does to the callbacks. */
module ClientReading {
  import opened ClientModel

  // ------------------------------------------------------------------ matching

  /** The first call of the parser that reports a header, or the number of calls. */
  function FirstHeader(outcomes: seq<Outcome>): (n: nat)
    ensures n <= |outcomes| && (n < |outcomes| ==> outcomes[n].headerRead)
    ensures forall i :: 0 <= i < n ==> !outcomes[i].headerRead
  {
    if outcomes == [] || outcomes[0].headerRead then 0 else 1 + FirstHeader(outcomes[1..])
  }

  /** The request that has this id and waits for its reply. */
  ghost predicate HasId<R, C>(s: Client<R, C>, r: R, id: int) {
    r in s.ids && s.ids[r] == id && id in s.active && s.active[id] == r
  }

  /** The first header decides: the reply is for the active request whose id it names, or for none. */
  lemma {:induction false} FirstHeaderDecides<R, C>(s: Client<R, C>, outcomes: seq<Outcome>)
    requires s.reading == Unmatched && IdsUnique(s) && Placed(s)
    ensures var t, n := IdentifyAll(s, outcomes), FirstHeader(outcomes);
            && t == s.(reading := t.reading)
            && (n == |outcomes| ==> t.reading == Unmatched)
            && (n < |outcomes| ==> t.reading == Orphan || t.reading.Of?)
            && (n < |outcomes| ==> forall r :: t.reading == Of(r) <==> HasId(s, r, outcomes[n].id))
    decreases |outcomes|
  {
    if outcomes != [] {
      if outcomes[0].headerRead {
        MatchedStays(Identify(s, outcomes[0].id), outcomes[1..]);
      } else {
        FirstHeaderDecides(s, outcomes[1..]);
      }
    }
  }

  /** A reply that was matched once is not matched again. */
  lemma {:induction false} MatchedStays<R, C>(s: Client<R, C>, outcomes: seq<Outcome>)
    requires s.reading != Unmatched
    ensures IdentifyAll(s, outcomes) == s
    decreases |outcomes|
  {
    if outcomes != [] {
      MatchedStays(s, outcomes[1..]);
    }
  }

  /** One request at a time, and it is this one. */
  ghost predicate OnlyOne<R, C>(p: Params, s: Client<R, C>, r: R) {
    p.maxConcurrent == 1 && exists id :: id in s.active && s.active[id] == r
  }

  /** In this round the reply is found to be for `r`. */
  ghost predicate Found<R, C>(p: Params, s: Client<R, C>, outcomes: seq<Outcome>, r: R) {
    if s.reading == Idle && p.maxConcurrent == 1 && (exists id :: id in s.active) then OnlyOne(p, s, r)
    else
      && (s.reading == Idle || s.reading == Unmatched)
      && var n := FirstHeader(outcomes); n < |outcomes| && HasId(s, r, outcomes[n].id)
  }

  /** The reply is for `r`. */
  ghost predicate Answers<R, C>(p: Params, s: Client<R, C>, outcomes: seq<Outcome>, r: R) {
    s.reading == Of(r) || Found(p, s, outcomes, r)
  }

  lemma OnlyOneIsRead<R, C>(p: Params, s: Client<R, C>, r: R)
    requires |s.active| <= p.maxConcurrent == 1 && (exists id :: id in s.active)
    ensures r == AnyActive(s.active) <==> OnlyOne(p, s, r)
  {
    var id :| id in s.active;
    OnlyActive(s.active, id);
    if OnlyOne(p, s, r) {
      var k :| k in s.active && s.active[k] == r;
      OnlyActive(s.active, k);
    }
  }

  /** After the parser has been called, `Of(r)` is being read exactly if the reply is for `r`. */
  lemma ReadingMeans<R, C>(p: Params, s: Client<R, C>, outcomes: seq<Outcome>, r: R)
    requires Inv(p, s)
    ensures var t := IdentifyAll(BeginRead(p, s), outcomes);
            && t == s.(reading := t.reading, parserFinal := t.parserFinal)
            && (t.reading == Of(r) <==> Answers(p, s, outcomes, r))
  {
    hide Inv;
    var b := BeginRead(p, s);
    if b.reading == Unmatched {
      BegunUnmatched(p, s);
      hide BeginRead;
      FirstHeaderDecides(b, outcomes);
    } else {
      MatchedStays(b, outcomes);
      if s.reading == Idle {
        AtMost(p, s);
        OnlyOneIsRead(p, s, r);
      }
    }
  }

  lemma BegunUnmatched<R, C>(p: Params, s: Client<R, C>)
    requires Inv(p, s)
    ensures var b := BeginRead(p, s);
            && IdsUnique(b) && Placed(b) && b == s.(reading := b.reading, parserFinal := b.parserFinal)
            && (b.reading == Unmatched ==>
                  (s.reading == Unmatched || (s.reading == Idle && !(p.maxConcurrent == 1 && exists id :: id in s.active))))
  {
  }

  lemma AtMost<R, C>(p: Params, s: Client<R, C>)
    requires Inv(p, s)
    ensures |s.active| <= p.maxConcurrent
  {
  }

  // ------------------------------------------------------------------ one round

  /** The callback that a complete reply runs, if it is outstanding. */
  ghost function CallbackOf<R, C>(s: Client<R, C>, r: R): multiset<Job<R, C>> {
    if r in s.callbacks then multiset{Job(r, s.callbacks[r])} else multiset{}
  }

  /** A complete reply for `r` runs the callback of `r` and no other, and `r` is no longer active. After a
      good one the connection goes on, with everybody else's callback outstanding; after a broken one it is
      gone, and everybody else's is due. */
  ghost predicate ReadFor<R, C>(s: Client<R, C>, r: R, error: bool, t: Client<R, C>) {
    && t.book.ran == s.book.ran + CallbackOf(s, r) && t.reading == Idle
    && (forall id :: id in t.active ==> t.active[id] != r)
    && t.alive == !error
    && (!error ==> t.callbacks == s.callbacks - {r} && t.book.due == s.book.due)
    && (error ==> t.callbacks == map[] && t.book.due == s.book.due + Outstanding(s) - CallbackOf(s, r))
  }

  /** A complete reply that is for nobody runs nothing, ends the connection and leaves all callbacks due. */
  ghost predicate ReadForNobody<R, C>(s: Client<R, C>, t: Client<R, C>) {
    && t.book.ran == s.book.ran && !t.alive && !t.reading.Of?
    && t.callbacks == map[] && t.book.due == s.book.due + Outstanding(s)
  }

  lemma DeletedMeans<R, C>(s: Client<R, C>)
    requires Placed(s)
    ensures var t := Deleted(s);
            && t.callbacks == map[] && !t.alive && t.book.ran == s.book.ran && t.reading == s.reading
            && t.book.due == s.book.due + Outstanding(s) && t.active == map[]
  {
    AllAreJobs(s);
    hide Placed, ActiveJobs, JobsOf, Outstanding;
    assert s.book.due + multiset(ActiveJobs(s.active, s.callbacks)) + JobsOf(s.waiting, s.callbacks) ==
           s.book.due + (multiset(ActiveJobs(s.active, s.callbacks)) + JobsOf(s.waiting, s.callbacks));
  }

  lemma AllAreJobs<R, C>(s: Client<R, C>)
    requires Placed(s)
    ensures multiset(ActiveJobs(s.active, s.callbacks)) + JobsOf(s.waiting, s.callbacks) == Outstanding(s)
  {
    JobsOfIsSet(s.waiting, s.callbacks);
    JobsSplit(s);
    hide Placed, ActiveJobs, JobsOf, JobSet;
  }

  lemma OneOutstandingLess<R, C>(s: Client<R, C>, t: Client<R, C>, r: R)
    requires t.callbacks == s.callbacks - {r}
    ensures Outstanding(t) == Outstanding(s) - CallbackOf(s, r) && CallbackOf(s, r) <= Outstanding(s)
  {
    if r in s.callbacks {
      NewOutstanding(t, s, r, s.callbacks[r]);
      assert s.callbacks == t.callbacks[r := s.callbacks[r]];
    } else {
      assert s.callbacks - {r} == s.callbacks;
    }
  }

  lemma CompleteMeans<R, C>(p: Params, s: Client<R, C>, r: R)
    requires Inv(p, s) && s.reading == Of(r)
    ensures r in s.ids && Completes(s, r, Complete(s.(parserFinal := true), r))
  {
    assert Placed(s) && r in s.ids;
    hide Inv;
    AfterComplete(s, r);
  }

  /** The reply to `r` is complete: its callback has run, and it is no longer active. */
  ghost predicate Completes<R, C>(s: Client<R, C>, r: R, t: Client<R, C>) {
    && t.book == s.book.(ran := s.book.ran + CallbackOf(s, r)) && t.callbacks == s.callbacks - {r}
    && t.reading == Idle && t.alive == s.alive && t.waiting == s.waiting
    && forall id :: id in t.active ==> id in s.active && t.active[id] == s.active[id] != r
  }

  lemma AfterComplete<R, C>(s: Client<R, C>, r: R)
    requires Placed(s) && r in s.ids
    ensures Completes(s, r, Complete(s.(parserFinal := true), r))
  {
    HasOneId(s, r);
    hide Placed;
    if r !in s.callbacks {
      assert s.callbacks - {r} == s.callbacks;
    }
  }

  lemma HasOneId<R, C>(s: Client<R, C>, r: R)
    requires Placed(s)
    ensures forall id :: id in s.active && s.active[id] == r ==> r in s.ids && id == s.ids[r]
  {
  }

  lemma {:induction false} WrittenWaited<R, C>(p: Params, s: Client<R, C>)
    requires forall r :: r in s.waiting ==> r in s.ids
    ensures forall id :: id in WriteAll(p, s).active ==> WriteAll(p, s).active[id] in s.waiting || (id in s.active && s.active[id] == WriteAll(p, s).active[id])
    decreases |s.waiting|
  {
    if MayWrite(p, s) {
      WrittenWaited(p, WriteOne(s));
    }
  }

  lemma EndReadMeans<R, C>(p: Params, s: Client<R, C>, error: bool)
    requires Inv(p, s) && s.alive
    ensures forall r :: s.reading == Of(r) ==> ReadFor(s, r, error, EndRead(p, s, true, error))
    ensures !s.reading.Of? ==> ReadForNobody(s, EndRead(p, s, true, error))
  {
    if s.reading.Of? {
      var r := s.reading.request;
      CompleteMeans(p, s, r);
      CompleteKeeps(p, s);
      var u := Complete(s.(parserFinal := true), r);
      OneOutstandingLess(s, u, r);
      assert Placed(u);
      DeletedMeans(u);
      WaitingHaveIds(p, u);
      WriteAllFrame(p, u);
      WrittenWaited(p, u);
      assert r !in s.waiting;
      hide Inv, Agree, Complete, WriteAll, Deleted, Outstanding, CallbackOf;
      DueAfterBroken(s.book.due, Outstanding(s), CallbackOf(s, r));
    } else {
      var d := s.(parserFinal := true);
      assert Placed(d) && Outstanding(d) == Outstanding(s);
      DeletedMeans(d);
    }
  }

  lemma DueAfterBroken<T>(due: multiset<T>, all: multiset<T>, one: multiset<T>)
    requires one <= all
    ensures due + (all - one) == due + all - one
  {
  }

  /** What the parser has made of the data, before it is acted on. */
  ghost predicate Parsed<R(!new), C>(p: Params, s: Client<R, C>, outcomes: seq<Outcome>, t: Client<R, C>) {
    && Inv(p, t) && t.alive == s.alive && t.book == s.book && t.callbacks == s.callbacks
    && forall r :: t.reading == Of(r) <==> Answers(p, s, outcomes, r)
  }

  lemma ParsedIs<R(!new), C>(p: Params, s: Client<R, C>, outcomes: seq<Outcome>, final: bool, error: bool)
    returns (t: Client<R, C>)
    requires Inv(p, s) && s.alive
    ensures Parsed(p, s, outcomes, t) && Read(p, s, outcomes, final, error) == EndRead(p, t, final, error)
  {
    hide Inv, EndRead, Answers;
    BeginReadKeeps(p, s);
    t := IdentifyAll(BeginRead(p, s), outcomes);
    IdentifyAllKeeps(p, BeginRead(p, s), outcomes);
    IdentifyAllFrame(BeginRead(p, s), outcomes);
    forall r ensures t.reading == Of(r) <==> Answers(p, s, outcomes, r) {
      ReadingMeans(p, s, outcomes, r);
    }
  }

  /** Until a reply is complete no callback runs. */
  lemma UnfinishedReadMeans<R(!new), C>(p: Params, s: Client<R, C>, outcomes: seq<Outcome>, error: bool, r: R)
    requires Inv(p, s) && s.alive
    ensures var t := Read(p, s, outcomes, false, error);
            && t.book == s.book && t.callbacks == s.callbacks && t.alive
            && (t.reading == Of(r) <==> Answers(p, s, outcomes, r))
  {
    hide Inv, Read, Answers;
    var t := ParsedIs(p, s, outcomes, false, error);
    NotYet(p, t, error);
  }

  /** A complete reply runs the callback of the request that it is for. */
  lemma ReadMeans<R(!new), C>(p: Params, s: Client<R, C>, outcomes: seq<Outcome>, error: bool, r: R)
    requires Inv(p, s) && s.alive && Answers(p, s, outcomes, r)
    ensures ReadFor(s, r, error, Read(p, s, outcomes, true, error))
  {
    hide Inv, Read, Answers, EndRead;
    var t := ParsedIs(p, s, outcomes, true, error);
    EndReadMeans(p, t, error);
    SameOutstanding(s, t);
    assert CallbackOf(t, r) == CallbackOf(s, r);
  }

  /** If it is for nobody, the connection ends and everybody's callback is due. */
  lemma StrayReadMeans<R(!new), C>(p: Params, s: Client<R, C>, outcomes: seq<Outcome>, error: bool)
    requires Inv(p, s) && s.alive
    ensures (exists r :: Answers(p, s, outcomes, r)) || ReadForNobody(s, Read(p, s, outcomes, true, error))
  {
    hide Inv, Read, Answers, EndRead;
    var t := ParsedIs(p, s, outcomes, true, error);
    if t.reading.Of? {
      assert Answers(p, s, outcomes, t.reading.request);
    } else {
      EndReadMeans(p, t, error);
      SameOutstanding(s, t);
    }
  }

  lemma SameOutstanding<R, C>(s: Client<R, C>, t: Client<R, C>)
    requires t.callbacks == s.callbacks
    ensures Outstanding(t) == Outstanding(s)
  {
  }

  lemma NotYet<R, C>(p: Params, s: Client<R, C>, error: bool)
    requires Inv(p, s)
    ensures EndRead(p, s, false, error) == s
  {
  }

  // ------------------------------------------------------------------ whole runs

  /** In one of the rounds that are read, the reply was found to be for `r`. */
  ghost predicate FoundIn<R, C>(p: Params, s: Client<R, C>, rounds: seq<Round>, r: R)
    requires Inv(p, s) && s.alive
    decreases |rounds|
  {
    rounds != [] &&
    var first := rounds[0];
    var t := Read(p, s, first.outcomes, first.final, first.error);
    ReadKeeps(p, s, first.outcomes, first.final, first.error);
    Found(p, s, first.outcomes, r) || (first.final && t.alive && FoundIn(p, t, rounds[1..], r))
  }

  /** A callback runs, or a reply is being read, only for a request that the reply was found to be for. */
  lemma OneRoundFinds<R(!new), C>(p: Params, s: Client<R, C>, round: Round, job: Job<R, C>)
    requires Inv(p, s) && s.alive
    ensures var t := Read(p, s, round.outcomes, round.final, round.error);
            t.reading == Of(job.request) || t.book.ran[job] > s.book.ran[job] ==> Answers(p, s, round.outcomes, job.request)
    ensures round.final && Read(p, s, round.outcomes, round.final, round.error).alive ==>
              Read(p, s, round.outcomes, round.final, round.error).reading == Idle
  {
    hide Inv, Read, Answers;
    if !round.final {
      UnfinishedReadMeans(p, s, round.outcomes, round.error, job.request);
    } else if exists r :: Answers(p, s, round.outcomes, r) {
      var r :| Answers(p, s, round.outcomes, r);
      ReadMeans(p, s, round.outcomes, round.error, r);
      RunsNoOther(s, r, job);
    } else {
      StrayReadMeans(p, s, round.outcomes, round.error);
    }
  }

  lemma RunsNoOther<R, C>(s: Client<R, C>, r: R, job: Job<R, C>)
    ensures job in CallbackOf(s, r) ==> job.request == r
  {
  }

  lemma {:induction false} ReadingFinds<R(!new), C>(p: Params, s: Client<R, C>, rounds: seq<Round>, job: Job<R, C>)
    requires Inv(p, s) && s.alive
    ensures var t := ReadMany(p, s, rounds);
            t.reading == Of(job.request) || t.book.ran[job] > s.book.ran[job] ==>
              s.reading == Of(job.request) || FoundIn(p, s, rounds, job.request)
    decreases |rounds|
  {
    hide Inv, Read, Found;
    if rounds != [] {
      var first := rounds[0];
      ReadKeeps(p, s, first.outcomes, first.final, first.error);
      OneRoundFinds(p, s, first, job);
      var t := Read(p, s, first.outcomes, first.final, first.error);
      if first.final && t.alive {
        ReadingFinds(p, t, rounds[1..], job);
      }
    }
  }

  /** An event of a run finds a reply to be for `r`. */
  ghost predicate FoundAt<R, C>(p: Params, states: seq<Client<R, C>>, events: seq<Event<R, C>>, i: nat, r: R) {
    && i < |states| && i < |events| && events[i].DataRead?
    && Inv(p, states[i]) && states[i].alive && FoundIn(p, states[i], events[i].rounds, r)
  }

  /** In every run, what is being read was found to be the reply to its request by some read before. */
  lemma {:induction false} ReadWasFound<R(!new), C>(
    p: Params, states: seq<Client<R, C>>, events: seq<Event<R, C>>, n: nat, job: Job<R, C>)
    requires IsRun(p, states, events) && n < |states| && states[n].reading == Of(job.request)
    ensures exists i :: 0 <= i < n && FoundAt(p, states, events, i, job.request)
  {
    hide Inv, Follows, FoundIn, ReadMany;
    if n > 0 {
      var i := n - 1;
      EveryRunKeepsPlaces(p, states, events, i);
      assert Follows(p, states[i], events[i], states[i + 1]);
      EventFinds(p, states[i], events[i], states[n], job);
      if states[i].reading == Of(job.request) {
        ReadWasFound(p, states, events, i, job);
      } else {
        assert FoundAt(p, states, events, i, job.request);
      }
    }
  }

  /** Reading apart, no event changes what is being read. */
  lemma EventFinds<R(!new), C>(p: Params, s: Client<R, C>, e: Event<R, C>, t: Client<R, C>, job: Job<R, C>)
    requires Inv(p, s) && Follows(p, s, e, t) && t.reading == Of(job.request)
    ensures s.reading == Of(job.request) || (e.DataRead? && s.alive && FoundIn(p, s, e.rounds, job.request))
  {
    hide Agree, ReadMany, FoundIn, WriteAll, ActiveJobs, JobsOf;
    match e
    case DataRead(rounds) => ReadingFinds(p, s, rounds, job);
    case Write =>
      WaitingHaveIds(p, s);
      WriteAllFrame(p, s);
    case Send(r, c, wish, connection) =>
      SubmitHasIds(p, s, r, c, wish);
      WriteAllFrame(p, Submit(p, s, r, c, wish));
    case _ =>
  }

  /** In every run, a read runs the callback of a request only if that read, or one before, found the
      reply to be for it: its id was named, or it was the only active one with one at a time. */
  lemma CallbackWasFound<R(!new), C>(
    p: Params, states: seq<Client<R, C>>, events: seq<Event<R, C>>, n: nat, job: Job<R, C>)
    requires IsRun(p, states, events) && n < |events| && events[n].DataRead?
    requires states[n + 1].book.ran[job] > states[n].book.ran[job]
    ensures exists i :: 0 <= i <= n && FoundAt(p, states, events, i, job.request)
  {
    hide Inv, FoundIn, ReadMany, Found;
    EveryRunKeepsPlaces(p, states, events, n);
    assert Follows(p, states[n], events[n], states[n + 1]);
    ReadingFinds(p, states[n], events[n].rounds, job);
    if states[n].reading == Of(job.request) {
      ReadWasFound(p, states, events, n, job);
    } else {
      assert FoundAt(p, states, events, n, job.request);
    }
  }

  // ------------------------------------------------------------------ timeouts and ids

  /** A timeout resolves the request with that id, if it is active, and nobody else. */
  lemma TimedOutMeans<R, C>(p: Params, s: Client<R, C>, id: int)
    requires Inv(p, s)
    ensures var t := TimedOut(s, id);
            && (id !in s.active ==> t == s)
            && (id in s.active ==>
                  && t.book == s.book.(ran := s.book.ran + CallbackOf(s, s.active[id]))
                  && t.callbacks == s.callbacks - {s.active[id]} && t.active == s.active - {id} && CallbackOf(s, s.active[id]) != multiset{}
                  && t.waiting == s.waiting && t.ids == s.ids && t.reading == s.reading && t.alive == s.alive && t.nextId == s.nextId)
  {
    if id in s.active {
      assert s.active[id] in s.callbacks;
      assert Job(s.active[id], s.callbacks[s.active[id]]) in CallbackOf(s, s.active[id]);
    }
  }

  /** A request that carries an id from ahead keeps it, and any other gets the next one; later ids are
      greater in either case. */
  lemma IdMeans<R, C>(p: Params, s: Client<R, C>, r: R, c: C, wish: int)
    requires s.alive
    ensures var t := Submit(p, s, r, c, wish);
            && r in t.ids && t.ids[r] == (if wish > s.nextId then wish else s.nextId) && t.nextId == t.ids[r] + 1
            && (forall q :: q in s.ids && q != r ==> q in t.ids && t.ids[q] == s.ids[q])
  {
  }

  // ------------------------------------------------------------------ several rounds

  /** Each of the replies is complete and leaves the connection alive. */
  ghost predicate AllComplete<R, C>(p: Params, s: Client<R, C>, rounds: seq<Round>)
    requires Inv(p, s) && s.alive
    decreases |rounds|
  {
    rounds == [] ||
    var first := rounds[0];
    var t := Read(p, s, first.outcomes, first.final, first.error);
    ReadKeeps(p, s, first.outcomes, first.final, first.error);
    first.final && t.alive && AllComplete(p, t, rounds[1..])
  }

  /** Replies that have arrived together are read like replies that arrive one after the other, up to the
      first that is incomplete or ends the connection; what follows that one is not read. */
  lemma {:induction false} ReadInTurn<R, C>(p: Params, s: Client<R, C>, some: seq<Round>, more: seq<Round>)
    requires Inv(p, s) && s.alive
    ensures var t := ReadMany(p, s, some);
            if AllComplete(p, s, some)
            then Inv(p, t) && t.alive && ReadMany(p, s, some + more) == ReadMany(p, t, more)
            else ReadMany(p, s, some + more) == t
    ensures forall round :: ReadMany(p, s, [round]) == Read(p, s, round.outcomes, round.final, round.error)
    decreases |some|
  {
    hide Inv, Read;
    forall round ensures ReadMany(p, s, [round]) == Read(p, s, round.outcomes, round.final, round.error) {
      ReadKeeps(p, s, round.outcomes, round.final, round.error);
      assert [round][1..] == [];
    }
    if some == [] {
      assert some + more == more;
    } else {
      var first := some[0];
      assert (some + more)[0] == first && (some + more)[1..] == some[1..] + more;
      ReadKeeps(p, s, first.outcomes, first.final, first.error);
      var t := Read(p, s, first.outcomes, first.final, first.error);
      if first.final && t.alive {
        ReadInTurn(p, t, some[1..], more);
      }
    }
  }
}
