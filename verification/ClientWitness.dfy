/** A run in which a request that timed out is sent again while its reply is still arriving. */
module ClientWitness {
  import opened ClientModel

  const ONE_AT_A_TIME := Params(1, 10)

  /** With nothing active and nothing waiting, a request is written at once. */
  lemma SentAtOnce(s: Client<int, int>, r: int)
    requires Inv(ONE_AT_A_TIME, s) && s.alive && s.active == map[] && s.waiting == [] && s.callbacks == map[]
    ensures var t := Sent(ONE_AT_A_TIME, s, r, 0, 0, Open);
            && t.active == map[s.nextId := r] && t.waiting == [] && t.callbacks == map[r := 0] && t.alive
            && t.reading == s.reading && t.nextId == s.nextId + 1
  {
    var t := Submit(ONE_AT_A_TIME, s, r, 0, 0);
    SubmitHasIds(ONE_AT_A_TIME, s, r, 0, 0);
    var u := WriteOne(t);
    assert t.waiting == [r] && u.waiting == [] && u.active == map[s.nextId := r];
    assert WriteAll(ONE_AT_A_TIME, t) == WriteAll(ONE_AT_A_TIME, u) == u;
  }

  /** The reply to the only active request begins to arrive. */
  lemma ReplyBegins(s: Client<int, int>, id: int, r: int)
    requires Inv(ONE_AT_A_TIME, s) && s.active == map[id := r] && s.reading == Idle && s.alive
    ensures ReadMany(ONE_AT_A_TIME, s, [Round([], false, false)]) == s.(parserFinal := false, reading := Of(r))
  {
    ReadKeeps(ONE_AT_A_TIME, s, [], false, false);
    assert id in s.active;
    OnlyActive(s.active, id);
  }

  lemma TimesOut(s: Client<int, int>, id: int, r: int)
    requires s.active == map[id := r] && s.callbacks == map[r := 0]
    ensures var t := TimedOut(s, id);
            && t.active == map[] && t.callbacks == map[] && t.waiting == s.waiting
            && t.reading == s.reading && t.alive == s.alive && t.nextId == s.nextId
  {
  }

  /** A request that may not be sent is reached: sending it leaves it queued without a callback. */
  lemma LostRequestIsReached()
    ensures exists states: seq<Client<int, int>>, events: seq<Event<int, int>> ::
              && IsRun(ONE_AT_A_TIME, states, events)
              && var s := states[|events|];
                 && Inv(ONE_AT_A_TIME, s) && s.alive && !MaySend(ONE_AT_A_TIME, s, 7, 0, Open)
                 && var t := Sent(ONE_AT_A_TIME, s, 7, 0, 0, Open);
                    7 in t.ids && 7 in Complete(t, 7).waiting && 7 !in Complete(t, 7).callbacks
  {
    hide Orderly, Submit, WriteAll, ReadMany, TimedOut;
    var p := ONE_AT_A_TIME;
    NewIsInOrder<int, int>(p);
    var s0 := NewClient<int, int>();
    var e0 := Event<int, int>.Send(7, 0, 0, Open);
    SentAtOnce(s0, 7);
    SentKeeps(p, s0, 7, 0, 0, Open);
    var s1 := Sent(p, s0, 7, 0, 0, Open);
    var e1 := Event<int, int>.DataRead([Round([], false, false)]);
    ReplyBegins(s1, 1, 7);
    ReadManyKeeps(p, s1, [Round([], false, false)]);
    var s2 := ReadMany(p, s1, [Round([], false, false)]);
    var e2 := Event<int, int>.Timeout(1);
    TimesOut(s2, 1, 7);
    TimedOutKeeps(p, s2, 1);
    var s3 := TimedOut(s2, 1);
    var e3 := Event<int, int>.Send(8, 0, 0, Open);
    SentAtOnce(s3, 8);
    SentKeeps(p, s3, 8, 0, 0, Open);
    var s4 := Sent(p, s3, 8, 0, 0, Open);
    SentAgainIsLost(p, s4, 7, 0, 0);
    hide Sent, Complete, Placed;
    var states, events := [s0, s1, s2, s3, s4], [e0, e1, e2, e3];
    assert Follows(p, s0, e0, s1) && Follows(p, s1, e1, s2) && Follows(p, s2, e2, s3) && Follows(p, s3, e3, s4);
    assert IsRun(p, states, events);
    assert states[|events|] == s4;
  }
}
