/**
 Clients that resolve a URL more than once per round, as the collector does.  What any client is
 handed was answered by the server, but not always in the server's order.
 */
module EecRounds {
  import opened Options
  import opened EecProtocol
  import opened EecWatchers
  import opened EecCache
  import opened EecClient
  import opened EecPaths

  // ---------------------------------------------------------------- any client

  lemma {:induction false} AnswerSeen(h: HashFn, run: seq<Step>, id: nat, b: Body)
    requires IsRun(h, run) && b in LifeOf(run, id).answers
    ensures id < |After(h, run).sessions| && b in Answers(run, After(h, run).sessions[id].url)
  {
    var n := |run| - 1;
    var front, t := run[..n], run[n];
    if b in LifeOf(front, id).answers {
      AnswerSeen(h, front, id, b);
      SessionsGrow(h, After(h, front), t, id);
    } else {
      assert t.PollOk? && t.id == id && t.body == b;
    }
  }

  lemma PublishedWasAnswered(h: HashFn, run: seq<Step>, j: nat)
    requires IsRun(h, run) && j < |run| && run[j].Publish?
    ensures run[j].body in Answers(run[..j], run[j].url)
  {
    RunAt(h, run, j);
    LivesFitRuns(h, run[..j]);
    var id, l := run[j].id, LifeOf(run[..j], run[j].id);
    assert FitsAt(h, After(h, run[..j]), l, id);
    assert l.answers[|l.answers| - 1] == run[j].body;
    AnswerSeen(h, run[..j], id, run[j].body);
  }

  lemma {:induction false} AnswersGrow(run: seq<Step>, u: Url, j: nat, n: nat, b: Body)
    requires j <= n <= |run| && b in Answers(run[..j], u)
    ensures b in Answers(run[..n], u)
  {
    if j < n {
      AnswersGrow(run, u, j, n - 1, b);
      assert run[..n][..n - 1] == run[..n - 1];
    }
  }

  lemma DeletedWasAnswered(h: HashFn, run: seq<Step>, d: nat)
    requires IsRun(h, run) && d < |run| && run[d].Delete?
    ensures run[d].body in Answers(run[..d], run[d].url)
  {
    var i := DeleteHasLook(h, run, d);
    var j := HitHasPublication(h, run, i);
    PublishedWasAnswered(h, run, j);
    AnswersGrow(run, run[d].url, j, d, run[d].body);
  }

  /** Whatever the clients do, a configuration handed out is one the server answered for that URL. */
  lemma {:induction false} ReturnedWereAnswered(h: HashFn, run: seq<Step>, u: Url, b: Body)
    requires IsRun(h, run) && b in Returned(run, u)
    ensures b in Answers(run, u)
  {
    var n := |run| - 1;
    if b in Returned(run[..n], u) {
      ReturnedWereAnswered(h, run[..n], u, b);
    } else if run[n].Delete? {
      DeletedWasAnswered(h, run, n);
    }
  }

  /** What a hit serves differs by hash from what the session that published it was served itself. */
  lemma HitDiffersFromPublisher(h: HashFn, run: seq<Step>, i: nat) returns (j: nat)
    requires IsRun(h, run) && i < |run| && IsHit(run[i])
    ensures Feeds(run, j, i)
    ensures var l := LifeOf(run[..j], run[j].id);
      l.base.Some? && h(l.base.value) != h(run[i].found.value)
  {
    j := HitHasPublication(h, run, i);
    RunAt(h, run, j);
    LivesFitRuns(h, run[..j]);
    assert FitsAt(h, After(h, run[..j]), LifeOf(run[..j], run[j].id), run[j].id);
  }

  // ---------------------------------------------------------------- two calls per round

  function Calls(run: seq<Step>, u: Url): nat {
    if run == [] then 0 else Calls(run[..|run| - 1], u) + if Looks(run[|run| - 1], u) then 1 else 0
  }

  /** The client has been notified since its last call. */
  predicate NotifiedSince(run: seq<Step>, u: Url) {
    run != [] &&
    var t := run[|run| - 1];
    if t.Notify? && t.url == u then true else !Looks(t, u) && NotifiedSince(run[..|run| - 1], u)
  }

  /** Every call for `u` so far has started its watcher. */
  ghost predicate AllStarted(s: State, u: Url) {
    forall id: nat :: Has(s, u, id) ==> Joined(s.sessions[id].phase) && !s.sessions[id].phase.Registered?
  }

  /** The client resolves `u` twice in a row at the start and after each notification. */
  ghost predicate TwiceRun(h: HashFn, run: seq<Step>, u: Url)
    ensures TwiceRun(h, run, u) ==> IsRun(h, run)
  {
    IsRun(h, run) &&
    (run == [] ||
     var front, t := run[..|run| - 1], run[|run| - 1];
     && TwiceRun(h, front, u)
     && (Looks(t, u) ==>
           && t.watching && AllStarted(After(h, front), u)
           && (Calls(front, u) % 2 == 1 || Calls(front, u) == 0 || NotifiedSince(front, u))))
  }

  lemma CallExtends(h: HashFn, run: seq<Step>, s: State, t: Step, s': State, u: Url)
    requires TwiceRun(h, run, u) && Replay(h, run) == Some(s) && Leads(h, s, t, s')
    requires Looks(t, u) ==> t.watching && AllStarted(s, u) && (Calls(run, u) % 2 == 1 || Calls(run, u) == 0 || NotifiedSince(run, u))
    ensures TwiceRun(h, run + [t], u) && Replay(h, run + [t]) == Some(s')
    ensures Calls(run + [t], u) == Calls(run, u) + if Looks(t, u) then 1 else 0
    ensures t.Notify? && t.url == u ==> NotifiedSince(run + [t], u)
  {
    RunExtend(h, run, t);
    assert (run + [t])[..|run|] == run;
  }

  lemma PathFront(h: HashFn, ss: seq<State>, more: seq<Step>)
    requires Path(h, ss, more) && more != []
    ensures var n := |more| - 1;
      Path(h, ss[..n + 1], more[..n]) && ss[..n + 1][n] == ss[n] && Leads(h, ss[n], more[n], ss[n + 1])
  {
    var n := |more| - 1;
    forall k | 0 <= k < n
      ensures Leads(h, ss[..n + 1][k], more[..n][k], ss[..n + 1][k + 1])
    {
      assert Leads(h, ss[k], more[k], ss[k + 1]);
    }
  }

  lemma QuietStep(h: HashFn, run: seq<Step>, more: seq<Step>, s: State, s': State, u: Url)
    requires more != [] && TwiceRun(h, run + more[..|more| - 1], u) && Replay(h, run + more[..|more| - 1]) == Some(s)
    requires Leads(h, s, more[|more| - 1], s') && !Looks(more[|more| - 1], u)
    ensures TwiceRun(h, run + more, u) && Replay(h, run + more) == Some(s')
    ensures Calls(run + more, u) == Calls(run + more[..|more| - 1], u)
  {
    var front, t := run + more[..|more| - 1], more[|more| - 1];
    CallExtends(h, front, s, t, s', u);
    assert run + more == front + [t];
  }

  lemma {:induction false} QuietExtends(h: HashFn, run: seq<Step>, ss: seq<State>, more: seq<Step>, u: Url)
    requires TwiceRun(h, run, u) && Path(h, ss, more) && Replay(h, run) == Some(ss[0])
    requires forall k :: 0 <= k < |more| ==> !Looks(more[k], u)
    ensures TwiceRun(h, run + more, u) && Replay(h, run + more) == Some(ss[|more|])
    ensures Calls(run + more, u) == Calls(run, u)
    decreases |more|
  {
    if more == [] {
      assert run + more == run;
    } else {
      var n := |more| - 1;
      PathFront(h, ss, more);
      QuietExtends(h, run, ss[..n + 1], more[..n], u);
      QuietStep(h, run, more, ss[n], ss[n + 1], u);
    }
  }

  lemma FirstCallHolds(h: HashFn, u: Url, base: Body, b: Body) returns (s: State)
    requires h(base) != h(b)
    ensures s == State(map[], map[u := 0], false, [Session(u, true, base, Changed(b), false, false)])
    ensures TwiceRun(h, HoldingChange(u, 0, None, base, b), u) && Calls(HoldingChange(u, 0, None, base, b), u) == 1
    ensures Replay(h, HoldingChange(u, 0, None, base, b)) == Some(s)
  {
    var more := HoldingChange(u, 0, None, base, b);
    var ss := HoldingPath(INIT, u, base, b);
    HoldsPath(h, INIT, u, base, b);
    assert Leads(h, ss[0], more[0], ss[1]);
    CallExtends(h, [], INIT, more[0], ss[1], u);
    assert [] + [more[0]] == [more[0]];
    QuietExtends(h, [more[0]], ss[1..], more[1..], u);
    assert [more[0]] + more[1..] == more;
    s := ss[7];
    assert s.sessions == [Session(u, true, base, Changed(b), false, false)];
  }

  /** From the second call's lookup on: it is answered `b'`, and then the first call's watcher publishes after all. */
  function LateChange(u: Url, b: Body, b': Body): seq<Step> {
    [DirectRequest(u, 1, true, false), FetchOk(u, 1, b'), Register(u, 1, Some(0)), Spawn(u, 1), Publish(u, 0, b)]
  }

  lemma SecondJoins(h: HashFn, u: Url, e0: Session, b': Body)
    ensures var s, s' := State(map[], map[u := 0], false, [e0]), State(map[], map[u := 1], false, [e0.(cancelled := true)]);
      var e2 := Session(u, true, b', Served, true, false);
      && Leads(h, NewSession(s, e2), Register(u, 1, Some(0)), NewSession(s', e2.(phase := Registered)))
      && Leads(h, NewSession(s', e2.(phase := Registered)), Spawn(u, 1), NewSession(s', e2.(phase := Idle)))
  {
    var s := State(map[], map[u := 0], false, [e0]);
    NewSessionJoins(h, s, u, b');
    assert map[u := 0][u := 1] == map[u := 1];
    assert Joining(s, u).sessions == [e0.(cancelled := true)];
  }

  lemma LatePublish(h: HashFn, u: Url, e0: Session, e1: Session, b: Body)
    requires e0.url == u && e0.phase == Changed(b)
    ensures Leads(h, NewSession(State(map[], map[u := 1], false, [e0]), e1), Publish(u, 0, b),
                  State(map[u := b], map[u := 1], false, [e0.(phase := Published(b)), e1]))
  {
  }

  lemma LateChangePath(h: HashFn, u: Url, base: Body, b: Body, b': Body) returns (ss: seq<State>)
    ensures Path(h, ss, LateChange(u, b, b'))
    ensures ss[0] == State(map[], map[u := 0], false, [Session(u, true, base, Changed(b), false, false), Begun(u, true, None)])
    ensures ss[5] == State(map[u := b], map[u := 1], false,
                           [Session(u, true, base, Published(b), false, true), Session(u, true, b', Idle, true, false)])
  {
    var e0, e1 := Session(u, true, base, Changed(b), false, false), Begun(u, true, None);
    var e2 := Session(u, true, b', Served, true, false);
    var c0 := e0.(cancelled := true);
    var s := State(map[], map[u := 0], false, [e0]);
    var s' := State(map[], map[u := 1], false, [c0]);
    NewSessionLooks(h, s, u, b');
    SecondJoins(h, u, e0, b');
    var last := State(map[u := b], map[u := 1], false, [c0.(phase := Published(b)), e2.(phase := Idle)]);
    LatePublish(h, u, c0, e2.(phase := Idle), b);
    ss := [NewSession(s, e1), NewSession(s, e1.(phase := Fetching)), NewSession(s, e2),
           NewSession(s', e2.(phase := Registered)), NewSession(s', e2.(phase := Idle)), last];
  }

  /** The next round's first call is handed `b`. */
  lemma HandedLate(h: HashFn, run: seq<Step>, s: State, u: Url, base: Body, b: Body, b': Body)
    requires TwiceRun(h, run, u) && Replay(h, run) == Some(s) && Calls(run, u) == 2
    requires s == State(map[u := b], map[u := 1], false,
                        [Session(u, true, base, Published(b), false, true), Session(u, true, b', Idle, true, false)])
    ensures TwiceRun(h, run + [Notify(u, 0)] + [Look(u, 2, true, Some(b))] + [Delete(u, 2, b)], u)
  {
    var e0, e1, e2 := Session(u, true, base, Exited(true), false, true), Session(u, true, b', Idle, true, false), Begun(u, true, Some(b));
    var s1 := s.(sessions := [e0, e1]);
    var s2 := s.(sessions := [e0, e1, e2]);
    var s3 := s.(cache := map[], sessions := [e0, e1, e2.(phase := Served)]);
    assert Leads(h, s, Notify(u, 0), s1);
    CallExtends(h, run, s, Notify(u, 0), s1, u);
    assert Leads(h, s1, Look(u, 2, true, Some(b)), s2);
    CallExtends(h, run + [Notify(u, 0)], s1, Look(u, 2, true, Some(b)), s2, u);
    assert Leads(h, s2, Delete(u, 2, b), s3);
    CallExtends(h, run + [Notify(u, 0)] + [Look(u, 2, true, Some(b))], s2, Delete(u, 2, b), s3, u);
  }

  function RegressingRun(u: Url, base: Body, b: Body, b': Body): seq<Step> {
    HoldingChange(u, 0, None, base, b) + [Look(u, 1, true, None)] + LateChange(u, b, b')
    + [Notify(u, 0)] + [Look(u, 2, true, Some(b))] + [Delete(u, 2, b)]
  }

  lemma OrderOfAnswers(u: Url, base: Body, b: Body, b': Body)
    ensures var run := RegressingRun(u, base, b, b');
      |run| == 16 && run[2] == FetchOk(u, 0, base) && run[6] == PollOk(u, 0, b) && run[9] == FetchOk(u, 1, b') && run[15] == Delete(u, 2, b)
  {
  }

  /**
   Resolving twice per round can hand out an older configuration behind a newer one: the server
   answers `base`, `b`, `b'` in this order, and the client is handed `base`, `b'`, `b`.
   */
  lemma TwicePerRoundRegresses(h: HashFn, u: Url, base: Body, b: Body, b': Body)
    requires h(base) != h(b)
    ensures var run := RegressingRun(u, base, b, b');
      && TwiceRun(h, run, u) && |run| == 16
      && run[2] == FetchOk(u, 0, base) && run[6] == PollOk(u, 0, b) && run[9] == FetchOk(u, 1, b') && run[15] == Delete(u, 2, b)
  {
    OrderOfAnswers(u, base, b, b');
    var held, look := HoldingChange(u, 0, None, base, b), Look(u, 1, true, None);
    var s := FirstCallHolds(h, u, base, b);
    var ss := LateChangePath(h, u, base, b, b');
    assert Leads(h, s, look, ss[0]);
    CallExtends(h, held, s, look, ss[0], u);
    QuietExtends(h, held + [look], ss, LateChange(u, b, b'), u);
    HandedLate(h, held + [look] + LateChange(u, b, b'), ss[5], u, base, b, b');
  }
}
