/** Two runs in which windows overlap or contain a publication, and the one-shot cache fails. */
module EecOverlaps {
  import opened Options
  import opened EecProtocol
  import opened EecCache
  import opened EecPaths

  // ---------------------------------------------------------------- one publication, two calls

  lemma HeldOnce(h: HashFn, u: Url, base: Body, b: Body)
    requires h(base) != h(b)
    ensures Replay(h, HoldingChange(u, 0, None, base, b))
            == Some(State(map[], map[u := 0], false, [Session(u, true, base, Changed(b), false, false)]))
  {
    var e := Session(u, true, base, Changed(b), false, false);
    HoldsChange(h, [], INIT, u, base, b);
    assert [] + HoldingChange(u, 0, None, base, b) == HoldingChange(u, 0, None, base, b);
    assert NewSession(Joining(INIT, u), e) == State(map[], map[u := 0], false, [e]);
  }

  lemma TwoLooks(h: HashFn, u: Url, s: State, b: Body)
    requires Lookup(s.cache, u) == Some(b)
    ensures var s' := NewSession(s, Begun(u, true, Some(b)));
      && Leads(h, s, Look(u, |s.sessions|, true, Some(b)), s')
      && Leads(h, s', Look(u, |s.sessions| + 1, true, Some(b)), NewSession(s', Begun(u, true, Some(b))))
  {
  }

  /** Two lookups before the first delete: one publication serves two calls. */
  lemma ServedTwice(h: HashFn, u: Url, base: Body, b: Body)
    requires h(base) != h(b)
    ensures var run := HoldingChange(u, 0, None, base, b) + [Publish(u, 0, b), Look(u, 1, true, Some(b)), Look(u, 2, true, Some(b))];
      IsRun(h, run) && Feeds(run, 7, 8) && Feeds(run, 7, 9)
  {
    var held, more := HoldingChange(u, 0, None, base, b), [Publish(u, 0, b), Look(u, 1, true, Some(b)), Look(u, 2, true, Some(b))];
    var s0 := State(map[], map[u := 0], false, [Session(u, true, base, Changed(b), false, false)]);
    var s1 := State(map[u := b], map[u := 0], false, [Session(u, true, base, Published(b), false, false)]);
    var s2 := NewSession(s1, Begun(u, true, Some(b)));
    HeldOnce(h, u, base, b);
    TwoLooks(h, u, s1, b);
    assert Leads(h, s0, more[0], s1);
    RunPath(h, held, [s0, s1, s2, NewSession(s2, Begun(u, true, Some(b)))], more);
    FeedsBoth(held, u, b);
  }

  lemma FeedsBoth(held: seq<Step>, u: Url, b: Body)
    ensures var n, run := |held|, held + [Publish(u, 0, b), Look(u, 1, true, Some(b)), Look(u, 2, true, Some(b))];
      Feeds(run, n, n + 1) && Feeds(run, n, n + 2)
  {
    var n, run := |held|, held + [Publish(u, 0, b), Look(u, 1, true, Some(b)), Look(u, 2, true, Some(b))];
    assert run[n] == Publish(u, 0, b) && run[n + 1] == Look(u, 1, true, Some(b)) && run[n + 2] == Look(u, 2, true, Some(b));
    assert LastPublication(run, u, n, n + 1) && LastPublication(run, u, n, n + 2);
  }

  // ---------------------------------------------------------------- a publication that serves nobody

  /** Two sessions hold a change each; the older has been cancelled by the younger. */
  function BothHold(u: Url, base: Body, b: Body, b': Body): State {
    State(map[], map[u := 1], false,
          [Session(u, true, base, Changed(b'), false, true), Session(u, true, base, Changed(b), false, false)])
  }

  lemma HeldTwice(h: HashFn, u: Url, base: Body, b: Body, b': Body)
    requires h(base) != h(b) && h(base) != h(b')
    ensures Replay(h, HoldingChange(u, 0, None, base, b') + HoldingChange(u, 1, Some(0), base, b)) == Some(BothHold(u, base, b, b'))
  {
    var s := State(map[], map[u := 0], false, [Session(u, true, base, Changed(b'), false, false)]);
    var e := Session(u, true, base, Changed(b), false, false);
    HeldOnce(h, u, base, b');
    HoldsChange(h, HoldingChange(u, 0, None, base, b'), s, u, base, b);
    assert NewSession(Joining(s, u), e).sessions == BothHold(u, base, b, b').sessions;
    assert map[u := 0][u := 1] == map[u := 1];
  }

  /** The younger publishes and a call looks it up; the older publishes; then the call deletes. */
  function Clobbering(u: Url, b: Body, b': Body): seq<Step> {
    [Publish(u, 1, b), Look(u, 2, true, Some(b)), Publish(u, 0, b'), Delete(u, 2, b)]
  }

  lemma Clobbers(h: HashFn, run: seq<Step>, u: Url, base: Body, b: Body, b': Body) returns (s: State)
    requires Replay(h, run) == Some(BothHold(u, base, b, b'))
    ensures Replay(h, run + Clobbering(u, b, b')) == Some(s) && u !in s.cache && |s.sessions| == 3
  {
    var e0, e1 := Session(u, true, base, Published(b'), false, true), Session(u, true, base, Published(b), false, false);
    var s0 := BothHold(u, base, b, b');
    var s1 := s0.(cache := map[u := b], sessions := [e0.(phase := Changed(b')), e1]);
    var s2 := s1.(sessions := [e0.(phase := Changed(b')), e1, Begun(u, true, Some(b))]);
    var s3 := s1.(cache := map[u := b'], sessions := [e0, e1, Begun(u, true, Some(b))]);
    s := s1.(cache := map[], sessions := [e0, e1, Begun(u, true, Some(b)).(phase := Served)]);
    var more := Clobbering(u, b, b');
    assert Leads(h, s0, more[0], s1);
    assert Leads(h, s1, more[1], s2);
    assert Leads(h, s2, more[2], s3);
    assert Leads(h, s3, more[3], s);
    RunPath(h, run, [s0, s1, s2, s3, s], more);
  }

  lemma LastStaysUnserved(run: seq<Step>, u: Url, b: Body, b': Body)
    ensures Unserved(run + Clobbering(u, b, b'), u) == Some(b')
  {
    var all := run + Clobbering(u, b, b');
    assert all[|all| - 2] == Publish(u, 0, b') && all[|all| - 1] == Delete(u, 2, b);
    assert all[..|all|] == all;
    UnservedFrom(all, u, |all|, |all| - 2);
  }

  /** A publication between a lookup and its delete serves nobody, and the next call asks the server. */
  lemma PublicationLost(h: HashFn, u: Url, base: Body, b: Body, b': Body)
    requires h(base) != h(b) && h(base) != h(b')
    ensures var run := HoldingChange(u, 0, None, base, b') + HoldingChange(u, 1, Some(0), base, b) + Clobbering(u, b, b');
      IsRun(h, run + [Look(u, 3, true, None)]) && Unserved(run, u) == Some(b')
  {
    var held := HoldingChange(u, 0, None, base, b') + HoldingChange(u, 1, Some(0), base, b);
    HeldTwice(h, u, base, b, b');
    var s := Clobbers(h, held, u, base, b, b');
    RunExtend(h, held + Clobbering(u, b, b'), Look(u, 3, true, None));
    LastStaysUnserved(held, u, b, b');
  }
}
