/** Building concrete runs: label by label along given states, and a session up to a change it holds. */
module EecPaths {
  import opened Options
  import opened EecProtocol

  /** The steps of a new session, from its lookup to an answer of its watcher that differs. */
  function HoldingChange(u: Url, id: nat, displaced: Option<nat>, base: Body, b: Body): seq<Step> {
    [Look(u, id, true, None), DirectRequest(u, id, true, false), FetchOk(u, id, base), Register(u, id, displaced),
     Spawn(u, id), PollRequest(u, id, false, true), PollOk(u, id, b)]
  }

  /** The labels of `more` lead from state to state along `ss`. */
  ghost predicate Path(h: HashFn, ss: seq<State>, more: seq<Step>) {
    |ss| == |more| + 1 && forall k :: 0 <= k < |more| ==> Leads(h, ss[k], more[k], ss[k + 1])
  }

  ghost predicate Leads(h: HashFn, s: State, t: Step, s': State) {
    Enabled(s, t) && Next(h, s, t) == s'
  }

  lemma {:induction false} RunPath(h: HashFn, run: seq<Step>, ss: seq<State>, more: seq<Step>)
    requires Path(h, ss, more) && Replay(h, run) == Some(ss[0])
    ensures Replay(h, run + more) == Some(ss[|more|])
    decreases |more|
  {
    if more == [] {
      assert run + more == run;
    } else {
      var n := |more| - 1;
      RunPath(h, run, ss[..n + 1], more[..n]);
      assert Leads(h, ss[n], more[n], ss[n + 1]);
      RunExtend(h, run + more[..n], more[n]);
      assert run + more == run + more[..n] + [more[n]];
    }
  }

  /** The states of a session on its way to hold a change, over those of the other sessions. */
  function NewSession(s: State, e: Session): State {
    s.(sessions := s.sessions + [e])
  }

  function Joining(s: State, u: Url): State {
    s.(cancelMap := s.cancelMap[u := |s.sessions|], sessions := SetCancelled(s.sessions, Lookup(s.cancelMap, u)))
  }

  lemma SetLast(ss: seq<Session>, e: Session, e': Session)
    ensures (ss + [e])[|ss|] == e && (ss + [e])[|ss| := e'] == ss + [e']
  {
  }

  lemma NewSessionLooks(h: HashFn, s: State, u: Url, base: Body)
    requires u !in s.cache
    ensures var id, e := |s.sessions|, Session(u, true, "", Missed, true, false);
      && Leads(h, s, Look(u, id, true, None), NewSession(s, e))
      && Leads(h, NewSession(s, e), DirectRequest(u, id, true, false), NewSession(s, e.(phase := Fetching)))
      && Leads(h, NewSession(s, e.(phase := Fetching)), FetchOk(u, id, base), NewSession(s, e.(base := base, phase := Served)))
  {
    var e := Session(u, true, "", Missed, true, false);
    SetLast(s.sessions, e, e.(phase := Fetching));
    SetLast(s.sessions, e.(phase := Fetching), e.(base := base, phase := Served));
  }

  lemma NewSessionJoins(h: HashFn, s: State, u: Url, base: Body)
    requires u in s.cancelMap ==> s.cancelMap[u] < |s.sessions|
    ensures var id, e, s' := |s.sessions|, Session(u, true, base, Served, true, false), Joining(s, u);
      && Leads(h, NewSession(s, e), Register(u, id, Lookup(s.cancelMap, u)), NewSession(s', e.(phase := Registered)))
      && Leads(h, NewSession(s', e.(phase := Registered)), Spawn(u, id), NewSession(s', e.(phase := Idle)))
  {
    var e, d, s' := Session(u, true, base, Served, true, false), Lookup(s.cancelMap, u), Joining(s, u);
    assert SetCancelled(s.sessions + [e], d) == s'.sessions + [e];
    SetLast(s'.sessions, e, e.(phase := Registered));
    SetLast(s'.sessions, e.(phase := Registered), e.(phase := Idle));
  }

  lemma NewSessionPolls(h: HashFn, s: State, u: Url, base: Body, b: Body)
    requires h(base) != h(b)
    ensures var id, e := |s.sessions|, Session(u, true, base, Idle, true, false);
      var e' := e.(phase := Polling(false), configChanged := false);
      && Leads(h, NewSession(s, e), PollRequest(u, id, false, true), NewSession(s, e'))
      && Leads(h, NewSession(s, e'), PollOk(u, id, b), NewSession(s, e'.(phase := Changed(b))))
  {
    var e := Session(u, true, base, Idle, true, false);
    var e' := e.(phase := Polling(false), configChanged := false);
    SetLast(s.sessions, e, e');
    SetLast(s.sessions, e', e'.(phase := Changed(b)));
  }

  function HoldingPath(s: State, u: Url, base: Body, b: Body): seq<State> {
    var s', e, e' := Joining(s, u), Session(u, true, "", Missed, true, false), Session(u, true, base, Served, true, false);
    [s, NewSession(s, e), NewSession(s, e.(phase := Fetching)), NewSession(s, e'),
     NewSession(s', e'.(phase := Registered)), NewSession(s', e'.(phase := Idle)),
     NewSession(s', e'.(phase := Polling(false), configChanged := false)),
     NewSession(s', Session(u, true, base, Changed(b), false, false))]
  }

  lemma HoldsPath(h: HashFn, s: State, u: Url, base: Body, b: Body)
    requires u !in s.cache && h(base) != h(b) && (u in s.cancelMap ==> s.cancelMap[u] < |s.sessions|)
    ensures Path(h, HoldingPath(s, u, base, b), HoldingChange(u, |s.sessions|, Lookup(s.cancelMap, u), base, b))
  {
    NewSessionLooks(h, s, u, base);
    NewSessionJoins(h, s, u, base);
    NewSessionPolls(h, Joining(s, u), u, base, b);
  }

  lemma HoldsChange(h: HashFn, run: seq<Step>, s: State, u: Url, base: Body, b: Body)
    requires Replay(h, run) == Some(s) && u !in s.cache && h(base) != h(b)
    requires u in s.cancelMap ==> s.cancelMap[u] < |s.sessions|
    ensures Replay(h, run + HoldingChange(u, |s.sessions|, Lookup(s.cancelMap, u), base, b))
            == Some(NewSession(Joining(s, u), Session(u, true, base, Changed(b), false, false)))
  {
    HoldsPath(h, s, u, base, b);
    RunPath(h, run, HoldingPath(s, u, base, b), HoldingChange(u, |s.sessions|, Lookup(s.cancelMap, u), base, b));
  }
}
