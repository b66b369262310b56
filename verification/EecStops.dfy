/** When a watcher polls and when it may end: it goes on through errors and unchanged answers until something stops it. */
module EecStops {
  import opened Options
  import opened EecProtocol
  import opened EecCache

  /** What stops the watcher of session `id`: the provider's shutdown, its caller's context, or a later watcher of its URL. */
  predicate Stops(t: Step, id: nat) {
    || t.Shutdown?
    || (t.CancelParent? && t.id == id)
    || (t.Register? && t.displaced == Some(id))
  }

  predicate OfSession(t: Step, id: nat) {
    !t.Shutdown? && t.id == id
  }

  predicate Stopped(run: seq<Step>, id: nat) {
    exists k :: 0 <= k < |run| && Stops(run[k], id)
  }

  predicate StopSeen(s: State, id: nat) {
    s.shutdown || (id < |s.sessions| && s.sessions[id].cancelled)
  }

  /** A session the map of cancel functions names has begun, so no cancellation goes astray. */
  lemma StopStep(h: HashFn, s: State, t: Step, id: nat)
    requires Enabled(s, t) && forall u :: u in s.cancelMap ==> s.cancelMap[u] < |s.sessions|
    ensures StopSeen(Next(h, s, t), id) <==> StopSeen(s, id) || Stops(t, id)
    ensures var s' := Next(h, s, t); forall u :: u in s'.cancelMap ==> s'.cancelMap[u] < |s'.sessions|
  {
  }

  lemma {:induction false} StopSeenExactly(h: HashFn, run: seq<Step>, id: nat)
    requires IsRun(h, run)
    ensures StopSeen(After(h, run), id) <==> Stopped(run, id)
    ensures var s := After(h, run); forall u :: u in s.cancelMap ==> s.cancelMap[u] < |s.sessions|
  {
    if run != [] {
      var n := |run| - 1;
      var front := run[..n];
      RunLast(h, run);
      StopSeenExactly(h, front, id);
      StopStep(h, After(h, front), run[n], id);
      if Stopped(run, id) && !Stops(run[n], id) {
        var k :| 0 <= k < |run| && Stops(run[k], id);
        assert front[k] == run[k];
      }
      if Stopped(front, id) {
        var k :| 0 <= k < |front| && Stops(front[k], id);
        assert run[k] == front[k];
      }
    }
  }

  /** A watcher ends without a notification only if something has stopped it. */
  lemma ExitHasReason(h: HashFn, run: seq<Step>, n: nat) returns (k: nat)
    requires IsRun(h, run) && n < |run| && run[n].Exit?
    ensures k < n && Stops(run[k], run[n].id)
  {
    RunAt(h, run, n);
    StopSeenExactly(h, run[..n], run[n].id);
    k :| 0 <= k < n && Stops(run[..n][k], run[n].id);
  }

  /** The watcher of `id` waits: it has been started, or its last poll failed or brought nothing new. */
  predicate Waits(t: Step, base: Body, h: HashFn) {
    t.Spawn? || t.PollErr? || (t.PollOk? && h(t.body) == h(base))
  }

  lemma WaitStep(h: HashFn, s: State, t: Step)
    requires Enabled(s, t) && (t.Spawn? || t.PollErr? || t.PollOk?)
    ensures var s' := Next(h, s, t);
      && t.id < |s'.sessions| && s'.sessions[t.id].url == t.url && s'.sessions[t.id].base == s.sessions[t.id].base
      && s'.shutdown == s.shutdown && s'.sessions[t.id].cancelled == s.sessions[t.id].cancelled
      && (Waits(t, s.sessions[t.id].base, h) <==> s'.sessions[t.id].phase.Idle?)
  {
  }

  /** The session's body: what its direct request was answered, or what the cache had for it. */
  predicate BodyGiven(run: seq<Step>, id: nat, i: nat) {
    i < |run| && OfSession(run[i], id) && (run[i].FetchOk? || run[i].Delete?)
  }

  predicate HasBody(p: Phase) {
    !p.Missed? && !p.Hit? && !p.Fetching? && !p.FetchFailed?
  }

  lemma BodyComes(h: HashFn, s: State, t: Step)
    requires Enabled(s, t) && (t.FetchOk? || t.Delete?)
    ensures var e := Next(h, s, t).sessions[t.id]; HasBody(e.phase) && e.base == t.body
  {
  }

  lemma BodyStays(h: HashFn, s: State, t: Step, id: nat)
    requires Enabled(s, t) && id < |s.sessions| && HasBody(s.sessions[id].phase)
    ensures var e := Next(h, s, t).sessions[id]; HasBody(e.phase) && e.base == s.sessions[id].base
  {
  }

  lemma {:induction false} BodyKept(h: HashFn, run: seq<Step>, id: nat, i: nat)
    requires IsRun(h, run) && BodyGiven(run, id, i)
    ensures id < |After(h, run).sessions|
    ensures var e := After(h, run).sessions[id]; HasBody(e.phase) && e.base == run[i].body
  {
    var n := |run| - 1;
    RunLast(h, run);
    if i < n {
      assert run[..n][i] == run[i];
      BodyKept(h, run[..n], id, i);
      SessionsGrow(h, After(h, run[..n]), run[n], id);
      BodyStays(h, After(h, run[..n]), run[n], id);
    } else {
      BodyComes(h, After(h, run[..n]), run[n]);
    }
  }

  /**
   A started watcher may poll again after every failed request and every answer with its body's
   hash, and may end instead exactly if something has stopped it; after an answer with another
   hash it does neither.
   */
  lemma PollsUntilStopped(h: HashFn, run: seq<Step>, i: nat, n: nat)
    requires IsRun(h, run) && n < |run| && (run[n].Spawn? || run[n].PollErr? || run[n].PollOk?)
    requires BodyGiven(run[..n], run[n].id, i)
    ensures IsRun(h, run[..n + 1])
    ensures var s, t, waits := After(h, run[..n + 1]), run[n], Waits(run[n], run[i].body, h);
      && (waits <==> exists changed :: Enabled(s, PollRequest(t.url, t.id, false, changed)))
      && (waits && Stopped(run[..n], t.id) <==> Enabled(s, Exit(t.url, t.id)))
  {
    var t := run[n];
    RunAt(h, run, n);
    BodyKept(h, run[..n], t.id, i);
    assert run[..n][i] == run[i];
    WaitStep(h, After(h, run[..n]), t);
    StopSeenExactly(h, run[..n], t.id);
    var s := After(h, run[..n + 1]);
    assert Waits(t, run[i].body, h) ==> Enabled(s, PollRequest(t.url, t.id, false, s.sessions[t.id].configChanged));
  }

  /** A watcher that has ended, and a call whose request failed, do nothing more. */
  predicate Ends(t: Step) {
    t.FetchErr? || t.Notify? || t.Exit?
  }

  predicate Over(p: Phase) {
    p.FetchFailed? || p.Exited?
  }

  lemma OverStep(h: HashFn, s: State, t: Step, id: nat)
    requires Enabled(s, t) && id < |s.sessions|
    ensures OfSession(t, id) && Ends(t) ==> Over(Next(h, s, t).sessions[id].phase)
    ensures Over(s.sessions[id].phase) ==> Over(Next(h, s, t).sessions[id].phase) && (OfSession(t, id) ==> t.CancelParent?)
  {
  }

  lemma {:induction false} StaysOver(h: HashFn, run: seq<Step>, n: nat)
    requires IsRun(h, run) && n < |run| && Ends(run[n])
    ensures run[n].id < |After(h, run).sessions| && Over(After(h, run).sessions[run[n].id].phase)
  {
    var m := |run| - 1;
    RunLast(h, run);
    if n < m {
      assert run[..m][n] == run[n];
      StaysOver(h, run[..m], n);
      SessionsGrow(h, After(h, run[..m]), run[m], run[n].id);
    }
    OverStep(h, After(h, run[..m]), run[m], run[n].id);
  }

  lemma NothingAfterTheEnd(h: HashFn, run: seq<Step>, n: nat, m: nat)
    requires IsRun(h, run) && n < m < |run| && Ends(run[n]) && OfSession(run[m], run[n].id)
    ensures run[m].CancelParent?
  {
    RunAt(h, run, m);
    assert run[..m][n] == run[n];
    StaysOver(h, run[..m], n);
    OverStep(h, After(h, run[..m]), run[m], run[n].id);
  }
}
