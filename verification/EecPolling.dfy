/** Which calls get a watcher: those with polling enabled, as soon as they have their body, and no others. */
module EecPolling {
  import opened EecProtocol
  import opened EecCache

  /** A step of the watcher of a call, or its set-up. */
  predicate WatcherStep(t: Step) {
    t.Register? || t.Spawn? || t.PollRequest? || t.PollOk? || t.PollErr? || t.Publish? || t.Notify? || t.Exit?
  }

  /** The call has its body and is about to start a watcher, or has one. */
  predicate Watched(p: Phase) {
    p.Served? || p.Registered? || p.Idle? || p.Polling? || p.Changed? || p.Published? || p.Exited?
  }

  lemma WatchedStep(h: HashFn, s: State, t: Step, id: nat)
    requires Enabled(s, t) && id < |s.sessions| && (Watched(s.sessions[id].phase) ==> s.sessions[id].watching)
    ensures var e := Next(h, s, t).sessions[id];
      e.watching == s.sessions[id].watching && (Watched(e.phase) ==> e.watching)
  {
  }

  /** The session of lookup `i` polls exactly if the lookup says so. */
  lemma {:induction false} WatchedPolls(h: HashFn, run: seq<Step>, i: nat)
    requires IsRun(h, run) && i < |run| && run[i].Look?
    ensures run[i].id < |After(h, run).sessions|
    ensures var e := After(h, run).sessions[run[i].id];
      e.url == run[i].url && e.watching == run[i].watching && (Watched(e.phase) ==> e.watching)
  {
    var n := |run| - 1;
    RunLast(h, run);
    if i < n {
      assert run[..n][i] == run[i];
      WatchedPolls(h, run[..n], i);
      WatchedStep(h, After(h, run[..n]), run[n], run[i].id);
      SessionsGrow(h, After(h, run[..n]), run[n], run[i].id);
    }
  }

  /** With polling disabled no watcher is set up, polls, publishes or notifies: whoever does has looked up with polling enabled. */
  lemma OnlyPollingCallsWatch(h: HashFn, run: seq<Step>, n: nat) returns (i: nat)
    requires IsRun(h, run) && n < |run| && WatcherStep(run[n])
    ensures i < n && run[i].Look? && run[i].id == run[n].id && run[i].url == run[n].url && run[i].watching
    ensures forall k :: 0 <= k < |run| && run[k].Look? && run[k].id == run[n].id ==> k == i
  {
    RunAt(h, run, n);
    i := LookOf(h, run[..n], run[n].id);
    assert run[..n][i] == run[i];
    WatchedPolls(h, run[..n], i);
    forall k | 0 <= k < |run| && run[k].Look? && run[k].id == run[n].id
      ensures k == i
    {
      if k < i {
        LooksOnce(h, run, k, i);
      } else if i < k {
        LooksOnce(h, run, i, k);
      }
    }
  }

  /** With polling enabled the set-up of the watcher is the next step of the call, once it has its body. */
  lemma PollingCallsRegister(h: HashFn, run: seq<Step>, i: nat, n: nat)
    requires IsRun(h, run) && i < n < |run| && run[i].Look? && (run[n].FetchOk? || run[n].Delete?) && run[n].id == run[i].id
    ensures IsRun(h, run[..n + 1])
    ensures var s := After(h, run[..n + 1]);
      Enabled(s, Register(run[i].url, run[i].id, Lookup(s.cancelMap, run[i].url))) <==> run[i].watching
    ensures forall t :: Enabled(After(h, run[..n + 1]), t) && !t.Shutdown? && t.id == run[i].id ==> t.Register? || t.CancelParent?
  {
    RunAt(h, run, n);
    assert run[..n][i] == run[i];
    WatchedPolls(h, run[..n], i);
    BodyServed(h, After(h, run[..n]), run[n]);
  }

  lemma BodyServed(h: HashFn, s: State, t: Step)
    requires Enabled(s, t) && (t.FetchOk? || t.Delete?)
    ensures var e, was := Next(h, s, t).sessions[t.id], s.sessions[t.id];
      && e.url == was.url && e.watching == was.watching && e.base == t.body
      && e.phase == if was.watching then Served else Unwatched
  {
  }
}
