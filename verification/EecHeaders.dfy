/** The two request headers over the whole request trace of a run. */
module EecHeaders {
  import opened Options
  import opened EecProtocol
  import opened EecCache
  import opened EecWatchers
  import opened EecPaths

  predicate IsRequest(t: Step) {
    t.DirectRequest? || t.PollRequest?
  }

  /** The watchers that have polled at least once. */
  function Pollers(run: seq<Step>): set<nat> {
    if run == [] then {}
    else
      var t := run[|run| - 1];
      Pollers(run[..|run| - 1]) + if t.PollRequest? then {t.id} else {}
  }

  function ChangedRequests(run: seq<Step>): nat {
    if run == [] then 0
    else
      var t := run[|run| - 1];
      ChangedRequests(run[..|run| - 1]) + if IsRequest(t) && t.changed then 1 else 0
  }

  lemma {:induction false} PollersPolled(run: seq<Step>, id: nat)
    ensures id in Pollers(run) <==> LifeOf(run, id).polls > 0
  {
    if run != [] {
      PollersPolled(run[..|run| - 1], id);
    }
  }

  /**
   first=true marks exactly the direct requests, never together with changed=true; changed=true
   marks exactly the first poll of each watcher.
   */
  lemma HeadersOfRequest(h: HashFn, run: seq<Step>, n: nat)
    requires IsRun(h, run) && n < |run| && IsRequest(run[n])
    ensures run[n].first <==> run[n].DirectRequest?
    ensures !(run[n].first && run[n].changed)
    ensures run[n].changed <==> run[n].PollRequest? && run[n].id !in Pollers(run[..n])
  {
    RunAt(h, run, n);
    LivesFitRuns(h, run[..n]);
    PollersPolled(run[..n], run[n].id);
    assert FitsAt(h, After(h, run[..n]), LifeOf(run[..n], run[n].id), run[n].id);
  }

  /** As many changed=true requests were sent as there are watchers that have polled. */
  lemma {:induction false} ChangedRequestsCountPollers(h: HashFn, run: seq<Step>)
    requires IsRun(h, run)
    ensures ChangedRequests(run) == |Pollers(run)|
  {
    if run != [] {
      var n := |run| - 1;
      ChangedRequestsCountPollers(h, run[..n]);
      if IsRequest(run[n]) {
        HeadersOfRequest(h, run, n);
        if run[n].PollRequest? && run[n].id in Pollers(run[..n]) {
          assert Pollers(run) == Pollers(run[..n]);
        }
      }
    }
  }

  // ------------------------------------------ where the documented meaning of the headers fails

  predicate StartsSession(t: Step, id: nat) {
    t.Look? && t.id == id
  }

  /** Whether session `id` was served from the cache; None before it starts. */
  function FromCache(run: seq<Step>, id: nat): Option<bool> {
    if run == [] then None
    else
      var t := run[|run| - 1];
      if StartsSession(t, id) then Some(t.found.Some?) else FromCache(run[..|run| - 1], id)
  }

  lemma LookBegins(h: HashFn, s: State, t: Step)
    requires Enabled(s, t)
    ensures |Next(h, s, t).sessions| == |s.sessions| + if t.Look? then 1 else 0
    ensures t.Look? ==> t.id == |s.sessions|
  {
  }

  ghost predicate StartRecorded(run: seq<Step>, id: nat) {
    forall i :: 0 <= i < |run| && StartsSession(run[i], id) ==> FromCache(run, id) == Some(run[i].found.Some?)
  }

  lemma {:induction false} SessionsStartOnce(h: HashFn, run: seq<Step>, id: nat)
    requires IsRun(h, run)
    ensures FromCache(run, id).Some? <==> id < |After(h, run).sessions|
    ensures StartRecorded(run, id)
  {
    if run != [] {
      var n := |run| - 1;
      var front := run[..n];
      SessionsStartOnce(h, front, id);
      LookBegins(h, After(h, front), run[n]);
      forall i | 0 <= i < |run| && StartsSession(run[i], id)
        ensures FromCache(run, id) == Some(run[i].found.Some?)
      {
        if i < n {
          assert front[i] == run[i];
        }
      }
    }
  }

  lemma {:induction false} StartPosition(run: seq<Step>, id: nat) returns (i: nat)
    requires FromCache(run, id).Some?
    ensures i < |run| && StartsSession(run[i], id) && FromCache(run, id) == Some(run[i].found.Some?)
  {
    var n := |run| - 1;
    if StartsSession(run[n], id) {
      i := n;
    } else {
      i := StartPosition(run[..n], id);
    }
  }

  /** Before label `n`, its session was served a published change. */
  ghost predicate FollowsChange(run: seq<Step>, n: nat, id: nat) {
    exists j, i :: Feeds(run, j, i) && i < n && run[i].id == id
  }

  /**
   A changed=true request really follows a configuration change exactly when the session that
   sends it was served from the cache; after a direct fetch the header overstates.
   */
  lemma ChangedHeaderTruthful(h: HashFn, run: seq<Step>, n: nat)
    requires IsRun(h, run) && n < |run| && run[n].PollRequest? && run[n].changed
    ensures FollowsChange(run, n, run[n].id) <==> FromCache(run[..n], run[n].id) == Some(true)
  {
    RunAt(h, run, n);
    var id, front := run[n].id, run[..n];
    SessionsStartOnce(h, front, id);
    if FollowsChange(run, n, id) {
      var j, i :| Feeds(run, j, i) && i < n && run[i].id == id;
      assert StartsSession(front[i], id);
    }
    if FromCache(front, id) == Some(true) {
      var i := StartPosition(front, id);
      assert IsHit(run[i]);
      var j := HitHasPublication(h, run, i);
      assert Feeds(run, j, i) && i < n && run[i].id == id;
    }
  }

  /** The first poll of a first Retrieve says changed=true although nothing was ever published. */
  lemma ChangedHeaderOverstates(h: HashFn, u: Url, b: Body)
    ensures var run := [Look(u, 0, true, None), DirectRequest(u, 0, true, false), FetchOk(u, 0, b), Register(u, 0, None),
                        Spawn(u, 0), PollRequest(u, 0, false, true)];
      IsRun(h, run) && run[5].changed && !FollowsChange(run, 5, 0)
  {
    var run := [Look(u, 0, true, None), DirectRequest(u, 0, true, false), FetchOk(u, 0, b), Register(u, 0, None),
                Spawn(u, 0), PollRequest(u, 0, false, true)];
    NewSessionLooks(h, INIT, u, b);
    NewSessionJoins(h, INIT, u, b);
    var e, s := Session(u, true, "", Missed, true, false), Joining(INIT, u);
    var e' := e.(base := b, phase := Served);
    var s' := NewSession(s, e'.(phase := Polling(false), configChanged := false));
    assert Leads(h, NewSession(s, e'.(phase := Idle)), run[5], s');
    RunPath(h, [], [INIT, NewSession(INIT, e), NewSession(INIT, e.(phase := Fetching)), NewSession(INIT, e'),
                    NewSession(s, e'.(phase := Registered)), NewSession(s, e'.(phase := Idle)), s'], run);
    assert [] + run == run;
  }

  /** Resolving a URL twice sends first=true twice, with no failure between. */
  lemma FirstHeaderRepeats(h: HashFn, u: Url, b: Body)
    ensures var run := [Look(u, 0, true, None), DirectRequest(u, 0, true, false), FetchOk(u, 0, b),
                        Look(u, 1, true, None), DirectRequest(u, 1, true, false)];
      IsRun(h, run) && run[1].first && run[4].first
  {
    var run := [Look(u, 0, true, None), DirectRequest(u, 0, true, false), FetchOk(u, 0, b),
                Look(u, 1, true, None), DirectRequest(u, 1, true, false)];
    var e := Session(u, true, "", Missed, true, false);
    var s := NewSession(INIT, e.(base := b, phase := Served));
    NewSessionLooks(h, INIT, u, b);
    NewSessionLooks(h, s, u, b);
    RunPath(h, [], [INIT, NewSession(INIT, e), NewSession(INIT, e.(phase := Fetching)), s,
                    NewSession(s, e), NewSession(s, e.(phase := Fetching))], run);
    assert [] + run == run;
  }
}
