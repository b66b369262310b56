/**
 The EEC configuration provider as a labelled transition system.

 A `Session` is one call of Retrieve that got as far as its cache lookup, together with the
 watcher it may start.  Every label names the atomic action one goroutine performs and
 carries all that the outside world can see of it, so a run (a sequence of labels) is its own
 request, publication and notification trace.  The server is the environment: it answers any
 request with any body or with an error.
 */
module EecProtocol {
  import opened Options

  type Url = string
  type Body = string
  /** SHA-256, of which nothing is assumed. */
  type HashFn = Body -> nat

  datatype Phase =
    | Missed                    // the lookup found nothing, the direct request is not yet out
    | Hit                       // the lookup found the body, the entry is not yet deleted
    | Fetching                  // the direct request is out, no answer yet
    | FetchFailed               // Retrieve returned the request's error
    | Served                    // body known, polling enabled, mutex block not yet entered
    | Unwatched                 // body known, polling disabled
    | Registered                // cancel function stored, goroutine not yet started
    | Idle                      // the watcher waits in its select
    | Polling(doomed: bool)     // a poll is out; doomed when its context was cancelled before it began
    | Changed(body: Body)       // the poll's hash differed; nothing stored yet
    | Published(body: Body)     // body stored in newConfig; not yet notified
    | Exited(notified: bool)

  datatype Session = Session(url: Url, watching: bool, base: Body, phase: Phase,
                             configChanged: bool, cancelled: bool)

  datatype State = State(cache: map<Url, Body>, cancelMap: map<Url, nat>, shutdown: bool,
                         sessions: seq<Session>)

  datatype Step =
    | Look(url: Url, id: nat, watching: bool, found: Option<Body>)
    | Delete(url: Url, id: nat, body: Body)
    | DirectRequest(url: Url, id: nat, first: bool, changed: bool)
    | FetchOk(url: Url, id: nat, body: Body)
    | FetchErr(url: Url, id: nat)
    | Register(url: Url, id: nat, displaced: Option<nat>)
    | Spawn(url: Url, id: nat)
    | PollRequest(url: Url, id: nat, first: bool, changed: bool)
    | PollOk(url: Url, id: nat, body: Body)
    | PollErr(url: Url, id: nat)
    | Publish(url: Url, id: nat, body: Body)
    | Notify(url: Url, id: nat)
    | Exit(url: Url, id: nat)
    | CancelParent(url: Url, id: nat)
    | Shutdown

  const INIT := State(map[], map[], false, [])

  function Lookup<V>(m: map<Url, V>, u: Url): Option<V> {
    if u in m then Some(m[u]) else None
  }

  /** Session `id` exists and belongs to `u`. */
  predicate Has(s: State, u: Url, id: nat) {
    id < |s.sessions| && s.sessions[id].url == u
  }

  predicate Enabled(s: State, t: Step) {
    match t
    case Look(u, id, _, found) => id == |s.sessions| && found == Lookup(s.cache, u)
    case Delete(u, id, b) => Has(s, u, id) && s.sessions[id].phase.Hit? && s.sessions[id].base == b
    case DirectRequest(u, id, first, changed) =>
      Has(s, u, id) && s.sessions[id].phase.Missed? && first && !changed
    case FetchOk(u, id, _) => Has(s, u, id) && s.sessions[id].phase.Fetching?
    case FetchErr(u, id) => Has(s, u, id) && s.sessions[id].phase.Fetching?
    case Register(u, id, d) =>
      Has(s, u, id) && s.sessions[id].phase.Served? && d == Lookup(s.cancelMap, u)
    case Spawn(u, id) => Has(s, u, id) && s.sessions[id].phase.Registered?
    case PollRequest(u, id, first, changed) =>
      Has(s, u, id) && s.sessions[id].phase.Idle? && !first && changed == s.sessions[id].configChanged
    case PollOk(u, id, _) => Has(s, u, id) && s.sessions[id].phase == Polling(false)
    case PollErr(u, id) => Has(s, u, id) && s.sessions[id].phase.Polling?
    case Publish(u, id, b) => Has(s, u, id) && s.sessions[id].phase == Changed(b)
    case Notify(u, id) => Has(s, u, id) && s.sessions[id].phase.Published?
    case Exit(u, id) =>
      Has(s, u, id) && s.sessions[id].phase.Idle? && (s.shutdown || s.sessions[id].cancelled)
    case CancelParent(u, id) => Has(s, u, id)
    case Shutdown => !s.shutdown
  }

  function AfterServe(watching: bool): Phase {
    if watching then Served else Unwatched
  }

  /** A session that has just looked into the cache. */
  function Begun(u: Url, watching: bool, found: Option<Body>): Session {
    match found
    case Some(b) => Session(u, watching, b, Hit, true, false)
    case None => Session(u, watching, "", Missed, true, false)
  }

  function SetPhase(s: State, id: nat, p: Phase): State
    requires id < |s.sessions|
  {
    s.(sessions := s.sessions[id := s.sessions[id].(phase := p)])
  }

  function SetCancelled(ss: seq<Session>, d: Option<nat>): seq<Session> {
    if d.Some? && d.value < |ss| then ss[d.value := ss[d.value].(cancelled := true)] else ss
  }

  function Next(h: HashFn, s: State, t: Step): State
    requires Enabled(s, t)
  {
    match t
    case Look(u, id, w, found) => s.(sessions := s.sessions + [Begun(u, w, found)])
    case Delete(u, id, _) => SetPhase(s.(cache := s.cache - {u}), id, AfterServe(s.sessions[id].watching))
    case DirectRequest(_, id, _, _) => SetPhase(s, id, Fetching)
    case FetchOk(_, id, b) =>
      s.(sessions := s.sessions[id := s.sessions[id].(base := b, phase := AfterServe(s.sessions[id].watching))])
    case FetchErr(_, id) => SetPhase(s, id, FetchFailed)
    case Register(u, id, d) =>
      var s' := s.(sessions := SetCancelled(s.sessions, d), cancelMap := s.cancelMap[u := id]);
      SetPhase(s', id, Registered)
    case Spawn(_, id) => SetPhase(s, id, Idle)
    case PollRequest(_, id, _, _) =>
      var e := s.sessions[id];
      s.(sessions := s.sessions[id := e.(phase := Polling(e.cancelled), configChanged := false)])
    case PollOk(_, id, b) =>
      SetPhase(s, id, if h(s.sessions[id].base) != h(b) then Changed(b) else Idle)
    case PollErr(_, id) => SetPhase(s, id, Idle)
    case Publish(u, id, b) => SetPhase(s.(cache := s.cache[u := b]), id, Published(b))
    case Notify(_, id) => SetPhase(s, id, Exited(true))
    case Exit(_, id) => SetPhase(s, id, Exited(false))
    case CancelParent(_, id) => s.(sessions := SetCancelled(s.sessions, Some(id)))
    case Shutdown => s.(shutdown := true)
  }

  /** The state a sequence of labels leads to, or None when some label is not enabled. */
  function Replay(h: HashFn, run: seq<Step>): Option<State> {
    if run == [] then Some(INIT)
    else
      var before := Replay(h, run[..|run| - 1]);
      var t := run[|run| - 1];
      if before.Some? && Enabled(before.value, t) then Some(Next(h, before.value, t)) else None
  }

  predicate IsRun(h: HashFn, run: seq<Step>) {
    Replay(h, run).Some?
  }

  function After(h: HashFn, run: seq<Step>): State
    requires IsRun(h, run)
  {
    Replay(h, run).value
  }

  lemma RunExtend(h: HashFn, run: seq<Step>, t: Step)
    ensures IsRun(h, run + [t]) <==> IsRun(h, run) && Enabled(After(h, run), t)
    ensures IsRun(h, run + [t]) ==> After(h, run + [t]) == Next(h, After(h, run), t)
  {
    assert (run + [t])[..|run|] == run;
  }

  /** Every prefix of a run is a run. */
  lemma {:induction false} RunPrefix(h: HashFn, run: seq<Step>, n: nat)
    requires IsRun(h, run) && n <= |run|
    ensures IsRun(h, run[..n])
  {
    if n == |run| {
      assert run[..n] == run;
    } else {
      var front := run[..|run| - 1];
      RunPrefix(h, front, n);
      assert front[..n] == run[..n];
    }
  }

  /** Label `n` of a run is enabled in the state its prefix leads to. */
  lemma RunAt(h: HashFn, run: seq<Step>, n: nat)
    requires IsRun(h, run) && n < |run|
    ensures IsRun(h, run[..n]) && Enabled(After(h, run[..n]), run[n])
    ensures IsRun(h, run[..n + 1])
    ensures After(h, run[..n + 1]) == Next(h, After(h, run[..n]), run[n])
  {
    RunPrefix(h, run, n + 1);
    assert run[..n + 1] == run[..n] + [run[n]];
    RunExtend(h, run[..n], run[n]);
  }

  /** The last label of a run. */
  lemma RunLast(h: HashFn, run: seq<Step>)
    requires IsRun(h, run) && run != []
    ensures var n := |run| - 1;
      && IsRun(h, run[..n]) && Enabled(After(h, run[..n]), run[n])
      && After(h, run) == Next(h, After(h, run[..n]), run[n])
  {
  }
}
