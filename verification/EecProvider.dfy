/**
 The provider object, in the form of its source: one method per atomic block, the sequential
 body of Retrieve, and the watcher's select loop.  Each method appends to `history` the labels
 it performs; `Valid` says the history is a run that leads to the object's fields, so all that
 is proved of runs holds of every history an object can have.
 */
module EecProvider {
  import opened Options
  import opened Sequences
  import opened EecProtocol
  import opened EecWatchers

  /** What wakes the watcher's select: a tick and the answer to its poll, or a stop signal. */
  datatype Wake = Tick(answer: Option<Body>) | ShutdownSignal | ContextDone

  /** The first answer whose hash differs from the base's, unless a stop signal comes first. */
  function FirstChange(h: HashFn, base: Body, script: seq<Wake>): Option<Body> {
    if script == [] || !script[0].Tick? then None
    else if script[0].answer.Some? && h(base) != h(script[0].answer.value) then script[0].answer
    else FirstChange(h, base, script[1..])
  }

  /** The session once its direct request is answered. */
  function Fetched(e: Session, answer: Option<Body>): Session {
    match answer
    case Some(b) => e.(base := b, phase := if e.watching then Served else Unwatched)
    case None => e.(phase := FetchFailed)
  }

  function AskLabels(url: Url, id: nat, answer: Option<Body>): seq<Step> {
    [DirectRequest(url, id, true, false)] + [if answer.Some? then FetchOk(url, id, answer.value) else FetchErr(url, id)]
  }

  /** The labels of a Retrieve up to the point where its body is known. */
  function ObtainLabels(url: Url, id: nat, watching: bool, cached: Option<Body>, answer: Option<Body>): seq<Step> {
    [Look(url, id, watching, cached)] +
    match cached
    case Some(b) => [Delete(url, id, b)]
    case None => AskLabels(url, id, answer)
  }

  /** The labels of one poll and, when its answer differs, of the callback. */
  function PollLabels(h: HashFn, u: Url, id: nat, base: Body, answer: Option<Body>, changed: bool): seq<Step> {
    [PollRequest(u, id, false, changed)] +
    match answer
    case None => [PollErr(u, id)]
    case Some(b) => [PollOk(u, id, b)] + if h(base) != h(b) then [Publish(u, id, b), Notify(u, id)] else []
  }

  /** FirstChange names a change in the script that no stop signal and no other change precedes. */
  lemma {:induction false} FirstChangeMeaning(h: HashFn, base: Body, script: seq<Wake>) returns (k: nat)
    ensures k <= |script|
    ensures forall i :: 0 <= i < k ==> script[i].Tick? && (script[i].answer.Some? ==> h(script[i].answer.value) == h(base))
    ensures match FirstChange(h, base, script)
            case Some(b) => k < |script| && script[k] == Tick(Some(b)) && h(b) != h(base)
            case None => k == |script| || !script[k].Tick?
  {
    if script == [] || !script[0].Tick? || (script[0].answer.Some? && h(base) != h(script[0].answer.value)) {
      k := 0;
    } else {
      k := FirstChangeMeaning(h, base, script[1..]);
      forall i | 0 <= i < k + 1
        ensures script[i].Tick? && (script[i].answer.Some? ==> h(script[i].answer.value) == h(base))
      {
        if i > 0 {
          assert script[i] == script[1..][i - 1];
        }
      }
      k := k + 1;
    }
  }

  lemma AppendThenSet(ss: seq<Session>, x: Session, y: Session)
    ensures (ss + [x])[|ss|] == x && (ss + [x])[|ss| := y] == ss + [y]
  {
  }

  /** What one wake-up finds. */
  function TurnFinds(h: HashFn, base: Body, wake: Wake): Option<Body> {
    if wake.Tick? && wake.answer.Some? && h(base) != h(wake.answer.value) then wake.answer else None
  }

  function TurnLabels(h: HashFn, u: Url, id: nat, base: Body, wake: Wake, changed: bool): seq<Step> {
    if wake.Tick? then PollLabels(h, u, id, base, wake.answer, changed) else [Exit(u, id)]
  }

  /** The labels of a watcher driven by `script`; `changed` is its captured header flag. */
  function WatchLabels(h: HashFn, u: Url, id: nat, base: Body, script: seq<Wake>, changed: bool): seq<Step> {
    if script == [] then []
    else
      TurnLabels(h, u, id, base, script[0], changed) +
      if TurnFinds(h, base, script[0]).Some? || !script[0].Tick? then []
      else WatchLabels(h, u, id, base, script[1..], false)
  }

  /** A stop signal needs its cause, and a poll under a cancelled context gets no answer. */
  predicate MayWake(e: Session, shutdown: bool, wake: Wake) {
    match wake
    case Tick(answer) => answer.Some? ==> !e.cancelled
    case ShutdownSignal => shutdown
    case ContextDone => e.cancelled
  }

  /** The watcher started after `start`, has found nothing by `now`, and has the wake-ups from `k` on before it. */
  ghost predicate Halfway(h: HashFn, e: Session, id: nat, script: seq<Wake>, k: nat, changed: bool, start: seq<Step>, now: seq<Step>)
    requires k <= |script|
  {
    && FirstChange(h, e.base, script[k..]) == FirstChange(h, e.base, script)
    && now + WatchLabels(h, e.url, id, e.base, script[k..], changed) == start + WatchLabels(h, e.url, id, e.base, script, e.configChanged)
  }

  lemma TurnAdvances(h: HashFn, e: Session, id: nat, script: seq<Wake>, k: nat, changed: bool, start: seq<Step>, now: seq<Step>)
    requires k < |script| && Halfway(h, e, id, script, k, changed, start, now)
    ensures var found, turn := TurnFinds(h, e.base, script[k]), TurnLabels(h, e.url, id, e.base, script[k], changed);
            if found.Some? || !script[k].Tick? then
              FirstChange(h, e.base, script) == found
              && now + turn == start + WatchLabels(h, e.url, id, e.base, script, e.configChanged)
            else Halfway(h, e, id, script, k + 1, false, start, now + turn)
  {
    assert script[k..][0] == script[k] && script[k..][1..] == script[k + 1..];
    var turn, rest := TurnLabels(h, e.url, id, e.base, script[k], changed), WatchLabels(h, e.url, id, e.base, script[k + 1..], false);
    AppendAssociates(now, turn, rest);
    AppendNothing(turn);
  }

  lemma WatchBegins(h: HashFn, e: Session, id: nat, script: seq<Wake>, start: seq<Step>)
    ensures Halfway(h, e, id, script, 0, e.configChanged, start, start)
  {
  }

  lemma WatchEnds(h: HashFn, e: Session, id: nat, script: seq<Wake>, changed: bool, start: seq<Step>, now: seq<Step>)
    requires Halfway(h, e, id, script, |script|, changed, start, now)
    ensures FirstChange(h, e.base, script) == None
    ensures now == start + WatchLabels(h, e.url, id, e.base, script, e.configChanged)
  {
    AppendNothing(now);
  }

  class Provider {
    const hash: HashFn
    var newConfig: map<Url, Body>
    var watcherCancelMap: map<Url, nat>
    var shutdownClosed: bool
    var sessions: seq<Session>
    ghost var history: seq<Step>

    ghost function Snapshot(): State
      reads this
    {
      State(newConfig, watcherCancelMap, shutdownClosed, sessions)
    }

    ghost predicate Valid()
      reads this
    {
      Replay(hash, history) == Some(Snapshot())
    }

    constructor (hash: HashFn)
      ensures Valid() && history == [] && this.hash == hash
    {
      this.hash := hash;
      newConfig, watcherCancelMap, shutdownClosed, sessions, history := map[], map[], false, [], [];
    }

    /** The cache lookup of Retrieve. */
    method LookUp(url: Url, watching: bool) returns (id: nat, cached: Option<Body>)
      requires Valid()
      modifies this`sessions, this`history
      ensures Valid() && id == |old(sessions)| && cached == Lookup(newConfig, url)
      ensures sessions == old(sessions) + [Begun(url, watching, cached)]
      ensures history == old(history) + [Look(url, id, watching, cached)]
    {
      id, cached := |sessions|, Lookup(newConfig, url);
      RunExtend(hash, history, Look(url, id, watching, cached));
      sessions, history := sessions + [Begun(url, watching, cached)], history + [Look(url, id, watching, cached)];
    }

    /** Deleting the entry that was found, or whatever stands there by now. */
    method DeleteEntry(id: nat)
      requires Valid() && id < |sessions| && sessions[id].phase.Hit?
      modifies this`newConfig, this`sessions, this`history
      ensures Valid() && newConfig == old(newConfig) - {old(sessions)[id].url}
      ensures sessions == old(sessions)[id := old(sessions)[id].(phase := if old(sessions)[id].watching then Served else Unwatched)]
      ensures history == old(history) + [Delete(old(sessions)[id].url, id, old(sessions)[id].base)]
    {
      var e := sessions[id];
      RunExtend(hash, history, Delete(e.url, id, e.base));
      newConfig := newConfig - {e.url};
      sessions := sessions[id := e.(phase := if e.watching then Served else Unwatched)];
      history := history + [Delete(e.url, id, e.base)];
    }

    /** The direct request leaves with its two header values. */
    method SendRequest(id: nat) returns (first: bool, changed: bool)
      requires Valid() && id < |sessions| && sessions[id].phase.Missed?
      modifies this`sessions, this`history
      ensures Valid() && first && !changed
      ensures sessions == old(sessions)[id := old(sessions)[id].(phase := Fetching)]
      ensures history == old(history) + [DirectRequest(old(sessions)[id].url, id, first, changed)]
    {
      var e := sessions[id];
      first, changed := true, false;
      RunExtend(hash, history, DirectRequest(e.url, id, first, changed));
      sessions, history := sessions[id := e.(phase := Fetching)], history + [DirectRequest(e.url, id, first, changed)];
    }

    /** The answer to the direct request, or its error. */
    method Answer(id: nat, answer: Option<Body>)
      requires Valid() && id < |sessions| && sessions[id].phase.Fetching?
      modifies this`sessions, this`history
      ensures Valid()
      ensures sessions == old(sessions)[id := if answer.Some? then old(sessions)[id].(base := answer.value, phase := if old(sessions)[id].watching then Served else Unwatched)
                                              else old(sessions)[id].(phase := FetchFailed)]
      ensures history == old(history) + [if answer.Some? then FetchOk(old(sessions)[id].url, id, answer.value)
                                         else FetchErr(old(sessions)[id].url, id)]
    {
      var e := sessions[id];
      if answer.Some? {
        RunExtend(hash, history, FetchOk(e.url, id, answer.value));
        sessions := sessions[id := e.(base := answer.value, phase := if e.watching then Served else Unwatched)];
        history := history + [FetchOk(e.url, id, answer.value)];
      } else {
        RunExtend(hash, history, FetchErr(e.url, id));
        sessions := sessions[id := e.(phase := FetchFailed)];
        history := history + [FetchErr(e.url, id)];
      }
    }

    /** The mutex block: cancel the watcher in the map, then store this session's cancel function. */
    method RegisterWatcher(id: nat)
      requires Valid() && id < |sessions| && sessions[id].phase.Served?
      modifies this`sessions, this`watcherCancelMap, this`history
      ensures Valid() && watcherCancelMap == old(watcherCancelMap)[old(sessions)[id].url := id]
      ensures var displaced := SetCancelled(old(sessions), Lookup(old(watcherCancelMap), old(sessions)[id].url));
              sessions == displaced[id := displaced[id].(phase := Registered)]
      ensures history == old(history) + [Register(old(sessions)[id].url, id, Lookup(old(watcherCancelMap), old(sessions)[id].url))]
    {
      var url := sessions[id].url;
      var displaced := Lookup(watcherCancelMap, url);
      RunExtend(hash, history, Register(url, id, displaced));
      if url in watcherCancelMap {
        sessions := SetCancelled(sessions, Some(watcherCancelMap[url]));
      }
      watcherCancelMap := watcherCancelMap[url := id];
      sessions := sessions[id := sessions[id].(phase := Registered)];
      history := history + [Register(url, id, displaced)];
    }

    method SpawnWatcher(id: nat)
      requires Valid() && id < |sessions| && sessions[id].phase.Registered?
      modifies this`sessions, this`history
      ensures sessions == old(sessions)[id := old(sessions)[id].(phase := Idle)]
      ensures Valid() && history == old(history) + [Spawn(old(sessions)[id].url, id)]
    {
      RunExtend(hash, history, Spawn(sessions[id].url, id));
      sessions, history := sessions[id := sessions[id].(phase := Idle)], history + [Spawn(sessions[id].url, id)];
    }

    /** A poll leaves with its two header values; the captured configChanged flips to false. */
    method StartPoll(id: nat) returns (first: bool, changed: bool)
      requires Valid() && id < |sessions| && sessions[id].phase.Idle?
      modifies this`sessions, this`history
      ensures sessions == old(sessions)[id := old(sessions)[id].(phase := Polling(old(sessions)[id].cancelled), configChanged := false)]
      ensures Valid() && !first && changed == old(sessions)[id].configChanged
      ensures history == old(history) + [PollRequest(old(sessions)[id].url, id, first, changed)]
    {
      var e := sessions[id];
      first, changed := false, e.configChanged;
      RunExtend(hash, history, PollRequest(e.url, id, first, changed));
      if e.configChanged {
        e := e.(configChanged := false);
      }
      sessions := sessions[id := e.(phase := Polling(e.cancelled))];
      history := history + [PollRequest(e.url, id, first, changed)];
    }

    /** The poll's answer is compared by hash, or its error is printed. */
    method EndPoll(id: nat, answer: Option<Body>) returns (differs: bool)
      requires Valid() && id < |sessions| && sessions[id].phase.Polling?
      requires answer.Some? ==> sessions[id].phase == Polling(false)
      modifies this`sessions, this`history
      ensures sessions == old(sessions)[id := old(sessions)[id].(phase := if answer.Some? && differs then Changed(answer.value) else Idle)]
      ensures Valid() && differs == (answer.Some? && hash(old(sessions)[id].base) != hash(answer.value))
      ensures history == old(history) + [if answer.Some? then PollOk(old(sessions)[id].url, id, answer.value)
                                         else PollErr(old(sessions)[id].url, id)]
    {
      var e := sessions[id];
      if answer.None? {
        RunExtend(hash, history, PollErr(e.url, id));
        sessions, history := sessions[id := e.(phase := Idle)], history + [PollErr(e.url, id)];
        return false;
      }
      differs := hash(e.base) != hash(answer.value);
      RunExtend(hash, history, PollOk(e.url, id, answer.value));
      sessions := sessions[id := e.(phase := if differs then Changed(answer.value) else Idle)];
      history := history + [PollOk(e.url, id, answer.value)];
    }

    /** The first statement of the watcher callback: store the body in the cache. */
    method PublishBody(id: nat)
      requires Valid() && id < |sessions| && sessions[id].phase.Changed?
      modifies this`newConfig, this`sessions, this`history
      ensures newConfig == old(newConfig)[old(sessions)[id].url := old(sessions)[id].phase.body]
      ensures sessions == old(sessions)[id := old(sessions)[id].(phase := Published(old(sessions)[id].phase.body))]
      ensures Valid()
      ensures history == old(history) + [Publish(old(sessions)[id].url, id, old(sessions)[id].phase.body)]
    {
      var e := sessions[id];
      var b := e.phase.body;
      RunExtend(hash, history, Publish(e.url, id, b));
      newConfig := newConfig[e.url := b];
      sessions, history := sessions[id := e.(phase := Published(b))], history + [Publish(e.url, id, b)];
    }

    /** The second statement of the callback, after which the watcher returns. */
    method NotifyClient(id: nat)
      requires Valid() && id < |sessions| && sessions[id].phase.Published?
      modifies this`sessions, this`history
      ensures sessions == old(sessions)[id := old(sessions)[id].(phase := Exited(true))]
      ensures Valid() && history == old(history) + [Notify(old(sessions)[id].url, id)]
    {
      var e := sessions[id];
      RunExtend(hash, history, Notify(e.url, id));
      sessions, history := sessions[id := e.(phase := Exited(true))], history + [Notify(e.url, id)];
    }

    method Stop(id: nat)
      requires Valid() && id < |sessions| && sessions[id].phase.Idle?
      requires shutdownClosed || sessions[id].cancelled
      modifies this`sessions, this`history
      ensures sessions == old(sessions)[id := old(sessions)[id].(phase := Exited(false))]
      ensures Valid() && history == old(history) + [Exit(old(sessions)[id].url, id)]
    {
      var e := sessions[id];
      RunExtend(hash, history, Exit(e.url, id));
      sessions, history := sessions[id := e.(phase := Exited(false))], history + [Exit(e.url, id)];
    }

    /** The context given to Retrieve is cancelled, and with it the watcher's. */
    method CancelContext(id: nat)
      requires Valid() && id < |sessions|
      modifies this`sessions, this`history
      ensures sessions == old(sessions)[id := old(sessions)[id].(cancelled := true)]
      ensures Valid() && history == old(history) + [CancelParent(old(sessions)[id].url, id)]
    {
      var url := sessions[id].url;
      RunExtend(hash, history, CancelParent(url, id));
      sessions, history := SetCancelled(sessions, Some(id)), history + [CancelParent(url, id)];
    }

    /** Closing the channel twice would panic, so Shutdown is called at most once. */
    method ShutdownProvider()
      requires Valid() && !shutdownClosed
      modifies this`shutdownClosed, this`history
      ensures shutdownClosed && Valid() && history == old(history) + [Shutdown]
    {
      RunExtend(hash, history, Shutdown);
      shutdownClosed, history := true, history + [Shutdown];
    }

    /** The direct request and its answer. */
    method Ask(id: nat, answer: Option<Body>)
      requires Valid() && id < |sessions| && sessions[id].phase.Missed?
      modifies this`sessions, this`history
      ensures Valid()
      ensures sessions == old(sessions)[id := Fetched(old(sessions)[id], answer)]
      ensures history == old(history) + AskLabels(old(sessions)[id].url, id, answer)
    {
      ghost var start, e := history, sessions[id];
      var first, changed := SendRequest(id);
      Answer(id, answer);
      AppendAssociates(start, [DirectRequest(e.url, id, true, false)],
                       [if answer.Some? then FetchOk(e.url, id, answer.value) else FetchErr(e.url, id)]);
    }

    /** Retrieve up to the point where the body is known. */
    method Obtain(url: Url, watching: bool, answer: Option<Body>) returns (id: nat, body: Option<Body>)
      requires Valid()
      modifies this`newConfig, this`sessions, this`history
      ensures Valid() && id == |old(sessions)| && |sessions| == id + 1
      ensures body == if url in old(newConfig) then Some(old(newConfig)[url]) else answer
      ensures newConfig == old(newConfig) - {url}
      ensures sessions == old(sessions) + [match body
                                           case Some(b) => Session(url, watching, b, if watching then Served else Unwatched, true, false)
                                           case None => Session(url, watching, "", FetchFailed, true, false)]
      ensures history == old(history) + ObtainLabels(url, id, watching, Lookup(old(newConfig), url), answer)
    {
      ghost var start, others := history, sessions;
      id, body := LookUp(url, watching);
      ghost var e := Begun(url, watching, body);
      if body.Some? {
        AppendThenSet(others, e, e.(phase := if watching then Served else Unwatched));
        DeleteEntry(id);
        AppendAssociates(start, [Look(url, id, watching, body)], [Delete(url, id, e.base)]);
      } else {
        AppendThenSet(others, e, Fetched(e, answer));
        Ask(id, answer);
        AppendAssociates(start, [Look(url, id, watching, None)], AskLabels(url, id, answer));
        body := answer;
      }
    }

    /** The watcher set-up of Retrieve. */
    method StartWatcher(id: nat)
      requires Valid() && id < |sessions| && sessions[id].phase.Served?
      modifies this`sessions, this`watcherCancelMap, this`history
      ensures Valid() && watcherCancelMap == old(watcherCancelMap)[old(sessions)[id].url := id]
      ensures |sessions| == |old(sessions)| && sessions[id].phase == Idle
      ensures sessions[id].cancelled == old(sessions)[id].cancelled
      ensures var url := old(sessions)[id].url;
              history == old(history) + [Register(url, id, Lookup(old(watcherCancelMap), url)), Spawn(url, id)]
    {
      MapHoldsLiveInRuns(hash, history);
      RegisterWatcher(id);
      SpawnWatcher(id);
    }

    /**
     Retrieve from its cache lookup on, run without interference; `answer` is what the server
     would say to a direct request.  A body that does not parse is an error too, but its watcher
     has been started.
     */
    method Retrieve(url: Url, watching: bool, answer: Option<Body>, parses: Body -> bool) returns (body: Option<Body>, ok: bool)
      requires Valid()
      modifies this`newConfig, this`sessions, this`watcherCancelMap, this`history
      ensures Valid() && newConfig == old(newConfig) - {url}
      ensures body == if url in old(newConfig) then Some(old(newConfig)[url]) else answer
      ensures ok == (body.Some? && parses(body.value))
      ensures body.Some? && watching ==>
                Live(Snapshot(), |old(sessions)|) && watcherCancelMap == old(watcherCancelMap)[url := |old(sessions)|]
      ensures !(body.Some? && watching) ==> watcherCancelMap == old(watcherCancelMap)
      ensures history == old(history) + ObtainLabels(url, |old(sessions)|, watching, Lookup(old(newConfig), url), answer)
              + (if body.Some? && watching
                 then [Register(url, |old(sessions)|, Lookup(old(watcherCancelMap), url)), Spawn(url, |old(sessions)|)]
                 else [])
    {
      var id;
      id, body := Obtain(url, watching, answer);
      if body.None? {
        return None, false;
      }
      if watching {
        StartWatcher(id);
      }
      return body, parses(body.value);
    }

    /** The watcher's callback: publish the body, then notify. */
    method ReportChange(id: nat)
      requires Valid() && id < |sessions| && sessions[id].phase.Changed?
      modifies this`newConfig, this`sessions, this`history
      ensures Valid()
      ensures var e := old(sessions)[id];
        && sessions == old(sessions)[id := e.(phase := Exited(true))]
        && newConfig == old(newConfig)[e.url := e.phase.body]
        && history == old(history) + [Publish(e.url, id, e.phase.body), Notify(e.url, id)]
    {
      ghost var start, e := history, sessions[id];
      PublishBody(id);
      NotifyClient(id);
      AppendAssociates(start, [Publish(e.url, id, e.phase.body)], [Notify(e.url, id)]);
    }

    /** One turn of the watcher's loop on a tick. */
    method Poll(id: nat, answer: Option<Body>) returns (differs: bool)
      requires Valid() && id < |sessions| && sessions[id].phase.Idle?
      requires answer.Some? ==> !sessions[id].cancelled
      modifies this`newConfig, this`sessions, this`history
      ensures Valid() && differs == (answer.Some? && hash(old(sessions)[id].base) != hash(answer.value))
      ensures var e := old(sessions)[id];
        && sessions == old(sessions)[id := e.(configChanged := false, phase := if differs then Exited(true) else Idle)]
        && newConfig == (if answer.Some? && differs then old(newConfig)[e.url := answer.value] else old(newConfig))
        && history == old(history) + PollLabels(hash, e.url, id, e.base, answer, e.configChanged)
    {
      ghost var start, e := history, sessions[id];
      var first, changed := StartPoll(id);
      differs := EndPoll(id, answer);
      ghost var asked := [PollRequest(e.url, id, false, e.configChanged)];
      ghost var answered := [if answer.Some? then PollOk(e.url, id, answer.value) else PollErr(e.url, id)];
      AppendAssociates(start, asked, answered);
      if differs {
        ReportChange(id);
        AppendAssociates(start, asked + answered, [Publish(e.url, id, answer.value), Notify(e.url, id)]);
        AppendAssociates(asked, answered, [Publish(e.url, id, answer.value), Notify(e.url, id)]);
      }
    }

    /** One turn of the watcher's loop: its select and the case that is ready. */
    method Turn(id: nat, wake: Wake) returns (done: bool, found: Option<Body>)
      requires Valid() && id < |sessions| && sessions[id].phase.Idle?
      requires MayWake(sessions[id], shutdownClosed, wake)
      modifies this`newConfig, this`sessions, this`history
      ensures Valid() && found == TurnFinds(hash, old(sessions)[id].base, wake)
      ensures done == (found.Some? || !wake.Tick?)
      ensures |sessions| == |old(sessions)|
      ensures !done ==> sessions[id] == old(sessions)[id].(configChanged := false)
      ensures var e := old(sessions)[id];
        && newConfig == (if found.Some? then old(newConfig)[e.url := found.value] else old(newConfig))
        && history == old(history) + TurnLabels(hash, e.url, id, e.base, wake, e.configChanged)
    {
      found := None;
      if wake.Tick? {
        done := Poll(id, wake.answer);
        if done {
          found := wake.answer;
        }
      } else {
        Stop(id);
        done := true;
      }
    }

    /** The watcher's loop, run without interference until the script ends, it stops or it notifies. */
    method WatchForChanges(id: nat, script: seq<Wake>) returns (notified: Option<Body>)
      requires Valid() && id < |sessions| && sessions[id].phase.Idle?
      requires forall k :: 0 <= k < |script| ==> MayWake(sessions[id], shutdownClosed, script[k])
      modifies this`newConfig, this`sessions, this`history
      ensures Valid()
      ensures notified == FirstChange(hash, old(sessions)[id].base, script)
      ensures var e := old(sessions)[id];
        && newConfig == (if notified.Some? then old(newConfig)[e.url := notified.value] else old(newConfig))
        && history == old(history) + WatchLabels(hash, e.url, id, e.base, script, e.configChanged)
    {
      ghost var e, start := sessions[id], history;
      WatchBegins(hash, e, id, script, start);
      var k := 0;
      while k < |script|
        invariant k <= |script|
        invariant Valid() && id < |sessions| && newConfig == old(newConfig) && shutdownClosed == old(shutdownClosed)
        invariant sessions[id] == e.(configChanged := sessions[id].configChanged)
        invariant Halfway(hash, e, id, script, k, sessions[id].configChanged, start, history)
      {
        TurnAdvances(hash, e, id, script, k, sessions[id].configChanged, start, history);
        assert MayWake(e, shutdownClosed, script[k]);
        var stopped;
        stopped, notified := Turn(id, script[k]);
        if stopped {
          return;
        }
        k := k + 1;
      }
      WatchEnds(hash, e, id, script, sessions[id].configChanged, start, history);
      return None;
    }
  }
}
