/**
 Safety of the watchers over every interleaving: one live watcher per URL, and at most one
 publication and one notification in the life of each watcher.
 */
module EecWatchers {
  import opened Options
  import opened EecProtocol

  /** The session has been through the mutex block of Retrieve. */
  predicate Joined(p: Phase) {
    p.Registered? || p.Idle? || p.Polling? || p.Changed? || p.Published? || p.Exited?
  }

  /** A joined session whose context nobody has cancelled. */
  predicate Live(s: State, id: nat) {
    id < |s.sessions| && Joined(s.sessions[id].phase) && !s.sessions[id].cancelled
  }

  // ---------------------------------------------------------------- one watcher per URL

  ghost predicate LiveInMap(s: State) {
    forall id: nat :: Live(s, id) ==> Lookup(s.cancelMap, s.sessions[id].url) == Some(id)
  }

  ghost predicate MapJoined(s: State) {
    forall u :: u in s.cancelMap ==> Has(s, u, s.cancelMap[u]) && Joined(s.sessions[s.cancelMap[u]].phase)
  }

  ghost predicate MapHoldsLive(s: State) {
    LiveInMap(s) && MapJoined(s)
  }

  lemma LiveInMapStep(h: HashFn, s: State, t: Step)
    requires LiveInMap(s) && Enabled(s, t)
    ensures LiveInMap(Next(h, s, t))
  {
    var s' := Next(h, s, t);
    forall id: nat | Live(s', id)
      ensures Lookup(s'.cancelMap, s'.sessions[id].url) == Some(id)
    {
      if !(t.Register? && t.id == id) {
        assert Live(s, id);
      }
    }
  }

  lemma MapJoinedStep(h: HashFn, s: State, t: Step)
    requires MapJoined(s) && Enabled(s, t)
    ensures MapJoined(Next(h, s, t))
  {
    var s' := Next(h, s, t);
    forall u | u in s'.cancelMap
      ensures Has(s', u, s'.cancelMap[u]) && Joined(s'.sessions[s'.cancelMap[u]].phase)
    {
      if !(t.Register? && t.url == u) {
        assert u in s.cancelMap;
        assert Has(s, u, s.cancelMap[u]);
      }
    }
  }

  lemma MapHoldsLiveStep(h: HashFn, s: State, t: Step)
    requires MapHoldsLive(s) && Enabled(s, t)
    ensures MapHoldsLive(Next(h, s, t))
  {
    LiveInMapStep(h, s, t);
    MapJoinedStep(h, s, t);
  }

  lemma {:induction false} MapHoldsLiveInRuns(h: HashFn, run: seq<Step>)
    requires IsRun(h, run)
    ensures MapHoldsLive(After(h, run))
  {
    if run != [] {
      var n := |run| - 1;
      MapHoldsLiveInRuns(h, run[..n]);
      MapHoldsLiveStep(h, After(h, run[..n]), run[n]);
    }
  }

  /**
   In every reachable state a URL has at most one uncancelled watcher, spawned or about to be
   spawned, and its cancel function is the one in the map.
   */
  lemma {:induction false} SingleLiveWatcher(h: HashFn, run: seq<Step>, a: nat, b: nat)
    requires IsRun(h, run)
    requires Live(After(h, run), a) && Live(After(h, run), b)
    requires After(h, run).sessions[a].url == After(h, run).sessions[b].url
    ensures a == b
    ensures Lookup(After(h, run).cancelMap, After(h, run).sessions[a].url) == Some(a)
  {
    MapHoldsLiveInRuns(h, run);
  }

  // ---------------------------------------------------------------- the life of one watcher

  /** What a run shows of session `id`. */
  datatype Life = Life(base: Option<Body>, polls: nat, changedPolls: nat, answers: seq<Body>,
                       published: seq<Body>, notified: nat, cancelled: bool, lastPollDoomed: bool)

  const UNBORN := Life(None, 0, 0, [], [], 0, false, false)

  function Observe(l: Life, t: Step, id: nat): Life {
    match t
    case Look(_, i, _, found) => if i == id then l.(base := found) else l
    case FetchOk(_, i, b) => if i == id then l.(base := Some(b)) else l
    case PollRequest(_, i, _, c) =>
      if i == id then
        l.(polls := l.polls + 1, changedPolls := l.changedPolls + (if c then 1 else 0),
           lastPollDoomed := l.cancelled)
      else l
    case PollOk(_, i, b) => if i == id then l.(answers := l.answers + [b]) else l
    case Publish(_, i, b) => if i == id then l.(published := l.published + [b]) else l
    case Notify(_, i) => if i == id then l.(notified := l.notified + 1) else l
    case Register(_, _, d) => if d == Some(id) then l.(cancelled := true) else l
    case CancelParent(_, i) => if i == id then l.(cancelled := true) else l
    case _ => l
  }

  function LifeOf(run: seq<Step>, id: nat): Life {
    if run == [] then UNBORN else Observe(LifeOf(run[..|run| - 1], id), run[|run| - 1], id)
  }

  ghost predicate AllUnchanged(h: HashFn, base: Body, bs: seq<Body>) {
    forall i :: 0 <= i < |bs| ==> h(bs[i]) == h(base)
  }

  /** `bs` ends with its first element whose hash differs from the base's, and that one is `b`. */
  ghost predicate EndsWithFirstChange(h: HashFn, base: Body, bs: seq<Body>, b: Body) {
    bs != [] && bs[|bs| - 1] == b && h(b) != h(base) && AllUnchanged(h, base, bs[..|bs| - 1])
  }

  /** How the life of a session looks from its present phase. */
  ghost predicate LifeFits(h: HashFn, e: Session, l: Life) {
    && l.cancelled == e.cancelled
    && l.base == (if e.phase.Missed? || e.phase.Fetching? || e.phase.FetchFailed? then None else Some(e.base))
    && e.configChanged == (l.polls == 0)
    && l.changedPolls == (if l.polls == 0 then 0 else 1)
    && match e.phase
       case Polling(d) => AllUnchanged(h, e.base, l.answers) && l.published == [] && l.notified == 0 && d == l.lastPollDoomed
       case Idle => AllUnchanged(h, e.base, l.answers) && l.published == [] && l.notified == 0
       case Changed(b) => EndsWithFirstChange(h, e.base, l.answers, b) && l.published == [] && l.notified == 0 && !l.lastPollDoomed
       case Published(b) => EndsWithFirstChange(h, e.base, l.answers, b) && l.published == [b] && l.notified == 0 && !l.lastPollDoomed
       case Exited(n) =>
         if n then
           && |l.published| == 1 && l.notified == 1 && !l.lastPollDoomed
           && EndsWithFirstChange(h, e.base, l.answers, l.published[0])
         else AllUnchanged(h, e.base, l.answers) && l.published == [] && l.notified == 0
       case _ => l.answers == [] && l.published == [] && l.notified == 0 && l.polls == 0
  }

  /** The life `l` of session `id` fits state `s`; a session not yet begun has an empty life. */
  ghost predicate FitsAt(h: HashFn, s: State, l: Life, id: nat) {
    if id < |s.sessions| then LifeFits(h, s.sessions[id], l) else l == UNBORN
  }

  ghost predicate LivesFit(h: HashFn, s: State, run: seq<Step>) {
    && MapHoldsLive(s)
    && (forall id: nat :: FitsAt(h, s, LifeOf(run, id), id))
  }

  lemma LifeStepOther(h: HashFn, s: State, t: Step, l: Life, id: nat)
    requires Enabled(s, t) && MapHoldsLive(s) && FitsAt(h, s, l, id)
    requires t.Shutdown? || t.id != id
    ensures FitsAt(h, Next(h, s, t), Observe(l, t, id), id)
  {
    var s' := Next(h, s, t);
    if t.Register? && t.displaced == Some(id) {
      assert Has(s, t.url, id);
      assert s'.sessions[id] == s.sessions[id].(cancelled := true);
    } else {
      assert id < |s'.sessions| ==> id < |s.sessions| && s'.sessions[id] == s.sessions[id];
      assert Observe(l, t, id) == l;
    }
  }

  lemma LifeStepRegister(h: HashFn, s: State, t: Step, l: Life)
    requires Enabled(s, t) && MapHoldsLive(s) && t.Register? && FitsAt(h, s, l, t.id)
    ensures FitsAt(h, Next(h, s, t), Observe(l, t, t.id), t.id)
  {
    if t.displaced.Some? {
      assert Has(s, t.url, t.displaced.value) && Joined(s.sessions[t.displaced.value].phase);
      assert t.displaced.value != t.id;
    }
  }

  lemma LifeStepServe(h: HashFn, s: State, t: Step, l: Life)
    requires Enabled(s, t) && (t.Look? || t.Delete? || t.DirectRequest? || t.FetchOk? || t.FetchErr?) && FitsAt(h, s, l, t.id)
    ensures FitsAt(h, Next(h, s, t), Observe(l, t, t.id), t.id)
  {
  }

  lemma LifeStepPoll(h: HashFn, s: State, t: Step, l: Life)
    requires Enabled(s, t) && (t.Spawn? || t.PollRequest? || t.PollErr?) && FitsAt(h, s, l, t.id)
    ensures FitsAt(h, Next(h, s, t), Observe(l, t, t.id), t.id)
  {
    assert LifeFits(h, s.sessions[t.id], l);
    assert Next(h, s, t).sessions[t.id].base == s.sessions[t.id].base;
  }

  lemma LifeStepAnswer(h: HashFn, s: State, t: Step, l: Life)
    requires Enabled(s, t) && t.PollOk? && FitsAt(h, s, l, t.id)
    ensures FitsAt(h, Next(h, s, t), Observe(l, t, t.id), t.id)
  {
    AnswerFits(h, s.sessions[t.id], l, t.body);
  }

  lemma AnswerFits(h: HashFn, e: Session, l: Life, b: Body)
    requires LifeFits(h, e, l) && e.phase == Polling(false)
    ensures LifeFits(h, e.(phase := if h(e.base) != h(b) then Changed(b) else Idle), l.(answers := l.answers + [b]))
  {
    AnswerAdded(h, e.base, l.answers, b);
  }

  lemma AnswerAdded(h: HashFn, base: Body, bs: seq<Body>, b: Body)
    requires AllUnchanged(h, base, bs)
    ensures if h(b) == h(base) then AllUnchanged(h, base, bs + [b]) else EndsWithFirstChange(h, base, bs + [b], b)
  {
    assert (bs + [b])[..|bs|] == bs;
  }

  lemma LifeStepEnd(h: HashFn, s: State, t: Step, l: Life)
    requires Enabled(s, t) && (t.Publish? || t.Notify? || t.Exit? || t.CancelParent?) && FitsAt(h, s, l, t.id)
    ensures FitsAt(h, Next(h, s, t), Observe(l, t, t.id), t.id)
  {
  }

  lemma LifeStepSame(h: HashFn, s: State, t: Step, l: Life, id: nat)
    requires Enabled(s, t) && MapHoldsLive(s) && FitsAt(h, s, l, id)
    requires !t.Shutdown? && t.id == id
    ensures FitsAt(h, Next(h, s, t), Observe(l, t, id), id)
  {
    if t.Look? || t.Delete? || t.DirectRequest? || t.FetchOk? || t.FetchErr? {
      LifeStepServe(h, s, t, l);
    } else if t.Spawn? || t.PollRequest? || t.PollErr? {
      LifeStepPoll(h, s, t, l);
    } else if t.PollOk? {
      LifeStepAnswer(h, s, t, l);
    } else if t.Register? {
      LifeStepRegister(h, s, t, l);
    } else {
      LifeStepEnd(h, s, t, l);
    }
  }

  lemma {:induction false} LivesFitRuns(h: HashFn, run: seq<Step>)
    requires IsRun(h, run)
    ensures LivesFit(h, After(h, run), run)
  {
    MapHoldsLiveInRuns(h, run);
    if run != [] {
      var n := |run| - 1;
      LivesFitRuns(h, run[..n]);
      var t := run[n];
      forall id: nat
        ensures FitsAt(h, After(h, run), LifeOf(run, id), id)
      {
        if t.Shutdown? || t.id != id {
          LifeStepOther(h, After(h, run[..n]), t, LifeOf(run[..n], id), id);
        } else {
          LifeStepSame(h, After(h, run[..n]), t, LifeOf(run[..n], id), id);
        }
      }
    }
  }

  /**
   A watcher publishes at most once and notifies only what it published.  What it publishes is
   the first successful answer whose hash differs from the hash of the body its own Retrieve
   served, and the poll that brought it began before the watcher was cancelled.
   */
  lemma PublishesFirstChangeOnce(h: HashFn, run: seq<Step>, id: nat)
    requires IsRun(h, run)
    ensures var l := LifeOf(run, id);
      && |l.published| <= 1 && l.notified <= |l.published|
      && (l.published != [] ==>
            l.base.Some? && !l.lastPollDoomed && EndsWithFirstChange(h, l.base.value, l.answers, l.published[0]))
  {
    LivesFitRuns(h, run);
    assert FitsAt(h, After(h, run), LifeOf(run, id), id);
  }

  /** Nothing is polled after an answer that differs: only the last answer of a watcher can. */
  lemma StopsAtFirstChange(h: HashFn, run: seq<Step>, id: nat, i: nat)
    requires IsRun(h, run) && i < |LifeOf(run, id).answers|
    ensures LifeOf(run, id).base.Some?
    ensures h(LifeOf(run, id).answers[i]) != h(LifeOf(run, id).base.value) ==> i == |LifeOf(run, id).answers| - 1
  {
    LivesFitRuns(h, run);
    assert FitsAt(h, After(h, run), LifeOf(run, id), id);
    var l := LifeOf(run, id);
    var front := l.answers[..|l.answers| - 1];
    assert i < |front| ==> l.answers[i] == front[i];
  }

  /** A cancelled watcher can publish only an answer that it already holds. */
  lemma CancelledPublishesOnlyHeldAnswer(h: HashFn, run: seq<Step>, url: Url, id: nat, body: Body)
    requires IsRun(h, run + [Publish(url, id, body)])
    ensures !LifeOf(run, id).lastPollDoomed && LifeOf(run, id).answers != []
    ensures body == LifeOf(run, id).answers[|LifeOf(run, id).answers| - 1]
  {
    RunExtend(h, run, Publish(url, id, body));
    LivesFitRuns(h, run);
    assert FitsAt(h, After(h, run), LifeOf(run, id), id);
  }
}
