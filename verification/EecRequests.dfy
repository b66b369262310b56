/**
 The two request headers against what they are documented to say: first=true for the first request
 and no other, changed=true behind a request that brought a change and behind no other.
 */
module EecRequests {
  import opened Options
  import opened Sequences
  import opened EecProtocol
  import opened EecWatchers
  import opened EecCache
  import opened EecHeaders
  import opened EecClient
  import opened EecPaths
  import opened EecRounds
  import opened EecOrder

  predicate Requests(t: Step, u: Url) {
    IsRequest(t) && t.url == u
  }

  // ---------------------------------------------------------------- the first request

  /** Label `n` is the first request for `u`. */
  ghost predicate IsFirstRequest(run: seq<Step>, u: Url, n: int) {
    0 <= n < |run| && Requests(run[n], u) && NoneBetween(run, u, Requests, -1, n)
  }

  /** As documented: first=true for the first request and false for all that follow. */
  ghost predicate FirstMarksFirst(run: seq<Step>, u: Url) {
    forall n :: 0 <= n < |run| && Requests(run[n], u) ==> (run[n].first <==> IsFirstRequest(run, u, n))
  }

  /** A call that looks up at `l`, while nothing published for `u` is undeleted, asks at `n` behind another request. */
  ghost predicate AsksAgain(run: seq<Step>, u: Url, l: int, n: int) {
    && 0 <= l < n < |run| && Looks(run[l], u) && Undeleted(run[..l], u) == None
    && run[n].DirectRequest? && run[n].id == run[l].id && run[n].url == u
    && !NoneBetween(run, u, Requests, -1, n)
  }

  /** The session is past its lookup's miss. */
  ghost predicate HasAsked(run: seq<Step>, u: Url, id: nat) {
    exists k :: 0 <= k < |run| && run[k].DirectRequest? && run[k].id == id && run[k].url == u
  }

  lemma AskedBefore(front: seq<Step>, run: seq<Step>, u: Url, id: nat)
    requires |front| <= |run| && front == run[..|front|] && HasAsked(front, u, id)
    ensures HasAsked(run, u, id)
  {
    var k :| 0 <= k < |front| && front[k].DirectRequest? && front[k].id == id && front[k].url == u;
    assert run[k] == front[k];
  }

  lemma MissedStep(h: HashFn, s: State, t: Step, id: nat)
    requires Enabled(s, t) && id < |s.sessions| && !Next(h, s, t).sessions[id].phase.Missed?
    ensures s.sessions[id].phase.Missed? ==> t.DirectRequest? && t.id == id && t.url == s.sessions[id].url
  {
  }

  /** A call that has missed and gone on has sent its direct request. */
  lemma {:induction false} MissedThenAsked(h: HashFn, run: seq<Step>, l: nat)
    requires IsRun(h, run) && l < |run| && run[l].Look? && run[l].found == None
    ensures run[l].id < |After(h, run).sessions|
    ensures After(h, run).sessions[run[l].id].url == run[l].url
    ensures !After(h, run).sessions[run[l].id].phase.Missed? ==> HasAsked(run, run[l].url, run[l].id)
  {
    var n, id := |run| - 1, run[l].id;
    RunLast(h, run);
    if l < n {
      assert run[..n][l] == run[l];
      MissedThenAsked(h, run[..n], l);
      SessionsGrow(h, After(h, run[..n]), run[n], id);
      if !After(h, run).sessions[id].phase.Missed? {
        MissedStep(h, After(h, run[..n]), run[n], id);
        if After(h, run[..n]).sessions[id].phase.Missed? {
          assert run[n].DirectRequest? && run[n].id == id;
        } else {
          AskedBefore(run[..n], run, run[l].url, id);
        }
      }
    }
  }

  lemma PollingStep(h: HashFn, s: State, t: Step, id: nat)
    requires Enabled(s, t) && id < |Next(h, s, t).sessions| && Next(h, s, t).sessions[id].phase.Polling?
    requires !(t.PollRequest? && t.id == id)
    ensures id < |s.sessions| && s.sessions[id].phase.Polling? && Next(h, s, t).sessions[id].url == s.sessions[id].url
  {
  }

  lemma {:induction false} PollingHasAsked(h: HashFn, run: seq<Step>, id: nat) returns (k: nat)
    requires IsRun(h, run) && id < |After(h, run).sessions| && After(h, run).sessions[id].phase.Polling?
    ensures k < |run| && Requests(run[k], After(h, run).sessions[id].url)
  {
    var n := |run| - 1;
    RunLast(h, run);
    if run[n].PollRequest? && run[n].id == id {
      k := n;
    } else {
      PollingStep(h, After(h, run[..n]), run[n], id);
      k := PollingHasAsked(h, run[..n], id);
    }
  }

  /** Before a poll for `u` there was another request for `u`. */
  lemma PollIsNotFirst(h: HashFn, run: seq<Step>, n: nat)
    requires IsRun(h, run) && n < |run| && run[n].PollRequest?
    ensures !NoneBetween(run, run[n].url, Requests, -1, n)
  {
    RunAt(h, run, n);
    var u, front := run[n].url, run[..n];
    var l := LookOf(h, front, run[n].id);
    assert front[l] == run[l];
    if IsHit(run[l]) {
      var j := HitHasPublication(h, run, l);
      var p := PublicationBrought(h, run, j);
      RunAt(h, run, p);
      var k := PollingHasAsked(h, run[..p], run[p].id);
      assert run[..p][k] == run[k];
    } else {
      MissedThenAsked(h, front, l);
      var k :| 0 <= k < |front| && front[k].DirectRequest? && front[k].id == run[n].id && front[k].url == u;
      assert Requests(run[k], u);
    }
  }

  lemma DirectHasMissed(h: HashFn, run: seq<Step>, n: nat) returns (l: nat)
    requires IsRun(h, run) && n < |run| && run[n].DirectRequest?
    ensures l < n && Looks(run[l], run[n].url) && run[l].id == run[n].id && run[l].found == None
    ensures Undeleted(run[..l], run[n].url) == None
  {
    RunAt(h, run, n);
    l := LookOf(h, run[..n], run[n].id);
    assert run[..n][l] == run[l];
    AskingHasMissed(h, run[..n], run[n].id, l);
    LookFindsUndeleted(h, run, l);
  }

  /** first=true marks exactly the first request for a URL exactly when no later call finds nothing undeleted and goes on to ask. */
  lemma FirstHeaderExactly(h: HashFn, run: seq<Step>, u: Url)
    requires IsRun(h, run)
    ensures FirstMarksFirst(run, u) <==> !exists l, n :: AsksAgain(run, u, l, n)
  {
    if l, n :| AsksAgain(run, u, l, n) {
      HeadersOfRequest(h, run, n);
    } else {
      forall n | 0 <= n < |run| && Requests(run[n], u)
        ensures run[n].first <==> IsFirstRequest(run, u, n)
      {
        HeadersOfRequest(h, run, n);
        if run[n].PollRequest? {
          PollIsNotFirst(h, run, n);
        } else {
          var l := DirectHasMissed(h, run, n);
          assert !AsksAgain(run, u, l, n);
        }
      }
    }
  }

  // ---------------------------------------------------------------- the request before

  /** Request `m` is the last for `u` before `n`. */
  ghost predicate Previous(run: seq<Step>, u: Url, m: int, n: int) {
    0 <= m < n <= |run| && Requests(run[m], u) && NoneBetween(run, u, Requests, m, n)
  }

  /** By `n`, request `m` has brought a change: a poll whose watcher's last answer has another hash than its base. */
  ghost predicate Brought(h: HashFn, run: seq<Step>, m: int, n: int)
    requires 0 <= m < n <= |run|
  {
    run[m].PollRequest? &&
    var l := LifeOf(run[..n], run[m].id);
    l.base.Some? && l.answers != [] && h(l.answers[|l.answers| - 1]) != h(l.base.value)
  }

  /** As documented: the flag says whether the request before brought a change. */
  ghost predicate FlagTells(h: HashFn, run: seq<Step>, m: int, n: int)
    requires 0 <= m < n < |run| && IsRequest(run[n])
  {
    run[n].changed <==> Brought(h, run, m, n)
  }

  predicate IsFirstPoll(run: seq<Step>, n: nat)
    requires n < |run|
  {
    run[n].PollRequest? && run[n].id !in Pollers(run[..n])
  }

  /** The watcher has found its change. */
  predicate Reloading(p: Phase) {
    p.Changed? || p.Published? || p == Exited(true)
  }

  predicate ReloadedBy(s: State, id: nat) {
    id < |s.sessions| && Reloading(s.sessions[id].phase)
  }

  lemma BroughtExactly(h: HashFn, run: seq<Step>, m: nat, n: nat)
    requires IsRun(h, run) && m < n <= |run|
    ensures IsRun(h, run[..n])
    ensures Brought(h, run, m, n) <==> run[m].PollRequest? && ReloadedBy(After(h, run[..n]), run[m].id)
  {
    RunPrefix(h, run, n);
    LivesFitRuns(h, run[..n]);
    if run[m].PollRequest? {
      var s, id := After(h, run[..n]), run[m].id;
      assert FitsAt(h, s, LifeOf(run[..n], id), id);
      if id < |s.sessions| {
        LastAnswerTells(h, s.sessions[id], LifeOf(run[..n], id));
      }
    }
  }

  lemma LastAnswerTells(h: HashFn, e: Session, l: Life)
    requires LifeFits(h, e, l)
    ensures l.base.Some? && l.answers != [] && h(l.answers[|l.answers| - 1]) != h(l.base.value) <==> Reloading(e.phase)
  {
  }

  /**
   The flag of a request tells exactly when it is a watcher's first poll and the poll before it, by
   any watcher, has led to a reload, or when it is neither a first poll nor is that so.
   */
  lemma ChangedFlagExactly(h: HashFn, run: seq<Step>, u: Url, m: nat, n: nat)
    requires IsRun(h, run) && n < |run| && Requests(run[n], u) && Previous(run, u, m, n)
    ensures IsRun(h, run[..n])
    ensures FlagTells(h, run, m, n) <==>
            (IsFirstPoll(run, n) <==> run[m].PollRequest? && ReloadedBy(After(h, run[..n]), run[m].id))
  {
    HeadersOfRequest(h, run, n);
    BroughtExactly(h, run, m, n);
  }

  // ---------------------------------------------------------------- a client that retrieves once per notification

  datatype Asked = Nobody | By(id: nat, poll: bool)

  /** Who sent the last request for `u`. */
  function LastAsked(run: seq<Step>, u: Url): Asked {
    if run == [] then Nobody
    else
      var t := run[|run| - 1];
      if Requests(t, u) then By(t.id, t.PollRequest?) else LastAsked(run[..|run| - 1], u)
  }

  lemma {:induction false} LastAskedIsPrevious(run: seq<Step>, u: Url, m: nat, n: nat)
    requires Previous(run, u, m, n)
    ensures LastAsked(run[..n], u) == By(run[m].id, run[m].PollRequest?)
  {
    assert run[..n][..n - 1] == run[..n - 1];
    if m < n - 1 {
      LastAskedIsPrevious(run, u, m, n - 1);
    }
  }

  /** The last request led to a reload. */
  predicate Reloaded(s: State, a: Asked) {
    a.By? && a.poll && ReloadedBy(s, a.id)
  }

  ghost predicate IsYoungest(s: State, u: Url, id: nat) {
    Has(s, u, id) && forall a: nat :: Has(s, u, a) ==> a <= id
  }

  /** How the last request stands to the phase of the youngest call; `hit` says whether that found its body in the cache. */
  ghost predicate AskFits(s: State, u: Url, id: nat, a: Asked, hit: bool)
    requires id < |s.sessions|
  {
    var e := s.sessions[id];
    match e.phase
    case Missed => !hit && e.configChanged && !Reloaded(s, a)
    case Hit => hit && e.configChanged && Reloaded(s, a)
    case Fetching => !hit && e.configChanged && a == By(id, false)
    case FetchFailed => !Reloaded(s, a) && u !in s.cache
    case Polling(_) => a == By(id, true) && !e.configChanged
    case Changed(_) => a == By(id, true)
    case Published(_) => a == By(id, true)
    case Exited(n) => n ==> a == By(id, true) && u in s.cache
    case _ => if !e.configChanged then a == By(id, true) else if hit then Reloaded(s, a) else a == By(id, false)
  }

  ghost predicate AsksFit(s: State, u: Url, a: Asked, run: seq<Step>) {
    && (forall id: nat :: IsYoungest(s, u, id) ==> AskFits(s, u, id, a, FromCache(run, id) == Some(true)))
    && ((forall id: nat :: !Has(s, u, id)) ==> a == Nobody && u !in s.cache)
    && (a.By? ==> Has(s, u, a.id))
  }

  lemma OtherPhase(h: HashFn, s: State, t: Step, id: nat)
    requires Enabled(s, t) && id < |s.sessions| && (t.Shutdown? || t.CancelParent? || t.id != id)
    ensures var s' := Next(h, s, t);
      && id < |s'.sessions| && s'.sessions[id].phase == s.sessions[id].phase && s'.sessions[id].url == s.sessions[id].url
      && s'.sessions[id].configChanged == s.sessions[id].configChanged
  {
  }

  function AskedAfter(a: Asked, t: Step, u: Url): Asked {
    if Requests(t, u) then By(t.id, t.PollRequest?) else a
  }

  /** A step of the call that is under way. */
  lemma AskStep(h: HashFn, s: State, t: Step, u: Url, a: Asked, hit: bool, kept: seq<Body>, given: seq<Body>)
    requires Enabled(s, t) && !t.Shutdown? && !t.CancelParent? && !t.Look? && t.url == u
    requires InStep(s, u, s.sessions[t.id], kept, given) && AskFits(s, u, t.id, a, hit)
    ensures AskFits(Next(h, s, t), u, t.id, AskedAfter(a, t, u), hit)
  {
    var s' := Next(h, s, t);
    if a.By? && a.id != t.id && a.id < |s.sessions| {
      OtherPhase(h, s, t, a.id);
    }
    assert a.By? && a.id != t.id ==> Reloaded(s', a) == Reloaded(s, a);
  }

  lemma FromCacheExtend(run: seq<Step>, t: Step, id: nat)
    ensures FromCache(run + [t], id) == if StartsSession(t, id) then Some(t.found.Some?) else FromCache(run, id)
  {
    assert (run + [t])[..|run|] == run;
  }

  lemma ActiveFits(h: HashFn, s: State, t: Step, u: Url, a: Asked, run: seq<Step>, kept: seq<Body>, given: seq<Body>)
    requires Enabled(s, t) && !t.Shutdown? && !t.CancelParent? && !t.Look? && t.url == u
    requires Tracks(h, s, u, kept, given) && AsksFit(s, u, a, run)
    ensures AsksFit(Next(h, s, t), u, AskedAfter(a, t, u), run + [t])
  {
    var s' := Next(h, s, t);
    ActiveIsYoungest(h, s, t, u, kept, given);
    forall x: nat
      ensures Has(s', u, x) <==> Has(s, u, x)
    {
      if x < |s.sessions| {
        SessionsGrow(h, s, t, x);
      }
    }
    assert IsYoungest(s, u, t.id);
    assert InStep(s, u, s.sessions[t.id], kept, given);
    AskStep(h, s, t, u, a, FromCache(run, t.id) == Some(true), kept, given);
    FromCacheExtend(run, t, t.id);
  }

  /** The settled calls before a lookup: whether a configuration waits is whether the last request brought one. */
  lemma LookFits(h: HashFn, s: State, t: Step, u: Url, a: Asked, run: seq<Step>)
    requires Enabled(s, t) && Looks(t, u) && AllSettled(s, u) && AsksFit(s, u, a, run)
    ensures AsksFit(Next(h, s, t), u, a, run + [t])
  {
    var s' := Next(h, s, t);
    FromCacheExtend(run, t, t.id);
    CacheTells(s, u, a, run);
    if a.By? {
      OtherPhase(h, s, t, a.id);
    }
    assert IsYoungest(s', u, t.id);
  }

  lemma CacheTells(s: State, u: Url, a: Asked, run: seq<Step>)
    requires AllSettled(s, u) && AsksFit(s, u, a, run)
    ensures Reloaded(s, a) <==> u in s.cache
  {
    if id: nat :| Has(s, u, id) {
      var y := YoungestOf(s, u, id);
      assert Settled(s.sessions[y].phase);
    }
  }

  lemma YoungestOf(s: State, u: Url, id: nat) returns (y: nat)
    requires Has(s, u, id)
    ensures IsYoungest(s, u, y)
    decreases |s.sessions| - id
  {
    if a: nat :| Has(s, u, a) && a > id {
      y := YoungestOf(s, u, a);
    } else {
      y := id;
    }
  }

  lemma OtherFits(h: HashFn, s: State, t: Step, u: Url, a: Asked, run: seq<Step>)
    requires Enabled(s, t) && (t.Shutdown? || t.CancelParent? || t.url != u) && AsksFit(s, u, a, run)
    ensures AsksFit(Next(h, s, t), u, a, run + [t])
  {
    var s' := Next(h, s, t);
    OtherUrlIsSame(h, s, t, u);
    forall id: nat | IsYoungest(s', u, id)
      ensures AskFits(s', u, id, a, FromCache(run + [t], id) == Some(true))
    {
      assert IsYoungest(s, u, id);
      FromCacheExtend(run, t, id);
      OtherReloaded(s, s', u, a);
    }
  }

  lemma OtherReloaded(s: State, s': State, u: Url, a: Asked)
    requires SameFor(s, s', u) && (a.By? ==> Has(s, u, a.id))
    ensures Reloaded(s', a) <==> Reloaded(s, a)
  {
    if a.By? {
      assert s'.sessions[a.id].(cancelled := true).phase == s.sessions[a.id].(cancelled := true).phase;
    }
  }

  lemma LastAskedExtend(run: seq<Step>, t: Step, u: Url)
    ensures LastAsked(run + [t], u) == AskedAfter(LastAsked(run, u), t, u)
  {
    assert (run + [t])[..|run|] == run;
  }

  lemma {:induction false} ClientAsksFit(h: HashFn, run: seq<Step>, u: Url)
    requires ClientRun(h, run, u)
    ensures AsksFit(After(h, run), u, LastAsked(run, u), run)
  {
    if run != [] {
      var front, t := run[..|run| - 1], run[|run| - 1];
      var s, a := After(h, front), LastAsked(front, u);
      RunLast(h, run);
      ClientAsksFit(h, front, u);
      LastAskedExtend(front, t, u);
      assert run == front + [t];
      if t.Shutdown? || t.CancelParent? || t.url != u {
        OtherFits(h, s, t, u, a, front);
      } else if t.Look? {
        LookFits(h, s, t, u, a, front);
      } else {
        ClientTracked(h, front, u);
        ActiveFits(h, s, t, u, a, front, DropRepeats(h, Answers(front, u)), Returned(front, u));
      }
    }
  }

  lemma {:induction false} ClientPrefix(h: HashFn, run: seq<Step>, u: Url, n: nat)
    requires ClientRun(h, run, u) && n <= |run|
    ensures ClientRun(h, run[..n], u)
  {
    if n < |run| {
      ClientPrefix(h, run[..|run| - 1], u, n);
      assert run[..|run| - 1][..n] == run[..n];
    } else {
      assert run[..n] == run;
    }
  }

  lemma ActiveYoungest(h: HashFn, s: State, t: Step, u: Url, kept: seq<Body>, given: seq<Body>)
    requires Enabled(s, t) && Requests(t, u) && Tracks(h, s, u, kept, given)
    ensures IsYoungest(s, u, t.id)
  {
    ActiveIsYoungest(h, s, t, u, kept, given);
    forall a: nat | Has(s, u, a)
      ensures a <= t.id
    {
      SessionsGrow(h, s, t, a);
      assert Has(Next(h, s, t), u, a);
    }
  }

  /** For such a client the flag tells for every request but the first poll behind a direct request. */
  lemma ClientFlagExactly(h: HashFn, run: seq<Step>, u: Url, m: nat, n: nat)
    requires ClientRun(h, run, u) && n < |run| && Requests(run[n], u) && Previous(run, u, m, n)
    ensures FlagTells(h, run, m, n) <==> !(IsFirstPoll(run, n) && FromCache(run[..n], run[n].id) == Some(false))
  {
    var front := run[..n];
    RunAt(h, run, n);
    ClientAskFits(h, run, u, n);
    LastAskedIsPrevious(run, u, m, n);
    ChangedFlagExactly(h, run, u, m, n);
    HeadersOfRequest(h, run, n);
    SessionsStartOnce(h, front, run[n].id);
    var s, id, a := After(h, front), run[n].id, LastAsked(front, u);
    FlagFits(s, u, id, a, FromCache(front, id) == Some(true));
    assert Reloaded(s, a) <==> run[m].PollRequest? && ReloadedBy(s, run[m].id);
    if run[n].PollRequest? {
      assert s.sessions[id].phase.Idle? && (s.sessions[id].configChanged <==> IsFirstPoll(run, n));
    } else {
      assert s.sessions[id].phase.Missed?;
    }
    FlagByCache(IsFirstPoll(run, n), Reloaded(s, a), FromCache(front, id));
  }

  lemma FlagByCache(first: bool, reloaded: bool, cached: Option<bool>)
    requires cached.Some? && (reloaded <==> first && cached == Some(true))
    ensures (first <==> reloaded) <==> !(first && cached == Some(false))
  {
    if cached.value {
      assert cached == Some(true);
    } else {
      assert cached == Some(false);
    }
  }

  lemma ClientAskFits(h: HashFn, run: seq<Step>, u: Url, n: nat)
    requires ClientRun(h, run, u) && n < |run| && Requests(run[n], u)
    ensures IsRun(h, run[..n]) && Enabled(After(h, run[..n]), run[n])
    ensures AskFits(After(h, run[..n]), u, run[n].id, LastAsked(run[..n], u), FromCache(run[..n], run[n].id) == Some(true))
  {
    var front := run[..n];
    RunAt(h, run, n);
    ClientPrefix(h, run, u, n);
    ClientTracked(h, front, u);
    ClientAsksFit(h, front, u);
    ActiveYoungest(h, After(h, front), run[n], u, DropRepeats(h, Answers(front, u)), Returned(front, u));
  }

  lemma FlagFits(s: State, u: Url, id: nat, a: Asked, hit: bool)
    requires id < |s.sessions| && AskFits(s, u, id, a, hit)
    ensures s.sessions[id].phase.Missed? ==> !Reloaded(s, a)
    ensures s.sessions[id].phase.Idle? ==> (Reloaded(s, a) <==> s.sessions[id].configChanged && hit)
  {
  }

  // ---------------------------------------------------------------- a client that retrieves twice per round

  /** The steps of a call that asks the server and starts its watcher. */
  function Starting(u: Url, id: nat, base: Body): seq<Step> {
    [Look(u, id, true, None), DirectRequest(u, id, true, false), FetchOk(u, id, base), Register(u, id, None), Spawn(u, id)]
  }

  /** The first round's two calls; the second one's watcher holds a change. */
  function FirstRound(u: Url, base: Body, b: Body): seq<Step> {
    Starting(u, 0, base) + HoldingChange(u, 1, Some(0), base, b)
  }

  /** ... which it publishes; the next round's first call takes it, and its second call asks the server. */
  function SecondResolution(u: Url, base: Body, b: Body): seq<Step> {
    FirstRound(u, base, b) + [Publish(u, 1, b)] + [Notify(u, 1)] + [Look(u, 2, true, Some(b))]
    + [Delete(u, 2, b), Register(u, 2, Some(1)), Spawn(u, 2)] + [Look(u, 3, true, None)] + [DirectRequest(u, 3, true, false)]
  }

  /** The first call, cancelled by the second. */
  function Displaced(u: Url, base: Body): Session {
    Session(u, true, base, Idle, true, true)
  }

  /** The second call in phase `p`, and its publication or not. */
  function InRound(u: Url, base: Body, p: Phase, cache: map<Url, Body>): State {
    State(cache, map[u := 1], false, [Displaced(u, base), Session(u, true, base, p, false, false)])
  }

  lemma CallStarts(h: HashFn, u: Url, base: Body)
    ensures TwiceRun(h, Starting(u, 0, base), u) && Calls(Starting(u, 0, base), u) == 1
    ensures Replay(h, Starting(u, 0, base)) == Some(State(map[], map[u := 0], false, [Session(u, true, base, Idle, true, false)]))
  {
    var all := Starting(u, 0, base);
    var e, s := Session(u, true, "", Missed, true, false), Joining(INIT, u);
    var e' := e.(base := base, phase := Served);
    NewSessionLooks(h, INIT, u, base);
    NewSessionJoins(h, INIT, u, base);
    CallExtends(h, [], INIT, all[0], NewSession(INIT, e), u);
    assert [] + [all[0]] == [all[0]];
    var ss := [NewSession(INIT, e), NewSession(INIT, e.(phase := Fetching)), NewSession(INIT, e'),
               NewSession(s, e'.(phase := Registered)), NewSession(s, e'.(phase := Idle))];
    QuietExtends(h, [all[0]], ss, all[1..], u);
    assert [all[0]] + all[1..] == all;
    assert NewSession(s, e'.(phase := Idle)).sessions == [e'.(phase := Idle)];
  }

  /** A second call whose watcher comes to hold a change. */
  lemma SecondCallHolds(h: HashFn, run: seq<Step>, s: State, u: Url, base: Body, b: Body)
    requires TwiceRun(h, run, u) && Calls(run, u) % 2 == 1 && Replay(h, run) == Some(s) && h(base) != h(b)
    requires |s.sessions| == 1 && u !in s.cache && Lookup(s.cancelMap, u) == Some(0) && AllStarted(s, u)
    ensures var more := HoldingChange(u, 1, Some(0), base, b);
      && TwiceRun(h, run + more, u) && Calls(run + more, u) == Calls(run, u) + 1
      && Replay(h, run + more) == Some(HoldingPath(s, u, base, b)[7])
  {
    HoldsPath(h, s, u, base, b);
    HoldingBegins(s, u, 1, Some(0), base, b);
    SecondCallAlong(h, run, s, HoldingPath(s, u, base, b), HoldingChange(u, 1, Some(0), base, b), u, 1);
  }

  lemma HoldingBegins(s: State, u: Url, id: nat, d: Option<nat>, base: Body, b: Body)
    ensures var more, ss := HoldingChange(u, id, d, base, b), HoldingPath(s, u, base, b);
      && |more| == 7 && |ss| == 8 && more[0] == Look(u, id, true, None) && (forall k :: 0 < k < |more| ==> !Looks(more[k], u))
      && ss[0] == s && ss[1] == NewSession(s, Session(u, true, "", Missed, true, false))
  {
  }

  lemma SecondCallAlong(h: HashFn, run: seq<Step>, s: State, ss: seq<State>, more: seq<Step>, u: Url, id: nat)
    requires TwiceRun(h, run, u) && Calls(run, u) % 2 == 1 && Replay(h, run) == Some(s)
    requires u !in s.cache && id == |s.sessions| && AllStarted(s, u)
    requires Path(h, ss, more) && more != [] && more[0] == Look(u, id, true, None) && forall k :: 0 < k < |more| ==> !Looks(more[k], u)
    requires ss[1] == NewSession(s, Session(u, true, "", Missed, true, false))
    ensures TwiceRun(h, run + more, u) && Replay(h, run + more) == Some(ss[|more|]) && Calls(run + more, u) == Calls(run, u) + 1
  {
    SecondCallLooks(h, run, s, u, id);
    QuietFromSecond(h, run, ss, more, u);
  }

  lemma SecondCallLooks(h: HashFn, run: seq<Step>, s: State, u: Url, id: nat)
    requires TwiceRun(h, run, u) && Calls(run, u) % 2 == 1 && Replay(h, run) == Some(s)
    requires u !in s.cache && id == |s.sessions| && AllStarted(s, u)
    ensures TwiceRun(h, run + [Look(u, id, true, None)], u) && Calls(run + [Look(u, id, true, None)], u) == Calls(run, u) + 1
    ensures Replay(h, run + [Look(u, id, true, None)]) == Some(NewSession(s, Session(u, true, "", Missed, true, false)))
  {
    NewSessionLooks(h, s, u, "");
    CallExtends(h, run, s, Look(u, id, true, None), NewSession(s, Session(u, true, "", Missed, true, false)), u);
  }

  lemma QuietFromSecond(h: HashFn, run: seq<Step>, ss: seq<State>, more: seq<Step>, u: Url)
    requires Path(h, ss, more) && more != [] && forall k :: 0 < k < |more| ==> !Looks(more[k], u)
    requires TwiceRun(h, run + [more[0]], u) && Replay(h, run + [more[0]]) == Some(ss[1])
    ensures TwiceRun(h, run + more, u) && Replay(h, run + more) == Some(ss[|more|])
    ensures Calls(run + more, u) == Calls(run + [more[0]], u)
  {
    forall k | 0 <= k < |more| - 1
      ensures Leads(h, ss[1..][k], more[1..][k], ss[1..][k + 1])
    {
      assert Leads(h, ss[k + 1], more[k + 1], ss[k + 2]);
    }
    QuietExtends(h, run + [more[0]], ss[1..], more[1..], u);
    AppendAssociates(run, [more[0]], more[1..]);
    assert [more[0]] + more[1..] == more;
  }

  lemma HeldInRound(s: State, u: Url, base: Body, b: Body)
    requires s == State(map[], map[u := 0], false, [Session(u, true, base, Idle, true, false)])
    ensures HoldingPath(s, u, base, b)[7] == InRound(u, base, Changed(b), map[])
  {
    assert map[u := 0][u := 1] == map[u := 1];
    assert SetCancelled(s.sessions, Some(0)) == [Displaced(u, base)];
  }

  lemma RoundSteps(h: HashFn, u: Url, base: Body, b: Body)
    ensures var s1, s2 := InRound(u, base, Published(b), map[u := b]), InRound(u, base, Exited(true), map[u := b]);
      && Leads(h, InRound(u, base, Changed(b), map[]), Publish(u, 1, b), s1)
      && Leads(h, s1, Notify(u, 1), s2) && AllStarted(s2, u)
      && Leads(h, s2, Look(u, 2, true, Some(b)), NewSession(s2, Begun(u, true, Some(b))))
  {
  }

  lemma RoundBegins(h: HashFn, u: Url, base: Body, b: Body) returns (run: seq<Step>)
    requires h(base) != h(b)
    ensures run == FirstRound(u, base, b) + [Publish(u, 1, b)] + [Notify(u, 1)] + [Look(u, 2, true, Some(b))]
    ensures TwiceRun(h, run, u) && Calls(run, u) == 3
    ensures Replay(h, run) == Some(NewSession(InRound(u, base, Exited(true), map[u := b]), Begun(u, true, Some(b))))
  {
    var held := FirstRound(u, base, b);
    var s1, s2 := InRound(u, base, Published(b), map[u := b]), InRound(u, base, Exited(true), map[u := b]);
    var s0 := State(map[], map[u := 0], false, [Session(u, true, base, Idle, true, false)]);
    CallStarts(h, u, base);
    SecondCallHolds(h, Starting(u, 0, base), s0, u, base, b);
    HeldInRound(s0, u, base, b);
    RoundSteps(h, u, base, b);
    CallExtends(h, held, InRound(u, base, Changed(b), map[]), Publish(u, 1, b), s1, u);
    CallExtends(h, held + [Publish(u, 1, b)], s1, Notify(u, 1), s2, u);
    CallExtends(h, held + [Publish(u, 1, b)] + [Notify(u, 1)], s2, Look(u, 2, true, Some(b)), NewSession(s2, Begun(u, true, Some(b))), u);
    run := held + [Publish(u, 1, b)] + [Notify(u, 1)] + [Look(u, 2, true, Some(b))];
  }

  /** The next round's first call takes the change and starts its watcher. */
  lemma RoundTakesChange(h: HashFn, u: Url, base: Body, b: Body) returns (ss: seq<State>)
    ensures Path(h, ss, [Delete(u, 2, b), Register(u, 2, Some(1)), Spawn(u, 2)])
    ensures ss[0] == NewSession(InRound(u, base, Exited(true), map[u := b]), Begun(u, true, Some(b)))
    ensures u !in ss[3].cache && |ss[3].sessions| == 3 && AllStarted(ss[3], u)
  {
    var s, e := InRound(u, base, Exited(true), map[]), Begun(u, true, Some(b));
    var s0 := NewSession(InRound(u, base, Exited(true), map[u := b]), e);
    NewSessionJoins(h, s, u, b);
    assert map[u := b] - {u} == map[];
    SetLast(s.sessions, e, e.(phase := Served));
    assert Leads(h, s0, Delete(u, 2, b), NewSession(s, e.(phase := Served)));
    var s' := Joining(s, u);
    ss := [s0, NewSession(s, e.(phase := Served)), NewSession(s', e.(phase := Registered)), NewSession(s', e.(phase := Idle))];
  }

  lemma RoundPlaces(u: Url, base: Body, b: Body)
    ensures var run := SecondResolution(u, base, b);
      |run| == 20 && run[19] == DirectRequest(u, 3, true, false) && run[10] == PollRequest(u, 1, false, true)
      && run[12] == Publish(u, 1, b) && Previous(run, u, 10, 19)
  {
    var run := SecondResolution(u, base, b);
    assert run[11] == PollOk(u, 1, b) && run[13] == Notify(u, 1) && run[14] == Look(u, 2, true, Some(b));
    assert run[15] == Delete(u, 2, b) && run[16] == Register(u, 2, Some(1)) && run[17] == Spawn(u, 2);
    assert run[18] == Look(u, 3, true, None);
  }

  /** The second resolution of a round says changed=false right behind the request that brought the change. */
  lemma SecondResolutionHidesChange(h: HashFn, u: Url, base: Body, b: Body)
    requires h(base) != h(b)
    ensures var run := SecondResolution(u, base, b);
      && TwiceRun(h, run, u) && |run| == 20 && run[19] == DirectRequest(u, 3, true, false)
      && Previous(run, u, 10, 19) && Brought(h, run, 10, 19) && !FlagTells(h, run, 10, 19)
  {
    var run := SecondResolution(u, base, b);
    var begun := RoundBegins(h, u, base, b);
    RoundEnds(h, begun, u, base, b);
    RoundPlaces(u, base, b);
    BroughtByPublisher(h, run, 10, 19, 12);
  }

  lemma RoundEnds(h: HashFn, begun: seq<Step>, u: Url, base: Body, b: Body)
    requires TwiceRun(h, begun, u) && Calls(begun, u) == 3
    requires Replay(h, begun) == Some(NewSession(InRound(u, base, Exited(true), map[u := b]), Begun(u, true, Some(b))))
    ensures TwiceRun(h, begun + [Delete(u, 2, b), Register(u, 2, Some(1)), Spawn(u, 2)] + [Look(u, 3, true, None)] + [DirectRequest(u, 3, true, false)], u)
  {
    var take := [Delete(u, 2, b), Register(u, 2, Some(1)), Spawn(u, 2)];
    var ss := RoundTakesChange(h, u, base, b);
    QuietExtends(h, begun, ss, take, u);
    RoundLooks(h, begun + take, ss[3], u);
  }

  lemma RoundLooks(h: HashFn, run: seq<Step>, s: State, u: Url)
    requires TwiceRun(h, run, u) && Calls(run, u) == 3 && Replay(h, run) == Some(s)
    requires u !in s.cache && |s.sessions| == 3 && AllStarted(s, u)
    ensures TwiceRun(h, run + [Look(u, 3, true, None)] + [DirectRequest(u, 3, true, false)], u)
  {
    SecondCallLooks(h, run, s, u, 3);
    RoundAsks(h, run + [Look(u, 3, true, None)], NewSession(s, Begun(u, true, None)), u);
  }

  lemma RoundAsks(h: HashFn, run: seq<Step>, s: State, u: Url)
    requires TwiceRun(h, run, u) && Replay(h, run) == Some(s) && Has(s, u, 3) && s.sessions[3].phase.Missed?
    ensures TwiceRun(h, run + [DirectRequest(u, 3, true, false)], u)
  {
    var t := DirectRequest(u, 3, true, false);
    assert Leads(h, s, t, Next(h, s, t));
    CallExtends(h, run, s, t, Next(h, s, t), u);
  }

  lemma PublishedReloads(h: HashFn, s: State, t: Step, id: nat)
    requires Enabled(s, t) && id < |s.sessions|
    ensures t.Publish? && t.id == id ==> Next(h, s, t).sessions[id].phase.Published?
    ensures s.sessions[id].phase.Published? || s.sessions[id].phase == Exited(true) ==>
              var p := Next(h, s, t).sessions[id].phase; p.Published? || p == Exited(true)
  {
  }

  lemma {:induction false} PublisherReloads(h: HashFn, run: seq<Step>, j: nat, n: nat)
    requires IsRun(h, run) && j < n <= |run| && run[j].Publish? && IsRun(h, run[..n])
    ensures run[j].id < |After(h, run[..n]).sessions|
    ensures var p := After(h, run[..n]).sessions[run[j].id].phase; p.Published? || p == Exited(true)
  {
    RunAt(h, run, n - 1);
    var s, t := After(h, run[..n - 1]), run[n - 1];
    if j < n - 1 {
      PublisherReloads(h, run, j, n - 1);
      SessionsGrow(h, s, t, run[j].id);
    }
    PublishedReloads(h, s, t, run[j].id);
  }

  lemma BroughtByPublisher(h: HashFn, run: seq<Step>, m: nat, n: nat, j: nat)
    requires IsRun(h, run) && m < j < n <= |run| && run[m].PollRequest? && run[j].Publish? && run[j].id == run[m].id
    ensures Brought(h, run, m, n)
  {
    BroughtExactly(h, run, m, n);
    PublisherReloads(h, run, j, n);
  }
}
