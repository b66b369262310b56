/**
 The order in which configurations are handed out against the order in which the server answered
 them.  A call has its configuration from its own request's answer or from its hit in the cache.
 */
module EecOrder {
  import opened Options
  import opened EecProtocol
  import opened EecWatchers
  import opened EecCache
  import opened EecClient
  import opened EecPaths
  import opened EecRounds

  // ---------------------------------------------------------------- the answer a call is handed

  predicate AnswersTo(t: Step, id: nat) {
    t.PollOk? && t.id == id
  }

  ghost predicate NoAnswerBetween(run: seq<Step>, id: nat, p: int, n: int)
    requires -1 <= p < n <= |run|
  {
    forall k :: p < k < n ==> !AnswersTo(run[k], id)
  }

  /** Answer `p` is the one that publication `j` stores: the last its watcher got. */
  ghost predicate Brings(run: seq<Step>, p: int, j: int) {
    && 0 <= p < j < |run| && run[j].Publish? && run[p] == PollOk(run[j].url, run[j].id, run[j].body)
    && NoAnswerBetween(run, run[j].id, p, j)
  }

  lemma ChangedStep(h: HashFn, s: State, t: Step, id: nat, b: Body)
    requires Enabled(s, t) && id < |Next(h, s, t).sessions| && Next(h, s, t).sessions[id].phase == Changed(b)
    requires !AnswersTo(t, id)
    ensures id < |s.sessions| && s.sessions[id].phase == Changed(b)
    ensures Next(h, s, t).sessions[id].url == s.sessions[id].url
  {
  }

  /** A watcher that holds a change has got it with its last answer. */
  lemma {:induction false} HeldSince(h: HashFn, run: seq<Step>, id: nat, b: Body) returns (p: nat)
    requires IsRun(h, run) && id < |After(h, run).sessions| && After(h, run).sessions[id].phase == Changed(b)
    ensures p < |run| && run[p] == PollOk(After(h, run).sessions[id].url, id, b)
    ensures NoAnswerBetween(run, id, p, |run|)
  {
    var n := |run| - 1;
    RunLast(h, run);
    if AnswersTo(run[n], id) {
      p := n;
    } else {
      ChangedStep(h, After(h, run[..n]), run[n], id, b);
      p := HeldSince(h, run[..n], id, b);
      FrontAnswers(run, id, p, n);
    }
  }

  lemma FrontAnswers(run: seq<Step>, id: nat, p: nat, n: nat)
    requires p < n <= |run|
    ensures NoAnswerBetween(run[..n], id, p, n) <==> NoAnswerBetween(run, id, p, n)
  {
  }

  lemma PublicationBrought(h: HashFn, run: seq<Step>, j: nat) returns (p: nat)
    requires IsRun(h, run) && j < |run| && run[j].Publish?
    ensures Brings(run, p, j)
  {
    RunAt(h, run, j);
    p := HeldSince(h, run[..j], run[j].id, run[j].body);
    FrontAnswers(run, run[j].id, p, j);
  }

  predicate HandsOut(t: Step, u: Url) {
    (t.FetchOk? || IsHit(t)) && t.url == u
  }

  /** The configuration handed out at `n` is that of answer `p`. */
  ghost predicate Carries(run: seq<Step>, n: int, p: int)
    requires 0 <= n < |run|
  {
    if run[n].FetchOk? then p == n else exists j :: Feeds(run, j, n) && Brings(run, p, j)
  }

  lemma FedByOne(run: seq<Step>, n: nat, j: int, j': int)
    requires Feeds(run, j, n) && Feeds(run, j', n)
    ensures j == j'
  {
    assert Publishes(run[j], run[n].url) && Publishes(run[j'], run[n].url);
  }

  lemma BroughtByOne(run: seq<Step>, p: int, p': int, j: nat)
    requires Brings(run, p, j) && Brings(run, p', j)
    ensures p == p'
  {
  }

  /** Everything handed out is one earlier answer of the server, to the byte. */
  lemma CarriesOneAnswer(h: HashFn, run: seq<Step>, u: Url, n: nat) returns (p: nat)
    requires IsRun(h, run) && n < |run| && HandsOut(run[n], u)
    ensures Carries(run, n, p) && p <= n && forall q :: Carries(run, n, q) ==> q == p
    ensures (run[p].FetchOk? || run[p].PollOk?) && run[p].url == u
    ensures run[p].body == if run[n].FetchOk? then run[n].body else run[n].found.value
  {
    if run[n].FetchOk? {
      p := n;
    } else {
      var j := HitHasPublication(h, run, n);
      p := PublicationBrought(h, run, j);
      forall q | Carries(run, n, q)
        ensures q == p
      {
        var j' :| Feeds(run, j', n) && Brings(run, q, j');
        FedByOne(run, n, j, j');
        BroughtByOne(run, p, q, j);
      }
    }
  }

  // ---------------------------------------------------------------- order

  /** Configurations of `u` are handed out in the order of their answers. */
  ghost predicate InOrder(run: seq<Step>, u: Url) {
    forall n, n', p, p' :: 0 <= n < n' < |run| && HandsOut(run[n], u) && HandsOut(run[n'], u) && Carries(run, n, p) && Carries(run, n', p') ==>
      p <= p'
  }

  /** ... and no answer twice. */
  ghost predicate InStrictOrder(run: seq<Step>, u: Url) {
    forall n, n', p, p' :: 0 <= n < n' < |run| && HandsOut(run[n], u) && HandsOut(run[n'], u) && Carries(run, n, p) && Carries(run, n', p') ==>
      p < p'
  }

  /** A direct request is answered between answer `p` and the hit `n` that is handed it. */
  ghost predicate FetchedMeanwhile(run: seq<Step>, u: Url, p: int, n: int) {
    0 <= p < n <= |run| && exists k :: p < k < n && run[k].FetchOk? && run[k].url == u
  }

  /** While the watcher holds answer `p`, not yet published at `j`, a hit is handed a later one. */
  ghost predicate HitMeanwhile(run: seq<Step>, u: Url, p: int, j: int) {
    0 <= p < j <= |run| && exists i, q :: 0 <= i < j && IsHit(run[i]) && run[i].url == u && p < q && Carries(run, i, q)
  }

  /** Hit `n` is handed an answer whose watcher, or the cache, kept it while a later one was handed out. */
  ghost predicate Overtaken(run: seq<Step>, u: Url, n: int) {
    && 0 <= n < |run| && IsHit(run[n]) && run[n].url == u
    && exists j, p :: Feeds(run, j, n) && Brings(run, p, j) && (FetchedMeanwhile(run, u, p, n) || HitMeanwhile(run, u, p, j))
  }

  lemma InvertedIsOvertaken(h: HashFn, run: seq<Step>, u: Url, n: nat, n': nat, p: int, p': int)
    requires IsRun(h, run) && n < n' < |run| && HandsOut(run[n], u) && HandsOut(run[n'], u)
    requires Carries(run, n, p) && Carries(run, n', p') && p > p'
    ensures Overtaken(run, u, n')
  {
    var q := CarriesOneAnswer(h, run, u, n);
    assert p <= n;
    var j' :| Feeds(run, j', n') && Brings(run, p', j');
    if run[n].FetchOk? {
      assert FetchedMeanwhile(run, u, p', n');
    } else {
      var j :| Feeds(run, j, n) && Brings(run, p, j);
      assert Publishes(run[j], u) && Publishes(run[j'], u);
      assert j != j';
      assert HitMeanwhile(run, u, p', j');
    }
  }

  lemma OvertakenInverts(h: HashFn, run: seq<Step>, u: Url, n': nat) returns (n: nat, p: int, p': int)
    requires IsRun(h, run) && Overtaken(run, u, n')
    ensures n < n' < |run| && HandsOut(run[n], u) && HandsOut(run[n'], u) && Carries(run, n, p) && Carries(run, n', p') && p > p'
  {
    var j, a :| Feeds(run, j, n') && Brings(run, a, j) && (FetchedMeanwhile(run, u, a, n') || HitMeanwhile(run, u, a, j));
    p' := a;
    if FetchedMeanwhile(run, u, a, n') {
      n :| a < n < n' && run[n].FetchOk? && run[n].url == u;
      p := n;
    } else {
      n, p :| 0 <= n < j && IsHit(run[n]) && run[n].url == u && a < p && Carries(run, n, p);
    }
  }

  /** Configurations are handed out in the order of their answers exactly when no hit is overtaken. */
  lemma InOrderExactly(h: HashFn, run: seq<Step>, u: Url)
    requires IsRun(h, run)
    ensures InOrder(run, u) <==> !exists n :: Overtaken(run, u, n)
  {
    if n' :| Overtaken(run, u, n') {
      var n, p, p' := OvertakenInverts(h, run, u, n');
    } else {
      forall n, n', p, p' | 0 <= n < n' < |run| && HandsOut(run[n], u) && HandsOut(run[n'], u) && Carries(run, n, p) && Carries(run, n', p')
        ensures p <= p'
      {
        if p > p' {
          InvertedIsOvertaken(h, run, u, n, n', p, p');
        }
      }
    }
  }

  lemma {:induction false} PublishedBefore(run: seq<Step>, j: nat)
    requires j < |run| && run[j].Publish?
    ensures LifeOf(run, run[j].id).published != []
  {
    var n := |run| - 1;
    if j < n {
      assert run[..n][j] == run[j];
      PublishedBefore(run[..n], j);
    }
  }

  lemma {:induction false} AnsweredBefore(run: seq<Step>, p: nat)
    requires p < |run| && run[p].PollOk?
    ensures LifeOf(run, run[p].id).answers != []
  {
    var n := |run| - 1;
    if p < n {
      assert run[..n][p] == run[p];
      AnsweredBefore(run[..n], p);
    }
  }

  lemma PublishesOnce(h: HashFn, run: seq<Step>, j: nat, j': nat)
    requires IsRun(h, run) && j < j' < |run| && run[j].Publish? && run[j'].Publish?
    ensures run[j].id != run[j'].id
  {
    RunAt(h, run, j');
    LivesFitRuns(h, run[..j']);
    var id := run[j'].id;
    assert FitsAt(h, After(h, run[..j']), LifeOf(run[..j'], id), id);
    assert run[..j'][j] == run[j];
    PublishedBefore(run[..j'], j);
  }

  lemma OnePublication(h: HashFn, run: seq<Step>, j: nat, j': nat)
    requires IsRun(h, run) && j < |run| && j' < |run| && run[j].Publish? && run[j'].Publish?
    ensures run[j].id == run[j'].id ==> j == j'
  {
    if j < j' {
      PublishesOnce(h, run, j, j');
    } else if j' < j {
      PublishesOnce(h, run, j', j);
    }
  }

  /** Two hand-outs carry one answer exactly when they are hits that share a publication. */
  lemma SameAnswerExactly(h: HashFn, run: seq<Step>, u: Url, n: nat, n': nat, p: int, p': int)
    requires IsRun(h, run) && n < n' < |run| && HandsOut(run[n], u) && HandsOut(run[n'], u)
    requires Carries(run, n, p) && Carries(run, n', p')
    ensures p == p' <==> Shares(run, n, n')
  {
    var q := CarriesOneAnswer(h, run, u, n);
    var q' := CarriesOneAnswer(h, run, u, n');
    if IsHit(run[n]) && IsHit(run[n']) {
      ServedTwiceExactly(h, run, n, n');
      var j :| Feeds(run, j, n) && Brings(run, p, j);
      var j' :| Feeds(run, j', n') && Brings(run, p', j');
      if p == p' {
        OnePublication(h, run, j, j');
      }
      if Shares(run, n, n') {
        var k :| Feeds(run, k, n) && Feeds(run, k, n');
        FedByOne(run, n, j, k);
        FedByOne(run, n', j', k);
        BroughtByOne(run, p, p', k);
      }
    }
  }

  lemma StrictSharesNothing(h: HashFn, run: seq<Step>, u: Url, n: nat, n': nat)
    requires IsRun(h, run) && InStrictOrder(run, u) && n < n' < |run| && HandsOut(run[n], u) && HandsOut(run[n'], u)
    ensures !Shares(run, n, n')
  {
    var p := CarriesOneAnswer(h, run, u, n);
    var p' := CarriesOneAnswer(h, run, u, n');
    SameAnswerExactly(h, run, u, n, n', p, p');
    assert p < p';
  }

  /** ... and each answer at most once exactly when, besides, no windows share a publication. */
  lemma InStrictOrderExactly(h: HashFn, run: seq<Step>, u: Url)
    requires IsRun(h, run)
    ensures InStrictOrder(run, u) <==> !(exists n :: Overtaken(run, u, n)) && !SharesFor(run, u)
  {
    InOrderExactly(h, run, u);
    if InStrictOrder(run, u) {
      assert InOrder(run, u);
      forall i, n
        ensures !(Shares(run, i, n) && run[n].url == u)
      {
        if 0 <= i < n < |run| && HandsOut(run[i], u) && HandsOut(run[n], u) {
          StrictSharesNothing(h, run, u, i, n);
        }
      }
    }
    if InOrder(run, u) && !SharesFor(run, u) {
      forall n, n', p, p' | 0 <= n < n' < |run| && HandsOut(run[n], u) && HandsOut(run[n'], u) && Carries(run, n, p) && Carries(run, n', p')
        ensures p < p'
      {
        SameAnswerExactly(h, run, u, n, n', p, p');
      }
    }
  }

  // ---------------------------------------------------------------- a condition to check

  /** At `k` a call for `u` is answered, or its watcher publishes, although a younger call has looked up at `l`. */
  ghost predicate Late(run: seq<Step>, u: Url, l: int, k: int) {
    && 0 <= l < k < |run| && Looks(run[l], u) && (run[k].FetchOk? || run[k].Publish?)
    && run[k].url == u && run[k].id < run[l].id
  }

  ghost predicate NeverLate(run: seq<Step>, u: Url) {
    forall l, k :: !Late(run, u, l, k)
  }

  /** The lookup of the call that takes step `k`. */
  lemma LookBefore(h: HashFn, run: seq<Step>, k: nat) returns (l: nat)
    requires IsRun(h, run) && k < |run| && (run[k].FetchOk? || run[k].PollOk? || run[k].Publish?)
    ensures l < k && Looks(run[l], run[k].url) && run[l].id == run[k].id
  {
    RunAt(h, run, k);
    l := LookOf(h, run[..k], run[k].id);
    assert run[..k][l] == run[l];
  }

  ghost predicate Asking(p: Phase) {
    p.Missed? || p.Fetching?
  }

  /** A call that asks the server has found nothing. */
  lemma {:induction false} AskingHasMissed(h: HashFn, run: seq<Step>, id: nat, l: nat)
    requires IsRun(h, run) && l < |run| && run[l].Look? && run[l].id == id
    requires id < |After(h, run).sessions| && Asking(After(h, run).sessions[id].phase)
    ensures run[l].found == None
  {
    var n := |run| - 1;
    if l < n {
      assert run[..n][l] == run[l];
      LookCounted(h, run[..n], l);
      AskingStep(h, After(h, run[..n]), run[n], id);
      AskingHasMissed(h, run[..n], id, l);
    } else {
      LookAsks(h, After(h, run[..n]), run[n]);
    }
  }

  lemma AskingStep(h: HashFn, s: State, t: Step, id: nat)
    requires Enabled(s, t) && id < |s.sessions| && Asking(Next(h, s, t).sessions[id].phase)
    ensures Asking(s.sessions[id].phase)
  {
  }

  lemma LookAsks(h: HashFn, s: State, t: Step)
    requires Enabled(s, t) && t.Look?
    ensures t.id < |Next(h, s, t).sessions|
    ensures Asking(Next(h, s, t).sessions[t.id].phase) <==> t.found.None?
  {
  }

  lemma FetchHasMissed(h: HashFn, run: seq<Step>, l: nat, k: nat)
    requires IsRun(h, run) && l < k < |run| && run[l].Look? && run[k].FetchOk? && run[l].id == run[k].id
    ensures run[l].found == None
  {
    RunAt(h, run, k);
    assert run[..k][l] == run[l];
    AskingHasMissed(h, run[..k], run[k].id, l);
  }

  lemma FetchedBeforePolled(h: HashFn, run: seq<Step>, p: nat, k: nat)
    requires IsRun(h, run) && p < k < |run| && run[p].PollOk? && run[k].FetchOk?
    ensures run[p].id != run[k].id
  {
    RunAt(h, run, k);
    LivesFitRuns(h, run[..k]);
    var id := run[k].id;
    assert FitsAt(h, After(h, run[..k]), LifeOf(run[..k], id), id);
    assert run[..k][p] == run[p];
    AnsweredBefore(run[..k], p);
  }

  /** Between a publication and the hit it feeds every lookup finds something. */
  lemma FoundMeanwhile(h: HashFn, run: seq<Step>, j: nat, n: nat, l: nat)
    requires IsRun(h, run) && Feeds(run, j, n) && j < l < n && Looks(run[l], run[n].url)
    ensures run[l].found.Some?
  {
    LookFindsUndeleted(h, run, l);
    UndeletedFrom(run, run[n].url, l, j);
  }

  /** The younger of two calls has looked up later. */
  lemma YoungerLooksLater(h: HashFn, run: seq<Step>, l: nat, l': nat)
    requires IsRun(h, run) && l < |run| && l' < |run| && run[l].Look? && run[l'].Look? && run[l].id < run[l'].id
    ensures l < l'
  {
    if l' < l {
      LooksOnce(h, run, l', l);
    }
  }

  lemma FetchedMeanwhileIsLate(h: HashFn, run: seq<Step>, u: Url, p: nat, j: nat, n: nat)
    requires IsRun(h, run) && n < |run| && IsHit(run[n]) && run[n].url == u && Feeds(run, j, n) && Brings(run, p, j)
    requires FetchedMeanwhile(run, u, p, n)
    ensures !NeverLate(run, u)
  {
    var k :| p < k < n && run[k].FetchOk? && run[k].url == u;
    var l := LookBefore(h, run, k);
    var l' := LookBefore(h, run, p);
    FetchedBeforePolled(h, run, p, k);
    if run[k].id < run[p].id {
      assert Late(run, u, l', k);
    } else {
      YoungerLooksLater(h, run, l', l);
      FetchHasMissed(h, run, l, k);
      if j < l {
        FoundMeanwhile(h, run, j, n, l);
      }
      assert Late(run, u, l, j);
    }
  }

  lemma HitMeanwhileIsLate(h: HashFn, run: seq<Step>, u: Url, p: nat, j: nat)
    requires IsRun(h, run) && j < |run| && run[j].Publish? && run[j].url == u && Brings(run, p, j) && HitMeanwhile(run, u, p, j)
    ensures !NeverLate(run, u)
  {
    var i, q :| 0 <= i < j && IsHit(run[i]) && run[i].url == u && p < q && Carries(run, i, q);
    var q' := CarriesOneAnswer(h, run, u, i);
    var l := LookBefore(h, run, p);
    LooksOnce(h, run, l, i);
    assert Late(run, u, i, j);
  }

  /** If no call is answered and no watcher publishes once a younger call has looked up, the order is kept. */
  lemma NeverLateInOrder(h: HashFn, run: seq<Step>, u: Url)
    requires IsRun(h, run) && NeverLate(run, u)
    ensures InOrder(run, u)
  {
    if n :| Overtaken(run, u, n) {
      var j, p :| Feeds(run, j, n) && Brings(run, p, j) && (FetchedMeanwhile(run, u, p, n) || HitMeanwhile(run, u, p, j));
      if FetchedMeanwhile(run, u, p, n) {
        FetchedMeanwhileIsLate(h, run, u, p, j, n);
      } else {
        HitMeanwhileIsLate(h, run, u, p, j);
      }
    }
    InOrderExactly(h, run, u);
  }

  // ---------------------------------------------------------------- the two clients

  /** A phase past which no answer is fetched and, if settled, nothing published. */
  lemma PhasePersists(h: HashFn, s: State, t: Step, id: nat)
    requires Enabled(s, t) && id < |s.sessions|
    ensures id < |Next(h, s, t).sessions| && Next(h, s, t).sessions[id].url == s.sessions[id].url
    ensures Settled(s.sessions[id].phase) ==> Settled(Next(h, s, t).sessions[id].phase)
    ensures Joined(s.sessions[id].phase) ==> Joined(Next(h, s, t).sessions[id].phase)
  {
  }

  lemma {:induction false} PhasePersistsTo(h: HashFn, run: seq<Step>, l: nat, k: nat, id: nat)
    requires IsRun(h, run) && l <= k <= |run| && IsRun(h, run[..l]) && IsRun(h, run[..k]) && id < |After(h, run[..l]).sessions|
    ensures id < |After(h, run[..k]).sessions| && After(h, run[..k]).sessions[id].url == After(h, run[..l]).sessions[id].url
    ensures Settled(After(h, run[..l]).sessions[id].phase) ==> Settled(After(h, run[..k]).sessions[id].phase)
    ensures Joined(After(h, run[..l]).sessions[id].phase) ==> Joined(After(h, run[..k]).sessions[id].phase)
  {
    if l < k {
      RunAt(h, run, k - 1);
      PhasePersistsTo(h, run, l, k - 1, id);
      PhasePersists(h, After(h, run[..k - 1]), run[k - 1], id);
    }
  }

  lemma {:induction false} ClientSettled(h: HashFn, run: seq<Step>, u: Url, l: nat)
    requires ClientRun(h, run, u) && l < |run| && Looks(run[l], u)
    ensures IsRun(h, run[..l]) && AllSettled(After(h, run[..l]), u)
  {
    var n := |run| - 1;
    if l < n {
      ClientSettled(h, run[..n], u, l);
      assert run[..n][..l] == run[..l];
    }
  }

  /** The session that takes step `k` was there when the younger one looked up. */
  lemma OlderWasThere(h: HashFn, run: seq<Step>, u: Url, l: nat, k: nat)
    requires IsRun(h, run) && Late(run, u, l, k)
    ensures IsRun(h, run[..l]) && IsRun(h, run[..k]) && Enabled(After(h, run[..k]), run[k])
    ensures Has(After(h, run[..l]), u, run[k].id) && Has(After(h, run[..k]), u, run[k].id)
  {
    RunAt(h, run, l);
    RunAt(h, run, k);
    PhasePersistsTo(h, run, l, k, run[k].id);
  }

  /** A client that retrieves once and then once per notification is never late, so it is handed every answer in order. */
  lemma ClientIsNeverLate(h: HashFn, run: seq<Step>, u: Url)
    requires ClientRun(h, run, u)
    ensures NeverLate(run, u) && InOrder(run, u)
  {
    forall l, k
      ensures !Late(run, u, l, k)
    {
      if Late(run, u, l, k) {
        OlderWasThere(h, run, u, l, k);
        ClientSettled(h, run, u, l);
        PhasePersistsTo(h, run, l, k, run[k].id);
      }
    }
    NeverLateInOrder(h, run, u);
  }

  lemma {:induction false} TwiceStarted(h: HashFn, run: seq<Step>, u: Url, l: nat)
    requires TwiceRun(h, run, u) && l < |run| && Looks(run[l], u)
    ensures IsRun(h, run[..l]) && AllStarted(After(h, run[..l]), u)
  {
    var n := |run| - 1;
    if l < n {
      TwiceStarted(h, run[..n], u, l);
      assert run[..n][..l] == run[..l];
    }
  }

  /** No watcher of `u` publishes once a younger call has looked up. */
  ghost predicate NoLatePublication(run: seq<Step>, u: Url) {
    forall l, k :: Late(run, u, l, k) ==> !run[k].Publish?
  }

  /** A client that retrieves twice per round is late only through its watchers, and in order when they are not. */
  lemma TwiceInOrder(h: HashFn, run: seq<Step>, u: Url)
    requires TwiceRun(h, run, u)
    ensures NeverLate(run, u) <==> NoLatePublication(run, u)
    ensures NoLatePublication(run, u) ==> InOrder(run, u)
  {
    forall l, k | Late(run, u, l, k)
      ensures run[k].Publish?
    {
      OlderWasThere(h, run, u, l, k);
      TwiceStarted(h, run, u, l);
      PhasePersistsTo(h, run, l, k, run[k].id);
    }
    if NoLatePublication(run, u) {
      NeverLateInOrder(h, run, u);
    }
  }

  /** The regressing run of such a client: its last hit is overtaken. */
  lemma TwicePerRoundOutOfOrder(h: HashFn, u: Url, base: Body, b: Body, b': Body)
    requires h(base) != h(b)
    ensures var run := RegressingRun(u, base, b, b');
      TwiceRun(h, run, u) && Overtaken(run, u, 14) && !InOrder(run, u)
  {
    var run := RegressingRun(u, base, b, b');
    TwicePerRoundRegresses(h, u, base, b, b');
    RegressionFeeds(u, base, b, b');
    assert FetchedMeanwhile(run, u, 6, 14);
    assert Overtaken(run, u, 14);
    InOrderExactly(h, run, u);
    assert exists n :: Overtaken(run, u, n);
  }

  lemma RegressionFeeds(u: Url, base: Body, b: Body, b': Body)
    ensures var run := RegressingRun(u, base, b, b');
      |run| == 16 && run[14] == Look(u, 2, true, Some(b)) && run[9] == FetchOk(u, 1, b') && Feeds(run, 12, 14) && Brings(run, 6, 12)
  {
    var run := RegressingRun(u, base, b, b');
    assert run[6] == PollOk(u, 0, b) && run[7] == Look(u, 1, true, None) && run[8] == DirectRequest(u, 1, true, false);
    assert run[9] == FetchOk(u, 1, b') && run[10] == Register(u, 1, Some(0)) && run[11] == Spawn(u, 1);
    assert run[12] == Publish(u, 0, b) && run[13] == Notify(u, 0) && run[14] == Look(u, 2, true, Some(b));
  }

  // ---------------------------------------------------------------- late publications are not all

  /** A call's direct request is out when the next call is answered and finds a change, and is answered before that is published. */
  function SlowRequest(u: Url, base: Body, b: Body, b': Body): seq<Step> {
    [Look(u, 0, true, None), DirectRequest(u, 0, true, false)] + HoldingChange(u, 1, None, base, b)
    + [FetchOk(u, 0, b'), Publish(u, 1, b), Look(u, 2, true, Some(b))]
  }

  lemma SlowRequestPlaces(u: Url, base: Body, b: Body, b': Body)
    ensures var run := SlowRequest(u, base, b, b');
      && |run| == 12 && Feeds(run, 10, 11) && Brings(run, 8, 10) && run[9] == FetchOk(u, 0, b') && run[11] == Look(u, 2, true, Some(b))
      && run[10].Publish? && run[10].id == 1 && (forall k :: 0 <= k < 10 ==> !run[k].Publish? && (run[k].Look? ==> run[k].id <= 1))
  {
    var run := SlowRequest(u, base, b, b');
    assert run[0] == Look(u, 0, true, None) && run[1] == DirectRequest(u, 0, true, false) && run[2] == Look(u, 1, true, None);
    assert run[3] == DirectRequest(u, 1, true, false) && run[4] == FetchOk(u, 1, base) && run[5] == Register(u, 1, None);
    assert run[6] == Spawn(u, 1) && run[7] == PollRequest(u, 1, false, true) && run[8] == PollOk(u, 1, b);
    assert run[9] == FetchOk(u, 0, b') && run[10] == Publish(u, 1, b) && run[11] == Look(u, 2, true, Some(b));
  }

  lemma SlowRequestSent(h: HashFn, u: Url) returns (s: State)
    ensures s == NewSession(INIT, Session(u, true, "", Fetching, true, false))
    ensures Replay(h, [Look(u, 0, true, None), DirectRequest(u, 0, true, false)]) == Some(s)
  {
    var e := Session(u, true, "", Missed, true, false);
    s := NewSession(INIT, e.(phase := Fetching));
    NewSessionLooks(h, INIT, u, "");
    var start := [Look(u, 0, true, None), DirectRequest(u, 0, true, false)];
    RunPath(h, [], [INIT, NewSession(INIT, e), s], start);
    assert [] + start == start;
  }

  lemma SlowRequestEnds(h: HashFn, run: seq<Step>, s: State, u: Url, base: Body, b: Body, b': Body)
    requires Replay(h, run) == Some(s) && u !in s.cache && |s.sessions| == 2
    requires s.sessions[0] == Session(u, true, "", Fetching, true, false) && s.sessions[1] == Session(u, true, base, Changed(b), false, false)
    ensures IsRun(h, run + [FetchOk(u, 0, b'), Publish(u, 1, b), Look(u, 2, true, Some(b))])
  {
    var more := [FetchOk(u, 0, b'), Publish(u, 1, b), Look(u, 2, true, Some(b))];
    var s1 := Next(h, s, more[0]);
    var s2 := Next(h, s1, more[1]);
    RunPath(h, run, [s, s1, s2, Next(h, s2, more[2])], more);
  }

  /** Of calls that overlap, one whose direct request is slow can be handed a newer answer than the next hit, with no publication late. */
  lemma SlowRequestOutOfOrder(h: HashFn, u: Url, base: Body, b: Body, b': Body)
    requires h(base) != h(b)
    ensures var run := SlowRequest(u, base, b, b');
      IsRun(h, run) && NoLatePublication(run, u) && !InOrder(run, u)
  {
    var run, start := SlowRequest(u, base, b, b'), [Look(u, 0, true, None), DirectRequest(u, 0, true, false)];
    var s := SlowRequestSent(h, u);
    HoldsChange(h, start, s, u, base, b);
    SlowRequestEnds(h, start + HoldingChange(u, 1, None, base, b),
                    NewSession(Joining(s, u), Session(u, true, base, Changed(b), false, false)), u, base, b, b');
    SlowRequestPlaces(u, base, b, b');
    assert NoLatePublication(run, u);
    assert Carries(run, 9, 9) && Carries(run, 11, 8);
  }
}
