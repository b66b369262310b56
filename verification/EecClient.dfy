/**
 End to end: the configurations a client is given, against the answers the server gave.

 The client calls Retrieve for a URL once and then once per notification (again after a failed
 call), with polling enabled.  Whatever happens on other URLs, in whatever interleaving, it is
 handed the server's successful answers with hash-equal repeats removed.
 */
module EecClient {
  import opened Options
  import opened EecProtocol
  import opened EecCache

  /** The call is over for the client: it failed, or its watcher has notified. */
  predicate Settled(p: Phase) {
    p.FetchFailed? || p == Exited(true)
  }

  ghost predicate AllSettled(s: State, u: Url) {
    forall id: nat :: Has(s, u, id) ==> Settled(s.sessions[id].phase)
  }

  ghost predicate ClientRun(h: HashFn, run: seq<Step>, u: Url)
    ensures ClientRun(h, run, u) ==> IsRun(h, run)
  {
    IsRun(h, run) &&
    (run == [] ||
     var front, t := run[..|run| - 1], run[|run| - 1];
     && ClientRun(h, front, u)
     && (Looks(t, u) ==> t.watching && AllSettled(After(h, front), u)))
  }

  /** Every successful answer of the server for `u`, to a direct request or a poll. */
  function Answers(run: seq<Step>, u: Url): seq<Body> {
    if run == [] then []
    else
      var t := run[|run| - 1];
      Answers(run[..|run| - 1], u) + if (t.FetchOk? || t.PollOk?) && t.url == u then [t.body] else []
  }

  /** Every configuration a Retrieve obtained for `u`. */
  function Returned(run: seq<Step>, u: Url): seq<Body> {
    if run == [] then []
    else
      var t := run[|run| - 1];
      Returned(run[..|run| - 1], u) + if (t.FetchOk? || t.Delete?) && t.url == u then [t.body] else []
  }

  /** `bs` without the elements whose hash equals that of the element kept before them. */
  function DropRepeats(h: HashFn, bs: seq<Body>): seq<Body> {
    if bs == [] then []
    else
      var kept, b := DropRepeats(h, bs[..|bs| - 1]), bs[|bs| - 1];
      if kept != [] && h(kept[|kept| - 1]) == h(b) then kept else kept + [b]
  }

  lemma DropRepeatsExtend(h: HashFn, bs: seq<Body>, b: Body)
    ensures var kept := DropRepeats(h, bs);
      DropRepeats(h, bs + [b]) == if kept != [] && h(kept[|kept| - 1]) == h(b) then kept else kept + [b]
  {
    var longer := bs + [b];
    assert longer[..|longer| - 1] == bs && longer[|longer| - 1] == b;
  }

  lemma {:induction false} DropRepeatsAlternates(h: HashFn, bs: seq<Body>, i: nat)
    requires i + 1 < |DropRepeats(h, bs)|
    ensures h(DropRepeats(h, bs)[i]) != h(DropRepeats(h, bs)[i + 1])
  {
    if i + 1 < |DropRepeats(h, bs[..|bs| - 1])| {
      DropRepeatsAlternates(h, bs[..|bs| - 1], i);
    }
  }

  /** What the server has newly answered and the client has not yet been handed. */
  ghost predicate Undelivered(s: State, u: Url, b: Body) {
    || Lookup(s.cache, u) == Some(b)
    || exists id: nat :: Has(s, u, id) && s.sessions[id].phase == Changed(b)
  }

  ghost predicate NothingUndelivered(s: State, u: Url) {
    u !in s.cache && forall id: nat :: Has(s, u, id) ==> !s.sessions[id].phase.Changed?
  }

  /** All sessions of `u` but the youngest are settled. */
  ghost predicate OneUnsettled(s: State, u: Url) {
    forall a: nat, b: nat :: Has(s, u, a) && Has(s, u, b) && a < b ==> Settled(s.sessions[a].phase)
  }

  /** How an unsettled session stands to the answers kept and the configurations handed out. */
  ghost predicate InStep(s: State, u: Url, e: Session, kept: seq<Body>, given: seq<Body>) {
    match e.phase
    case Missed => kept == given == [] && u !in s.cache
    case Hit => kept == given + [e.base] && Lookup(s.cache, u) == Some(e.base)
    case Fetching => kept == given == [] && u !in s.cache
    case Changed(b) => given != [] && kept == given + [b] && e.base == given[|given| - 1] && u !in s.cache
    case Published(b) => kept == given + [b] && Lookup(s.cache, u) == Some(b)
    case FetchFailed => true
    case Unwatched => false
    case Exited(n) => n || (kept == given && u !in s.cache)
    case _ => given != [] && kept == given && e.base == given[|given| - 1] && u !in s.cache
  }

  ghost predicate Tracks(h: HashFn, s: State, u: Url, kept: seq<Body>, given: seq<Body>) {
    && OneUnsettled(s, u)
    && (forall id: nat :: Has(s, u, id) ==> s.sessions[id].watching && InStep(s, u, s.sessions[id], kept, given))
    && (u in s.cache ==> kept == given + [s.cache[u]])
    && (AllSettled(s, u) ==> u in s.cache || kept == given == [])
  }

  /** Every session of `u` other than `id` is older and settled. */
  ghost predicate Youngest(s: State, u: Url, id: nat) {
    forall a: nat :: Has(s, u, a) && a != id ==> a < id && Settled(s.sessions[a].phase) && s.sessions[a].watching
  }

  lemma TracksByYoungest(h: HashFn, s: State, u: Url, id: nat, kept: seq<Body>, given: seq<Body>)
    requires Has(s, u, id) && Youngest(s, u, id) && s.sessions[id].watching
    requires InStep(s, u, s.sessions[id], kept, given)
    requires u in s.cache ==> kept == given + [s.cache[u]]
    requires Settled(s.sessions[id].phase) ==> u in s.cache || kept == given == []
    ensures Tracks(h, s, u, kept, given)
  {
  }

  /** Nothing of `u` changed but cancellation flags. */
  ghost predicate SameFor(s: State, s': State, u: Url) {
    && Lookup(s.cache, u) == Lookup(s'.cache, u)
    && forall id: nat ::
         && (Has(s', u, id) <==> Has(s, u, id))
         && (Has(s, u, id) ==> s'.sessions[id].(cancelled := true) == s.sessions[id].(cancelled := true))
  }

  lemma TracksSame(h: HashFn, s: State, s': State, u: Url, kept: seq<Body>, given: seq<Body>)
    requires Tracks(h, s, u, kept, given) && SameFor(s, s', u)
    ensures Tracks(h, s', u, kept, given)
  {
    forall id: nat | Has(s', u, id)
      ensures s'.sessions[id].watching && InStep(s', u, s'.sessions[id], kept, given)
    {
      assert Has(s, u, id) && InStep(s, u, s.sessions[id], kept, given);
      assert s'.sessions[id].phase == s.sessions[id].phase && s'.sessions[id].base == s.sessions[id].base;
    }
    if AllSettled(s', u) {
      assert AllSettled(s, u);
    }
  }

  lemma OtherSessionSame(h: HashFn, s: State, t: Step, u: Url, id: nat)
    requires Enabled(s, t) && (t.Shutdown? || t.CancelParent? || t.url != u)
    ensures Has(Next(h, s, t), u, id) <==> Has(s, u, id)
    ensures Has(s, u, id) ==> Next(h, s, t).sessions[id].(cancelled := true) == s.sessions[id].(cancelled := true)
  {
    if t.Shutdown? || t.CancelParent? {
    } else if t.Register? {
    } else if id == t.id {
      assert !Has(s, u, id);
    } else {
      assert id < |s.sessions| ==> Next(h, s, t).sessions[id] == s.sessions[id];
    }
  }

  lemma OtherUrlIsSame(h: HashFn, s: State, t: Step, u: Url)
    requires Enabled(s, t) && (t.Shutdown? || t.CancelParent? || t.url != u)
    ensures SameFor(s, Next(h, s, t), u)
  {
    forall id: nat {
      OtherSessionSame(h, s, t, u, id);
    }
    assert Lookup(s.cache, u) == Lookup(Next(h, s, t).cache, u);
  }

  lemma RetrieveTracks(h: HashFn, s: State, t: Step, u: Url, kept: seq<Body>, given: seq<Body>)
    requires Enabled(s, t) && Tracks(h, s, u, kept, given)
    requires Looks(t, u) && t.watching && AllSettled(s, u)
    ensures Tracks(h, Next(h, s, t), u, kept, given)
  {
    var s' := Next(h, s, t);
    assert forall a: nat :: Has(s', u, a) && a != t.id ==> Has(s, u, a) && s'.sessions[a] == s.sessions[a];
    TracksByYoungest(h, s', u, t.id, kept, given);
  }

  /** A step of a session that is neither settled nor new leaves the other sessions of `u` as they were. */
  lemma ActiveIsYoungest(h: HashFn, s: State, t: Step, u: Url, kept: seq<Body>, given: seq<Body>)
    requires Enabled(s, t) && Tracks(h, s, u, kept, given)
    requires !t.Shutdown? && !t.CancelParent? && !Looks(t, u) && t.url == u
    ensures var s' := Next(h, s, t);
      Youngest(s', u, t.id) && Has(s', u, t.id) && s'.sessions[t.id].watching
  {
    var s' := Next(h, s, t);
    assert Has(s, u, t.id) && !Settled(s.sessions[t.id].phase);
    forall a: nat | Has(s', u, a) && a != t.id
      ensures a < t.id && Settled(s'.sessions[a].phase) && s'.sessions[a].watching
    {
      assert Has(s, u, a);
      assert s'.sessions[a].(cancelled := true) == s.sessions[a].(cancelled := true);
    }
  }

  lemma FetchTracks(h: HashFn, s: State, t: Step, u: Url, answers: seq<Body>, given: seq<Body>)
    requires Enabled(s, t) && Tracks(h, s, u, DropRepeats(h, answers), given)
    requires t.FetchOk? && t.url == u
    ensures Tracks(h, Next(h, s, t), u, DropRepeats(h, answers + [t.body]), given + [t.body])
  {
    assert Has(s, u, t.id) && InStep(s, u, s.sessions[t.id], DropRepeats(h, answers), given);
    DropRepeatsExtend(h, answers, t.body);
    FirstFetchTracks(h, s, t, u);
    assert given + [t.body] == [t.body] && [] + [t.body] == [t.body];
  }

  lemma FirstFetchTracks(h: HashFn, s: State, t: Step, u: Url)
    requires Enabled(s, t) && Tracks(h, s, u, [], [])
    requires t.FetchOk? && t.url == u
    ensures Tracks(h, Next(h, s, t), u, [t.body], [t.body])
  {
    assert Has(s, u, t.id) && InStep(s, u, s.sessions[t.id], [], []);
    ActiveIsYoungest(h, s, t, u, [], []);
    TracksByYoungest(h, Next(h, s, t), u, t.id, [t.body], [t.body]);
  }

  lemma PollTracks(h: HashFn, s: State, t: Step, u: Url, answers: seq<Body>, given: seq<Body>)
    requires Enabled(s, t) && Tracks(h, s, u, DropRepeats(h, answers), given)
    requires t.PollOk? && t.url == u
    ensures Tracks(h, Next(h, s, t), u, DropRepeats(h, answers + [t.body]), given)
  {
    var kept, base := DropRepeats(h, answers), s.sessions[t.id].base;
    assert Has(s, u, t.id) && InStep(s, u, s.sessions[t.id], kept, given);
    assert kept == given && given != [] && base == given[|given| - 1];
    var kept' := if h(base) == h(t.body) then given else given + [t.body];
    DropRepeatsExtend(h, answers, t.body);
    assert DropRepeats(h, answers + [t.body]) == kept';
    PollKeeps(h, s, t, u, given);
  }

  lemma PollKeeps(h: HashFn, s: State, t: Step, u: Url, given: seq<Body>)
    requires Enabled(s, t) && Tracks(h, s, u, given, given)
    requires t.PollOk? && t.url == u
    ensures Tracks(h, Next(h, s, t), u, if h(s.sessions[t.id].base) == h(t.body) then given else given + [t.body], given)
  {
    assert Has(s, u, t.id) && InStep(s, u, s.sessions[t.id], given, given);
    ActiveIsYoungest(h, s, t, u, given, given);
    TracksByYoungest(h, Next(h, s, t), u, t.id, if h(s.sessions[t.id].base) == h(t.body) then given else given + [t.body], given);
  }

  lemma DeleteTracks(h: HashFn, s: State, t: Step, u: Url, kept: seq<Body>, given: seq<Body>)
    requires Enabled(s, t) && Tracks(h, s, u, kept, given)
    requires t.Delete? && t.url == u
    ensures Tracks(h, Next(h, s, t), u, kept, given + [t.body])
  {
    assert Has(s, u, t.id) && InStep(s, u, s.sessions[t.id], kept, given);
    ActiveIsYoungest(h, s, t, u, kept, given);
    TracksByYoungest(h, Next(h, s, t), u, t.id, kept, given + [t.body]);
  }

  lemma SilentTracks(h: HashFn, s: State, t: Step, u: Url, kept: seq<Body>, given: seq<Body>)
    requires Enabled(s, t) && Tracks(h, s, u, kept, given)
    requires !t.Shutdown? && !t.CancelParent? && !Looks(t, u) && t.url == u && !t.FetchOk? && !t.PollOk? && !t.Delete?
    ensures Tracks(h, Next(h, s, t), u, kept, given)
  {
    assert Has(s, u, t.id) && InStep(s, u, s.sessions[t.id], kept, given);
    ActiveIsYoungest(h, s, t, u, kept, given);
    var s' := Next(h, s, t);
    assert s'.sessions[t.id].base == s.sessions[t.id].base;
    TracksByYoungest(h, s', u, t.id, kept, given);
  }

  lemma {:induction false} ClientTracked(h: HashFn, run: seq<Step>, u: Url)
    requires ClientRun(h, run, u)
    ensures Tracks(h, After(h, run), u, DropRepeats(h, Answers(run, u)), Returned(run, u))
  {
    if run != [] {
      var front, t := run[..|run| - 1], run[|run| - 1];
      var s := After(h, front);
      ClientTracked(h, front, u);
      var answers, given := Answers(front, u), Returned(front, u);
      assert answers + [] == answers && given + [] == given;
      if t.Shutdown? || t.CancelParent? || t.url != u {
        OtherUrlIsSame(h, s, t, u);
        TracksSame(h, s, Next(h, s, t), u, DropRepeats(h, answers), given);
      } else if Looks(t, u) {
        RetrieveTracks(h, s, t, u, DropRepeats(h, answers), given);
      } else if t.FetchOk? {
        FetchTracks(h, s, t, u, answers, given);
      } else if t.PollOk? {
        PollTracks(h, s, t, u, answers, given);
      } else if t.Delete? {
        DeleteTracks(h, s, t, u, DropRepeats(h, answers), given);
      } else {
        SilentTracks(h, s, t, u, DropRepeats(h, answers), given);
      }
    }
  }

  lemma UndeliveredIsNext(h: HashFn, s: State, u: Url, kept: seq<Body>, given: seq<Body>, b: Body)
    requires Tracks(h, s, u, kept, given) && Undelivered(s, u, b)
    ensures kept == given + [b]
  {
    if Lookup(s.cache, u) != Some(b) {
      var id: nat :| Has(s, u, id) && s.sessions[id].phase == Changed(b);
      assert InStep(s, u, s.sessions[id], kept, given);
    }
  }

  lemma SomeUndelivered(s: State, u: Url) returns (b: Body)
    requires !NothingUndelivered(s, u)
    ensures Undelivered(s, u, b)
  {
    if u in s.cache {
      b := s.cache[u];
    } else {
      var id: nat :| Has(s, u, id) && s.sessions[id].phase.Changed?;
      b := s.sessions[id].phase.body;
    }
  }

  lemma NothingLeft(h: HashFn, s: State, u: Url, kept: seq<Body>, given: seq<Body>)
    requires Tracks(h, s, u, kept, given) && NothingUndelivered(s, u)
    ensures kept == given
  {
    if !AllSettled(s, u) {
      var id: nat :| Has(s, u, id) && !Settled(s.sessions[id].phase);
      assert InStep(s, u, s.sessions[id], kept, given);
    }
  }

  /**
   The client is handed the server's successful answers with hash-equal repeats removed; the
   last of them may still be on its way, and exactly when nothing is on its way it has them all.
   */
  lemma ClientReceivesEveryChange(h: HashFn, run: seq<Step>, u: Url)
    requires ClientRun(h, run, u)
    ensures var kept, given, s := DropRepeats(h, Answers(run, u)), Returned(run, u), After(h, run);
      && (kept == given <==> NothingUndelivered(s, u))
      && (forall b :: Undelivered(s, u, b) ==> kept == given + [b])
  {
    ClientTracked(h, run, u);
    var kept, given, s := DropRepeats(h, Answers(run, u)), Returned(run, u), After(h, run);
    forall b | Undelivered(s, u, b)
      ensures kept == given + [b]
    {
      UndeliveredIsNext(h, s, u, kept, given, b);
    }
    if NothingUndelivered(s, u) {
      NothingLeft(h, s, u, kept, given);
    } else {
      var b := SomeUndelivered(s, u);
    }
  }

  /** Two configurations handed out one after the other never have the same hash. */
  lemma ReturnedConfigsDiffer(h: HashFn, run: seq<Step>, u: Url, i: nat)
    requires ClientRun(h, run, u) && i + 1 < |Returned(run, u)|
    ensures h(Returned(run, u)[i]) != h(Returned(run, u)[i + 1])
  {
    var kept, given, s := DropRepeats(h, Answers(run, u)), Returned(run, u), After(h, run);
    ClientReceivesEveryChange(h, run, u);
    if !NothingUndelivered(s, u) {
      var b := SomeUndelivered(s, u);
    }
    DropRepeatsAlternates(h, Answers(run, u), i);
    assert kept[i] == given[i] && kept[i + 1] == given[i + 1];
  }

  /** With nothing on its way, the client runs the server's latest answer, up to the hash. */
  lemma ClientHoldsLatestAnswer(h: HashFn, run: seq<Step>, u: Url)
    requires ClientRun(h, run, u) && Answers(run, u) != [] && NothingUndelivered(After(h, run), u)
    ensures var given, answers := Returned(run, u), Answers(run, u);
      given != [] && h(given[|given| - 1]) == h(answers[|answers| - 1])
  {
    ClientReceivesEveryChange(h, run, u);
  }
}
