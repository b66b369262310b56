/**
 The one-shot cache `newConfig` over whole runs: what a Retrieve finds, and the books of
 publications against what was found.

 A Retrieve looks the body up and then deletes the entry, in two steps; the stretch between
 them is its window.  The cache is one-shot exactly as far as the windows of a URL keep out of
 each other and contain no publication.
 */
module EecCache {
  import opened Options
  import opened EecProtocol

  predicate Publishes(t: Step, u: Url) {
    t.Publish? && t.url == u
  }

  predicate Looks(t: Step, u: Url) {
    t.Look? && t.url == u
  }

  predicate Deletes(t: Step, u: Url) {
    t.Delete? && t.url == u
  }

  predicate TouchesCache(t: Step, u: Url) {
    Publishes(t, u) || Looks(t, u) || Deletes(t, u)
  }

  /** A lookup that finds something. */
  predicate IsHit(t: Step) {
    t.Look? && t.found.Some?
  }

  // ---------------------------------------------------------------- what the cache holds

  /** The body published for `u` and not deleted since, read off the run alone. */
  function Undeleted(run: seq<Step>, u: Url): Option<Body> {
    if run == [] then None
    else
      var t := run[|run| - 1];
      if Publishes(t, u) then Some(t.body) else if Deletes(t, u) then None
      else Undeleted(run[..|run| - 1], u)
  }

  /** The body published for `u` and not looked up since: what a one-shot cache would hold. */
  function Unserved(run: seq<Step>, u: Url): Option<Body> {
    if run == [] then None
    else
      var t := run[|run| - 1];
      if Publishes(t, u) then Some(t.body) else if Looks(t, u) then None
      else Unserved(run[..|run| - 1], u)
  }

  lemma {:induction false} CacheHoldsUndeleted(h: HashFn, run: seq<Step>, u: Url)
    requires IsRun(h, run)
    ensures Lookup(After(h, run).cache, u) == Undeleted(run, u)
  {
    if run != [] {
      CacheHoldsUndeleted(h, run[..|run| - 1], u);
    }
  }

  lemma LookFindsUndeleted(h: HashFn, run: seq<Step>, n: nat)
    requires IsRun(h, run) && n < |run| && run[n].Look?
    ensures run[n].found == Undeleted(run[..n], run[n].url)
  {
    RunAt(h, run, n);
    CacheHoldsUndeleted(h, run[..n], run[n].url);
  }

  /** Publication `j` is the last of `u` before `n`. */
  ghost predicate LastPublication(run: seq<Step>, u: Url, j: int, n: int) {
    0 <= j < n <= |run| && Publishes(run[j], u) && NoneBetween(run, u, Publishes, j, n)
  }

  ghost predicate NoneBetween(run: seq<Step>, u: Url, p: (Step, Url) -> bool, i: int, n: int)
    requires -1 <= i <= n <= |run|
  {
    forall k :: i < k < n ==> !p(run[k], u)
  }

  lemma {:induction false} UndeletedFrom(run: seq<Step>, u: Url, n: nat, j: nat)
    requires LastPublication(run, u, j, n)
    ensures Undeleted(run[..n], u) == if NoneBetween(run, u, Deletes, j, n) then Some(run[j].body) else None
  {
    assert run[..n][..n - 1] == run[..n - 1];
    if j < n - 1 {
      UndeletedFrom(run, u, n - 1, j);
    }
  }

  lemma {:induction false} UnservedFrom(run: seq<Step>, u: Url, n: nat, j: nat)
    requires LastPublication(run, u, j, n)
    ensures Unserved(run[..n], u) == if NoneBetween(run, u, Looks, j, n) then Some(run[j].body) else None
  {
    assert run[..n][..n - 1] == run[..n - 1];
    if j < n - 1 {
      UnservedFrom(run, u, n - 1, j);
    }
  }

  lemma {:induction false} FindPublication(run: seq<Step>, u: Url, n: nat) returns (j: nat)
    requires n <= |run| && (Undeleted(run[..n], u).Some? || Unserved(run[..n], u).Some?)
    ensures LastPublication(run, u, j, n)
  {
    assert run[..n][..n - 1] == run[..n - 1];
    if Publishes(run[n - 1], u) {
      j := n - 1;
    } else {
      j := FindPublication(run, u, n - 1);
    }
  }

  // ---------------------------------------------------------------- lookups and their deletes

  /** Session ids are handed out once, and only a session that found something deletes. */
  ghost predicate OwnLook(run: seq<Step>, d: int, i: int) {
    0 <= i < d < |run| && IsHit(run[i]) && run[d].Delete? && run[d].id == run[i].id
    && run[d].url == run[i].url && run[i].found == Some(run[d].body)
  }

  /** A session exists exactly once it has looked. */
  ghost predicate LookedAt(h: HashFn, run: seq<Step>, id: nat, i: int)
    requires IsRun(h, run)
  {
    var s := After(h, run);
    && 0 <= i < |run| && run[i].Look? && run[i].id == id && id < |s.sessions|
    && run[i].url == s.sessions[id].url
    && (s.sessions[id].phase.Hit? ==> run[i].found == Some(s.sessions[id].base))
    && (s.sessions[id].phase.Hit? <==> run[i].found.Some? && forall k :: i < k < |run| ==> !(run[k].Delete? && run[k].id == id))
  }

  lemma SessionsGrow(h: HashFn, s: State, t: Step, id: nat)
    requires Enabled(s, t) && id < |s.sessions|
    ensures var s' := Next(h, s, t);
      && id < |s'.sessions| && s'.sessions[id].url == s.sessions[id].url
      && (s'.sessions[id].phase.Hit? <==> s.sessions[id].phase.Hit? && !(t.Delete? && t.id == id))
      && (s'.sessions[id].phase.Hit? ==> s'.sessions[id].base == s.sessions[id].base)
  {
  }

  lemma {:induction false} LookOf(h: HashFn, run: seq<Step>, id: nat) returns (i: nat)
    requires IsRun(h, run) && id < |After(h, run).sessions|
    ensures LookedAt(h, run, id, i)
  {
    var n := |run| - 1;
    var front, t := run[..n], run[n];
    var s := After(h, front);
    if id < |s.sessions| {
      i := LookOf(h, front, id);
      SessionsGrow(h, s, t, id);
      assert run[i] == front[i];
      assert forall k :: i < k < n ==> run[k] == front[k];
    } else {
      i := n;
    }
  }

  /** The only lookup of a session. */
  lemma {:induction false} LooksOnce(h: HashFn, run: seq<Step>, i: nat, k: nat)
    requires IsRun(h, run) && i < k < |run| && run[i].Look? && run[k].Look?
    ensures run[i].id < run[k].id
  {
    RunAt(h, run, k);
    LookCounted(h, run[..k], i);
    assert run[..k][i] == run[i];
  }

  lemma {:induction false} LookCounted(h: HashFn, run: seq<Step>, i: nat)
    requires IsRun(h, run) && i < |run| && run[i].Look?
    ensures run[i].id < |After(h, run).sessions|
  {
    var n := |run| - 1;
    var front := run[..n];
    if i < n {
      LookCounted(h, front, i);
      SessionsGrow(h, After(h, front), run[n], run[i].id);
    }
  }

  /** Every delete belongs to one earlier hit, which found what the delete's session serves. */
  lemma DeleteHasLook(h: HashFn, run: seq<Step>, d: nat) returns (i: nat)
    requires IsRun(h, run) && d < |run| && run[d].Delete?
    ensures OwnLook(run, d, i)
  {
    RunAt(h, run, d);
    i := LookOf(h, run[..d], run[d].id);
    assert run[..d][i] == run[i];
  }

  // ---------------------------------------------------------------- windows

  /** Label `n` falls into the window of hit `i`: looked up, not yet deleted. */
  ghost predicate InWindow(run: seq<Step>, i: int, n: int) {
    && 0 <= i < n <= |run| && IsHit(run[i])
    && forall d :: i < d < n ==> !(run[d].Delete? && run[d].id == run[i].id)
  }

  /** A hit within the window of another for the same URL, nothing published in between. */
  ghost predicate Shares(run: seq<Step>, i: int, n: int) {
    && InWindow(run, i, n) && n < |run| && IsHit(run[n]) && run[n].url == run[i].url
    && NoneBetween(run, run[i].url, Publishes, i, n)
  }

  /** A publication within the window from `i` to `d`, whose end is the next to touch the cache. */
  ghost predicate Swallows(run: seq<Step>, i: int, j: int, d: int) {
    && OwnLook(run, d, i) && i < j < d && Publishes(run[j], run[i].url)
    && NoneBetween(run, run[i].url, TouchesCache, j, d)
  }

  /** ... and nothing of the URL was published or looked up from then to `n`. */
  ghost predicate SwallowedBefore(run: seq<Step>, i: int, j: int, d: int, n: int) {
    && Swallows(run, i, j, d) && d < n <= |run|
    && NoneBetween(run, run[i].url, Publishes, d, n) && NoneBetween(run, run[i].url, Looks, d, n)
  }

  /** The deletes with the id of a hit are for its URL. */
  lemma DeleteOfSameUrl(h: HashFn, run: seq<Step>, i: nat, d: nat)
    requires IsRun(h, run) && i < d < |run| && run[i].Look? && run[d].Delete? && run[d].id == run[i].id
    ensures run[d].url == run[i].url
  {
    var i' := DeleteHasLook(h, run, d);
    if i' < i {
      LooksOnce(h, run, i', i);
    } else if i < i' {
      LooksOnce(h, run, i, i');
    }
  }

  lemma UndeletedMeansInWindow(h: HashFn, run: seq<Step>, i: nat, n: nat)
    requires IsRun(h, run) && i < n <= |run| && IsHit(run[i]) && NoneBetween(run, run[i].url, Deletes, i, n)
    ensures InWindow(run, i, n)
  {
    forall d | i < d < n
      ensures !(run[d].Delete? && run[d].id == run[i].id)
    {
      if run[d].Delete? && run[d].id == run[i].id {
        DeleteOfSameUrl(h, run, i, d);
      }
    }
  }

  // ---------------------------------------------------------------- whom a publication serves

  /** Publication `j` is the one that hit `i` is served. */
  ghost predicate Feeds(run: seq<Step>, j: int, i: int) {
    && 0 <= j < i < |run| && IsHit(run[i]) && run[j].Publish? && run[i].found == Some(run[j].body)
    && LastPublication(run, run[i].url, j, i) && NoneBetween(run, run[i].url, Deletes, j, i)
  }

  lemma FedBy(h: HashFn, run: seq<Step>, i: nat, j: nat)
    requires IsRun(h, run) && i < |run| && IsHit(run[i]) && LastPublication(run, run[i].url, j, i)
    ensures Feeds(run, j, i)
  {
    LookFindsUndeleted(h, run, i);
    UndeletedFrom(run, run[i].url, i, j);
  }

  /** Every hit serves the latest earlier publication for its URL, deleted by nobody before. */
  lemma HitHasPublication(h: HashFn, run: seq<Step>, i: nat) returns (j: nat)
    requires IsRun(h, run) && i < |run| && IsHit(run[i])
    ensures Feeds(run, j, i)
  {
    LookFindsUndeleted(h, run, i);
    j := FindPublication(run, run[i].url, i);
    FedBy(h, run, i, j);
  }

  /** One publication serves two hits exactly when the later falls into the window of the earlier and nothing is published between. */
  lemma ServedTwiceExactly(h: HashFn, run: seq<Step>, i: nat, n: nat)
    requires IsRun(h, run) && i < n < |run| && IsHit(run[i]) && IsHit(run[n]) && run[i].url == run[n].url
    ensures (exists j :: Feeds(run, j, i) && Feeds(run, j, n)) <==> Shares(run, i, n)
  {
    if j :| Feeds(run, j, i) && Feeds(run, j, n) {
      UndeletedMeansInWindow(h, run, i, n);
    }
    if Shares(run, i, n) {
      var j := HitHasPublication(h, run, i);
      FedBy(h, run, n, j);
    }
  }

  /** A hit is served what nobody was served before exactly when it shares no window. */
  lemma HitIsUnservedExactly(h: HashFn, run: seq<Step>, n: nat)
    requires IsRun(h, run) && n < |run| && IsHit(run[n])
    ensures Unserved(run[..n], run[n].url) == run[n].found <==> !exists i :: Shares(run, i, n)
    ensures Unserved(run[..n], run[n].url).Some? ==> Unserved(run[..n], run[n].url) == run[n].found
  {
    var u := run[n].url;
    var j := HitHasPublication(h, run, n);
    UnservedFrom(run, u, n, j);
    if i :| Shares(run, i, n) {
      assert j < i && Looks(run[i], u);
    }
    if !NoneBetween(run, u, Looks, j, n) {
      var i :| j < i < n && Looks(run[i], u);
      LookFindsUndeleted(h, run, i);
      UndeletedFrom(run, u, i, j);
      UndeletedMeansInWindow(h, run, i, n);
      assert Shares(run, i, n);
    }
  }

  /** The end of the window that swallowed publication `j`. */
  lemma SwallowedFrom(h: HashFn, run: seq<Step>, u: Url, n: nat, j: nat) returns (i: nat, d: nat)
    requires IsRun(h, run) && LastPublication(run, u, j, n)
    requires NoneBetween(run, u, Looks, j, n) && !NoneBetween(run, u, Deletes, j, n)
    ensures SwallowedBefore(run, i, j, d, n) && run[i].url == u
  {
    d := j + 1;
    while !Deletes(run[d], u)
      invariant j < d < n && NoneBetween(run, u, Deletes, j, d) && !NoneBetween(run, u, Deletes, j, n)
      decreases n - d
    {
      assert exists k :: j < k < n && Deletes(run[k], u);
      d := d + 1;
    }
    i := DeleteHasLook(h, run, d);
    assert Looks(run[i], u);
  }

  /**
   A lookup that finds nothing, so that Retrieve asks the server, misses no publication exactly
   when no window has swallowed the last one.
   */
  lemma MissIsTrueExactly(h: HashFn, run: seq<Step>, n: nat)
    requires IsRun(h, run) && n < |run| && run[n].Look? && run[n].found.None?
    ensures Unserved(run[..n], run[n].url) == None
            <==> !exists i, j, d :: SwallowedBefore(run, i, j, d, n) && run[i].url == run[n].url
  {
    var u := run[n].url;
    LookFindsUndeleted(h, run, n);
    if Unserved(run[..n], u).Some? {
      var j := FindPublication(run, u, n);
      UndeletedFrom(run, u, n, j);
      UnservedFrom(run, u, n, j);
      var i, d := SwallowedFrom(h, run, u, n, j);
    }
    if i, j, d :| SwallowedBefore(run, i, j, d, n) && run[i].url == u {
      assert LastPublication(run, u, j, n);
      UnservedFrom(run, u, n, j);
    }
  }

  /** In a run whose windows keep out of each other and of publications the cache is a one-shot cache. */
  lemma OneShotExactly(h: HashFn, run: seq<Step>, n: nat)
    requires IsRun(h, run) && n < |run| && run[n].Look?
    ensures run[n].found == Unserved(run[..n], run[n].url)
            <==> !(exists i :: Shares(run, i, n)) && !(run[n].found.None? && exists i, j, d :: SwallowedBefore(run, i, j, d, n) && run[i].url == run[n].url)
  {
    if run[n].found.Some? {
      HitIsUnservedExactly(h, run, n);
    } else {
      MissIsTrueExactly(h, run, n);
    }
  }

  // ---------------------------------------------------------------- conservation

  /**
   For one URL: publications, hits, publications replaced before anybody looked, hits on what was
   served already, and publications deleted before anybody looked.
   */
  datatype Books = Books(published: nat, served: nat, overwritten: nat, repeated: nat, lost: nat)

  function Count(b: bool): nat {
    if b then 1 else 0
  }

  /** The cache holds a publication nobody has been served. */
  predicate Waiting(run: seq<Step>, u: Url) {
    Undeleted(run, u).Some? && Unserved(run, u).Some?
  }

  function Ledger(run: seq<Step>, u: Url): Books {
    if run == [] then Books(0, 0, 0, 0, 0)
    else
      var front, t := run[..|run| - 1], run[|run| - 1];
      var k := Ledger(front, u);
      if Publishes(t, u) then k.(published := k.published + 1, overwritten := k.overwritten + Count(Waiting(front, u)))
      else if Looks(t, u) && IsHit(t) then
        k.(served := k.served + 1, repeated := k.repeated + Count(Unserved(front, u).None?))
      else if Deletes(t, u) then k.(lost := k.lost + Count(Waiting(front, u)))
      else k
  }

  /** Conservation: a published body is served, replaced, lost or still there; only what is served again is there twice. */
  lemma {:induction false} PublicationsConserved(h: HashFn, run: seq<Step>, u: Url)
    requires IsRun(h, run)
    ensures var k := Ledger(run, u);
      k.published + k.repeated == k.served + k.overwritten + k.lost + Count(Waiting(run, u))
  {
    if run != [] {
      var n := |run| - 1;
      PublicationsConserved(h, run[..n], u);
      if run[n].Look? {
        LookFindsUndeleted(h, run, n);
      }
    }
  }

  ghost predicate SharesFor(run: seq<Step>, u: Url) {
    exists i, n :: Shares(run, i, n) && run[n].url == u
  }

  ghost predicate SwallowsFor(run: seq<Step>, u: Url) {
    exists i, j, d :: Swallows(run, i, j, d) && run[d].url == u
  }

  lemma FrontShares(run: seq<Step>, i: int, n: int)
    requires 0 <= i < n < |run| - 1
    ensures Shares(run[..|run| - 1], i, n) <==> Shares(run, i, n)
  {
  }

  lemma FrontSwallows(run: seq<Step>, i: int, j: int, d: int)
    requires 0 <= i < j < d < |run| - 1
    ensures Swallows(run[..|run| - 1], i, j, d) <==> Swallows(run, i, j, d)
  {
  }

  lemma SharesForStep(run: seq<Step>, u: Url, n: nat)
    requires n == |run| - 1
    ensures SharesFor(run, u) <==>
            SharesFor(run[..n], u) || exists i :: Shares(run, i, n) && run[n].url == u
  {
    var front := run[..n];
    if i, k :| Shares(run, i, k) && run[k].url == u {
      if k < n {
        FrontShares(run, i, k);
        assert front[k] == run[k];
      }
    }
    if i, k :| Shares(front, i, k) && front[k].url == u {
      FrontShares(run, i, k);
      assert front[k] == run[k];
    }
  }

  /** Nothing is served again exactly when no windows of the URL share a publication. */
  lemma {:induction false} RepeatedExactly(h: HashFn, run: seq<Step>, u: Url)
    requires IsRun(h, run)
    ensures Ledger(run, u).repeated == 0 <==> !SharesFor(run, u)
  {
    if run != [] {
      var n := |run| - 1;
      RepeatedExactly(h, run[..n], u);
      SharesForStep(run, u, n);
      if Looks(run[n], u) && IsHit(run[n]) {
        HitIsUnservedExactly(h, run, n);
      }
    }
  }

  lemma SwallowsForStep(run: seq<Step>, u: Url, d: nat)
    requires d == |run| - 1
    ensures SwallowsFor(run, u) <==>
            SwallowsFor(run[..d], u) || exists i, j :: Swallows(run, i, j, d) && run[d].url == u
  {
    var front := run[..d];
    if i, j, k :| Swallows(run, i, j, k) && run[k].url == u {
      if k < d {
        FrontSwallows(run, i, j, k);
        assert front[k] == run[k];
      }
    }
    if i, j, k :| Swallows(front, i, j, k) && front[k].url == u {
      FrontSwallows(run, i, j, k);
      assert front[k] == run[k];
    }
  }

  /** A delete takes an unserved publication with it exactly when that came within the delete's window. */
  lemma LosesExactly(h: HashFn, run: seq<Step>, d: nat)
    requires IsRun(h, run) && d < |run| && run[d].Delete?
    ensures Waiting(run[..d], run[d].url) <==> exists i, j :: Swallows(run, i, j, d)
  {
    var u := run[d].url;
    if Waiting(run[..d], u) {
      var j := FindPublication(run, u, d);
      UndeletedFrom(run, u, d, j);
      UnservedFrom(run, u, d, j);
      var i := DeleteHasLook(h, run, d);
      assert Looks(run[i], u);
      assert Swallows(run, i, j, d);
    }
    if i, j :| Swallows(run, i, j, d) {
      UndeletedFrom(run, u, d, j);
      UnservedFrom(run, u, d, j);
    }
  }

  /** No publication is deleted unserved exactly when no window of the URL swallows one. */
  lemma {:induction false} LostExactly(h: HashFn, run: seq<Step>, u: Url)
    requires IsRun(h, run)
    ensures Ledger(run, u).lost == 0 <==> !SwallowsFor(run, u)
  {
    if run != [] {
      var n := |run| - 1;
      LostExactly(h, run[..n], u);
      SwallowsForStep(run, u, n);
      if Deletes(run[n], u) {
        LosesExactly(h, run, n);
      }
    }
  }
}
