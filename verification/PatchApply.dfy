/** Applying changes to checked-out repositories, transaction by transaction, with rollback. */
module PatchApply {
  import opened Wrappers
  import opened Graphs
  import opened PatchPlan

  type Project = string

  /** What a repository has checked out. */
  type Tree = string

  type Repos = map<Project, Tree>

  /** The services and repositories behind a patch series. A change with no checkouts is not in the
      manifest. Applying a change to a repository gives its new tree, which a failed attempt may
      have changed too, and, if it failed, whether that is because of changes applied before. */
  datatype Host = Host(
    deps: Change -> Option<seq<Change>>,
    hasHelper: Change -> bool,
    find: Change -> Finding,
    merged: Change -> bool,
    accepts: Change -> bool,
    checkouts: Change -> seq<Project>,
    patch: (Change, Project, Tree) -> (Tree, Option<bool>))

  /** A change that was asked for and the plan resolved for it. */
  datatype Transaction = Transaction(change: Change, plan: seq<Change>)

  function WorldOf(h: Host, committed: set<Change>, limitTo: Option<set<Change>>, submitting: bool): World {
    World(h.deps, h.hasHelper, h.find, h.merged, h.accepts, committed, limitTo, submitting)
  }

  // ----- What applying does to the repositories

  function ApplyTo(h: Host, repos: Repos, c: Change, projects: seq<Project>): (r: (Repos, Option<bool>))
    requires forall p :: p in projects ==> p in repos
    ensures r.0.Keys == repos.Keys
    ensures forall p :: p in repos && p !in projects ==> r.0[p] == repos[p]
    decreases |projects|
  {
    if projects == [] then (repos, None)
    else
      var p := projects[0];
      var (tree, failure) := h.patch(c, p, repos[p]);
      if failure.Some? then (repos[p := tree], failure)
      else ApplyTo(h, repos[p := tree], c, projects[1..])
  }

  /** The change was applied in each of its checkouts, without failing in any. */
  ghost predicate PatchedAll(h: Host, repos: Repos, c: Change, projects: seq<Project>, after: Repos) {
    forall i :: 0 <= i < |projects| ==> PatchedAt(h, repos, c, projects[i], after)
  }

  ghost predicate PatchedAt(h: Host, repos: Repos, c: Change, p: Project, after: Repos) {
    p in repos && p in after && h.patch(c, p, repos[p]) == (after[p], None)
  }

  /** The change was applied in the checkouts before the `k`-th, failed there, perhaps leaving
      something behind, and was not tried in later ones. */
  ghost predicate FailedAt(
    h: Host, repos: Repos, c: Change, projects: seq<Project>, after: Repos, k: nat, inflight: bool)
  {
    && k < |projects| && (forall i :: 0 <= i < k ==> PatchedAt(h, repos, c, projects[i], after))
    && projects[k] in repos && projects[k] in after
    && h.patch(c, projects[k], repos[projects[k]]) == (after[projects[k]], Some(inflight))
    && (forall i :: k < i < |projects| ==>
          projects[i] in repos && projects[i] in after && after[projects[i]] == repos[projects[i]])
  }

  /** What applying a change to distinct checkouts does, in terms of single patches. */
  ghost predicate PatchOutcome(
    h: Host, repos: Repos, c: Change, projects: seq<Project>, after: Repos, failure: Option<bool>)
  {
    NoDuplicates(projects) ==>
      match failure
      case None => PatchedAll(h, repos, c, projects, after)
      case Some(inflight) => exists k :: FailedAt(h, repos, c, projects, after, k, inflight)
  }

  lemma {:induction false} ApplyToMeans(h: Host, repos: Repos, c: Change, projects: seq<Project>)
    requires forall p :: p in projects ==> p in repos
    ensures var (after, failure) := ApplyTo(h, repos, c, projects);
      PatchOutcome(h, repos, c, projects, after, failure)
    decreases |projects|
  {
    if projects != [] && NoDuplicates(projects) {
      var p, rest := projects[0], projects[1..];
      var (tree, failed) := h.patch(c, p, repos[p]);
      var next := repos[p := tree];
      assert forall i :: 0 <= i < |rest| ==> rest[i] == projects[i + 1] && rest[i] != p;
      if failed.Some? {
        assert FailedAt(h, repos, c, projects, next, 0, failed.value);
      } else {
        ApplyToMeans(h, next, c, rest);
        var (after, failure) := ApplyTo(h, next, c, rest);
        assert p !in rest && after[p] == tree;
        if failure.None? {
          PatchedMore(h, repos, c, projects, after);
        } else {
          var k: nat :| FailedAt(h, next, c, rest, after, k, failure.value);
          FailedLater(h, repos, c, projects, after, k, failure.value);
        }
      }
    }
  }

  lemma PatchedMore(h: Host, repos: Repos, c: Change, projects: seq<Project>, after: Repos)
    requires NoDuplicates(projects) && projects != [] && PatchedAt(h, repos, c, projects[0], after)
    requires PatchedAll(h, repos[projects[0] := after[projects[0]]], c, projects[1..], after)
    requires forall p :: p in projects ==> p in repos
    ensures PatchedAll(h, repos, c, projects, after)
  {
    forall i | 0 <= i < |projects|
      ensures PatchedAt(h, repos, c, projects[i], after)
    {
      if i > 0 {
        assert PatchedAt(h, repos[projects[0] := after[projects[0]]], c, projects[1..][i - 1], after);
      }
    }
  }

  lemma FailedLater(h: Host, repos: Repos, c: Change, projects: seq<Project>, after: Repos, k: nat, inflight: bool)
    requires NoDuplicates(projects) && projects != [] && PatchedAt(h, repos, c, projects[0], after)
    requires FailedAt(h, repos[projects[0] := after[projects[0]]], c, projects[1..], after, k, inflight)
    requires forall p :: p in projects ==> p in repos
    ensures FailedAt(h, repos, c, projects, after, k + 1, inflight)
  {
    var next, rest := repos[projects[0] := after[projects[0]]], projects[1..];
    forall i | 0 <= i < k + 1
      ensures PatchedAt(h, repos, c, projects[i], after)
    {
      if i > 0 {
        assert PatchedAt(h, next, c, rest[i - 1], after);
      }
    }
    forall i | k + 1 < i < |projects|
      ensures projects[i] in repos && projects[i] in after && after[projects[i]] == repos[projects[i]]
    {
      assert rest[i - 1] == projects[i];
    }
    assert rest[k] == projects[k + 1];
  }

  ghost predicate CheckedOut(h: Host, repos: Repos) {
    forall c :: InRepos(h, repos, c)
  }

  ghost predicate InRepos(h: Host, repos: Repos, c: Change) {
    forall p :: p in h.checkouts(c) ==> p in repos
  }

  /** The repositories after the changes were applied one after another, if all of them apply. */
  ghost function Replay(h: Host, repos: Repos, changes: seq<Change>): (r: Option<Repos>)
    requires CheckedOut(h, repos)
    ensures r.Some? ==> r.value.Keys == repos.Keys && CheckedOut(h, r.value)
    decreases |changes|
  {
    if changes == [] then Some(repos)
    else
      match Replay(h, repos, changes[..|changes| - 1])
      case None => None
      case Some(before) =>
        var last := changes[|changes| - 1];
        assert InRepos(h, before, last);
        var (after, failure) := ApplyTo(h, before, last, h.checkouts(last));
        assert forall c :: InRepos(h, before, c) ==> InRepos(h, after, c);
        if failure.Some? then None else Some(after)
  }

  lemma {:induction false} ReplayAppend(h: Host, repos: Repos, a: seq<Change>, b: seq<Change>)
    requires CheckedOut(h, repos) && Replay(h, repos, a).Some?
    ensures Replay(h, repos, a + b) == Replay(h, Replay(h, repos, a).value, b)
    decreases |b|
  {
    if b == [] {
      assert a + b == a;
    } else {
      var n := |b| - 1;
      assert (a + b)[..|a + b| - 1] == a + b[..n];
      ReplayAppend(h, repos, a, b[..n]);
    }
  }

  lemma ReplaySnoc(h: Host, repos: Repos, done: seq<Change>, c: Change)
    requires CheckedOut(h, repos) && Replay(h, repos, done).Some?
    ensures InRepos(h, Replay(h, repos, done).value, c)
    ensures var (after, failure) := ApplyTo(h, Replay(h, repos, done).value, c, h.checkouts(c));
            Replay(h, repos, done + [c]) == if failure.Some? then None else Some(after)
  {
    assert (done + [c])[..|done + [c]| - 1] == done;
  }

  /** The changes that are not in `done`, in order. */
  function NotIn(changes: seq<Change>, done: set<Change>): (r: seq<Change>)
    ensures forall c :: c in r <==> c in changes && c !in done
  {
    if changes == [] then []
    else
      var n := |changes| - 1;
      assert changes == changes[..n] + [changes[n]];
      if changes[n] in done then NotIn(changes[..n], done) else NotIn(changes[..n], done) + [changes[n]]
  }

  ghost predicate NoneBad(changes: seq<Change>, bad: set<Change>) {
    forall c :: c in changes ==> c !in bad
  }

  lemma ReplayStops(h: Host, repos: Repos, a: seq<Change>, c: Change)
    requires CheckedOut(h, repos) && Replay(h, repos, a).None?
    ensures Replay(h, repos, a + [c]).None?
  {
    assert (a + [c])[..|a + [c]| - 1] == a;
  }

  /** If the first `k` changes cannot all be applied, neither can the whole sequence. */
  lemma {:induction false} FailureStops(h: Host, repos: Repos, changes: seq<Change>, k: nat, done: set<Change>)
    requires CheckedOut(h, repos) && k <= |changes|
    requires Replay(h, repos, NotIn(changes[..k], done)).None?
    ensures Replay(h, repos, NotIn(changes, done)).None?
    ensures Culprit(h, repos, NotIn(changes, done)) == Culprit(h, repos, NotIn(changes[..k], done))
    decreases |changes| - k
  {
    if k == |changes| {
      assert changes[..k] == changes;
    } else {
      NotInSnoc(changes, k, done);
      ReplayStops(h, repos, NotIn(changes[..k], done), changes[k]);
      CulpritSnoc(h, repos, NotIn(changes[..k], done), changes[k]);
      FailureStops(h, repos, changes, k + 1, done);
    }
  }

  /** The change at which a replay that does not get through stops, if it fails against the tip of
      the tree and so is known to be bad from then on. */
  ghost function Culprit(h: Host, repos: Repos, changes: seq<Change>): set<Change>
    requires CheckedOut(h, repos)
    decreases |changes|
  {
    if changes == [] then {}
    else
      var n := |changes| - 1;
      match Replay(h, repos, changes[..n])
      case None => Culprit(h, repos, changes[..n])
      case Some(before) =>
        assert InRepos(h, before, changes[n]);
        if ApplyTo(h, before, changes[n], h.checkouts(changes[n])).1 == Some(false) then {changes[n]} else {}
  }

  lemma CulpritSnoc(h: Host, repos: Repos, a: seq<Change>, c: Change)
    requires CheckedOut(h, repos)
    ensures Replay(h, repos, a).None? ==> Culprit(h, repos, a + [c]) == Culprit(h, repos, a)
    ensures Replay(h, repos, a).Some? ==>
      InRepos(h, Replay(h, repos, a).value, c) &&
      Culprit(h, repos, a + [c]) ==
        if ApplyTo(h, Replay(h, repos, a).value, c, h.checkouts(c)).1 == Some(false) then {c} else {}
  {
    assert (a + [c])[..|a + [c]| - 1] == a;
    assert Replay(h, repos, a).Some? ==> InRepos(h, Replay(h, repos, a).value, c);
  }

  /** What the next change adds to a replay, or how it ends it. */
  lemma ApplyStep(h: Host, repos0: Repos, repos: Repos, changes: seq<Change>, i: nat, committed: set<Change>)
    requires CheckedOut(h, repos0) && i < |changes|
    requires Replay(h, repos0, NotIn(changes[..i], committed)) == Some(repos)
    ensures InRepos(h, repos, changes[i])
    ensures forall p :: p in h.checkouts(changes[i]) ==> TouchedBy(h, changes, p)
    ensures changes[i] in committed ==> Replay(h, repos0, NotIn(changes[..i + 1], committed)) == Some(repos)
    ensures changes[i] !in committed ==>
      var (after, failure) := ApplyTo(h, repos, changes[i], h.checkouts(changes[i]));
      if failure.None? then Replay(h, repos0, NotIn(changes[..i + 1], committed)) == Some(after)
      else
        Replay(h, repos0, NotIn(changes, committed)).None? &&
        Culprit(h, repos0, NotIn(changes, committed)) == if failure == Some(false) then {changes[i]} else {}
  {
    var done := NotIn(changes[..i], committed);
    NotInSnoc(changes, i, committed);
    ReplaySnoc(h, repos0, done, changes[i]);
    CulpritSnoc(h, repos0, done, changes[i]);
    if changes[i] !in committed && Replay(h, repos0, done + [changes[i]]).None? {
      FailureStops(h, repos0, changes, i + 1, committed);
    }
  }

  ghost function NewlyBad(
    h: Host, repos: Repos, committed: set<Change>, bad: set<Change>, changes: seq<Change>): set<Change>
    requires CheckedOut(h, repos)
  {
    if NoneBad(changes, bad) then Culprit(h, repos, NotIn(changes, committed)) else {}
  }

  /** What a series has done so far: the repositories, the committed and the known bad changes,
      and the changes of all transactions that succeeded. */
  datatype Landing = Landing(repos: Repos, committed: set<Change>, bad: set<Change>, applied: seq<Change>)

  ghost predicate InManifest(h: Host, plan: seq<Change>) {
    forall c :: c in plan ==> h.checkouts(c) != []
  }

  /** All changes are in the manifest, none is known to be bad, and the open ones apply in order. */
  ghost predicate Succeeds(h: Host, repos: Repos, committed: set<Change>, bad: set<Change>, t: Transaction)
    requires CheckedOut(h, repos)
  {
    InManifest(h, t.plan) && NoneBad(t.plan, bad) &&
    Replay(h, repos, NotIn(t.plan, committed)).Some?
  }

  /** One transaction: it takes effect as a whole or only adds to the known bad changes. */
  ghost function Land(h: Host, s: Landing, t: Transaction): (r: Landing)
    requires CheckedOut(h, s.repos)
    ensures CheckedOut(h, r.repos)
  {
    if !InManifest(h, t.plan) || !NoneBad(t.plan, s.bad) then s
    else
      match Replay(h, s.repos, NotIn(t.plan, s.committed))
      case Some(repos) => Landing(repos, s.committed + Elements(t.plan), s.bad, s.applied + t.plan)
      case None => s.(bad := s.bad + Culprit(h, s.repos, NotIn(t.plan, s.committed)))
  }

  ghost function LandAll(h: Host, s: Landing, ts: seq<Transaction>): (r: Landing)
    requires CheckedOut(h, s.repos)
    ensures CheckedOut(h, r.repos)
    decreases |ts|
  {
    if ts == [] then s else Land(h, LandAll(h, s, ts[..|ts| - 1]), ts[|ts| - 1])
  }

  /** A failure: which change is blamed, and whether it failed because of changes applied before. */
  datatype Verdict = Verdict(blamed: Change, inflight: bool)

  /** How a transaction fails whose changes are all in the manifest, if it fails. */
  ghost function Failure(h: Host, s: Landing, t: Transaction): Option<Verdict>
    requires CheckedOut(h, s.repos)
  {
    if !InManifest(h, t.plan) || Succeeds(h, s.repos, s.committed, s.bad, t) then None
    else if !NoneBad(t.plan, s.bad) then Some(Verdict(t.change, false))
    else Some(Verdict(t.change, Culprit(h, s.repos, NotIn(t.plan, s.committed)) == {}))
  }

  ghost function Failures(h: Host, s: Landing, ts: seq<Transaction>): set<Verdict>
    requires CheckedOut(h, s.repos)
    decreases |ts|
  {
    if ts == [] then {}
    else
      var n := |ts| - 1;
      var last := Failure(h, LandAll(h, s, ts[..n]), ts[n]);
      Failures(h, s, ts[..n]) + if last.Some? then {last.value} else {}
  }

  ghost predicate Reported(failed: seq<Exc>, v: Verdict) {
    exists e :: e in failed && e.patch == v.blamed && e.Inflight() == v.inflight
  }

  ghost predicate AllReported(failed: seq<Exc>, vs: set<Verdict>) {
    forall v :: v in vs ==> Reported(failed, v)
  }

  lemma NotInSnoc(changes: seq<Change>, i: nat, done: set<Change>)
    requires i < |changes|
    ensures NotIn(changes[..i + 1], done)
         == if changes[i] in done then NotIn(changes[..i], done) else NotIn(changes[..i], done) + [changes[i]]
  {
    assert changes[..i + 1][..i] == changes[..i];
  }

  // ----- Transactions

  class PatchSeries {
    const host: Host
    var committed: set<Change>
    var failedTot: map<Change, Exc>
    var repos: Repos
    var isSubmitting: bool

    /** A change known to fail against the tip of the tree is never among the committed ones. */
    ghost predicate Valid()
      reads this
    {
      && CheckedOut(host, repos)
      && (forall c :: c in failedTot ==> c !in committed && failedTot[c].patch == c && !failedTot[c].Inflight())
    }

    /** What the series has done so far, given what was applied. */
    ghost function Now(applied: seq<Change>): Landing
      reads this
    {
      Landing(repos, committed, failedTot.Keys, applied)
    }

    method ApplyChange(c: Change) returns (failure: Option<Exc>)
      requires CheckedOut(host, repos)
      modifies this`repos
      ensures CheckedOut(host, repos) && repos.Keys == old(repos).Keys
      ensures InRepos(host, old(repos), c) && repos == ApplyTo(host, old(repos), c, host.checkouts(c)).0
      ensures var r := ApplyTo(host, old(repos), c, host.checkouts(c)).1;
        failure == if r.Some? then Some(PatchException(c, r.value, Conflict)) else None
      ensures PatchOutcome(host, old(repos), c, host.checkouts(c), repos,
                           if failure.Some? then Some(failure.value.Inflight()) else None)
    {
      ghost var repos0 := repos;
      failure := ApplyInCheckouts(c);
      ApplyToMeans(host, repos0, c, host.checkouts(c));
    }

    method ApplyInCheckouts(c: Change) returns (failure: Option<Exc>)
      requires CheckedOut(host, repos)
      modifies this`repos
      ensures CheckedOut(host, repos) && repos.Keys == old(repos).Keys
      ensures InRepos(host, old(repos), c) && repos == ApplyTo(host, old(repos), c, host.checkouts(c)).0
      ensures var r := ApplyTo(host, old(repos), c, host.checkouts(c)).1;
        failure == if r.Some? then Some(PatchException(c, r.value, Conflict)) else None
    {
      ghost var repos0 := repos;
      var projects := host.checkouts(c);
      assert InRepos(host, repos0, c);
      var i := 0;
      while i < |projects|
        invariant 0 <= i <= |projects|
        invariant repos.Keys == repos0.Keys
        invariant ApplyTo(host, repos0, c, projects) == ApplyTo(host, repos, c, projects[i..])
      {
        var p := projects[i];
        var (tree, failed) := host.patch(c, p, repos[p]);
        repos := repos[p := tree];
        if failed.Some? {
          SameKeysCheckedOut(host, repos0, repos);
          return Some(PatchException(c, failed.value, Conflict));
        }
        i := i + 1;
      }
      SameKeysCheckedOut(host, repos0, repos);
      failure := None;
    }

    /** Applies the changes that are not committed yet; the first failure stops the sequence, is
        remembered if it is one against the tip of the tree, and is blamed on the inducing change. */
    method ApplyChanges(inducing: Change, changes: seq<Change>) returns (r: Result<(), Exc>)
      requires Valid()
      modifies this`repos, this`failedTot
      ensures Valid() && repos.Keys == old(repos).Keys
      ensures r.Ok? <==>
        NoneBad(changes, old(failedTot).Keys) && Replay(host, old(repos), NotIn(changes, committed)).Some?
      ensures r.Ok? ==>
        Replay(host, old(repos), NotIn(changes, committed)) == Some(repos) && failedTot == old(failedTot)
      ensures r.Err? ==> r.error.patch == inducing
      ensures r.Err? ==> (r.error.Inflight() <==>
        NoneBad(changes, old(failedTot).Keys) && Culprit(host, old(repos), NotIn(changes, committed)) == {})
      ensures r.Err? ==>
        failedTot.Keys == old(failedTot).Keys + NewlyBad(host, old(repos), committed, old(failedTot).Keys, changes)
      ensures forall p :: p in old(repos) && !TouchedBy(host, changes, p) ==> repos[p] == old(repos)[p]
    {
      var known := KnownFailure(changes);
      if known.Some? {
        return Err(Wrap(inducing, Patch(known.value)));
      }
      var failure := ApplyOpen(changes);
      r := if failure.Some? then Err(Wrap(inducing, Patch(failure.value))) else Ok(());
    }

    /** Applies the changes that are not committed, up to the first failure. */
    method ApplyOpen(changes: seq<Change>) returns (failure: Option<Exc>)
      requires Valid()
      modifies this`repos, this`failedTot
      ensures Valid() && repos.Keys == old(repos).Keys
      ensures failure.None? <==> Replay(host, old(repos), NotIn(changes, committed)).Some?
      ensures failure.None? ==>
        Replay(host, old(repos), NotIn(changes, committed)) == Some(repos) && failedTot == old(failedTot)
      ensures failure.Some? ==>
        var culprit := Culprit(host, old(repos), NotIn(changes, committed));
        (failure.value.Inflight() <==> culprit == {}) && failedTot.Keys == old(failedTot).Keys + culprit
      ensures forall p :: p in old(repos) && !TouchedBy(host, changes, p) ==> repos[p] == old(repos)[p]
    {
      ghost var repos0 := repos;
      for i := 0 to |changes|
        invariant Valid() && repos.Keys == repos0.Keys && failedTot == old(failedTot)
        invariant Replay(host, repos0, NotIn(changes[..i], committed)) == Some(repos)
        invariant forall p :: p in repos0 && !TouchedBy(host, changes, p) ==> repos[p] == repos0[p]
      {
        ApplyStep(host, repos0, repos, changes, i, committed);
        if changes[i] in committed {
          continue;
        }
        failure := ApplyNext(changes[i]);
        if failure.Some? {
          return;
        }
      }
      assert changes[..|changes|] == changes;
      failure := None;
    }

    /** The failure of the first change known to be bad. */
    method KnownFailure(changes: seq<Change>) returns (e: Option<Exc>)
      requires Valid()
      ensures e.None? <==> NoneBad(changes, failedTot.Keys)
      ensures e.Some? ==> !e.value.Inflight() && e.value.patch in changes
    {
      for i := 0 to |changes|
        invariant forall j :: 0 <= j < i ==> changes[j] !in failedTot
      {
        if changes[i] in failedTot {
          assert changes[i] in changes;
          return Some(failedTot[changes[i]]);
        }
      }
      e := None;
    }

    /** Applies one more change, remembering it as bad if it fails against the tip of the tree. */
    method ApplyNext(c: Change) returns (failure: Option<Exc>)
      requires Valid() && c !in committed
      modifies this`repos, this`failedTot
      ensures Valid() && repos.Keys == old(repos).Keys && InRepos(host, old(repos), c)
      ensures repos == ApplyTo(host, old(repos), c, host.checkouts(c)).0
      ensures failure.Some? == ApplyTo(host, old(repos), c, host.checkouts(c)).1.Some?
      ensures failure.Some? ==> Some(failure.value.Inflight()) == ApplyTo(host, old(repos), c, host.checkouts(c)).1
      ensures failedTot == if failure.Some? && !failure.value.Inflight()
                           then old(failedTot)[c := failure.value] else old(failedTot)
    {
      failure := ApplyChange(c);
      if failure.Some? && !failure.value.Inflight() {
        failedTot := failedTot[c := failure.value];
      }
    }

    /** A transaction takes effect as a whole or, apart from what it taught about bad changes, not at all. */
    method RunTransaction(t: Transaction) returns (r: Result<(), Exc>)
      requires Valid()
      modifies this`repos, this`failedTot, this`committed
      ensures Valid() && repos.Keys == old(repos).Keys && committed == old(committed)
      ensures r.Ok? <==> Succeeds(host, old(repos), committed, old(failedTot).Keys, t)
      ensures r.Ok? ==> Replay(host, old(repos), NotIn(t.plan, committed)) == Some(repos) && failedTot == old(failedTot)
      ensures r.Err? ==> repos == old(repos)
      ensures r.Err? ==> failedTot.Keys == Land(host, Landing(repos, committed, old(failedTot).Keys, []), t).bad
      ensures r.Err? && !InManifest(host, t.plan) ==> host.checkouts(r.error.patch) == []
      ensures r.Err? && InManifest(host, t.plan) ==>
        Failure(host, old(Now([])), t)
        == Some(Verdict(r.error.patch, r.error.Inflight()))
    {
      ghost var repos0 := repos;
      var heads := RecordHeads(t.plan);
      if heads.Err? {
        return Err(heads.error);
      }
      var committedCache := committed;
      r := ApplyChanges(t.change, t.plan);
      if r.Err? {
        Rewind(repos0, heads.value, t.plan);
        committed := committedCache;
      }
    }

    /** Notes what is checked out in every repository that the changes touch; a change that is not
        in the manifest is an error of its own, not blamed on anybody else. */
    method RecordHeads(plan: seq<Change>) returns (r: Result<map<Project, Tree>, Exc>)
      requires Valid()
      ensures r.Ok? <==> InManifest(host, plan)
      ensures r.Ok? ==> HeadsOf(host, repos, plan, r.value)
      ensures r.Err? ==> r.error.patch in plan && host.checkouts(r.error.patch) == []
      ensures r.Err? ==> r.error.PatchException? && r.error.reason.NotInManifest?
    {
      var resets: map<Project, Tree> := map[];
      for i := 0 to |plan|
        invariant HeadsOf(host, repos, plan[..i], resets)
        invariant forall j :: 0 <= j < i ==> host.checkouts(plan[j]) != []
      {
        var projects := host.checkouts(plan[i]);
        if projects == [] {
          assert plan[i] in plan;
          return Err(PatchException(plan[i], false, NotInManifest));
        }
        assert InRepos(host, repos, plan[i]);
        MoreHeads(host, repos, plan, i, resets);
        resets := resets + map p | p in projects :: repos[p];
      }
      assert plan[..|plan|] == plan;
      r := Ok(resets);
    }

    /** Resets every repository of the transaction to what it had checked out before. */
    method Rewind(ghost repos0: Repos, resets: map<Project, Tree>, ghost plan: seq<Change>)
      requires Valid() && CheckedOut(host, repos0) && repos.Keys == repos0.Keys
      requires HeadsOf(host, repos0, plan, resets)
      requires forall p :: p in repos0 && !TouchedBy(host, plan, p) ==> repos[p] == repos0[p]
      modifies this`repos
      ensures Valid() && repos == repos0
    {
      var todo := resets.Keys;
      while todo != {}
        invariant todo <= resets.Keys
        invariant RestoredExcept(repos0, repos, todo)
        decreases todo
      {
        var p :| p in todo;
        todo := todo - {p};
        repos := repos[p := resets[p]];
      }
      AllRestored(repos0, repos);
    }

    // ----- A whole series

    /** The changes this builder can see, and an error for each that is not in the manifest. */
    method FetchChanges(changes: seq<Change>) returns (fetched: seq<Change>, notInManifest: seq<Exc>)
      ensures fetched == Fetched(host, changes) && notInManifest == Unlisted(host, changes)
    {
      fetched, notInManifest := [], [];
      for i := 0 to |changes|
        invariant fetched == Fetched(host, changes[..i]) && notInManifest == Unlisted(host, changes[..i])
      {
        FetchedSnoc(host, changes, i);
        if !host.hasHelper(changes[i]) {
          continue;
        }
        if host.checkouts(changes[i]) == [] {
          notInManifest := notInManifest + [PatchException(changes[i], false, NotInManifest)];
          continue;
        }
        fetched := fetched + [changes[i]];
      }
      assert changes[..|changes|] == changes;
    }

    /** A transaction, or the reason why there is none, for each change. */
    method CreateTransactions(w: World, ghost changes: seq<Change>, fetched: seq<Change>, failed0: seq<Exc>)
      returns (resolved: seq<Transaction>, failed: seq<Exc>)
      ensures IsCreated(w, fetched, resolved, failed0, failed)
      ensures NoDuplicates(fetched) ==> DistinctInducing(resolved)
      ensures NoDuplicates(fetched) && Accounts(changes, failed0, Elements(fetched), []) ==>
        Accounts(changes, failed, Inducing(resolved), [])
    {
      resolved, failed := [], failed0;
      NothingCreated(w, changes, fetched, failed0);
      for i := 0 to |fetched|
        invariant IsCreated(w, fetched[..i], resolved, failed0, failed)
        invariant IsTidy(changes, fetched, i, resolved, failed0, failed)
      {
        var plan := CreateTransaction(w, fetched[i]);
        if plan.Err? {
          CreatedError(w, fetched, i, resolved, failed0, failed, plan.error);
          TidyError(changes, fetched, i, resolved, failed0, failed, plan.error);
          failed := failed + [plan.error];
        } else {
          var t := Transaction(fetched[i], plan.value);
          CreatedPlan(w, fetched, i, resolved, failed0, failed, t);
          TidyPlan(changes, fetched, i, resolved, failed0, failed, t);
          resolved := resolved + [t];
        }
      }
      AllCreated(resolved, fetched);
    }

    /** Runs a transaction and, if it succeeds, records its changes as committed. */
    method CommitTransaction(t: Transaction, ghost applied: seq<Change>) returns (r: Result<(), Exc>)
      requires Valid()
      modifies this`repos, this`failedTot, this`committed
      ensures Valid() && repos.Keys == old(repos).Keys
      ensures r.Ok? <==> Succeeds(host, old(repos), old(committed), old(failedTot).Keys, t)
      ensures Now(if r.Ok? then applied + t.plan else applied) == Land(host, old(Now(applied)), t)
      ensures r.Err? && !InManifest(host, t.plan) ==> host.checkouts(r.error.patch) == []
      ensures r.Err? && InManifest(host, t.plan) ==>
        Failure(host, old(Now(applied)), t)
        == Some(Verdict(r.error.patch, r.error.Inflight()))
    {
      LandCases(host, Now(applied), t);
      r := RunTransaction(t);
      if r.Ok? {
        committed := committed + Elements(t.plan);
      }
    }

    /** Runs the transactions one after another; a failed one leaves no trace except its error. */
    method RunTransactions(ghost w: World, ghost changes: seq<Change>, ts: seq<Transaction>, failed0: seq<Exc>)
      returns (applied: seq<Change>, failed: seq<Exc>)
      requires Valid() && w.committed == committed && forall t :: t in ts ==> PlanFor(w, t)
      modifies this`repos, this`failedTot, this`committed
      ensures Valid()
      ensures Now(applied) == LandAll(host, old(Now([])), ts)
      ensures Blamable(host, w, ts) && DistinctInducing(ts) && Accounts(changes, failed0, Inducing(ts), [])
        ==> Accounts(changes, failed, {}, applied)
      ensures failed0 <= failed && BlamedFor(host, ts, failed0, failed)
      ensures AllReported(failed, Failures(host, old(Now([])), ts))
    {
      applied, failed := [], failed0;
      ghost var start := Now([]);
      NothingRun(host, w, changes, start, ts, failed0);
      for i := 0 to |ts|
        invariant Valid() && CheckedOut(host, start.repos)
        invariant Now(applied) == LandAll(host, start, ts[..i])
        invariant IsRunning(host, w, changes, start, ts, i, failed0, applied, failed)
      {
        RunSnoc(host, start, ts, i);
        var r := CommitTransaction(ts[i], applied);
        if r.Err? {
          RunError(host, w, changes, start, ts, i, failed0, applied, failed, r.error);
          failed := failed + [r.error];
        } else {
          RunSuccess(host, w, changes, start, ts, i, failed0, applied, failed);
          applied := applied + ts[i].plan;
        }
      }
      AllRun(ts);
    }

    /** Resolves the changes into transactions, largest first unless their order is to be honored. */
    method Plan(changes: seq<Change>, frozen: bool, honorOrdering: bool)
      returns (ts: seq<Transaction>, failed: seq<Exc>, ghost w: World)
      ensures w == WorldFor(host, changes, committed, frozen, isSubmitting)
      ensures Planned(w, Fetched(host, changes), honorOrdering, ts)
      ensures NoneInflight(failed)
      ensures Answered(w, Fetched(host, changes), ts, [], failed) && UnlistedBlamed(host, changes, failed)
      ensures NoDuplicates(changes) ==> DistinctInducing(ts)
      ensures Partitionable(host, changes, committed) ==> Accounts(changes, failed, Inducing(ts), [])
    {
      var fetched;
      fetched, failed := FetchChanges(changes);
      var world := WorldOf(host, committed, if frozen then Some(Elements(fetched)) else None, isSubmitting);
      w := world;
      if Partitionable(host, changes, committed) {
        FetchedAccounts(host, changes);
      }
      ts, failed := CreateTransactions(world, changes, fetched, failed);
      StillBlamed(host, changes, failed);
      if !honorOrdering {
        ghost var resolved := ts;
        ts := SortTransactions(ts, fetched);
        SameInducing(ts, resolved);
      }
    }

    /** Resolves the changes into transactions, applies them, and reports what was applied and what
        failed, and why. */
    method Apply(changes: seq<Change>, frozen: bool, honorOrdering: bool)
      returns (applied: seq<Change>, tot: seq<Exc>, inflight: seq<Exc>, ghost w: World, ghost ts: seq<Transaction>)
      requires Valid()
      modifies this
      ensures Valid() && isSubmitting == (old(isSubmitting) || ts != [])
      ensures w == WorldFor(host, changes, old(committed), frozen, old(isSubmitting))
      ensures Planned(w, Fetched(host, changes), honorOrdering, ts)
      ensures NoDuplicates(changes) ==> DistinctInducing(ts)
      ensures var end := LandAll(host, old(Now([])), ts);
        repos == end.repos && committed == end.committed && failedTot.Keys == end.bad && applied == Uniq(end.applied)
      ensures committed == old(committed) + Elements(applied)
      ensures Replay(host, old(repos), applied) == Some(repos)
      ensures Landed(w, applied)
      ensures frozen ==> forall c :: c in applied ==> c in changes
      ensures IsReport(host, w, changes, ts,
        Failures(host, old(Now([])), ts), applied, tot, inflight)
      ensures frozen ==> AllInManifest(host, ts)
    {
      var planned, failed;
      planned, failed, w := Plan(changes, frozen, honorOrdering);
      ts := planned;
      ghost var start := Now([]);
      RunLands(host, w, start, ts, changes);
      if planned == [] {
        NothingResolved(host, w, changes, failed);
        return [], failed, [], w, ts;
      }
      if frozen {
        FrozenInManifest(host, changes, w, ts);
      }
      applied, tot, inflight := Perform(w, changes, planned, failed);
    }

    /** Applies the transactions and reports what was applied and what failed. */
    method Perform(ghost w: World, ghost changes: seq<Change>, ts: seq<Transaction>, unplanned: seq<Exc>)
      returns (applied: seq<Change>, tot: seq<Exc>, inflight: seq<Exc>)
      requires Valid() && w.committed == committed && NoneInflight(unplanned)
      requires forall t :: t in ts ==> PlanFor(w, t) && t.change in Fetched(host, changes)
      requires Answered(w, Fetched(host, changes), ts, [], unplanned) && UnlistedBlamed(host, changes, unplanned)
      requires Partitionable(host, changes, w.committed) ==>
        DistinctInducing(ts) && Accounts(changes, unplanned, Inducing(ts), [])
      modifies this
      ensures Valid() && isSubmitting
      ensures Now(applied) == LandAll(host, old(Now([])), ts).(applied := applied)
      ensures applied == Uniq(LandAll(host, old(Now([])), ts).applied)
      ensures IsReport(host, w, changes, ts, Failures(host, old(Now([])), ts), applied, tot, inflight)
    {
      ghost var start := Now([]);
      RunLands(host, w, start, ts, changes);
      var all, failed := RunTransactions(w, changes, ts, unplanned);
      applied := Uniq(all);
      isSubmitting := true;
      tot, inflight := Classify(changes, all, failed);
      ReportIsComplete(host, w, changes, ts, Failures(host, start, ts), unplanned, failed, all, tot, inflight);
    }
  }

  ghost predicate RestoredExcept(repos0: Repos, repos: Repos, todo: set<Project>) {
    repos.Keys == repos0.Keys && forall p :: p in repos0 && p !in todo ==> repos[p] == repos0[p]
  }

  lemma AllRestored(repos0: Repos, repos: Repos)
    requires RestoredExcept(repos0, repos, {})
    ensures repos == repos0
  {
  }

  /** Some of the changes are checked out in the project. */
  predicate TouchedBy(h: Host, changes: seq<Change>, p: Project) {
    exists i :: 0 <= i < |changes| && p in h.checkouts(changes[i])
  }

  /** The trees of exactly those repositories that the changes touch. */
  ghost predicate HeadsOf(h: Host, repos: Repos, changes: seq<Change>, heads: map<Project, Tree>) {
    forall p :: (p in heads <==> p in repos && TouchedBy(h, changes, p)) && (p in heads ==> heads[p] == repos[p])
  }

  lemma MoreHeads(h: Host, repos: Repos, changes: seq<Change>, i: nat, heads: map<Project, Tree>)
    requires i < |changes| && HeadsOf(h, repos, changes[..i], heads) && InRepos(h, repos, changes[i])
    ensures HeadsOf(h, repos, changes[..i + 1], heads + map p | p in h.checkouts(changes[i]) :: repos[p])
  {
    TouchedSnoc(h, changes, i);
  }

  lemma TouchedSnoc(h: Host, changes: seq<Change>, i: nat)
    requires i < |changes|
    ensures forall p ::
      TouchedBy(h, changes[..i + 1], p) <==> TouchedBy(h, changes[..i], p) || p in h.checkouts(changes[i])
  {
    forall p
      ensures TouchedBy(h, changes[..i + 1], p) <==> TouchedBy(h, changes[..i], p) || p in h.checkouts(changes[i])
    {
      assert changes[..i + 1][i] == changes[i];
      if j :| 0 <= j < i && p in h.checkouts(changes[..i][j]) {
        assert changes[..i + 1][j] == changes[..i][j];
      }
    }
  }

  lemma SameKeysCheckedOut(h: Host, a: Repos, b: Repos)
    requires CheckedOut(h, a) && a.Keys == b.Keys
    ensures CheckedOut(h, b)
  {
    forall c
      ensures InRepos(h, b, c)
    {
      assert InRepos(h, a, c);
    }
  }

  // ----- Who is blamed

  ghost predicate DistinctBlame(failed: seq<Exc>) {
    forall i, j :: 0 <= i < j < |failed| ==> failed[i].patch != failed[j].patch
  }

  ghost predicate Blames(failed: seq<Exc>, c: Change) {
    exists e :: e in failed && e.patch == c
  }

  /** Every requested change is blamed for at most one failure; those not blamed are pending or applied. */
  ghost predicate Accounts(changes: seq<Change>, failed: seq<Exc>, pending: set<Change>, applied: seq<Change>) {
    && DistinctBlame(failed)
    && (forall e :: e in failed ==> e.patch in changes && e.patch !in pending)
    && (forall c :: c in pending ==> c in changes)
    && (forall c :: c in changes ==> Blames(failed, c) || c in pending || c in applied)
  }

  /** A pending change fails. */
  lemma BlameOne(changes: seq<Change>, failed: seq<Exc>, pending: set<Change>, applied: seq<Change>, e: Exc)
    requires Accounts(changes, failed, pending, applied) && e.patch in pending
    ensures Accounts(changes, failed + [e], pending - {e.patch}, applied)
  {
    var longer := failed + [e];
    assert e in longer;
    forall c | c in changes
      ensures Blames(longer, c) || c in pending - {e.patch} || c in applied
    {
      if Blames(failed, c) {
        var x :| x in failed && x.patch == c;
        assert x in longer;
      }
    }
  }

  /** A pending change is applied, perhaps together with others. */
  lemma LandOne(changes: seq<Change>, failed: seq<Exc>, pending: set<Change>, applied: seq<Change>, c: Change,
                more: seq<Change>)
    requires Accounts(changes, failed, pending, applied) && c in more
    ensures Accounts(changes, failed, pending - {c}, applied + more)
  {
  }

  lemma ElementsAppend(a: seq<Change>, b: seq<Change>)
    ensures Elements(a + b) == Elements(a) + Elements(b)
  {
  }

  lemma NextElement(s: seq<Change>, i: nat)
    requires i < |s|
    ensures Elements(s[i..]) == {s[i]} + Elements(s[i + 1..])
    ensures NoDuplicates(s) ==> s[i] !in s[i + 1..] && s[i] !in s[..i]
    ensures forall c :: c in s[..i + 1] <==> c in s[..i] || c == s[i]
  {
    assert s[i..] == [s[i]] + s[i + 1..];
    assert s[..i + 1] == s[..i] + [s[i]];
  }

  // ----- Transactions and what they add

  /** A change that is committed already has an empty plan. */
  ghost predicate PlanFor(w: World, t: Transaction) {
    if t.change in w.committed then t.plan == [] else IsPlan(w, t.change, t.plan)
  }

  ghost predicate DistinctInducing(ts: seq<Transaction>) {
    forall i, j :: 0 <= i < j < |ts| ==> ts[i].change != ts[j].change
  }

  function Inducing(ts: seq<Transaction>): set<Change> {
    set t | t in ts :: t.change
  }

  /** Every failure of these transactions can be blamed on the inducing change, which is not committed. */
  ghost predicate Blamable(h: Host, w: World, ts: seq<Transaction>) {
    forall t :: t in ts ==> t.change !in w.committed && InManifest(h, t.plan)
  }

  lemma RunSnoc(h: Host, start: Landing, ts: seq<Transaction>, i: nat)
    requires CheckedOut(h, start.repos) && i < |ts|
    ensures LandAll(h, start, ts[..i + 1]) == Land(h, LandAll(h, start, ts[..i]), ts[i])
    ensures var last := Failure(h, LandAll(h, start, ts[..i]), ts[i]);
            Failures(h, start, ts[..i + 1]) == Failures(h, start, ts[..i]) + if last.Some? then {last.value} else {}
  {
    assert ts[..i + 1][..i] == ts[..i];
  }

  /** The requests of transactions that were not run yet. */
  ghost function Waiting(ts: seq<Transaction>, i: nat): set<Change>
    requires i <= |ts|
  {
    Inducing(ts[i..])
  }

  /** Every request of these transactions is distinct and blamable, and accounted for at the start. */
  ghost predicate AccountedFor(h: Host, w: World, changes: seq<Change>, ts: seq<Transaction>, failed0: seq<Exc>) {
    Blamable(h, w, ts) && DistinctInducing(ts) && Accounts(changes, failed0, Inducing(ts), [])
  }

  /** After `i` transactions all failures are reported, nobody else is blamed, and every request is
      accounted for. */
  ghost predicate IsRunning(h: Host, w: World, changes: seq<Change>, start: Landing, ts: seq<Transaction>, i: nat,
                            failed0: seq<Exc>, applied: seq<Change>, failed: seq<Exc>)
    requires CheckedOut(h, start.repos) && i <= |ts|
  {
    && failed0 <= failed && BlamedFor(h, ts, failed0, failed)
    && AllReported(failed, Failures(h, start, ts[..i]))
    && (AccountedFor(h, w, changes, ts, failed0) ==> Accounts(changes, failed, Waiting(ts, i), applied))
  }

  lemma NothingRun(h: Host, w: World, changes: seq<Change>, start: Landing, ts: seq<Transaction>, failed0: seq<Exc>)
    requires CheckedOut(h, start.repos)
    ensures IsRunning(h, w, changes, start, ts, 0, failed0, [], failed0)
  {
    assert ts[0..] == ts;
  }

  lemma AllRun(ts: seq<Transaction>)
    ensures ts[..|ts|] == ts && Waiting(ts, |ts|) == {}
  {
  }

  lemma RunError(h: Host, w: World, changes: seq<Change>, start: Landing, ts: seq<Transaction>, i: nat,
                 failed0: seq<Exc>, applied: seq<Change>, failed: seq<Exc>, e: Exc)
    requires CheckedOut(h, start.repos) && i < |ts|
    requires IsRunning(h, w, changes, start, ts, i, failed0, applied, failed)
    requires !InManifest(h, ts[i].plan) ==> h.checkouts(e.patch) == []
    requires InManifest(h, ts[i].plan) ==>
      Failure(h, LandAll(h, start, ts[..i]), ts[i]) == Some(Verdict(e.patch, e.Inflight()))
    ensures IsRunning(h, w, changes, start, ts, i + 1, failed0, applied, failed + [e])
  {
    assert ts[i] in ts;
    assert InManifest(h, ts[i].plan) ==> e.patch == ts[i].change;
    RunSnoc(h, start, ts, i);
    ReportOne(failed, Failures(h, start, ts[..i]), e);
    BlamedForOne(h, ts, failed0, failed, ts[i], e);
    if AccountedFor(h, w, changes, ts, failed0) {
      NextInducing(ts, i);
      BlameOne(changes, failed, Waiting(ts, i), applied, e);
    }
  }

  lemma RunSuccess(h: Host, w: World, changes: seq<Change>, start: Landing, ts: seq<Transaction>, i: nat,
                   failed0: seq<Exc>, applied: seq<Change>, failed: seq<Exc>)
    requires CheckedOut(h, start.repos) && i < |ts|
    requires IsRunning(h, w, changes, start, ts, i, failed0, applied, failed)
    requires Failure(h, LandAll(h, start, ts[..i]), ts[i]).None? && PlanFor(w, ts[i])
    ensures IsRunning(h, w, changes, start, ts, i + 1, failed0, applied + ts[i].plan, failed)
  {
    RunSnoc(h, start, ts, i);
    if AccountedFor(h, w, changes, ts, failed0) {
      NextInducing(ts, i);
      assert ts[i] in ts;
      LandOne(changes, failed, Waiting(ts, i), applied, ts[i].change, ts[i].plan);
    }
  }

  lemma ReportOne(failed: seq<Exc>, vs: set<Verdict>, e: Exc)
    requires AllReported(failed, vs)
    ensures AllReported(failed + [e], vs + {Verdict(e.patch, e.Inflight())})
  {
    var longer := failed + [e];
    assert e in longer;
    forall v | v in vs
      ensures Reported(longer, v)
    {
      var x :| x in failed && x.patch == v.blamed && x.Inflight() == v.inflight;
      assert x in longer;
    }
  }

  /** Only requests of transactions in the manifest and changes outside the manifest are blamed. */
  ghost predicate BlamedFor(h: Host, ts: seq<Transaction>, failed0: seq<Exc>, failed: seq<Exc>) {
    forall e :: e in failed ==>
      e in failed0 || h.checkouts(e.patch) == [] || exists t :: t in ts && t.change == e.patch && InManifest(h, t.plan)
  }

  lemma BlamedForOne(h: Host, ts: seq<Transaction>, failed0: seq<Exc>, failed: seq<Exc>, t: Transaction, e: Exc)
    requires BlamedFor(h, ts, failed0, failed) && t in ts
    requires if InManifest(h, t.plan) then e.patch == t.change else h.checkouts(e.patch) == []
    ensures BlamedFor(h, ts, failed0, failed + [e])
  {
  }

  ghost predicate FromPlans(applied: seq<Change>, ts: seq<Transaction>) {
    forall c :: c in applied ==> exists t :: t in ts && c in t.plan
  }

  lemma SameInducing(a: seq<Transaction>, b: seq<Transaction>)
    requires forall t :: t in a <==> t in b
    ensures Inducing(a) == Inducing(b)
  {
  }

  lemma InducingOf(ts: seq<Transaction>, c: Change)
    requires forall t :: t in ts ==> t.change != c
    ensures c !in Inducing(ts)
  {
  }

  /** The changes whose outcome is open: those with a transaction and those still to be looked at. */
  ghost function Pending(resolved: seq<Transaction>, todo: seq<Change>): set<Change> {
    Inducing(resolved) + Elements(todo)
  }

  lemma AllCreated(resolved: seq<Transaction>, fetched: seq<Change>)
    ensures fetched[..|fetched|] == fetched && Pending(resolved, fetched[|fetched|..]) == Inducing(resolved)
  {
  }

  /** The next change either gets a transaction or is blamed. */
  lemma CreateOne(fetched: seq<Change>, i: nat, resolved: seq<Transaction>, t: Transaction)
    requires NoDuplicates(fetched) && i < |fetched| && t.change == fetched[i]
    requires DistinctInducing(resolved) && forall x :: x in resolved ==> x.change in fetched[..i]
    ensures t.change in Pending(resolved, fetched[i..])
    ensures Pending(resolved, fetched[i..]) - {t.change} == Pending(resolved, fetched[i + 1..])
    ensures Pending(resolved + [t], fetched[i + 1..]) == Pending(resolved, fetched[i..])
    ensures DistinctInducing(resolved + [t])
  {
    NextElement(fetched, i);
    InducingSnoc(resolved, t);
    forall x | x in resolved
      ensures x.change != t.change
    {
      assert x.change in fetched[..i];
    }
    InducingOf(resolved, t.change);
    forall j | 0 <= j < |resolved|
      ensures resolved[j].change != t.change
    {
      assert resolved[j] in resolved;
    }
  }

  lemma InducingSnoc(ts: seq<Transaction>, t: Transaction)
    ensures Inducing(ts + [t]) == Inducing(ts) + {t.change}
  {
  }

  lemma NextInducing(ts: seq<Transaction>, i: nat)
    requires i < |ts|
    ensures Inducing(ts[i..]) == {ts[i].change} + Inducing(ts[i + 1..])
    ensures DistinctInducing(ts) ==> Inducing(ts[i..]) - {ts[i].change} == Inducing(ts[i + 1..])
  {
    assert ts[i..] == [ts[i]] + ts[i + 1..];
    if DistinctInducing(ts) {
      forall t | t in ts[i + 1..]
        ensures t.change != ts[i].change
      {
        var j :| 0 <= j < |ts[i + 1..]| && ts[i + 1..][j] == t;
        assert ts[i + 1 + j] == t;
      }
    }
  }

  /** First occurrences only, in order. */
  function Uniq(s: seq<Change>): (r: seq<Change>)
    ensures NoDuplicates(r) && forall c :: c in r <==> c in s
  {
    if s == [] then []
    else
      var n := |s| - 1;
      assert s == s[..n] + [s[n]];
      if s[n] in s[..n] then Uniq(s[..n]) else Uniq(s[..n]) + [s[n]]
  }

  lemma {:induction false} UniqAppend(a: seq<Change>, b: seq<Change>)
    requires NoDuplicates(b)
    ensures Uniq(a + b) == Uniq(a) + NotIn(b, Elements(a))
    decreases |b|
  {
    if b == [] {
      assert a + b == a;
    } else {
      var n := |b| - 1;
      assert (a + b)[..|a + b| - 1] == a + b[..n];
      assert b[n] !in b[..n];
      UniqAppend(a, b[..n]);
    }
  }

  /** Changes that `none` does not contain are left out because of `some` only. */
  lemma {:induction false} NotInOthers(changes: seq<Change>, none: set<Change>, some: set<Change>)
    requires forall c :: c in changes ==> c !in none
    ensures NotIn(changes, none + some) == NotIn(changes, some)
    decreases |changes|
  {
    if changes != [] {
      NotInOthers(changes[..|changes| - 1], none, some);
    }
  }

  /** The applied changes: distinct, uncommitted before, closed under needs, and in order. */
  ghost predicate Landed(w: World, applied: seq<Change>) {
    && NoDuplicates(applied) && Ordered(w, applied)
    && (forall c :: c in applied ==> c !in w.committed && ClosedAt(w, applied, c))
  }

  lemma PlanIsUncommitted(w: World, t: Transaction)
    requires PlanFor(w, t)
    ensures NoDuplicates(t.plan) && forall c :: c in t.plan ==> c !in w.committed
  {
    forall c | c in t.plan
      ensures c !in w.committed
    {
      if c != t.change {
        PlanIsAllowed(w, t.change, t.plan, c);
      }
    }
  }

  /** Appending the part of a plan that has not landed yet keeps the order. */
  lemma {:induction false} OrderedAppend(w: World, before: seq<Change>, plan: seq<Change>)
    requires Ordered(w, before) && Ordered(w, plan)
    ensures Ordered(w, before + NotIn(plan, Elements(before)))
    decreases |plan|
  {
    if plan == [] {
      assert before + NotIn(plan, Elements(before)) == before;
    } else {
      var n := |plan| - 1;
      var init, last := plan[..n], plan[n];
      OrderedPrefix(w, plan, n);
      OrderedAppend(w, before, init);
      var longer := before + NotIn(init, Elements(before));
      if last !in before {
        assert before + NotIn(plan, Elements(before)) == longer + [last];
        assert OnCycle(DepGraph(w), plan[n]) || NeededBefore(w, plan, n);
        OrderedSnoc(w, longer, last);
      }
    }
  }

  lemma OrderedPrefix(w: World, plan: seq<Change>, n: nat)
    requires Ordered(w, plan) && n <= |plan|
    ensures Ordered(w, plan[..n])
  {
    var init := plan[..n];
    forall i | 0 <= i < n
      ensures OnCycle(DepGraph(w), init[i]) || NeededBefore(w, init, i)
    {
      assert init[..i] == plan[..i];
      assert OnCycle(DepGraph(w), plan[i]) || NeededBefore(w, plan, i);
    }
  }

  /** A successful transaction extends what has landed, although it may share changes with earlier ones. */
  lemma LandPlan(w: World, applied: seq<Change>, t: Transaction)
    requires Landed(w, Uniq(applied)) && PlanFor(w, t)
    ensures Uniq(applied + t.plan) == Uniq(applied) + NotIn(t.plan, Elements(applied))
    ensures Landed(w, Uniq(applied + t.plan))
    ensures forall c :: c in t.plan ==> c !in w.committed
  {
    PlanIsUncommitted(w, t);
    UniqAppend(applied, t.plan);
    assert Elements(Uniq(applied)) == Elements(applied);
    OrderedAppend(w, Uniq(applied), t.plan);
    var landed := Uniq(applied + t.plan);
    forall c | c in landed
      ensures ClosedAt(w, landed, c)
    {
      assert ClosedAt(w, if c in applied then Uniq(applied) else t.plan, c);
    }
  }

  /** What holds after any number of transactions on top of `start`. */
  ghost predicate Consistent(h: Host, w: World, start: Landing, s: Landing, ts: seq<Transaction>)
    requires CheckedOut(h, start.repos)
  {
    && s.committed == start.committed + Elements(s.applied)
    && Replay(h, start.repos, Uniq(s.applied)) == Some(s.repos)
    && Landed(w, Uniq(s.applied)) && FromPlans(s.applied, ts) && InManifest(h, s.applied)
  }

  /** However many transactions run, sharing changes or not, succeeding or not: the repositories are
      the initial ones with exactly the applied changes replayed once each, in order. */
  lemma {:induction false} EveryRunLands(h: Host, w: World, start: Landing, ts: seq<Transaction>)
    requires CheckedOut(h, start.repos) && start.applied == [] && start.committed == w.committed
    requires forall t :: t in ts ==> PlanFor(w, t)
    ensures Consistent(h, w, start, LandAll(h, start, ts), ts)
    decreases |ts|
  {
    if ts != [] {
      var init, t := ts[..|ts| - 1], ts[|ts| - 1];
      EveryRunLands(h, w, start, init);
      assert t in ts;
      TransactionLands(h, w, start, LandAll(h, start, init), init, t);
      FromMorePlans(LandAll(h, start, ts).applied, init + [t], ts);
    }
  }

  lemma TransactionLands(h: Host, w: World, start: Landing, s: Landing, ts: seq<Transaction>, t: Transaction)
    requires CheckedOut(h, start.repos) && CheckedOut(h, s.repos) && start.committed == w.committed
    requires Consistent(h, w, start, s, ts) && PlanFor(w, t)
    ensures Consistent(h, w, start, Land(h, s, t), ts + [t])
  {
    FromMorePlans(s.applied, ts, ts + [t]);
    LandCases(h, s, t);
    if Succeeds(h, s.repos, s.committed, s.bad, t) {
      LandPlan(w, s.applied, t);
      ReplayLands(h, w, start, s, t);
      ElementsAppend(s.applied, t.plan);
      assert t in ts + [t];
      assert FromPlans(s.applied + t.plan, ts + [t]);
    }
  }

  lemma LandCases(h: Host, s: Landing, t: Transaction)
    requires CheckedOut(h, s.repos)
    ensures var landed := Land(h, s, t);
      if Succeeds(h, s.repos, s.committed, s.bad, t) then
        Replay(h, s.repos, NotIn(t.plan, s.committed)) == Some(landed.repos) && landed.bad == s.bad &&
        landed.committed == s.committed + Elements(t.plan) && landed.applied == s.applied + t.plan
      else landed == s.(bad := landed.bad)
  {
  }

  lemma ReplayLands(h: Host, w: World, start: Landing, s: Landing, t: Transaction)
    requires CheckedOut(h, start.repos) && CheckedOut(h, s.repos) && start.committed == w.committed
    requires s.committed == start.committed + Elements(s.applied) && PlanFor(w, t)
    requires Replay(h, start.repos, Uniq(s.applied)) == Some(s.repos) && Landed(w, Uniq(s.applied))
    ensures Replay(h, start.repos, Uniq(s.applied + t.plan)) == Replay(h, s.repos, NotIn(t.plan, s.committed))
  {
    LandPlan(w, s.applied, t);
    NotInOthers(t.plan, w.committed, Elements(s.applied));
    ReplayAppend(h, start.repos, Uniq(s.applied), NotIn(t.plan, Elements(s.applied)));
  }

  lemma FromMorePlans(applied: seq<Change>, ts: seq<Transaction>, more: seq<Transaction>)
    requires FromPlans(applied, ts) && forall t :: t in ts ==> t in more
    ensures FromPlans(applied, more)
  {
  }

  // ----- Which changes land, in terms of single patches

  /** The changes before the `k`-th replay, and the `k`-th is `c` and fails against the tip of the tree. */
  ghost predicate FailsFirst(h: Host, repos: Repos, changes: seq<Change>, k: nat, c: Change)
    requires CheckedOut(h, repos)
  {
    && k < |changes| && changes[k] == c && Replay(h, repos, changes[..k]).Some?
    && InRepos(h, Replay(h, repos, changes[..k]).value, c)
    && ApplyTo(h, Replay(h, repos, changes[..k]).value, c, h.checkouts(c)).1 == Some(false)
  }

  /** A culprit is the first change that does not apply and fails against the tip of the tree. */
  lemma {:induction false} CulpritFailed(h: Host, repos: Repos, changes: seq<Change>, c: Change) returns (k: nat)
    requires CheckedOut(h, repos) && c in Culprit(h, repos, changes)
    ensures FailsFirst(h, repos, changes, k, c)
    decreases |changes|
  {
    var n := |changes| - 1;
    if Replay(h, repos, changes[..n]).None? {
      k := CulpritFailed(h, repos, changes[..n], c);
      assert changes[..n][..k] == changes[..k];
    } else {
      k := n;
      assert InRepos(h, Replay(h, repos, changes[..n]).value, changes[n]);
    }
  }

  /** And the first change that does not apply is the culprit if it fails like that. */
  lemma {:induction false} FailedIsCulprit(h: Host, repos: Repos, changes: seq<Change>, c: Change, k: nat)
    requires CheckedOut(h, repos) && FailsFirst(h, repos, changes, k, c)
    ensures c in Culprit(h, repos, changes) && Replay(h, repos, changes).None?
    decreases |changes|
  {
    var n := |changes| - 1;
    assert changes == changes[..n] + [changes[n]];
    CulpritSnoc(h, repos, changes[..n], changes[n]);
    if k < n {
      FailsEarlier(h, repos, changes, n, c, k);
      FailedIsCulprit(h, repos, changes[..n], c, k);
      ReplayStops(h, repos, changes[..n], changes[n]);
    } else {
      ReplaySnoc(h, repos, changes[..n], c);
    }
  }

  lemma FailsEarlier(h: Host, repos: Repos, changes: seq<Change>, n: nat, c: Change, k: nat)
    requires CheckedOut(h, repos) && k < n <= |changes| && FailsFirst(h, repos, changes, k, c)
    ensures FailsFirst(h, repos, changes[..n], k, c)
  {
    assert changes[..n][..k] == changes[..k];
  }

  /** The change fails in some checkout, whatever is checked out there. */
  ghost predicate AlwaysFails(h: Host, c: Change) {
    exists p :: p in h.checkouts(c) && forall tree :: h.patch(c, p, tree).1.Some?
  }

  ghost predicate NothingFails(h: Host) {
    forall c, p, tree :: h.patch(c, p, tree).1.None?
  }

  lemma {:induction false} ApplyFails(h: Host, repos: Repos, c: Change, projects: seq<Project>, p: Project)
    requires (forall q :: q in projects ==> q in repos) && p in projects && forall tree :: h.patch(c, p, tree).1.Some?
    ensures ApplyTo(h, repos, c, projects).1.Some?
    decreases |projects|
  {
    var (tree, failure) := h.patch(c, projects[0], repos[projects[0]]);
    if failure.None? {
      assert projects == [projects[0]] + projects[1..];
      ApplyFails(h, repos[projects[0] := tree], c, projects[1..], p);
    }
  }

  lemma {:induction false} ApplySucceeds(h: Host, repos: Repos, c: Change, projects: seq<Project>)
    requires (forall q :: q in projects ==> q in repos) && NothingFails(h)
    ensures ApplyTo(h, repos, c, projects).1.None?
    decreases |projects|
  {
    if projects != [] {
      var (tree, failure) := h.patch(c, projects[0], repos[projects[0]]);
      ApplySucceeds(h, repos[projects[0] := tree], c, projects[1..]);
    }
  }

  lemma {:induction false} ReplayFails(h: Host, repos: Repos, changes: seq<Change>, c: Change)
    requires CheckedOut(h, repos) && c in changes && AlwaysFails(h, c)
    ensures Replay(h, repos, changes).None?
    decreases |changes|
  {
    var n := |changes| - 1;
    assert changes == changes[..n] + [changes[n]];
    if c in changes[..n] {
      ReplayFails(h, repos, changes[..n], c);
    } else if Replay(h, repos, changes[..n]).Some? {
      var p :| p in h.checkouts(c) && forall tree :: h.patch(c, p, tree).1.Some?;
      assert InRepos(h, Replay(h, repos, changes[..n]).value, c);
      ApplyFails(h, Replay(h, repos, changes[..n]).value, c, h.checkouts(c), p);
    }
  }

  lemma {:induction false} ReplaySucceeds(h: Host, repos: Repos, changes: seq<Change>)
    requires CheckedOut(h, repos) && NothingFails(h)
    ensures Replay(h, repos, changes).Some?
    decreases |changes|
  {
    if changes != [] {
      var n := |changes| - 1;
      ReplaySucceeds(h, repos, changes[..n]);
      assert InRepos(h, Replay(h, repos, changes[..n]).value, changes[n]);
      ApplySucceeds(h, Replay(h, repos, changes[..n]).value, changes[n], h.checkouts(changes[n]));
    }
  }

  /** A change that always fails, or is known to be bad, is never applied. */
  lemma {:induction false} FailingNeverLands(h: Host, s: Landing, ts: seq<Transaction>, c: Change)
    requires CheckedOut(h, s.repos) && c !in s.committed && c !in s.applied
    requires AlwaysFails(h, c) || c in s.bad
    ensures c !in LandAll(h, s, ts).applied && c !in LandAll(h, s, ts).committed
    ensures c in s.bad ==> c in LandAll(h, s, ts).bad
    decreases |ts|
  {
    if ts != [] {
      var n := |ts| - 1;
      var before := LandAll(h, s, ts[..n]);
      FailingNeverLands(h, s, ts[..n], c);
      LandCases(h, before, ts[n]);
      if c in ts[n].plan && AlwaysFails(h, c) {
        ReplayFails(h, before.repos, NotIn(ts[n].plan, before.committed), c);
      }
    }
  }

  /** When no patch ever fails, nothing is known to be bad and everything is in the manifest, all
      transactions are applied. */
  lemma {:induction false} CleanRunLandsAll(h: Host, s: Landing, ts: seq<Transaction>)
    requires CheckedOut(h, s.repos) && NothingFails(h) && s.bad == {} && AllInManifest(h, ts)
    ensures LandAll(h, s, ts).bad == {}
    ensures forall t, c :: t in ts && c in t.plan ==> c in LandAll(h, s, ts).applied
    decreases |ts|
  {
    if ts != [] {
      var n := |ts| - 1;
      var before := LandAll(h, s, ts[..n]);
      assert ts == ts[..n] + [ts[n]];
      CleanRunLandsAll(h, s, ts[..n]);
      ReplaySucceeds(h, before.repos, NotIn(ts[n].plan, before.committed));
      assert ts[n] in ts;
      LandCases(h, before, ts[n]);
    }
  }

  /** In a replay every change is applied in each of its checkouts, on top of the changes before it. */
  lemma {:induction false} ReplayPatches(h: Host, repos: Repos, changes: seq<Change>, i: nat)
    requires CheckedOut(h, repos) && Replay(h, repos, changes).Some?
    requires i < |changes| && NoDuplicates(h.checkouts(changes[i]))
    ensures Replay(h, repos, changes[..i]).Some? && Replay(h, repos, changes[..i + 1]).Some?
    ensures PatchedAll(h, Replay(h, repos, changes[..i]).value, changes[i], h.checkouts(changes[i]),
                       Replay(h, repos, changes[..i + 1]).value)
    decreases |changes|
  {
    var n := |changes| - 1;
    if i < n {
      assert changes[..n][..i] == changes[..i] && changes[..n][..i + 1] == changes[..i + 1];
      ReplayPatches(h, repos, changes[..n], i);
    } else {
      assert changes[..i + 1] == changes;
      var before := Replay(h, repos, changes[..n]).value;
      assert InRepos(h, before, changes[n]);
      ApplyToMeans(h, before, changes[n], h.checkouts(changes[n]));
    }
  }

  // ----- What is planned

  /** The change belongs to a helper of this builder and to its manifest. */
  predicate Visible(h: Host, c: Change) {
    h.hasHelper(c) && h.checkouts(c) != []
  }

  /** The changes this builder can see, in order. */
  function Fetched(h: Host, changes: seq<Change>): (r: seq<Change>)
    ensures forall c :: c in r <==> c in changes && h.hasHelper(c) && h.checkouts(c) != []
    ensures NoDuplicates(changes) ==> NoDuplicates(r)
  {
    if changes == [] then []
    else
      var n := |changes| - 1;
      assert changes == changes[..n] + [changes[n]];
      if Visible(h, changes[n]) then Fetched(h, changes[..n]) + [changes[n]] else Fetched(h, changes[..n])
  }

  /** The fetched changes are in the order of the requests. */
  lemma {:induction false} FetchedAppend(h: Host, a: seq<Change>, b: seq<Change>)
    ensures Fetched(h, a + b) == Fetched(h, a) + Fetched(h, b)
    decreases |b|
  {
    if b == [] {
      assert a + b == a;
    } else {
      var n := |b| - 1;
      assert (a + b)[..|a + b| - 1] == a + b[..n];
      FetchedAppend(h, a, b[..n]);
    }
  }

  predicate IsUnlisted(h: Host, c: Change) {
    h.hasHelper(c) && h.checkouts(c) == []
  }

  /** The errors for changes of this builder that are not in its manifest, in order. */
  function Unlisted(h: Host, changes: seq<Change>): (r: seq<Exc>)
    ensures forall e :: e in r ==> e.patch in changes && IsUnlisted(h, e.patch) && !e.Inflight()
    ensures forall c :: c in changes && IsUnlisted(h, c) ==> Blames(r, c)
    ensures NoDuplicates(changes) ==> DistinctBlame(r)
  {
    if changes == [] then []
    else
      var n := |changes| - 1;
      assert changes == changes[..n] + [changes[n]];
      var before := Unlisted(h, changes[..n]);
      if IsUnlisted(h, changes[n]) then
        var e := PatchException(changes[n], false, NotInManifest);
        assert forall x :: x in before + [e] <==> x in before || x == e;
        before + [e]
      else before
  }

  lemma FetchedAccounts(h: Host, changes: seq<Change>)
    requires NoDuplicates(changes) && forall c :: c in changes ==> h.hasHelper(c)
    ensures Accounts(changes, Unlisted(h, changes), Elements(Fetched(h, changes)), [])
  {
    forall c | c in changes
      ensures Blames(Unlisted(h, changes), c) || c in Elements(Fetched(h, changes))
    {
      assert IsUnlisted(h, c) || Visible(h, c);
    }
  }

  lemma FetchedSnoc(h: Host, changes: seq<Change>, i: nat)
    requires i < |changes|
    ensures Fetched(h, changes[..i + 1])
         == Fetched(h, changes[..i]) + if Visible(h, changes[i]) then [changes[i]] else []
    ensures Unlisted(h, changes[..i + 1])
         == Unlisted(h, changes[..i])
          + if IsUnlisted(h, changes[i]) then [PatchException(changes[i], false, NotInManifest)] else []
  {
    assert changes[..i + 1][..i] == changes[..i];
  }

  /** In frozen mode only the fetched changes may be pulled in. */
  function WorldFor(h: Host, changes: seq<Change>, committed: set<Change>, frozen: bool, submitting: bool): (w: World)
    ensures w.deps == h.deps && w.hasHelper == h.hasHelper && w.find == h.find && w.merged == h.merged
    ensures w.accepts == h.accepts && w.committed == committed && w.submitting == submitting
    ensures w.limitTo.Some? == frozen
    ensures frozen ==> forall c :: c in w.limitTo.value <==> c in changes && h.hasHelper(c) && h.checkouts(c) != []
  {
    WorldOf(h, committed, if frozen then Some(Elements(Fetched(h, changes))) else None, submitting)
  }

  /** The inducing changes are some of the given ones, in the given order. */
  ghost predicate Follows(ts: seq<Transaction>, changes: seq<Change>)
    decreases |changes|
  {
    if ts == [] then true
    else if changes == [] then false
    else
      var n, m := |changes| - 1, |ts| - 1;
      Follows(ts, changes[..n]) || (ts[m].change == changes[n] && Follows(ts[..m], changes[..n]))
  }

  lemma FollowsSnoc(ts: seq<Transaction>, changes: seq<Change>, i: nat, t: Transaction)
    requires i < |changes| && Follows(ts, changes[..i])
    ensures Follows(ts, changes[..i + 1])
    ensures t.change == changes[i] ==> Follows(ts + [t], changes[..i + 1])
  {
    assert changes[..i + 1][..i] == changes[..i];
    assert (ts + [t])[..|ts|] == ts;
  }

  /** The change cannot be planned: something it reaches is unresolvable or too far away. */
  ghost predicate Unplannable(w: World, c: Change) {
    c !in w.committed && (Stuck(w, c) || LongChain(w, c))
  }

  /** The change is blamed for an error that explains why it has no plan. */
  ghost predicate Refused(w: World, failed: seq<Exc>, c: Change) {
    exists e :: e in failed && e.patch == c && Explains(w, c, e)
  }

  /** Every change has a transaction, or else it cannot be planned and is blamed for that, unless
      another transaction applied it. */
  ghost predicate Answered(
    w: World, changes: seq<Change>, ts: seq<Transaction>, applied: seq<Change>, failed: seq<Exc>)
  {
    forall c :: c in changes ==> c in Inducing(ts) || (Unplannable(w, c) && (c in applied || Refused(w, failed, c)))
  }

  ghost predicate UnlistedBlamed(h: Host, changes: seq<Change>, failed: seq<Exc>) {
    forall c :: c in changes && IsUnlisted(h, c) ==> Blames(failed, c)
  }

  /** Transactions and errors for these changes, on top of earlier errors. */
  ghost predicate IsCreated(w: World, fetched: seq<Change>, ts: seq<Transaction>, failed0: seq<Exc>, failed: seq<Exc>) {
    && PlansFor(w, fetched, ts) && Follows(ts, fetched)
    && failed0 <= failed && Answered(w, fetched, ts, [], failed)
    && (NoneInflight(failed0) ==> NoneInflight(failed))
  }

  ghost predicate PlansFor(w: World, fetched: seq<Change>, ts: seq<Transaction>) {
    forall t :: t in ts ==> PlanFor(w, t) && t.change in fetched
  }

  ghost predicate NoneInflight(failed: seq<Exc>) {
    forall e :: e in failed ==> !e.Inflight()
  }

  lemma NothingCreated(w: World, changes: seq<Change>, fetched: seq<Change>, failed0: seq<Exc>)
    ensures IsCreated(w, fetched[..0], [], failed0, failed0) && IsTidy(changes, fetched, 0, [], failed0, failed0)
  {
    assert fetched[0..] == fetched;
    assert Pending([], fetched) == Elements(fetched);
  }

  lemma CreatedPlan(w: World, fetched: seq<Change>, i: nat, ts: seq<Transaction>, failed0: seq<Exc>, failed: seq<Exc>,
                    t: Transaction)
    requires i < |fetched| && IsCreated(w, fetched[..i], ts, failed0, failed)
    requires t.change == fetched[i] && PlanFor(w, t)
    ensures IsCreated(w, fetched[..i + 1], ts + [t], failed0, failed)
  {
    PlansSnoc(w, fetched, i, ts, t);
    FollowsSnoc(ts, fetched, i, t);
    AnsweredSnoc(w, fetched, i, ts, failed, t);
  }

  lemma PlansSnoc(w: World, fetched: seq<Change>, i: nat, ts: seq<Transaction>, t: Transaction)
    requires i < |fetched| && PlansFor(w, fetched[..i], ts)
    ensures PlansFor(w, fetched[..i + 1], ts)
    ensures t.change == fetched[i] && PlanFor(w, t) ==> PlansFor(w, fetched[..i + 1], ts + [t])
  {
    NextElement(fetched, i);
  }

  lemma AnsweredSnoc(w: World, fetched: seq<Change>, i: nat, ts: seq<Transaction>, failed: seq<Exc>, t: Transaction)
    requires i < |fetched| && Answered(w, fetched[..i], ts, [], failed) && t.change == fetched[i]
    ensures Answered(w, fetched[..i + 1], ts + [t], [], failed)
  {
    NextElement(fetched, i);
    InducingSnoc(ts, t);
  }

  lemma CreatedError(w: World, fetched: seq<Change>, i: nat, ts: seq<Transaction>, failed0: seq<Exc>, failed: seq<Exc>,
                     e: Exc)
    requires i < |fetched| && IsCreated(w, fetched[..i], ts, failed0, failed)
    requires e.patch == fetched[i] && e.patch !in w.committed && Explains(w, e.patch, e) && !e.Inflight()
    ensures IsCreated(w, fetched[..i + 1], ts, failed0, failed + [e])
  {
    PlansSnoc(w, fetched, i, ts, Transaction("", []));
    FollowsSnoc(ts, fetched, i, Transaction("", []));
    AnsweredByError(w, fetched, i, ts, failed, e);
  }

  lemma AnsweredByError(w: World, fetched: seq<Change>, i: nat, ts: seq<Transaction>, failed: seq<Exc>, e: Exc)
    requires i < |fetched| && Answered(w, fetched[..i], ts, [], failed)
    requires e.patch == fetched[i] && e.patch !in w.committed && Explains(w, e.patch, e)
    ensures Answered(w, fetched[..i + 1], ts, [], failed + [e])
  {
    NextElement(fetched, i);
    var longer := failed + [e];
    assert e in longer;
    forall c | Refused(w, failed, c)
      ensures Refused(w, longer, c)
    {
      var x :| x in failed && x.patch == c && Explains(w, c, x);
      assert x in longer;
    }
  }

  /** For distinct changes: distinct transactions so far, and every change accounted for. */
  ghost predicate IsTidy(
    changes: seq<Change>, fetched: seq<Change>, i: nat, ts: seq<Transaction>, failed0: seq<Exc>, failed: seq<Exc>)
    requires i <= |fetched|
  {
    NoDuplicates(fetched) ==>
      && DistinctInducing(ts) && (forall t :: t in ts ==> t.change in fetched[..i])
      && (Accounts(changes, failed0, Elements(fetched), []) ==>
            Accounts(changes, failed, Pending(ts, fetched[i..]), []))
  }

  lemma TidyPlan(changes: seq<Change>, fetched: seq<Change>, i: nat, ts: seq<Transaction>, failed0: seq<Exc>,
                 failed: seq<Exc>, t: Transaction)
    requires i < |fetched| && IsTidy(changes, fetched, i, ts, failed0, failed) && t.change == fetched[i]
    ensures IsTidy(changes, fetched, i + 1, ts + [t], failed0, failed)
  {
    if NoDuplicates(fetched) {
      NextElement(fetched, i);
      CreateOne(fetched, i, ts, t);
    }
  }

  lemma TidyError(changes: seq<Change>, fetched: seq<Change>, i: nat, ts: seq<Transaction>, failed0: seq<Exc>,
                  failed: seq<Exc>, e: Exc)
    requires i < |fetched| && IsTidy(changes, fetched, i, ts, failed0, failed) && e.patch == fetched[i]
    ensures IsTidy(changes, fetched, i + 1, ts, failed0, failed + [e])
  {
    if NoDuplicates(fetched) {
      NextElement(fetched, i);
      CreateOne(fetched, i, ts, Transaction(fetched[i], []));
      if Accounts(changes, failed0, Elements(fetched), []) {
        BlameOne(changes, failed, Pending(ts, fetched[i..]), [], e);
      }
    }
  }

  lemma StillBlamed(h: Host, changes: seq<Change>, failed: seq<Exc>)
    requires Unlisted(h, changes) <= failed
    ensures UnlistedBlamed(h, changes, failed)
  {
    forall c | c in changes && IsUnlisted(h, c)
      ensures Blames(failed, c)
    {
      var e :| e in Unlisted(h, changes) && e.patch == c;
      assert e in failed;
    }
  }

  /** Transactions for fetched changes: in their order, or largest first. */
  ghost predicate Planned(w: World, fetched: seq<Change>, honorOrdering: bool, ts: seq<Transaction>) {
    && (forall t :: t in ts ==> PlanFor(w, t) && t.change in fetched)
    && (if honorOrdering then Follows(ts, fetched) else SortedBy(ts, LastPositions(fetched)))
  }

  // ----- Order of transactions

  /** Longer plans first, ties in the order in which the changes were given. */
  predicate Precedes(a: Transaction, b: Transaction, position: map<Change, nat>) {
    |a.plan| > |b.plan| || (|a.plan| == |b.plan| && Rank(a, position) <= Rank(b, position))
  }

  function Rank(t: Transaction, position: map<Change, nat>): nat {
    if t.change in position then position[t.change] else 0
  }

  ghost predicate SortedBy(ts: seq<Transaction>, position: map<Change, nat>) {
    forall i, j :: 0 <= i < j < |ts| ==> Precedes(ts[i], ts[j], position)
  }

  method SortTransactions(resolved: seq<Transaction>, changes: seq<Change>) returns (sorted: seq<Transaction>)
    ensures multiset(sorted) == multiset(resolved) && SortedBy(sorted, LastPositions(changes))
    ensures forall t :: t in sorted <==> t in resolved
    ensures DistinctInducing(resolved) ==> DistinctInducing(sorted)
  {
    sorted := [];
    var position := LastPositions(changes);
    for i := 0 to |resolved|
      invariant Arranged(sorted, resolved[..i], position)
    {
      var k := InsertionPoint(sorted, resolved[i], position);
      InsertArranged(sorted, k, resolved, i, position);
      sorted := sorted[..k] + [resolved[i]] + sorted[k..];
    }
    assert resolved[..|resolved|] == resolved;
  }

  /** Sorted transactions never grow, and equally large ones keep the order of the requests. */
  lemma LargestFirst(ts: seq<Transaction>, fetched: seq<Change>, i: nat, j: nat) returns (a: nat, b: nat)
    requires SortedBy(ts, LastPositions(fetched)) && i < j < |ts|
    requires ts[i].change in fetched && ts[j].change in fetched
    ensures |ts[i].plan| >= |ts[j].plan|
    ensures a < |fetched| && b < |fetched| && fetched[a] == ts[i].change && fetched[b] == ts[j].change
    ensures |ts[i].plan| == |ts[j].plan| ==> a <= b
  {
    assert Precedes(ts[i], ts[j], LastPositions(fetched));
    a, b := LastPositions(fetched)[ts[i].change], LastPositions(fetched)[ts[j].change];
  }

  /** A sorted permutation. */
  ghost predicate Arranged(sorted: seq<Transaction>, ts: seq<Transaction>, position: map<Change, nat>) {
    && SortedBy(sorted, position) && multiset(sorted) == multiset(ts)
    && (forall t :: t in sorted <==> t in ts)
    && (DistinctInducing(ts) ==> DistinctInducing(sorted))
  }

  lemma InsertArranged(sorted: seq<Transaction>, k: nat, ts: seq<Transaction>, i: nat, position: map<Change, nat>)
    requires i < |ts| && k <= |sorted| && Arranged(sorted, ts[..i], position)
    requires k > 0 ==> Precedes(sorted[k - 1], ts[i], position)
    requires forall j :: k <= j < |sorted| ==> !Precedes(sorted[j], ts[i], position)
    ensures Arranged(sorted[..k] + [ts[i]] + sorted[k..], ts[..i + 1], position)
  {
    assert ts[..i + 1] == ts[..i] + [ts[i]];
    InsertSorted(sorted, k, ts[i], position);
    InsertMembers(sorted, k, ts[i]);
    if DistinctInducing(ts[..i + 1]) {
      assert DistinctInducing(ts[..i]) by { assert forall j :: 0 <= j < i ==> ts[..i][j] == ts[..i + 1][j]; }
      InsertDistinct(ts[..i + 1], i, sorted, k);
    }
  }

  method InsertionPoint(sorted: seq<Transaction>, t: Transaction, position: map<Change, nat>) returns (k: nat)
    ensures k <= |sorted| && (k > 0 ==> Precedes(sorted[k - 1], t, position))
    ensures forall j :: k <= j < |sorted| ==> !Precedes(sorted[j], t, position)
  {
    k := |sorted|;
    while k > 0 && !Precedes(sorted[k - 1], t, position)
      invariant 0 <= k <= |sorted|
      invariant forall j :: k <= j < |sorted| ==> !Precedes(sorted[j], t, position)
    {
      k := k - 1;
    }
  }

  function LastPositions(changes: seq<Change>): (r: map<Change, nat>)
    ensures forall c :: c in r <==> c in changes
    ensures forall c :: c in r ==> r[c] < |changes| && changes[r[c]] == c
  {
    if changes == [] then map[]
    else
      var n := |changes| - 1;
      assert changes == changes[..n] + [changes[n]];
      LastPositions(changes[..n])[changes[n] := n]
  }

  lemma InsertSorted(sorted: seq<Transaction>, k: nat, t: Transaction, position: map<Change, nat>)
    requires SortedBy(sorted, position) && k <= |sorted|
    requires k > 0 ==> Precedes(sorted[k - 1], t, position)
    requires forall j :: k <= j < |sorted| ==> !Precedes(sorted[j], t, position)
    ensures SortedBy(sorted[..k] + [t] + sorted[k..], position)
  {
    forall i | 0 <= i < k
      ensures Precedes(sorted[i], t, position)
    {
      assert i < k - 1 ==> Precedes(sorted[i], sorted[k - 1], position);
    }
    var longer := sorted[..k] + [t] + sorted[k..];
    forall i, j | 0 <= i < j < |longer|
      ensures Precedes(longer[i], longer[j], position)
    {
      assert longer[i] == if i < k then sorted[i] else if i == k then t else sorted[i - 1];
      assert longer[j] == if j < k then sorted[j] else if j == k then t else sorted[j - 1];
    }
  }

  lemma InsertMembers(sorted: seq<Transaction>, k: nat, t: Transaction)
    requires k <= |sorted|
    ensures var longer := sorted[..k] + [t] + sorted[k..];
      multiset(longer) == multiset(sorted) + multiset{t} && forall x :: x in longer <==> x in sorted || x == t
  {
    assert sorted == sorted[..k] + sorted[k..];
  }

  lemma InsertDistinct(ts: seq<Transaction>, i: nat, sorted: seq<Transaction>, k: nat)
    requires DistinctInducing(ts) && i < |ts| && DistinctInducing(sorted) && k <= |sorted|
    requires forall t :: t in sorted ==> t in ts[..i]
    ensures DistinctInducing(sorted[..k] + [ts[i]] + sorted[k..])
  {
    forall j | 0 <= j < |sorted|
      ensures sorted[j].change != ts[i].change
    {
      assert sorted[j] in sorted;
      var m :| 0 <= m < i && ts[..i][m] == sorted[j];
      assert ts[m] == sorted[j];
    }
  }

  // ----- Outcomes

  /** Distinct, visible changes, none of them committed yet. */
  ghost predicate Partitionable(h: Host, changes: seq<Change>, committed: set<Change>) {
    NoDuplicates(changes) && forall c :: c in changes ==> h.hasHelper(c) && c !in committed
  }

  /** The change was applied, or failed against the tip of the tree, or failed inflight: exactly
      one of these, and blamed exactly once if it failed. */
  ghost predicate OneOutcome(c: Change, applied: seq<Change>, tot: seq<Exc>, inflight: seq<Exc>) {
    && (if c in applied then !Blames(tot, c) && !Blames(inflight, c) else Blames(tot, c) != Blames(inflight, c))
    && DistinctBlame(tot) && DistinctBlame(inflight)
  }

  /** The failures of changes that were not applied after all, of one kind. */
  function Select(failed: seq<Exc>, applied: set<Change>, inflight: bool): (r: seq<Exc>)
    ensures forall e :: e in r <==> e in failed && e.patch !in applied && e.Inflight() == inflight
  {
    if failed == [] then []
    else
      var n := |failed| - 1;
      assert failed == failed[..n] + [failed[n]];
      var before := Select(failed[..n], applied, inflight);
      if failed[n].patch !in applied && failed[n].Inflight() == inflight then before + [failed[n]] else before
  }

  lemma DistinctSnoc(failed: seq<Exc>, e: Exc)
    requires DistinctBlame(failed) && forall x :: x in failed ==> x.patch != e.patch
    ensures DistinctBlame(failed + [e])
  {
  }

  lemma {:induction false} SelectIsDistinct(failed: seq<Exc>, applied: set<Change>, inflight: bool)
    requires DistinctBlame(failed)
    ensures DistinctBlame(Select(failed, applied, inflight))
    decreases |failed|
  {
    if failed != [] {
      var n := |failed| - 1;
      EarlierDiffer(failed, n);
      SelectIsDistinct(failed[..n], applied, inflight);
      DistinctSnoc(Select(failed[..n], applied, inflight), failed[n]);
    }
  }

  lemma EarlierDiffer(failed: seq<Exc>, n: nat)
    requires DistinctBlame(failed) && n < |failed|
    ensures DistinctBlame(failed[..n]) && forall e :: e in failed[..n] ==> e.patch != failed[n].patch
  {
  }

  lemma SplitIsPartition(changes: seq<Change>, failed: seq<Exc>, all: seq<Change>, tot: seq<Exc>, inflight: seq<Exc>)
    requires Accounts(changes, failed, {}, all)
    requires tot == Select(failed, Elements(Uniq(all)), false) && inflight == Select(failed, Elements(Uniq(all)), true)
    ensures forall c :: c in changes ==> OneOutcome(c, Uniq(all), tot, inflight)
  {
    SelectIsDistinct(failed, Elements(Uniq(all)), false);
    SelectIsDistinct(failed, Elements(Uniq(all)), true);
    forall c | c in changes
      ensures OneOutcome(c, Uniq(all), tot, inflight)
    {
      if c !in all {
        var e :| e in failed && e.patch == c;
        assert e in if e.Inflight() then inflight else tot;
        forall x | x in failed && x.patch == c
          ensures x == e
        {
          SameBlame(failed, x, e);
        }
      }
    }
  }

  lemma SameBlame(failed: seq<Exc>, x: Exc, y: Exc)
    requires DistinctBlame(failed) && x in failed && y in failed && x.patch == y.patch
    ensures x == y
  {
    var i :| 0 <= i < |failed| && failed[i] == x;
    var j :| 0 <= j < |failed| && failed[j] == y;
  }

  /** The failures of changes that were not applied, by kind. */
  ghost predicate IsSplit(changes: seq<Change>, all: seq<Change>, failed: seq<Exc>, tot: seq<Exc>, inflight: seq<Exc>) {
    && (forall e :: e in tot ==> e in failed && e.patch !in Uniq(all) && !e.Inflight())
    && (forall e :: e in inflight ==> e in failed && e.patch !in Uniq(all) && e.Inflight())
    && (forall e :: e in failed && e.patch !in Uniq(all) ==> e in if e.Inflight() then inflight else tot)
    && (Accounts(changes, failed, {}, all) ==> forall c :: c in changes ==> OneOutcome(c, Uniq(all), tot, inflight))
  }

  /** Failures of changes that were applied by another transaction no longer count. */
  method Classify(ghost changes: seq<Change>, all: seq<Change>, failed: seq<Exc>)
    returns (tot: seq<Exc>, inflight: seq<Exc>)
    ensures IsSplit(changes, all, failed, tot, inflight)
  {
    tot := Select(failed, Elements(Uniq(all)), false);
    inflight := Select(failed, Elements(Uniq(all)), true);
    if Accounts(changes, failed, {}, all) {
      SplitIsPartition(changes, failed, all, tot, inflight);
    }
  }

  /** A failure is reported in the list of its kind unless the change was applied after all. */
  lemma ReportsKept(vs: set<Verdict>, failed: seq<Exc>, applied: seq<Change>, tot: seq<Exc>, inflight: seq<Exc>)
    requires AllReported(failed, vs)
    requires forall e :: e in failed && e.patch !in applied ==> e in if e.Inflight() then inflight else tot
    ensures forall v :: v in vs ==> v.blamed in applied || Reported(if v.inflight then inflight else tot, v)
  {
    forall v | v in vs && v.blamed !in applied
      ensures Reported(if v.inflight then inflight else tot, v)
    {
      var e :| e in failed && e.patch == v.blamed && e.Inflight() == v.inflight;
    }
  }

  /** Planning errors are reported unless another transaction applied the change. */
  lemma PlanErrorsKept(h: Host, w: World, changes: seq<Change>, ts: seq<Transaction>, unplanned: seq<Exc>,
                       failed: seq<Exc>, applied: seq<Change>, tot: seq<Exc>)
    requires unplanned <= failed && (forall e :: e in unplanned ==> !e.Inflight()) && InManifest(h, applied)
    requires forall e :: e in failed && e.patch !in applied && !e.Inflight() ==> e in tot
    requires Answered(w, Fetched(h, changes), ts, [], unplanned) && UnlistedBlamed(h, changes, unplanned)
    ensures Answered(w, Fetched(h, changes), ts, applied, tot) && UnlistedBlamed(h, changes, tot)
  {
    forall c | Refused(w, unplanned, c) && c !in applied
      ensures Refused(w, tot, c)
    {
      var e :| e in unplanned && e.patch == c && Explains(w, c, e);
      assert e in failed;
    }
    forall c | c in changes && IsUnlisted(h, c)
      ensures Blames(tot, c)
    {
      var e :| e in unplanned && e.patch == c;
      assert e in failed;
    }
  }

  /** What the three lists say: the failures of changes that were not applied, by kind; every failed
      transaction and every request without one is among them with its reason; and for distinct,
      visible, uncommitted requests the lists are a partition exactly when everything planned is in
      the manifest. */
  ghost predicate IsReport(h: Host, w: World, changes: seq<Change>, ts: seq<Transaction>, failures: set<Verdict>,
                           applied: seq<Change>, tot: seq<Exc>, inflight: seq<Exc>) {
    && (forall e :: e in tot ==> !e.Inflight() && e.patch !in applied)
    && (forall e :: e in inflight ==> e.Inflight() && e.patch !in applied)
    && (forall v :: v in failures ==> v.blamed in applied || Reported(if v.inflight then inflight else tot, v))
    && Answered(w, Fetched(h, changes), ts, applied, tot) && UnlistedBlamed(h, changes, tot)
    && (Partitionable(h, changes, w.committed) ==>
          ((forall c :: c in changes ==> OneOutcome(c, applied, tot, inflight)) <==> AllInManifest(h, ts)))
  }

  lemma ReportIsComplete(h: Host, w: World, changes: seq<Change>, ts: seq<Transaction>, failures: set<Verdict>,
                         unplanned: seq<Exc>, failed: seq<Exc>, all: seq<Change>, tot: seq<Exc>, inflight: seq<Exc>)
    requires forall t :: t in ts ==> PlanFor(w, t) && t.change in Fetched(h, changes)
    requires NoneInflight(unplanned) && unplanned <= failed && BlamedFor(h, ts, unplanned, failed)
    requires AllReported(failed, failures) && Landed(w, Uniq(all)) && InManifest(h, Uniq(all))
    requires Answered(w, Fetched(h, changes), ts, [], unplanned) && UnlistedBlamed(h, changes, unplanned)
    requires Partitionable(h, changes, w.committed) ==>
      DistinctInducing(ts) && Accounts(changes, unplanned, Inducing(ts), [])
    requires AccountedFor(h, w, changes, ts, unplanned) ==> Accounts(changes, failed, {}, all)
    requires IsSplit(changes, all, failed, tot, inflight)
    ensures IsReport(h, w, changes, ts, failures, Uniq(all), tot, inflight)
  {
    ReportsKept(failures, failed, Uniq(all), tot, inflight);
    PlanErrorsKept(h, w, changes, ts, unplanned, failed, Uniq(all), tot);
    if Partitionable(h, changes, w.committed) {
      PartitionIff(h, w, changes, ts, unplanned, failed, all, tot, inflight);
    }
  }

  /** When nothing could be resolved, every failure is reported as one against the tip of the tree. */
  lemma NothingResolved(h: Host, w: World, changes: seq<Change>, failed: seq<Exc>)
    requires NoneInflight(failed) && Answered(w, Fetched(h, changes), [], [], failed)
    requires UnlistedBlamed(h, changes, failed)
    requires Partitionable(h, changes, w.committed) ==> Accounts(changes, failed, Inducing([]), [])
    ensures IsReport(h, w, changes, [], {}, [], failed, [])
  {
    if Partitionable(h, changes, w.committed) {
      forall c | c in changes
        ensures OneOutcome(c, [], failed, [])
      {
        assert Blames(failed, c);
      }
    }
  }

  /** All changes of all transactions are in the manifest. */
  ghost predicate AllInManifest(h: Host, ts: seq<Transaction>) {
    forall t :: t in ts ==> InManifest(h, t.plan)
  }

  ghost predicate PlannedWithin(ts: seq<Transaction>, changes: seq<Change>) {
    forall t :: t in ts ==> Within(t.plan, changes)
  }

  /** In frozen mode plans only hold fetched changes. */
  lemma FrozenInManifest(h: Host, changes: seq<Change>, w: World, ts: seq<Transaction>)
    requires w.limitTo == Some(Elements(Fetched(h, changes)))
    requires forall t :: t in ts ==> PlanFor(w, t) && t.change in Fetched(h, changes)
    ensures AllInManifest(h, ts) && PlannedWithin(ts, Fetched(h, changes))
  {
    forall t | t in ts
      ensures InManifest(h, t.plan) && Within(t.plan, Fetched(h, changes))
    {
      forall c | c in t.plan
        ensures c in Fetched(h, changes)
      {
        FrozenPlan(h, changes, w, t, c);
      }
    }
  }

  lemma FrozenPlan(h: Host, changes: seq<Change>, w: World, t: Transaction, c: Change)
    requires w.limitTo == Some(Elements(Fetched(h, changes)))
    requires PlanFor(w, t) && t.change in Fetched(h, changes) && c in t.plan
    ensures c in Fetched(h, changes)
  {
    if c != t.change {
      PlanIsAllowed(w, t.change, t.plan, c);
    }
  }

  /** The three lists partition the requests exactly when everything planned is in the manifest. */
  lemma PartitionIff(h: Host, w: World, changes: seq<Change>, ts: seq<Transaction>, unplanned: seq<Exc>,
                     failed: seq<Exc>, all: seq<Change>, tot: seq<Exc>, inflight: seq<Exc>)
    requires Partitionable(h, changes, w.committed) && DistinctInducing(ts)
    requires forall t :: t in ts ==> PlanFor(w, t) && t.change in Fetched(h, changes)
    requires Accounts(changes, unplanned, Inducing(ts), []) && BlamedFor(h, ts, unplanned, failed)
    requires Blamable(h, w, ts) ==> forall c :: c in changes ==> OneOutcome(c, Uniq(all), tot, inflight)
    requires Landed(w, Uniq(all)) && InManifest(h, Uniq(all))
    requires forall e :: e in tot || e in inflight ==> e in failed
    ensures (forall c :: c in changes ==> OneOutcome(c, Uniq(all), tot, inflight)) <==> AllInManifest(h, ts)
  {
    if AllInManifest(h, ts) {
      assert Blamable(h, w, ts);
    } else {
      var t :| t in ts && !InManifest(h, t.plan);
      NotApplied(h, w, t, Uniq(all));
      NotBlamed(h, changes, ts, t, unplanned, failed);
      NoOutcome(t.change, Uniq(all), failed, tot, inflight);
    }
  }

  lemma NoOutcome(c: Change, applied: seq<Change>, failed: seq<Exc>, tot: seq<Exc>, inflight: seq<Exc>)
    requires c !in applied && !Blames(failed, c) && forall e :: e in tot || e in inflight ==> e in failed
    ensures !OneOutcome(c, applied, tot, inflight)
  {
  }

  /** A change that needs something outside the manifest is never applied. */
  lemma NotApplied(h: Host, w: World, t: Transaction, applied: seq<Change>)
    requires PlanFor(w, t) && !InManifest(h, t.plan) && Landed(w, applied) && InManifest(h, applied)
    ensures t.change !in applied
  {
    var c :| c in t.plan && h.checkouts(c) == [];
    if t.change in applied {
      ReachedIsClosed(w, applied, t.change, c);
    }
  }

  /** Its transaction fails with an error that blames the change outside the manifest instead. */
  lemma NotBlamed(h: Host, changes: seq<Change>, ts: seq<Transaction>, t: Transaction, unplanned: seq<Exc>,
                  failed: seq<Exc>)
    requires DistinctInducing(ts) && t in ts && !InManifest(h, t.plan) && h.checkouts(t.change) != []
    requires Accounts(changes, unplanned, Inducing(ts), []) && BlamedFor(h, ts, unplanned, failed)
    ensures !Blames(failed, t.change)
  {
    forall e | e in failed
      ensures e.patch != t.change
    {
      if e.patch == t.change {
        assert t.change in Inducing(ts);
        var other :| other in ts && other.change == e.patch && InManifest(h, other.plan);
        SameInducer(ts, t, other);
      }
    }
  }

  lemma SameInducer(ts: seq<Transaction>, a: Transaction, b: Transaction)
    requires DistinctInducing(ts) && a in ts && b in ts && a.change == b.change
    ensures a == b
  {
    var i :| 0 <= i < |ts| && ts[i] == a;
    var j :| 0 <= j < |ts| && ts[j] == b;
  }

  /** Whatever a fetched, uncommitted and resolvable change reaches is in the manifest. */
  ghost predicate StaysInManifest(h: Host, w: World, changes: seq<Change>) {
    forall c :: c in Fetched(h, changes) && c !in w.committed && !Stuck(w, c) ==> ReachesManifestOnly(h, w, c)
  }

  ghost predicate ReachesManifestOnly(h: Host, w: World, c: Change) {
    forall u :: Reaches(DepGraph(w), c, u) ==> h.checkouts(u) != []
  }

  lemma PlanInManifestIff(h: Host, w: World, c: Change, plan: seq<Change>)
    requires IsPlan(w, c, plan)
    ensures InManifest(h, plan) <==> ReachesManifestOnly(h, w, c)
  {
    forall u
      ensures u in plan <==> Reaches(DepGraph(w), c, u)
    {
      PlanIsReachableSet(w, c, plan, u);
    }
  }

  /** Whether everything planned is in the manifest can be told before the run, unless some chain of
      needs is too long to be planned. */
  lemma AllInManifestIff(h: Host, w: World, changes: seq<Change>, honorOrdering: bool, ts: seq<Transaction>,
                         applied: seq<Change>, tot: seq<Exc>)
    requires Planned(w, Fetched(h, changes), honorOrdering, ts) && Answered(w, Fetched(h, changes), ts, applied, tot)
    requires forall c :: c in Fetched(h, changes) ==> !LongChain(w, c)
    ensures AllInManifest(h, ts) <==> StaysInManifest(h, w, changes)
  {
    forall t | t in ts
      ensures InManifest(h, t.plan) <==> t.change in w.committed || ReachesManifestOnly(h, w, t.change)
      ensures t.change !in w.committed ==> !Stuck(w, t.change)
    {
      if t.change !in w.committed {
        PlanInManifestIff(h, w, t.change, t.plan);
        if Stuck(w, t.change) {
          StuckHasNoPlan(w, t.change, t.plan);
        }
      }
    }
    if AllInManifest(h, ts) {
      forall c | c in Fetched(h, changes) && c !in w.committed && !Stuck(w, c)
        ensures ReachesManifestOnly(h, w, c)
      {
        assert !Unplannable(w, c);
        var t :| t in ts && t.change == c;
      }
    }
  }

  /** So the condition for the partition is one on the requests alone. */
  lemma ReportPartitionIff(
    h: Host, w: World, changes: seq<Change>, honorOrdering: bool, ts: seq<Transaction>, failures: set<Verdict>,
    applied: seq<Change>, tot: seq<Exc>, inflight: seq<Exc>)
    requires forall c :: c in Fetched(h, changes) ==> !LongChain(w, c)
    ensures
      && Planned(w, Fetched(h, changes), honorOrdering, ts) && Partitionable(h, changes, w.committed)
      && IsReport(h, w, changes, ts, failures, applied, tot, inflight) ==>
        ((forall c :: c in changes ==> OneOutcome(c, applied, tot, inflight)) <==> StaysInManifest(h, w, changes))
  {
    if Planned(w, Fetched(h, changes), honorOrdering, ts) && Answered(w, Fetched(h, changes), ts, applied, tot) {
      AllInManifestIff(h, w, changes, honorOrdering, ts, applied, tot);
    }
  }

  /** A requested change "a" that needs "b", which is open but not in the manifest. */
  function NeedsUnlisted(): Host {
    Host(c => if c == "a" then Some(["b"]) else Some([]), c => true, c => Present, c => false, c => true,
         c => if c == "a" then ["project"] else [], (_, _, tree) => (tree, None))
  }

  /** Outside frozen mode the partition can fail: "a" has a plan, and every plan for it pulls in "b",
      so that, by the contract of `Apply`, "a" is neither applied nor blamed. */
  lemma UnfrozenCanFail(ts: seq<Transaction>, applied: seq<Change>, tot: seq<Exc>, honorOrdering: bool)
    requires var w := WorldFor(NeedsUnlisted(), ["a"], {}, false, false);
      Planned(w, Fetched(NeedsUnlisted(), ["a"]), honorOrdering, ts) &&
      Answered(w, Fetched(NeedsUnlisted(), ["a"]), ts, applied, tot)
    ensures Partitionable(NeedsUnlisted(), ["a"], {}) && !AllInManifest(NeedsUnlisted(), ts)
  {
    var w := WorldFor(NeedsUnlisted(), ["a"], {}, false, false);
    OpenNeed(w);
    assert "a" in Fetched(NeedsUnlisted(), ["a"]);
    var t :| t in ts && t.change == "a";
    ExamplePlan(w, t.plan);
  }

  lemma ExamplePlan(w: World, plan: seq<Change>)
    requires Needs(w, "a") == Ok(["b"]) && IsPlan(w, "a", plan)
    ensures !InManifest(NeedsUnlisted(), plan)
  {
    assert ClosedAt(w, plan, "a") && "b" in ["b"];
    assert NeedsUnlisted().checkouts("b") == [];
  }

  lemma OpenNeed(w: World)
    requires w == WorldFor(NeedsUnlisted(), ["a"], {}, false, false)
    ensures Needs(w, "a") == Ok(["b"]) && !Unplannable(w, "a")
  {
    NeedsOfExample(w);
    forall p: seq<Change>
      ensures !IsChain(w, "a", p)
    {
      if |p| > 2 && p[0] == "a" {
        assert DepGraph(w)("a", p[1]) ==> p[1] == "b";
        assert !DepGraph(w)("b", p[2]);
      }
    }
  }

  lemma NeedsOfExample(w: World)
    requires w == WorldFor(NeedsUnlisted(), ["a"], {}, false, false)
    ensures Needs(w, "a") == Ok(["b"]) && forall c :: c != "a" ==> Needs(w, c) == Ok([])
  {
    assert w.deps("a") == Some(["b"]) && forall c :: c != "a" ==> w.deps(c) == Some([]);
    assert Obstacle(w, "b").None? && Unsatisfied(w, "b");
    OnlyNeed(w, "b");
  }

  lemma OnlyNeed(w: World, d: Change)
    requires Obstacle(w, d).None? && Unsatisfied(w, d)
    ensures FirstObstacle(w, [d]).None? && Keep(w, [d]) == [d] && FirstObstacle(w, []).None? && Keep(w, []) == []
  {
    FirstObstacleFound(w, [d], 0);
    assert [d][..1] == [d] && [d][..0] == [];
  }

  /** What a run leaves behind, in terms of the distinct applied changes. */
  lemma RunLands(h: Host, w: World, start: Landing, ts: seq<Transaction>, changes: seq<Change>)
    requires CheckedOut(h, start.repos) && start.applied == [] && start.committed == w.committed
    requires forall t :: t in ts ==> PlanFor(w, t)
    ensures var end := LandAll(h, start, ts); var applied := Uniq(end.applied);
      && end.committed == start.committed + Elements(applied)
      && Replay(h, start.repos, applied) == Some(end.repos)
      && Landed(w, applied) && InManifest(h, applied)
      && (PlannedWithin(ts, Fetched(h, changes)) ==> Within(applied, changes))
  {
    EveryRunLands(h, w, start, ts);
    var all := LandAll(h, start, ts).applied;
    assert Elements(Uniq(all)) == Elements(all);
    if PlannedWithin(ts, Fetched(h, changes)) {
      forall c | c in all
        ensures c in changes
      {
        var t :| t in ts && c in t.plan;
        assert c in Fetched(h, changes);
      }
    }
  }
}
