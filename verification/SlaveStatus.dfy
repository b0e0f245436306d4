/** Keeping track, tick by tick, of which slave builds have completed. */
module SlaveStatus {
  import opened Wrappers
  import opened Graphs

  type Builder = string

  datatype CidbStatus = Fail | Pass | Inflight | Missing | Aborted | Planned | Waiting | Skipped | Forgiven

  datatype BuildbucketStatus = Scheduled | Started | Success | Failure | Canceled

  /** A CIDB status after which a build is not retried. */
  predicate IsCompleted(s: CidbStatus) {
    s.Pass? || s.Fail? || s.Aborted? || s.Skipped? || s.Forgiven?
  }

  /** What one poll finds: the scheduled builders, those flagged as experimental, and the status
      of builds in both services; Buildbucket may have no status for a build. */
  datatype Tick = Tick(
    scheduled: seq<Builder>,
    experimental: set<Builder>,
    buildbucket: map<Builder, Option<BuildbucketStatus>>,
    cidb: map<Builder, CidbStatus>)

  /** The builders that count, in the order in which they are listed. */
  function Important(all: seq<Builder>, experimental: set<Builder>): (r: seq<Builder>)
    ensures forall b :: b in r <==> b in all && b !in experimental
    ensures NoDuplicates(all) ==> NoDuplicates(r)
  {
    if all == [] then []
    else
      var n := |all| - 1;
      assert all == all[..n] + [all[n]];
      Important(all[..n], experimental) + if all[n] in experimental then [] else [all[n]]
  }

  /** Without a config or metadata nothing is known from Buildbucket, and the list of builders is fixed. */
  datatype Mode = Mode(hasConfig: bool, hasMetadata: bool, builders: seq<Builder>) {
    predicate UsesBuildbucket() {
      hasConfig && hasMetadata
    }

    function Expected(t: Tick): seq<Builder> {
      Important(if UsesBuildbucket() then t.scheduled else builders, if hasMetadata then t.experimental else {})
    }

    /** The build is done according to this tick alone. */
    predicate Finished(t: Tick, b: Builder) {
      (b in t.cidb && IsCompleted(t.cidb[b]) && b in Expected(t)) || (UsesBuildbucket() && Succeeded(t, b))
    }

    function FinishedIn(t: Tick): (r: set<Builder>)
      ensures forall b :: b in r <==> Finished(t, b)
    {
      (set b | b in t.cidb && IsCompleted(t.cidb[b]) && b in Expected(t))
      + if UsesBuildbucket() then set b | b in t.buildbucket && Succeeded(t, b) else {}
    }

    /** Some expected build is newly complete in CIDB although Buildbucket does not list it. */
    predicate Inconsistent(t: Tick, completed: set<Builder>) {
      UsesBuildbucket() &&
      exists b :: b in t.cidb && b !in completed && IsCompleted(t.cidb[b]) && b in Expected(t) && b !in t.buildbucket
    }
  }

  predicate Succeeded(t: Tick, b: Builder) {
    b in t.buildbucket && t.buildbucket[b] == Some(Success)
  }

  /** All statuses but those of builds that still have to run or to report. */
  lemma WhichComplete(s: CidbStatus)
    ensures IsCompleted(s) <==> s !in {Inflight, Missing, Planned, Waiting}
  {
  }

  /** Who is expected: the scheduled builders if both a config and metadata are there, the given ones
      otherwise, without those that the metadata flags as experimental. */
  lemma ExpectedMeans(mode: Mode, t: Tick, b: Builder)
    ensures b in mode.Expected(t) <==>
      && b in (if mode.hasConfig && mode.hasMetadata then t.scheduled else mode.builders)
      && !(mode.hasMetadata && b in t.experimental)
  {
  }

  /** Who finishes in an update: an expected builder with a final status in CIDB, or, where Buildbucket
      is asked, any builder that succeeded there. */
  lemma FinishedMeans(mode: Mode, t: Tick, b: Builder)
    ensures b in mode.FinishedIn(t) <==>
      || (b in mode.Expected(t) && b in t.cidb && t.cidb[b] in {Pass, Fail, Aborted, Skipped, Forgiven})
      || (mode.hasConfig && mode.hasMetadata && b in t.buildbucket && t.buildbucket[b] == Some(Success))
  {
  }

  type StatusSets = map<BuildbucketStatus, set<Builder>>

  function BuildsIn(sets: StatusSets, s: BuildbucketStatus): set<Builder> {
    if s in sets then sets[s] else {}
  }

  predicate HasStatus(builds: map<Builder, Option<BuildbucketStatus>>, b: Builder, s: BuildbucketStatus) {
    b in builds && builds[b] == Some(s)
  }

  /** All builds outside `todo` are filed under their status, if they have one. */
  ghost predicate IsSorting(sets: StatusSets, builds: map<Builder, Option<BuildbucketStatus>>, todo: set<Builder>) {
    forall s, b :: b in BuildsIn(sets, s) <==> HasStatus(builds, b, s) && b !in todo
  }

  lemma SortOne(sets: StatusSets, builds: map<Builder, Option<BuildbucketStatus>>, todo: set<Builder>, b: Builder)
    requires IsSorting(sets, builds, todo) && b in todo && todo <= builds.Keys
    ensures IsSorting(if builds[b].Some? then sets[builds[b].value := BuildsIn(sets, builds[b].value) + {b}] else sets,
                      builds, todo - {b})
  {
  }

  function Without<V>(m: map<Builder, V>, done: set<Builder>): map<Builder, V> {
    map b | b in m && b !in done :: m[b]
  }

  lemma NewlySucceeded(sets: StatusSets, t: Tick, completed: set<Builder>)
    requires IsSorting(sets, Without(t.buildbucket, completed), {})
    ensures forall b :: b in BuildsIn(sets, Success) <==> Succeeded(t, b) && b !in completed
  {
    forall b
      ensures b in BuildsIn(sets, Success) <==> Succeeded(t, b) && b !in completed
    {
      assert b in BuildsIn(sets, Success) <==> HasStatus(Without(t.buildbucket, completed), b, Success);
    }
  }

  class Status {
    const mode: Mode
    var expectedBuilders: seq<Builder>
    var completedBuilds: set<Builder>
    var newCidb: map<Builder, CidbStatus>
    var newBuildbucket: Option<map<Builder, Option<BuildbucketStatus>>>
    var statusBuildset: StatusSets

    constructor (mode: Mode)
      ensures this.mode == mode && completedBuilds == {} && newBuildbucket == None && expectedBuilders == mode.builders
    {
      this.mode := mode;
      expectedBuilders, completedBuilds := mode.builders, {};
      newCidb, newBuildbucket, statusBuildset := map[], None, map[];
    }

    /** Sorts the builds by their Buildbucket status. */
    method SetStatusBuildsDict(builds: map<Builder, Option<BuildbucketStatus>>)
      modifies this`statusBuildset
      ensures IsSorting(statusBuildset, builds, {})
    {
      statusBuildset := map[];
      var todo := builds.Keys;
      while todo != {}
        invariant todo <= builds.Keys
        invariant IsSorting(statusBuildset, builds, todo)
        decreases todo
      {
        var b :| b in todo;
        SortOne(statusBuildset, builds, todo, b);
        todo := todo - {b};
        if builds[b].Some? {
          var s := builds[b].value;
          statusBuildset := statusBuildset[s := BuildsIn(statusBuildset, s) + {b}];
        }
      }
    }

    /** One poll. Builds that completed before are filtered out first. Reporting a completed build
        that Buildbucket does not list is an error. */
    method UpdateSlaveStatus(t: Tick) returns (keyError: bool)
      modifies this
      ensures keyError <==> mode.Inconsistent(t, old(completedBuilds))
      ensures completedBuilds == if keyError then old(completedBuilds) else old(completedBuilds) + mode.FinishedIn(t)
      ensures expectedBuilders == mode.Expected(t)
      ensures newCidb == Without(t.cidb, old(completedBuilds))
      ensures newBuildbucket
           == if mode.UsesBuildbucket() then Some(Without(t.buildbucket, old(completedBuilds))) else None
      ensures newBuildbucket.Some? ==> IsSorting(statusBuildset, newBuildbucket.value, {})
    {
      expectedBuilders := mode.Expected(t);
      if mode.UsesBuildbucket() {
        newBuildbucket := Some(Without(t.buildbucket, completedBuilds));
        SetStatusBuildsDict(newBuildbucket.value);
      } else {
        newBuildbucket := None;
      }
      newCidb := Without(t.cidb, completedBuilds);
      var current := set b | b in newCidb && IsCompleted(newCidb[b]) && b in expectedBuilders;
      if newBuildbucket.Some? {
        NewlySucceeded(statusBuildset, t, completedBuilds);
        current := current + BuildsIn(statusBuildset, Success);
        if exists b :: b in current && b !in newBuildbucket.value {
          return true;
        }
      }
      FilteringLosesNothing(mode, t, completedBuilds, current);
      completedBuilds := completedBuilds + current;
      keyError := false;
    }

    /** Whether all builds are taken to have completed. Only the numbers are compared, so for distinct
        builders the answer is yes when as many strays completed as expected builds are open; without
        strays that is when every expected build has completed. */
    method Completed() returns (r: bool)
      ensures r <==> |completedBuilds| == |expectedBuilders|
      ensures NoDuplicates(expectedBuilders) ==>
        (r <==> |Stray(expectedBuilders, completedBuilds)| == |Open(expectedBuilders, completedBuilds)|)
      ensures NoDuplicates(expectedBuilders) && Stray(expectedBuilders, completedBuilds) == {} ==>
        (r <==> AllFinished(expectedBuilders, completedBuilds))
    {
      if NoDuplicates(expectedBuilders) {
        CountingIsWrongIff(expectedBuilders, completedBuilds);
      }
      r := |completedBuilds| == |expectedBuilders|;
    }

    /** Polls until the end of the ticks or the first error. */
    method Poll(ticks: seq<Tick>) returns (keyError: bool)
      modifies this
      ensures keyError <==> !ConsistentUpTo(mode, ticks, |ticks|, old(completedBuilds))
      ensures !keyError ==> completedBuilds == old(completedBuilds) + FinishedInAny(mode, ticks)
      ensures keyError ==>
        exists i :: 0 <= i < |ticks| && StopsAt(mode, ticks, i, old(completedBuilds), completedBuilds)
      ensures old(completedBuilds) <= completedBuilds
      ensures !keyError && ticks != [] ==> expectedBuilders == mode.Expected(ticks[|ticks| - 1])
    {
      ghost var start := completedBuilds;
      for i := 0 to |ticks|
        invariant completedBuilds == start + FinishedInAny(mode, ticks[..i])
        invariant i > 0 ==> expectedBuilders == mode.Expected(ticks[i - 1])
        invariant ConsistentUpTo(mode, ticks, i, start)
      {
        keyError := UpdateSlaveStatus(ticks[i]);
        if keyError {
          assert InconsistentAt(mode, ticks, i, start);
          assert StopsAt(mode, ticks, i, start, completedBuilds);
          return;
        }
        OneMoreTick(mode, ticks, i);
      }
      assert ticks[..|ticks|] == ticks;
      keyError := false;
    }
  }

  /** Tick `i` is inconsistent with what had finished before it. */
  ghost predicate InconsistentAt(mode: Mode, ticks: seq<Tick>, i: nat, before: set<Builder>)
    requires i < |ticks|
  {
    mode.Inconsistent(ticks[i], before + FinishedInAny(mode, ticks[..i]))
  }

  ghost predicate ConsistentUpTo(mode: Mode, ticks: seq<Tick>, n: nat, before: set<Builder>)
    requires n <= |ticks|
  {
    forall i :: 0 <= i < n ==> !InconsistentAt(mode, ticks, i, before)
  }

  /** Tick `i` is the first inconsistent one and nothing is recorded from it on. */
  ghost predicate StopsAt(mode: Mode, ticks: seq<Tick>, i: nat, before: set<Builder>, after: set<Builder>)
    requires i < |ticks|
  {
    after == before + FinishedInAny(mode, ticks[..i]) && mode.Inconsistent(ticks[i], after)
  }

  /** The builds that finished according to at least one of the ticks. */
  ghost function FinishedInAny(mode: Mode, ticks: seq<Tick>): set<Builder> {
    set i, b | 0 <= i < |ticks| && b in mode.FinishedIn(ticks[i]) :: b
  }

  lemma OneMoreTick(mode: Mode, ticks: seq<Tick>, i: nat)
    requires i < |ticks|
    ensures FinishedInAny(mode, ticks[..i + 1]) == FinishedInAny(mode, ticks[..i]) + mode.FinishedIn(ticks[i])
  {
    var before, upto := ticks[..i], ticks[..i + 1];
    assert upto[i] == ticks[i] && forall j :: 0 <= j < i ==> upto[j] == before[j];
  }

  /** Leaving out the builds that completed before changes nothing about the union. */
  lemma FilteringLosesNothing(mode: Mode, t: Tick, completed: set<Builder>, current: set<Builder>)
    requires forall b :: b in current <==>
      (b in Without(t.cidb, completed) && IsCompleted(t.cidb[b]) && b in mode.Expected(t)) ||
      (mode.UsesBuildbucket() && b !in completed && Succeeded(t, b))
    ensures completed + current == completed + mode.FinishedIn(t)
  {
  }

  /** When Buildbucket lists all scheduled builders there is never an error. */
  lemma CompleteListingIsConsistent(mode: Mode, t: Tick, completed: set<Builder>)
    requires forall b :: b in t.scheduled ==> b in t.buildbucket
    ensures !mode.Inconsistent(t, completed)
  {
  }

  // ----- What comparing numbers tells

  lemma {:induction false} DistinctCount(s: seq<Builder>)
    requires NoDuplicates(s)
    ensures |Elements(s)| == |s|
    decreases |s|
  {
    if s != [] {
      var n := |s| - 1;
      DistinctCount(s[..n]);
      assert s == s[..n] + [s[n]];
      assert s[n] !in s[..n];
      assert Elements(s) == Elements(s[..n]) + {s[n]};
    }
  }

  ghost predicate AllFinished(expected: seq<Builder>, completed: set<Builder>) {
    forall b :: b in expected ==> b in completed
  }

  /** Completed builds that are not expected. */
  function Stray(expected: seq<Builder>, completed: set<Builder>): set<Builder> {
    completed - Elements(expected)
  }

  /** Expected builds that have not completed. */
  function Open(expected: seq<Builder>, completed: set<Builder>): set<Builder> {
    Elements(expected) - completed
  }

  /** For distinct expected builders, the numbers agree when as many strays completed as expected
      builds are open; so comparing numbers goes wrong exactly when strays completed and either
      nothing is open or just as many builds are. */
  lemma CountingIsWrongIff(expected: seq<Builder>, completed: set<Builder>)
    requires NoDuplicates(expected)
    ensures var stray, open := Stray(expected, completed), Open(expected, completed);
      && (|completed| == |expected| <==> |stray| == |open|)
      && ((|completed| == |expected|) != AllFinished(expected, completed) <==>
          stray != {} && (open == {} || |stray| == |open|))
  {
    DistinctCount(expected);
    var both := Elements(expected) * completed;
    assert completed == Stray(expected, completed) + both;
    assert Elements(expected) == Open(expected, completed) + both;
    assert AllFinished(expected, completed) <==> Open(expected, completed) == {};
  }

  /** After any ticks without an error: as long as everything that ever finished is still expected,
      the numbers agree exactly when every expected build finished in one of the ticks. */
  lemma CompletedMeansAllFinished(mode: Mode, ticks: seq<Tick>)
    requires ticks != [] && NoDuplicates(mode.Expected(ticks[|ticks| - 1]))
    ensures var expected, completed := mode.Expected(ticks[|ticks| - 1]), FinishedInAny(mode, ticks);
      completed <= Elements(expected) ==>
        (|completed| == |expected| <==>
         forall b :: b in expected ==> exists i :: 0 <= i < |ticks| && mode.Finished(ticks[i], b))
  {
    var expected, completed := mode.Expected(ticks[|ticks| - 1]), FinishedInAny(mode, ticks);
    CountingIsWrongIff(expected, completed);
    forall b
      ensures b in completed <==> exists i :: 0 <= i < |ticks| && mode.Finished(ticks[i], b)
    {
      if i :| 0 <= i < |ticks| && mode.Finished(ticks[i], b) {
        assert b in mode.FinishedIn(ticks[i]);
      }
    }
  }

  /** Who is scheduled and who is experimental in each tick; the statuses are left open. */
  datatype Schedule = Schedule(scheduled: seq<Builder>, experimental: set<Builder>)

  /** The ticks have these schedules, and Buildbucket lists exactly the scheduled builders. */
  ghost predicate HaveSchedules(ticks: seq<Tick>, plan: seq<Schedule>) {
    |ticks| == |plan| && forall i :: 0 <= i < |plan| ==> HasSchedule(ticks[i], plan[i])
  }

  ghost predicate HasSchedule(t: Tick, s: Schedule) {
    t.scheduled == s.scheduled && t.experimental == s.experimental && t.buildbucket.Keys == Elements(s.scheduled)
  }

  function ExpectedIn(mode: Mode, s: Schedule): seq<Builder> {
    mode.Expected(Tick(s.scheduled, s.experimental, map[], map[]))
  }

  /** Some status lets the builder finish: in CIDB if it is expected, in Buildbucket if it is scheduled. */
  predicate CanFinish(mode: Mode, s: Schedule, b: Builder) {
    b in ExpectedIn(mode, s) || (mode.UsesBuildbucket() && b in s.scheduled)
  }

  /** Comparing numbers tells whether all expected builds have completed. */
  ghost predicate TestIsRight(expected: seq<Builder>, completed: set<Builder>) {
    |completed| == |expected| <==> AllFinished(expected, completed)
  }

  /** In every tick only builders can finish that are expected in the last one. */
  ghost predicate NobodyStrays(mode: Mode, plan: seq<Schedule>)
    requires plan != []
  {
    forall i, b :: 0 <= i < |plan| && CanFinish(mode, plan[i], b) ==> b in ExpectedIn(mode, plan[|plan| - 1])
  }

  /** For given schedules the test is right after the last of any updates, whatever the statuses are,
      exactly when no builder that can finish in some tick is missing from the last list of expected
      ones. The updates need not be those of a wait, which ends when the test first succeeds. */
  lemma TestIsRightIff(mode: Mode, plan: seq<Schedule>)
    requires plan != [] && NoDuplicates(ExpectedIn(mode, plan[|plan| - 1]))
    ensures NobodyStrays(mode, plan) <==>
      forall ticks :: HaveSchedules(ticks, plan) ==>
        TestIsRight(ExpectedIn(mode, plan[|plan| - 1]), FinishedInAny(mode, ticks))
  {
    if NobodyStrays(mode, plan) {
      forall ticks | HaveSchedules(ticks, plan)
        ensures TestIsRight(ExpectedIn(mode, plan[|plan| - 1]), FinishedInAny(mode, ticks))
      {
        NobodyStrayed(mode, plan, ticks);
      }
    } else {
      var i, b :| 0 <= i < |plan| && CanFinish(mode, plan[i], b) && b !in ExpectedIn(mode, plan[|plan| - 1]);
      SomebodyStrays(mode, plan, i, b);
      AllPassesScheduled(mode, plan);
    }
  }

  lemma FinishedCould(mode: Mode, t: Tick, s: Schedule, b: Builder)
    requires HasSchedule(t, s)
    ensures mode.Expected(t) == ExpectedIn(mode, s)
    ensures b in mode.FinishedIn(t) ==> CanFinish(mode, s, b)
  {
  }

  lemma NobodyStrayed(mode: Mode, plan: seq<Schedule>, ticks: seq<Tick>)
    requires plan != [] && NoDuplicates(ExpectedIn(mode, plan[|plan| - 1]))
    requires NobodyStrays(mode, plan) && HaveSchedules(ticks, plan)
    ensures TestIsRight(ExpectedIn(mode, plan[|plan| - 1]), FinishedInAny(mode, ticks))
  {
    var last := |plan| - 1;
    var expected, completed := ExpectedIn(mode, plan[last]), FinishedInAny(mode, ticks);
    forall b | b in completed
      ensures b in expected
    {
      var i :| 0 <= i < |ticks| && b in mode.FinishedIn(ticks[i]);
      FinishedCould(mode, ticks[i], plan[i], b);
    }
    CountingIsWrongIff(expected, completed);
    assert Stray(expected, completed) == {};
  }

  /** The tick of this schedule in which everybody who can finish does. */
  function AllPass(mode: Mode, s: Schedule): Tick {
    Tick(s.scheduled, s.experimental,
         map b | b in Elements(s.scheduled) :: Some(Success), map b | b in Elements(ExpectedIn(mode, s)) :: Pass)
  }

  lemma AllPassFinish(mode: Mode, s: Schedule, b: Builder)
    requires CanFinish(mode, s, b)
    ensures HasSchedule(AllPass(mode, s), s) && b in mode.FinishedIn(AllPass(mode, s))
  {
    assert mode.Finished(AllPass(mode, s), b);
  }

  lemma FinishedOnce(mode: Mode, ticks: seq<Tick>, i: nat, b: Builder)
    requires i < |ticks| && b in mode.FinishedIn(ticks[i])
    ensures b in FinishedInAny(mode, ticks)
  {
  }

  function AllPasses(mode: Mode, plan: seq<Schedule>): (r: seq<Tick>)
    ensures |r| == |plan| && forall i :: 0 <= i < |plan| ==> r[i] == AllPass(mode, plan[i])
  {
    seq(|plan|, i requires 0 <= i < |plan| => AllPass(mode, plan[i]))
  }

  lemma AllPassesFinish(mode: Mode, plan: seq<Schedule>, i: nat, b: Builder)
    requires i < |plan| && CanFinish(mode, plan[i], b)
    ensures b in FinishedInAny(mode, AllPasses(mode, plan))
  {
    AllPassFinish(mode, plan[i], b);
    FinishedOnce(mode, AllPasses(mode, plan), i, b);
  }

  /** With a stray among them, the completed builds outnumber the expected ones that all completed. */
  lemma StrayOutnumbers(expected: seq<Builder>, completed: set<Builder>, b: Builder)
    requires NoDuplicates(expected) && AllFinished(expected, completed) && b in completed && b !in expected
    ensures !TestIsRight(expected, completed)
  {
    assert b in Stray(expected, completed) && Open(expected, completed) == {};
    CountingIsWrongIff(expected, completed);
  }

  lemma SomebodyStrays(mode: Mode, plan: seq<Schedule>, i: nat, b: Builder)
    requires plan != [] && NoDuplicates(ExpectedIn(mode, plan[|plan| - 1]))
    requires i < |plan| && CanFinish(mode, plan[i], b) && b !in ExpectedIn(mode, plan[|plan| - 1])
    ensures !TestIsRight(ExpectedIn(mode, plan[|plan| - 1]), FinishedInAny(mode, AllPasses(mode, plan)))
  {
    AllPassesFinish(mode, plan, i, b);
    LastExpectedFinish(mode, plan);
    StrayOutnumbers(ExpectedIn(mode, plan[|plan| - 1]), FinishedInAny(mode, AllPasses(mode, plan)), b);
  }

  lemma LastExpectedFinish(mode: Mode, plan: seq<Schedule>)
    requires plan != []
    ensures AllFinished(ExpectedIn(mode, plan[|plan| - 1]), FinishedInAny(mode, AllPasses(mode, plan)))
  {
    forall e | e in ExpectedIn(mode, plan[|plan| - 1])
      ensures e in FinishedInAny(mode, AllPasses(mode, plan))
    {
      AllPassesFinish(mode, plan, |plan| - 1, e);
    }
  }

  lemma AllPassesScheduled(mode: Mode, plan: seq<Schedule>)
    ensures HaveSchedules(AllPasses(mode, plan), plan)
  {
  }

  /** A build that finished before it was flagged as experimental is still counted: two ticks after
      which the expected build `b` counts as completed although it never finished. */
  lemma FlaggedLateMisleads(a: Builder, b: Builder) returns (mode: Mode, ticks: seq<Tick>)
    requires a != b
    ensures mode.UsesBuildbucket() && |ticks| == 2
    ensures forall i, completed :: 0 <= i < 2 ==> !mode.Inconsistent(ticks[i], completed)
    ensures var expected, completed := mode.Expected(ticks[1]), FinishedInAny(mode, ticks);
      expected == [b] && completed == {a} && |completed| == |expected| && !AllFinished(expected, completed)
  {
    mode := Mode(true, true, []);
    var statuses := map[a := Some(Success), b := Some(Started)];
    ticks := [Tick([a, b], {}, statuses, map[]), Tick([b], {a}, map[b := Some(Started)], map[])];
    assert mode.FinishedIn(ticks[0]) == {a} && mode.FinishedIn(ticks[1]) == {};
    var none: seq<Tick> := [];
    assert FinishedInAny(mode, ticks) == {a} by {
      assert a in mode.FinishedIn(ticks[0]);
    }
    assert [b][..0] == [];
    assert Important([], {a}) == [];
    assert Important([b], {a}) == [b];
  }
}
