/** Waiting for the slave builds: the test that ends the wait is asked after every update but the
    first, which is made before the loop, and the wait goes on as long as the answer is no. */
module SlaveWait {
  import opened Wrappers
  import opened Graphs
  import opened SlaveStatus

  /** Who is expected in each update, and who can finish in it. */
  datatype Wait = Wait(expected: seq<seq<Builder>>, can: seq<set<Builder>>)

  ghost predicate WellFormed(w: Wait) {
    && |w.expected| == |w.can|
    && forall k :: 0 <= k < |w.expected| ==> NoDuplicates(w.expected[k]) && Elements(w.expected[k]) <= w.can[k]
  }

  /** What finishes in each update. */
  ghost predicate Possible(w: Wait, done: seq<set<Builder>>) {
    |done| == |w.can| == |w.expected| && forall k :: 0 <= k < |done| ==> done[k] <= w.can[k]
  }

  function UpTo(done: seq<set<Builder>>, n: nat): set<Builder>
    requires n <= |done|
  {
    if n == 0 then {} else UpTo(done, n - 1) + done[n - 1]
  }

  predicate SaysDone(w: Wait, done: seq<set<Builder>>, k: nat)
    requires k < |w.expected| && |done| == |w.expected|
  {
    |UpTo(done, k + 1)| == |w.expected[k]|
  }

  ghost predicate RightAt(w: Wait, done: seq<set<Builder>>, k: nat)
    requires k < |w.expected| && |done| == |w.expected|
  {
    TestIsRight(w.expected[k], UpTo(done, k + 1))
  }

  /** The wait gets as far as asking after update `m`. */
  ghost predicate Asked(w: Wait, done: seq<set<Builder>>, m: nat) {
    0 < m < |w.expected| && |done| == |w.expected| && forall k :: 0 < k < m ==> !SaysDone(w, done, k)
  }

  /** Whatever finishes when, every answer that a wait gets is right. */
  ghost predicate AlwaysRight(w: Wait) {
    forall done, m :: Possible(w, done) && Asked(w, done, m) ==> RightAt(w, done, m)
  }

  /** `b` can finish in update `i` and is not expected in update `m`, and until then no update expects
      nobody or, from update `i` on, only `b`. */
  ghost predicate Strays(w: Wait, i: nat, m: nat, b: Builder) {
    && i <= m && 0 < m < |w.expected| && |w.can| == |w.expected| && b in w.can[i] && b !in w.expected[m]
    && forall k :: 0 < k < m ==> w.expected[k] != [] && (i <= k ==> w.expected[k] != [b])
  }

  // ----- A builder that strays misleads some wait

  /** Only `b` finishes in update `i`, and everybody who is expected in update `m` finishes then. */
  function Misleading(w: Wait, i: nat, m: nat, b: Builder): (done: seq<set<Builder>>)
    requires i <= m < |w.expected|
    ensures |done| == |w.expected|
    ensures forall k :: 0 <= k < |done| ==>
      done[k] == (if k == i then {b} else {}) + if k == m then Elements(w.expected[m]) else {}
  {
    seq(|w.expected|, k => (if k == i then {b} else {}) + if k == m then Elements(w.expected[m]) else {})
  }

  lemma {:induction false} MisleadingUpTo(w: Wait, i: nat, m: nat, b: Builder, k: nat)
    requires i <= m < |w.expected| && k <= m
    ensures UpTo(Misleading(w, i, m, b), k) == if i < k then {b} else {}
  {
    if k > 0 {
      MisleadingUpTo(w, i, m, b, k - 1);
    }
  }

  /** The first update at which the wait ends, if that is before update `m`. */
  lemma {:induction false} FirstDone(w: Wait, done: seq<set<Builder>>, m: nat) returns (j: nat)
    requires 0 < m < |w.expected| && |done| == |w.expected|
    ensures 0 < j <= m && Asked(w, done, j) && (j < m ==> SaysDone(w, done, j))
  {
    if m == 1 {
      j := 1;
    } else {
      j := FirstDone(w, done, m - 1);
      if j == m - 1 && !SaysDone(w, done, j) {
        j := m;
      }
    }
  }

  /** One completed build and one expected build agree in number, but need not be the same. */
  lemma OneForAnother(expected: seq<Builder>, b: Builder)
    requires |expected| == 1 && expected != [b]
    ensures !TestIsRight(expected, {b})
  {
    assert expected[0] in expected;
  }

  lemma MisleadingIsPossible(w: Wait, i: nat, m: nat, b: Builder)
    requires WellFormed(w) && i <= m < |w.expected| && b in w.can[i]
    ensures Possible(w, Misleading(w, i, m, b))
  {
  }

  /** The wait may end before update `m`, when as many builds are expected as `b` alone. */
  lemma EarlyYes(w: Wait, i: nat, m: nat, b: Builder, j: nat)
    requires WellFormed(w) && Strays(w, i, m, b) && 0 < j < m && SaysDone(w, Misleading(w, i, m, b), j)
    ensures !RightAt(w, Misleading(w, i, m, b), j)
  {
    MisleadingUpTo(w, i, m, b, j + 1);
    assert w.expected[j] != [] && (i <= j ==> w.expected[j] != [b]);
    if i <= j {
      OneForAnother(w.expected[j], b);
    }
  }

  /** Otherwise everybody who is expected in update `m` has finished then, and so has `b`. */
  lemma LateNo(w: Wait, i: nat, m: nat, b: Builder)
    requires WellFormed(w) && Strays(w, i, m, b)
    ensures !RightAt(w, Misleading(w, i, m, b), m)
  {
    MisleadingUpTo(w, i, m, b, m);
    var expected, completed := w.expected[m], UpTo(Misleading(w, i, m, b), m + 1);
    assert completed == {b} + Elements(expected);
    StrayOutnumbers(expected, completed, b);
  }

  lemma StrayMisleads(w: Wait, i: nat, m: nat, b: Builder) returns (j: nat)
    requires WellFormed(w) && Strays(w, i, m, b)
    ensures var done := Misleading(w, i, m, b);
      Possible(w, done) && Asked(w, done, j) && !RightAt(w, done, j)
  {
    MisleadingIsPossible(w, i, m, b);
    j := FirstDone(w, Misleading(w, i, m, b), m);
    if j < m {
      EarlyYes(w, i, m, b, j);
    } else {
      LateNo(w, i, m, b);
    }
  }

  // ----- Without one every answer is right

  lemma {:induction false} FinishedWhen(done: seq<set<Builder>>, n: nat, b: Builder) returns (i: nat)
    requires n <= |done| && b in UpTo(done, n)
    ensures i < n && b in done[i]
  {
    if b in done[n - 1] {
      i := n - 1;
    } else {
      i := FinishedWhen(done, n - 1, b);
    }
  }

  lemma {:induction false} FinishedStays(done: seq<set<Builder>>, i: nat, n: nat, b: Builder)
    requires i < n <= |done| && b in done[i]
    ensures b in UpTo(done, n)
    decreases n
  {
    if i < n - 1 {
      FinishedStays(done, i, n - 1, b);
    }
  }

  lemma {:induction false} NobodyMisleads(w: Wait, done: seq<set<Builder>>, m: nat)
    requires WellFormed(w) && Possible(w, done) && Asked(w, done, m)
    requires forall i, n, b :: !Strays(w, i, n, b)
    ensures RightAt(w, done, m)
    decreases m
  {
    var expected, completed := w.expected[m], UpTo(done, m + 1);
    CountingIsWrongIff(expected, completed);
    if b :| b in Stray(expected, completed) {
      var i := FinishedWhen(done, m + 1, b);
      forall k | 0 < k < m
        ensures w.expected[k] != [] && (i <= k ==> w.expected[k] != [b])
      {
        NobodyMisleads(w, done, k);
        assert !SaysDone(w, done, k) && !AllFinished(w.expected[k], UpTo(done, k + 1));
        if i <= k {
          FinishedStays(done, i, k + 1, b);
        }
      }
      assert Strays(w, i, m, b);
    }
  }

  lemma AlwaysRightIff(w: Wait)
    requires WellFormed(w)
    ensures AlwaysRight(w) <==> forall i, m, b :: !Strays(w, i, m, b)
  {
    if i: nat, m: nat, b :| Strays(w, i, m, b) {
      var j := StrayMisleads(w, i, m, b);
    } else {
      forall done, m | Possible(w, done) && Asked(w, done, m)
        ensures RightAt(w, done, m)
      {
        NobodyMisleads(w, done, m);
      }
    }
  }

  // ----- The same about updates

  /** The waits that schedules allow. */
  function WaitFor(mode: Mode, plan: seq<Schedule>): (w: Wait)
    ensures |w.expected| == |w.can| == |plan|
    ensures forall k :: 0 <= k < |plan| ==>
      w.expected[k] == ExpectedIn(mode, plan[k]) && w.can[k] == CanFinishSet(mode, plan[k])
  {
    Wait(seq(|plan|, k requires 0 <= k < |plan| => ExpectedIn(mode, plan[k])),
         seq(|plan|, k requires 0 <= k < |plan| => CanFinishSet(mode, plan[k])))
  }

  function CanFinishSet(mode: Mode, s: Schedule): (r: set<Builder>)
    ensures forall b :: b in r <==> CanFinish(mode, s, b)
  {
    Elements(ExpectedIn(mode, s)) + if mode.UsesBuildbucket() then Elements(s.scheduled) else {}
  }

  function Finishes(mode: Mode, ticks: seq<Tick>): (done: seq<set<Builder>>)
    ensures |done| == |ticks| && forall k :: 0 <= k < |ticks| ==> done[k] == mode.FinishedIn(ticks[k])
  {
    seq(|ticks|, k requires 0 <= k < |ticks| => mode.FinishedIn(ticks[k]))
  }

  /** The builds that finished in one of the first updates. */
  lemma SameFinished(mode: Mode, ticks: seq<Tick>, n: nat)
    requires n <= |ticks|
    ensures UpTo(Finishes(mode, ticks), n) == FinishedInAny(mode, ticks[..n])
  {
    forall b
      ensures b in UpTo(Finishes(mode, ticks), n) <==> b in FinishedInAny(mode, ticks[..n])
    {
      if b in UpTo(Finishes(mode, ticks), n) {
        var i := FinishedWhen(Finishes(mode, ticks), n, b);
        FinishedOnce(mode, ticks[..n], i, b);
      }
      if b in FinishedInAny(mode, ticks[..n]) {
        var i := FinishedSomewhere(mode, ticks[..n], b);
        FinishedStays(Finishes(mode, ticks), i, n, b);
      }
    }
  }

  lemma FinishedSomewhere(mode: Mode, ticks: seq<Tick>, b: Builder) returns (i: nat)
    requires b in FinishedInAny(mode, ticks)
    ensures i < |ticks| && b in mode.FinishedIn(ticks[i])
  {
    i :| 0 <= i < |ticks| && b in mode.FinishedIn(ticks[i]);
  }

  /** What updates of these schedules report can be any possible choice of builds. */
  function TickWith(mode: Mode, s: Schedule, done: set<Builder>): Tick {
    Tick(s.scheduled, s.experimental,
         map b | b in Elements(s.scheduled) :: Some(if b in done then Success else Started),
         map b | b in Elements(ExpectedIn(mode, s)) && b in done :: Pass)
  }

  lemma TickWithFinishes(mode: Mode, s: Schedule, done: set<Builder>)
    requires done <= CanFinishSet(mode, s)
    ensures HasSchedule(TickWith(mode, s, done), s) && mode.FinishedIn(TickWith(mode, s, done)) == done
  {
    var t := TickWith(mode, s, done);
    assert mode.Expected(t) == ExpectedIn(mode, s);
    forall b
      ensures b in mode.FinishedIn(t) <==> b in done
    {
      assert b in done ==> CanFinish(mode, s, b);
    }
  }

  function TicksWith(mode: Mode, plan: seq<Schedule>, done: seq<set<Builder>>): (ticks: seq<Tick>)
    requires |done| == |plan|
    ensures |ticks| == |plan| && forall k :: 0 <= k < |plan| ==> ticks[k] == TickWith(mode, plan[k], done[k])
  {
    seq(|plan|, k requires 0 <= k < |plan| => TickWith(mode, plan[k], done[k]))
  }

  lemma TicksWithFinish(mode: Mode, plan: seq<Schedule>, done: seq<set<Builder>>)
    requires Possible(WaitFor(mode, plan), done)
    ensures HaveSchedules(TicksWith(mode, plan, done), plan) && Finishes(mode, TicksWith(mode, plan, done)) == done
  {
    var ticks := TicksWith(mode, plan, done);
    forall k | 0 <= k < |plan|
      ensures HasSchedule(ticks[k], plan[k]) && mode.FinishedIn(ticks[k]) == done[k]
    {
      assert done[k] <= WaitFor(mode, plan).can[k];
      TickWithFinishes(mode, plan[k], done[k]);
    }
  }

  lemma TicksArePossible(mode: Mode, plan: seq<Schedule>, ticks: seq<Tick>)
    requires HaveSchedules(ticks, plan)
    ensures Possible(WaitFor(mode, plan), Finishes(mode, ticks))
  {
    forall k | 0 <= k < |plan|
      ensures mode.FinishedIn(ticks[k]) <= WaitFor(mode, plan).can[k]
    {
      forall b | b in mode.FinishedIn(ticks[k])
        ensures b in CanFinishSet(mode, plan[k])
      {
        FinishedCould(mode, ticks[k], plan[k], b);
      }
    }
  }

  /** For given schedules every answer that a wait gets is right, whatever the statuses are. */
  ghost predicate WaitIsRight(mode: Mode, plan: seq<Schedule>) {
    forall ticks, m: nat :: HaveSchedules(ticks, plan) && Asked(WaitFor(mode, plan), Finishes(mode, ticks), m) ==>
      RightAt(WaitFor(mode, plan), Finishes(mode, ticks), m)
  }

  /** That is so exactly when there is no builder that can finish and is no longer expected later, in
      a wait that may last until then. */
  lemma WaitIsRightIff(mode: Mode, plan: seq<Schedule>)
    requires forall k :: 0 <= k < |plan| ==> NoDuplicates(ExpectedIn(mode, plan[k]))
    ensures WaitIsRight(mode, plan) <==> forall i, m, b :: !Strays(WaitFor(mode, plan), i, m, b)
  {
    var w := WaitFor(mode, plan);
    AlwaysRightIff(w);
    if AlwaysRight(w) {
      forall ticks, m: nat | HaveSchedules(ticks, plan) && Asked(w, Finishes(mode, ticks), m)
        ensures RightAt(w, Finishes(mode, ticks), m)
      {
        TicksArePossible(mode, plan, ticks);
      }
    } else {
      var done, m: nat :| Possible(w, done) && Asked(w, done, m) && !RightAt(w, done, m);
      TicksWithFinish(mode, plan, done);
      assert !RightAt(w, Finishes(mode, TicksWith(mode, plan, done)), m);
    }
  }
}
