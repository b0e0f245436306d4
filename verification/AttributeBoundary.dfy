/** Exactly which sets of callers can rely on a run attribute. The documentation promises that a
    get accepts the latest value and that a process re-queuing a value holds the lock; with more
    than one reader neither is true, and these are the conditions under which they are. */
module AttributeBoundary {
  import opened Wrappers
  import opened AttributeProtocol
  import opened AttributeTheorems

  lemma {:induction false} ExecAppend(s: State, a: seq<Pid>, b: seq<Pid>)
    ensures Exec(s, a + b) == Exec(Exec(s, a), b)
    decreases |b|
  {
    if b == [] {
      assert a + b == a;
    } else {
      var n := |b| - 1;
      assert (a + b)[..|a + b| - 1] == a + b[..n];
      ExecAppend(s, a, b[..n]);
    }
  }

  lemma ExecOne(s: State, p: Pid)
    ensures Exec(s, [p]) == Fire(s, p)
  {
    assert [p][..0] == [];
    assert Exec(s, []) == s;
  }

  /** Four steps of the same process. */
  lemma FireFour(s: State, p: Pid)
    ensures Exec(s, [p, p, p, p]) == Fire(Fire(Fire(Fire(s, p), p), p), p)
  {
    ExecOne(s, p);
    ExecOne(Fire(s, p), p);
    ExecOne(Fire(Fire(s, p), p), p);
    ExecOne(Fire(Fire(Fire(s, p), p), p), p);
    ExecAppend(s, [p], [p]);
    ExecAppend(s, [p, p], [p]);
    ExecAppend(s, [p, p, p], [p]);
    assert [p] + [p] == [p, p] && [p, p] + [p] == [p, p, p] && [p, p, p] + [p] == [p, p, p, p];
  }

  /** A setter that runs alone on an empty queue leaves its value there. */
  lemma SetterRuns(s: State, p: Pid)
    requires s.queue == [] && s.lock.None? && p in s.procs && s.procs[p].SetStart?
    ensures var v := s.procs[p].v;
      Exec(s, [p, p, p, p]) == State([v], None, s.procs[p := SetDone(v)], s.log + [v])
  {
    FireFour(s, p);
    var v := s.procs[p].v;
    var s1 := Fire(s, p);
    var s2 := Fire(s1, p);
    var s3 := Fire(s2, p);
    assert s2 == State([], Some(p), s1.procs[p := SetPut(v)], s.log);
    assert s3 == State([v], Some(p), s2.procs[p := SetRelease(v)], s.log + [v]);
    assert s.procs[p := SetDrain(v)][p := SetPut(v)][p := SetRelease(v)][p := SetDone(v)] == s.procs[p := SetDone(v)];
  }

  /** A getter takes the only value without the lock. */
  lemma FastGet(s: State, p: Pid, v: Value)
    requires s.queue == [v] && p in s.procs && s.procs[p].GetStart?
    ensures Exec(s, [p]) == State([], s.lock, s.procs[p := GetWait(s.procs[p].timeout, Some(v))], s.log)
  {
    ExecOne(s, p);
  }

  /** A getter that holds a value and finds an empty queue re-queues and returns what it holds. */
  lemma GetterReturns(s: State, p: Pid, v: Value)
    requires s.queue == [] && s.lock.None? && p in s.procs && s.procs[p].GetWait? && s.procs[p].got == Some(v)
    ensures Exec(s, [p, p, p, p])
         == State([v], None, s.procs[p := GetDone(s.procs[p].timeout, v, |s.log|)], s.log)
  {
    FireFour(s, p);
    var t, n := s.procs[p].timeout, |s.log|;
    var s1 := Fire(s, p);
    var s2 := Fire(s1, p);
    var s3 := Fire(s2, p);
    assert s2 == State([], Some(p), s1.procs[p := GetPut(t, v, n)], s.log);
    assert s3 == State([v], Some(p), s2.procs[p := GetRelease(t, v, n)], s.log);
    assert s.procs[p := GetDrain(t, Some(v), n)][p := GetPut(t, v, n)][p := GetRelease(t, v, n)][p := GetDone(t, v, n)]
        == s.procs[p := GetDone(t, v, n)];
  }

  predicate IsSet(s: State, p: Pid) {
    p in s.procs && s.procs[p].SetStart?
  }

  predicate IsGet(s: State, p: Pid) {
    p in s.procs && s.procs[p].GetStart?
  }

  predicate IsHas(s: State, p: Pid) {
    p in s.procs && s.procs[p].HasStart?
  }

  // ----- The value a get returns

  /** In every run every get returns the value of the last put before it took the lock. */
  ghost predicate GetsAreLatest(s0: State) {
    forall schedule :: AllLatest(Exec(s0, schedule))
  }

  ghost predicate AllLatest(s: State) {
    forall p :: p in s.procs && s.procs[p].GetDone? ==> StillLatest(s.procs[p], s.log)
  }

  predicate StillLatest(proc: Proc, log: seq<Value>)
    requires proc.GetDone?
  {
    0 < proc.at <= |log| && proc.value == log[proc.at - 1]
  }

  ghost predicate TwoReadersTwoValues(s0: State) {
    exists g1, g2, s1, s2 :: Competing(s0, g1, g2, s1, s2)
  }

  predicate Competing(s0: State, g1: Pid, g2: Pid, s1: Pid, s2: Pid) {
    g1 != g2 && IsGet(s0, g1) && IsGet(s0, g2) && IsSet(s0, s1) && IsSet(s0, s2) && s0.procs[s1].v != s0.procs[s2].v
  }

  /** Two readers and two setters: `g1` takes the first value, `g2` the second, and `g1` re-queues
      and returns the stale one. */
  lemma StaleGet(s0: State, g1: Pid, g2: Pid, s1: Pid, s2: Pid) returns (schedule: seq<Pid>)
    requires Initial(s0)
    requires Competing(s0, g1, g2, s1, s2)
    ensures var s := Exec(s0, schedule);
      && g1 in s.procs && g2 in s.procs
      && s.log == [s0.procs[s1].v, s0.procs[s2].v]
      && s.procs[g1] == GetDone(s0.procs[g1].timeout, s0.procs[s1].v, 2)
      && s.procs[g2] == GetWait(s0.procs[g2].timeout, Some(s0.procs[s2].v))
      && s.queue == [s0.procs[s1].v] && s.lock.None?
  {
    var v1, v2 := s0.procs[s1].v, s0.procs[s2].v;
    SetterRuns(s0, s1);
    var a := Exec(s0, [s1, s1, s1, s1]);
    FastGet(a, g1, v1);
    var b := Exec(a, [g1]);
    SetterRuns(b, s2);
    var c := Exec(b, [s2, s2, s2, s2]);
    FastGet(c, g2, v2);
    var d := Exec(c, [g2]);
    GetterReturns(d, g1, v1);
    ExecAppend(s0, [s1, s1, s1, s1], [g1]);
    ExecAppend(s0, [s1, s1, s1, s1] + [g1], [s2, s2, s2, s2]);
    ExecAppend(s0, [s1, s1, s1, s1] + [g1] + [s2, s2, s2, s2], [g2]);
    ExecAppend(s0, [s1, s1, s1, s1] + [g1] + [s2, s2, s2, s2] + [g2], [g1, g1, g1, g1]);
    schedule := [s1, s1, s1, s1] + [g1] + [s2, s2, s2, s2] + [g2] + [g1, g1, g1, g1];
  }

  /** Continuing that run, `g2` drops the second value as well: it is lost for good. */
  lemma SecondValueIsLost(s0: State, g1: Pid, g2: Pid, s1: Pid, s2: Pid) returns (schedule: seq<Pid>)
    requires Initial(s0)
    requires Competing(s0, g1, g2, s1, s2)
    ensures var s := Exec(s0, schedule);
      && g1 in s.procs && g2 in s.procs
      && s.log == [s0.procs[s1].v, s0.procs[s2].v]
      && s.queue == [s0.procs[s1].v]
      && s.procs[g1] == GetDone(s0.procs[g1].timeout, s0.procs[s1].v, 2)
      && s.procs[g2] == GetDone(s0.procs[g2].timeout, s0.procs[s1].v, 2)
  {
    var before := StaleGet(s0, g1, g2, s1, s2);
    var s := Exec(s0, before);
    StaleGetterDrains(s, g2, s0.procs[s1].v);
    ExecAppend(s0, before, [g2, g2, g2, g2]);
    ExecAppend(s0, before + [g2, g2, g2, g2], [g2]);
    ExecOne(Exec(s, [g2, g2, g2, g2]), g2);
    schedule := before + [g2, g2, g2, g2] + [g2];
  }

  /** A getter that holds a value but finds another one queued returns the queued one. */
  lemma StaleGetterDrains(s: State, p: Pid, v: Value)
    requires s.queue == [v] && s.lock.None? && p in s.procs && s.procs[p].GetWait? && s.procs[p].got.Some?
    ensures Fire(Exec(s, [p, p, p, p]), p)
         == State([v], None, s.procs[p := GetDone(s.procs[p].timeout, v, |s.log|)], s.log)
  {
    FireFour(s, p);
    var t, n := s.procs[p].timeout, |s.log|;
    var s2 := Fire(Fire(s, p), p);
    var s3 := Fire(s2, p);
    var s4 := Fire(s3, p);
    assert s2.queue == [] && s2.procs[p] == GetDrain(t, Some(v), n) && s3.procs[p] == GetPut(t, v, n);
    assert s4.queue == [v] && s4.procs[p] == GetRelease(t, v, n);
    assert Fire(s4, p).procs == s.procs[p := GetDone(t, v, n)];
  }

  /** Everything that is ever put comes from a setter of the run. */
  ghost predicate LogFrom(s0: State, log: seq<Value>) {
    forall x :: x in log ==> exists p :: IsSet(s0, p) && s0.procs[p].v == x
  }

  lemma {:induction false} EveryRunLogs(s0: State, schedule: seq<Pid>)
    requires Initial(s0)
    ensures LogFrom(s0, Exec(s0, schedule).log)
    decreases |schedule|
  {
    if schedule != [] {
      var init, p := schedule[..|schedule| - 1], schedule[|schedule| - 1];
      EveryRunLogs(s0, init);
      EveryRunKeepsCalls(s0, init);
      var s := Exec(s0, init);
      if Fire(s, p).log != s.log {
        assert Call(s.procs[p]) == Call(s0.procs[p]) == SetStart(s.procs[p].v);
        assert IsSet(s0, p);
      }
    }
  }

  ghost predicate AtMostOneReader(s0: State) {
    forall g1, g2 :: IsGet(s0, g1) && IsGet(s0, g2) ==> g1 == g2
  }

  lemma FlyingIsGet(s0: State, s: State, p: Pid)
    requires Initial(s0) && SameCalls(s0, s) && p in s.procs
    requires InFlight(s.procs[p]) || s.procs[p].GetDone? || s.procs[p].GetFailed? || Held(s.procs[p]).Some?
    ensures IsGet(s0, p) && s0.procs[p].timeout == s.procs[p].timeout
  {
    assert Starting(s0.procs[p]) && Call(s.procs[p]) == Call(s0.procs[p]);
  }

  lemma FewReadersTakeTurns(s0: State, schedule: seq<Pid>)
    requires Initial(s0) && AtMostOneReader(s0)
    ensures ReadersTakeTurns(s0, schedule)
  {
    forall n | 0 <= n <= |schedule|
      ensures OneReader(Exec(s0, schedule[..n]))
    {
      EveryRunKeepsCalls(s0, schedule[..n]);
      var s := Exec(s0, schedule[..n]);
      forall p, q | p in s.procs && q in s.procs && InFlight(s.procs[p]) && InFlight(s.procs[q])
        ensures p == q
      {
        FlyingIsGet(s0, s, p);
        FlyingIsGet(s0, s, q);
      }
    }
  }

  /** Without two setters of different values, all values ever put are equal. */
  lemma OneValueOnly(s0: State, s: State)
    requires Initial(s0) && LogFrom(s0, s.log) && OnlyPutValues(s)
    requires forall s1, s2 :: IsSet(s0, s1) && IsSet(s0, s2) ==> s0.procs[s1].v == s0.procs[s2].v
    ensures AllLatest(s)
  {
    forall p | p in s.procs && s.procs[p].GetDone?
      ensures StillLatest(s.procs[p], s.log)
    {
      assert ProcOk(s.procs[p], s.log);
      var last := s.log[s.procs[p].at - 1];
      assert s.procs[p].value in s.log && last in s.log;
    }
  }

  lemma FewCallersAreLatest(s0: State, schedule: seq<Pid>)
    requires Initial(s0) && !TwoReadersTwoValues(s0)
    ensures AllLatest(Exec(s0, schedule))
  {
    var s := Exec(s0, schedule);
    if AtMostOneReader(s0) {
      FewReadersTakeTurns(s0, schedule);
      SingleReaderIsLinearizable(s0, schedule);
      assert forall p :: p in s.procs ==> ReaderOk(s, s.procs[p]);
    } else {
      EveryRunKeepsInv(s0, schedule);
      EveryRunLogs(s0, schedule);
      var g1, g2 :| IsGet(s0, g1) && IsGet(s0, g2) && g1 != g2;
      forall s1, s2 | IsSet(s0, s1) && IsSet(s0, s2)
        ensures s0.procs[s1].v == s0.procs[s2].v
      {
        assert !Competing(s0, g1, g2, s1, s2);
      }
      OneValueOnly(s0, s);
    }
  }

  lemma ManyCallersAreNotLatest(s0: State) returns (schedule: seq<Pid>)
    requires Initial(s0) && TwoReadersTwoValues(s0)
    ensures !AllLatest(Exec(s0, schedule))
  {
    var g1, g2, s1, s2 :| Competing(s0, g1, g2, s1, s2);
    schedule := StaleGet(s0, g1, g2, s1, s2);
    ShownStale(Exec(s0, schedule), g1, s0.procs[s1].v, s0.procs[s2].v);
  }

  lemma ShownStale(s: State, p: Pid, v1: Value, v2: Value)
    requires p in s.procs && s.procs[p].GetDone? && s.procs[p].at == 2 && s.procs[p].value == v1
    requires s.log == [v1, v2] && v1 != v2
    ensures !AllLatest(s)
  {
    assert !StillLatest(s.procs[p], s.log);
  }

  /** Gets return the latest value in every run exactly when there are not both two readers and
      two setters with different values. */
  lemma LatestValueIff(s0: State)
    requires Initial(s0)
    ensures GetsAreLatest(s0) <==> !TwoReadersTwoValues(s0)
  {
    if TwoReadersTwoValues(s0) {
      var schedule := ManyCallersAreNotLatest(s0);
    } else {
      forall schedule
        ensures AllLatest(Exec(s0, schedule))
      {
        FewCallersAreLatest(s0, schedule);
      }
    }
  }

  // ----- When a get fails

  /** In every run a get fails only if no value was put before it took the lock. */
  ghost predicate FailuresAreHonest(s0: State) {
    forall schedule :: AllHonest(Exec(s0, schedule))
  }

  ghost predicate AllHonest(s: State) {
    forall p :: p in s.procs && s.procs[p].GetFailed? ==> s.procs[p].at == 0
  }

  ghost predicate ImpatientSecondReader(s0: State) {
    exists g1, g2, s1 :: g1 != g2 && IsGet(s0, g1) && IsGet(s0, g2) && IsSet(s0, s1)
      && !s0.procs[g2].timeout.Forever?
  }

  /** While `g1` holds the value without the lock, `g2` finds nothing and fails. */
  lemma SpuriousFailure(s0: State, g1: Pid, g2: Pid, s1: Pid) returns (schedule: seq<Pid>)
    requires Initial(s0)
    requires g1 != g2 && IsGet(s0, g1) && IsGet(s0, g2) && IsSet(s0, s1) && !s0.procs[g2].timeout.Forever?
    ensures var s := Exec(s0, schedule);
      g2 in s.procs && s.procs[g2] == GetFailed(s0.procs[g2].timeout, 1) && s.log == [s0.procs[s1].v]
  {
    SetterRuns(s0, s1);
    var a := Exec(s0, [s1, s1, s1, s1]);
    FastGet(a, g1, s0.procs[s1].v);
    var b := Exec(a, [g1]);
    ExecAppend(s0, [s1, s1, s1, s1], [g1]);
    ExecOne(b, g2);
    var c := Fire(b, g2);
    ExecOne(c, g2);
    var d := Fire(c, g2);
    ExecOne(d, g2);
    ExecAppend(s0, [s1, s1, s1, s1] + [g1], [g2]);
    ExecAppend(s0, [s1, s1, s1, s1] + [g1] + [g2], [g2]);
    ExecAppend(s0, [s1, s1, s1, s1] + [g1] + [g2] + [g2], [g2]);
    schedule := [s1, s1, s1, s1] + [g1] + [g2] + [g2] + [g2];
  }

  lemma LogHasSetter(s0: State, s: State) returns (p: Pid)
    requires LogFrom(s0, s.log) && s.log != []
    ensures IsSet(s0, p)
  {
    assert s.log[0] in s.log;
    p :| IsSet(s0, p) && s0.procs[p].v == s.log[0];
  }

  lemma FewCallersFailHonestly(s0: State, schedule: seq<Pid>)
    requires Initial(s0) && !ImpatientSecondReader(s0)
    ensures AllHonest(Exec(s0, schedule))
  {
    var s := Exec(s0, schedule);
    if AtMostOneReader(s0) {
      FewReadersTakeTurns(s0, schedule);
      SingleReaderIsLinearizable(s0, schedule);
      assert forall p :: p in s.procs ==> ReaderOk(s, s.procs[p]);
    } else {
      EveryRunKeepsInv(s0, schedule);
      EveryRunKeepsCalls(s0, schedule);
      EveryRunLogs(s0, schedule);
      forall p | p in s.procs && s.procs[p].GetFailed?
        ensures s.procs[p].at == 0
      {
        assert ProcOk(s.procs[p], s.log);
        FlyingIsGet(s0, s, p);
        var other :| IsGet(s0, other) && other != p;
        if s.log != [] {
          var s1 := LogHasSetter(s0, s);
        }
      }
    }
  }

  /** A get that is willing to give up can fail although a value was put, exactly when another
      reader is around. */
  lemma HonestFailureIff(s0: State)
    requires Initial(s0)
    ensures FailuresAreHonest(s0) <==> !ImpatientSecondReader(s0)
  {
    if ImpatientSecondReader(s0) {
      var g1, g2, s1 :| g1 != g2 && IsGet(s0, g1) && IsGet(s0, g2) && IsSet(s0, s1) && !s0.procs[g2].timeout.Forever?;
      var schedule := SpuriousFailure(s0, g1, g2, s1);
      assert !AllHonest(Exec(s0, schedule));
    } else {
      forall schedule
        ensures AllHonest(Exec(s0, schedule))
      {
        FewCallersFailHonestly(s0, schedule);
      }
    }
  }

  // ----- What a has reports

  /** In every run a has reports true exactly when a value was put before. */
  ghost predicate HasIsTruthful(s0: State) {
    forall schedule :: AllTruthful(Exec(s0, schedule))
  }

  ghost predicate AllTruthful(s: State) {
    forall p :: p in s.procs && s.procs[p].HasDone? ==> (s.procs[p].found <==> s.procs[p].at > 0)
  }

  ghost predicate ReaderBesidesHas(s0: State) {
    exists g1, h, s1 :: IsGet(s0, g1) && IsHas(s0, h) && IsSet(s0, s1)
  }

  lemma SpuriousHas(s0: State, g1: Pid, h: Pid, s1: Pid) returns (schedule: seq<Pid>)
    requires Initial(s0) && IsGet(s0, g1) && IsHas(s0, h) && IsSet(s0, s1)
    ensures var s := Exec(s0, schedule); h in s.procs && s.procs[h] == HasDone(false, 1)
  {
    SetterRuns(s0, s1);
    var a := Exec(s0, [s1, s1, s1, s1]);
    FastGet(a, g1, s0.procs[s1].v);
    var b := Exec(a, [g1]);
    ExecAppend(s0, [s1, s1, s1, s1], [g1]);
    ExecOne(b, h);
    var c := Fire(b, h);
    ExecOne(c, h);
    ExecAppend(s0, [s1, s1, s1, s1] + [g1], [h]);
    ExecAppend(s0, [s1, s1, s1, s1] + [g1] + [h], [h]);
    schedule := [s1, s1, s1, s1] + [g1] + [h] + [h];
  }

  lemma {:induction false} NoReaderNoLie(s0: State, schedule: seq<Pid>)
    requires Initial(s0) && !ReaderBesidesHas(s0)
    ensures AllTruthful(Exec(s0, schedule))
    decreases |schedule|
  {
    if schedule != [] {
      var init, p := schedule[..|schedule| - 1], schedule[|schedule| - 1];
      NoReaderNoLie(s0, init);
      EveryRunKeepsInv(s0, init);
      EveryRunKeepsCalls(s0, init);
      EveryRunLogs(s0, init);
      HasStep(s0, Exec(s0, init), p);
    }
  }

  lemma HasStep(s0: State, s: State, p: Pid)
    requires Initial(s0) && !ReaderBesidesHas(s0) && Inv(s) && SameCalls(s0, s) && LogFrom(s0, s.log)
    requires AllTruthful(s)
    ensures AllTruthful(Fire(s, p))
  {
    if p in s.procs && s.procs[p].HasLocked? {
      HasSeesPut(s0, s, p);
    }
    TruthKept(s, p);
  }

  lemma TruthKept(s: State, p: Pid)
    requires AllTruthful(s)
    requires p in s.procs && s.procs[p].HasLocked? ==> (s.queue != [] <==> s.log != [])
    ensures AllTruthful(Fire(s, p))
  {
    OthersDoNotMove(s, p);
    if p in s.procs {
      HasReports(s, p);
    }
  }

  lemma HasReports(s: State, p: Pid)
    requires p in s.procs
    ensures s.procs[p].HasDone? ==> Fire(s, p) == s
    ensures s.procs[p].HasLocked? ==> Fire(s, p).procs[p] == HasDone(s.queue != [], |s.log|)
    ensures !s.procs[p].HasDone? && !s.procs[p].HasLocked? ==> !Fire(s, p).procs[p].HasDone?
  {
  }

  lemma HasSeesPut(s0: State, s: State, h: Pid)
    requires Initial(s0) && !ReaderBesidesHas(s0) && Inv(s) && SameCalls(s0, s) && LogFrom(s0, s.log)
    requires h in s.procs && s.procs[h].HasLocked?
    ensures s.queue != [] <==> s.log != []
  {
    if s.queue != [] {
      assert s.queue[0] in s.log;
    } else if s.log != [] {
      var g := SomebodyHolds(s, h);
      FlyingIsGet(s0, s, g);
      HasStarted(s0, s, h);
      var s1 := LogHasSetter(s0, s);
    }
  }

  lemma HasStarted(s0: State, s: State, h: Pid)
    requires Initial(s0) && SameCalls(s0, s) && h in s.procs && s.procs[h].HasLocked?
    ensures IsHas(s0, h)
  {
    assert Starting(s0.procs[h]) && Call(s.procs[h]) == Call(s0.procs[h]);
  }

  lemma SomebodyHolds(s: State, h: Pid) returns (g: Pid)
    requires LockOwned(s) && NeverLost(s) && h in s.procs && s.procs[h].HasLocked?
    requires s.queue == [] && s.log != []
    ensures g in s.procs && Held(s.procs[g]).Some?
  {
    assert forall q :: q in s.procs && Overwriting(s.procs[q]) ==> Locked(s.procs[q]);
    g :| g in Holders(s);
  }

  /** A has can report a set attribute as missing exactly when a reader is around. */
  lemma TruthfulHasIff(s0: State)
    requires Initial(s0)
    ensures HasIsTruthful(s0) <==> !ReaderBesidesHas(s0)
  {
    if ReaderBesidesHas(s0) {
      var g1, h, s1 :| IsGet(s0, g1) && IsHas(s0, h) && IsSet(s0, s1);
      var schedule := SpuriousHas(s0, g1, h, s1);
      assert !AllTruthful(Exec(s0, schedule));
    } else {
      forall schedule
        ensures AllTruthful(Exec(s0, schedule))
      {
        NoReaderNoLie(s0, schedule);
      }
    }
  }
}
