/** What callers of one run attribute may rely on, and exactly when. */
module AttributeTheorems {
  import opened Wrappers
  import opened AttributeProtocol

  // ----- One setter: its value is always in exactly one place

  ghost predicate AtMostOneSetter(s: State) {
    forall p, q :: p in s.procs && q in s.procs && Call(s.procs[p]).SetStart? && Call(s.procs[q]).SetStart? ==> p == q
  }

  /** Queued and held values together are as many as there were puts. */
  ghost predicate Conserved(s: State) {
    && |s.queue| + |Holders(s)| == |s.log|
    && (forall p :: p in s.procs && Call(s.procs[p]).SetStart? ==>
          (s.log == [] <==> s.procs[p].SetStart? || Overwriting(s.procs[p])))
    && |s.log| <= 1
  }

  lemma HoldersAfter(s: State, p: Pid)
    requires p in s.procs
    ensures Holders(Fire(s, p)) == if Held(Fire(s, p).procs[p]).Some? then Holders(s) + {p} else Holders(s) - {p}
  {
    var s' := Fire(s, p);
    OthersDoNotMove(s, p);
    forall q
      ensures q in Holders(s') <==> if q == p then Held(s'.procs[p]).Some? else q in Holders(s)
    {
      assert q in s.procs && q != p ==> s'.procs[q] == s.procs[q];
    }
  }

  function Count(held: Option<Value>): nat {
    if held.Some? then 1 else 0
  }

  /** Only the moving process changes how many values are held. */
  lemma HoldersChange(s: State, p: Pid)
    requires p in s.procs
    ensures |Holders(Fire(s, p))| == |Holders(s)| + Count(Held(Fire(s, p).procs[p])) - Count(Held(s.procs[p]))
    ensures Count(Held(s.procs[p])) <= |Holders(s)|
  {
    HoldersAfter(s, p);
    assert p in Holders(s) <==> Held(s.procs[p]).Some?;
    SingletonOnly(Holders(s), p);
  }

  /** The mover takes, puts or passes on one value at a time; nothing is overwritten, because with
      one setter no second value exists. */
  lemma MoverConserves(s: State, p: Pid)
    requires Inv(s) && Conserved(s) && p in s.procs && Count(Held(s.procs[p])) <= |Holders(s)|
    ensures var s' := Fire(s, p);
      |s'.queue| + Count(Held(s'.procs[p])) - |s'.log| == |s.queue| + Count(Held(s.procs[p])) - |s.log|
  {
    assert ProcOk(s.procs[p], s.log);
    if s.procs[p].SetDrain? {
      assert Call(s.procs[p]).SetStart?;
    }
  }

  lemma SetterFlags(s: State, p: Pid)
    requires Inv(s) && AtMostOneSetter(s) && Conserved(s) && p in s.procs
    ensures var s' := Fire(s, p);
      && (forall q :: q in s'.procs && Call(s'.procs[q]).SetStart? ==>
            (s'.log == [] <==> s'.procs[q].SetStart? || Overwriting(s'.procs[q])))
      && |s'.log| <= 1
  {
    var s' := Fire(s, p);
    OthersDoNotMove(s, p);
    MoverKeepsCall(s, p);
    if s'.log != s.log {
      assert s.procs[p].SetPut? && Call(s.procs[p]).SetStart?;
    }
    forall q | q in s'.procs && Call(s'.procs[q]).SetStart?
      ensures s'.log == [] <==> s'.procs[q].SetStart? || Overwriting(s'.procs[q])
    {
      if q != p {
        assert s'.procs[q] == s.procs[q];
        assert !Call(s.procs[p]).SetStart?;
      }
    }
  }

  lemma FireConserves(s: State, p: Pid)
    requires Inv(s) && AtMostOneSetter(s) && Conserved(s)
    ensures Conserved(Fire(s, p))
  {
    if p in s.procs {
      HoldersChange(s, p);
      MoverConserves(s, p);
      SetterFlags(s, p);
    }
  }

  lemma SingletonOnly(s: set<Pid>, p: Pid)
    ensures p in s ==> |s - {p}| == |s| - 1 && s + {p} == s
    ensures p !in s ==> |s + {p}| == |s| + 1 && s - {p} == s
  {
  }

  /** With a single setter in the run its value is, once put, always either queued or held by
      exactly one getter. */
  lemma {:induction false} OneSetterConserves(s0: State, schedule: seq<Pid>)
    requires Initial(s0) && AtMostOneSetter(s0)
    ensures var s := Exec(s0, schedule); |s.queue| + |Holders(s)| == |s.log| <= 1
    ensures Conserved(Exec(s0, schedule))
    decreases |schedule|
  {
    if schedule == [] {
      assert Holders(s0) == {};
    } else {
      var init := schedule[..|schedule| - 1];
      OneSetterConserves(s0, init);
      EveryRunKeepsInv(s0, init);
      EveryRunKeepsCalls(s0, init);
      FireConserves(Exec(s0, init), schedule[|schedule| - 1]);
    }
  }

  // ----- One reader in flight: a get returns the latest value

  predicate InFlight(proc: Proc) {
    proc.GetWait? || proc.GetDrain? || proc.GetPut? || proc.GetRelease?
  }

  ghost predicate OneReader(s: State) {
    forall p, q :: p in s.procs && q in s.procs && InFlight(s.procs[p]) && InFlight(s.procs[q]) ==> p == q
  }

  /** No two gets overlap anywhere in the run. */
  ghost predicate ReadersTakeTurns(s0: State, schedule: seq<Pid>) {
    forall n :: 0 <= n <= |schedule| ==> OneReader(Exec(s0, schedule[..n]))
  }

  function Last(s: State): Value
    requires s.log != []
  {
    s.log[|s.log| - 1]
  }

  /** The latest value sits in the queue, or the only reader has taken it. */
  predicate LatestAt(s: State, got: Option<Value>) {
    s.log != [] ==> s.queue == [Last(s)] || (s.queue == [] && got == Some(Last(s)))
  }

  predicate ReaderOk(s: State, proc: Proc) {
    && (proc.GetDrain? ==> LatestAt(s, proc.got))
    && (proc.GetPut? ==> s.log != [] && proc.value == Last(s))
    && (proc.GetRelease? ==> s.log != [] && s.queue == [proc.value] && proc.value == Last(s))
    && (proc.GetDone? ==> 0 < proc.at <= |s.log| && proc.value == s.log[proc.at - 1])
    && (proc.GetFailed? ==> proc.at == 0)
  }

  ghost predicate Latest(s: State) {
    && (forall p :: p in s.procs ==> ReaderOk(s, s.procs[p]))
    && LatestKept(s)
  }

  lemma FireKeepsLatest(s: State, p: Pid)
    requires Inv(s) && Latest(s) && OneReader(s) && OneReader(Fire(s, p))
    ensures Latest(Fire(s, p))
  {
    var s' := Fire(s, p);
    if p in s.procs && s' != s {
      OthersDoNotMove(s, p);
      MoverReadsLatest(s, p);
      forall q | q in s'.procs
        ensures ReaderOk(s', s'.procs[q])
      {
        assert ReaderOk(s, s.procs[q]);
        assert ProcOk(s.procs[q], s.log);
        if q != p {
          OthersReadLatest(s, p, q);
        }
      }
      if Call(s.procs[p]).GetStart? {
        ReaderKeepsLatest(s, p);
      } else {
        SetterKeepsLatest(s, p);
      }
    }
  }

  lemma TakesLockWithLatest(s: State, p: Pid)
    requires Inv(s) && Latest(s) && OneReader(s) && p in s.procs && s.procs[p].GetWait? && s.lock.None?
    ensures LatestAt(s, s.procs[p].got)
  {
    if s.log != [] && s.queue != [Last(s)] {
      assert forall q :: q in s.procs ==> !Locked(s.procs[q]);
      var q :| q in s.procs && Held(s.procs[q]) == Some(Last(s));
      assert InFlight(s.procs[q]) && InFlight(s.procs[p]);
    }
  }

  lemma MoverReadsLatest(s: State, p: Pid)
    requires Inv(s) && Latest(s) && OneReader(s) && p in s.procs
    ensures ReaderOk(Fire(s, p), Fire(s, p).procs[p])
  {
    assert ReaderOk(s, s.procs[p]) && ProcOk(s.procs[p], s.log);
    if s.procs[p].GetWait? && s.lock.None? {
      TakesLockWithLatest(s, p);
    }
    ReadStep(s, p);
  }

  /** A reader's own step, given where the latest value is when it takes the lock. */
  lemma ReadStep(s: State, p: Pid)
    requires p in s.procs && ReaderOk(s, s.procs[p]) && ProcOk(s.procs[p], s.log)
    requires |s.queue| <= 1 && (s.procs[p].GetPut? ==> s.queue == []) && (forall x :: x in s.queue ==> x in s.log)
    requires s.procs[p].GetWait? && s.lock.None? ==> LatestAt(s, s.procs[p].got)
    ensures ReaderOk(Fire(s, p), Fire(s, p).procs[p])
  {
    if s.procs[p].GetDrain? {
      DrainStep(s, p);
    } else if s.procs[p].GetPut? {
      assert s.queue + [s.procs[p].value] == [s.procs[p].value];
    }
  }

  lemma DrainStep(s: State, p: Pid)
    requires p in s.procs && s.procs[p].GetDrain? && ReaderOk(s, s.procs[p]) && ProcOk(s.procs[p], s.log)
    requires |s.queue| <= 1 && forall x :: x in s.queue ==> x in s.log
    ensures ReaderOk(Fire(s, p), Fire(s, p).procs[p])
  {
    if s.queue != [] {
      assert s.queue == [s.queue[0]] && s.queue[0] in s.log;
    }
  }

  lemma OthersReadLatest(s: State, p: Pid, q: Pid)
    requires Inv(s) && Latest(s) && OneReader(s) && OneReader(Fire(s, p))
    requires p in s.procs && q in s.procs && q != p
    ensures ReaderOk(Fire(s, p), s.procs[q])
  {
    var s' := Fire(s, p);
    OthersDoNotMove(s, p);
    assert ReaderOk(s, s.procs[q]) && ProcOk(s.procs[q], s.log);
    assert s'.procs[q] == s.procs[q];
    if InFlight(s.procs[q]) {
      assert !InFlight(s.procs[p]) && !InFlight(s'.procs[p]);
    }
  }

  /** The latest value is queued, about to be overwritten, or held. */
  ghost predicate LatestKept(s: State) {
    s.log != [] && s.queue != [Last(s)] ==>
      (exists p :: p in s.procs && Overwriting(s.procs[p])) ||
      (s.queue == [] && exists p :: p in s.procs && Held(s.procs[p]) == Some(Last(s)))
  }

  lemma SetterKeepsLatest(s: State, p: Pid)
    requires Inv(s) && LatestKept(s) && p in s.procs && !Call(s.procs[p]).GetStart?
    ensures LatestKept(Fire(s, p))
  {
    var s' := Fire(s, p);
    OthersDoNotMove(s, p);
    if s'.log == s.log && !Overwriting(s'.procs[p]) && s'.log != [] && s'.queue != [Last(s')] {
      if q :| q in s.procs && Overwriting(s.procs[q]) {
        assert q != p && Overwriting(s'.procs[q]);
      } else {
        var q :| q in s.procs && Held(s.procs[q]) == Some(Last(s));
        assert q != p && s'.procs[q] == s.procs[q];
      }
    }
  }

  lemma ReaderKeepsLatest(s: State, p: Pid)
    requires Inv(s) && LatestKept(s) && p in s.procs && Call(s.procs[p]).GetStart? && ReaderOk(s, s.procs[p])
    ensures LatestKept(Fire(s, p))
  {
    var s' := Fire(s, p);
    OthersDoNotMove(s, p);
    if s'.log != [] && s'.queue != [Last(s')] {
      if q :| q in s.procs && Overwriting(s.procs[q]) {
        assert q != p && Overwriting(s'.procs[q]);
      } else if Held(s'.procs[p]) != Some(Last(s')) {
        var q :| q in s.procs && Held(s.procs[q]) == Some(Last(s));
        assert q != p && s'.procs[q] == s.procs[q];
      }
    }
  }

  /** With one reader at a time and any number of setters, a get returns the value of the last
      put before it took the lock, and fails only if there was none. */
  lemma {:induction false} SingleReaderIsLinearizable(s0: State, schedule: seq<Pid>)
    requires Initial(s0) && ReadersTakeTurns(s0, schedule)
    ensures Latest(Exec(s0, schedule))
    decreases |schedule|
  {
    if schedule != [] {
      var init := schedule[..|schedule| - 1];
      assert forall n :: 0 <= n <= |init| ==> init[..n] == schedule[..n];
      SingleReaderIsLinearizable(s0, init);
      EveryRunKeepsInv(s0, init);
      assert OneReader(Exec(s0, schedule[..|init|])) && OneReader(Exec(s0, schedule[..|schedule|]));
      assert schedule[..|schedule|] == schedule;
      FireKeepsLatest(Exec(s0, init), schedule[|schedule| - 1]);
    }
  }
}
