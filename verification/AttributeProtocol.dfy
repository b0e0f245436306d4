/** One parallel run attribute: a queue and a lock, used by any number of processes at once. */
module AttributeProtocol {
  import opened Wrappers

  type Value = string
  type Pid = nat

  /** How long a get waits for a value: not at all, for a while, or until one appears. */
  datatype Timeout = NoWait | UpTo(seconds: nat) | Forever

  /** Where a process stands inside its one call. `at` is the number of puts by setters at the
      moment the lock was taken. */
  datatype Proc =
    | SetStart(v: Value)
    | SetDrain(v: Value)
    | SetPut(v: Value)
    | SetRelease(v: Value)
    | SetDone(v: Value)
    | GetStart(timeout: Timeout)
    | GetWait(timeout: Timeout, got: Option<Value>)
    | GetDrain(timeout: Timeout, got: Option<Value>, at: nat)
    | GetPut(timeout: Timeout, value: Value, at: nat)
    | GetRelease(timeout: Timeout, value: Value, at: nat)
    | GetDone(timeout: Timeout, value: Value, at: nat)
    | GetFailed(timeout: Timeout, at: nat)
    | HasStart
    | HasLocked
    | HasDone(found: bool, at: nat)

  /** `log` lists the values put by setters; it only serves to state what callers may expect. */
  datatype State = State(queue: seq<Value>, lock: Option<Pid>, procs: map<Pid, Proc>, log: seq<Value>) {
    function At(p: Pid, proc: Proc): State {
      this.(procs := procs[p := proc])
    }
  }

  /** The next step of process `p`; a process that must wait leaves the state as it is. */
  function Fire(s: State, p: Pid): State {
    if p !in s.procs then s
    else
      match s.procs[p]
      case SetStart(v) => Acquire(s, p, SetDrain(v))
      case SetDrain(v) =>
        if s.queue != [] then s.(queue := s.queue[1..]) else s.At(p, SetPut(v))
      case SetPut(v) => s.(queue := s.queue + [v], log := s.log + [v]).At(p, SetRelease(v))
      case SetRelease(v) => s.(lock := None).At(p, SetDone(v))
      case GetStart(timeout) =>
        // The first get does not take the lock; it times out only on an empty queue.
        if s.queue != [] then s.(queue := s.queue[1..]).At(p, GetWait(timeout, Some(s.queue[0])))
        else if timeout.Forever? then s
        else s.At(p, GetWait(timeout, None))
      case GetWait(timeout, got) => Acquire(s, p, GetDrain(timeout, got, |s.log|))
      case GetDrain(timeout, got, at) =>
        if s.queue != [] then s.(queue := s.queue[1..]).At(p, GetDrain(timeout, Some(s.queue[0]), at))
        else if got.Some? then s.At(p, GetPut(timeout, got.value, at))
        else s.(lock := None).At(p, GetFailed(timeout, at))
      case GetPut(timeout, value, at) => s.(queue := s.queue + [value]).At(p, GetRelease(timeout, value, at))
      case GetRelease(timeout, value, at) => s.(lock := None).At(p, GetDone(timeout, value, at))
      case HasStart => Acquire(s, p, HasLocked)
      case HasLocked => s.(lock := None).At(p, HasDone(s.queue != [], |s.log|))
      case _ => s
  }

  function Acquire(s: State, p: Pid, proc: Proc): State {
    if s.lock.None? then s.(lock := Some(p)).At(p, proc) else s
  }

  /** The state after the processes took steps in the order given by the schedule. */
  function Exec(s: State, schedule: seq<Pid>): State
    decreases |schedule|
  {
    if schedule == [] then s
    else Fire(Exec(s, schedule[..|schedule| - 1]), schedule[|schedule| - 1])
  }

  predicate Starting(proc: Proc) {
    proc.SetStart? || proc.GetStart? || proc.HasStart?
  }

  ghost predicate Initial(s: State) {
    s.queue == [] && s.lock.None? && s.log == [] && forall p :: p in s.procs ==> Starting(s.procs[p])
  }

  /** The call a process was started with. */
  function Call(proc: Proc): Proc {
    match proc
    case SetStart(v) => SetStart(v)
    case SetDrain(v) => SetStart(v)
    case SetPut(v) => SetStart(v)
    case SetRelease(v) => SetStart(v)
    case SetDone(v) => SetStart(v)
    case HasStart => HasStart
    case HasLocked => HasStart
    case HasDone(_, _) => HasStart
    case _ => GetStart(proc.timeout)
  }

  predicate Locked(proc: Proc) {
    proc.SetDrain? || proc.SetPut? || proc.SetRelease? ||
    proc.GetDrain? || proc.GetPut? || proc.GetRelease? || proc.HasLocked?
  }

  /** A setter that holds the lock and has not put its value yet. */
  predicate Overwriting(proc: Proc) {
    proc.SetDrain? || proc.SetPut?
  }

  /** The value a getter took off the queue and has not put back. */
  function Held(proc: Proc): Option<Value> {
    if proc.GetWait? || proc.GetDrain? then proc.got
    else if proc.GetPut? then Some(proc.value)
    else None
  }

  function Holders(s: State): set<Pid> {
    set p | p in s.procs && Held(s.procs[p]).Some?
  }

  // ----- What every interleaving keeps

  ghost predicate LockOwned(s: State) {
    forall p :: p in s.procs ==> (Locked(s.procs[p]) <==> s.lock == Some(p))
  }

  /** The queue never holds two values, and none while somebody is about to put one. */
  ghost predicate OneQueued(s: State) {
    |s.queue| <= 1 && forall p :: p in s.procs && (s.procs[p].SetPut? || s.procs[p].GetPut?) ==> s.queue == []
  }

  /** Values are never made up: whatever is queued, held or returned was put by a setter, and a
      returned value was put before the getter took the lock. */
  ghost predicate OnlyPutValues(s: State) {
    && (forall x :: x in s.queue ==> x in s.log)
    && (forall p :: p in s.procs ==> ProcOk(s.procs[p], s.log))
  }

  predicate ProcOk(proc: Proc, log: seq<Value>) {
    && (Held(proc).Some? ==> Held(proc).value in log)
    && (proc.GetDrain? || proc.GetPut? || proc.GetRelease? ==> proc.at == |log|)
    && (proc.GetRelease? ==> proc.value in log)
    && (proc.GetDone? ==> 0 < proc.at <= |log| && proc.value in log[..proc.at])
    && (proc.GetFailed? || proc.HasDone? ==> proc.at <= |log|)
    && (proc.GetWait? && proc.timeout.Forever? ==> proc.got.Some?)
    && (proc.GetDrain? && proc.timeout.Forever? ==> proc.got.Some?)
    && (proc.GetFailed? ==> !proc.timeout.Forever?)
  }

  /** A value once set is never lost: it is queued, held by a getter, or being overwritten. */
  ghost predicate NeverLost(s: State) {
    s.log != [] ==> s.queue != [] || Holders(s) != {} || exists p :: p in s.procs && Overwriting(s.procs[p])
  }

  ghost predicate Inv(s: State) {
    LockOwned(s) && OneQueued(s) && OnlyPutValues(s) && NeverLost(s)
  }

  lemma FireKeepsLock(s: State, p: Pid)
    requires LockOwned(s)
    ensures LockOwned(Fire(s, p))
  {
  }

  lemma FireKeepsQueue(s: State, p: Pid)
    requires LockOwned(s) && OneQueued(s)
    ensures OneQueued(Fire(s, p))
  {
  }

  /** A process that does not move stays in order when a setter puts a value. */
  lemma OthersStayOk(proc: Proc, log: seq<Value>, v: Value)
    requires ProcOk(proc, log) && !Locked(proc)
    ensures ProcOk(proc, log + [v])
  {
    if proc.GetDone? {
      assert (log + [v])[..proc.at] == log[..proc.at];
    }
  }

  lemma MoverStaysOk(s: State, p: Pid)
    requires p in s.procs && OnlyPutValues(s)
    ensures ProcOk(Fire(s, p).procs[p], Fire(s, p).log)
  {
    assert ProcOk(s.procs[p], s.log);
    if s.procs[p].GetStart? || s.procs[p].GetDrain? {
      TakerStaysOk(s, p);
    } else if Call(s.procs[p]).GetStart? {
      HolderStaysOk(s, p);
    }
  }

  /** A getter that may take a value off the queue. */
  lemma TakerStaysOk(s: State, p: Pid)
    requires p in s.procs && ProcOk(s.procs[p], s.log) && (forall x :: x in s.queue ==> x in s.log)
    requires s.procs[p].GetStart? || s.procs[p].GetDrain?
    ensures ProcOk(Fire(s, p).procs[p], Fire(s, p).log)
  {
  }

  /** A getter that waits for the lock, re-queues, or returns. */
  lemma HolderStaysOk(s: State, p: Pid)
    requires p in s.procs && ProcOk(s.procs[p], s.log)
    requires Call(s.procs[p]).GetStart? && !s.procs[p].GetStart? && !s.procs[p].GetDrain?
    ensures ProcOk(Fire(s, p).procs[p], Fire(s, p).log)
  {
    assert s.log[..|s.log|] == s.log;
  }

  lemma FireKeepsValues(s: State, p: Pid)
    requires LockOwned(s) && OnlyPutValues(s)
    ensures OnlyPutValues(Fire(s, p))
  {
    var s' := Fire(s, p);
    forall q | q in s'.procs
      ensures ProcOk(s'.procs[q], s'.log)
    {
      assert ProcOk(s.procs[q], s.log);
      if q == p {
        MoverStaysOk(s, p);
      } else if s'.log != s.log {
        assert !Locked(s.procs[q]);
        OthersStayOk(s.procs[q], s.log, s.procs[p].v);
      }
    }
  }

  lemma FireKeepsSetValues(s: State, p: Pid)
    requires LockOwned(s) && OneQueued(s) && NeverLost(s)
    ensures NeverLost(Fire(s, p))
  {
    var s' := Fire(s, p);
    if s' != s && s'.log != [] {
      var proc := s.procs[p];
      if Held(s'.procs[p]).Some? {
        assert p in Holders(s');
      } else if Overwriting(s'.procs[p]) {
      } else if s'.queue == [] {
        // Nothing of this process can be the reason; another one's still is.
        assert s.queue == [] && !Overwriting(proc);
        if q :| q in Holders(s) {
          assert q != p && q in Holders(s');
        } else {
          var q :| q in s.procs && Overwriting(s.procs[q]);
          assert q != p && Overwriting(s'.procs[q]);
        }
      }
    }
  }

  lemma FireKeepsInv(s: State, p: Pid)
    requires Inv(s)
    ensures Inv(Fire(s, p))
  {
    FireKeepsLock(s, p);
    FireKeepsQueue(s, p);
    FireKeepsValues(s, p);
    FireKeepsSetValues(s, p);
  }

  /** Whatever the number of processes and however they interleave. */
  lemma {:induction false} EveryRunKeepsInv(s0: State, schedule: seq<Pid>)
    requires Initial(s0)
    ensures Inv(Exec(s0, schedule))
    decreases |schedule|
  {
    if schedule == [] {
    } else {
      EveryRunKeepsInv(s0, schedule[..|schedule| - 1]);
      FireKeepsInv(Exec(s0, schedule[..|schedule| - 1]), schedule[|schedule| - 1]);
    }
  }

  /** A process never turns into a different call. */
  ghost predicate SameCalls(s0: State, s: State) {
    s.procs.Keys == s0.procs.Keys && forall p :: p in s.procs ==> Call(s.procs[p]) == Call(s0.procs[p])
  }

  lemma FireKeepsCalls(s: State, p: Pid)
    ensures SameCalls(s, Fire(s, p))
  {
    var s' := Fire(s, p);
    OthersDoNotMove(s, p);
    if p in s.procs {
      MoverKeepsCall(s, p);
    }
    forall q | q in s.procs
      ensures Call(s'.procs[q]) == Call(s.procs[q])
    {
      assert q != p ==> s'.procs[q] == s.procs[q];
    }
  }

  lemma OthersDoNotMove(s: State, p: Pid)
    ensures Fire(s, p).procs.Keys == s.procs.Keys
    ensures forall q :: q in s.procs && q != p ==> Fire(s, p).procs[q] == s.procs[q]
  {
  }

  lemma MoverKeepsCall(s: State, p: Pid)
    requires p in s.procs
    ensures Call(Fire(s, p).procs[p]) == Call(s.procs[p])
  {
  }

  lemma {:induction false} EveryRunKeepsCalls(s0: State, schedule: seq<Pid>)
    ensures SameCalls(s0, Exec(s0, schedule))
    decreases |schedule|
  {
    if schedule != [] {
      EveryRunKeepsCalls(s0, schedule[..|schedule| - 1]);
      FireKeepsCalls(Exec(s0, schedule[..|schedule| - 1]), schedule[|schedule| - 1]);
    }
  }
}
