/** The scanner that empties the dependency work queue. */
module InstallScanner {
  import opened DepExpr
  import opened PackageDb
  import opened InstallPlan
  import opened InstallRuns

  class InstallPackageScanner {
    const problem: Problem
    var queue: set<Dep>
    var seen: map<Dep, bool>
    var listed: set<Dep>

    constructor (problem: Problem)
      ensures this.problem == problem
      ensures queue == {} && seen == map[] && listed == {}
    {
      this.problem := problem;
      queue, seen, listed := {}, map[], {};
    }

    ghost predicate Valid()
      reads this
    {
      listed <= queue <= seen.Keys
    }

    /** The state of the work loop, given what was recorded so far. */
    ghost function At(installs: Installs, order: seq<Pkg>): Search
      reads this
    {
      Search(installs, queue, seen, listed, order)
    }

    method EnqDep(dep: Dep, isListed: bool, optional: bool) returns (added: bool)
      requires Valid()
      modifies this
      ensures Valid()
      ensures added <==> !(dep in old(seen) && (optional || !old(seen)[dep]))
      ensures queue == if added then old(queue) + {dep} else old(queue)
      ensures seen == if added then old(seen)[dep := optional] else old(seen)
      ensures listed == if added && isListed then old(listed) + {dep} else old(listed)
      ensures Slack(queue, seen) <= Slack(old(queue), old(seen))
    {
      if dep in seen && (optional || !seen[dep]) {
        return false;
      }
      EnqueuedGrows(seen, dep, optional);
      queue := queue + {dep};
      seen := seen[dep := optional];
      if isListed {
        listed := listed + {dep};
      }
      added := true;
    }

    /** Listed dependencies come first. */
    method DeqDep() returns (dep: Dep, isListed: bool, optional: bool)
      requires Valid() && queue != {}
      modifies this
      ensures Valid() && seen == old(seen)
      ensures dep in old(queue) && queue == old(queue) - {dep} && listed == old(listed) - {dep}
      ensures |queue| == |old(queue)| - 1
      ensures isListed <==> old(listed) != {}
      ensures isListed <==> dep in old(listed)
      ensures optional == seen[dep]
    {
      if listed != {} {
        dep :| dep in listed;
        listed := listed - {dep};
        queue := queue - {dep};
        isListed := true;
      } else {
        dep :| dep in queue;
        queue := queue - {dep};
        isListed := false;
      }
      optional := seen[dep];
    }

    /** However the set hands out its elements, the outcome is that of enqueueing all at once. */
    method ProcessDeps(deps: set<Dep>, reverse: bool)
      requires Valid()
      modifies this
      ensures Valid() && listed == old(listed)
      ensures queue == EnqQueue(old(queue), old(seen), deps, reverse)
      ensures seen == EnqSeen(old(seen), deps, reverse)
    {
      var todo := deps;
      ghost var enqueued: set<Dep> := {};
      while todo != {}
        invariant enqueued * todo == {} && enqueued + todo == deps
        invariant Valid() && listed == old(listed)
        invariant Enqueues(old(queue), old(seen), queue, seen, enqueued, reverse)
        decreases todo
      {
        var dep :| dep in todo;
        ghost var q, s := queue, seen;
        var _ := EnqDep(dep, false, reverse);
        EnqueuesOneMore(old(queue), old(seen), q, s, enqueued, reverse, dep, queue, seen);
        todo, enqueued := todo - {dep}, enqueued + {dep};
      }
      assert enqueued == deps;
      EnqueuesAll(old(queue), old(seen), queue, seen, deps, reverse);
    }

    /** Queues the forward dependencies of package `k`, then its reverse dependencies. */
    method ProcessDepsOf(k: Pkg, ghost installs: Installs, ghost order: seq<Pkg>)
      requires Valid() && Has(problem.bin, k) && (problem.revRdeps ==> problem.target.Some?)
      modifies this
      ensures Valid()
      ensures At(installs, order)
           == EnqAll(EnqAll(old(At(installs, order)), ForwardOf(problem, k), false), ReverseOf(problem, k), true)
    {
      EnqNone(queue, seen, false);
      if problem.rdeps {
        ProcessDeps(Info(problem.bin, k).rdeps, false);
      }
      EnqNone(queue, seen, true);
      if problem.revRdeps && Has(problem.target.value, k) {
        ProcessDeps(Info(problem.target.value, k).revRdeps, true);
      }
    }

    /** Runs the queue dry, in whatever order the sets hand out their elements: the result is that of
        one of the runs, `pops` are the dependencies it dequeued, one in each iteration. */
    method ComputeInstalls() returns (installs: Installs, ghost pops: seq<Dep>, ghost order: seq<Pkg>)
      requires WellPosed(problem)
      requires queue == listed == seen.Keys && forall d :: d in seen ==> !seen[d]
      modifies this
      ensures Valid() && queue == {}
      ensures IsRun(problem, old(listed), pops) && After(problem, old(listed), pops) == At(installs, order)
      ensures Solution(problem, old(listed), installs, order)
      ensures |pops| <= 2 * |seen.Keys|
    {
      ghost var listed0 := listed;
      ghost var universe := AllDeps(problem, listed0);
      installs, pops, order := map[], [], [];
      assert At(installs, order) == Start(listed0);
      while queue != {}
        invariant Valid()
        invariant Legal(problem, listed0, pops) && After(problem, listed0, pops) == At(installs, order)
        decreases 2 * |universe| - |pops|
      {
        ghost var before := At(installs, order);
        var dep, isListed, optional := DeqDep();
        AfterSnoc(problem, listed0, pops, dep);
        RunIsBounded(problem, listed0, pops + [dep]);
        pops := pops + [dep];
        if dep.cp in installs {
          continue;
        }
        installs, order := ProcessDep(dep, isListed, optional, installs, order);
      }
      RunIsSolution(problem, listed0, pops);
    }

    /** Handles one dequeued dependency: every slot it names that needs installing is recorded,
        a later slot overwriting an earlier one, and pulls in its dependencies. */
    method ProcessDep(dep: Dep, isListed: bool, optional: bool, installs0: Installs, ghost order0: seq<Pkg>)
      returns (installs: Installs, ghost order: seq<Pkg>)
      requires Valid() && WellPosed(problem)
      modifies this
      ensures Valid()
      ensures At(installs, order)
           == VisitSlots(problem, old(At(installs0, order0)), dep, SlotsOf(problem.listing, dep.cp), isListed, optional)
    {
      installs, order := installs0, order0;
      var slots := SlotsOf(problem.listing, dep.cp);
      for i := 0 to |slots|
        invariant Valid()
        invariant At(installs, order)
               == VisitSlots(problem, old(At(installs0, order0)), dep, slots[..i], isListed, optional)
      {
        assert slots[i] in slots;
        assert slots[..i + 1][..i] == slots[..i];
        if !AnySlot(dep.slot) && slots[i].slot != dep.slot.value {
          continue;
        }
        installs, order := ProcessSlot(dep, slots[i], isListed, optional, installs, order);
      }
      assert slots[..|slots|] == slots;
    }

    /** Checks the binary package in one slot that the dependency names. */
    method ProcessSlot(dep: Dep, k: Pkg, isListed: bool, optional: bool, installs0: Installs, ghost order0: seq<Pkg>)
      returns (installs: Installs, ghost order: seq<Pkg>)
      requires Valid() && WellPosed(problem) && Has(problem.bin, k) && Matches(dep, k)
      modifies this
      ensures Valid()
      ensures At(installs, order) == VisitSlot(problem, old(At(installs0, order0)), dep, k, isListed, optional)
    {
      installs, order := installs0, order0;
      var info := Info(problem.bin, k);
      var (install, update) := NeedsInstall(problem.target, info.cpv, k.slot, info.buildTime, optional);
      if install {
        installs := installs[k.cp := Install(info.cpv, k.slot, isListed, update)];
        order := order + [k];
        ProcessDepsOf(k, installs, order);
      }
    }
  }
}
