/** Resolving a change into the transaction of changes that must land with it. */
module PatchPlan {
  import opened Wrappers
  import opened Graphs

  const MAX_PLAN_RECURSION: nat := 150

  /** A change, identified by its id; dependency queries name the change they denote. */
  type Change = string

  datatype Reason =
    | DepsLookupFailed
    | GerritFailed
    | Rejected
    | NotEligible
    | ReachedRecursionLimit
    | NotInManifest
    | Conflict

  /** Patch exceptions: what went wrong with which change, or a failure in a dependency of it. */
  datatype Exc =
    | PatchException(patch: Change, inflight: bool, reason: Reason)
    | DependencyError(patch: Change, cause: Exc)
  {
    function Inflight(): bool {
      match this
      case PatchException(_, inflight, _) => inflight
      case DependencyError(_, cause) => cause.Inflight()
    }

    function Root(): Exc {
      match this
      case PatchException(_, _, _) => this
      case DependencyError(_, cause) => cause.Root()
    }
  }

  /** What can be raised while a change is worked on. */
  datatype Raised = Gerrit | Patch(exc: Exc)

  /** The exception decorator: whatever is raised is blamed on the change being worked on. */
  function Wrap(parent: Change, e: Raised): (r: Exc)
    ensures r.patch == parent
    ensures r.Inflight() == (e.Patch? && e.exc.Inflight())
    ensures e.Patch? && e.exc.patch == parent ==> r == e.exc
    ensures e.Gerrit? ==> r.Root() == PatchException(parent, false, GerritFailed)
    ensures e.Patch? ==> r.Root() == e.exc.Root()
  {
    match e
    case Gerrit => PatchException(parent, false, GerritFailed)
    case Patch(exc) => if exc.patch == parent then exc else DependencyError(parent, exc)
  }

  datatype Finding = Missing | Present | LookupFails

  /** The outside world while transactions are planned: it does not change meanwhile. */
  datatype World = World(
    deps: Change -> Option<seq<Change>>,
    hasHelper: Change -> bool,
    find: Change -> Finding,
    merged: Change -> bool,
    accepts: Change -> bool,
    committed: set<Change>,
    limitTo: Option<set<Change>>,
    submitting: bool)

  // ----- Unsatisfied dependencies

  predicate Allowed(w: World, d: Change) {
    w.limitTo.None? || d in w.limitTo.value
  }

  /** The dependency has to be looked at: not committed, and some helper is responsible for it. */
  predicate Relevant(w: World, d: Change) {
    d !in w.committed && w.hasHelper(d)
  }

  /** A known change that is not merged yet. */
  predicate Open(w: World, d: Change) {
    Relevant(w, d) && w.find(d).Present? && !w.merged(d)
  }

  /** The error that a single dependency causes, if any. */
  function Obstacle(w: World, d: Change): Option<Raised> {
    if Relevant(w, d) && w.find(d).LookupFails? then Some(Gerrit)
    else if Open(w, d) && !Allowed(w, d) then
      Some(Patch(PatchException(d, false, if w.submitting then Rejected else NotEligible)))
    else None
  }

  predicate Unsatisfied(w: World, d: Change) {
    Open(w, d) && w.accepts(d)
  }

  /** The first obstacle among the dependencies, if there is one. */
  function FirstObstacle(w: World, deps: seq<Change>): (r: Option<Raised>)
    ensures r.None? <==> forall i :: 0 <= i < |deps| ==> Obstacle(w, deps[i]).None?
    ensures r.Some? && r.value.Patch? ==>
      && r.value.exc.PatchException? && !r.value.exc.inflight
      && (r.value.exc.reason.Rejected? || r.value.exc.reason.NotEligible?)
  {
    if deps == [] then None
    else
      var before := FirstObstacle(w, deps[..|deps| - 1]);
      if before.Some? then before else Obstacle(w, deps[|deps| - 1])
  }

  function Keep(w: World, deps: seq<Change>): (r: seq<Change>)
    ensures forall d :: d in r <==> d in deps && Unsatisfied(w, d)
  {
    if deps == [] then []
    else
      var last := deps[|deps| - 1];
      assert deps == deps[..|deps| - 1] + [last];
      Keep(w, deps[..|deps| - 1]) + if Unsatisfied(w, last) then [last] else []
  }

  /** A dependency that is neither committed nor for another builder stops the planning when it cannot
      be looked up, or when it is known and not merged yet but not among the allowed ones. */
  predicate Stops(w: World, d: Change) {
    d !in w.committed && w.hasHelper(d) &&
    match w.find(d)
    case LookupFails => true
    case Missing => false
    case Present => !w.merged(d) && w.limitTo.Some? && d !in w.limitTo.value
  }

  /** What is raised then. */
  function StopError(w: World, d: Change): Raised {
    if w.find(d).LookupFails? then Gerrit
    else Patch(PatchException(d, false, if w.submitting then Rejected else NotEligible))
  }

  /** Position `i` is the first that stops the planning. */
  ghost predicate FirstStop(w: World, deps: seq<Change>, i: nat) {
    i < |deps| && Stops(w, deps[i]) && forall j :: 0 <= j < i ==> !Stops(w, deps[j])
  }

  lemma ObstacleIs(w: World, d: Change)
    ensures Obstacle(w, d) == if Stops(w, d) then Some(StopError(w, d)) else None
  {
  }

  /** The lookup goes through exactly when no dependency stops it. */
  lemma NoObstacleIff(w: World, deps: seq<Change>)
    ensures FirstObstacle(w, deps).None? <==> forall i :: 0 <= i < |deps| ==> !Stops(w, deps[i])
  {
    forall i | 0 <= i < |deps|
      ensures Obstacle(w, deps[i]).None? <==> !Stops(w, deps[i])
    {
      ObstacleIs(w, deps[i]);
    }
  }

  /** Otherwise it raises the error of the first one that does. */
  lemma {:induction false} FirstObstacleAt(w: World, deps: seq<Change>) returns (i: nat)
    requires FirstObstacle(w, deps).Some?
    ensures FirstStop(w, deps, i) && FirstObstacle(w, deps).value == StopError(w, deps[i])
  {
    var n := |deps| - 1;
    var init := deps[..n];
    assert forall j :: 0 <= j < n ==> init[j] == deps[j];
    if FirstObstacle(w, init).Some? {
      i := FirstObstacleAt(w, init);
    } else {
      i := n;
      ObstacleIs(w, deps[n]);
      NoObstacleIff(w, init);
    }
  }

  /** The dependencies kept are, in order, those that are uncommitted, for this builder, known, not
      merged and accepted. */
  lemma {:induction false} KeepAppend(w: World, a: seq<Change>, b: seq<Change>)
    ensures Keep(w, a + b) == Keep(w, a) + Keep(w, b)
    decreases |b|
  {
    if b == [] {
      assert a + b == a;
    } else {
      var n := |b| - 1;
      assert (a + b)[..|a + b| - 1] == a + b[..n];
      KeepAppend(w, a, b[..n]);
    }
  }

  lemma KeepOne(w: World, d: Change)
    ensures Keep(w, [d]) ==
      if d !in w.committed && w.hasHelper(d) && w.find(d).Present? && !w.merged(d) && w.accepts(d) then [d] else []
  {
    assert [d][..0] == [];
  }

  /** The changes that must land before or with `change`. */
  function Needs(w: World, change: Change): Result<seq<Change>, Raised> {
    if w.deps(change).None? then Err(Patch(PatchException(change, false, DepsLookupFailed)))
    else
      var obstacle := FirstObstacle(w, w.deps(change).value);
      if obstacle.Some? then Err(obstacle.value) else Ok(Keep(w, w.deps(change).value))
  }

  ghost function DepGraph(w: World): Graph<Change> {
    (u, v) => Needs(w, u).Ok? && v in Needs(w, u).value
  }

  lemma FirstObstacleFound(w: World, deps: seq<Change>, i: nat)
    requires i < |deps| && FirstObstacle(w, deps[..i]).None?
    ensures FirstObstacle(w, deps[..i + 1]) == Obstacle(w, deps[i])
    ensures Keep(w, deps[..i + 1]) == Keep(w, deps[..i]) + if Unsatisfied(w, deps[i]) then [deps[i]] else []
  {
    assert deps[..i + 1][..i] == deps[..i];
  }

  lemma {:induction false} ObstacleStays(w: World, deps: seq<Change>, i: nat)
    requires i <= |deps| && FirstObstacle(w, deps[..i]).Some?
    ensures FirstObstacle(w, deps) == FirstObstacle(w, deps[..i])
    decreases |deps| - i
  {
    if i == |deps| {
      assert deps[..i] == deps;
    } else {
      assert deps[..i + 1][..i] == deps[..i];
      ObstacleStays(w, deps, i + 1);
    }
  }

  method LookupUncommittedChanges(w: World, deps: seq<Change>) returns (r: Result<seq<Change>, Raised>)
    ensures r == var obstacle := FirstObstacle(w, deps);
                 if obstacle.Some? then Err(obstacle.value) else Ok(Keep(w, deps))
  {
    var unsatisfied: seq<Change> := [];
    for i := 0 to |deps|
      invariant FirstObstacle(w, deps[..i]).None?
      invariant unsatisfied == Keep(w, deps[..i])
    {
      var dep := deps[i];
      FirstObstacleFound(w, deps, i);
      if Obstacle(w, dep).Some? {
        ObstacleStays(w, deps, i + 1);
      }
      if dep in w.committed {
        continue;
      }
      if !w.hasHelper(dep) {
        continue;
      }
      match w.find(dep) {
        case LookupFails => return Err(Gerrit);
        case Missing => continue;
        case Present =>
      }
      if w.merged(dep) {
        continue;
      }
      if w.limitTo.Some? && dep !in w.limitTo.value {
        return Err(Patch(PatchException(dep, false, if w.submitting then Rejected else NotEligible)));
      }
      // The custom filter is applied to the collected changes in the end.
      if w.accepts(dep) {
        unsatisfied := unsatisfied + [dep];
      }
    }
    assert deps[..|deps|] == deps;
    r := Ok(unsatisfied);
  }

  // ----- Plans

  /** Every change comes after the changes it needs, unless it lies on a cycle. */
  ghost predicate Ordered(w: World, plan: seq<Change>) {
    forall i :: 0 <= i < |plan| ==> OnCycle(DepGraph(w), plan[i]) || NeededBefore(w, plan, i)
  }

  ghost predicate NeededBefore(w: World, plan: seq<Change>, i: nat)
    requires i < |plan|
  {
    forall v :: DepGraph(w)(plan[i], v) ==> v in plan[..i]
  }

  ghost predicate Within(p: seq<Change>, plan: seq<Change>) {
    forall u :: u in p ==> u in plan
  }

  lemma WithinSnoc(deps: seq<Change>, i: nat, before: seq<Change>, plan: seq<Change>)
    requires i < |deps| && Within(deps[..i], before) && Within(before, plan) && deps[i] in plan
    ensures Within(deps[..i + 1], plan)
  {
    assert deps[..i + 1] == deps[..i] + [deps[i]];
  }

  ghost predicate ClosedAt(w: World, plan: seq<Change>, u: Change) {
    Needs(w, u).Ok? && forall v :: v in Needs(w, u).value ==> v in plan
  }

  /** A finished plan for `root`. */
  ghost predicate IsPlan(w: World, root: Change, plan: seq<Change>) {
    && NoDuplicates(plan)
    && root in plan
    && (forall u :: u in plan ==> Reaches(DepGraph(w), root, u) && ClosedAt(w, plan, u))
    && Ordered(w, plan)
  }

  /** The state of planning for `root`: `stack` holds the changes whose dependencies are being added. */
  ghost predicate Planning(w: World, root: Change, plan: seq<Change>, seen: set<Change>, stack: seq<Change>) {
    && NoDuplicates(plan) && Ordered(w, plan)
    && (forall u :: u in plan ==> u in seen)
    && (forall u :: u in seen ==> u in plan || u in stack)
    && (forall u :: u in seen ==> Reaches(DepGraph(w), root, u))
    && (forall u :: u in seen && u !in stack ==> ClosedAt(w, plan, u))
    && OnStack(w, root, seen, stack)
  }

  /** The stack is a chain of distinct uncommitted changes that starts at `root`. */
  ghost predicate OnStack(w: World, root: Change, seen: set<Change>, stack: seq<Change>) {
    && NoDuplicates(stack)
    && (forall u :: u in stack ==> u in seen && u !in w.committed)
    && (stack != [] ==> stack[0] == root && IsPath(DepGraph(w), stack))
  }

  /** `change` is the root or something that the top of the stack needs. */
  ghost predicate Next(w: World, root: Change, stack: seq<Change>, change: Change) {
    if stack == [] then change == root else DepGraph(w)(stack[|stack| - 1], change)
  }

  /** A chain of more than `MAX_PLAN_RECURSION` changes from `root`, none of them committed and all
      but possibly the last one distinct. */
  ghost predicate LongChain(w: World, root: Change) {
    exists p :: IsChain(w, root, p) && NoDuplicates(p[..MAX_PLAN_RECURSION])
  }

  ghost predicate IsChain(w: World, root: Change, p: seq<Change>) {
    IsPath(DepGraph(w), p) && p[0] == root && |p| == MAX_PLAN_RECURSION + 1 && forall u :: u in p ==> u !in w.committed
  }

  /** Some reachable change cannot be resolved. */
  ghost predicate Stuck(w: World, root: Change) {
    exists u :: Reaches(DepGraph(w), root, u) && Needs(w, u).Err?
  }

  /** Why planning for `root` may fail. */
  ghost predicate Explains(w: World, root: Change, e: Exc) {
    if e.Root().PatchException? && e.Root().reason.ReachedRecursionLimit? then LongChain(w, root) else Stuck(w, root)
  }

  class PlanBuilder {
    const w: World
    var plan: seq<Change>
    var depsSeen: set<Change>

    constructor (w: World)
      ensures this.w == w && plan == [] && depsSeen == {}
    {
      this.w := w;
      plan, depsSeen := [], {};
    }

    method AddChangeToPlanWithDeps(ghost root: Change, ghost stack: seq<Change>, change: Change, remainingDepth: nat)
      returns (r: Result<(), Exc>)
      requires Planning(w, root, plan, depsSeen, stack) && Next(w, root, stack, change)
      requires |stack| + remainingDepth == MAX_PLAN_RECURSION
      modifies this
      ensures r.Ok? ==> Planning(w, root, plan, depsSeen, stack) && old(depsSeen) <= depsSeen
      ensures r.Ok? ==> change in plan || change in w.committed
      ensures r.Ok? ==> Within(old(plan), plan)
      ensures r.Ok? && change in w.committed ==> plan == old(plan)
      ensures r.Err? ==> r.error.patch == change && change !in w.committed && !r.error.Inflight()
      ensures r.Err? ==> Explains(w, root, r.error)
      decreases remainingDepth, 1
    {
      NextIsReached(w, root, depsSeen, stack, change);
      if change in w.committed {
        return Ok(());
      }
      if remainingDepth == 0 {
        StackIsLong(w, root, depsSeen, stack, change);
        return Err(PatchException(change, false, ReachedRecursionLimit));
      }
      var deps := w.deps(change);
      if deps.None? {
        return Err(PatchException(change, false, DepsLookupFailed));
      }
      if change !in depsSeen {
        var unsatisfied := LookupUncommittedChanges(w, deps.value);
        if unsatisfied.Err? {
          return Err(Wrap(change, unsatisfied.error));
        }
        r := AddDeps(root, stack, change, unsatisfied.value, remainingDepth);
        if r.Err? {
          return;
        }
      }
      if change !in plan {
        if change in old(depsSeen) {
          AppendOnCycle(w, root, plan, depsSeen, stack, change);
        } else {
          AppendAfterNeeds(w, root, plan, depsSeen, stack, change);
        }
        plan := plan + [change];
      } else if change !in old(depsSeen) {
        PopChange(w, root, plan, depsSeen, stack, change);
      }
      r := Ok(());
    }

    /** Adds the dependencies of a change that was not looked at before. */
    method AddDeps(ghost root: Change, ghost stack: seq<Change>, change: Change, deps: seq<Change>, remainingDepth: nat)
      returns (r: Result<(), Exc>)
      requires Planning(w, root, plan, depsSeen, stack) && Next(w, root, stack, change)
      requires change !in depsSeen && change !in w.committed && Reaches(DepGraph(w), root, change)
      requires Needs(w, change) == Ok(deps)
      requires |stack| + remainingDepth == MAX_PLAN_RECURSION && remainingDepth > 0
      modifies this
      ensures r.Ok? ==> Planning(w, root, plan, depsSeen, stack + [change])
      ensures r.Ok? ==> old(depsSeen) <= depsSeen && change in depsSeen && ClosedAt(w, plan, change)
      ensures r.Ok? ==> Within(old(plan), plan)
      ensures r.Err? ==> r.error.patch == change && !r.error.Inflight() && Explains(w, root, r.error)
      decreases remainingDepth, 0
    {
      ghost var deeper := stack + [change];
      PushChange(w, root, plan, depsSeen, stack, change);
      depsSeen := depsSeen + {change};
      for i := 0 to |deps|
        invariant Planning(w, root, plan, depsSeen, deeper)
        invariant old(depsSeen) <= depsSeen && change in depsSeen
        invariant Within(old(plan), plan)
        invariant Within(deps[..i], plan)
      {
        assert deps[i] in deps;
        NeedsAreOpen(w, change, deps[i]);
        ghost var before := plan;
        r := AddChangeToPlanWithDeps(root, deeper, deps[i], remainingDepth - 1);
        if r.Err? {
          return Err(Wrap(change, Patch(r.error)));
        }
        WithinSnoc(deps, i, before, plan);
      }
      assert deps[..|deps|] == deps;
      r := Ok(());
    }
  }

  lemma NeedsAreOpen(w: World, u: Change, v: Change)
    requires DepGraph(w)(u, v)
    ensures Unsatisfied(w, v) && Allowed(w, v) && v !in w.committed
  {
    var deps := w.deps(u).value;
    var i :| 0 <= i < |deps| && deps[i] == v;
    assert Obstacle(w, deps[i]).None?;
  }

  lemma NextIsReached(w: World, root: Change, seen: set<Change>, stack: seq<Change>, change: Change)
    requires OnStack(w, root, seen, stack) && Next(w, root, stack, change)
    ensures Reaches(DepGraph(w), root, change)
    ensures IsPath(DepGraph(w), stack + [change])
  {
    if stack == [] {
      ReachesSelf(DepGraph(w), root);
    } else {
      PathReaches(DepGraph(w), stack, 0, |stack| - 1);
      ReachesStep(DepGraph(w), root, stack[|stack| - 1], change);
    }
  }

  lemma StackIsLong(w: World, root: Change, seen: set<Change>, stack: seq<Change>, change: Change)
    requires OnStack(w, root, seen, stack) && Next(w, root, stack, change)
    requires |stack| == MAX_PLAN_RECURSION && change !in w.committed
    ensures LongChain(w, root)
  {
    NextIsReached(w, root, seen, stack, change);
    var p := stack + [change];
    assert IsChain(w, root, p) && p[..MAX_PLAN_RECURSION] == stack;
  }

  lemma PushChange(w: World, root: Change, plan: seq<Change>, seen: set<Change>, stack: seq<Change>, change: Change)
    requires Planning(w, root, plan, seen, stack) && Next(w, root, stack, change)
    requires change !in seen && change !in w.committed && Reaches(DepGraph(w), root, change)
    ensures Planning(w, root, plan, seen + {change}, stack + [change])
  {
    NextIsReached(w, root, seen, stack, change);
  }

  lemma PopChange(w: World, root: Change, plan: seq<Change>, seen: set<Change>, stack: seq<Change>, change: Change)
    requires Planning(w, root, plan, seen, stack + [change])
    requires ClosedAt(w, plan, change) && change in plan
    ensures Planning(w, root, plan, seen, stack)
  {
    var deeper := stack + [change];
    assert forall i :: 0 <= i < |stack| ==> deeper[i] == stack[i];
    assert forall u :: u in deeper <==> u in stack || u == change;
  }

  lemma OrderedSnoc(w: World, plan: seq<Change>, change: Change)
    requires Ordered(w, plan)
    requires OnCycle(DepGraph(w), change) || forall v :: DepGraph(w)(change, v) ==> v in plan
    ensures Ordered(w, plan + [change])
  {
    var longer := plan + [change];
    forall i | 0 <= i < |longer|
      ensures OnCycle(DepGraph(w), longer[i]) || NeededBefore(w, longer, i)
    {
      if i < |plan| {
        assert longer[..i] == plan[..i];
        assert OnCycle(DepGraph(w), plan[i]) || NeededBefore(w, plan, i);
      } else {
        assert longer[..i] == plan;
      }
    }
  }

  /** Everything the change needs is in the plan already. */
  lemma AppendAfterNeeds(
    w: World, root: Change, plan: seq<Change>, seen: set<Change>, stack: seq<Change>, change: Change)
    requires change !in plan && change in seen
    requires Planning(w, root, plan, seen, stack + [change]) && ClosedAt(w, plan, change)
    ensures Planning(w, root, plan + [change], seen, stack)
  {
    OrderedSnoc(w, plan, change);
    assert Planning(w, root, plan + [change], seen, stack + [change]);
    PopChange(w, root, plan + [change], seen, stack, change);
  }

  /** A change met again while its own dependencies are being added lies on a cycle. */
  lemma AppendOnCycle(w: World, root: Change, plan: seq<Change>, seen: set<Change>, stack: seq<Change>, change: Change)
    requires change !in plan && change in seen && Next(w, root, stack, change)
    requires Planning(w, root, plan, seen, stack)
    ensures Planning(w, root, plan + [change], seen, stack)
  {
    NextIsReached(w, root, seen, stack, change);
    var i :| 0 <= i < |stack| && stack[i] == change;
    RepeatIsOnCycle(DepGraph(w), stack + [change], i, |stack|);
    OrderedSnoc(w, plan, change);
  }

  // ----- Transactions

  method CreateTransaction(w: World, change: Change) returns (r: Result<seq<Change>, Exc>)
    ensures r.Ok? ==> if change in w.committed then r.value == [] else IsPlan(w, change, r.value)
    ensures r.Err? ==> r.error.patch == change && change !in w.committed && !r.error.Inflight()
    ensures r.Err? ==> Explains(w, change, r.error)
  {
    var builder := new PlanBuilder(w);
    var added := builder.AddChangeToPlanWithDeps(change, [], change, MAX_PLAN_RECURSION);
    r := if added.Ok? then Ok(builder.plan) else Err(added.error);
  }

  /** A plan holds exactly the changes that the requested one reaches, so it is closed, minimal and,
      as a set, the only possible one. */
  lemma PlanIsReachableSet(w: World, root: Change, plan: seq<Change>, u: Change)
    requires IsPlan(w, root, plan)
    ensures u in plan <==> Reaches(DepGraph(w), root, u)
  {
    if Reaches(DepGraph(w), root, u) {
      ReachedIsClosed(w, plan, root, u);
    }
  }

  /** Changes that are closed under needs hold everything that any of them reaches. */
  lemma ReachedIsClosed(w: World, closed: seq<Change>, u: Change, v: Change)
    requires (forall c :: c in closed ==> ClosedAt(w, closed, c)) && u in closed && Reaches(DepGraph(w), u, v)
    ensures v in closed
  {
    var p :| Connects(DepGraph(w), p, u, v);
    WalkStaysInside(w, closed, p, |p| - 1);
  }

  lemma {:induction false} WalkStaysInside(w: World, closed: seq<Change>, p: seq<Change>, n: nat)
    requires forall c :: c in closed ==> ClosedAt(w, closed, c)
    requires IsPath(DepGraph(w), p) && p[0] in closed && n < |p|
    ensures p[n] in closed
    decreases n
  {
    if n > 0 {
      WalkStaysInside(w, closed, p, n - 1);
      assert DepGraph(w)(p[n - 1], p[n]);
      assert ClosedAt(w, closed, p[n - 1]);
    }
  }

  /** Apart from the requested change, a plan holds only open, allowed, uncommitted changes. */
  lemma PlanIsAllowed(w: World, root: Change, plan: seq<Change>, u: Change)
    requires IsPlan(w, root, plan) && u in plan && u != root
    ensures u !in w.committed && Unsatisfied(w, u) && Allowed(w, u)
  {
    var p :| Connects(DepGraph(w), p, root, u);
    NeedsAreOpen(w, p[|p| - 2], u);
  }

  /** A change with an unresolvable change among those it reaches has no plan. */
  lemma StuckHasNoPlan(w: World, root: Change, plan: seq<Change>)
    requires Stuck(w, root)
    ensures !IsPlan(w, root, plan)
  {
    if IsPlan(w, root, plan) {
      var u :| Reaches(DepGraph(w), root, u) && Needs(w, u).Err?;
      PlanIsReachableSet(w, root, plan, u);
    }
  }

  /** Without cycles every change comes after all the changes it needs. */
  lemma AcyclicPlanIsTopological(w: World, root: Change, plan: seq<Change>)
    requires IsPlan(w, root, plan) && Acyclic(DepGraph(w))
    ensures forall i :: 0 <= i < |plan| ==> NeededBefore(w, plan, i)
    ensures forall i, j :: 0 <= i < |plan| && 0 <= j < |plan| && DepGraph(w)(plan[i], plan[j]) ==> j < i
  {
    assert forall i :: 0 <= i < |plan| ==> OnCycle(DepGraph(w), plan[i]) || NeededBefore(w, plan, i);
    forall i, j | 0 <= i < |plan| && 0 <= j < |plan| && DepGraph(w)(plan[i], plan[j])
      ensures j < i
    {
      var k :| 0 <= k < i && plan[..i][k] == plan[j];
    }
  }

  /** Without cycles the recursion limit is only reached by a chain of more than 150 different
      uncommitted changes, each needing the next. */
  lemma AcyclicLimitMeansLongChain(w: World, root: Change)
    requires LongChain(w, root) && Acyclic(DepGraph(w))
    ensures exists p :: IsChain(w, root, p) && NoDuplicates(p) && |p| == 151
  {
    var p :| IsChain(w, root, p) && NoDuplicates(p[..MAX_PLAN_RECURSION]);
    AcyclicPathsAreSimple(DepGraph(w), p);
  }
}
