/** The whole computation of the packages to deploy: databases, listed packages, installs, order. */
module Deploy {
  import opened Wrappers
  import opened DepExpr
  import opened PackageDb
  import opened InstallPlan
  import opened InstallRuns
  import opened InstallScanner
  import opened InstallSort
  import opened InstallTheorems

  /** A package argument: `@installed`, a specifier that was looked up, or one that matches nothing. */
  datatype Request = AllInstalled | Found(dep: Dep) | NoMatch

  datatype RunError =
    | RevDepsNeedForwardDeps
    | DepsNeedTarget
    | InstalledNeedsTarget
    | PackageNotFound
    | PackageNotInTree(dep: Dep)
    | Vartree(error: DbError)
    | Bintree(error: DbError)

  datatype Report = Report(sorted: seq<Cpv>, listed: set<Cpv>, numUpdates: nat)

  /** The binary packages that are also on the target. */
  function InstalledDeps(bin: Db, target: Db): set<Dep> {
    set k | k in Pkgs(bin) && Has(target, k) :: AsDep(k)
  }

  function RequestedBy(request: Request, p: Problem): set<Dep> {
    match request
    case AllInstalled => if p.target.Some? then InstalledDeps(p.bin, p.target.value) else {}
    case Found(dep) => {dep}
    case NoMatch => {}
  }

  function Requested(requests: seq<Request>, p: Problem): set<Dep> {
    set i, d | 0 <= i < |requests| && d in RequestedBy(requests[i], p) :: d
  }

  /** What is wrong with a request: `@installed` needs the target's packages, any other package must
      be among the binary ones. */
  function Refusal(request: Request, p: Problem): Option<RunError> {
    match request
    case AllInstalled => if p.target.None? then Some(InstalledNeedsTarget) else None
    case Found(dep) => if dep.cp !in p.bin then Some(PackageNotInTree(dep)) else None
    case NoMatch => Some(PackageNotFound)
  }

  /** A request is accepted exactly when it names a CP with a binary package, or all installed packages
      of a target that was read. */
  lemma AcceptableIff(request: Request, p: Problem)
    requires NoEmptyCp(p.bin)
    ensures Refusal(request, p).None? <==>
      (request.Found? && exists k :: Has(p.bin, k) && k.cp == request.dep.cp) ||
      (request.AllInstalled? && p.target.Some?)
  {
    if request.Found? && request.dep.cp in p.bin {
      var slot :| slot in p.bin[request.dep.cp];
      assert Has(p.bin, Pkg(request.dep.cp, slot));
    }
  }

  predicate AllAcceptable(requests: seq<Request>, p: Problem) {
    forall i :: 0 <= i < |requests| ==> Refusal(requests[i], p).None?
  }

  /** `e` is the refusal of the first request that is not acceptable. */
  ghost predicate FirstRefusal(requests: seq<Request>, p: Problem, e: RunError) {
    exists i :: 0 <= i < |requests| && AllAcceptable(requests[..i], p) && Refusal(requests[i], p) == Some(e)
  }

  /** Why a run fails, given the databases `p` as far as they were built. */
  ghost predicate Explained(e: RunError, p: Problem, targetInfo: seq<CpvInfo>, binInfo: seq<CpvInfo>,
                            requests: seq<Request>, update: bool, rdeps: bool, revRdeps: bool) {
    match e
    case RevDepsNeedForwardDeps => revRdeps && !rdeps
    case DepsNeedTarget => rdeps && !update
    case Vartree(error) => update && CannotBuild(targetInfo, rdeps, None, error)
    case Bintree(error) =>
      TargetFor(p.target, targetInfo, update, rdeps, revRdeps) && CannotBuild(binInfo, rdeps, p.target, error)
    case _ => ProblemFor(p, targetInfo, binInfo, update, rdeps, revRdeps) && FirstRefusal(requests, p, e)
  }

  /** The target's packages, if they are to be read, with the edges that are to be traced. */
  ghost predicate TargetFor(target: Option<Db>, targetInfo: seq<CpvInfo>, update: bool, rdeps: bool, revRdeps: bool) {
    && target.Some? == update
    && (update ==>
          && Lists(target.value, targetInfo)
          && (if rdeps then ForwardDone(target.value, None) else NoForward(target.value))
          && (if revRdeps then ReverseIsInverse(target.value) else NoReverse(target.value)))
  }

  /** The databases a run works on, built from the two package listings. */
  ghost predicate ProblemFor(
    p: Problem, targetInfo: seq<CpvInfo>, binInfo: seq<CpvInfo>, update: bool, rdeps: bool, revRdeps: bool)
  {
    && p.rdeps == rdeps && p.revRdeps == revRdeps && TargetFor(p.target, targetInfo, update, rdeps, revRdeps)
    && Lists(p.bin, binInfo) && (if rdeps then ForwardDone(p.bin, p.target) else NoForward(p.bin))
    && IsListing(p.listing, binInfo)
  }

  /** The packages in the order in which they are listed. */
  ghost predicate IsListing(listing: seq<Pkg>, infos: seq<CpvInfo>) {
    |listing| == |infos| && forall i :: 0 <= i < |infos| ==> listing[i] == Pkg(infos[i].cpv.cp, infos[i].slot)
  }

  function Listing(binInfo: seq<CpvInfo>): (r: seq<Pkg>)
    ensures IsListing(r, binInfo)
  {
    seq(|binInfo|, i requires 0 <= i < |binInfo| => KeyOf(binInfo[i]))
  }

  lemma ListingIsWellPosed(p: Problem, binInfo: seq<CpvInfo>)
    requires Lists(p.bin, binInfo) && IsListing(p.listing, binInfo) && (p.revRdeps ==> p.target.Some?)
    ensures WellPosed(p)
  {
    forall k
      ensures k in p.listing <==> Has(p.bin, k)
    {
      if k in p.listing {
        var i :| 0 <= i < |p.listing| && p.listing[i] == k;
        assert Records(p.bin, binInfo[i]);
      }
      if Has(p.bin, k) {
        var i :| 0 <= i < |binInfo| && KeyOf(binInfo[i]) == k;
        assert p.listing[i] == k;
      }
    }
  }

  /** What a report says about the installs it was made from. */
  ghost predicate Reports(r: Report, p: Problem, installs: Installs)
    requires Sortable(p.bin, installs)
  {
    && IsPermutation(installs, r.sorted) && OrderedUpToCycles(p.bin, installs, r.sorted)
    && (forall cp :: cp in installs ==> (installs[cp].cpv in r.listed <==> installs[cp].listed))
    && r.listed <= Cpvs(installs)
    && r.numUpdates == |Updates(installs)|
  }

  function Updates(installs: Installs): set<Cp> {
    set cp | cp in installs && installs[cp].update
  }

  lemma SolutionsAreSortable(p: Problem, listed: set<Dep>, installs: Installs, order: seq<Pkg>)
    requires Solution(p, listed, installs, order) && Filed(p.bin)
    ensures Sortable(p.bin, installs)
  {
    forall cp | cp in installs
      ensures Has(p.bin, Pkg(cp, installs[cp].slot)) && installs[cp].cpv.cp == cp
    {
      assert Recorded(p, installs, cp);
    }
  }

  method Run(targetInfo: seq<CpvInfo>, binInfo: seq<CpvInfo>, requests: seq<Request>,
             update: bool, processRdeps: bool, processRevRdeps: bool)
    returns (r: Result<Report, RunError>,
             ghost p: Problem, ghost installs: Installs, ghost pops: seq<Dep>, ghost order: seq<Pkg>)
    ensures r.Err? && r.error.RevDepsNeedForwardDeps? <==> processRevRdeps && !processRdeps
    ensures r.Err? && r.error.DepsNeedTarget? <==> !(processRevRdeps && !processRdeps) && processRdeps && !update
    ensures r.Ok? ==> DistinctKeys(binInfo) && (update ==> DistinctKeys(targetInfo))
    ensures r.Ok? ==> ProblemFor(p, targetInfo, binInfo, update, processRdeps, processRevRdeps)
    ensures r.Err? ==> Explained(r.error, p, targetInfo, binInfo, requests, update, processRdeps, processRevRdeps)
    ensures r.Ok? ==> AllAcceptable(requests, p)
    ensures r.Ok? ==> IsRun(p, Requested(requests, p), pops)
    ensures r.Ok? ==> After(p, Requested(requests, p), pops).installs == installs
    ensures r.Ok? ==> Solution(p, Requested(requests, p), installs, order)
    ensures r.Ok? ==> Sortable(p.bin, installs) && Reports(r.value, p, installs)
  {
    p, installs, pops, order := Problem(None, map[], [], false, false), map[], [], [];
    if processRevRdeps && !processRdeps {
      r := Err(RevDepsNeedForwardDeps);
      return;
    }
    if processRdeps && !update {
      r := Err(DepsNeedTarget);
      return;
    }
    var target: Option<Db> := None;
    if update {
      var vartree := BuildDB(targetInfo, processRdeps, processRevRdeps, None);
      if vartree.Err? {
        r := Err(Vartree(vartree.error));
        return;
      }
      target := Some(vartree.value);
    }
    var bintree := BuildDB(binInfo, processRdeps, false, target);
    p := Problem(target, map[], [], processRdeps, processRevRdeps);
    if bintree.Err? {
      r := Err(Bintree(bintree.error));
      return;
    }
    var problem := Problem(target, bintree.value, Listing(binInfo), processRdeps, processRevRdeps);
    p := problem;
    ListedAreFiled(p.bin, binInfo);
    ListingIsWellPosed(p, binInfo);
    var scanner := new InstallPackageScanner(problem);
    var failure := EnqueueRequests(scanner, requests);
    if failure.Some? {
      r := Err(failure.value);
      return;
    }
    var found, popped, trace := scanner.ComputeInstalls();
    installs, pops, order := found, popped, trace;
    SolutionsAreSortable(p, Requested(requests, p), installs, order);
    var sorted, _ := SortInstalls(problem.bin, found);
    var listed, numUpdates := Tally(found);
    r := Ok(Report(sorted, listed, numUpdates));
  }

  method EnqueueRequests(scanner: InstallPackageScanner, requests: seq<Request>) returns (failure: Option<RunError>)
    requires scanner.queue == {} && scanner.seen == map[] && scanner.listed == {}
    modifies scanner
    ensures failure.None? <==> AllAcceptable(requests, scanner.problem)
    ensures failure.Some? ==> FirstRefusal(requests, scanner.problem, failure.value)
    ensures failure.None? ==> scanner.listed == Requested(requests, scanner.problem)
    ensures failure.None? ==> OnlyListed(scanner)
  {
    var p := scanner.problem;
    for i := 0 to |requests|
      invariant AllAcceptable(requests[..i], p)
      invariant scanner.listed == Requested(requests[..i], p)
      invariant OnlyListed(scanner)
    {
      RequestedSnoc(requests, i, p);
      assert Refusal(requests[i], p).Some? ==> FirstRefusal(requests, p, Refusal(requests[i], p).value);
      assert requests[..i + 1] == requests[..i] + [requests[i]];
      match requests[i] {
        case AllInstalled =>
          if p.target.None? {
            return Some(InstalledNeedsTarget);
          }
          EnqueueListed(scanner, InstalledDeps(p.bin, p.target.value));
        case Found(dep) =>
          if dep.cp !in p.bin {
            return Some(PackageNotInTree(dep));
          }
          EnqueueListed(scanner, {dep});
        case NoMatch =>
          return Some(PackageNotFound);
      }
    }
    assert requests[..|requests|] == requests;
    failure := None;
  }

  ghost predicate OnlyListed(scanner: InstallPackageScanner)
    reads scanner
  {
    scanner.queue == scanner.listed == scanner.seen.Keys && forall d :: d in scanner.seen ==> !scanner.seen[d]
  }

  method EnqueueListed(scanner: InstallPackageScanner, deps: set<Dep>)
    requires OnlyListed(scanner)
    modifies scanner
    ensures OnlyListed(scanner) && scanner.listed == old(scanner.listed) + deps
  {
    var todo := deps;
    ghost var listed0 := scanner.listed;
    while todo != {}
      invariant todo <= deps
      invariant OnlyListed(scanner)
      invariant forall d :: d in scanner.listed <==> d in listed0 || (d in deps && d !in todo)
      decreases todo
    {
      var dep :| dep in todo;
      todo := todo - {dep};
      var _ := scanner.EnqDep(dep, true, false);
    }
  }

  lemma RequestedSnoc(requests: seq<Request>, i: nat, p: Problem)
    requires i < |requests|
    ensures Requested(requests[..i + 1], p) == Requested(requests[..i], p) + RequestedBy(requests[i], p)
  {
    var before, upto := requests[..i], requests[..i + 1];
    assert upto[i] == requests[i];
    assert forall j :: 0 <= j < i ==> upto[j] == before[j];
  }

  method Tally(installs: Installs) returns (listed: set<Cpv>, numUpdates: nat)
    ensures listed == set cp | cp in installs && installs[cp].listed :: installs[cp].cpv
    ensures numUpdates == |Updates(installs)|
  {
    listed, numUpdates := {}, 0;
    var todo := installs.Keys;
    ghost var counted: set<Cp> := {};
    while todo != {}
      invariant todo <= installs.Keys
      invariant listed == set cp | cp in installs && cp !in todo && installs[cp].listed :: installs[cp].cpv
      invariant counted == (set cp | cp in installs && cp !in todo && installs[cp].update) && numUpdates == |counted|
      decreases todo
    {
      var cp :| cp in todo;
      todo := todo - {cp};
      if installs[cp].listed {
        listed := listed + {installs[cp].cpv};
      }
      if installs[cp].update {
        numUpdates := numUpdates + 1;
        counted := counted + {cp};
      }
    }
    assert counted == Updates(installs);
  }

  // ----- What a run means for the user

  /** The request asks for `k`: `@installed` for what is on the target and among the binary packages,
      any other for what it names. */
  ghost predicate AsksFor(request: Request, p: Problem, k: Pkg) {
    match request
    case AllInstalled =>
      p.target.Some? && exists j ::
        Has(p.bin, j) && Has(p.target.value, j) && j.cp == k.cp && (j.slot == "" || j.slot == k.slot)
    case Found(dep) => Matches(dep, k)
    case NoMatch => false
  }

  lemma RequestedIff(requests: seq<Request>, p: Problem, k: Pkg)
    ensures ListedFor(Requested(requests, p), k) <==> exists i :: 0 <= i < |requests| && AsksFor(requests[i], p, k)
  {
    if i :| 0 <= i < |requests| && AsksFor(requests[i], p, k) {
      RequestIsListed(requests, p, i, k);
    }
    if d :| d in Requested(requests, p) && Matches(d, k) {
      var i :| 0 <= i < |requests| && d in RequestedBy(requests[i], p);
      if requests[i].AllInstalled? {
        var j :| j in Pkgs(p.bin) && Has(p.target.value, j) && d == AsDep(j);
      }
      assert AsksFor(requests[i], p, k);
    }
  }

  lemma RequestIsListed(requests: seq<Request>, p: Problem, i: nat, k: Pkg)
    requires i < |requests| && AsksFor(requests[i], p, k)
    ensures ListedFor(Requested(requests, p), k)
  {
    match requests[i]
    case Found(dep) =>
      assert dep in RequestedBy(requests[i], p);
    case AllInstalled =>
      var j :| Has(p.bin, j) && Has(p.target.value, j) && j.cp == k.cp && (j.slot == "" || j.slot == k.slot);
      assert j in Pkgs(p.bin) && AsDep(j) in InstalledDeps(p.bin, p.target.value);
      assert AsDep(j) in RequestedBy(requests[i], p) && Matches(AsDep(j), k);
  }

  /** An install counts as listed exactly when some request asks for it. */
  lemma ListedWasRequested(p: Problem, requests: seq<Request>, installs: Installs, order: seq<Pkg>, cp: Cp)
    requires Solution(p, Requested(requests, p), installs, order) && cp in installs
    ensures installs[cp].listed <==>
      exists i :: 0 <= i < |requests| && AsksFor(requests[i], p, Pkg(cp, installs[cp].slot))
  {
    RequestedIff(requests, p, Pkg(cp, installs[cp].slot));
  }

  /** Asking for all installed packages lists no package that is not on the target. */
  lemma InstalledOnlyUpdates(p: Problem, requests: seq<Request>, installs: Installs, order: seq<Pkg>, cp: Cp)
    requires Solution(p, Requested(requests, p), installs, order) && cp in installs && installs[cp].listed
    requires NamedSlots(p.bin) && forall i :: 0 <= i < |requests| ==> requests[i].AllInstalled?
    ensures OnTarget(p.target, Pkg(cp, installs[cp].slot))
  {
    ListedWasRequested(p, requests, installs, order, cp);
  }

  /** Whatever a request names is installed, as to its CP, or there is nothing to do for it. */
  lemma RequestsAreMet(p: Problem, requests: seq<Request>, installs: Installs, order: seq<Pkg>, i: nat, dep: Dep)
    requires Solution(p, Requested(requests, p), installs, order) && Filed(p.bin)
    requires i < |requests| && requests[i] == Found(dep)
    ensures dep.cp in installs || NothingToDo(p, dep, false)
  {
    assert dep in RequestedBy(requests[i], p);
    DependenciesAreMet(p, Requested(requests, p), installs, order, dep);
  }

  /** When reverse dependencies are traced: a package of the target whose dependencies resolve to
      something that names an install on the target is installed too, as to its CP, or there is nothing
      to do for it. */
  lemma DependentsAreMet(p: Problem, target: Db, listed: set<Dep>, installs: Installs, order: seq<Pkg>, cp: Cp, k: Pkg)
    requires p.target == Some(target) && p.revRdeps && cp in installs && Has(target, k)
    ensures
      && Solution(p, listed, installs, order) && Filed(p.bin)
      && ForwardDone(target, None) && ReverseIsInverse(target)
      && NamesInstalled(target, k, Pkg(cp, installs[cp].slot)) ==>
        k.cp in installs || NothingToDo(p, AsDep(k), true)
  {
    var to := Pkg(cp, installs[cp].slot);
    if ForwardDone(target, None) && ReverseIsInverse(target) && NamesInstalled(target, k, to) {
      TracedBack(target, k, to);
      if Solution(p, listed, installs, order) && Filed(p.bin) {
        DependenciesAreMet(p, listed, installs, order, AsDep(k));
      }
    }
  }

  /** The reverse dependencies of a target package are those whose raw dependencies name it. */
  lemma TracedBack(target: Db, k: Pkg, to: Pkg)
    requires ForwardDone(target, None) && ReverseIsInverse(target) && Has(target, k) && Has(target, to)
    ensures AsDep(k) in Info(target, to).revRdeps <==> NamesInstalled(target, k, to)
  {
    assert Rdeps(Info(target, k), target, None) == Ok(Info(target, k).rdeps);
    assert AsDep(k) in Info(target, to).revRdeps <==> DependsOn(target, k, to);
  }

  /** The raw dependencies of `k` resolve, among the target's packages, to something that names `to`,
      which is on the target. */
  ghost predicate NamesInstalled(target: Db, k: Pkg, to: Pkg)
    requires Has(target, k)
  {
    var rdeps := Rdeps(Info(target, k), target, None);
    Has(target, to) && rdeps.Ok? && exists d :: d in rdeps.value && Matches(d, to)
  }

  /** A bare CP, requested without a look at the target, is installed from the last line of the listing
      with that CP. */
  lemma LastListedSlotIsInstalled(
    bin: Db, listing: seq<Pkg>, binInfo: seq<CpvInfo>, cp: Cp, i: nat, pops: seq<Dep>)
    requires i < |binInfo| && binInfo[i].cpv.cp == cp && forall j :: i < j < |binInfo| ==> binInfo[j].cpv.cp != cp
    ensures Lists(bin, binInfo) && IsListing(listing, binInfo) && IsRun(Plain(bin, listing), {Dep(cp, None)}, pops) ==>
      After(Plain(bin, listing), {Dep(cp, None)}, pops).installs
      == map[cp := Install(binInfo[i].cpv, binInfo[i].slot, true, false)]
  {
    if Lists(bin, binInfo) && IsListing(listing, binInfo) && IsRun(Plain(bin, listing), {Dep(cp, None)}, pops) {
      ListingIsWellPosed(Plain(bin, listing), binInfo);
      LastSlotWins(bin, listing, cp, i, pops);
      assert Records(bin, binInfo[i]) && KeyOf(binInfo[i]) == listing[i];
    }
  }

  /** Deploying what is already deployed does nothing: if every binary package is on the target in
      the same version and build, nothing is planned, whatever was requested. */
  lemma UpToDateTargetNeedsNothing(p: Problem, listed: set<Dep>, installs: Installs, order: seq<Pkg>)
    requires Solution(p, listed, installs, order) && Filed(p.bin) && !Unchecked(p.target)
    requires forall k :: Has(p.bin, k) ==> UpToDate(p.target, Info(p.bin, k), k)
    ensures installs == map[]
  {
    if cp :| cp in installs {
      assert Recorded(p, installs, cp);
      InstallsAreNeeded(p, listed, installs, order, cp);
    }
  }
}
