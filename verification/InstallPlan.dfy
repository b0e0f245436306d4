/** Which packages a target needs: when a package needs installing, the rules by which one package
    pulls in another, and what a finished plan promises. */
module InstallPlan {
  import opened Wrappers
  import opened DepExpr
  import opened PackageDb
  import opened Graphs

  /** What the planner looks at: the target's packages (if they were read), the binary packages and
      the order in which they are listed, and whether forward and reverse dependencies are traced. */
  datatype Problem = Problem(target: Option<Db>, bin: Db, listing: seq<Pkg>, rdeps: bool, revRdeps: bool)

  /** The listing names exactly the binary packages, and reverse dependencies need a target. */
  ghost predicate WellPosed(p: Problem) {
    (forall k :: k in p.listing <==> Has(p.bin, k)) && (p.revRdeps ==> p.target.Some?)
  }

  /** A planned installation, indexed by CP. */
  datatype Install = Install(cpv: Cpv, slot: Slot, listed: bool, update: bool)

  type Installs = map<Cp, Install>

  // ----- Which packages need installing

  /** An absent or empty target database means that installed packages are not checked. */
  predicate Unchecked(target: Option<Db>) {
    target.None? || target.value == map[]
  }

  predicate OnTarget(target: Option<Db>, k: Pkg) {
    target.Some? && Has(target.value, k)
  }

  predicate UpToDate(target: Option<Db>, bin: PkgInfo, k: Pkg) {
    OnTarget(target, k) &&
    Info(target.value, k).cpv == bin.cpv && Info(target.value, k).buildTime == bin.buildTime
  }

  function NeedsInstall(target: Option<Db>, cpv: Cpv, slot: Slot, buildTime: string, optional: bool)
    : (r: (bool, bool))
    ensures target.None? || target.value == map[] ==> r == (true, false)
    ensures target.Some? && target.value != map[] ==>
      var k := Pkg(cpv.cp, slot);
      var present := Has(target.value, k);
      var current := present && Info(target.value, k).cpv == cpv && Info(target.value, k).buildTime == buildTime;
      (r.0 <==> !current && (optional ==> present)) && (r.1 <==> r.0 && present)
  {
    if Unchecked(target) then (true, false)
    else
      var cp := cpv.cp;
      if cp in target.value && slot in target.value[cp] then
        var onTarget := target.value[cp][slot];
        if cpv != onTarget.cpv then (true, true)
        else if buildTime != onTarget.buildTime then (true, true)
        else (false, false)
      else if optional then (false, false)
      else (true, false)
  }

  predicate Wanted(p: Problem, k: Pkg, optional: bool) {
    Has(p.bin, k) && NeedsInstall(p.target, Info(p.bin, k).cpv, k.slot, Info(p.bin, k).buildTime, optional).0
  }

  predicate IsUpdate(p: Problem, k: Pkg)
    requires Has(p.bin, k)
  {
    NeedsInstall(p.target, Info(p.bin, k).cpv, k.slot, Info(p.bin, k).buildTime, false).1
  }

  lemma OptionalIsWeaker(p: Problem, k: Pkg)
    ensures Wanted(p, k, true) ==> Wanted(p, k, false)
    ensures Wanted(p, k, true) ==>
      NeedsInstall(p.target, Info(p.bin, k).cpv, k.slot, Info(p.bin, k).buildTime, true).1 == IsUpdate(p, k)
  {
  }

  // ----- The reachability rules

  function ForwardOf(p: Problem, k: Pkg): set<Dep> {
    if p.rdeps && Has(p.bin, k) then Info(p.bin, k).rdeps else {}
  }

  function ReverseOf(p: Problem, k: Pkg): set<Dep> {
    if p.revRdeps && OnTarget(p.target, k) then Info(p.target.value, k).revRdeps else {}
  }

  /** `d` is asked for: by the user, by a forward dependency of an installed package, or, only
      optionally, by a reverse dependency on the target of an installed package. */
  ghost predicate Pulled(p: Problem, listed: set<Dep>, done: set<Pkg>, d: Dep, optional: bool) {
    if optional then exists k :: k in done && d in ReverseOf(p, k)
    else d in listed || exists k :: k in done && d in ForwardOf(p, k)
  }

  /** One rule application: `k` needs installing because of something that is asked for. */
  ghost predicate Justified(p: Problem, listed: set<Dep>, done: set<Pkg>, k: Pkg) {
    exists d, optional :: Pulled(p, listed, done, d, optional) && Matches(d, k) && Wanted(p, k, optional)
  }

  /** `done` is closed under the rules. */
  ghost predicate Closed(p: Problem, listed: set<Dep>, done: set<Pkg>) {
    forall k :: Justified(p, listed, done, k) ==> k in done
  }

  /** Every package of `order` is justified by the ones before it. */
  ghost predicate Derivation(p: Problem, listed: set<Dep>, order: seq<Pkg>) {
    forall i :: 0 <= i < |order| ==> Justified(p, listed, Elements(order[..i]), order[i])
  }

  // ----- What a finished run guarantees

  /** A dependency is settled when its CP is installed or no binary package it names needs installing. */
  ghost predicate Settled(p: Problem, installs: Installs, d: Dep, optional: bool) {
    d.cp in installs || forall k :: Matches(d, k) ==> !Wanted(p, k, optional)
  }

  ghost predicate Recorded(p: Problem, installs: Installs, cp: Cp)
    requires cp in installs
  {
    var k := Pkg(cp, installs[cp].slot);
    Has(p.bin, k) && installs[cp].cpv == Info(p.bin, k).cpv && installs[cp].update == IsUpdate(p, k)
  }

  ghost predicate ListedFor(listed: set<Dep>, k: Pkg) {
    exists d :: d in listed && Matches(d, k)
  }

  /** The installs of a run over the initially `listed` dependencies, and the packages it
      recorded, in the order in which it recorded them. */
  ghost predicate Solution(p: Problem, listed: set<Dep>, installs: Installs, order: seq<Pkg>) {
    && Derivation(p, listed, order)
    && (forall k :: k in order ==> k.cp in installs)
    && (forall cp :: cp in installs ==> Pkg(cp, installs[cp].slot) in order && Recorded(p, installs, cp))
    && (forall cp :: cp in installs ==> (installs[cp].listed <==> ListedFor(listed, Pkg(cp, installs[cp].slot))))
    && (forall d, optional :: Pulled(p, listed, Elements(order), d, optional) ==> Settled(p, installs, d, optional))
  }

  lemma PulledMore(p: Problem, listed0: set<Dep>, done: set<Pkg>, more: set<Pkg>, d: Dep, optional: bool)
    requires Pulled(p, listed0, done, d, optional) && done <= more
    ensures Pulled(p, listed0, more, d, optional)
  {
  }

  lemma DerivationGrows(p: Problem, listed0: set<Dep>, order: seq<Pkg>, dep: Dep, optional: bool, k: Pkg)
    requires Derivation(p, listed0, order)
    requires Pulled(p, listed0, Elements(order), dep, optional) && Matches(dep, k) && Wanted(p, k, optional)
    ensures Derivation(p, listed0, order + [k])
  {
    var longer := order + [k];
    forall i | 0 <= i < |longer|
      ensures Justified(p, listed0, Elements(longer[..i]), longer[i])
    {
      assert longer[..i] == order[..i];
      if i == |order| {
        assert order[..i] == order;
      }
    }
  }
}
