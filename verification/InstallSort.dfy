/** Ordering the planned installs so that dependencies come first. */
module InstallSort {
  import opened DepExpr
  import opened PackageDb
  import opened InstallPlan
  import opened Graphs

  /** Every planned install has its record in the binary packages. */
  ghost predicate Sortable(bin: Db, installs: Installs) {
    forall cp :: cp in installs ==> Has(bin, Pkg(cp, installs[cp].slot)) && installs[cp].cpv.cp == cp
  }

  function RdepCps(bin: Db, installs: Installs, cp: Cp): set<Cp>
    requires cp in installs && Has(bin, Pkg(cp, installs[cp].slot))
  {
    set d | d in Info(bin, Pkg(cp, installs[cp].slot)).rdeps :: d.cp
  }

  /** The dependency graph among the planned installs; a package needs no order towards itself. */
  ghost function Needs(bin: Db, installs: Installs): Graph<Cp>
    requires Sortable(bin, installs)
  {
    (u, v) =>
      u != v && u in installs && v in installs &&
      exists d :: d in Info(bin, Pkg(u, installs[u].slot)).rdeps && d.cp == v
  }

  function Cpvs(installs: Installs): set<Cpv> {
    set cp | cp in installs :: installs[cp].cpv
  }

  /** `sorted` lists each planned CPV exactly once. */
  ghost predicate IsPermutation(installs: Installs, sorted: seq<Cpv>) {
    NoDuplicates(sorted) && forall cpv :: cpv in sorted <==> cpv in Cpvs(installs)
  }

  /** A dependency placed after its dependent leads back to it. */
  ghost predicate OrderedUpToCycles(bin: Db, installs: Installs, sorted: seq<Cpv>)
    requires Sortable(bin, installs)
  {
    forall i, j :: 0 <= i < j < |sorted| && Needs(bin, installs)(sorted[i].cp, sorted[j].cp)
      ==> Reaches(Needs(bin, installs), sorted[j].cp, sorted[i].cp)
  }

  /** Where a search stands: CPs not visited, the current path and the emitted list. */
  ghost predicate Searching(bin: Db, installs: Installs, notVisited: set<Cp>, path: seq<Cpv>, sorted: seq<Cpv>)
    requires Sortable(bin, installs)
  {
    && Accounted(installs, notVisited, path, sorted)
    && (forall i :: 0 <= i < |path| - 1 ==> Needs(bin, installs)(path[i].cp, path[i + 1].cp))
    && EdgesAnswered(bin, installs, sorted)
  }

  /** Each planned CPV is at exactly one place: not visited, on the path, or emitted. */
  ghost predicate Accounted(installs: Installs, notVisited: set<Cp>, path: seq<Cpv>, sorted: seq<Cpv>) {
    && notVisited <= installs.Keys
    && NoDuplicates(path) && NoDuplicates(sorted)
    && (forall x :: x in path ==> x !in sorted && Planned(installs, x))
    && (forall x :: x in sorted ==> Planned(installs, x))
    && (forall cp :: cp in installs ==>
          (cp in notVisited <==> installs[cp].cpv !in path && installs[cp].cpv !in sorted))
  }

  /** Each dependency of an emitted CPV was emitted before it or leads back to it. */
  ghost predicate EdgesAnswered(bin: Db, installs: Installs, sorted: seq<Cpv>)
    requires Sortable(bin, installs)
  {
    forall i, v :: 0 <= i < |sorted| && Needs(bin, installs)(sorted[i].cp, v)
      ==> installs[v].cpv in sorted[..i] || Reaches(Needs(bin, installs), v, sorted[i].cp)
  }

  ghost predicate Planned(installs: Installs, cpv: Cpv) {
    cpv.cp in installs && installs[cpv.cp].cpv == cpv
  }

  class Sorter {
    const bin: Db
    const installs: Installs
    var notVisited: set<Cp>
    var currPath: seq<Cpv>
    var sortedInstalls: seq<Cpv>

    constructor (bin: Db, installs: Installs)
      ensures this.bin == bin && this.installs == installs
      ensures notVisited == installs.Keys && currPath == [] && sortedInstalls == []
    {
      this.bin, this.installs := bin, installs;
      notVisited, currPath, sortedInstalls := installs.Keys, [], [];
    }

    ghost predicate Valid()
      reads this
    {
      Sortable(bin, installs) && Searching(bin, installs, notVisited, currPath, sortedInstalls)
    }

    /** Emits `cp` after everything it leads to. The test for a cycle never succeeds, because a CP
        leaves `notVisited` before it is entered. */
    method SortFrom(cp: Cp) returns (cycle: bool)
      requires Sortable(bin, installs) && cp in installs && cp !in notVisited
      requires Searching(bin, installs, notVisited + {cp}, currPath, sortedInstalls)
      requires currPath != [] ==> Needs(bin, installs)(currPath[|currPath| - 1].cp, cp)
      modifies this
      ensures !cycle && Valid() && currPath == old(currPath)
      ensures installs[cp].cpv in sortedInstalls
      ensures old(sortedInstalls) <= sortedInstalls
      ensures notVisited <= old(notVisited)
      decreases notVisited, 1
    {
      EnterNode(bin, installs, notVisited, currPath, sortedInstalls, cp);
      var cpv := installs[cp].cpv;
      if cpv in currPath {
        return true;
      }
      ghost var path0 := currPath;
      currPath := currPath + [cpv];
      VisitDeps(cp);
      Emit(cp, path0);
      cycle := false;
    }

    /** Continues from every dependency of the last node of the path that is not visited yet. */
    method VisitDeps(cp: Cp)
      requires Valid() && cp in installs
      requires currPath != [] && currPath[|currPath| - 1] == installs[cp].cpv
      modifies this
      ensures Valid() && currPath == old(currPath)
      ensures old(sortedInstalls) <= sortedInstalls && notVisited <= old(notVisited)
      ensures forall v :: v in RdepCps(bin, installs, cp) ==> v !in notVisited
      decreases notVisited, 0
    {
      ghost var all := RdepCps(bin, installs, cp);
      var rdeps := RdepCps(bin, installs, cp);
      while rdeps != {}
        invariant Valid() && currPath == old(currPath)
        invariant old(sortedInstalls) <= sortedInstalls && notVisited <= old(notVisited)
        invariant rdeps <= all
        invariant forall v :: v in all && v !in rdeps ==> v !in notVisited
        decreases rdeps
      {
        var rdepCp :| rdepCp in rdeps;
        rdeps := rdeps - {rdepCp};
        if rdepCp in notVisited {
          ghost var before := notVisited;
          assert installs[cp].cpv in currPath;
          assert Needs(bin, installs)(currPath[|currPath| - 1].cp, rdepCp);
          notVisited := notVisited - {rdepCp};
          assert notVisited + {rdepCp} == before;
          var _ := SortFrom(rdepCp);
        }
      }
    }

    /** Moves the last node of the path, whose dependencies are all visited, to the sorted list. */
    method Emit(cp: Cp, ghost path0: seq<Cpv>)
      requires Valid() && cp in installs && currPath == path0 + [installs[cp].cpv]
      requires forall v :: v in RdepCps(bin, installs, cp) ==> v !in notVisited
      modifies this`sortedInstalls, this`currPath
      ensures Valid() && currPath == path0
      ensures sortedInstalls == old(sortedInstalls) + [installs[cp].cpv]
    {
      LeaveNode(bin, installs, notVisited, path0, sortedInstalls, cp);
      sortedInstalls := sortedInstalls + [installs[cp].cpv];
      currPath := currPath[..|currPath| - 1];
    }
  }

  lemma EnterNode(bin: Db, installs: Installs, notVisited: set<Cp>, path: seq<Cpv>, sorted: seq<Cpv>, cp: Cp)
    requires Sortable(bin, installs) && cp in installs && cp !in notVisited
    requires Searching(bin, installs, notVisited + {cp}, path, sorted)
    requires path != [] ==> Needs(bin, installs)(path[|path| - 1].cp, cp)
    ensures installs[cp].cpv !in path
    ensures Searching(bin, installs, notVisited, path + [installs[cp].cpv], sorted)
  {
    assert installs[cp].cpv.cp == cp;
  }

  /** When all dependencies of the last node of the path are visited, the node may be emitted. */
  lemma LeaveNode(bin: Db, installs: Installs, notVisited: set<Cp>, path: seq<Cpv>, sorted: seq<Cpv>, cp: Cp)
    requires Sortable(bin, installs) && cp in installs
    requires Searching(bin, installs, notVisited, path + [installs[cp].cpv], sorted)
    requires forall v :: v in RdepCps(bin, installs, cp) ==> v !in notVisited
    ensures Searching(bin, installs, notVisited, path, sorted + [installs[cp].cpv])
  {
    var cpv := installs[cp].cpv;
    LeaveAccounted(installs, notVisited, path, sorted, cpv);
    forall i | 0 <= i < |path| - 1
      ensures Needs(bin, installs)(path[i].cp, path[i + 1].cp)
    {
      assert (path + [cpv])[i] == path[i] && (path + [cpv])[i + 1] == path[i + 1];
    }
    LeaveEdges(bin, installs, notVisited, path, sorted, cp);
  }

  lemma LeaveAccounted(installs: Installs, notVisited: set<Cp>, path: seq<Cpv>, sorted: seq<Cpv>, cpv: Cpv)
    requires Accounted(installs, notVisited, path + [cpv], sorted)
    ensures Accounted(installs, notVisited, path, sorted + [cpv])
  {
    var long := path + [cpv];
    assert long[|path|] == cpv;
    assert forall i :: 0 <= i < |path| ==> long[i] == path[i];
    assert cpv in long;
    forall x | x in path
      ensures x in long && x != cpv
    {
      var i :| 0 <= i < |path| && path[i] == x;
      assert long[i] == x;
    }
  }

  lemma LeaveEdges(bin: Db, installs: Installs, notVisited: set<Cp>, path: seq<Cpv>, sorted: seq<Cpv>, cp: Cp)
    requires Sortable(bin, installs) && cp in installs
    requires Searching(bin, installs, notVisited, path + [installs[cp].cpv], sorted)
    requires forall v :: v in RdepCps(bin, installs, cp) ==> v !in notVisited
    ensures EdgesAnswered(bin, installs, sorted + [installs[cp].cpv])
  {
    var g := Needs(bin, installs);
    var cpv := installs[cp].cpv;
    var long, emitted := path + [cpv], sorted + [cpv];
    forall i, v | 0 <= i < |emitted| && g(emitted[i].cp, v)
      ensures installs[v].cpv in emitted[..i] || Reaches(g, v, emitted[i].cp)
    {
      if i < |sorted| {
        assert emitted[..i] == sorted[..i];
      } else {
        assert emitted[..i] == sorted;
        if installs[v].cpv in long {
          PathNodeReachesEnd(g, long, installs[v].cpv);
        }
      }
    }
  }

  lemma PathNodeReachesEnd(g: Graph<Cp>, path: seq<Cpv>, cpv: Cpv)
    requires forall i :: 0 <= i < |path| - 1 ==> g(path[i].cp, path[i + 1].cp)
    requires cpv in path
    ensures Reaches(g, cpv.cp, path[|path| - 1].cp)
  {
    var cps := seq(|path|, i requires 0 <= i < |path| => path[i].cp);
    var i :| 0 <= i < |path| && path[i] == cpv;
    PathReaches(g, cps, i, |path| - 1);
  }

  /** Despite what its documentation promises, the sort never fails on a cycle: it always lists
      every planned CPV once, with every misplaced dependency on a cycle. */
  method SortInstalls(bin: Db, installs: Installs) returns (sorted: seq<Cpv>, cycle: bool)
    requires Sortable(bin, installs)
    ensures !cycle
    ensures IsPermutation(installs, sorted)
    ensures OrderedUpToCycles(bin, installs, sorted)
  {
    var s := new Sorter(bin, installs);
    while s.notVisited != {}
      invariant fresh(s) && s.bin == bin && s.installs == installs
      invariant s.Valid() && s.currPath == []
      decreases s.notVisited
    {
      var cp :| cp in s.notVisited;
      ghost var before := s.notVisited;
      s.notVisited := s.notVisited - {cp};
      assert s.notVisited + {cp} == before;
      cycle := s.SortFrom(cp);
    }
    sorted, cycle := s.sortedInstalls, false;
    AllEmitted(bin, installs, sorted);
  }

  lemma AllEmitted(bin: Db, installs: Installs, sorted: seq<Cpv>)
    requires Sortable(bin, installs) && Searching(bin, installs, {}, [], sorted)
    ensures IsPermutation(installs, sorted) && OrderedUpToCycles(bin, installs, sorted)
  {
    forall i, j | 0 <= i < j < |sorted| && Needs(bin, installs)(sorted[i].cp, sorted[j].cp)
      ensures Reaches(Needs(bin, installs), sorted[j].cp, sorted[i].cp)
    {
      assert Planned(installs, sorted[j]);
      assert sorted[j] !in sorted[..i];
    }
  }

  // ----- What the order is good for

  ghost predicate DependenciesFirst(bin: Db, installs: Installs, sorted: seq<Cpv>)
    requires Sortable(bin, installs)
  {
    forall i, j :: 0 <= i < j < |sorted| ==> !Needs(bin, installs)(sorted[i].cp, sorted[j].cp)
  }

  function Reversed(s: seq<Cpv>): seq<Cpv> {
    seq(|s|, i requires 0 <= i < |s| => s[|s| - 1 - i])
  }

  lemma ReversedMembers(s: seq<Cpv>)
    ensures forall x :: x in Reversed(s) <==> x in s
  {
    forall x | x in s
      ensures x in Reversed(s)
    {
      var i :| 0 <= i < |s| && s[i] == x;
      assert Reversed(s)[|s| - 1 - i] == x;
    }
  }

  /** On an acyclic plan every dependency is installed before its dependents, and in the reversed
      list, used for removal, every package goes before the ones it needs. */
  lemma AcyclicPlansAreOrdered(bin: Db, installs: Installs, sorted: seq<Cpv>)
    requires Sortable(bin, installs) && OrderedUpToCycles(bin, installs, sorted)
    requires Acyclic(Needs(bin, installs))
    ensures DependenciesFirst(bin, installs, sorted)
    ensures var removal := Reversed(sorted);
            && |removal| == |sorted| && (forall cpv :: cpv in removal <==> cpv in sorted)
            && forall i, j :: 0 <= i < j < |removal| ==> !Needs(bin, installs)(removal[j].cp, removal[i].cp)
  {
    ReversedMembers(sorted);
    var g := Needs(bin, installs);
    forall i, j | 0 <= i < j < |sorted|
      ensures !g(sorted[i].cp, sorted[j].cp)
    {
      if g(sorted[i].cp, sorted[j].cp) {
        assert OnCycle(g, sorted[i].cp);
      }
    }
  }

  /** The sorted list is a valid installation order exactly when the plan has no cycle. */
  lemma OrderedIffAcyclic(bin: Db, installs: Installs, sorted: seq<Cpv>)
    requires Sortable(bin, installs) && IsPermutation(installs, sorted)
    requires OrderedUpToCycles(bin, installs, sorted)
    ensures DependenciesFirst(bin, installs, sorted) <==> Acyclic(Needs(bin, installs))
  {
    if Acyclic(Needs(bin, installs)) {
      AcyclicPlansAreOrdered(bin, installs, sorted);
    }
    if DependenciesFirst(bin, installs, sorted) {
      forall u
        ensures !OnCycle(Needs(bin, installs), u)
      {
        OrderedPlansHaveNoCycle(bin, installs, sorted, u);
      }
    }
  }

  lemma OrderedPlansHaveNoCycle(bin: Db, installs: Installs, sorted: seq<Cpv>, u: Cp)
    requires Sortable(bin, installs) && IsPermutation(installs, sorted)
    requires DependenciesFirst(bin, installs, sorted)
    ensures !OnCycle(Needs(bin, installs), u)
  {
    var g := Needs(bin, installs);
    if OnCycle(g, u) {
      var v :| g(u, v) && Reaches(g, v, u);
      var path :| Connects(g, path, v, u);
      var i := PositionOf(bin, installs, sorted, u);
      var j := PositionOf(bin, installs, sorted, v);
      WalksGoDown(bin, installs, sorted, path, j);
    }
  }

  lemma PositionOf(bin: Db, installs: Installs, sorted: seq<Cpv>, cp: Cp) returns (i: nat)
    requires Sortable(bin, installs) && IsPermutation(installs, sorted) && cp in installs
    ensures i < |sorted| && sorted[i] == installs[cp].cpv
    ensures forall k :: 0 <= k < |sorted| ==> Planned(installs, sorted[k])
  {
    assert installs[cp].cpv in Cpvs(installs);
    i :| 0 <= i < |sorted| && sorted[i] == installs[cp].cpv;
    forall k | 0 <= k < |sorted|
      ensures Planned(installs, sorted[k])
    {
      assert sorted[k] in Cpvs(installs);
    }
  }

  lemma {:induction false} WalksGoDown(bin: Db, installs: Installs, sorted: seq<Cpv>, path: seq<Cp>, j: nat)
    requires Sortable(bin, installs) && IsPermutation(installs, sorted)
    requires DependenciesFirst(bin, installs, sorted)
    requires IsPath(Needs(bin, installs), path) && j < |sorted| && sorted[j].cp == path[0]
    ensures exists k :: 0 <= k <= j && sorted[k].cp == path[|path| - 1]
    decreases |path|
  {
    if |path| > 1 {
      assert Needs(bin, installs)(path[0], path[1]);
      var k := PositionOf(bin, installs, sorted, path[1]);
      assert k < j;
      WalksGoDown(bin, installs, sorted, path[1..], k);
    }
  }
}
