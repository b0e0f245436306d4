/** What the result of the dependency work queue means, whatever order the queue was emptied in. */
module InstallTheorems {
  import opened Wrappers
  import opened DepExpr
  import opened PackageDb
  import opened InstallPlan
  import opened InstallRuns
  import opened Graphs

  // ----- Justification: nothing is installed without a reason

  lemma {:induction false} DerivationIsLeast(p: Problem, listed: set<Dep>, order: seq<Pkg>, done: set<Pkg>)
    requires Derivation(p, listed, order) && Closed(p, listed, done)
    ensures Elements(order) <= done
  {
    if order != [] {
      var n := |order| - 1;
      var init := order[..n];
      assert forall i :: 0 <= i <= n ==> init[..i] == order[..i];
      DerivationIsLeast(p, listed, init, done);
      assert order == init + [order[n]];
      ElementsSnoc(init, order[n]);
      assert Justified(p, listed, Elements(order[..n]), order[n]);
      var d, optional :|
        Pulled(p, listed, Elements(init), d, optional) && Matches(d, order[n]) && Wanted(p, order[n], optional);
      PulledMore(p, listed, Elements(init), done, d, optional);
      assert Justified(p, listed, done, order[n]);
    }
  }

  /** `to` is named by a dependency that package `from` pulls in. */
  ghost predicate Pulls(p: Problem, from: Pkg, to: Pkg) {
    exists d :: d in ForwardOf(p, from) + ReverseOf(p, from) && Matches(d, to)
  }

  ghost function PullGraph(p: Problem, within: set<Pkg>): Graph<Pkg> {
    (from, to) => from in within && to in within && Pulls(p, from, to)
  }

  lemma ReachesInLarger(p: Problem, small: set<Pkg>, large: set<Pkg>, u: Pkg, v: Pkg)
    requires small <= large && Reaches(PullGraph(p, small), u, v)
    ensures Reaches(PullGraph(p, large), u, v)
  {
    var path :| Connects(PullGraph(p, small), path, u, v);
    assert Connects(PullGraph(p, large), path, u, v);
  }

  lemma PulledByEarlier(p: Problem, listed: set<Dep>, done: set<Pkg>, k: Pkg) returns (from: Pkg)
    requires Justified(p, listed, done, k) && !ListedFor(listed, k)
    ensures from in done && Pulls(p, from, k)
  {
    var d, optional :| Pulled(p, listed, done, d, optional) && Matches(d, k) && Wanted(p, k, optional);
    from :| from in done && d in if optional then ReverseOf(p, from) else ForwardOf(p, from);
  }

  /** Every recorded package is reached from one that the user listed, along forward and reverse
      dependencies of packages that were themselves recorded. */
  lemma {:induction false} ReachedFromListed(p: Problem, listed: set<Dep>, order: seq<Pkg>, k: Pkg)
    requires Derivation(p, listed, order) && k in order
    ensures exists root :: root in order && ListedFor(listed, root) && Reaches(PullGraph(p, Elements(order)), root, k)
    decreases |order|
  {
    var i :| 0 <= i < |order| && order[i] == k;
    var init := order[..i];
    assert forall j :: 0 <= j <= i ==> init[..j] == order[..j];
    assert Justified(p, listed, Elements(init), k);
    if ListedFor(listed, k) {
      ReachesSelf(PullGraph(p, Elements(order)), k);
    } else {
      var from := PulledByEarlier(p, listed, Elements(init), k);
      ReachedFromListed(p, listed, init, from);
      var root :| root in init && ListedFor(listed, root) && Reaches(PullGraph(p, Elements(init)), root, from);
      ReachesInLarger(p, Elements(init), Elements(order), root, from);
      ReachesStep(PullGraph(p, Elements(order)), root, from, k);
    }
  }

  /** When installed packages are checked, nothing up to date is installed again, and whatever is
      not an update was asked for as mandatory: reverse dependencies alone never add a package. */
  lemma InstallsAreNeeded(p: Problem, listed: set<Dep>, installs: Installs, order: seq<Pkg>, cp: Cp)
    requires Solution(p, listed, installs, order) && cp in installs && !Unchecked(p.target)
    ensures var k := Pkg(cp, installs[cp].slot);
            Filed(p.bin) ==>
              && !UpToDate(p.target, Info(p.bin, k), k)
              && (installs[cp].update <==> OnTarget(p.target, k))
              && (!installs[cp].update ==> exists d :: Matches(d, k) && Pulled(p, listed, Elements(order), d, false))
  {
    var k := Pkg(cp, installs[cp].slot);
    var i :| 0 <= i < |order| && order[i] == k;
    var before := Elements(order[..i]);
    assert Justified(p, listed, before, order[i]);
    var d, optional :| Pulled(p, listed, before, d, optional) && Matches(d, k) && Wanted(p, k, optional);
    PulledMore(p, listed, before, Elements(order), d, optional);
    OptionalIsWeaker(p, k);
  }

  /** When no dependencies are traced, only what was listed is installed. */
  lemma UntracedIsListed(p: Problem, listed: set<Dep>, installs: Installs, order: seq<Pkg>, cp: Cp)
    requires Solution(p, listed, installs, order) && cp in installs && !p.rdeps && !p.revRdeps
    ensures installs[cp].listed
  {
    var k := Pkg(cp, installs[cp].slot);
    var i :| 0 <= i < |order| && order[i] == k;
    assert Justified(p, listed, Elements(order[..i]), order[i]);
  }

  /** When reverse dependencies are not traced, whatever was not listed is named by a dependency of a
      binary package that was recorded. */
  lemma ForwardOnly(p: Problem, listed: set<Dep>, installs: Installs, order: seq<Pkg>, cp: Cp)
    requires Solution(p, listed, installs, order) && cp in installs && !installs[cp].listed && !p.revRdeps
    ensures exists from, d :: from in order && Has(p.bin, from) && d in Info(p.bin, from).rdeps
              && Matches(d, Pkg(cp, installs[cp].slot))
  {
    var k := Pkg(cp, installs[cp].slot);
    var i :| 0 <= i < |order| && order[i] == k;
    assert Justified(p, listed, Elements(order[..i]), order[i]);
    var d, optional :|
      Pulled(p, listed, Elements(order[..i]), d, optional) && Matches(d, k) && Wanted(p, k, optional);
    var from :| from in Elements(order[..i]) && d in ForwardOf(p, from);
    assert from in order;
  }

  // ----- Closure: nothing that is needed is left out

  /** Every binary package that `d` names is on the target in the same version and build,
      or, if `d` is optional, is not on the target at all. */
  ghost predicate NothingToDo(p: Problem, d: Dep, optional: bool) {
    forall k :: Has(p.bin, k) && Matches(d, k) ==>
      UpToDate(p.target, Info(p.bin, k), k) || (optional && !OnTarget(p.target, k))
  }

  /** Every listed dependency and every dependency of an installed package is met: its CP is
      installed too, or there is nothing to do for it. */
  lemma DependenciesAreMet(p: Problem, listed: set<Dep>, installs: Installs, order: seq<Pkg>, d: Dep)
    requires Solution(p, listed, installs, order) && Filed(p.bin)
    ensures forall cp :: cp in installs ==> Has(p.bin, Pkg(cp, installs[cp].slot))
    ensures d in listed ==> d.cp in installs || NothingToDo(p, d, false)
    ensures forall cp :: p.rdeps && cp in installs && d in Info(p.bin, Pkg(cp, installs[cp].slot)).rdeps
              ==> d.cp in installs || NothingToDo(p, d, false)
    ensures forall cp :: p.revRdeps && cp in installs && OnTarget(p.target, Pkg(cp, installs[cp].slot))
              && d in Info(p.target.value, Pkg(cp, installs[cp].slot)).revRdeps
              ==> d.cp in installs || NothingToDo(p, d, true)
  {
    assert d in listed ==> Pulled(p, listed, Elements(order), d, false);
    forall cp | cp in installs && d in ForwardOf(p, Pkg(cp, installs[cp].slot))
      ensures Pulled(p, listed, Elements(order), d, false)
    {
      assert Pkg(cp, installs[cp].slot) in Elements(order);
    }
    forall cp | cp in installs && d in ReverseOf(p, Pkg(cp, installs[cp].slot))
      ensures Pulled(p, listed, Elements(order), d, true)
    {
      assert Pkg(cp, installs[cp].slot) in Elements(order);
    }
    SettledMeansNothingToDo(p, installs, d, false);
    SettledMeansNothingToDo(p, installs, d, true);
  }

  lemma SettledMeansNothingToDo(p: Problem, installs: Installs, d: Dep, optional: bool)
    requires Filed(p.bin)
    ensures Settled(p, installs, d, optional) && d.cp !in installs ==> NothingToDo(p, d, optional)
  {
    if Settled(p, installs, d, optional) && d.cp !in installs {
      forall k | Has(p.bin, k) && Matches(d, k)
        ensures UpToDate(p.target, Info(p.bin, k), k) || (optional && !OnTarget(p.target, k))
      {
        assert !Wanted(p, k, optional);
      }
    }
  }

  // ----- Order independence

  /** Each CP has at most one binary package. */
  ghost predicate SingleSlot(bin: Db) {
    forall j, k :: Has(bin, j) && Has(bin, k) && j.cp == k.cp ==> j == k
  }

  lemma SingleSlotIsClosed(p: Problem, listed: set<Dep>, installs: Installs, order: seq<Pkg>)
    requires SingleSlot(p.bin) && Solution(p, listed, installs, order)
    ensures Closed(p, listed, Elements(order))
  {
    forall k | Justified(p, listed, Elements(order), k)
      ensures k in Elements(order)
    {
      var d, optional :| Pulled(p, listed, Elements(order), d, optional) && Matches(d, k) && Wanted(p, k, optional);
      assert Settled(p, installs, d, optional);
      assert Pkg(k.cp, installs[k.cp].slot) in order;
      assert Recorded(p, installs, k.cp);
    }
  }

  /** With one slot per CP the recorded packages are the least set closed under the rules. */
  lemma SingleSlotLeastFixpoint(p: Problem, listed: set<Dep>, installs: Installs, order: seq<Pkg>)
    requires SingleSlot(p.bin) && Solution(p, listed, installs, order)
    ensures Closed(p, listed, Elements(order))
    ensures forall done :: Closed(p, listed, done) ==> Elements(order) <= done
  {
    SingleSlotIsClosed(p, listed, installs, order);
    forall done | Closed(p, listed, done)
      ensures Elements(order) <= done
    {
      DerivationIsLeast(p, listed, order, done);
    }
  }

  /** Then any two solutions agree on the whole map of installs. */
  lemma SingleSlotSolutionsAgree(
    p: Problem, listed: set<Dep>, installs1: Installs, order1: seq<Pkg>, installs2: Installs, order2: seq<Pkg>)
    requires SingleSlot(p.bin)
    requires Solution(p, listed, installs1, order1) && Solution(p, listed, installs2, order2)
    ensures installs1 == installs2
  {
    SingleSlotIsClosed(p, listed, installs1, order1);
    SingleSlotIsClosed(p, listed, installs2, order2);
    DerivationIsLeast(p, listed, order1, Elements(order2));
    DerivationIsLeast(p, listed, order2, Elements(order1));
    assert installs1.Keys == installs2.Keys by {
      forall cp
        ensures cp in installs1 <==> cp in installs2
      {
        assert cp in installs1 ==> Pkg(cp, installs1[cp].slot) in Elements(order1);
        assert cp in installs2 ==> Pkg(cp, installs2[cp].slot) in Elements(order2);
      }
    }
    forall cp | cp in installs1
      ensures installs1[cp] == installs2[cp]
    {
      assert Recorded(p, installs1, cp) && Recorded(p, installs2, cp);
      assert Pkg(cp, installs1[cp].slot) == Pkg(cp, installs2[cp].slot);
    }
  }

  /** And so do any two runs, in whatever order they dequeue. */
  lemma SingleSlotRunsAgree(p: Problem, listed: set<Dep>, pops1: seq<Dep>, pops2: seq<Dep>)
    requires WellPosed(p) && SingleSlot(p.bin) && IsRun(p, listed, pops1) && IsRun(p, listed, pops2)
    ensures After(p, listed, pops1).installs == After(p, listed, pops2).installs
  {
    RunIsSolution(p, listed, pops1);
    RunIsSolution(p, listed, pops2);
    var s1, s2 := After(p, listed, pops1), After(p, listed, pops2);
    SingleSlotSolutionsAgree(p, listed, s1.installs, s1.order, s2.installs, s2.order);
  }

  /** Whatever is on the target and whatever is listed, all runs over these binary packages give the
      same installs. */
  ghost predicate OrderIndependent(bin: Db, listing: seq<Pkg>) {
    forall p: Problem, listed, pops1, pops2 ::
      p.bin == bin && p.listing == listing && (p.revRdeps ==> p.target.Some?) &&
      IsRun(p, listed, pops1) && IsRun(p, listed, pops2)
      ==> After(p, listed, pops1).installs == After(p, listed, pops2).installs
  }

  /** The last of the packages that the dependency names. */
  function LastMatch(dep: Dep, slots: seq<Pkg>): (r: Option<Pkg>)
    ensures r.None? <==> forall k :: k in slots ==> !Matches(dep, k)
    ensures r.Some? ==> r.value in slots && Matches(dep, r.value)
  {
    if slots == [] then None
    else
      var n := |slots| - 1;
      assert slots == slots[..n] + [slots[n]];
      if Matches(dep, slots[n]) then Some(slots[n]) else LastMatch(dep, slots[..n])
  }

  /** Without a target and without tracing dependencies. */
  function Plain(bin: Db, listing: seq<Pkg>): Problem {
    Problem(None, bin, listing, false, false)
  }

  lemma PlainVisit(p: Problem, s: Search, dep: Dep, k: Pkg, isListed: bool)
    requires p == Plain(p.bin, p.listing) && Has(p.bin, k)
    ensures var next := VisitSlot(p, s, dep, k, isListed, false);
      && next.queue == s.queue && next.seen == s.seen && next.listed == s.listed
      && next.installs == if !Matches(dep, k) then s.installs
           else s.installs[dep.cp := Install(Info(p.bin, k).cpv, k.slot, isListed, false)]
  {
    EnqNone(s.queue, s.seen, false);
    EnqNone(s.queue, s.seen, true);
  }

  /** Then handling a dependency records the last package it names, and nothing else happens. */
  lemma {:induction false} PlainVisits(p: Problem, s: Search, dep: Dep, slots: seq<Pkg>, isListed: bool)
    requires p == Plain(p.bin, p.listing) && forall k :: k in slots ==> Has(p.bin, k)
    ensures var next, last := VisitSlots(p, s, dep, slots, isListed, false), LastMatch(dep, slots);
      && next.queue == s.queue && next.seen == s.seen && next.listed == s.listed
      && next.installs == if last.None? then s.installs
           else s.installs[dep.cp := Install(Info(p.bin, last.value).cpv, last.value.slot, isListed, false)]
    decreases |slots|
  {
    if slots != [] {
      var n := |slots| - 1;
      assert slots == slots[..n] + [slots[n]];
      PlainVisits(p, s, dep, slots[..n], isListed);
      PlainVisit(p, VisitSlots(p, s, dep, slots[..n], isListed, false), dep, slots[n], isListed);
    }
  }

  /** One step of a plain run that handles a listed dependency. */
  lemma PlainPop(p: Problem, s: Search, dep: Dep)
    requires p == Plain(p.bin, p.listing) && WellPosed(p)
    requires dep in s.listed && dep in s.seen && !s.seen[dep] && dep.cp !in s.installs
    ensures var next, last := Pop(p, s, dep), LastMatch(dep, SlotsOf(p.listing, dep.cp));
      && next.queue == s.queue - {dep} && next.seen == s.seen && next.listed == s.listed - {dep}
      && next.installs == if last.None? then s.installs
           else s.installs[dep.cp := Install(Info(p.bin, last.value).cpv, last.value.slot, true, false)]
  {
    PlainVisits(p, Popped(s, dep), dep, SlotsOf(p.listing, dep.cp), true);
  }

  lemma FirstPop(p: Problem, listed: set<Dep>, dep: Dep)
    ensures After(p, listed, [dep]) == Pop(p, Start(listed), dep)
    ensures dep in listed ==> Legal(p, listed, [dep])
  {
    FirstAfter(p, listed, [dep]);
    assert [dep][..0] == [];
    assert dep in listed ==> CanPop(Start(listed), dep);
  }

  lemma FirstAfter(p: Problem, listed: set<Dep>, pops: seq<Dep>)
    requires |pops| == 1
    ensures After(p, listed, pops) == Pop(p, Start(listed), pops[0])
    ensures After(p, listed, pops[..0]) == Start(listed)
  {
    assert pops[..0] == [];
  }

  /** For a bare CP every run records the package of that CP that is listed last. */
  lemma LastSlotWins(bin: Db, listing: seq<Pkg>, cp: Cp, i: nat, pops: seq<Dep>)
    requires WellPosed(Plain(bin, listing)) && IsRun(Plain(bin, listing), {Dep(cp, None)}, pops)
    requires i < |listing| && listing[i].cp == cp && forall j :: i < j < |listing| ==> listing[j].cp != cp
    ensures Has(bin, listing[i]) && After(Plain(bin, listing), {Dep(cp, None)}, pops).installs
         == map[cp := Install(Info(bin, listing[i]).cpv, listing[i].slot, true, false)]
  {
    var p, dep := Plain(bin, listing), Dep(cp, None);
    LastListedIsLast(listing, cp, i);
    assert LastMatch(dep, SlotsOf(listing, cp)) == Some(listing[i]);
    FirstPop(p, {dep}, dep);
    PlainPop(p, Start({dep}), dep);
    OnlyPop(p, dep, pops);
  }

  /** A plain run over one dependency handles it and is done. */
  lemma OnlyPop(p: Problem, dep: Dep, pops: seq<Dep>)
    requires p == Plain(p.bin, p.listing) && WellPosed(p) && IsRun(p, {dep}, pops)
    ensures pops == [dep]
  {
    if pops != [] {
      assert CanPop(After(p, {dep}, pops[..0]), pops[0]);
      assert pops[..1] == [dep];
    }
    if |pops| > 1 {
      assert CanPop(After(p, {dep}, pops[..1]), pops[1]);
    }
    FirstPop(p, {dep}, dep);
    PlainPop(p, Start({dep}), dep);
  }

  /** Two dependencies on different slots of one CP: whichever is dequeued first is recorded, and the
      other is dropped. */
  lemma FirstPopWins(bin: Db, listing: seq<Pkg>, j: Pkg, k: Pkg)
    requires WellPosed(Plain(bin, listing)) && Has(bin, j) && Has(bin, k)
    requires j.cp == k.cp && j.slot != k.slot && j.slot != "" && k.slot != ""
    ensures var p, listed := Plain(bin, listing), {AsDep(j), AsDep(k)};
            IsRun(p, listed, [AsDep(j), AsDep(k)]) &&
            After(p, listed, [AsDep(j), AsDep(k)]).installs
            == map[j.cp := Install(Info(bin, j).cpv, j.slot, true, false)]
  {
    var p, listed := Plain(bin, listing), {AsDep(j), AsDep(k)};
    FirstPop(p, listed, AsDep(j));
    PlainPop(p, Start(listed), AsDep(j));
    var slots := SlotsOf(listing, j.cp);
    assert j in slots;
    assert LastMatch(AsDep(j), slots) == Some(j);
    AfterSnoc(p, listed, [AsDep(j)], AsDep(k));
    assert [AsDep(j)] + [AsDep(k)] == [AsDep(j), AsDep(k)];
    assert listed - {AsDep(j)} == {AsDep(k)};
  }

  /** Any CP with two slots has a request with two different outcomes. */
  lemma TwoSlotsTwoAnswers(bin: Db, listing: seq<Pkg>, j: Pkg, k: Pkg)
    requires WellPosed(Plain(bin, listing)) && Has(bin, j) && Has(bin, k)
    requires j.cp == k.cp && j.slot != k.slot && j.slot != "" && k.slot != ""
    ensures var p, listed := Plain(bin, listing), {AsDep(j), AsDep(k)};
            var one, two := [AsDep(j), AsDep(k)], [AsDep(k), AsDep(j)];
            IsRun(p, listed, one) && IsRun(p, listed, two) &&
            After(p, listed, one).installs != After(p, listed, two).installs
  {
    var p, listed := Plain(bin, listing), {AsDep(j), AsDep(k)};
    FirstPopWins(bin, listing, j, k);
    FirstPopWins(bin, listing, k, j);
    assert {AsDep(k), AsDep(j)} == listed;
    var one, two := After(p, listed, [AsDep(j), AsDep(k)]).installs, After(p, listed, [AsDep(k), AsDep(j)]).installs;
    assert one[j.cp].slot == j.slot && two[j.cp].slot == k.slot;
  }

  /** No package has an empty slot name; the package manager does not allow one. */
  ghost predicate NamedSlots(bin: Db) {
    forall k :: Has(bin, k) ==> k.slot != ""
  }

  /** The order in which the sets hand out dependencies is irrelevant exactly when each CP has one
      slot, whatever the order of the listing. */
  lemma OrderIndependentIffSingleSlot(bin: Db, listing: seq<Pkg>)
    requires WellPosed(Plain(bin, listing)) && NamedSlots(bin)
    ensures OrderIndependent(bin, listing) <==> SingleSlot(bin)
  {
    if SingleSlot(bin) {
      forall p: Problem, listed, pops1, pops2 |
        p.bin == bin && p.listing == listing && (p.revRdeps ==> p.target.Some?) &&
        IsRun(p, listed, pops1) && IsRun(p, listed, pops2)
        ensures After(p, listed, pops1).installs == After(p, listed, pops2).installs
      {
        SingleSlotRunsAgree(p, listed, pops1, pops2);
      }
    } else {
      var j, k :| Has(bin, j) && Has(bin, k) && j.cp == k.cp && j != k;
      TwoSlotsTwoAnswers(bin, listing, j, k);
    }
  }
}
