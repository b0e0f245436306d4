/** All runs of the dependency work queue. The sets of the program hand out their elements in any
    order, so a run is given by the dependencies it dequeues; everything else is determined. */
module InstallRuns {
  import opened DepExpr
  import opened PackageDb
  import opened InstallPlan
  import opened Graphs

  /** The state of the work loop; `order` notes the packages recorded so far. */
  datatype Search = Search(
    installs: Installs, queue: set<Dep>, seen: map<Dep, bool>, listed: set<Dep>, order: seq<Pkg>)

  // ----- One step

  /** The flag a dependency has after being enqueued among `deps`. */
  function FlagAfter(seen: map<Dep, bool>, deps: set<Dep>, optional: bool, d: Dep): bool {
    if d !in seen then optional else if d in deps then seen[d] && optional else seen[d]
  }

  /** Enqueueing all of `deps`: unseen ones are added, optional ones may turn mandatory. */
  function EnqSeen(seen: map<Dep, bool>, deps: set<Dep>, optional: bool): map<Dep, bool> {
    map d | d in seen.Keys + deps :: FlagAfter(seen, deps, optional, d)
  }

  /** Whatever is new or has changed is queued (again). */
  function EnqQueue(queue: set<Dep>, seen: map<Dep, bool>, deps: set<Dep>, optional: bool): set<Dep> {
    queue + set d | d in deps && (d !in seen || (seen[d] && !optional))
  }

  function EnqAll(s: Search, deps: set<Dep>, optional: bool): Search {
    s.(queue := EnqQueue(s.queue, s.seen, deps, optional), seen := EnqSeen(s.seen, deps, optional))
  }

  /** The listed packages of a CP, in the order in which its slots were entered. */
  function SlotsOf(listing: seq<Pkg>, cp: Cp): (r: seq<Pkg>)
    ensures forall k :: k in r <==> k in listing && k.cp == cp
  {
    if listing == [] then []
    else
      var n := |listing| - 1;
      assert listing == listing[..n] + [listing[n]];
      SlotsOf(listing[..n], cp) + if listing[n].cp == cp then [listing[n]] else []
  }

  /** Listings one after another give slots one after another, so the order of the listing is kept. */
  lemma {:induction false} SlotsOfAppend(a: seq<Pkg>, b: seq<Pkg>, cp: Cp)
    ensures SlotsOf(a + b, cp) == SlotsOf(a, cp) + SlotsOf(b, cp)
    decreases |b|
  {
    if b == [] {
      assert a + b == a;
    } else {
      var n := |b| - 1;
      assert (a + b)[..|a + b| - 1] == a + b[..n];
      SlotsOfAppend(a, b[..n], cp);
    }
  }

  lemma OneSlot(before: seq<Pkg>, k: Pkg, cp: Cp)
    requires k.cp == cp
    ensures SlotsOf(before + [k], cp) == SlotsOf(before, cp) + [k]
  {
    assert (before + [k])[..|before|] == before;
  }

  lemma {:induction false} NoSlots(listing: seq<Pkg>, cp: Cp)
    requires forall j :: 0 <= j < |listing| ==> listing[j].cp != cp
    ensures SlotsOf(listing, cp) == []
  {
    if listing != [] {
      NoSlots(listing[..|listing| - 1], cp);
    }
  }

  /** The slots up to and including a package of the CP end with that package. */
  lemma SlotsUpTo(listing: seq<Pkg>, cp: Cp, i: nat)
    requires i < |listing| && listing[i].cp == cp
    ensures SlotsOf(listing[..i + 1], cp) == SlotsOf(listing[..i], cp) + [listing[i]]
    ensures SlotsOf(listing, cp) == SlotsOf(listing[..i + 1], cp) + SlotsOf(listing[i + 1..], cp)
  {
    assert listing[..i + 1] == listing[..i] + [listing[i]];
    OneSlot(listing[..i], listing[i], cp);
    assert listing == listing[..i + 1] + listing[i + 1..];
    SlotsOfAppend(listing[..i + 1], listing[i + 1..], cp);
  }

  /** Two packages of the CP have their slots visited in the order in which they are listed. */
  lemma SlotsKeepOrder(listing: seq<Pkg>, cp: Cp, i: nat, j: nat) returns (a: nat, b: nat)
    requires i < j < |listing| && listing[i].cp == cp && listing[j].cp == cp
    ensures a < b < |SlotsOf(listing, cp)|
    ensures SlotsOf(listing, cp)[a] == listing[i] && SlotsOf(listing, cp)[b] == listing[j]
  {
    var first := SlotsOf(listing[..j], cp);
    SlotsUpTo(listing, cp, j);
    assert listing[..j][i] == listing[i] && listing[i] in listing[..j];
    a :| 0 <= a < |first| && first[a] == listing[i];
    b := |first|;
  }

  /** The package of the CP that is listed last has its slot visited last. */
  lemma LastListedIsLast(listing: seq<Pkg>, cp: Cp, i: nat)
    requires i < |listing| && listing[i].cp == cp
    requires forall j :: i < j < |listing| ==> listing[j].cp != cp
    ensures SlotsOf(listing, cp) != [] && SlotsOf(listing, cp)[|SlotsOf(listing, cp)| - 1] == listing[i]
  {
    SlotsUpTo(listing, cp, i);
    NoSlots(listing[i + 1..], cp);
  }

  /** A package that the dependency names and that needs installing is recorded, overwriting what
      was recorded for its CP, and its forward and reverse dependencies are enqueued. */
  function VisitSlot(p: Problem, s: Search, dep: Dep, k: Pkg, isListed: bool, optional: bool): Search {
    if Matches(dep, k) && Wanted(p, k, optional) then
      var info := Info(p.bin, k);
      var update := NeedsInstall(p.target, info.cpv, k.slot, info.buildTime, optional).1;
      var installs := s.installs[k.cp := Install(info.cpv, k.slot, isListed, update)];
      var recorded := s.(installs := installs, order := s.order + [k]);
      EnqAll(EnqAll(recorded, ForwardOf(p, k), false), ReverseOf(p, k), true)
    else s
  }

  function VisitSlots(p: Problem, s: Search, dep: Dep, slots: seq<Pkg>, isListed: bool, optional: bool): Search {
    if slots == [] then s
    else
      var n := |slots| - 1;
      VisitSlot(p, VisitSlots(p, s, dep, slots[..n], isListed, optional), dep, slots[n], isListed, optional)
  }

  /** Listed dependencies are dequeued first. */
  predicate CanPop(s: Search, dep: Dep) {
    dep in s.seen && dep in if s.listed != {} then s.listed else s.queue
  }

  function Popped(s: Search, dep: Dep): Search {
    s.(queue := s.queue - {dep}, listed := s.listed - {dep})
  }

  /** One iteration of the loop; a dependency on a CP that was recorded is dropped. */
  function Pop(p: Problem, s: Search, dep: Dep): Search {
    if dep.cp in s.installs then Popped(s, dep)
    else VisitSlots(p, Popped(s, dep), dep, SlotsOf(p.listing, dep.cp), s.listed != {}, dep in s.seen && s.seen[dep])
  }

  // ----- Runs

  function Start(listed: set<Dep>): Search {
    Search(map[], listed, map d | d in listed :: false, listed, [])
  }

  /** The state after the dependencies were dequeued one after another. */
  function After(p: Problem, listed: set<Dep>, pops: seq<Dep>): Search
    decreases |pops|
  {
    if pops == [] then Start(listed)
    else Pop(p, After(p, listed, pops[..|pops| - 1]), pops[|pops| - 1])
  }

  ghost predicate Legal(p: Problem, listed: set<Dep>, pops: seq<Dep>) {
    forall i :: 0 <= i < |pops| ==> CanPop(After(p, listed, pops[..i]), pops[i])
  }

  /** A complete run: it ends with an empty queue. */
  ghost predicate IsRun(p: Problem, listed: set<Dep>, pops: seq<Dep>) {
    Legal(p, listed, pops) && After(p, listed, pops).queue == {}
  }

  lemma AfterSnoc(p: Problem, listed: set<Dep>, pops: seq<Dep>, dep: Dep)
    ensures After(p, listed, pops + [dep]) == Pop(p, After(p, listed, pops), dep)
    ensures Legal(p, listed, pops) && CanPop(After(p, listed, pops), dep) <==> Legal(p, listed, pops + [dep])
  {
    var longer := pops + [dep];
    assert longer[..|pops|] == pops;
    assert forall i :: 0 <= i < |pops| ==> longer[..i] == pops[..i];
    assert CanPop(After(p, listed, longer[..|pops|]), longer[|pops|]) == CanPop(After(p, listed, pops), dep);
    if Legal(p, listed, longer) {
      forall i | 0 <= i < |pops|
        ensures CanPop(After(p, listed, pops[..i]), pops[i])
      {
        assert CanPop(After(p, listed, longer[..i]), longer[i]);
      }
    }
  }

  lemma LastPop(p: Problem, listed: set<Dep>, pops: seq<Dep>)
    requires Legal(p, listed, pops) && pops != []
    ensures var init, last := pops[..|pops| - 1], pops[|pops| - 1];
      Legal(p, listed, init) && CanPop(After(p, listed, init), last)
  {
    var n := |pops| - 1;
    assert CanPop(After(p, listed, pops[..n]), pops[n]);
    forall i | 0 <= i < n
      ensures CanPop(After(p, listed, pops[..n][..i]), pops[..n][i])
    {
      assert pops[..n][..i] == pops[..i];
      assert CanPop(After(p, listed, pops[..i]), pops[i]);
    }
  }

  // ----- How often dependencies are enqueued

  /** Bounds how often dependencies were enqueued so far. */
  function Enqueued<K>(seen: map<K, bool>): nat {
    |seen.Keys| + |Mandatory(seen)|
  }

  function Slack<K>(queue: set<K>, seen: map<K, bool>): int {
    |queue| - Enqueued(seen)
  }

  function Mandatory<K>(seen: map<K, bool>): set<K> {
    set d | d in seen && !seen[d]
  }

  lemma EnqueuedGrows<K>(seen: map<K, bool>, dep: K, optional: bool)
    requires dep in seen ==> seen[dep] && !optional
    ensures Enqueued(seen[dep := optional]) > Enqueued(seen)
  {
    MandatoryAfter(seen, dep, optional);
    assert seen[dep := optional].Keys == seen.Keys + {dep};
  }

  lemma MandatoryAfter<K>(seen: map<K, bool>, dep: K, optional: bool)
    requires dep in seen ==> seen[dep] && !optional
    ensures dep !in Mandatory(seen)
    ensures Mandatory(seen[dep := optional]) == if optional then Mandatory(seen) else Mandatory(seen) + {dep}
  {
  }

  /** The outcome of enqueueing `deps`, dependency by dependency. */
  ghost predicate Enqueues(
    q0: set<Dep>, s0: map<Dep, bool>, q1: set<Dep>, s1: map<Dep, bool>, deps: set<Dep>, optional: bool)
  {
    && s1.Keys == s0.Keys + deps
    && (forall d :: d in s1 ==> s1[d] == FlagAfter(s0, deps, optional, d))
    && (forall d :: d in q1 <==> d in q0 || (d in deps && (d !in s0 || (s0[d] && !optional))))
  }

  lemma EnqueuesOneMore(
    q0: set<Dep>, s0: map<Dep, bool>, q1: set<Dep>, s1: map<Dep, bool>, deps: set<Dep>, optional: bool,
    dep: Dep, q2: set<Dep>, s2: map<Dep, bool>)
    requires Enqueues(q0, s0, q1, s1, deps, optional) && dep !in deps
    requires var added := !(dep in s1 && (optional || !s1[dep]));
             q2 == (if added then q1 + {dep} else q1) && s2 == if added then s1[dep := optional] else s1
    ensures Enqueues(q0, s0, q2, s2, deps + {dep}, optional)
  {
  }

  lemma EnqueuesAll(
    q0: set<Dep>, s0: map<Dep, bool>, q1: set<Dep>, s1: map<Dep, bool>, deps: set<Dep>, optional: bool)
    ensures Enqueues(q0, s0, q1, s1, deps, optional) <==>
      q1 == EnqQueue(q0, s0, deps, optional) && s1 == EnqSeen(s0, deps, optional)
  {
    var s := EnqSeen(s0, deps, optional);
    assert s.Keys == s0.Keys + deps;
    assert Enqueues(q0, s0, EnqQueue(q0, s0, deps, optional), s, deps, optional);
  }

  lemma EnqNone(queue: set<Dep>, seen: map<Dep, bool>, optional: bool)
    ensures EnqQueue(queue, seen, {}, optional) == queue && EnqSeen(seen, {}, optional) == seen
  {
  }

  /** Enqueueing one more dependency after others. */
  lemma EnqStep(queue: set<Dep>, seen: map<Dep, bool>, deps: set<Dep>, dep: Dep, optional: bool)
    requires dep !in deps
    ensures var q, s := EnqQueue(queue, seen, deps, optional), EnqSeen(seen, deps, optional);
            var added := dep !in s || (s[dep] && !optional);
            && EnqQueue(queue, seen, deps + {dep}, optional) == (if added then q + {dep} else q)
            && EnqSeen(seen, deps + {dep}, optional) == if added then s[dep := optional] else s
  {
    var q, s := EnqQueue(queue, seen, deps, optional), EnqSeen(seen, deps, optional);
    var added := dep !in s || (s[dep] && !optional);
    var q', s' := if added then q + {dep} else q, if added then s[dep := optional] else s;
    EnqueuesAll(queue, seen, q, s, deps, optional);
    EnqueuesOneMore(queue, seen, q, s, deps, optional, dep, q', s');
    EnqueuesAll(queue, seen, q', s', deps + {dep}, optional);
  }

  /** The queue grows by one at most, and the bound on enqueueings at least as much. */
  lemma SlackOne(q: set<Dep>, s: map<Dep, bool>, dep: Dep, optional: bool)
    requires dep !in s || (s[dep] && !optional)
    ensures Slack(q + {dep}, s[dep := optional]) <= Slack(q, s)
  {
    EnqueuedGrows(s, dep, optional);
  }

  lemma {:induction false} EnqSlack(queue: set<Dep>, seen: map<Dep, bool>, deps: set<Dep>, optional: bool)
    ensures Slack(EnqQueue(queue, seen, deps, optional), EnqSeen(seen, deps, optional)) <= Slack(queue, seen)
    decreases deps
  {
    if deps == {} {
      EnqNone(queue, seen, optional);
    } else {
      var dep :| dep in deps;
      var others := deps - {dep};
      EnqSlack(queue, seen, others, optional);
      EnqStep(queue, seen, others, dep, optional);
      assert others + {dep} == deps;
      var q, s := EnqQueue(queue, seen, others, optional), EnqSeen(seen, others, optional);
      if dep !in s || (s[dep] && !optional) {
        SlackOne(q, s, dep, optional);
      }
    }
  }

  // ----- The loop invariant

  /** What holds between two steps of the work loop; the dependencies in `current` are being handled. */
  ghost predicate Progress(p: Problem, listed0: set<Dep>, s: Search, current: set<Dep>) {
    && Derivation(p, listed0, s.order)
    && InstallsRecorded(p, listed0, s)
    && AllPulled(p, listed0, s)
    && (forall k :: k in s.order ==> DepsSeen(p, s.seen, k))
    && OthersSettled(p, s, current)
    && ListedFirst(listed0, s)
    && s.listed <= s.queue <= s.seen.Keys
  }

  ghost predicate InstallsRecorded(p: Problem, listed0: set<Dep>, s: Search) {
    && (forall k :: k in s.order ==> k.cp in s.installs)
    && (forall cp :: cp in s.installs ==> Pkg(cp, s.installs[cp].slot) in s.order && Recorded(p, s.installs, cp))
    && (forall cp :: cp in s.installs ==> (s.installs[cp].listed <==> ListedFor(listed0, Pkg(cp, s.installs[cp].slot))))
  }

  ghost predicate AllPulled(p: Problem, listed0: set<Dep>, s: Search) {
    forall d :: d in s.seen ==> Pulled(p, listed0, Elements(s.order), d, s.seen[d])
  }

  /** The forward dependencies of `k` were enqueued as mandatory, its reverse dependencies at all. */
  ghost predicate DepsSeen(p: Problem, seen: map<Dep, bool>, k: Pkg) {
    && (forall d :: d in ForwardOf(p, k) ==> d in seen && !seen[d])
    && ReverseOf(p, k) <= seen.Keys
  }

  ghost predicate OthersSettled(p: Problem, s: Search, current: set<Dep>) {
    forall d :: d in s.seen && d !in s.queue && d !in current ==> Settled(p, s.installs, d, s.seen[d])
  }

  /** The listed dependencies are mandatory, and those still queued are marked as listed. */
  ghost predicate ListedFirst(listed0: set<Dep>, s: Search) {
    && (forall d :: d in listed0 ==> d in s.seen && !s.seen[d])
    && (forall d :: d in listed0 && d in s.queue ==> d in s.listed)
    && s.listed <= listed0
  }

  /** What a dequeued dependency that is being handled knows about itself. */
  ghost predicate Handling(p: Problem, listed0: set<Dep>, s: Search, dep: Dep, isListed: bool, optional: bool) {
    && Progress(p, listed0, s, {dep})
    && Pulled(p, listed0, Elements(s.order), dep, optional)
    && (isListed ==> dep in listed0)
    && (forall k: Pkg :: k.cp == dep.cp && Wanted(p, k, false) && ListedFor(listed0, k) ==> isListed)
  }

  lemma Recording(p: Problem, listed0: set<Dep>, s: Search, dep: Dep, k: Pkg, isListed: bool, optional: bool)
    requires InstallsRecorded(p, listed0, s) && Matches(dep, k) && Wanted(p, k, optional)
    requires isListed <==> ListedFor(listed0, k)
    ensures InstallsRecorded(p, listed0, VisitSlot(p, s, dep, k, isListed, optional))
  {
    var next := VisitSlot(p, s, dep, k, isListed, optional);
    var info := Info(p.bin, k);
    RecordOne(p, listed0, s, k, isListed, optional);
    var update := NeedsInstall(p.target, info.cpv, k.slot, info.buildTime, optional).1;
    var installs := s.installs[k.cp := Install(info.cpv, k.slot, isListed, update)];
    var recorded := s.(installs := installs, order := s.order + [k]);
    assert next.installs == recorded.installs && next.order == recorded.order;
  }

  lemma RecordOne(p: Problem, listed0: set<Dep>, s: Search, k: Pkg, isListed: bool, optional: bool)
    requires InstallsRecorded(p, listed0, s) && Wanted(p, k, optional) && (isListed <==> ListedFor(listed0, k))
    ensures var info := Info(p.bin, k);
            var update := NeedsInstall(p.target, info.cpv, k.slot, info.buildTime, optional).1;
            InstallsRecorded(p, listed0,
              s.(installs := s.installs[k.cp := Install(info.cpv, k.slot, isListed, update)], order := s.order + [k]))
  {
    if optional {
      OptionalIsWeaker(p, k);
    }
  }

  lemma PullingKept(p: Problem, listed0: set<Dep>, s: Search, dep: Dep, k: Pkg, isListed: bool, optional: bool)
    requires AllPulled(p, listed0, s) && Matches(dep, k) && Wanted(p, k, optional)
    ensures AllPulled(p, listed0, VisitSlot(p, s, dep, k, isListed, optional))
  {
    var next := VisitSlot(p, s, dep, k, isListed, optional);
    ElementsSnoc(s.order, k);
    var done, more := Elements(s.order), Elements(next.order);
    forall d | d in next.seen
      ensures Pulled(p, listed0, more, d, next.seen[d])
    {
      if d in s.seen && next.seen[d] == s.seen[d] {
        PulledMore(p, listed0, done, more, d, next.seen[d]);
      } else {
        assert k in more;
        assert d in if next.seen[d] then ReverseOf(p, k) else ForwardOf(p, k);
      }
    }
  }

  /** Flags only turn from optional to mandatory, and whatever turned is queued. */
  lemma SeenKept(p: Problem, s: Search, dep: Dep, k: Pkg, isListed: bool, optional: bool)
    ensures var next := VisitSlot(p, s, dep, k, isListed, optional);
      && (forall d :: d in s.seen && !s.seen[d] ==> d in next.seen && !next.seen[d])
      && s.seen.Keys <= next.seen.Keys && s.queue <= next.queue && next.listed == s.listed
      && (forall d :: d in next.seen && d !in next.queue ==> d in s.seen && s.seen[d] == next.seen[d])
      && (forall d :: d in next.queue ==> d in s.queue || (d in next.seen && (d !in s.seen || s.seen[d])))
      && (Matches(dep, k) && Wanted(p, k, optional) ==> DepsSeen(p, next.seen, k))
  {
  }

  lemma VisitSlotKeeps(p: Problem, listed0: set<Dep>, s: Search, dep: Dep, k: Pkg, isListed: bool, optional: bool)
    requires Handling(p, listed0, s, dep, isListed, optional)
    ensures var next := VisitSlot(p, s, dep, k, isListed, optional);
      && Handling(p, listed0, next, dep, isListed, optional) && next.listed == s.listed
      && (dep.cp !in next.installs ==> next == s && (Matches(dep, k) ==> !Wanted(p, k, optional)))
      && Slack(next.queue, next.seen) <= Slack(s.queue, s.seen)
  {
    if Matches(dep, k) && Wanted(p, k, optional) {
      OptionalIsWeaker(p, k);
      assert isListed <==> ListedFor(listed0, k);
      RecordKeeps(p, listed0, s, dep, k, isListed, optional);
      VisitSlack(p, s, dep, k, isListed, optional);
    }
  }

  lemma RecordKeeps(p: Problem, listed0: set<Dep>, s: Search, dep: Dep, k: Pkg, isListed: bool, optional: bool)
    requires Progress(p, listed0, s, {dep}) && Matches(dep, k) && Wanted(p, k, optional)
    requires Pulled(p, listed0, Elements(s.order), dep, optional)
    requires isListed <==> ListedFor(listed0, k)
    ensures var next := VisitSlot(p, s, dep, k, isListed, optional);
      && Progress(p, listed0, next, {dep}) && Pulled(p, listed0, Elements(next.order), dep, optional)
      && dep.cp in next.installs && next.listed == s.listed
  {
    var next := VisitSlot(p, s, dep, k, isListed, optional);
    Recording(p, listed0, s, dep, k, isListed, optional);
    DerivationGrows(p, listed0, s.order, dep, optional, k);
    PullingKept(p, listed0, s, dep, k, isListed, optional);
    SeenKept(p, s, dep, k, isListed, optional);
    ElementsSnoc(s.order, k);
    OthersSettledKept(p, s, dep, k, isListed, optional);
    assert next.order == s.order + [k];
    PulledMore(p, listed0, Elements(s.order), Elements(next.order), dep, optional);
    RestKept(p, listed0, s, next, k);
  }

  /** The parts of the invariant that only depend on which flags are set and what is queued. */
  lemma RestKept(p: Problem, listed0: set<Dep>, s: Search, next: Search, k: Pkg)
    requires (forall j :: j in s.order ==> DepsSeen(p, s.seen, j)) && ListedFirst(listed0, s)
    requires s.listed <= s.queue <= s.seen.Keys
    requires next.order == s.order + [k] && DepsSeen(p, next.seen, k)
    requires && (forall d :: d in s.seen && !s.seen[d] ==> d in next.seen && !next.seen[d])
             && s.seen.Keys <= next.seen.Keys && s.queue <= next.queue && next.listed == s.listed
             && (forall d :: d in next.queue ==> d in s.queue || (d in next.seen && (d !in s.seen || s.seen[d])))
    ensures (forall j :: j in next.order ==> DepsSeen(p, next.seen, j)) && ListedFirst(listed0, next)
    ensures next.listed <= next.queue <= next.seen.Keys
  {
    forall j | j in next.order
      ensures DepsSeen(p, next.seen, j)
    {
      assert j == k || DepsSeen(p, s.seen, j);
    }
  }

  lemma OthersSettledKept(p: Problem, s: Search, dep: Dep, k: Pkg, isListed: bool, optional: bool)
    requires OthersSettled(p, s, {dep})
    ensures OthersSettled(p, VisitSlot(p, s, dep, k, isListed, optional), {dep})
  {
    var next := VisitSlot(p, s, dep, k, isListed, optional);
    SeenKept(p, s, dep, k, isListed, optional);
    forall d | d in next.seen && d !in next.queue && d != dep
      ensures Settled(p, next.installs, d, next.seen[d])
    {
      assert Settled(p, s.installs, d, s.seen[d]);
    }
  }

  lemma VisitSlack(p: Problem, s: Search, dep: Dep, k: Pkg, isListed: bool, optional: bool)
    ensures var next := VisitSlot(p, s, dep, k, isListed, optional);
      Slack(next.queue, next.seen) <= Slack(s.queue, s.seen)
  {
    var forward := EnqAll(s, ForwardOf(p, k), false);
    EnqSlack(s.queue, s.seen, ForwardOf(p, k), false);
    EnqSlack(forward.queue, forward.seen, ReverseOf(p, k), true);
  }

  lemma {:induction false} VisitSlotsKeep(
    p: Problem, listed0: set<Dep>, s: Search, dep: Dep, slots: seq<Pkg>, isListed: bool, optional: bool)
    requires Handling(p, listed0, s, dep, isListed, optional)
    ensures var next := VisitSlots(p, s, dep, slots, isListed, optional);
      && Handling(p, listed0, next, dep, isListed, optional) && next.listed == s.listed
      && (dep.cp !in next.installs ==>
            next == s && forall k :: k in slots && Matches(dep, k) ==> !Wanted(p, k, optional))
      && Slack(next.queue, next.seen) <= Slack(s.queue, s.seen)
    decreases |slots|
  {
    if slots != [] {
      var n := |slots| - 1;
      assert slots == slots[..n] + [slots[n]];
      VisitSlotsKeep(p, listed0, s, dep, slots[..n], isListed, optional);
      var before := VisitSlots(p, s, dep, slots[..n], isListed, optional);
      VisitSlotKeeps(p, listed0, before, dep, slots[n], isListed, optional);
    }
  }

  /** A dequeued dependency on a CP that was not recorded: if it is not listed, no listed dependency
      needs anything of that CP. */
  lemma StartsHandling(p: Problem, listed0: set<Dep>, s: Search, dep: Dep)
    requires Progress(p, listed0, s, {}) && CanPop(s, dep) && dep.cp !in s.installs
    ensures Handling(p, listed0, Popped(s, dep), dep, s.listed != {}, s.seen[dep])
  {
    forall k: Pkg | k.cp == dep.cp && Wanted(p, k, false) && ListedFor(listed0, k)
      ensures s.listed != {}
    {
      var d :| d in listed0 && Matches(d, k);
      assert d !in s.queue ==> Settled(p, s.installs, d, s.seen[d]);
    }
  }

  lemma PopKeeps(p: Problem, listed0: set<Dep>, s: Search, dep: Dep)
    requires WellPosed(p) && Progress(p, listed0, s, {}) && CanPop(s, dep)
    ensures Progress(p, listed0, Pop(p, s, dep), {})
    ensures Slack(Pop(p, s, dep).queue, Pop(p, s, dep).seen) <= Slack(s.queue, s.seen) - 1
  {
    if dep.cp !in s.installs {
      StartsHandling(p, listed0, s, dep);
      VisitSlotsKeep(p, listed0, Popped(s, dep), dep, SlotsOf(p.listing, dep.cp), s.listed != {}, s.seen[dep]);
      HandledIsSettled(p, listed0, s, dep);
    }
  }

  lemma HandledIsSettled(p: Problem, listed0: set<Dep>, s: Search, dep: Dep)
    requires WellPosed(p) && dep in s.seen && dep.cp !in s.installs && Progress(p, listed0, Pop(p, s, dep), {dep})
    requires dep.cp !in Pop(p, s, dep).installs ==>
      && Pop(p, s, dep) == Popped(s, dep)
      && forall k :: k in SlotsOf(p.listing, dep.cp) && Matches(dep, k) ==> !Wanted(p, k, s.seen[dep])
    ensures Progress(p, listed0, Pop(p, s, dep), {})
  {
    var next := Pop(p, s, dep);
    if dep.cp !in next.installs {
      forall k | Matches(dep, k)
        ensures !Wanted(p, k, s.seen[dep])
      {
        assert Has(p.bin, k) ==> k in SlotsOf(p.listing, dep.cp);
      }
    }
  }

  // ----- Every run

  lemma StartIsProgress(p: Problem, listed: set<Dep>)
    ensures Progress(p, listed, Start(listed), {})
    ensures Slack(Start(listed).queue, Start(listed).seen) <= 0
  {
    assert Start(listed).seen.Keys == listed;
  }

  /** The loop invariant holds in every run, and every step uses up some slack. */
  lemma {:induction false} EveryRunKeepsProgress(p: Problem, listed: set<Dep>, pops: seq<Dep>)
    requires WellPosed(p) && Legal(p, listed, pops)
    ensures var s := After(p, listed, pops);
      Progress(p, listed, s, {}) && Slack(s.queue, s.seen) <= -|pops|
    decreases |pops|
  {
    if pops == [] {
      StartIsProgress(p, listed);
    } else {
      var init, last := pops[..|pops| - 1], pops[|pops| - 1];
      LastPop(p, listed, pops);
      EveryRunKeepsProgress(p, listed, init);
      PopKeeps(p, listed, After(p, listed, init), last);
    }
  }

  /** Every complete run finds a solution, in at most two steps for each dependency it has seen. */
  lemma RunIsSolution(p: Problem, listed: set<Dep>, pops: seq<Dep>)
    requires WellPosed(p) && IsRun(p, listed, pops)
    ensures var s := After(p, listed, pops);
      Solution(p, listed, s.installs, s.order) && |pops| <= 2 * |s.seen.Keys|
  {
    EveryRunKeepsProgress(p, listed, pops);
    var s := After(p, listed, pops);
    MandatoryAreSeen(s.seen);
    ProgressEnds(p, listed, s);
  }

  /** No run is longer than twice the number of dependencies there are. */
  lemma RunIsBounded(p: Problem, listed: set<Dep>, pops: seq<Dep>)
    requires WellPosed(p) && Legal(p, listed, pops)
    ensures |pops| + |After(p, listed, pops).queue| <= 2 * |AllDeps(p, listed)|
  {
    EveryRunKeepsProgress(p, listed, pops);
    SeenBounded(p, listed, After(p, listed, pops));
  }

  /** Every dependency that a run can ever see. */
  ghost function AllDeps(p: Problem, listed0: set<Dep>): set<Dep> {
    listed0
    + (set k, d | k in Pkgs(p.bin) && d in ForwardOf(p, k) :: d)
    + if p.target.Some? then (set k, d | k in Pkgs(p.target.value) && d in ReverseOf(p, k) :: d) else {}
  }

  lemma MandatoryAreSeen<K>(seen: map<K, bool>)
    ensures |Mandatory(seen)| <= |seen.Keys|
  {
    SubsetIsSmaller(Mandatory(seen), seen.Keys);
  }

  lemma {:induction false} SubsetIsSmaller<T>(a: set<T>, b: set<T>)
    requires a <= b
    ensures |a| <= |b|
    decreases a
  {
    if a != {} {
      var x :| x in a;
      SubsetIsSmaller(a - {x}, b - {x});
    }
  }

  lemma SeenBounded(p: Problem, listed0: set<Dep>, s: Search)
    requires AllPulled(p, listed0, s)
    ensures |s.seen.Keys| <= |AllDeps(p, listed0)| && |Mandatory(s.seen)| <= |s.seen.Keys|
  {
    forall d | d in s.seen
      ensures d in AllDeps(p, listed0)
    {
      PulledIsKnown(p, listed0, Elements(s.order), d, s.seen[d]);
    }
    SubsetIsSmaller(s.seen.Keys, AllDeps(p, listed0));
    MandatoryAreSeen(s.seen);
  }

  lemma PulledIsKnown(p: Problem, listed0: set<Dep>, done: set<Pkg>, d: Dep, optional: bool)
    requires Pulled(p, listed0, done, d, optional)
    ensures d in AllDeps(p, listed0)
  {
    if optional {
      var k :| k in done && d in ReverseOf(p, k);
      assert k in Pkgs(p.target.value);
    } else if d !in listed0 {
      var k :| k in done && d in ForwardOf(p, k);
      assert k in Pkgs(p.bin);
    }
  }

  lemma ProgressEnds(p: Problem, listed0: set<Dep>, s: Search)
    requires Progress(p, listed0, s, {}) && s.queue == {}
    ensures Solution(p, listed0, s.installs, s.order)
  {
    forall d, optional | Pulled(p, listed0, Elements(s.order), d, optional)
      ensures Settled(p, s.installs, d, optional)
    {
      if optional || d !in listed0 {
        var k :| k in Elements(s.order) && d in if optional then ReverseOf(p, k) else ForwardOf(p, k);
        assert DepsSeen(p, s.seen, k);
      }
      assert d in s.seen && Settled(p, s.installs, d, s.seen[d]);
      if optional && d.cp !in s.installs {
        forall k | Matches(d, k)
          ensures !Wanted(p, k, optional)
        {
          OptionalIsWeaker(p, k);
        }
      }
    }
  }
}
