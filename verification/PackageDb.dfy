/** The package database of the deploy command, with forward and reverse dependency edges. */
module PackageDb {
  import opened Wrappers
  import opened DepExpr

  /** A package version together with the CP it belongs to. */
  datatype Cpv = Cpv(cp: Cp, version: string)

  /** One line of the installed or binary package listing. */
  datatype CpvInfo = CpvInfo(cpv: Cpv, slot: Slot, rdepsRaw: seq<DepExp>, buildTime: string)

  datatype PkgInfo = PkgInfo(cpv: Cpv, buildTime: string, rdepsRaw: seq<DepExp>, rdeps: set<Dep>, revRdeps: set<Dep>)

  type Db = map<Cp, map<Slot, PkgInfo>>

  /** A package of a database: its CP and slot. */
  datatype Pkg = Pkg(cp: Cp, slot: Slot)

  datatype DbError = DuplicatePackage(pkg: Pkg) | BadDependency(error: DepError)

  predicate Has(db: Db, k: Pkg) {
    k.cp in db && k.slot in db[k.cp]
  }

  function Info(db: Db, k: Pkg): PkgInfo
    requires Has(db, k)
  {
    db[k.cp][k.slot]
  }

  function Pkgs(db: Db): set<Pkg> {
    set cp, slot | cp in db && slot in db[cp] :: Pkg(cp, slot)
  }

  function IndexOf(db: Db): Index {
    map cp | cp in db :: db[cp].Keys
  }

  /** Every record sits under the CP of its own CPV. */
  ghost predicate Filed(db: Db) {
    forall k :: Has(db, k) ==> Info(db, k).cpv.cp == k.cp
  }

  /** A dependency names a package when the CP agrees and its slot, if any, agrees too. */
  predicate Matches(d: Dep, k: Pkg) {
    d.cp == k.cp && (d.slot.None? || d.slot.value == "" || d.slot.value == k.slot)
  }

  /** A dependency is in a database when it names one of its packages. */
  lemma InDBIff(d: Dep, db: Db)
    requires NoEmptyCp(db)
    ensures InDB(d, IndexOf(db)) <==> exists k :: Has(db, k) && Matches(d, k)
  {
    if d.cp in db {
      var slot :| slot in db[d.cp];
      assert Has(db, Pkg(d.cp, slot));
    }
    if InDB(d, IndexOf(db)) && d.slot.Some? && d.slot.value != "" {
      assert Has(db, Pkg(d.cp, d.slot.value));
    }
  }

  /** Every CP of the database has a package. */
  ghost predicate NoEmptyCp(db: Db) {
    forall cp :: cp in db ==> db[cp] != map[]
  }

  function KeyOf(info: CpvInfo): Pkg {
    Pkg(info.cpv.cp, info.slot)
  }

  ghost predicate DistinctKeys(infos: seq<CpvInfo>) {
    forall i, j :: 0 <= i < j < |infos| ==> KeyOf(infos[i]) != KeyOf(infos[j])
  }

  /** `db` holds exactly the listed packages, each under its key. */
  ghost predicate Lists(db: Db, infos: seq<CpvInfo>) {
    && (forall i :: 0 <= i < |infos| ==> Records(db, infos[i]))
    && (forall k :: Has(db, k) ==> k in Keys(infos))
    && NoEmptyCp(db)
  }

  predicate Records(db: Db, info: CpvInfo) {
    Has(db, KeyOf(info)) && var p := Info(db, KeyOf(info));
    p.cpv == info.cpv && p.buildTime == info.buildTime && p.rdepsRaw == info.rdepsRaw
  }

  function Keys(infos: seq<CpvInfo>): set<Pkg> {
    set i | 0 <= i < |infos| :: KeyOf(infos[i])
  }

  lemma ListedAreFiled(db: Db, infos: seq<CpvInfo>)
    requires Lists(db, infos)
    ensures Filed(db)
  {
    forall k | Has(db, k)
      ensures Info(db, k).cpv.cp == k.cp
    {
      var i :| 0 <= i < |infos| && KeyOf(infos[i]) == k;
      assert Records(db, infos[i]);
    }
  }

  /** The databases against which the choices in `db` are resolved. */
  function InstalledIndex(db: Db, installed: Option<Db>): Index {
    if installed.Some? then IndexOf(installed.value) else IndexOf(db)
  }

  function AvailIndex(db: Db, installed: Option<Db>): Option<Index> {
    if installed.Some? then Some(IndexOf(db)) else None
  }

  /** What the dependencies of a package resolve to: choices are made among the packages of the other
      database, if there is one, with this one as what is available. */
  ghost function Rdeps(p: PkgInfo, db: Db, installed: Option<Db>): Resolution {
    match installed
    case None => Resolve(p.rdepsRaw, false, IndexOf(db), None)
    case Some(target) => Resolve(p.rdepsRaw, false, IndexOf(target), Some(IndexOf(db)))
  }

  /** Every package of `db` has its resolved forward dependencies. */
  ghost predicate ForwardDone(db: Db, installed: Option<Db>) {
    forall k :: Has(db, k) ==> Rdeps(Info(db, k), db, installed) == Ok(Info(db, k).rdeps)
  }

  /** Present for a choice in `db` is what names a package of the target or of `db` itself. */
  lemma PresentIff(d: Dep, db: Db, target: Db)
    requires NoEmptyCp(db) && NoEmptyCp(target)
    ensures Present(d, IndexOf(target), Some(IndexOf(db))) <==>
      exists k :: (Has(target, k) || Has(db, k)) && Matches(d, k)
  {
    InDBIff(d, db);
    InDBIff(d, target);
  }

  /** The forward dependencies of a package keep what its string of plain packages and choices requires
      exactly when each choice can be made between packages of the target and of `db`. */
  lemma ForwardDepsKeptIff(db: Db, target: Db, k: Pkg)
    requires ForwardDone(db, Some(target)) && Has(db, k) && PlainList(Info(db, k).rdepsRaw)
    ensures
      (forall p: iset<Dep> ::
        Within(Info(db, k).rdeps, p) ==> AllHold(Info(db, k).rdepsRaw, false, IndexOf(target), p)) <==>
      AllCovered(Info(db, k).rdepsRaw, IndexOf(target), Some(IndexOf(db)))
  {
    PlainStringSoundIff(Info(db, k).rdepsRaw, IndexOf(target), Some(IndexOf(db)));
  }

  ghost predicate NoForward(db: Db) {
    forall k :: Has(db, k) ==> Info(db, k).rdeps == {}
  }

  ghost predicate NoReverse(db: Db) {
    forall k :: Has(db, k) ==> Info(db, k).revRdeps == {}
  }

  /** `from` depends on `to` by one of the dependencies it lists. */
  ghost predicate DependsOn(db: Db, from: Pkg, to: Pkg)
    requires Has(db, from)
  {
    exists d :: d in Info(db, from).rdeps && Matches(d, to)
  }

  function AsDep(k: Pkg): Dep {
    Dep(k.cp, Some(k.slot))
  }

  /** The reverse edges are the exact inverse of the forward edges. */
  ghost predicate ReverseIsInverse(db: Db) {
    forall to :: Has(db, to) ==>
      forall d :: d in Info(db, to).revRdeps <==>
        d.slot.Some? && Has(db, Pkg(d.cp, d.slot.value)) && DependsOn(db, Pkg(d.cp, d.slot.value), to)
  }

  /** `db1` is `db0` with other dependency sets in the same records. */
  ghost predicate SameRecords(db0: Db, db1: Db) {
    && IndexOf(db0) == IndexOf(db1)
    && (forall k :: Has(db0, k) ==>
          Has(db1, k) && Info(db1, k).(rdeps := Info(db0, k).rdeps, revRdeps := Info(db0, k).revRdeps) == Info(db0, k))
  }

  /** `db1` is `db0` where package `k` was noted as a reverse dependency of exactly the packages `to(...)` picks. */
  ghost predicate Noted(db0: Db, db1: Db, k: Pkg, to: Pkg -> bool) {
    && IndexOf(db0) == IndexOf(db1)
    && (forall j :: Has(db0, j) ==> Has(db1, j))
    && (forall j :: Has(db0, j) ==>
          Info(db1, j) == if to(j) then Info(db0, j).(revRdeps := Info(db0, j).revRdeps + {AsDep(k)}) else Info(db0, j))
  }

  function Put(db: Db, k: Pkg, p: PkgInfo): Db
    requires Has(db, k)
  {
    db[k.cp := db[k.cp][k.slot := p]]
  }

  lemma PutInfo(db: Db, k: Pkg, p: PkgInfo)
    requires Has(db, k)
    ensures IndexOf(Put(db, k, p)) == IndexOf(db)
    ensures forall j :: Has(Put(db, k, p), j) <==> Has(db, j)
    ensures forall j :: Has(db, j) ==> Info(Put(db, k, p), j) == if j == k then p else Info(db, j)
  {
    assert db[k.cp][k.slot := p].Keys == db[k.cp].Keys;
  }

  lemma SameIndex(db0: Db, db1: Db)
    requires IndexOf(db0) == IndexOf(db1)
    ensures forall k :: Has(db0, k) <==> Has(db1, k)
  {
    forall k: Pkg
      ensures Has(db0, k) <==> Has(db1, k)
    {
      assert k.cp in IndexOf(db0) <==> k.cp in IndexOf(db1);
      if k.cp in db0 && k.cp in db1 {
        assert IndexOf(db0)[k.cp] == IndexOf(db1)[k.cp];
      }
    }
  }

  // ----- Building

  /** Why the packages have no database: a slot is taken twice, or a dependency does not resolve. */
  ghost predicate CannotBuild(infos: seq<CpvInfo>, processRdeps: bool, installed: Option<Db>, e: DbError) {
    match e
    case DuplicatePackage(_) => !DistinctKeys(infos)
    case BadDependency(error) => processRdeps && exists plain: Db, k ::
      Lists(plain, infos) && Has(plain, k) && Rdeps(Info(plain, k), plain, installed) == Err(error)
  }

  method BuildDB(infos: seq<CpvInfo>, processRdeps: bool, processRevRdeps: bool, installed: Option<Db>)
    returns (r: Result<Db, DbError>)
    ensures r.Ok? ==> DistinctKeys(infos) && Lists(r.value, infos)
    ensures r.Ok? ==> if processRdeps then ForwardDone(r.value, installed) else NoForward(r.value)
    ensures r.Ok? ==> if processRevRdeps then ReverseIsInverse(r.value) else NoReverse(r.value)
    ensures r.Err? && r.error.DuplicatePackage? <==> !DistinctKeys(infos)
    ensures r.Err? ==> CannotBuild(infos, processRdeps, installed, r.error)
  {
    var listed := ListPackages(infos);
    if listed.Err? {
      return listed;
    }
    var db := listed.value;
    if processRdeps {
      var forward := AddForwardDeps(db, installed);
      if forward.Err? {
        return Err(BadDependency(forward.error));
      }
      ListsSameRecords(db, forward.value, infos);
      SameIndex(db, forward.value);
      db := forward.value;
    }
    if processRevRdeps {
      var full := AddReverseDeps(db);
      ListsSameRecords(db, full, infos);
      SameIndex(db, full);
      db := full;
    }
    r := Ok(db);
  }

  lemma SameIndexNoEmptyCp(db0: Db, db1: Db)
    requires IndexOf(db0) == IndexOf(db1) && NoEmptyCp(db0)
    ensures NoEmptyCp(db1)
  {
    forall cp | cp in db1
      ensures db1[cp] != map[]
    {
      assert cp in IndexOf(db1) && IndexOf(db1)[cp] == IndexOf(db0)[cp];
      assert db0[cp].Keys != {};
    }
  }

  lemma ListsSameRecords(db0: Db, db1: Db, infos: seq<CpvInfo>)
    requires Lists(db0, infos) && SameRecords(db0, db1)
    ensures Lists(db1, infos)
  {
    SameIndex(db0, db1);
    SameIndexNoEmptyCp(db0, db1);
    forall i | 0 <= i < |infos|
      ensures Records(db1, infos[i])
    {
      assert Records(db0, infos[i]);
      assert Has(db0, KeyOf(infos[i]));
    }
  }

  /** One record for every listed CPV; a second CPV in the same slot is refused. */
  method ListPackages(infos: seq<CpvInfo>) returns (r: Result<Db, DbError>)
    ensures r.Ok? <==> DistinctKeys(infos)
    ensures r.Ok? ==> Lists(r.value, infos) && NoForward(r.value) && NoReverse(r.value)
    ensures r.Err? ==> r.error.DuplicatePackage?
  {
    var db: Db := map[];
    for i := 0 to |infos|
      invariant DistinctKeys(infos[..i])
      invariant Lists(db, infos[..i]) && NoForward(db) && NoReverse(db)
    {
      var CpvInfo(cpv, slot, rdepsRaw, buildTime) := infos[i];
      var cpSlots := if cpv.cp in db then db[cpv.cp] else map[];
      if slot in cpSlots {
        assert Has(db, KeyOf(infos[i]));
        ghost var j :| 0 <= j < i && KeyOf(infos[..i][j]) == KeyOf(infos[i]);
        assert KeyOf(infos[j]) == KeyOf(infos[i]);
        return Err(DuplicatePackage(Pkg(cpv.cp, slot)));
      }
      ghost var db0 := db;
      db := db[cpv.cp := cpSlots[slot := PkgInfo(cpv, buildTime, rdepsRaw, {}, {})]];
      ListedOneMore(db0, db, infos, i);
    }
    assert infos[..|infos|] == infos;
    r := Ok(db);
  }

  lemma ListedOneMore(db0: Db, db1: Db, infos: seq<CpvInfo>, i: nat)
    requires i < |infos| && Lists(db0, infos[..i]) && !Has(db0, KeyOf(infos[i]))
    requires DistinctKeys(infos[..i])
    requires forall k :: Has(db1, k) <==> Has(db0, k) || k == KeyOf(infos[i])
    requires forall k :: Has(db0, k) ==> Info(db1, k) == Info(db0, k)
    requires Records(db1, infos[i]) && NoEmptyCp(db1)
    ensures Lists(db1, infos[..i + 1]) && DistinctKeys(infos[..i + 1])
  {
    var before, upto := infos[..i], infos[..i + 1];
    assert upto == before + [infos[i]];
    forall j | 0 <= j < |upto|
      ensures Records(db1, upto[j])
    {
      if j < i {
        assert Records(db0, before[j]);
        assert Has(db0, KeyOf(before[j]));
      }
    }
    forall k | Has(db1, k)
      ensures k in Keys(upto)
    {
      if k == KeyOf(infos[i]) {
        assert KeyOf(upto[i]) == k;
      } else {
        var j :| 0 <= j < i && KeyOf(before[j]) == k;
        assert KeyOf(upto[j]) == k;
      }
    }
    forall a, b | 0 <= a < b < |upto|
      ensures KeyOf(upto[a]) != KeyOf(upto[b])
    {
      assert Records(db0, before[a]);
    }
  }

  method AddForwardDeps(db0: Db, installed: Option<Db>) returns (r: Result<Db, DepError>)
    requires NoReverse(db0)
    ensures r.Ok? ==> SameRecords(db0, r.value) && ForwardDone(r.value, installed) && NoReverse(r.value)
    ensures r.Err? ==> exists k :: Has(db0, k) && Rdeps(Info(db0, k), db0, installed) == Err(r.error)
  {
    var db, todo := db0, Pkgs(db0);
    while todo != {}
      invariant ForwardUpTo(db0, db, todo, installed)
      decreases todo
    {
      var k :| k in todo;
      var info := Info(db, k);
      var deps := ProcessSubDeps(info.rdepsRaw, false, InstalledIndex(db, installed), AvailIndex(db, installed));
      if deps.Err? {
        return Err(deps.error);
      }
      ForwardOne(db0, db, todo, k, deps.value, installed);
      db := Put(db, k, info.(rdeps := deps.value));
      todo := todo - {k};
    }
    SameIndex(db0, db);
    r := Ok(db);
  }

  /** All packages but those in `todo` have their forward dependencies. */
  ghost predicate ForwardUpTo(db0: Db, db: Db, todo: set<Pkg>, installed: Option<Db>) {
    && SameRecords(db0, db) && NoReverse(db)
    && (forall k :: k in todo ==> Has(db0, k) && Has(db, k) && Info(db, k) == Info(db0, k))
    && (forall k :: Has(db, k) && k !in todo ==> Rdeps(Info(db, k), db, installed) == Ok(Info(db, k).rdeps))
  }

  lemma ForwardOne(db0: Db, db: Db, todo: set<Pkg>, k: Pkg, rdeps: set<Dep>, installed: Option<Db>)
    requires ForwardUpTo(db0, db, todo, installed) && k in todo && Rdeps(Info(db, k), db, installed) == Ok(rdeps)
    ensures ForwardUpTo(db0, Put(db, k, Info(db, k).(rdeps := rdeps)), todo - {k}, installed)
  {
    var next := Put(db, k, Info(db, k).(rdeps := rdeps));
    PutInfo(db, k, Info(db, k).(rdeps := rdeps));
    SameIndex(db0, db);
    assert IndexOf(next) == IndexOf(db);
    assert InstalledIndex(next, installed) == InstalledIndex(db, installed);
    assert AvailIndex(next, installed) == AvailIndex(db, installed);
  }

  method AddReverseDeps(db0: Db) returns (db: Db)
    requires NoReverse(db0)
    ensures SameRecords(db0, db) && ReverseIsInverse(db)
    ensures forall k :: Has(db0, k) ==> Has(db, k) && Info(db, k).rdeps == Info(db0, k).rdeps
  {
    db := db0;
    var todo := Pkgs(db0);
    while todo != {}
      invariant todo <= Pkgs(db0)
      invariant SameRecords(db0, db)
      invariant forall k :: Has(db0, k) ==> Has(db, k) && Info(db, k).rdeps == Info(db0, k).rdeps
      invariant forall to, d :: Has(db, to) ==> (d in Info(db, to).revRdeps <==> EdgeFound(db0, todo, d, to))
      decreases todo
    {
      var k :| k in todo;
      todo := todo - {k};
      SameIndex(db0, db);
      ghost var before := db;
      db := AddReverseDepsOf(db, k);
      SameIndex(db0, db);
      forall to, d | Has(db, to)
        ensures d in Info(db, to).revRdeps <==> EdgeFound(db0, todo, d, to)
      {
        assert d in Info(before, to).revRdeps <==> EdgeFound(db0, todo + {k}, d, to);
        assert DependsOn(before, k, to) == DependsOn(db0, k, to);
      }
    }
    SameIndex(db0, db);
    forall to, d | Has(db, to)
      ensures d in Info(db, to).revRdeps <==>
        d.slot.Some? && Has(db, Pkg(d.cp, d.slot.value)) && DependsOn(db, Pkg(d.cp, d.slot.value), to)
    {
      assert d in Info(db, to).revRdeps <==> EdgeFound(db0, {}, d, to);
    }
  }

  /** `d` names a package outside `todo` that depends on `to`. */
  ghost predicate EdgeFound(db: Db, todo: set<Pkg>, d: Dep, to: Pkg) {
    d.slot.Some? && var from := Pkg(d.cp, d.slot.value);
    Has(db, from) && from !in todo && DependsOn(db, from, to)
  }

  method AddReverseDepsOf(db0: Db, k: Pkg) returns (db: Db)
    requires Has(db0, k)
    ensures Noted(db0, db, k, to => DependsOn(db0, k, to))
  {
    db := db0;
    var todo := Info(db0, k).rdeps;
    while todo != {}
      invariant todo <= Info(db0, k).rdeps
      invariant Noted(db0, db, k, to => exists d :: d in Info(db0, k).rdeps - todo && Matches(d, to))
      decreases todo
    {
      var d :| d in todo;
      todo := todo - {d};
      db := AddReverseDep(db, k, d);
    }
  }

  /** Notes `k` in every slot that its dependency `d` names. */
  method AddReverseDep(db0: Db, k: Pkg, d: Dep) returns (db: Db)
    ensures Noted(db0, db, k, to => Matches(d, to))
  {
    db := db0;
    if d.cp !in db0 {
      return;
    }
    var todo := db0[d.cp].Keys;
    while todo != {}
      invariant todo <= db0[d.cp].Keys
      invariant Noted(db0, db, k, to => Matches(d, to) && to.slot !in todo)
      decreases todo
    {
      var toSlot :| toSlot in todo;
      todo := todo - {toSlot};
      if !AnySlot(d.slot) && toSlot != d.slot.value {
        continue;
      }
      var to := Pkg(d.cp, toSlot);
      assert Has(db0, to);
      var info := Info(db, to);
      PutInfo(db, to, info.(revRdeps := info.revRdeps + {AsDep(k)}));
      db := Put(db, to, info.(revRdeps := info.revRdeps + {AsDep(k)}));
    }
  }
}
