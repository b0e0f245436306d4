/** Choosing version numbers for manifests: incrementing a version, picking the latest spec, and
    the retrying search for a fresh release candidate. */
module ManifestVersions {
  import opened Wrappers
  import opened Versions

  // ----- Incrementing a version

  /** Which part of a version to increment; anything else is refused. */
  datatype IncrType = ChromeBranch | Build | Branch | Patch | Other

  datatype VersionError =
    | NothingToIncrement
    | NoChromeBranch
    | BadSpec(name: string)
    | RefreshFailed
    | GenerateBuildSpec

  /** Specs of the same release line start with this. */
  function BuildPrefix(v: Version, incrType: IncrType): string {
    if incrType.Branch? then
      if v.patch == "0" then v.build + "." else v.build + "." + v.branch + "."
    else ""
  }

  /** A number and a dot stand at the start of a string exactly when the string's first number is it. */
  lemma NumberAndDot(a: string, b: string, rest: string)
    requires IsNumber(a) && IsNumber(b)
    ensures a + "." <= b + "." + rest <==> a == b
  {
    var s := b + "." + rest;
    assert s[|b|] == '.' && forall i :: 0 <= i < |b| ==> s[i] == b[i] && s[i] != '.';
    if a + "." <= s {
      assert (a + ".")[|a|] == '.' && forall i :: 0 <= i < |a| ==> (a + ".")[i] == a[i] && a[i] != '.';
      assert s[|a|] == '.' && forall i :: 0 <= i < |a| ==> s[i] == a[i];
      assert |a| == |b|;
      assert a == s[..|a|] == b;
    }
  }

  lemma TwoNumbersAndDots(a: string, a': string, b: string, b': string, rest: string)
    requires IsNumber(a) && IsNumber(a') && IsNumber(b) && IsNumber(b')
    ensures a + "." + a' + "." <= b + "." + b' + "." + rest <==> a == b && a' == b'
  {
    var x, s := a + "." + a' + ".", b + "." + b' + "." + rest;
    assert x == (a + ".") + (a' + ".") && s == b + "." + (b' + "." + rest);
    NumberAndDot(a, b, b' + "." + rest);
    NumberAndDot(a', b', rest);
    if x <= s {
      assert a + "." <= x;
      assert a + "." <= s;
      TailPrefix(a + ".", a' + ".", b' + "." + rest);
    }
    if a == b && a' == b' {
      assert s == x + rest;
    }
  }

  lemma TailPrefix(p: string, x: string, y: string)
    ensures p + x <= p + y <==> x <= y
  {
    assert (p + x)[|p|..] == x && (p + y)[|p|..] == y;
    if p + x <= p + y {
      assert forall i :: 0 <= i < |x| ==> x[i] == (p + x)[|p| + i] && y[i] == (p + y)[|p| + i];
    }
  }

  /** Which versions, plain or with a candidate number behind, are of the same release line: those of
      the same build and, unless our patch number is 0, of the same branch; without a branch increment
      all of them. */
  lemma BuildPrefixIff(v: Version, incrType: IncrType, other: Version, rest: string)
    requires v.Valid() && other.Valid()
    ensures BuildPrefix(v, incrType) <= other.VersionString() + rest <==>
      !incrType.Branch? || (other.build == v.build && (v.patch == "0" || other.branch == v.branch))
  {
    var s := other.VersionString() + rest;
    assert s == other.build + "." + (other.branch + "." + other.patch + rest);
    assert s == other.build + "." + other.branch + "." + (other.patch + rest);
    NumberAndDot(v.build, other.build, other.branch + "." + other.patch + rest);
    TwoNumbersAndDots(v.build, v.branch, other.build, other.branch, other.patch + rest);
  }

  class VersionInfo {
    var buildNumber: string
    var branchBuildNumber: string
    var patchNumber: string
    var chromeBranch: Option<string>
    var incrType: IncrType

    ghost predicate Valid()
      reads this
    {
      Current().Valid() && (chromeBranch.Some? ==> IsNumber(chromeBranch.value))
    }

    function Current(): Version
      reads this
    {
      Version(buildNumber, branchBuildNumber, patchNumber)
    }

    constructor (v: Version, chromeBranch: Option<string>, incrType: IncrType)
      requires v.Valid() && (chromeBranch.Some? ==> IsNumber(chromeBranch.value))
      ensures Valid() && Current() == v && this.chromeBranch == chromeBranch && this.incrType == incrType
    {
      buildNumber, branchBuildNumber, patchNumber := v.build, v.branch, v.patch;
      this.chromeBranch, this.incrType := chromeBranch, incrType;
    }

    /** Every increment gives a larger version of the same release line. */
    method IncrementVersion() returns (r: Result<string, VersionError>)
      requires Valid()
      modifies this
      ensures Valid() && incrType == old(incrType)
      ensures r.Err? <==> old(incrType).Other? || (old(incrType).ChromeBranch? && old(chromeBranch).None?)
      ensures r.Err? ==> r.error == if incrType.Other? then NothingToIncrement else NoChromeBranch
      ensures r.Err? ==> Current() == old(Current()) && chromeBranch == old(chromeBranch)
      ensures r.Ok? ==> r.value == Current().VersionString() && ParseVersion(r.value) == Some(Current())
      ensures r.Ok? ==> IsBumped(old(Current()), incrType, Current())
      ensures r.Ok? ==> Less(old(Current().VersionComponents()), Current().VersionComponents())
      ensures r.Ok? ==> BuildPrefix(old(Current()), incrType) <= r.value
      ensures r.Ok? ==> Current().VersionComponents() == Bumped(old(Current()), incrType)
      ensures r.Ok? ==> if incrType.ChromeBranch?
        then chromeBranch.Some? && IntOf(chromeBranch.value) == IntOf(old(chromeBranch).value) + 1
        else chromeBranch == old(chromeBranch)
    {
      if incrType.Other? {
        return Err(NothingToIncrement);
      }
      ghost var before := Current();
      if incrType.ChromeBranch? {
        if chromeBranch.None? {
          return Err(NoChromeBranch);
        }
        IntOfStrOf(IntOf(chromeBranch.value) + 1);
        chromeBranch := Some(Successor(chromeBranch.value));
      }
      BumpNumbers();
      BumpedIsLarger(before, incrType, Current());
      VersionRoundTrip(Current());
      r := Ok(Current().VersionString());
    }

    method BumpNumbers()
      requires Valid()
      modifies this`buildNumber, this`branchBuildNumber, this`patchNumber
      ensures Valid() && IsBumped(old(Current()), incrType, Current())
    {
      if incrType.Build? || incrType.ChromeBranch? {
        buildNumber := Successor(buildNumber);
        branchBuildNumber, patchNumber := "0", "0";
      } else if incrType.Branch? && patchNumber == "0" {
        branchBuildNumber := Successor(branchBuildNumber);
      } else {
        patchNumber := Successor(patchNumber);
      }
    }
  }

  function Successor(number: string): (r: string)
    requires IsNumber(number)
    ensures IsNumber(r) && IntOf(r) == IntOf(number) + 1
  {
    IntOfStrOf(IntOf(number) + 1);
    StrOf(IntOf(number) + 1)
  }

  /** The components after an increment. */
  ghost function Bumped(v: Version, incrType: IncrType): seq<nat>
    requires v.Valid()
  {
    var (build, branch, patch) := (IntOf(v.build), IntOf(v.branch), IntOf(v.patch));
    if incrType.Build? || incrType.ChromeBranch? then [build + 1, 0, 0]
    else if incrType.Branch? && v.patch == "0" then [build, branch + 1, patch]
    else [build, branch, patch + 1]
  }

  /** `after` is `v` after an increment: one number is replaced by its successor, those before it
      keep their text, and those after a new build number start again. */
  ghost predicate IsBumped(v: Version, incrType: IncrType, after: Version)
    requires v.Valid() && after.Valid()
  {
    if incrType.Build? || incrType.ChromeBranch? then
      after.build == Successor(v.build) && after.branch == "0" && after.patch == "0"
    else if incrType.Branch? && v.patch == "0" then
      after.build == v.build && after.branch == Successor(v.branch) && after.patch == v.patch
    else
      after.build == v.build && after.branch == v.branch && after.patch == Successor(v.patch)
  }

  lemma BumpedIsLarger(v: Version, incrType: IncrType, after: Version)
    requires v.Valid() && after.Valid() && IsBumped(v, incrType, after)
    ensures after.VersionComponents() == Bumped(v, incrType)
    ensures Less(v.VersionComponents(), after.VersionComponents())
    ensures BuildPrefix(v, incrType) <= after.VersionString()
  {
    LessTriples(IntOf(v.build), IntOf(v.branch), IntOf(v.patch),
                IntOf(after.build), IntOf(after.branch), IntOf(after.patch));
    var s := after.VersionString();
    assert s[..|after.build| + 1] == after.build + ".";
    assert s[..|after.build| + 1 + |after.branch| + 1] == after.build + "." + after.branch + ".";
  }

  lemma LessTriples(a0: nat, a1: nat, a2: nat, b0: nat, b1: nat, b2: nat)
    ensures Less([a0, a1, a2], [b0, b1, b2]) <==> a0 < b0 || (a0 == b0 && (a1 < b1 || (a1 == b1 && a2 < b2)))
  {
    assert [a0, a1, a2][1..] == [a1, a2] && [b0, b1, b2][1..] == [b1, b2];
    assert [a1, a2][1..] == [a2] && [b1, b2][1..] == [b2];
    assert Less([a2], [b2]) <==> a2 < b2;
  }

  // ----- The latest spec

  /** Specs are compared as versions or as candidates; `None` when the name does not parse. */
  datatype Kind = Plain | Lkgm

  function Key(kind: Kind, spec: string): Option<seq<nat>> {
    match kind
    case Plain =>
      var v := ParseVersion(spec);
      if v.None? then None else Some(v.value.VersionComponents())
    case Lkgm =>
      var c := ParseCandidate(spec);
      if c.None? then None else Some(c.value.VersionComponents())
  }

  /** Comparing rendered names is comparing their numbers. */
  lemma NamesCompareAsNumbers(v: Version, c: Candidate)
    requires v.Valid() && c.Valid()
    ensures Key(Plain, v.VersionString()) == Some(v.VersionComponents())
    ensures Key(Lkgm, c.VersionString()) == Some(c.VersionComponents())
  {
    VersionRoundTrip(v);
    CandidateRoundTrip(c);
  }

  /** Key `k` is the first of the greatest keys. */
  ghost predicate IsFirstMax(keys: seq<seq<nat>>, k: nat) {
    && k < |keys|
    && (forall i :: 0 <= i < |keys| ==> !Less(keys[k], keys[i]))
    && (forall i :: 0 <= i < k ==> Less(keys[i], keys[k]))
  }

  lemma NextMax(keys: seq<seq<nat>>, k: nat, key: seq<nat>)
    requires IsFirstMax(keys, k)
    ensures IsFirstMax(keys + [key], if Less(keys[k], key) then |keys| else k)
  {
    LessIsTotal(key, key);
    if Less(keys[k], key) {
      forall i | 0 <= i < |keys|
        ensures Less(keys[i], key) && !Less(key, keys[i])
      {
        LessIsTransitive(keys[i], keys[k], key);
        LessIsTotal(keys[i], key);
      }
    }
  }

  /** `keys` are the keys of the specs. */
  ghost predicate AreKeys(kind: Kind, specs: seq<string>, keys: seq<seq<nat>>) {
    |keys| == |specs| && forall i :: 0 <= i < |specs| ==> Key(kind, specs[i]) == Some(keys[i])
  }

  lemma AreKeysSnoc(kind: Kind, specs: seq<string>, i: nat, keys: seq<seq<nat>>, key: seq<nat>)
    requires i < |specs| && AreKeys(kind, specs[..i], keys) && Key(kind, specs[i]) == Some(key)
    ensures AreKeys(kind, specs[..i + 1], keys + [key])
  {
    assert forall j :: 0 <= j < i ==> specs[..i + 1][j] == specs[..i][j];
  }

  /** The first greatest spec; `keys` and `k` witness that it is. */
  method LatestSpecFromList(kind: Kind, specs: seq<string>)
    returns (r: Result<Option<string>, VersionError>, ghost keys: seq<seq<nat>>, ghost k: nat)
    ensures r.Err? <==> exists i :: 0 <= i < |specs| && Key(kind, specs[i]).None?
    ensures r.Err? ==> r.error.BadSpec? && r.error.name in specs && Key(kind, r.error.name).None?
    ensures r.Ok? ==> (r.value.None? <==> specs == []) && AreKeys(kind, specs, keys)
    ensures r.Ok? && r.value.Some? ==> IsFirstMax(keys, k) && specs[k] == r.value.value
  {
    keys, k := [], 0;
    var best: Option<(string, seq<nat>)> := None;
    for i := 0 to |specs|
      invariant AreKeys(kind, specs[..i], keys) && IsBest(specs[..i], keys, k, best)
    {
      var key := Key(kind, specs[i]);
      if key.None? {
        r := Err(BadSpec(specs[i]));
        return;
      }
      AreKeysSnoc(kind, specs, i, keys, key.value);
      NextBest(specs, i, keys, k, best, key.value);
      if best.None? || Less(best.value.1, key.value) {
        best, k := Some((specs[i], key.value)), i;
      }
      keys := keys + [key.value];
    }
    assert specs[..|specs|] == specs;
    r := Ok(if best.None? then None else Some(best.value.0));
  }

  /** `best` is the first greatest spec with its key, if there is any spec. */
  ghost predicate IsBest(specs: seq<string>, keys: seq<seq<nat>>, k: nat, best: Option<(string, seq<nat>)>) {
    && |keys| == |specs| && (best.None? <==> specs == [])
    && (best.Some? ==> IsFirstMax(keys, k) && best.value == (specs[k], keys[k]))
  }

  lemma NextBest(
    specs: seq<string>, i: nat, keys: seq<seq<nat>>, k: nat, best: Option<(string, seq<nat>)>, key: seq<nat>)
    requires i < |specs| && IsBest(specs[..i], keys, k, best)
    ensures var better := best.None? || Less(best.value.1, key);
            IsBest(specs[..i + 1], keys + [key],
                   if better then i else k, if better then Some((specs[i], key)) else best)
  {
    if best.None? {
      LessIsTotal(key, key);
    } else {
      NextMax(keys, k, key);
    }
  }

  function WithPrefix(prefix: string, specs: seq<string>): (r: seq<string>)
    ensures forall s :: s in r <==> s in specs && prefix <= s
  {
    if specs == [] then []
    else
      assert specs == [specs[0]] + specs[1..];
      (if prefix <= specs[0] then [specs[0]] else []) + WithPrefix(prefix, specs[1..])
  }

  /** The latest spec of the release line in a directory listing. */
  method LatestSpecFromDir(kind: Kind, v: Version, incrType: IncrType, specs: seq<string>)
    returns (r: Result<Option<string>, VersionError>)
    ensures r.Ok? && r.value.None? ==> forall s :: s in specs ==> !(BuildPrefix(v, incrType) <= s)
    ensures r.Ok? && r.value.Some? ==> r.value.value in specs && BuildPrefix(v, incrType) <= r.value.value
    ensures r.Ok? && r.value.Some? ==> Key(kind, r.value.value).Some?
    ensures r.Ok? ==> forall s :: s in specs && BuildPrefix(v, incrType) <= s ==>
      Key(kind, s).Some? && r.value.Some? && !Less(Key(kind, r.value.value).value, Key(kind, s).value)
    ensures r.Err? <==> exists s :: s in specs && BuildPrefix(v, incrType) <= s && Key(kind, s).None?
    ensures r.Err? ==> r.error.BadSpec? && r.error.name in specs && Key(kind, r.error.name).None?
    ensures r.Err? ==> BuildPrefix(v, incrType) <= r.error.name
  {
    var matching := WithPrefix(BuildPrefix(v, incrType), specs);
    ghost var keys, k;
    r, keys, k := LatestSpecFromList(kind, matching);
    if r.Ok? {
      forall s | s in specs && BuildPrefix(v, incrType) <= s
        ensures Key(kind, s).Some? && r.value.Some? && !Less(Key(kind, r.value.value).value, Key(kind, s).value)
      {
        var i :| 0 <= i < |matching| && matching[i] == s;
        assert Key(kind, matching[i]) == Some(keys[i]);
      }
    } else {
      var i :| 0 <= i < |matching| && Key(kind, matching[i]).None?;
      assert matching[i] in matching;
    }
  }

  // ----- Fresh candidates

  /** Candidate names of the form that candidates are rendered in. */
  predicate Canonical(spec: string) {
    ParseCandidate(spec).Some? && ParseCandidate(spec).value.VersionString() == spec
  }

  /** The base for the next candidate: the latest spec unless our own version is already ahead. */
  function Rebase(c: Candidate, latest: string): Candidate
    requires c.Valid() && ParseCandidate(latest).Some?
  {
    if Less(ParseCandidate(latest).value.VersionComponents(), c.VersionComponents()) then c
    else ParseCandidate(latest).value
  }

  /** The name is only incremented if it is the latest spec itself. */
  function NextCandidate(c: Candidate, latest: Option<string>, dryRun: bool): Candidate {
    if latest == Some(c.VersionString()) && !dryRun then Candidate(c.version, c.revision + 1) else c
  }

  lemma IncrementIsLarger(c: Candidate)
    requires c.Valid()
    ensures Less(c.VersionComponents(), Candidate(c.version, c.revision + 1).VersionComponents())
    ensures c.VersionString() != Candidate(c.version, c.revision + 1).VersionString()
  {
    var a, b := c.VersionComponents(), Candidate(c.version, c.revision + 1).VersionComponents();
    assert a[1..][1..][1..] == [c.revision] && b[1..][1..][1..] == [c.revision + 1];
    assert Less([c.revision], [c.revision + 1]);
    assert Less(a[1..][1..], b[1..][1..]) && Less(a[1..], b[1..]);
    CandidateRoundTrip(c);
    CandidateRoundTrip(Candidate(c.version, c.revision + 1));
  }

  /** The incremented candidate is the nearest one: nothing lies between. */
  lemma NextIsNearest(c: Candidate, x: Candidate)
    requires c.Valid() && x.Valid() && Less(c.VersionComponents(), x.VersionComponents())
    ensures !Less(x.VersionComponents(), NextCandidate(c, Some(c.VersionString()), false).VersionComponents())
  {
    var next := NextCandidate(c, Some(c.VersionString()), false);
    QuadOrder(c.VersionComponents(), x.VersionComponents(), next.VersionComponents());
  }

  lemma QuadOrder(a: seq<nat>, b: seq<nat>, c: seq<nat>)
    requires |a| == |b| == |c| == 4 && a[..3] == c[..3] && c[3] == a[3] + 1 && Less(a, b)
    ensures !Less(b, c)
  {
    var k := LessAt(a, b);
    assert forall i :: 0 <= i < 3 ==> a[..3][i] == c[..3][i];
    assert forall i :: 0 <= i < k ==> a[..k][i] == b[..k][i];
    LessIsTotal(b, c);
    if k < 3 || c[3] < b[3] {
      assert c[..k] == b[..k];
      SmallerIsLess(c, b, k);
    } else {
      assert b == c;
    }
  }

  /** The chosen candidate is ahead of the latest spec exactly when our version was already ahead,
      or when the latest spec has a canonical name and this is no dry run. */
  lemma NextIsFreshIff(c: Candidate, latest: string, dryRun: bool)
    requires c.Valid() && ParseCandidate(latest).Some?
    ensures var key := ParseCandidate(latest).value.VersionComponents();
      Less(key, NextCandidate(Rebase(c, latest), Some(latest), dryRun).VersionComponents()) <==>
      Less(key, c.VersionComponents()) || (!dryRun && Canonical(latest))
  {
    var parsed := ParseCandidate(latest).value;
    var base := Rebase(c, latest);
    LessIsTotal(parsed.VersionComponents(), parsed.VersionComponents());
    if base == c && Less(parsed.VersionComponents(), c.VersionComponents()) {
      CandidateRoundTrip(c);
    } else {
      IncrementIsLarger(parsed);
    }
  }

  /** What one attempt meets: the refreshed listing of specs, whether this checkout was built
      already, and where it fails, if it does. */
  datatype Trouble = NoTrouble | RefreshFails | BranchFails | PushFails

  datatype Attempt = Attempt(specs: seq<string>, alreadyBuilt: bool, trouble: Trouble)

  /** One attempt: the version it started from, the latest spec of the refreshed listing, the version
      it left behind, and whether it got as far as trying to publish that one. */
  datatype Step = Step(own: Candidate, latest: Option<string>, left: Candidate, tried: bool)

  function Base(own: Candidate, latest: Option<string>): Candidate
    requires own.Valid() && (latest.Some? ==> ParseCandidate(latest.value).Some?)
  {
    if latest.Some? then Rebase(own, latest.value) else own
  }

  /** What an attempt does with the version it finds. */
  ghost predicate IsStep(a: Attempt, t: Step, m: Mode) {
    && t.own.Valid() && t.left.Valid()
    && if a.trouble.RefreshFails? then !t.tried && t.left == t.own
       else
         && (m.force || !a.alreadyBuilt)
         && Known(t.latest, BuildPrefix(t.own.version, m.incrType), a.specs)
         && t.tried == !a.trouble.BranchFails?
         && t.left == var base := Base(t.own, t.latest);
                      if t.tried then NextCandidate(base, t.latest, m.dryRun) else base
  }

  ghost function Steps(m: Mode): (Attempt, Step) -> bool {
    (a, t) => IsStep(a, t, m)
  }

  /** The first attempts, each continuing from what the one before left behind. */
  ghost predicate IsHistory(
    history: seq<Step>, start: Candidate, attempts: seq<Attempt>, steps: (Attempt, Step) -> bool)
    decreases |history|
  {
    && |history| <= |attempts|
    && (history != [] ==>
          var n := |history| - 1;
          && IsHistory(history[..n], start, attempts, steps)
          && history[n].own == Left(history[..n], start) && steps(attempts[n], history[n]))
  }

  function Left(history: seq<Step>, start: Candidate): Candidate {
    if history == [] then start else history[|history| - 1].left
  }

  ghost predicate AllFailed(attempts: seq<Attempt>) {
    forall a :: a in attempts ==> !a.trouble.NoTrouble?
  }

  /** How the search ends after the attempts in `history`. */
  ghost predicate Ends(r: Result<Option<string>, VersionError>, history: seq<Step>, start: Candidate,
                       attempts: seq<Attempt>, m: Mode)
    requires |history| <= |attempts|
  {
    match r
    case Ok(Some(version)) =>
      && history != [] && attempts[|history| - 1].trouble.NoTrouble? && AllFailed(attempts[..|history| - 1])
      && version == Left(history, start).VersionString()
    case Ok(None) =>
      |history| < |attempts| && AllFailed(attempts[..|history|]) && !m.force && attempts[|history|].alreadyBuilt
    case Err(RefreshFailed) => history == [] && |attempts| > 0 && attempts[0].trouble.RefreshFails?
    case Err(BadSpec(name)) =>
      && |history| < |attempts| && AllFailed(attempts[..|history|])
      && name in attempts[|history|].specs && BuildPrefix(Left(history, start).version, m.incrType) <= name
      && ParseCandidate(name).None?
    case Err(e) => e.GenerateBuildSpec? && |history| == |attempts| && AllFailed(attempts)
  }

  /** An attempt that starts from `c` either leaves `left` for the next one or ends the search; it is
      a step of the history unless it gave up before looking at the version. */
  ghost predicate IsOutcome(
    a: Attempt, c: Candidate, left: Candidate, end: Option<Result<Option<string>, VersionError>>, t: Step, m: Mode)
  {
    && (IsStepOf(end) ==> t.own == c && t.left == left && Steps(m)(a, t))
    && match end
       case None => left.Valid() && !a.trouble.NoTrouble?
       case Some(Ok(Some(version))) => a.trouble.NoTrouble? && version == left.VersionString()
       case Some(Ok(None)) => !m.force && a.alreadyBuilt
       case Some(Err(e)) =>
         && e.BadSpec? && e.name in a.specs && BuildPrefix(c.version, m.incrType) <= e.name
         && ParseCandidate(e.name).None?
  }

  predicate IsStepOf(end: Option<Result<Option<string>, VersionError>>) {
    end.None? || (end.value.Ok? && end.value.value.Some?)
  }

  /** The search is still going on and continues from `c`. */
  ghost predicate Going(history: seq<Step>, start: Candidate, attempts: seq<Attempt>, m: Mode, c: Candidate) {
    && IsHistory(history, start, attempts, Steps(m))
    && c == Left(history, start) && c.Valid() && AllFailed(attempts[..|history|])
  }

  function Extended(history: seq<Step>, end: Option<Result<Option<string>, VersionError>>, t: Step): seq<Step> {
    if IsStepOf(end) then history + [t] else history
  }

  /** What one more attempt makes of the search. */
  lemma Extend(history: seq<Step>, start: Candidate, attempts: seq<Attempt>, m: Mode, c: Candidate, left: Candidate,
               end: Option<Result<Option<string>, VersionError>>, t: Step)
    requires |history| < |attempts| && Going(history, start, attempts, m, c)
    requires IsOutcome(attempts[|history|], c, left, end, t, m)
    ensures IsHistory(Extended(history, end, t), start, attempts, Steps(m))
    ensures end.None? ==> Going(Extended(history, end, t), start, attempts, m, left)
    ensures end.Some? ==> Ends(end.value, Extended(history, end, t), start, attempts, m)
  {
    var n := |history|;
    assert attempts[..n + 1] == attempts[..n] + [attempts[n]];
    if IsStepOf(end) {
      HistorySnoc(history, start, attempts, Steps(m), t);
      assert Left(history + [t], start) == left;
    }
  }

  /** Ahead of every spec of the release line that was seen. */
  ghost predicate Fresh(version: Candidate, prefix: string, specs: seq<string>) {
    version.Valid() && forall s :: s in specs && prefix <= s ==>
      ParseCandidate(s).Some? && Less(ParseCandidate(s).value.VersionComponents(), version.VersionComponents())
  }

  /** The version started from was ahead of the latest spec already, or that spec has the name that
      its version is rendered as and this is no dry run. */
  predicate StartsAhead(t: Step, m: Mode) {
    t.latest.Some? ==>
      && t.own.Valid() && ParseCandidate(t.latest.value).Some?
      && (Less(ParseCandidate(t.latest.value).value.VersionComponents(), t.own.VersionComponents())
          || (!m.dryRun && Canonical(t.latest.value)))
  }

  /** What an attempt left is ahead of all the specs of its release line that it saw. */
  ghost predicate IsFresh(a: Attempt, t: Step, m: Mode) {
    Fresh(t.left, BuildPrefix(t.own.version, m.incrType), a.specs)
  }

  /** What the manager was told to do. */
  datatype Mode = Mode(incrType: IncrType, force: bool, dryRun: bool)

  class LkgmManager {
    const mode: Mode
    var latest: Option<string>
    var currentVersion: Option<string>

    constructor (mode: Mode)
      ensures this.mode == mode && latest == None && currentVersion == None
    {
      this.mode := mode;
      latest, currentVersion := None, None;
    }

    /** Looks up the latest spec of the release line of `c`. */
    method InitializeManifestVariables(c: Candidate, specs: seq<string>) returns (failure: Option<VersionError>)
      requires c.Valid()
      modifies this`latest
      ensures failure.None? ==> Known(latest, BuildPrefix(c.version, mode.incrType), specs)
      ensures failure.Some? <==>
        exists s :: s in specs && BuildPrefix(c.version, mode.incrType) <= s && ParseCandidate(s).None?
      ensures failure.Some? ==> failure.value.BadSpec? && latest == old(latest)
      ensures failure.Some? ==> failure.value.name in specs && ParseCandidate(failure.value.name).None?
      ensures failure.Some? ==> BuildPrefix(c.version, mode.incrType) <= failure.value.name
    {
      var r := LatestSpecFromDir(Lkgm, c.version, mode.incrType, specs);
      if r.Err? {
        return Some(r.error);
      }
      latest := r.value;
      failure := None;
    }

    /** Chooses a candidate, increments it if its name is taken, and says which was chosen. */
    method GetNextVersion(c: Candidate) returns (next: Candidate)
      requires c.Valid()
      ensures next == NextCandidate(c, latest, mode.dryRun)
      ensures latest == Some(c.VersionString()) && !mode.dryRun ==> Some(next.VersionString()) != latest
    {
      next := c;
      if latest == Some(c.VersionString()) {
        if !mode.dryRun {
          IncrementIsLarger(c);
          next := Candidate(c.version, c.revision + 1);
        }
      }
    }

    /** Continues from the latest spec if that is ahead, and chooses the candidate to publish,
        unless no branch for it can be created. */
    method ChooseCandidate(own: Candidate, a: Attempt) returns (c: Candidate, ghost t: Step)
      requires own.Valid() && Known(latest, BuildPrefix(own.version, mode.incrType), a.specs)
      requires !a.trouble.RefreshFails? && (mode.force || !a.alreadyBuilt)
      ensures c.Valid() && var base := Base(own, latest);
        c == if a.trouble.BranchFails? then base else NextCandidate(base, latest, mode.dryRun)
      ensures t == Step(own, latest, c, !a.trouble.BranchFails?) && IsStep(a, t, mode)
      ensures t.tried ==> (IsFresh(a, t, mode) <==> StartsAhead(t, mode))
    {
      c := own;
      if latest.Some? {
        c := Rebase(c, latest.value);
      }
      if a.trouble.BranchFails? {
        t := Step(own, latest, c, false);
        return;
      }
      c := GetNextVersion(c);
      t := Step(own, latest, c, true);
      TriedIsFreshIff(a, t, mode);
    }

    /** One attempt: it ends the search, or leaves a version behind for the next attempt. */
    method TryOnce(c: Candidate, a: Attempt, again: bool)
      returns (left: Candidate, end: Option<Result<Option<string>, VersionError>>, ghost t: Step)
      requires c.Valid()
      requires again || (!a.trouble.RefreshFails? && Known(latest, BuildPrefix(c.version, mode.incrType), a.specs))
      modifies this`latest
      ensures IsOutcome(a, c, left, end, t, mode)
    {
      left, t := c, Step(c, latest, c, false);
      if again {
        if a.trouble.RefreshFails? {
          return left, None, t;
        }
        var failure := InitializeManifestVariables(c, a.specs);
        if failure.Some? {
          return left, Some(Err(failure.value)), t;
        }
      }
      if !mode.force && a.alreadyBuilt {
        return left, Some(Ok(None)), t;
      }
      left, t := ChooseCandidate(c, a);
      end := if a.trouble.NoTrouble? then Some(Ok(Some(left.VersionString()))) else None;
    }

    /** Publishes the next candidate, retrying with a refreshed checkout when that fails. Every
        attempt continues from the version that the attempt before left behind, and tries a version
        that is ahead of all the specs it saw. */
    method CreateNewCandidate(start: Candidate, attempts: seq<Attempt>)
      returns (r: Result<Option<string>, VersionError>, ghost history: seq<Step>)
      requires start.Valid() && attempts != []
      modifies this
      ensures IsHistory(history, start, attempts, Steps(mode))
      ensures Ends(r, history, start, attempts, mode)
      ensures currentVersion == if r.Ok? && r.value.Some? then r.value else old(currentVersion)
    {
      var c := start;
      history := [];
      if attempts[0].trouble.RefreshFails? {
        r := Err(RefreshFailed);
        return;
      }
      var failure := InitializeManifestVariables(c, attempts[0].specs);
      if failure.Some? {
        r := Err(failure.value);
        return;
      }
      for i := 0 to |attempts|
        invariant currentVersion == old(currentVersion)
        invariant i == 0 ==> Known(latest, BuildPrefix(c.version, mode.incrType), attempts[0].specs)
        invariant |history| == i && Going(history, start, attempts, mode, c)
      {
        var left, end;
        ghost var t;
        left, end, t := TryOnce(c, attempts[i], i != 0);
        Extend(history, start, attempts, mode, c, left, end, t);
        c, history := left, Extended(history, end, t);
        if end.Some? {
          r := end.value;
          if r.Ok? && r.value.Some? {
            currentVersion := r.value;
          }
          return;
        }
      }
      assert attempts[..|attempts|] == attempts;
      r := Err(GenerateBuildSpec);
    }
  }

  /** Every attempt of a history is a step from what the one before left. */
  lemma {:induction false} HistoryAt(
    history: seq<Step>, start: Candidate, attempts: seq<Attempt>, steps: (Attempt, Step) -> bool, i: nat)
    requires IsHistory(history, start, attempts, steps) && i < |history|
    ensures steps(attempts[i], history[i])
    ensures history[i].own == if i == 0 then start else history[i - 1].left
    decreases |history|
  {
    var n := |history| - 1;
    if i < n {
      HistoryAt(history[..n], start, attempts, steps, i);
    }
  }

  /** Whatever earlier attempts did to the version: an attempt of a history tries a version ahead of
      all it saw exactly when it started ahead, or from a canonical name outside a dry run. */
  lemma HistoryIsFreshIff(history: seq<Step>, start: Candidate, attempts: seq<Attempt>, m: Mode, i: nat)
    requires IsHistory(history, start, attempts, Steps(m)) && i < |history| && history[i].tried
    ensures IsFresh(attempts[i], history[i], m) <==> StartsAhead(history[i], m)
  {
    HistoryAt(history, start, attempts, Steps(m), i);
    TriedIsFreshIff(attempts[i], history[i], m);
  }

  lemma HistorySnoc(
    history: seq<Step>, start: Candidate, attempts: seq<Attempt>, steps: (Attempt, Step) -> bool, t: Step)
    requires IsHistory(history, start, attempts, steps) && |history| < |attempts|
    requires steps(attempts[|history|], t) && t.own == Left(history, start)
    ensures IsHistory(history + [t], start, attempts, steps)
  {
    assert (history + [t])[..|history|] == history;
  }

  /** With a canonical name for the latest spec a branch increment stays on its release line: what an
      attempt leaves has the build number it found, and the branch number if the patch number it found
      is not 0. */
  lemma StepKeepsLine(a: Attempt, t: Step, m: Mode)
    requires IsStep(a, t, m) && m.incrType.Branch? && (t.latest.Some? ==> Canonical(t.latest.value))
    ensures t.left.version.build == t.own.version.build
    ensures t.own.version.patch != "0" ==> t.left.version.branch == t.own.version.branch
  {
    if !a.trouble.RefreshFails? && t.latest.Some? {
      CanonicalKeepsLine(t.own.version, t.latest.value);
    }
  }

  lemma CanonicalKeepsLine(v: Version, latest: string)
    requires v.Valid() && Canonical(latest) && BuildPrefix(v, Branch) <= latest
    ensures var parsed := ParseCandidate(latest).value.version;
      parsed.build == v.build && (v.patch == "0" || parsed.branch == v.branch)
  {
    CandidateLine(v, ParseCandidate(latest).value);
  }

  /** The release line of a candidate is that of its version. */
  lemma CandidateLine(v: Version, c: Candidate)
    requires v.Valid() && c.Valid()
    ensures BuildPrefix(v, Branch) <= c.VersionString() <==>
      c.version.build == v.build && (v.patch == "0" || c.version.branch == v.branch)
  {
    assert c.VersionString() == c.version.VersionString() + ("-rc" + StrOf(c.revision));
    BuildPrefixIff(v, Branch, c.version, "-rc" + StrOf(c.revision));
  }

  /** So a whole search for a branch increment never leaves the build it started from. */
  lemma {:induction false} HistoryKeepsBuild(
    history: seq<Step>, start: Candidate, attempts: seq<Attempt>, m: Mode, i: nat)
    requires IsHistory(history, start, attempts, Steps(m)) && i < |history| && m.incrType.Branch?
    requires forall j :: 0 <= j <= i && history[j].latest.Some? ==> Canonical(history[j].latest.value)
    ensures history[i].left.version.build == start.version.build
    decreases i
  {
    HistoryAt(history, start, attempts, Steps(m), i);
    StepKeepsLine(attempts[i], history[i], m);
    if i > 0 {
      HistoryKeepsBuild(history, start, attempts, m, i - 1);
    }
  }

  /** An attempt does not leave a smaller version than it found. */
  ghost predicate Forward(t: Step) {
    t.own.Valid() && t.left.Valid() && !Less(t.left.VersionComponents(), t.own.VersionComponents())
  }

  lemma {:induction false} ForwardThroughout(
    history: seq<Step>, start: Candidate, attempts: seq<Attempt>, steps: (Attempt, Step) -> bool, i: nat, j: nat)
    requires IsHistory(history, start, attempts, steps) && i <= j < |history|
    requires forall a, t :: steps(a, t) ==> Forward(t)
    ensures history[i].left.Valid() && history[j].left.Valid()
    ensures !Less(history[j].left.VersionComponents(), history[i].left.VersionComponents())
    decreases j
  {
    HistoryAt(history, start, attempts, steps, j);
    var last := history[j].left.VersionComponents();
    LessIsTotal(last, last);
    if i < j {
      ForwardThroughout(history, start, attempts, steps, i, j - 1);
      LessIsTransitive(history[i].left.VersionComponents(), history[j].own.VersionComponents(), last);
    }
  }

  /** No attempt ever leaves a smaller version than an earlier one left. */
  lemma VersionsNeverGoBack(history: seq<Step>, start: Candidate, attempts: seq<Attempt>, m: Mode, i: nat, j: nat)
    requires IsHistory(history, start, attempts, Steps(m)) && i <= j < |history|
    ensures history[i].left.Valid() && history[j].left.Valid()
    ensures !Less(history[j].left.VersionComponents(), history[i].left.VersionComponents())
  {
    forall a, t | Steps(m)(a, t)
      ensures Forward(t)
    {
      StepNeverGoesBack(a, t, m);
    }
    ForwardThroughout(history, start, attempts, Steps(m), i, j);
  }

  lemma StepNeverGoesBack(a: Attempt, t: Step, m: Mode)
    requires IsStep(a, t, m)
    ensures Forward(t)
  {
    var own := t.own.VersionComponents();
    LessIsTotal(own, own);
    if !a.trouble.RefreshFails? {
      var base := Base(t.own, t.latest);
      IncrementIsLarger(base);
      LessIsTotal(base.VersionComponents(), t.left.VersionComponents());
      LessIsTransitive(own, base.VersionComponents(), t.left.VersionComponents());
    }
  }

  /** `latest` is the greatest of the specs with the prefix, if there are any. */
  ghost predicate Known(latest: Option<string>, prefix: string, specs: seq<string>) {
    && (latest.Some? ==> latest.value in specs && prefix <= latest.value && ParseCandidate(latest.value).Some?)
    && forall s :: s in specs && prefix <= s ==>
         && ParseCandidate(s).Some? && latest.Some?
         && !Less(ParseCandidate(latest.value).value.VersionComponents(), ParseCandidate(s).value.VersionComponents())
  }

  /** A version ahead of everything seen does not reuse any of the names seen. */
  lemma FreshNameIsNew(version: Candidate, prefix: string, specs: seq<string>, s: string)
    requires Fresh(version, prefix, specs) && s in specs && prefix <= s
    ensures s != version.VersionString()
  {
    CandidateRoundTrip(version);
    LessIsTotal(version.VersionComponents(), version.VersionComponents());
  }

  lemma TriedIsFreshIff(a: Attempt, t: Step, m: Mode)
    requires IsStep(a, t, m) && t.tried
    ensures IsFresh(a, t, m) <==> StartsAhead(t, m)
  {
    if t.latest.Some? {
      var latest := ParseCandidate(t.latest.value).value.VersionComponents();
      NextIsFreshIff(t.own, t.latest.value, m.dryRun);
      if Less(latest, t.left.VersionComponents()) {
        AheadOfLatest(t.latest.value, BuildPrefix(t.own.version, m.incrType), a.specs, t.left);
      }
    }
  }

  lemma AheadOfLatest(latest: string, prefix: string, specs: seq<string>, version: Candidate)
    requires Known(Some(latest), prefix, specs) && version.Valid()
    requires Less(ParseCandidate(latest).value.VersionComponents(), version.VersionComponents())
    ensures Fresh(version, prefix, specs)
  {
    forall s | s in specs && prefix <= s
      ensures Less(ParseCandidate(s).value.VersionComponents(), version.VersionComponents())
    {
      LessIsTransitive(ParseCandidate(s).value.VersionComponents(),
                       ParseCandidate(latest).value.VersionComponents(), version.VersionComponents());
    }
  }
}
