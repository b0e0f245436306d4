/** Runtime dependency expressions and how the deploy command resolves them
    against the installed and the available packages. */
module DepExpr {
  import opened Wrappers

  type Cp = string
  type Slot = string

  /** A (CP, slot) pair; the slot may be missing. */
  datatype Dep = Dep(cp: Cp, slot: Option<Slot>)

  /** Which (CP, slot) keys a package database holds. */
  type Index = map<Cp, set<Slot>>

  datatype Blocker = NoBlocker | Unversioned | Versioned

  /** One item of a parenthesis-reduced dependency list. */
  datatype DepExp =
    | Atom(blocker: Blocker, cp: Cp, slot: Option<Slot>)
    | OrMark
    | Conditional
    | Group(body: seq<DepExp>)

  datatype DepError = MalformedDisjunction | HasConditional | IgnoredAtomInDisjunct

  type Resolution = Result<set<Dep>, DepError>

  /** A slot that is missing or empty constrains nothing. */
  predicate AnySlot(slot: Option<Slot>) {
    slot.None? || slot.value == ""
  }

  predicate InDB(d: Dep, db: Index) {
    d.cp in db && (AnySlot(d.slot) || d.slot.value in db[d.cp])
  }

  predicate AllInDB(ds: set<Dep>, db: Index) {
    forall d :: d in ds ==> InDB(d, db)
  }

  /** `None` for an ignored blocker, the plain (CP, slot) pair otherwise. */
  function StripDepAtom(blocker: Blocker, cp: Cp, slot: Option<Slot>, installed: Index): Option<Dep> {
    if blocker.Unversioned? then None
    else if blocker.Versioned? && !InDB(Dep(cp, None), installed) then None
    else Some(Dep(cp, slot))
  }

  // ----- What an expression resolves to, stated choice by choice

  /** The item at `i` is the operand of a `||` mark. */
  predicate AfterOr(es: seq<DepExp>, i: nat)
    requires i <= |es|
  {
    i > 0 && es[i - 1].OrMark?
  }

  ghost function ItemDeps(e: DepExp, afterOr: bool, disjunct: bool, installed: Index, avail: Option<Index>): Resolution
    decreases e, 2
  {
    match e
    case Group(body) => Resolve(body, afterOr, installed, avail)
    case _ =>
      if afterOr then Err(MalformedDisjunction)
      else match e
        case OrMark => Ok({})
        case Conditional => Err(HasConditional)
        case Atom(blocker, cp, slot) =>
          match StripDepAtom(blocker, cp, slot, installed)
          case Some(d) => Ok({d})
          case None => if disjunct then Err(IgnoredAtomInDisjunct) else Ok({})
  }

  /** The dependency sets of the first `k` items, or the first error among them. */
  ghost function ItemsDeps(es: seq<DepExp>, k: nat, disjunct: bool, installed: Index, avail: Option<Index>)
    : (r: Result<seq<set<Dep>>, DepError>)
    requires k <= |es|
    ensures r.Ok? ==> |r.value| == k
    decreases es, 0, k
  {
    if k == 0 then Ok([])
    else
      match ItemsDeps(es, k - 1, disjunct, installed, avail)
      case Err(e) => Err(e)
      case Ok(before) =>
        match ItemDeps(es[k - 1], AfterOr(es, k - 1), disjunct, installed, avail)
        case Err(e) => Err(e)
        case Ok(ds) => Ok(before + [ds])
  }

  ghost function Union(choices: seq<set<Dep>>): set<Dep> {
    set i, d | 0 <= i < |choices| && d in choices[i] :: d
  }

  /** The union of the choices that are fully installed. */
  ghost function InstalledChoices(choices: seq<set<Dep>>, installed: Index): set<Dep> {
    set i, d | 0 <= i < |choices| && d in choices[i] && AllInDB(choices[i], installed) :: d
  }

  /** The first non-empty choice that is fully available. */
  ghost function DefaultChoice(choices: seq<set<Dep>>, avail: Option<Index>): set<Dep> {
    if choices == [] then {}
    else
      var before := DefaultChoice(choices[..|choices| - 1], avail);
      var last := choices[|choices| - 1];
      if before == {} && avail.Some? && AllInDB(last, avail.value) then last else before
  }

  ghost function Choose(choices: seq<set<Dep>>, installed: Index, avail: Option<Index>): set<Dep> {
    var present := InstalledChoices(choices, installed);
    if present != {} then present else DefaultChoice(choices, avail)
  }

  ghost function Resolve(es: seq<DepExp>, disjunct: bool, installed: Index, avail: Option<Index>): Resolution
    decreases es, 1
  {
    match ItemsDeps(es, |es|, disjunct, installed, avail)
    case Err(e) => Err(e)
    case Ok(choices) => Ok(if disjunct then Choose(choices, installed, avail) else Union(choices))
  }

  // ----- The algorithm

  /** The loop over a (sub)expression; `subDisjunct` remembers a preceding `||`. */
  method ProcessSubDeps(depExp: seq<DepExp>, disjunct: bool, installed: Index, avail: Option<Index>)
    returns (r: Resolution)
    ensures r == Resolve(depExp, disjunct, installed, avail)
    decreases depExp, 1
  {
    var deps: set<Dep>, defaultDeps: set<Dep> := {}, {};
    var subDisjunct := false;
    ghost var choices: seq<set<Dep>> := [];
    for i := 0 to |depExp|
      invariant ItemsDeps(depExp, i, disjunct, installed, avail) == Ok(choices)
      invariant subDisjunct == AfterOr(depExp, i)
      invariant IsSoFar(choices, disjunct, installed, avail, deps, defaultDeps)
    {
      FirstErrorWins(depExp, i + 1, disjunct, installed, avail);
      var sub := ProcessSubExp(depExp[i], subDisjunct, disjunct, installed, avail);
      if sub.Err? {
        return sub;
      }
      var subDeps := sub.value;
      subDisjunct := depExp[i].OrMark?;
      ChoicesSnoc(choices, subDeps, installed, avail);
      choices := choices + [subDeps];
      if disjunct {
        if defaultDeps == {} && avail.Some? && AllInDB(subDeps, avail.value) {
          defaultDeps := subDeps;
        }
        if !AllInDB(subDeps, installed) {
          subDeps := {};
        }
      }
      deps := deps + subDeps;
    }
    r := Ok(if deps != {} then deps else defaultDeps);
  }

  /** One item of the loop: recurse into a list, strip an atom, or raise. */
  method ProcessSubExp(e: DepExp, subDisjunct: bool, disjunct: bool, installed: Index, avail: Option<Index>)
    returns (r: Resolution)
    ensures r == ItemDeps(e, subDisjunct, disjunct, installed, avail)
    decreases e, 2
  {
    match e
    case Group(body) =>
      r := ProcessSubDeps(body, subDisjunct, installed, avail);
    case OrMark =>
      r := if subDisjunct then Err(MalformedDisjunction) else Ok({});
    case Conditional =>
      r := Err(if subDisjunct then MalformedDisjunction else HasConditional);
    case Atom(blocker, cp, slot) =>
      if subDisjunct {
        return Err(MalformedDisjunction);
      }
      var stripped := StripDepAtom(blocker, cp, slot, installed);
      r := if stripped.Some? then Ok({stripped.value})
           else if disjunct then Err(IgnoredAtomInDisjunct) else Ok({});
  }

  lemma {:induction false} FirstErrorWins(
    es: seq<DepExp>, k: nat, disjunct: bool, installed: Index, avail: Option<Index>)
    requires k <= |es|
    ensures ItemsDeps(es, k, disjunct, installed, avail).Err?
      ==> ItemsDeps(es, |es|, disjunct, installed, avail) == ItemsDeps(es, k, disjunct, installed, avail)
    decreases |es| - k
  {
    if k < |es| {
      FirstErrorWins(es, k + 1, disjunct, installed, avail);
    }
  }

  /** The two results of the loop after these choices. */
  ghost predicate IsSoFar(choices: seq<set<Dep>>, disjunct: bool, installed: Index, avail: Option<Index>,
                          deps: set<Dep>, defaultDeps: set<Dep>) {
    && deps == (if disjunct then InstalledChoices(choices, installed) else Union(choices))
    && defaultDeps == if disjunct then DefaultChoice(choices, avail) else {}
  }

  lemma ChoicesSnoc(choices: seq<set<Dep>>, last: set<Dep>, installed: Index, avail: Option<Index>)
    ensures Union(choices + [last]) == Union(choices) + last
    ensures InstalledChoices(choices + [last], installed)
         == InstalledChoices(choices, installed) + if AllInDB(last, installed) then last else {}
    ensures DefaultChoice(choices + [last], avail)
         == var before := DefaultChoice(choices, avail);
            if before == {} && avail.Some? && AllInDB(last, avail.value) then last else before
  {
    var longer := choices + [last];
    assert forall i :: 0 <= i < |choices| ==> longer[i] == choices[i];
    assert longer[|choices|] == last;
    assert longer[..|longer| - 1] == choices;
  }

  // ----- What the resolution means

  /** `p` is the set of dependencies that hold on some system. An unversioned blocker always holds, a
      versioned one when nothing it blocks is installed or it is among the dependencies. */
  ghost predicate Holds(e: DepExp, afterOr: bool, installed: Index, p: iset<Dep>)
    decreases e, 1
  {
    match e
    case Atom(blocker, cp, slot) =>
      blocker.Unversioned? || (blocker.Versioned? && cp !in installed) || Dep(cp, slot) in p
    case OrMark => true
    case Conditional => false
    case Group(body) => AllHold(body, afterOr, installed, p)
  }

  ghost predicate Within(ds: set<Dep>, p: iset<Dep>) {
    forall d :: d in ds ==> d in p
  }

  /** A plain list is a conjunction of its items, an operand of `||` a choice between them. */
  ghost predicate AllHold(es: seq<DepExp>, disjunct: bool, installed: Index, p: iset<Dep>)
    decreases es, 0
  {
    if disjunct then
      exists i :: 0 <= i < |es| && !es[i].OrMark? && Holds(es[i], AfterOr(es, i), installed, p)
    else
      forall i :: 0 <= i < |es| ==> Holds(es[i], AfterOr(es, i), installed, p)
  }

  /** Every `||` operand in the expression resolves to at least one dependency. */
  ghost predicate ChoicesExist(es: seq<DepExp>, disjunct: bool, installed: Index, avail: Option<Index>)
    decreases es
  {
    && (disjunct ==> Resolve(es, true, installed, avail) != Ok({}))
    && forall i :: 0 <= i < |es| && es[i].Group? ==> ChoicesExist(es[i].body, AfterOr(es, i), installed, avail)
  }

  lemma {:induction false} ItemsDepsAt(
    es: seq<DepExp>, k: nat, i: nat, disjunct: bool, installed: Index, avail: Option<Index>)
    requires i < k <= |es|
    requires ItemsDeps(es, k, disjunct, installed, avail).Ok?
    ensures ItemDeps(es[i], AfterOr(es, i), disjunct, installed, avail)
         == Ok(ItemsDeps(es, k, disjunct, installed, avail).value[i])
    decreases k
  {
    if i < k - 1 {
      ItemsDepsAt(es, k - 1, i, disjunct, installed, avail);
    }
  }

  /** The chosen default is the first of the choices that is non-empty and fully available. */
  lemma {:induction false} DefaultIsAChoice(choices: seq<set<Dep>>, avail: Option<Index>) returns (i: nat)
    requires DefaultChoice(choices, avail) != {}
    ensures i < |choices| && choices[i] == DefaultChoice(choices, avail)
    ensures avail.Some? && AllInDB(choices[i], avail.value)
    ensures forall j :: 0 <= j < i ==> choices[j] == {} || !AllInDB(choices[j], avail.value)
  {
    var n := |choices| - 1;
    var init := choices[..n];
    assert forall j :: 0 <= j < n ==> init[j] == choices[j];
    if DefaultChoice(init, avail) != {} {
      i := DefaultIsAChoice(init, avail);
    } else {
      i := n;
      NoDefaultIff(init, avail);
    }
  }

  // ----- Atoms and errors, without the functions above

  /** The atom asks for `d`: it is plain, or a versioned blocker of something that is installed. */
  predicate Asks(e: DepExp, d: Dep, installed: Index) {
    e.Atom? && d == Dep(e.cp, e.slot) && (e.blocker.NoBlocker? || (e.blocker.Versioned? && e.cp in installed))
  }

  lemma AtomDeps(e: DepExp, installed: Index, avail: Option<Index>)
    requires e.Atom?
    ensures ItemDeps(e, false, false, installed, avail).Ok?
    ensures forall d :: d in ItemDeps(e, false, false, installed, avail).value <==> Asks(e, d, installed)
  {
  }

  lemma {:induction false} AtomsAreOk(es: seq<DepExp>, k: nat, installed: Index, avail: Option<Index>)
    requires k <= |es| && forall i :: 0 <= i < |es| ==> es[i].Atom?
    ensures ItemsDeps(es, k, false, installed, avail).Ok?
  {
    if k > 0 {
      AtomsAreOk(es, k - 1, installed, avail);
      AtomDeps(es[k - 1], installed, avail);
    }
  }

  /** A list of atoms, blockers or not, resolves to exactly what its atoms ask for. */
  lemma AtomsResolveTo(es: seq<DepExp>, installed: Index, avail: Option<Index>, d: Dep)
    requires forall i :: 0 <= i < |es| ==> es[i].Atom?
    ensures Resolve(es, false, installed, avail).Ok?
    ensures d in Resolve(es, false, installed, avail).value <==> exists i :: 0 <= i < |es| && Asks(es[i], d, installed)
  {
    AtomsAreOk(es, |es|, installed, avail);
    var choices := ItemsDeps(es, |es|, false, installed, avail).value;
    forall i | 0 <= i < |es|
      ensures d in choices[i] <==> Asks(es[i], d, installed)
    {
      ItemsDepsAt(es, |es|, i, false, installed, avail);
      AtomDeps(es[i], installed, avail);
    }
  }

  /** The expression cannot be resolved: a `||` mark is not followed by a list, a conditional occurs,
      or an alternative is a blocker that is ignored. */
  ghost predicate Malformed(es: seq<DepExp>, disjunct: bool, installed: Index)
    decreases es, 1
  {
    exists i: nat :: i < |es| && BadItem(es, i, disjunct, installed)
  }

  lemma {:induction false} ItemErrs(es: seq<DepExp>, k: nat, disjunct: bool, installed: Index, avail: Option<Index>)
    returns (i: nat)
    requires k <= |es| && ItemsDeps(es, k, disjunct, installed, avail).Err?
    ensures i < k && ItemDeps(es[i], AfterOr(es, i), disjunct, installed, avail).Err?
    decreases k
  {
    if ItemsDeps(es, k - 1, disjunct, installed, avail).Err? {
      i := ItemErrs(es, k - 1, disjunct, installed, avail);
    } else {
      i := k - 1;
    }
  }

  lemma {:induction false} ErrStays(
    es: seq<DepExp>, k: nat, i: nat, disjunct: bool, installed: Index, avail: Option<Index>)
    requires i < k <= |es| && ItemDeps(es[i], AfterOr(es, i), disjunct, installed, avail).Err?
    ensures ItemsDeps(es, k, disjunct, installed, avail).Err?
    decreases k
  {
    if i < k - 1 {
      ErrStays(es, k - 1, i, disjunct, installed, avail);
    }
  }

  /** What is wrong with the item at `i`, if anything is. */
  ghost predicate BadItem(es: seq<DepExp>, i: nat, disjunct: bool, installed: Index)
    requires i < |es|
    decreases es, 0
  {
    match es[i]
    case Group(body) => Malformed(body, AfterOr(es, i), installed)
    case OrMark => AfterOr(es, i)
    case Conditional => true
    case Atom(blocker, cp, _) =>
      AfterOr(es, i) || (disjunct && (blocker.Unversioned? || (blocker.Versioned? && cp !in installed)))
  }

  lemma {:induction false} BadItemIff(es: seq<DepExp>, i: nat, disjunct: bool, installed: Index, avail: Option<Index>)
    requires i < |es|
    ensures ItemDeps(es[i], AfterOr(es, i), disjunct, installed, avail).Err? <==> BadItem(es, i, disjunct, installed)
    decreases es, 0
  {
    if es[i].Group? {
      ErrsIff(es[i].body, AfterOr(es, i), installed, avail);
    }
  }

  /** An expression fails to resolve exactly when it is malformed, however deep the fault is. */
  lemma {:induction false} ErrsIff(es: seq<DepExp>, disjunct: bool, installed: Index, avail: Option<Index>)
    ensures Resolve(es, disjunct, installed, avail).Err? <==> Malformed(es, disjunct, installed)
    decreases es, 1
  {
    if Resolve(es, disjunct, installed, avail).Err? {
      var i := ItemErrs(es, |es|, disjunct, installed, avail);
      BadItemIff(es, i, disjunct, installed, avail);
    }
    if i: nat :| i < |es| && BadItem(es, i, disjunct, installed) {
      BadItemIff(es, i, disjunct, installed, avail);
      ErrStays(es, |es|, i, disjunct, installed, avail);
    }
  }

  /** Any system on which all returned dependencies hold satisfies the whole nested expression. */
  lemma {:induction false} ResolutionIsSound(
    es: seq<DepExp>, disjunct: bool, installed: Index, avail: Option<Index>, p: iset<Dep>)
    requires Resolve(es, disjunct, installed, avail).Ok?
    requires ChoicesExist(es, disjunct, installed, avail)
    requires Within(Resolve(es, disjunct, installed, avail).value, p)
    ensures AllHold(es, disjunct, installed, p)
    decreases es, 1
  {
    var choices := ItemsDeps(es, |es|, disjunct, installed, avail).value;
    if disjunct {
      var i := PickedChoice(choices, installed, avail);
      ItemsDepsAt(es, |es|, i, disjunct, installed, avail);
      ItemIsSound(es, i, disjunct, installed, avail, p);
    } else {
      forall i | 0 <= i < |es|
        ensures Holds(es[i], AfterOr(es, i), installed, p)
      {
        ItemsDepsAt(es, |es|, i, disjunct, installed, avail);
        assert choices[i] <= Union(choices);
        ItemIsSound(es, i, disjunct, installed, avail, p);
      }
    }
  }

  /** A non-empty result of a choice contains a whole non-empty alternative. */
  lemma PickedChoice(choices: seq<set<Dep>>, installed: Index, avail: Option<Index>) returns (i: nat)
    requires Choose(choices, installed, avail) != {}
    ensures i < |choices| && choices[i] != {} && choices[i] <= Choose(choices, installed, avail)
  {
    var present := InstalledChoices(choices, installed);
    if present != {} {
      var d :| d in present;
      i :| 0 <= i < |choices| && d in choices[i] && AllInDB(choices[i], installed);
    } else {
      i := DefaultIsAChoice(choices, avail);
    }
  }

  lemma {:induction false} ItemIsSound(
    es: seq<DepExp>, i: nat, disjunct: bool, installed: Index, avail: Option<Index>, p: iset<Dep>)
    requires i < |es| && ChoicesExist(es, disjunct, installed, avail)
    requires ItemDeps(es[i], AfterOr(es, i), disjunct, installed, avail).Ok?
    requires Within(ItemDeps(es[i], AfterOr(es, i), disjunct, installed, avail).value, p)
    ensures Holds(es[i], AfterOr(es, i), installed, p)
    decreases es, 0
  {
    if es[i].Group? {
      ResolutionIsSound(es[i].body, AfterOr(es, i), installed, avail, p);
    }
  }

  /** When some non-empty alternative is fully installed, only installed packages are asked for. */
  lemma InstalledChoicePreferred(es: seq<DepExp>, i: nat, installed: Index, avail: Option<Index>)
    requires Resolve(es, true, installed, avail).Ok? && i < |es|
    requires var item := ItemDeps(es[i], AfterOr(es, i), true, installed, avail);
             item.Ok? ==> item.value != {} && AllInDB(item.value, installed)
    ensures AllInDB(Resolve(es, true, installed, avail).value, installed)
    ensures var item := ItemDeps(es[i], AfterOr(es, i), true, installed, avail);
            item.Ok? && item.value <= Resolve(es, true, installed, avail).value
  {
    var choices := ItemsDeps(es, |es|, true, installed, avail).value;
    ItemsDepsAt(es, |es|, i, true, installed, avail);
    var d :| d in choices[i];
    assert d in InstalledChoices(choices, installed);
  }

  // ----- Exactly when a choice between plain packages is sound

  ghost predicate PlainAtoms(es: seq<DepExp>) {
    forall i :: 0 <= i < |es| ==> es[i].Atom? && es[i].blocker.NoBlocker?
  }

  function PlainDep(e: DepExp): Dep
    requires e.Atom?
  {
    Dep(e.cp, e.slot)
  }

  predicate Present(d: Dep, installed: Index, avail: Option<Index>) {
    InDB(d, installed) || (avail.Some? && InDB(d, avail.value))
  }

  /** Some alternative is installed already or could be installed. */
  ghost predicate SomeAlternativePresent(es: seq<DepExp>, installed: Index, avail: Option<Index>)
    requires PlainAtoms(es)
  {
    exists i :: 0 <= i < |es| && Present(PlainDep(es[i]), installed, avail)
  }

  lemma {:induction false} PlainItems(es: seq<DepExp>, k: nat, installed: Index, avail: Option<Index>)
    requires k <= |es| && PlainAtoms(es)
    ensures var r := ItemsDeps(es, k, true, installed, avail);
            r.Ok? && forall i :: 0 <= i < k ==> r.value[i] == {PlainDep(es[i])}
  {
    if k > 0 {
      PlainItems(es, k - 1, installed, avail);
    }
  }

  lemma {:induction false} NoDefaultIff(choices: seq<set<Dep>>, avail: Option<Index>)
    ensures DefaultChoice(choices, avail) == {} <==>
      forall i :: 0 <= i < |choices| && choices[i] != {} ==> avail.None? || !AllInDB(choices[i], avail.value)
  {
    if choices != [] {
      var n := |choices| - 1;
      NoDefaultIff(choices[..n], avail);
      assert forall i :: 0 <= i < n ==> choices[..n][i] == choices[i];
    }
  }

  /** A `||` between plain packages resolves to something iff an alternative is present somewhere. */
  lemma PlainChoiceFoundIff(es: seq<DepExp>, installed: Index, avail: Option<Index>)
    requires PlainAtoms(es)
    ensures Resolve(es, true, installed, avail).Ok?
    ensures Resolve(es, true, installed, avail).value != {} <==> SomeAlternativePresent(es, installed, avail)
  {
    PlainItems(es, |es|, installed, avail);
    var choices := ItemsDeps(es, |es|, true, installed, avail).value;
    NoDefaultIff(choices, avail);
    forall i | 0 <= i < |es|
      ensures PlainDep(es[i]) in choices[i]
      ensures AllInDB(choices[i], installed) <==> InDB(PlainDep(es[i]), installed)
      ensures avail.Some? ==> (AllInDB(choices[i], avail.value) <==> InDB(PlainDep(es[i]), avail.value))
    {
      assert choices[i] == {PlainDep(es[i])};
    }
    if i :| 0 <= i < |es| && InDB(PlainDep(es[i]), installed) {
      assert PlainDep(es[i]) in InstalledChoices(choices, installed);
    }
  }

  /** A `||` between plain packages promises its requirement exactly when one alternative is
      installed or available; otherwise it resolves to nothing and the requirement is lost. */
  lemma PlainChoiceSoundIff(es: seq<DepExp>, installed: Index, avail: Option<Index>)
    requires PlainAtoms(es)
    ensures Resolve(es, true, installed, avail).Ok?
    ensures SomeAlternativePresent(es, installed, avail) <==>
      forall p: iset<Dep> :: Within(Resolve(es, true, installed, avail).value, p) ==> AllHold(es, true, installed, p)
  {
    PlainChoiceFoundIff(es, installed, avail);
    var result := Resolve(es, true, installed, avail).value;
    if result != {} {
      forall p: iset<Dep> | Within(result, p)
        ensures AllHold(es, true, installed, p)
      {
        ResolutionIsSound(es, true, installed, avail, p);
      }
    } else {
      assert !AllHold(es, true, installed, iset{});
    }
  }

  // ----- Exactly when a whole dependency string is sound

  /** A plain package, a `||` mark, or the operand of a `||` mark that lists plain packages. */
  ghost predicate PlainItem(es: seq<DepExp>, i: nat)
    requires i < |es|
  {
    match es[i]
    case Atom(blocker, _, _) => blocker.NoBlocker? && !AfterOr(es, i)
    case OrMark => !AfterOr(es, i)
    case Conditional => false
    case Group(body) => AfterOr(es, i) && PlainAtoms(body)
  }

  ghost predicate PlainList(es: seq<DepExp>) {
    forall i :: 0 <= i < |es| ==> PlainItem(es, i)
  }

  /** An alternative of the group is installed or available, or required outside the group anyway. */
  ghost predicate Covered(es: seq<DepExp>, i: nat, installed: Index, avail: Option<Index>)
    requires PlainList(es) && i < |es| && es[i].Group?
  {
    assert PlainItem(es, i);
    SomeAlternativePresent(es[i].body, installed, avail) || exists j, m :: RequiredAnyway(es, i, j, m)
  }

  predicate RequiredAnyway(es: seq<DepExp>, i: nat, j: nat, m: nat)
    requires i < |es| && es[i].Group?
  {
    j < |es| && m < |es[i].body| && es[j].Atom? && es[i].body[m].Atom? && PlainDep(es[j]) == PlainDep(es[i].body[m])
  }

  ghost predicate AllCovered(es: seq<DepExp>, installed: Index, avail: Option<Index>)
    requires PlainList(es)
  {
    forall i :: 0 <= i < |es| && es[i].Group? ==> Covered(es, i, installed, avail)
  }

  ghost predicate AlwaysKept(es: seq<DepExp>, installed: Index, avail: Option<Index>)
    requires Resolve(es, false, installed, avail).Ok?
  {
    forall p: iset<Dep> :: Within(Resolve(es, false, installed, avail).value, p) ==> AllHold(es, false, installed, p)
  }

  ghost function PlainDeps(es: seq<DepExp>, i: nat, installed: Index, avail: Option<Index>): set<Dep>
    requires PlainList(es) && i < |es|
  {
    assert PlainItem(es, i);
    match es[i]
    case Atom(_, cp, slot) => {Dep(cp, slot)}
    case Group(body) => PlainChoiceFoundIff(body, installed, avail); Resolve(body, true, installed, avail).value
    case _ => {}
  }

  lemma {:induction false} PlainListItems(es: seq<DepExp>, k: nat, installed: Index, avail: Option<Index>)
    requires k <= |es| && PlainList(es)
    ensures var r := ItemsDeps(es, k, false, installed, avail);
            r.Ok? && forall i :: 0 <= i < k ==> r.value[i] == PlainDeps(es, i, installed, avail)
  {
    if k > 0 {
      PlainListItems(es, k - 1, installed, avail);
      assert PlainItem(es, k - 1);
      if es[k - 1].Group? {
        PlainChoiceFoundIff(es[k - 1].body, installed, avail);
      }
    }
  }

  /** A choice between plain packages only asks for alternatives that are present. */
  lemma ChosenIsPresent(es: seq<DepExp>, installed: Index, avail: Option<Index>, d: Dep)
    requires PlainAtoms(es) && Resolve(es, true, installed, avail).Ok? && d in Resolve(es, true, installed, avail).value
    ensures Present(d, installed, avail)
  {
    var choices := ItemsDeps(es, |es|, true, installed, avail).value;
    if InstalledChoices(choices, installed) == {} {
      var i := DefaultIsAChoice(choices, avail);
    }
  }

  lemma CoveredHolds(es: seq<DepExp>, i: nat, installed: Index, avail: Option<Index>, p: iset<Dep>)
    requires PlainList(es) && i < |es| && es[i].Group? && Covered(es, i, installed, avail)
    requires forall j :: 0 <= j < |es| ==> Within(PlainDeps(es, j, installed, avail), p)
    ensures Holds(es[i], AfterOr(es, i), installed, p)
  {
    assert PlainItem(es, i);
    var body := es[i].body;
    PlainChoiceFoundIff(body, installed, avail);
    assert Within(PlainDeps(es, i, installed, avail), p);
    if SomeAlternativePresent(body, installed, avail) {
      ResolutionIsSound(body, true, installed, avail, p);
    } else {
      var j: nat, m: nat :| RequiredAnyway(es, i, j, m);
      assert PlainItem(es, j) && Within(PlainDeps(es, j, installed, avail), p);
      assert Holds(body[m], AfterOr(body, m), installed, p);
    }
  }

  lemma UncoveredFails(es: seq<DepExp>, i: nat, installed: Index, avail: Option<Index>, p: iset<Dep>)
    requires PlainList(es) && i < |es| && es[i].Group? && !Covered(es, i, installed, avail)
    requires forall d :: d in p ==> exists j :: 0 <= j < |es| && d in PlainDeps(es, j, installed, avail)
    ensures !Holds(es[i], AfterOr(es, i), installed, p)
  {
    assert PlainItem(es, i);
    var body := es[i].body;
    forall m | 0 <= m < |body|
      ensures PlainDep(body[m]) !in p
    {
      if PlainDep(body[m]) in p {
        var j :| 0 <= j < |es| && PlainDep(body[m]) in PlainDeps(es, j, installed, avail);
        assert PlainItem(es, j);
        if es[j].Atom? {
          assert RequiredAnyway(es, i, j, m);
        } else {
          PlainChoiceFoundIff(es[j].body, installed, avail);
          ChosenIsPresent(es[j].body, installed, avail, PlainDep(body[m]));
        }
      }
    }
    assert forall m :: 0 <= m < |body| ==> !Holds(body[m], AfterOr(body, m), installed, p);
    assert !AllHold(body, true, installed, p);
  }

  /** A dependency string of plain packages and choices between them promises its requirement exactly
      when each choice has an alternative that is installed or available, or that the string requires
      anyway. */
  lemma PlainStringSoundIff(es: seq<DepExp>, installed: Index, avail: Option<Index>)
    requires PlainList(es)
    ensures Resolve(es, false, installed, avail).Ok?
    ensures AlwaysKept(es, installed, avail) <==> AllCovered(es, installed, avail)
  {
    PlainListItems(es, |es|, installed, avail);
    var choices := ItemsDeps(es, |es|, false, installed, avail).value;
    var result := Resolve(es, false, installed, avail).value;
    assert result == Union(choices);
    if AllCovered(es, installed, avail) {
      forall p: iset<Dep> | Within(result, p)
        ensures AllHold(es, false, installed, p)
      {
        CoveredStringHolds(es, installed, avail, p);
      }
    } else {
      var i :| 0 <= i < |es| && es[i].Group? && !Covered(es, i, installed, avail);
      var p := iset d | d in result;
      UncoveredFails(es, i, installed, avail, p);
      assert Within(result, p) && !AllHold(es, false, installed, p);
    }
  }

  lemma CoveredStringHolds(es: seq<DepExp>, installed: Index, avail: Option<Index>, p: iset<Dep>)
    requires PlainList(es) && AllCovered(es, installed, avail)
    requires Resolve(es, false, installed, avail).Ok? && Within(Resolve(es, false, installed, avail).value, p)
    ensures AllHold(es, false, installed, p)
  {
    PlainListItems(es, |es|, installed, avail);
    var choices := ItemsDeps(es, |es|, false, installed, avail).value;
    assert forall j :: 0 <= j < |es| ==> choices[j] <= Union(choices);
    assert forall j :: 0 <= j < |es| ==> Within(PlainDeps(es, j, installed, avail), p);
    forall i | 0 <= i < |es|
      ensures Holds(es[i], AfterOr(es, i), installed, p)
    {
      assert PlainItem(es, i) && Within(PlainDeps(es, i, installed, avail), p);
      if es[i].Group? {
        CoveredHolds(es, i, installed, avail, p);
      }
    }
  }

  /** The string `|| ( x y )`: when neither package is installed or available it resolves to nothing,
      and the empty system, which does not satisfy it, has all that was asked for. */
  lemma LostRequirement(x: Cp, y: Cp, installed: Index, avail: Option<Index>) returns (es: seq<DepExp>)
    requires x !in installed && y !in installed && (avail.Some? ==> x !in avail.value && y !in avail.value)
    ensures es == [OrMark, Group([Atom(NoBlocker, x, None), Atom(NoBlocker, y, None)])]
    ensures PlainList(es) && Resolve(es, false, installed, avail) == Ok({})
    ensures !AllHold(es, false, installed, iset{})
  {
    var body := [Atom(NoBlocker, x, None), Atom(NoBlocker, y, None)];
    es := [OrMark, Group(body)];
    PlainChoiceFoundIff(body, installed, avail);
    PlainListItems(es, 2, installed, avail);
    assert PlainDeps(es, 0, installed, avail) == {} && PlainDeps(es, 1, installed, avail) == {};
    var choices := ItemsDeps(es, 2, false, installed, avail).value;
    assert choices[0] == {} && choices[1] == {} && Union(choices) == {};
    assert Holds(es[1], AfterOr(es, 1), installed, iset{}) == AllHold(body, true, installed, iset{});
  }
}
