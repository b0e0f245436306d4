/** Chrome OS version numbers: printing, parsing, comparing and incrementing them. */
module Versions {
  import opened Wrappers

  // ----- Decimal numbers

  predicate IsDigit(c: char) {
    '0' <= c <= '9'
  }

  predicate IsNumber(s: string) {
    s != "" && forall i :: 0 <= i < |s| ==> IsDigit(s[i])
  }

  function DigitOf(n: nat): char
    requires n < 10
  {
    '0' + n as char
  }

  function StrOf(n: nat): (s: string)
    ensures IsNumber(s)
  {
    if n < 10 then [DigitOf(n)] else StrOf(n / 10) + [DigitOf(n % 10)]
  }

  function IntOf(s: string): nat
    requires IsNumber(s)
  {
    var last := s[|s| - 1] as int - '0' as int;
    if |s| == 1 then last else IntOf(s[..|s| - 1]) * 10 + last
  }

  lemma {:induction false} IntOfStrOf(n: nat)
    ensures IntOf(StrOf(n)) == n
  {
    if n >= 10 {
      IntOfStrOf(n / 10);
      var s := StrOf(n);
      assert s[..|s| - 1] == StrOf(n / 10);
    }
  }

  function PowerOfTen(n: nat): nat {
    if n == 0 then 1 else 10 * PowerOfTen(n - 1)
  }

  lemma IntOfSnoc(a: string, d: string)
    requires (a == "" || IsNumber(a)) && |d| == 1 && IsNumber(d)
    ensures IsNumber(a + d)
    ensures IntOf(a + d) == (if a == "" then 0 else 10 * IntOf(a)) + (d[0] as int - '0' as int)
  {
    assert (a + d)[..|a + d| - 1] == a && (a + d)[|a + d| - 1] == d[0];
  }

  lemma Shifted(a: nat, p: nat, b: nat, d: nat)
    ensures 10 * (a * p + b) + d == a * (10 * p) + (10 * b + d)
  {
  }

  /** Numbers are read in base ten: putting digits behind a number shifts it by as many places. */
  lemma {:induction false} IntOfDecimal(a: string, b: string)
    requires IsNumber(a) && IsNumber(b)
    ensures IsNumber(a + b) && IntOf(a + b) == IntOf(a) * PowerOfTen(|b|) + IntOf(b)
    decreases |b|
  {
    var n := |b| - 1;
    var init, last := b[..n], [b[n]];
    var d := b[n] as int - '0' as int;
    assert b == init + last;
    if n == 0 {
      assert init == "" && b == last;
      IntOfSnoc(a, b);
      IntOfSnoc("", b);
      assert "" + b == b;
      assert PowerOfTen(1) == 10 * PowerOfTen(0) == 10;
    } else {
      IntOfDecimal(a, init);
      IntOfSnoc(init, last);
      IntOfSnoc(a + init, last);
      assert a + b == (a + init) + last;
      Shifted(IntOf(a), PowerOfTen(n), IntOf(init), d);
    }
  }

  // ----- The patterns, matched the way Python matches them

  /** A group of one or more digits, any character but a newline, or a fixed character. */
  datatype Item = Digits | AnyChar | Lit(c: char)

  /** Where the run of digits that starts at `i` ends. */
  function RunEnd(s: string, i: nat): (j: nat)
    requires i <= |s|
    ensures i <= j <= |s| && (j == |s| || !IsDigit(s[j]))
    ensures forall k :: i <= k < j ==> IsDigit(s[k])
    decreases |s| - i
  {
    if i < |s| && IsDigit(s[i]) then RunEnd(s, i + 1) else i
  }

  /** The first way to match the items at `i`, trying longer groups of digits first: the captured
      groups and where the match ends. */
  function Match(items: seq<Item>, s: string, i: nat): (r: Option<(seq<string>, nat)>)
    requires i <= |s|
    ensures r.Some? ==> i <= r.value.1 <= |s| && forall k :: 0 <= k < |r.value.0| ==> IsNumber(r.value.0[k])
    ensures r.Some? ==> |r.value.0| == Groups(items)
    decreases |items|, 0
  {
    if items == [] then Some(([], i))
    else
      match items[0]
      case Lit(c) => if i < |s| && s[i] == c then Match(items[1..], s, i + 1) else None
      case AnyChar => if i < |s| && s[i] != '\n' then Match(items[1..], s, i + 1) else None
      case Digits => MatchDigits(items[1..], s, i, RunEnd(s, i))
  }

  function Groups(items: seq<Item>): nat {
    if items == [] then 0 else (if items[0].Digits? then 1 else 0) + Groups(items[1..])
  }

  /** Tries a group that ends at `j`, then shorter ones. */
  function MatchDigits(items: seq<Item>, s: string, i: nat, j: nat): (r: Option<(seq<string>, nat)>)
    requires i <= j <= |s| && forall k :: i <= k < j ==> IsDigit(s[k])
    ensures r.Some? ==> i <= r.value.1 <= |s| && forall k :: 0 <= k < |r.value.0| ==> IsNumber(r.value.0[k])
    ensures r.Some? ==> |r.value.0| == 1 + Groups(items)
    decreases |items|, j + 1
  {
    if j == i then None
    else
      match Match(items, s, j)
      case Some((groups, end)) => Some(([s[i..j]] + groups, end))
      case None => MatchDigits(items, s, i, j - 1)
  }

  /** The leftmost match: its groups and its extent. */
  function Search(items: seq<Item>, s: string, i: nat): (r: Option<(seq<string>, nat, nat)>)
    requires i <= |s|
    ensures r.Some? ==> |r.value.0| == Groups(items) && forall k :: 0 <= k < |r.value.0| ==> IsNumber(r.value.0[k])
    ensures r.Some? ==> i <= r.value.1 <= r.value.2 <= |s|
    decreases |s| - i
  {
    match Match(items, s, i)
    case Some((groups, end)) => Some((groups, i, end))
    case None => if i == |s| then None else Search(items, s, i + 1)
  }

  const VER_PATTERN: seq<Item> := [Digits, AnyChar, Digits, AnyChar, Digits]
  const LKGM_PATTERN: seq<Item> := [Digits, Lit('.'), Digits, Lit('.'), Digits]
  const RC_PATTERN: seq<Item> := [Lit('-'), Lit('r'), Lit('c'), Digits]

  /** The three components of a version, as the strings they are kept in. */
  datatype Version = Version(build: string, branch: string, patch: string) {
    predicate Valid() {
      IsNumber(build) && IsNumber(branch) && IsNumber(patch)
    }

    function VersionString(): string {
      build + "." + branch + "." + patch
    }

    function VersionComponents(): seq<nat>
      requires Valid()
    {
      [IntOf(build), IntOf(branch), IntOf(patch)]
    }
  }

  /** `None` when the string does not look like a version. */
  function ParseVersion(s: string): (r: Option<Version>)
    ensures r.Some? ==> r.value.Valid()
  {
    assert Groups(VER_PATTERN) == 3 by { ThreeGroups(AnyChar); }
    match Search(VER_PATTERN, s, 0)
    case None => None
    case Some((groups, _, _)) => Some(Version(groups[0], groups[1], groups[2]))
  }

  lemma GroupsCons(item: Item, rest: seq<Item>)
    ensures Groups([item] + rest) == (if item.Digits? then 1 else 0) + Groups(rest)
  {
    assert ([item] + rest)[1..] == rest;
  }

  lemma ThreeGroups(dot: Item)
    requires !dot.Digits?
    ensures Groups([Digits, dot, Digits, dot, Digits]) == 3
  {
    assert [Digits, dot, Digits, dot, Digits] == [Digits] + ([dot] + ([Digits] + ([dot] + ([Digits] + []))));
    GroupsCons(Digits, []);
    GroupsCons(dot, [Digits] + []);
    GroupsCons(Digits, [dot] + ([Digits] + []));
    GroupsCons(dot, [Digits] + ([dot] + ([Digits] + [])));
    GroupsCons(Digits, [dot] + ([Digits] + ([dot] + ([Digits] + []))));
  }

  /** A version with a candidate number. */
  datatype Candidate = Candidate(version: Version, revision: nat) {
    predicate Valid() {
      version.Valid()
    }

    function VersionString(): string {
      version.VersionString() + "-rc" + StrOf(revision)
    }

    function VersionComponents(): seq<nat>
      requires Valid()
    {
      version.VersionComponents() + [revision]
    }
  }

  function ParseCandidate(s: string): (r: Option<Candidate>)
    ensures r.Some? ==> r.value.Valid()
  {
    match Search(LKGM_PATTERN, s, 0)
    case None => None
    case Some((_, start, end)) =>
      match ParseVersion(s[start..end])
      case None => None
      case Some(version) => Some(Candidate(version, Revision(s, end)))
  }

  /** The optional candidate number after the version; 1 if there is none. */
  function Revision(s: string, end: nat): nat
    requires end <= |s|
  {
    assert RC_PATTERN[1..] == [Lit('r'), Lit('c'), Digits] && RC_PATTERN[1..][1..] == [Lit('c'), Digits];
    assert RC_PATTERN[1..][1..][1..] == [Digits] && RC_PATTERN[1..][1..][1..][1..] == [];
    match Match(RC_PATTERN, s, end)
    case None => 1
    case Some((groups, _)) => IntOf(groups[0])
  }

  // ----- Round trips

  predicate IsRun(s: string, i: nat, j: nat) {
    i < j <= |s| && (forall k :: i <= k < j ==> IsDigit(s[k])) && (j == |s| || !IsDigit(s[j]))
  }

  /** A maximal run of digits is taken as one group when the rest matches after it. */
  lemma GroupTaken(rest: seq<Item>, s: string, i: nat, j: nat)
    requires IsRun(s, i, j) && Match(rest, s, j).Some?
    ensures Match([Digits] + rest, s, i) == Some(([s[i..j]] + Match(rest, s, j).value.0, Match(rest, s, j).value.1))
  {
    RunEndsThere(s, i, j);
    assert ([Digits] + rest)[1..] == rest;
  }

  lemma DotTaken(dot: Item, rest: seq<Item>, s: string, i: nat)
    requires i < |s| && s[i] != '\n' && (dot == AnyChar || dot == Lit(s[i]))
    ensures Match([dot] + rest, s, i) == Match(rest, s, i + 1)
  {
    assert ([dot] + rest)[1..] == rest;
  }

  /** Two runs of digits with something matching a dot between them. */
  lemma TwoRuns(dot: Item, s: string, i: nat, a: nat, b: nat)
    requires IsRun(s, i, a) && IsRun(s, a + 1, b) && s[a] != '\n' && (dot == AnyChar || dot == Lit(s[a]))
    ensures Match([Digits, dot, Digits], s, i) == Some(([s[i..a], s[a + 1..b]], b))
  {
    GroupTaken([], s, a + 1, b);
    assert [Digits] + [] == [Digits] && [s[a + 1..b]] + [] == [s[a + 1..b]];
    DotTaken(dot, [Digits], s, a);
    assert [dot] + [Digits] == [dot, Digits];
    GroupTaken([dot, Digits], s, i, a);
    assert [Digits] + [dot, Digits] == [Digits, dot, Digits];
    assert [s[i..a]] + [s[a + 1..b]] == [s[i..a], s[a + 1..b]];
  }

  /** Three runs of digits with something matching a dot between them. */
  lemma ThreeRuns(dot: Item, s: string, i: nat, a: nat, b: nat, c: nat)
    requires IsRun(s, i, a) && IsRun(s, a + 1, b) && IsRun(s, b + 1, c)
    requires s[a] != '\n' && s[b] != '\n' && (dot == AnyChar || (dot == Lit(s[a]) && dot == Lit(s[b])))
    ensures Match([Digits, dot, Digits, dot, Digits], s, i) == Some(([s[i..a], s[a + 1..b], s[b + 1..c]], c))
  {
    TwoRuns(dot, s, a + 1, b, c);
    DotTaken(dot, [Digits, dot, Digits], s, a);
    assert [dot] + [Digits, dot, Digits] == [dot, Digits, dot, Digits];
    GroupTaken([dot, Digits, dot, Digits], s, i, a);
    assert [Digits] + [dot, Digits, dot, Digits] == [Digits, dot, Digits, dot, Digits];
    assert [s[i..a]] + [s[a + 1..b], s[b + 1..c]] == [s[i..a], s[a + 1..b], s[b + 1..c]];
  }

  lemma {:induction false} RunEndsThere(s: string, i: nat, j: nat)
    requires i <= j <= |s|
    requires (forall k :: i <= k < j ==> IsDigit(s[k])) && (j == |s| || !IsDigit(s[j]))
    ensures RunEnd(s, i) == j
    decreases j - i
  {
    if i < j {
      RunEndsThere(s, i + 1, j);
    }
  }

  /** Wherever a rendered version stands at the start of a string and no digit follows, both
      patterns find exactly its three components. */
  lemma RenderedMatches(v: Version, rest: string, dot: Item)
    requires v.Valid() && (rest == "" || !IsDigit(rest[0])) && (dot == AnyChar || dot == Lit('.'))
    ensures Match([Digits, dot, Digits, dot, Digits], v.VersionString() + rest, 0)
         == Some(([v.build, v.branch, v.patch], |v.VersionString()|))
  {
    var s := v.VersionString() + rest;
    var build := v.build + ".";
    var branch := build + v.branch;
    var patch := branch + ".";
    assert v.VersionString() == patch + v.patch && s[..|patch + v.patch|] == patch + v.patch;
    Peel(s, patch, v.patch);
    Peel(s, branch, ".");
    Peel(s, build, v.branch);
    Peel(s, v.build, ".");
    RunAt(s, 0, v.build);
    RunAt(s, |build|, v.branch);
    RunAt(s, |patch|, v.patch);
    ThreeRuns(dot, s, 0, |v.build|, |branch|, |patch + v.patch|);
  }

  /** A string that starts with two parts. */
  lemma Peel(s: string, x: string, y: string)
    requires |x + y| <= |s| && s[..|x + y|] == x + y
    ensures s[..|x|] == x && s[|x|..|x| + |y|] == y
    ensures y != "" ==> s[|x|] == y[0]
  {
    assert (x + y)[..|x|] == x && (x + y)[|x|..] == y;
  }

  lemma RunAt(s: string, i: nat, d: string)
    requires i + |d| <= |s| && s[i..i + |d|] == d && IsNumber(d)
    requires i + |d| == |s| || !IsDigit(s[i + |d|])
    ensures IsRun(s, i, i + |d|)
  {
    forall k | i <= k < i + |d|
      ensures IsDigit(s[k])
    {
      assert s[k] == s[i..i + |d|][k - i];
    }
  }

  /** Parsing a rendered version gives back its components, whatever their size. */
  lemma VersionRoundTrip(v: Version)
    requires v.Valid()
    ensures ParseVersion(v.VersionString()) == Some(v)
  {
    RenderedMatches(v, "", AnyChar);
    assert v.VersionString() + "" == v.VersionString();
  }

  lemma RevisionFound(s: string, end: nat, n: nat)
    requires end <= |s| && s[end..] == "-rc" + StrOf(n)
    ensures Revision(s, end) == n
  {
    var digits := StrOf(n);
    assert s[end] == s[end..][0] && s[end + 1] == s[end..][1] && s[end + 2] == s[end..][2];
    assert s[end + 3..|s|] == s[end..][3..] == digits;
    RunAt(s, end + 3, digits);
    var p1 := [Digits] + [];
    var p2 := [Lit('c')] + p1;
    var p3 := [Lit('r')] + p2;
    GroupTaken([], s, end + 3, |s|);
    DotTaken(Lit('c'), p1, s, end + 2);
    DotTaken(Lit('r'), p2, s, end + 1);
    DotTaken(Lit('-'), p3, s, end);
    assert RC_PATTERN == [Lit('-')] + p3;
    IntOfStrOf(n);
  }

  lemma CandidateRoundTrip(c: Candidate)
    requires c.Valid()
    ensures ParseCandidate(c.VersionString()) == Some(c)
  {
    var plain := c.version.VersionString();
    var suffix := "-rc" + StrOf(c.revision);
    var s := c.VersionString();
    assert s == plain + suffix && s[0..|plain|] == plain && s[|plain|..] == suffix;
    RenderedMatches(c.version, suffix, Lit('.'));
    VersionRoundTrip(c.version);
    RevisionFound(s, |plain|, c.revision);
  }

  /** A plain version name counts as its first candidate. */
  lemma PlainIsFirstCandidate(v: Version)
    requires v.Valid()
    ensures ParseCandidate(v.VersionString()) == Some(Candidate(v, 1))
  {
    var s := v.VersionString();
    RenderedMatches(v, "", Lit('.'));
    assert s + "" == s && s[0..|s|] == s;
    VersionRoundTrip(v);
    assert Match(RC_PATTERN, s, |s|).None?;
  }

  /** The unescaped dots of the pattern accept more than versions. */
  lemma DotsMatchAnything()
    ensures ParseVersion("1a2b3") == Some(Version("1", "2", "3")) && ParseCandidate("1a2b3") == None
  {
    var s := "1a2b3";
    RunAt(s, 0, "1");
    RunAt(s, 2, "2");
    RunAt(s, 4, "3");
    ThreeRuns(AnyChar, s, 0, 1, 3, 5);
    NoCandidateWithoutDot(s, 0);
  }

  lemma {:induction false} NoCandidateWithoutDot(s: string, i: nat)
    requires i <= |s| && '.' !in s
    ensures Search(LKGM_PATTERN, s, i).None?
    decreases |s| - i
  {
    NoDot(s, i);
    if i < |s| {
      NoCandidateWithoutDot(s, i + 1);
    }
  }

  /** A string without a dot has no candidate name in it. */
  lemma NoDot(s: string, i: nat)
    requires i <= |s| && '.' !in s
    ensures Match(LKGM_PATTERN, s, i).None?
  {
    NoDotAfter(s, i, RunEnd(s, i));
  }

  lemma {:induction false} NoDotAfter(s: string, i: nat, j: nat)
    requires i <= j <= |s| && (forall k :: i <= k < j ==> IsDigit(s[k])) && '.' !in s
    ensures MatchDigits(LKGM_PATTERN[1..], s, i, j).None?
    decreases j
  {
    if j > i {
      NoDotAfter(s, i, j - 1);
    }
  }

  // ----- Which strings parse

  /** The items match at `i`, whatever the order in which groups of digits are tried. */
  ghost predicate Accepts(items: seq<Item>, s: string, i: nat)
    requires i <= |s|
    decreases |items|
  {
    items == [] ||
    match items[0]
    case Lit(c) => i < |s| && s[i] == c && Accepts(items[1..], s, i + 1)
    case AnyChar => i < |s| && s[i] != '\n' && Accepts(items[1..], s, i + 1)
    case Digits => exists j :: i < j <= |s| && AllDigits(s, i, j) && Accepts(items[1..], s, j)
  }

  predicate AllDigits(s: string, i: nat, j: nat)
    requires j <= |s|
  {
    forall k :: i <= k < j ==> IsDigit(s[k])
  }

  /** Backtracking finds a match whenever there is one. */
  lemma {:induction false} MatchIff(items: seq<Item>, s: string, i: nat)
    requires i <= |s|
    ensures Match(items, s, i).Some? <==> Accepts(items, s, i)
    decreases |items|, 0
  {
    if items != [] {
      match items[0]
      case Digits =>
        var end := RunEnd(s, i);
        MatchDigitsIff(items[1..], s, i, end);
        forall j | i < j <= |s| && AllDigits(s, i, j)
          ensures j <= end
        {
          RunEndIsLast(s, i, j);
        }
      case _ =>
        if i < |s| {
          MatchIff(items[1..], s, i + 1);
        }
    }
  }

  lemma {:induction false} RunEndIsLast(s: string, i: nat, j: nat)
    requires i <= j <= |s| && AllDigits(s, i, j)
    ensures j <= RunEnd(s, i)
    decreases j - i
  {
    if i < j {
      RunEndIsLast(s, i + 1, j);
    }
  }

  lemma {:induction false} MatchDigitsIff(items: seq<Item>, s: string, i: nat, j: nat)
    requires i <= j <= |s| && AllDigits(s, i, j)
    ensures MatchDigits(items, s, i, j).Some? <==> exists m :: i < m <= j && AllDigits(s, i, m) && Accepts(items, s, m)
    decreases |items|, j + 1
  {
    if i < j {
      MatchIff(items, s, j);
      MatchDigitsIff(items, s, i, j - 1);
    }
  }

  lemma {:induction false} SearchFinds(items: seq<Item>, s: string, i: nat, k: nat)
    requires i <= k <= |s| && Accepts(items, s, k)
    ensures Search(items, s, i).Some?
    decreases k - i
  {
    if i < k {
      SearchFinds(items, s, i + 1, k);
    } else {
      MatchIff(items, s, k);
    }
  }

  lemma {:induction false} SearchFound(items: seq<Item>, s: string, i: nat) returns (k: nat)
    requires i <= |s| && Search(items, s, i).Some?
    ensures i <= k <= |s| && Accepts(items, s, k)
    decreases |s| - i
  {
    MatchIff(items, s, i);
    if Match(items, s, i).Some? {
      k := i;
    } else {
      k := SearchFound(items, s, i + 1);
    }
  }

  /** Digits stand between positions `a` and `b`, and a digit right before `a` and right after `b`;
      the characters at `a` and `b` themselves are not newlines. */
  predicate VersionAt(s: string, a: nat, b: nat) {
    0 < a && a + 1 < b && b + 1 < |s| &&
    IsDigit(s[a - 1]) && s[a] != '\n' && AllDigits(s, a + 1, b) && s[b] != '\n' && IsDigit(s[b + 1])
  }

  lemma TailAccepts(s: string, b: nat)
    requires b <= |s|
    ensures Accepts([AnyChar, Digits], s, b) <==> b + 1 < |s| && s[b] != '\n' && IsDigit(s[b + 1])
  {
    assert [AnyChar, Digits][1..] == [Digits] && [Digits][1..] == [];
    if b + 1 < |s| && IsDigit(s[b + 1]) {
      assert AllDigits(s, b + 1, b + 2) && Accepts([], s, b + 2);
      assert Accepts([Digits], s, b + 1);
    }
  }

  lemma MiddleAccepts(s: string, a: nat)
    requires a <= |s|
    ensures Accepts([AnyChar, Digits, AnyChar, Digits], s, a) <==>
      a < |s| && s[a] != '\n' &&
      exists b :: a + 1 < b <= |s| && AllDigits(s, a + 1, b) && Accepts([AnyChar, Digits], s, b)
  {
    assert [AnyChar, Digits, AnyChar, Digits][1..] == [Digits, AnyChar, Digits];
    assert [Digits, AnyChar, Digits][1..] == [AnyChar, Digits];
  }

  lemma VersionIsAccepted(s: string, a: nat, b: nat)
    requires VersionAt(s, a, b)
    ensures Accepts(VER_PATTERN, s, a - 1)
  {
    TailAccepts(s, b);
    MiddleAccepts(s, a);
    assert VER_PATTERN[1..] == [AnyChar, Digits, AnyChar, Digits];
    assert AllDigits(s, a - 1, a) && Accepts(VER_PATTERN[1..], s, a);
  }

  lemma AcceptedIsVersion(s: string, k: nat) returns (a: nat, b: nat)
    requires k <= |s| && Accepts(VER_PATTERN, s, k)
    ensures VersionAt(s, a, b)
  {
    assert VER_PATTERN[1..] == [AnyChar, Digits, AnyChar, Digits];
    a :| k < a <= |s| && AllDigits(s, k, a) && Accepts(VER_PATTERN[1..], s, a);
    MiddleAccepts(s, a);
    b :| a + 1 < b <= |s| && AllDigits(s, a + 1, b) && Accepts([AnyChar, Digits], s, b);
    TailAccepts(s, b);
  }

  /** A string parses as a version exactly when it contains three groups of digits with a single
      character other than a newline between each two; a dot is not required. */
  lemma ParsesIff(s: string)
    ensures ParseVersion(s).Some? <==> exists a, b :: VersionAt(s, a, b)
  {
    if ParseVersion(s).Some? {
      var k := SearchFound(VER_PATTERN, s, 0);
      var a, b := AcceptedIsVersion(s, k);
      assert VersionAt(s, a, b);
    }
    if a: nat, b: nat :| VersionAt(s, a, b) {
      VersionIsAccepted(s, a, b);
      SearchFinds(VER_PATTERN, s, 0, a - 1);
    }
  }

  // ----- Order

  /** Python's order on lists of numbers. */
  predicate Less(a: seq<nat>, b: seq<nat>) {
    if b == [] then false
    else if a == [] then true
    else a[0] < b[0] || (a[0] == b[0] && Less(a[1..], b[1..]))
  }

  lemma {:induction false} LessIsTotal(a: seq<nat>, b: seq<nat>)
    ensures Less(a, b) || Less(b, a) || a == b
    ensures !(Less(a, b) && Less(b, a)) && !Less(a, a)
    decreases |a|
  {
    if a != [] {
      LessIsTotal(a[1..], a[1..]);
    }
    if a != [] && b != [] {
      LessIsTotal(a[1..], b[1..]);
      assert a == [a[0]] + a[1..] && b == [b[0]] + b[1..];
    }
  }

  lemma {:induction false} LessIsTransitive(a: seq<nat>, b: seq<nat>, c: seq<nat>)
    ensures Less(a, b) && Less(b, c) ==> Less(a, c)
    ensures !Less(b, a) && Less(b, c) ==> Less(a, c)
    ensures !Less(b, a) && !Less(c, b) ==> !Less(c, a)
    decreases |a|
  {
    if a != [] && b != [] && c != [] {
      LessIsTransitive(a[1..], b[1..], c[1..]);
      LessIsTotal(a[1..], b[1..]);
    }
    LessIsTotal(a, b);
    LessIsTotal(b, c);
    LessIsTotal(a, c);
  }

  /** At `k` the lists differ for the first time, `a` having the smaller number or no more numbers. */
  predicate SmallerAt(a: seq<nat>, b: seq<nat>, k: nat) {
    k <= |a| && k < |b| && a[..k] == b[..k] && (k == |a| || a[k] < b[k])
  }

  lemma {:induction false} LessAt(a: seq<nat>, b: seq<nat>) returns (k: nat)
    requires Less(a, b)
    ensures SmallerAt(a, b, k)
    decreases |a|
  {
    if a == [] || a[0] < b[0] {
      k := 0;
    } else {
      k := LessAt(a[1..], b[1..]);
      assert a[..k + 1] == [a[0]] + a[1..][..k] && b[..k + 1] == [b[0]] + b[1..][..k];
      k := k + 1;
    }
  }

  lemma {:induction false} SmallerIsLess(a: seq<nat>, b: seq<nat>, k: nat)
    requires SmallerAt(a, b, k)
    ensures Less(a, b)
    decreases k
  {
    if k > 0 {
      assert a[1..][..k - 1] == a[..k][1..] && b[1..][..k - 1] == b[..k][1..];
      assert a[..k][0] == b[..k][0];
      SmallerIsLess(a[1..], b[1..], k - 1);
    }
  }

  /** The order is lexicographic. */
  lemma LessIsLexicographic(a: seq<nat>, b: seq<nat>)
    ensures Less(a, b) <==> exists k: nat :: SmallerAt(a, b, k)
  {
    if Less(a, b) {
      var k := LessAt(a, b);
    }
    if k: nat :| SmallerAt(a, b, k) {
      SmallerIsLess(a, b, k);
    }
  }

  /** The names that versions and candidates really have. */
  lemma ExampleNames()
    ensures Version("6102", "0", "12").VersionString() == "6102.0.12"
    ensures Candidate(Version("6102", "0", "12"), 4).VersionString() == "6102.0.12-rc4"
    ensures ParseCandidate("6102.0.12-rc4") == Some(Candidate(Version("6102", "0", "12"), 4))
    ensures ParseVersion("6102.0.12-rc4") == Some(Version("6102", "0", "12"))
  {
    var v := Version("6102", "0", "12");
    assert v.VersionString() == "6102.0.12";
    assert StrOf(4) == "4";
    assert Candidate(v, 4).VersionString() == "6102.0.12-rc4";
    CandidateRoundTrip(Candidate(v, 4));
    ExampleVersion(v);
  }

  /** What follows a version does not matter for its numbers. */
  lemma ExampleVersion(v: Version)
    requires v == Version("6102", "0", "12")
    ensures ParseVersion("6102.0.12-rc4") == Some(v)
  {
    RenderedMatches(v, "-rc4", AnyChar);
    assert v.VersionString() + "-rc4" == "6102.0.12-rc4";
  }
}
