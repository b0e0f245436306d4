/** The attributes of a builder run as one process sees them: queue names, registration of boards,
    and the calls when nobody interferes. AttributeProtocol covers interleaved calls. */
module RunAttributes {
  import opened Wrappers
  import opened AttributeProtocol

  const SEPARATOR := "||"

  /** The components joined by the separator. */
  function Join(parts: seq<string>): string {
    if parts == [] then ""
    else if |parts| == 1 then parts[0]
    else parts[0] + SEPARATOR + Join(parts[1..])
  }

  predicate NoBar(s: string) {
    '|' !in s
  }

  lemma NoBarBefore(a: string, x: string, b: string, y: string)
    requires NoBar(b) && a + SEPARATOR + x == b + SEPARATOR + y
    ensures |b| <= |a|
  {
    assert (a + SEPARATOR + x)[|a|] == '|';
    assert forall i :: 0 <= i < |b| ==> (b + SEPARATOR + y)[i] == b[i];
  }

  /** The first separator after a bar-free component is where the component ends. */
  lemma FirstBar(a: string, x: string, b: string, y: string)
    requires NoBar(a) && NoBar(b) && a + SEPARATOR + x == b + SEPARATOR + y
    ensures a == b && x == y
  {
    var s, t := a + SEPARATOR + x, b + SEPARATOR + y;
    NoBarBefore(a, x, b, y);
    NoBarBefore(b, y, a, x);
    assert a == s[..|a|] && b == t[..|b|];
    assert x == s[|a| + 2..] && y == t[|b| + 2..];
  }

  /** Joined names tell all bar-free components apart. */
  lemma {:induction false} JoinIsInjective(p: seq<string>, q: seq<string>)
    requires |p| == |q| && (forall i :: 0 <= i < |p| ==> NoBar(p[i]) && NoBar(q[i]))
    ensures Join(p) == Join(q) <==> p == q
    decreases |p|
  {
    if |p| > 1 && Join(p) == Join(q) {
      FirstBar(p[0], Join(p[1..]), q[0], Join(q[1..]));
      JoinIsInjective(p[1..], q[1..]);
      assert p == [p[0]] + p[1..] && q == [q[0]] + q[1..];
    } else if |p| == 1 {
      assert p == [p[0]] && q == [q[0]];
    }
  }

  /** It does not suffice that no component contains the separator itself. */
  lemma SingleBarsCollide()
    ensures Join(["a|", "b"]) == Join(["a", "|b"]) && ["a|", "b"] != ["a", "|b"]
    ensures Join(["x", "a|", "b"]) == Join(["x", "a", "|b"])
  {
    assert ["a|", "b"][1..] == ["b"] && ["a", "|b"][1..] == ["|b"];
    assert Join(["a|", "b"]) == "a|||b" == Join(["a", "|b"]);
    assert ["x", "a|", "b"][1..] == ["a|", "b"] && ["x", "a", "|b"][1..] == ["a", "|b"];
    assert ["a|", "b"][0] != ["a", "|b"][0];
  }

  function BoardTarget(board: string, target: string): string {
    Join([board, target])
  }

  lemma BoardTargetIs(board: string, target: string)
    ensures BoardTarget(board, target) == board + SEPARATOR + target
  {
    assert [board, target][1..] == [target] && Join([target]) == target;
  }

  /** No two bars in a row and no bar at the end. */
  predicate GoodBoard(s: string) {
    forall i :: 0 <= i < |s| ==> !BadBar(s, i)
  }

  predicate BadBar(s: string, i: nat)
    requires i < |s|
  {
    s[i] == '|' && (i + 1 == |s| || s[i + 1] == '|')
  }

  lemma GoodBoardFirst(a: string, x: string, b: string, y: string)
    requires GoodBoard(b) && a + SEPARATOR + x == b + SEPARATOR + y
    ensures |b| <= |a|
  {
    var s := a + SEPARATOR + x;
    assert s[|a|] == '|' && s[|a| + 1] == '|';
    assert forall i :: 0 <= i < |b| ==> (b + SEPARATOR + y)[i] == b[i];
    assert |a| < |b| ==> BadBar(b, |a|);
  }

  /** The first separator after a good board is where the board ends, whatever follows. */
  lemma FirstSeparator(a: string, x: string, b: string, y: string)
    requires GoodBoard(a) && GoodBoard(b) && a + SEPARATOR + x == b + SEPARATOR + y
    ensures a == b && x == y
  {
    var s, t := a + SEPARATOR + x, b + SEPARATOR + y;
    GoodBoardFirst(a, x, b, y);
    GoodBoardFirst(b, y, a, x);
    assert a == s[..|a|] && b == t[..|b|];
    assert x == s[|a| + 2..] && y == t[|b| + 2..];
  }

  lemma {:induction false} FirstBadBar(s: string, k: nat) returns (i: nat)
    requires k < |s| && BadBar(s, k)
    ensures i <= k && BadBar(s, i) && GoodBoard(s[..i])
    decreases k
  {
    i := k;
    if j :| 0 <= j < k && BadBar(s, j) {
      i := FirstBadBar(s, j);
    } else {
      forall j | 0 <= j < k
        ensures !BadBar(s[..k], j)
      {
        assert !BadBar(s, j);
      }
    }
  }

  /** Any other board shares its combined name with a good board and a suitable target. */
  lemma BadBoardCollides(board: string, target: string) returns (b: string, t: string)
    requires !GoodBoard(board)
    ensures GoodBoard(b) && b != board && BoardTarget(b, t) == BoardTarget(board, target)
  {
    var k :| 0 <= k < |board| && BadBar(board, k);
    var i := FirstBadBar(board, k);
    b := board[..i];
    t := if i + 1 == |board| then "|" + target else board[i + 2..] + SEPARATOR + target;
    if i + 1 == |board| {
      assert board == b + "|";
    } else {
      assert board == b + SEPARATOR + board[i + 2..];
    }
    assert b + SEPARATOR + t == board + SEPARATOR + target;
    BoardTargetIs(b, t);
    BoardTargetIs(board, target);
  }

  /** The names of a board, with all its targets, are told apart from those of every good board
      exactly when the board itself is good. */
  lemma DecodableIff(board: string)
    ensures GoodBoard(board) <==>
      forall target, b, t ::
        GoodBoard(b) && BoardTarget(b, t) == BoardTarget(board, target) ==> b == board && t == target
  {
    if GoodBoard(board) {
      forall target, b, t | GoodBoard(b) && BoardTarget(b, t) == BoardTarget(board, target)
        ensures b == board && t == target
      {
        BoardTargetIs(b, t);
        BoardTargetIs(board, target);
        FirstSeparator(b, t, board, target);
      }
    } else {
      var b, t := BadBoardCollides(board, "");
    }
  }

  function UniqueName(attr: string, boardTarget: string): string {
    attr + SEPARATOR + boardTarget
  }

  lemma UniqueNameIsJoin(attr: string, board: string, target: string)
    ensures UniqueName(attr, BoardTarget(board, target)) == Join([attr, board, target])
  {
    assert [attr, board, target][1..] == [board, target];
  }

  datatype AttrError = UnknownAttribute | NotPickleable | NotSet | TimedOut | UnknownBoard

  class Attributes {
    const boardAttrs: set<string>
    const plainAttrs: set<string>
    var boardTargets: set<string>
    var queues: map<string, seq<Value>>
    ghost var lastSet: map<string, Value>

    /** There is one queue for every plain attribute and for every board attribute of every
        registered board and target; it holds the value that was set last, if there is one. */
    ghost predicate Valid()
      reads this
    {
      && (forall a :: a in boardAttrs + plainAttrs ==> NoBar(a))
      && queues.Keys == plainAttrs + BoardQueues(boardAttrs, boardTargets)
      && lastSet.Keys <= queues.Keys
      && (forall a :: a in queues ==> queues[a] == if a in lastSet then [lastSet[a]] else [])
    }

    constructor (boardAttrs: set<string>, plainAttrs: set<string>)
      requires forall a :: a in boardAttrs + plainAttrs ==> NoBar(a)
      ensures Valid() && this.boardAttrs == boardAttrs && this.plainAttrs == plainAttrs
      ensures boardTargets == {} && lastSet == map[] && forall a :: a in queues ==> queues[a] == []
    {
      this.boardAttrs, this.plainAttrs := boardAttrs, plainAttrs;
      boardTargets := {};
      queues := map a | a in plainAttrs :: [];
      lastSet := map[];
    }

    /** Registering adds empty queues for a new combination and never touches an existing one,
        however often it is repeated. */
    method RegisterBoardAttrs(board: string, target: string)
      requires Valid()
      modifies this
      ensures Valid()
      ensures boardTargets == old(boardTargets) + {BoardTarget(board, target)} && lastSet == old(lastSet)
      ensures forall a :: a in old(queues) ==> a in queues && queues[a] == old(queues)[a]
      ensures forall a :: a in queues && a !in old(queues) ==> queues[a] == []
      ensures BoardTarget(board, target) in old(boardTargets) ==> queues == old(queues)
    {
      var boardTarget := BoardTarget(board, target);
      if boardTarget in boardTargets {
        assert boardTargets == boardTargets + {boardTarget};
        return;
      }
      ghost var targets0 := boardTargets;
      boardTargets := boardTargets + {boardTarget};
      var todo := boardAttrs;
      while todo != {}
        invariant todo <= boardAttrs && boardTargets == targets0 + {boardTarget} && lastSet == old(lastSet)
        invariant forall a :: a in queues <==> a in old(queues) || IsNew(boardAttrs, todo, boardTarget, a)
        invariant forall a :: a in old(queues) ==> a in queues && queues[a] == old(queues)[a]
        invariant forall a :: a in queues && a !in old(queues) ==> queues[a] == []
        decreases todo
      {
        var attr :| attr in todo;
        NewNameIsFresh(plainAttrs, boardAttrs, targets0, attr, boardTarget);
        todo := todo - {attr};
        queues := queues[UniqueName(attr, boardTarget) := []];
      }
      QueuesGrow(boardAttrs, targets0, boardTarget);
      assert queues.Keys == plainAttrs + BoardQueues(boardAttrs, boardTargets);
    }

    predicate Known(attr: string)
      reads this
    {
      attr in queues
    }

    method SetParallel(attr: string, value: Value, pickleable: bool) returns (r: Result<(), AttrError>)
      requires Valid()
      modifies this`queues, this`lastSet
      ensures Valid() && lastSet == if r.Ok? then old(lastSet)[attr := value] else old(lastSet)
      ensures r == if !pickleable then Err(NotPickleable)
                   else if attr !in old(queues) then Err(UnknownAttribute) else Ok(())
      ensures queues == if r.Ok? then old(queues)[attr := [value]] else old(queues)
    {
      if !pickleable {
        return Err(NotPickleable);
      }
      if attr !in queues {
        return Err(UnknownAttribute);
      }
      var queue := queues[attr];
      while queue != []
        decreases |queue|
      {
        queue := queue[1..];
      }
      assert queue + [value] == [value];
      queues := queues[attr := queue + [value]];
      lastSet := lastSet[attr := value];
      r := Ok(());
    }

    /** Whether the attribute was ever set: once set, it stays set. */
    method HasParallel(attr: string) returns (found: bool)
      requires Valid()
      ensures found <==> attr in lastSet
      ensures found <==> attr in queues && queues[attr] != []
    {
      found := if attr in queues then queues[attr] != [] else false;
    }

    /** Takes everything off the queue; the value taken last replaces the one that was held. */
    method Drain(queue0: seq<Value>, held: Option<Value>) returns (got: Option<Value>)
      ensures got == if queue0 == [] then held else Some(queue0[|queue0| - 1])
    {
      var queue := queue0;
      got := held;
      while queue != []
        invariant |queue| <= |queue0| && queue == queue0[|queue0| - |queue|..]
        invariant got == if queue == queue0 then held else Some(queue0[|queue0| - |queue| - 1])
        decreases |queue|
      {
        got, queue := Some(queue[0]), queue[1..];
      }
    }

    /** Returns the newest queued value and leaves just that value behind. Waiting forever for a
        value that nobody sets does not return. */
    method GetParallel(attr: string, timeout: Timeout) returns (r: Result<Value, AttrError>)
      requires Valid() && (timeout.Forever? && attr in queues ==> attr in lastSet)
      modifies this`queues
      ensures Valid() && (attr in lastSet ==> r == Ok(lastSet[attr]))
      ensures attr !in old(queues) ==> r == Err(UnknownAttribute)
      ensures attr in old(queues) && old(queues)[attr] == [] ==>
        r == Err(if timeout == NoWait || timeout == UpTo(0) then NotSet else TimedOut)
      ensures attr in old(queues) && old(queues)[attr] != [] ==>
        r == Ok(old(queues)[attr][|old(queues)[attr]| - 1]) && queues == old(queues)[attr := [r.value]]
      ensures r.Err? ==> queues == old(queues)
    {
      if attr !in queues {
        return Err(UnknownAttribute);
      }
      var queue := queues[attr];
      var got: Option<Value> := None;
      if queue != [] {
        got, queue := Some(queue[0]), queue[1..];
      }
      got := Drain(queue, got);
      if got.Some? {
        queues := queues[attr := [got.value]];
        r := Ok(got.value);
      } else {
        r := Err(if timeout == NoWait || timeout == UpTo(0) then NotSet else TimedOut);
      }
    }

    /** Setting a board attribute changes no attribute of any other good board, or other target. */
    method SetBoardParallel(attr: string, value: Value, board: string, target: string, pickleable: bool)
      returns (r: Result<(), AttrError>)
      requires Valid() && attr in boardAttrs
      modifies this`queues, this`lastSet
      ensures Valid()
      ensures r == if BoardTarget(board, target) !in boardTargets then Err(UnknownBoard)
                   else if !pickleable then Err(NotPickleable) else Ok(())
      ensures r.Err? ==> queues == old(queues)
      ensures r.Ok? ==> Name(attr, board, target) in queues && queues[Name(attr, board, target)] == [value]
      ensures r.Ok? ==> lastSet == old(lastSet)[Name(attr, board, target) := value]
      ensures forall b, t, a ::
                GoodBoard(board) && GoodBoard(b) && a in boardAttrs &&
                (a, b, t) != (attr, board, target) && Name(a, b, t) in old(queues) ==>
                Name(a, b, t) in queues && queues[Name(a, b, t)] == old(queues)[Name(a, b, t)]
    {
      if BoardTarget(board, target) !in boardTargets {
        return Err(UnknownBoard);
      }
      r := SetParallel(Name(attr, board, target), value, pickleable);
      forall b, t, a | GoodBoard(board) && GoodBoard(b) && a in boardAttrs
        && (a, b, t) != (attr, board, target)
        ensures Name(a, b, t) != Name(attr, board, target)
      {
        NamesDiffer(a, b, t, attr, board, target);
      }
    }
  }

  function Name(attr: string, board: string, target: string): string {
    UniqueName(attr, BoardTarget(board, target))
  }

  lemma NamesDiffer(a: string, b: string, t: string, attr: string, board: string, target: string)
    requires NoBar(a) && NoBar(attr) && GoodBoard(b) && GoodBoard(board)
    ensures Name(a, b, t) == Name(attr, board, target) <==> (a, b, t) == (attr, board, target)
  {
    if Name(a, b, t) == Name(attr, board, target) {
      FirstBar(a, BoardTarget(b, t), attr, BoardTarget(board, target));
      BoardTargetIs(b, t);
      BoardTargetIs(board, target);
      FirstSeparator(b, t, board, target);
    }
  }

  function BoardQueues(boardAttrs: set<string>, boardTargets: set<string>): set<string> {
    set a, bt | a in boardAttrs && bt in boardTargets :: UniqueName(a, bt)
  }

  /** `name` belongs to `boardTarget` and an attribute that is not waiting in `todo`. */
  predicate IsNew(boardAttrs: set<string>, todo: set<string>, boardTarget: string, name: string) {
    exists a :: a in boardAttrs && a !in todo && name == UniqueName(a, boardTarget)
  }

  /** The queue of a new board and target does not exist yet, whatever their names contain. */
  lemma NewNameIsFresh(
    plainAttrs: set<string>, boardAttrs: set<string>, targets: set<string>, attr: string, boardTarget: string)
    requires forall a :: a in boardAttrs + plainAttrs ==> NoBar(a)
    requires attr in boardAttrs && boardTarget !in targets
    ensures UniqueName(attr, boardTarget) !in plainAttrs + BoardQueues(boardAttrs, targets)
  {
    var name := UniqueName(attr, boardTarget);
    assert name[|attr|] == '|' && !NoBar(name);
    forall a, bt | a in boardAttrs && bt in targets
      ensures UniqueName(a, bt) != name
    {
      if UniqueName(a, bt) == name {
        FirstBar(a, bt, attr, boardTarget);
      }
    }
  }

  lemma QueuesGrow(boardAttrs: set<string>, targets: set<string>, boardTarget: string)
    ensures forall name ::
              name in BoardQueues(boardAttrs, targets + {boardTarget}) <==>
              name in BoardQueues(boardAttrs, targets) || IsNew(boardAttrs, {}, boardTarget, name)
  {
  }
}
