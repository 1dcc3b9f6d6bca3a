/**
  The file explorer's position: a stack of parent directories, the current directory, and the
  text of the path bar.  The three are updated separately; `Agrees` says that they describe one
  and the same trail of directories entered.
*/
module Explorer {
  import opened CString

  const MAX_DEPTH := 8
  const BAR := 256
  const NAME_LIMIT := 254
  const ROOT := 0

  /** The parents on the stack, the current directory, the path shown. */
  datatype Nav = Nav(stack: seq<int>, cur: int, path: seq<char>)

  const HOME := Nav([], ROOT, "/")

  // ---- the steps ----------------------------------------------------------------------

  function Separated(path: seq<char>): seq<char> { if |path| > 1 then path + "/" else path }

  /** The path bar after entering `name`: characters beyond the limit are dropped. */
  function Extended(path: seq<char>, name: seq<char>): seq<char> {
    var base := Separated(path);
    base + if |base| + |name| <= NAME_LIMIT then name
           else if |base| < NAME_LIMIT then name[..NAME_LIMIT - |base|] else []
  }

  /** The highest position in 1..i holding a slash, 0 when there is none. */
  function LastSlash(path: seq<char>, i: nat): (k: nat)
    requires i < |path|
    ensures k <= i && (k > 0 ==> path[k] == '/') && forall j :: k < j <= i ==> path[j] != '/'
  {
    if i == 0 || path[i] == '/' then i else LastSlash(path, i - 1)
  }

  function Trimmed(path: seq<char>): seq<char> {
    if path == [] then "/" else
    var k := LastSlash(path, |path| - 1);
    if k == 0 then "/" else path[..k]
  }

  function Into(n: Nav, node: int, name: seq<char>): Nav {
    Nav(if |n.stack| < MAX_DEPTH then n.stack + [n.cur] else n.stack, node, Extended(n.path, name))
  }

  function Back(n: Nav): Nav {
    if n.stack == [] then n
    else Nav(n.stack[..|n.stack| - 1], n.stack[|n.stack| - 1], Trimmed(n.path))
  }

  function FullPath(path: seq<char>, name: seq<char>): seq<char> {
    (if |path| > 1 && path[|path| - 1] != '/' then path + "/" else path) + name
  }

  // ---- the trail it stands for --------------------------------------------------------

  datatype Entry = Entry(node: int, name: seq<char>)

  predicate Named(e: Entry) { e.name != [] && '/' !in e.name && '\0' !in e.name }

  predicate AllNamed(t: seq<Entry>) { forall k :: 0 <= k < |t| ==> Named(t[k]) }

  function Init<A>(s: seq<A>): seq<A>
    requires s != []
  { s[..|s| - 1] }

  function Last<A>(s: seq<A>): A
    requires s != []
  { s[|s| - 1] }

  function Joined(t: seq<Entry>): seq<char> { if t == [] then [] else Joined(Init(t)) + "/" + Last(t).name }

  /** The names entered, each after a slash; the root alone is a slash. */
  function PathOf(t: seq<Entry>): seq<char> { if t == [] then "/" else Joined(t) }

  function Here(t: seq<Entry>): int { if t == [] then ROOT else Last(t).node }

  /** Where each directory of the trail was entered from, outermost first. */
  function Parents(t: seq<Entry>): seq<int> { if t == [] then [] else Parents(Init(t)) + [Here(Init(t))] }

  predicate Agrees(n: Nav, t: seq<Entry>) { n == Nav(Parents(t), Here(t), PathOf(t)) }

  predicate Fits(t: seq<Entry>) { |t| <= MAX_DEPTH && |PathOf(t)| <= NAME_LIMIT }

  lemma {:induction false} ParentsLength(t: seq<Entry>)
    ensures |Parents(t)| == |t|
  {
    if t != [] { ParentsLength(Init(t)); }
  }

  lemma JoinedStep(t: seq<Entry>, e: Entry)
    ensures Init(t + [e]) == t && Last(t + [e]) == e
    ensures Joined(t + [e]) == Joined(t) + "/" + e.name && Parents(t + [e]) == Parents(t) + [Here(t)]
  {
    assert Init(t + [e]) == t;
  }

  lemma JoinedShape(t: seq<Entry>)
    requires AllNamed(t) && t != []
    ensures |Joined(t)| >= 2 && Joined(t)[|Joined(t)| - 1] != '/'
  {
    var e := Last(t);
    assert Named(e);
    assert Joined(t)[|Joined(t)| - 1] == Last(e.name);
  }

  lemma PathStep(t: seq<Entry>, e: Entry)
    requires AllNamed(t)
    ensures PathOf(t + [e]) == Separated(PathOf(t)) + e.name
  {
    JoinedStep(t, e);
    if t == [] { assert Joined([e]) == "/" + e.name by { assert [] + [e] == [e]; } }
    else { JoinedShape(t); }
  }

  /** Entering a directory keeps stack, position and path bar in step exactly when the longer
      trail fits. */
  lemma IntoAgrees(n: Nav, t: seq<Entry>, e: Entry)
    requires Agrees(n, t) && AllNamed(t) && Fits(t) && Named(e)
    ensures Agrees(Into(n, e.node, e.name), t + [e]) <==> Fits(t + [e])
  {
    JoinedStep(t, e);
    PathStep(t, e);
    ParentsLength(t);
    ParentsLength(t + [e]);
  }

  lemma {:induction false} SlashAt(path: seq<char>, i: nat, k: nat)
    requires k <= i < |path| && (k > 0 ==> path[k] == '/') && forall j :: k < j <= i ==> path[j] != '/'
    ensures LastSlash(path, i) == k
    decreases i
  {
    if i > k { SlashAt(path, i - 1, k); }
  }

  /** Trimming removes exactly the last name. */
  lemma TrimmedExtended(path: seq<char>, name: seq<char>)
    requires (path == "/" || |path| > 1) && '/' !in name
    ensures Trimmed(Separated(path) + name) == path
  {
    var p, k := Separated(path) + name, if |path| > 1 then |path| else 0;
    assert forall j :: k < j < |p| ==> p[j] == name[j - |Separated(path)|];
    SlashAt(p, |p| - 1, k);
    if |path| > 1 { assert p[..k] == path; }
  }

  /** Going back keeps them in step too, and shortens the trail by its last entry. */
  lemma BackAgrees(n: Nav, t: seq<Entry>)
    requires Agrees(n, t) && AllNamed(t) && Fits(t)
    ensures Agrees(Back(n), if t == [] then [] else Init(t)) && (t != [] ==> Fits(Init(t)))
  {
    if t != [] {
      ParentsLength(t);
      assert t == Init(t) + [Last(t)] && Named(Last(t));
      PathStep(Init(t), Last(t));
      if Init(t) != [] { JoinedShape(Init(t)); }
      TrimmedExtended(PathOf(Init(t)), Last(t).name);
    }
  }

  // ---- runs ---------------------------------------------------------------------------

  datatype Op = IntoOp(e: Entry) | BackOp

  function Apply(n: Nav, op: Op): Nav { if op.BackOp? then Back(n) else Into(n, op.e.node, op.e.name) }

  function Walk(t: seq<Entry>, op: Op): seq<Entry> {
    if op.IntoOp? then t + [op.e] else if t == [] then [] else Init(t)
  }

  function Run(n: Nav, ops: seq<Op>): Nav
    decreases |ops|
  { if ops == [] then n else Run(Apply(n, ops[0]), ops[1..]) }

  function WalkAll(t: seq<Entry>, ops: seq<Op>): seq<Entry>
    decreases |ops|
  { if ops == [] then t else WalkAll(Walk(t, ops[0]), ops[1..]) }

  /** The names are file names and the trail never outgrows the stack or the path bar. */
  predicate Within(t: seq<Entry>, ops: seq<Op>)
    decreases |ops|
  {
    AllNamed(t) && Fits(t)
    && (ops != [] ==> (ops[0].IntoOp? ==> Named(ops[0].e)) && Within(Walk(t, ops[0]), ops[1..]))
  }

  /** After any such run the path bar is the join of the names entered and not left again, and
      the stack holds the matching parents. */
  lemma {:induction false} RunAgrees(n: Nav, t: seq<Entry>, ops: seq<Op>)
    requires Agrees(n, t) && Within(t, ops)
    ensures Agrees(Run(n, ops), WalkAll(t, ops))
    decreases |ops|
  {
    if ops != [] {
      if ops[0].IntoOp? { IntoAgrees(n, t, ops[0].e); } else { BackAgrees(n, t); }
      RunAgrees(Apply(n, ops[0]), Walk(t, ops[0]), ops[1..]);
    }
  }

  /** In particular from the root directory, where the explorer opens. */
  lemma RunFromHome(ops: seq<Op>)
    requires Within([], ops)
    ensures Agrees(Run(HOME, ops), WalkAll([], ops))
  {
    RunAgrees(HOME, [], ops);
  }

  predicate NamedOp(op: Op) { op.IntoOp? ==> Named(op.e) }

  predicate AgreesAfter(n: Nav, t: seq<Entry>, ops: seq<Op>, k: nat)
    requires k <= |ops|
  { Agrees(Run(n, ops[..k]), WalkAll(t, ops[..k])) }

  lemma AgreesShift(n: Nav, t: seq<Entry>, ops: seq<Op>, k: nat)
    requires 0 < k <= |ops|
    ensures AgreesAfter(n, t, ops, k) <==> AgreesAfter(Apply(n, ops[0]), Walk(t, ops[0]), ops[1..], k - 1)
  {
    assert ops[..k][1..] == ops[1..][..k - 1] && ops[..k][0] == ops[0];
  }

  lemma WalkNamed(t: seq<Entry>, op: Op)
    requires AllNamed(t) && NamedOp(op)
    ensures AllNamed(Walk(t, op))
  {
  }

  /** The first step already disagrees exactly when its trail does not fit. */
  lemma StepAgrees(n: Nav, t: seq<Entry>, op: Op)
    requires Agrees(n, t) && AllNamed(t) && Fits(t) && NamedOp(op)
    ensures Agrees(Apply(n, op), Walk(t, op)) <==> Fits(Walk(t, op))
  {
    if op.IntoOp? { IntoAgrees(n, t, op.e); } else { BackAgrees(n, t); }
  }

  /** The bounds are exact: over a run with proper file names, bar and stack agree with the trail
      after every step precisely when the trail fits throughout. */
  lemma {:induction false} AgreesThroughout(n: Nav, t: seq<Entry>, ops: seq<Op>)
    requires Agrees(n, t) && AllNamed(t) && Fits(t) && forall k :: 0 <= k < |ops| ==> NamedOp(ops[k])
    ensures (forall k :: 0 <= k <= |ops| ==> AgreesAfter(n, t, ops, k)) <==> Within(t, ops)
    decreases |ops|
  {
    if ops == [] {
      assert ops[..0] == [];
    } else {
      var m, u, rest := Apply(n, ops[0]), Walk(t, ops[0]), ops[1..];
      StepAgrees(n, t, ops[0]);
      WalkNamed(t, ops[0]);
      forall k | 0 < k <= |ops| ensures AgreesAfter(n, t, ops, k) <==> AgreesAfter(m, u, rest, k - 1) {
        AgreesShift(n, t, ops, k);
      }
      assert ops[..0] == [] && AgreesAfter(n, t, ops, 0);
      if Fits(u) {
        assert forall k :: 0 <= k < |rest| ==> NamedOp(ops[k + 1]) && rest[k] == ops[k + 1];
        AgreesThroughout(m, u, rest);
        assert forall j :: 0 <= j <= |rest| ==> (AgreesAfter(m, u, rest, j) <==> AgreesAfter(n, t, ops, j + 1));
      } else {
        assert rest[..0] == [] && !AgreesAfter(m, u, rest, 0);
        assert !AgreesAfter(n, t, ops, 1);
      }
    }
  }

  /** Back undoes into exactly when the stack had room, or happened to hold the right parent on
      top; a path bar too short for the name does not matter. */
  lemma BackUndoesInto(n: Nav, node: int, name: seq<char>)
    requires |n.stack| <= MAX_DEPTH && (n.path == "/" || 1 < |n.path| <= NAME_LIMIT) && '/' !in name
    ensures Back(Into(n, node, name)) == n.(stack := Back(Into(n, node, name)).stack)
            <==> |n.stack| < MAX_DEPTH || Last(n.stack) == n.cur
    ensures Back(Into(n, node, name)) == n <==> |n.stack| < MAX_DEPTH
  {
    var base := Separated(n.path);
    var shown := Extended(n.path, name)[|base|..];
    assert Extended(n.path, name) == base + shown;
    assert forall c :: c in shown ==> c in name;
    TrimmedExtended(n.path, shown);
    if |n.stack| < MAX_DEPTH {
      assert Init(n.stack + [n.cur]) == n.stack;
    }
  }

  /** The full path of an item is the path the bar would show after entering it. */
  lemma FullPathShown(n: Nav, t: seq<Entry>, e: Entry)
    requires Agrees(n, t) && AllNamed(t) && Fits(t) && Named(e)
    ensures FullPath(n.path, e.name) == PathOf(t + [e])
    ensures FullPath(n.path, e.name) == Into(n, e.node, e.name).path <==> |PathOf(t + [e])| <= NAME_LIMIT
  {
    PathStep(t, e);
    if t != [] { JoinedShape(t); }
  }

  // ---- out of bounds ------------------------------------------------------------------

  const D := Entry(1, "d")

  function Deep(n: nat): seq<Op> { if n == 0 then [] else [IntoOp(D)] + Deep(n - 1) }

  function Chain(n: nat): (t: seq<Entry>)
    ensures |t| == n && AllNamed(t)
  { if n == 0 then [] else Chain(n - 1) + [D] }

  lemma {:induction false} ChainPath(n: nat)
    ensures |Joined(Chain(n))| == 2 * n
  {
    if n > 0 {
      ChainPath(n - 1);
      JoinedStep(Chain(n - 1), D);
    }
  }

  lemma ChainFits(k: nat)
    requires k <= MAX_DEPTH
    ensures Fits(Chain(k))
  {
    ChainPath(k);
  }

  lemma DeepFirst(k: nat, n: nat)
    requires n > 0
    ensures Deep(n) != [] && Deep(n)[0] == IntoOp(D) && Deep(n)[1..] == Deep(n - 1)
    ensures Walk(Chain(k), IntoOp(D)) == Chain(k + 1)
  {
  }

  lemma {:induction false} DeepWithin(k: nat, n: nat)
    requires k + n <= MAX_DEPTH
    ensures Within(Chain(k), Deep(n))
    decreases n
  {
    ChainFits(k);
    if n > 0 {
      DeepFirst(k, n);
      DeepWithin(k + 1, n - 1);
    }
  }

  lemma {:induction false} DeepWalk(k: nat, n: nat)
    ensures WalkAll(Chain(k), Deep(n)) == Chain(k + n)
    decreases n
  {
    if n > 0 {
      DeepFirst(k, n);
      DeepWalk(k + 1, n - 1);
    }
  }

  /** Nine directories deep the stack no longer matches the path, and back does not undo into. */
  lemma NinthLevel()
    ensures var n := Run(HOME, Deep(8)); var m := Into(n, D.node, D.name);
      Agrees(n, Chain(8)) && !Agrees(m, Chain(9)) && Back(m) != n
  {
    DeepWithin(0, 8);
    DeepWalk(0, 8);
    RunFromHome(Deep(8));
    var n := Run(HOME, Deep(8));
    ChainPath(8);
    ParentsLength(Chain(8));
    IntoAgrees(n, Chain(8), D);
    JoinedShape(Chain(8));
    BackUndoesInto(n, D.node, D.name);
  }

  /** A path within the limit outgrows it by the separating slash exactly when it has 254
      characters; with 255 there is no room left for the next slash and the NUL. */
  lemma OverlongExactly(path: seq<char>, name: seq<char>)
    requires 0 < |path| <= NAME_LIMIT
    ensures |Extended(path, name)| <= NAME_LIMIT + 1
    ensures |Extended(path, name)| == NAME_LIMIT + 1 <==> |path| == NAME_LIMIT
  {
  }

  /** Two levels are enough to get there. */
  lemma OverlongReachable()
    ensures var n := Into(HOME, 1, seq(253, _ => 'a')); |Into(n, 2, "b").path| == NAME_LIMIT + 1
  {
    var n := Into(HOME, 1, seq(253, _ => 'a'));
    assert |n.path| == NAME_LIMIT;
    OverlongExactly(n.path, "b");
  }

  // ---- the code -----------------------------------------------------------------------

  class Window {
    const parentStack: array<int>
    var stackDepth: nat
    var currentParent: int
    const pathBar: array<char>
    ghost var path: seq<char>

    ghost predicate Valid()
      reads this, parentStack, pathBar
    {
      parentStack.Length == MAX_DEPTH && stackDepth <= MAX_DEPTH
      && pathBar.Length == BAR && Holds(pathBar, path) && path != []
    }

    ghost function View(): Nav
      requires Valid()
      reads this, parentStack, pathBar
    { Nav(parentStack[..stackDepth], currentParent, path) }

    constructor ()
      ensures Valid() && View() == HOME && fresh(parentStack) && fresh(pathBar)
    {
      parentStack := new int[MAX_DEPTH];
      stackDepth, currentParent, path := 0, ROOT, "/";
      pathBar := new char[BAR](i => if i == 0 then '/' else '\0');
    }

    /** The path bar part of navigate_into; one more slash and the NUL must fit. */
    method ExtendBar(name: seq<char>)
      requires Valid() && |path| <= NAME_LIMIT && '\0' !in name
      modifies this`path, pathBar
      ensures Valid() && path == Extended(old(path), name)
    {
      var plen := StrLen(pathBar, path);
      ghost var base := Separated(path);
      if plen > 1 {
        pathBar[plen] := '/';
        plen := plen + 1;
      }
      assert pathBar[..plen] == base;
      var i := CopyName(pathBar, plen, name);
      ExtendedIs(path, name, i);
      path := base + name[..i];
    }

    /** navigate_into.  With a path of 255 characters the C code writes its slash over the NUL
        and the NUL past the buffer; the model stops there and reports it. */
    method NavigateInto(node: int, name: seq<char>) returns (inside: bool)
      requires Valid() && '\0' !in name
      modifies this, parentStack, pathBar
      ensures Valid() && (inside <==> |old(path)| <= NAME_LIMIT)
      ensures inside ==> View() == Into(old(View()), node, name)
      ensures !inside ==> View() == Into(old(View()), node, name).(path := old(path))
    {
      if stackDepth < MAX_DEPTH {
        parentStack[stackDepth] := currentParent;
        stackDepth := stackDepth + 1;
      }
      assert parentStack[..stackDepth] == Into(old(View()), node, name).stack;
      currentParent := node;
      var plen := StrLen(pathBar, path);
      inside := plen <= NAME_LIMIT;
      if inside { ExtendBar(name); }
    }

    /** The path bar part of navigate_back. */
    method TrimBar()
      requires Valid()
      modifies this`path, pathBar
      ensures Valid() && path == Trimmed(old(path))
    {
      var plen := StrLen(pathBar, path);
      var i := plen - 1;
      while i > 0 && pathBar[i] != '/'
        invariant 0 <= i < plen == |path| && LastSlash(path, i) == LastSlash(path, plen - 1)
        invariant Holds(pathBar, path)
      {
        assert pathBar[i] == path[i];
        i := i - 1;
      }
      assert pathBar[i] == path[i];
      if i == 0 {
        pathBar[0] := '/';
        pathBar[1] := '\0';
        assert pathBar[..1] == "/";
        path := "/";
      } else {
        pathBar[i] := '\0';
        assert pathBar[..i] == path[..i];
        path := path[..i];
      }
    }

    method NavigateBack()
      requires Valid()
      modifies this, parentStack, pathBar
      ensures Valid() && View() == Back(old(View()))
    {
      if stackDepth <= 0 { return; }
      stackDepth := stackDepth - 1;
      currentParent := parentStack[stackDepth];
      assert parentStack[..stackDepth] == Init(old(View()).stack);
      TrimBar();
    }

    /** The path bar and, unless it ends in one, a slash. */
    method CopyBase(out: array<char>) returns (plen: nat)
      requires Valid() && out != pathBar && |FullPath(path, [])| < out.Length
      modifies out
      ensures Valid() && plen < out.Length && out[..plen] == FullPath(path, [])
    {
      plen := StrLen(pathBar, path);
      CopyText(out, 0, pathBar[..plen]);
      assert pathBar[plen - 1] == path[plen - 1];
      assert out[..plen] == path;
      if plen > 1 && pathBar[plen - 1] != '/' {
        out[plen] := '/';
        plen := plen + 1;
        out[plen] := '\0';
      }
    }

    /** build_full_path, into a buffer of the caller's that is long enough. */
    method BuildFullPath(out: array<char>, name: seq<char>)
      requires Valid() && out != pathBar && |FullPath(path, name)| < out.Length && '\0' !in name
      modifies out
      ensures Valid() && Holds(out, FullPath(path, name))
    {
      assert FullPath(path, name) == FullPath(path, []) + name;
      var plen := CopyBase(out);
      CopyText(out, plen, name);
      Appended(out[..], FullPath(path, []), name);
      assert out[..plen + |name|] == out[..][..plen + |name|];
    }
  }

  lemma Appended(o: seq<char>, base: seq<char>, name: seq<char>)
    requires |base| + |name| <= |o| && o[..|base|] == base && o[|base|..|base| + |name|] == name
    ensures o[..|base| + |name|] == base + name
  {
  }

  lemma ExtendedIs(path: seq<char>, name: seq<char>, i: nat)
    requires i <= |name| && (i == |name| || |Separated(path)| + i >= NAME_LIMIT)
    requires i > 0 ==> |Separated(path)| + i <= NAME_LIMIT
    requires |Separated(path)| <= NAME_LIMIT + 1
    ensures Separated(path) + name[..i] == Extended(path, name)
  {
    assert i == |name| ==> name[..i] == name;
  }

  /** The copying loop: as much of the name as stays below the limit. */
  method CopyName(bar: array<char>, at: nat, name: seq<char>) returns (i: nat)
    requires bar.Length == BAR && at <= NAME_LIMIT + 1
    modifies bar
    ensures i <= |name| && (i == |name| || at + i >= NAME_LIMIT) && (i > 0 ==> at + i <= NAME_LIMIT)
    ensures bar[..at + i] == old(bar[..at]) + name[..i] && bar[at + i] == '\0'
  {
    i := 0;
    while i < |name| && at + i < NAME_LIMIT
      invariant 0 <= i <= |name| && (i > 0 ==> at + i <= NAME_LIMIT)
      invariant bar[..at + i] == old(bar[..at]) + name[..i]
    {
      bar[at + i] := name[i];
      assert name[..i + 1] == name[..i] + [name[i]];
      i := i + 1;
    }
    bar[at + i] := '\0';
  }

  /** my_strcpy to `out + at`. */
  method CopyText(out: array<char>, at: nat, s: seq<char>)
    requires at + |s| < out.Length
    modifies out
    ensures out[at..at + |s|] == s && out[at + |s|] == '\0' && out[..at] == old(out[..at])
  {
    var i := 0;
    while i < |s|
      invariant 0 <= i <= |s| && out[at..at + i] == s[..i] && out[..at] == old(out[..at])
    {
      out[at + i] := s[i];
      assert out[at..at + i + 1] == s[..i] + [s[i]];
      i := i + 1;
    }
    out[at + i] := '\0';
  }
}
