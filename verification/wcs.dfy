/** What the worst case stack of a function is, whatever WCS.py does to find it. */
module CallGraphSpec {

  /** A function of the program: global, or local to a translation unit. */
  datatype Id = Global(name: string) | Local(name: string, unit: string)

  /** A function with its calls resolved: the functions it calls and the names that were not found. */
  datatype Fxn = Fxn(local_stack: nat, has_ptr_call: bool, r_calls: seq<Id>, unresolved: set<string>)

  type Graph = map<Id, Fxn>

  predicate Closed(g: Graph) {
    forall f, c :: f in g && c in g[f].r_calls ==> c in g
  }

  predicate Calls(g: Graph, f: Id, c: Id) {
    f in g && c in g && c in g[f].r_calls
  }

  // ----- call chains -----

  predicate Link(g: Graph, p: seq<Id>, i: nat) {
    i + 1 < |p| && Calls(g, p[i], p[i + 1])
  }

  ghost predicate Chain(g: Graph, p: seq<Id>) {
    p != [] && (forall f :: f in p ==> f in g) && forall i: nat :: i + 1 < |p| ==> Link(g, p, i)
  }

  ghost predicate ChainFrom(g: Graph, f: Id, p: seq<Id>) {
    Chain(g, p) && p[0] == f
  }

  /** The stack in use at the end of a call chain. */
  function Stack(g: Graph, p: seq<Id>): nat
    requires forall f :: f in p ==> f in g
  {
    if p == [] then 0 else g[p[0]].local_stack + Stack(g, p[1..])
  }

  ghost predicate Repeats(p: seq<Id>) {
    exists i, j :: 0 <= i < j < |p| && p[i] == p[j]
  }

  /** A chain that comes to a pointer call, or back to where it was. */
  ghost predicate Endless(g: Graph, p: seq<Id>)
    requires Chain(g, p)
  {
    g[p[|p| - 1]].has_ptr_call || Repeats(p)
  }

  /** No bound can be given for the stack of `f`. */
  ghost predicate Unbounded(g: Graph, f: Id) {
    exists p :: ChainFrom(g, f, p) && Endless(g, p)
  }

  /** `n` is the stack of the deepest call chain. */
  ghost predicate Deepest(g: Graph, f: Id, n: nat) {
    && (exists p :: ChainFrom(g, f, p) && Stack(g, p) == n)
    && (forall p :: ChainFrom(g, f, p) ==> Stack(g, p) <= n)
  }

  /** Some function that `f` can reach calls `name`, which was not found. */
  ghost predicate Needs(g: Graph, f: Id, name: string) {
    exists p :: ChainFrom(g, f, p) && name in g[p[|p| - 1]].unresolved
  }

  lemma Single(g: Graph, f: Id)
    requires f in g
    ensures ChainFrom(g, f, [f])
  {
  }

  lemma Prepend(g: Graph, f: Id, c: Id, p: seq<Id>)
    requires Calls(g, f, c) && ChainFrom(g, c, p)
    ensures ChainFrom(g, f, [f] + p) && Stack(g, [f] + p) == g[f].local_stack + Stack(g, p)
  {
    var q := [f] + p;
    assert q[1..] == p;
    forall i: nat | i + 1 < |q| ensures Link(g, q, i) {
      if i > 0 {
        assert Link(g, p, i - 1);
      }
    }
  }

  lemma Rest(g: Graph, f: Id, p: seq<Id>)
    requires ChainFrom(g, f, p) && |p| > 1
    ensures Calls(g, f, p[1]) && ChainFrom(g, p[1], p[1..])
  {
    assert Link(g, p, 0);
    forall i: nat | i + 1 < |p[1..]| ensures Link(g, p[1..], i) {
      assert Link(g, p, i + 1);
    }
  }

  lemma Part(g: Graph, p: seq<Id>, lo: nat, hi: nat)
    requires Chain(g, p) && lo < hi <= |p|
    ensures ChainFrom(g, p[lo], p[lo..hi])
  {
    var q := p[lo..hi];
    forall i: nat | i + 1 < |q| ensures Link(g, q, i) {
      assert Link(g, p, lo + i);
    }
  }

  lemma Append(g: Graph, p: seq<Id>, c: Id)
    requires Chain(g, p) && Calls(g, p[|p| - 1], c)
    ensures Chain(g, p + [c])
  {
    var q := p + [c];
    forall i: nat | i + 1 < |q| ensures Link(g, q, i) {
      if i + 1 < |p| {
        assert Link(g, p, i);
      }
    }
  }

  // ----- one function and its callees -----

  lemma UnboundedCallee(g: Graph, f: Id, c: Id)
    requires Calls(g, f, c) && Unbounded(g, c)
    ensures Unbounded(g, f)
  {
    var p :| ChainFrom(g, c, p) && Endless(g, p);
    Prepend(g, f, c, p);
    var q := [f] + p;
    if Repeats(p) {
      var i, j :| 0 <= i < j < |p| && p[i] == p[j];
      assert q[i + 1] == q[j + 1];
    }
    assert Endless(g, q);
  }

  lemma PointerCall(g: Graph, f: Id)
    requires f in g && g[f].has_ptr_call
    ensures Unbounded(g, f)
  {
    Single(g, f);
    assert Endless(g, [f]);
  }

  lemma RestRepeats(p: seq<Id>, i: nat, j: nat)
    requires i < j < |p| && p[i] == p[j]
    ensures i == 0 || Repeats(p[1..])
  {
    if i > 0 {
      assert p[1..][i - 1] == p[1..][j - 1];
    }
  }

  /** Without a pointer call of its own, a function is only unbounded through a callee: a cycle
      through the function is a cycle through the callee as well. */
  lemma UnboundedThroughCallee(g: Graph, f: Id) returns (c: Id)
    requires f in g && !g[f].has_ptr_call && Unbounded(g, f)
    ensures Calls(g, f, c) && Unbounded(g, c)
  {
    var p :| ChainFrom(g, f, p) && Endless(g, p);
    assert |p| > 1;
    Rest(g, f, p);
    c := p[1];
    if !Endless(g, p[1..]) {
      var i, j :| 0 <= i < j < |p| && p[i] == p[j];
      RestRepeats(p, i, j);
      CycleFromCallee(g, p, j);
    }
  }

  lemma CycleFromCallee(g: Graph, p: seq<Id>, j: nat)
    requires Chain(g, p) && 0 < j < |p| && p[j] == p[0]
    ensures Unbounded(g, p[1])
  {
    assert Link(g, p, 0);
    Part(g, p, 1, j + 1);
    var q := p[1..j + 1];
    var r := q + [p[1]];
    Append(g, q, p[1]);
    assert r[0] == r[|q|];
    assert Repeats(r) && ChainFrom(g, p[1], r);
    assert Endless(g, r);
  }

  /** A chain that leads back into itself makes where it comes back to unbounded. */
  lemma BackEdge(g: Graph, p: seq<Id>, f: Id)
    requires Chain(g, p + [f]) && f in p
    ensures Unbounded(g, f)
  {
    var q := p + [f];
    var i :| 0 <= i < |p| && p[i] == f;
    Part(g, q, i, |q|);
    var r := q[i..|q|];
    assert r[0] == r[|r| - 1];
    assert Endless(g, r);
  }

  lemma NeedsCallee(g: Graph, f: Id, c: Id, name: string)
    requires Calls(g, f, c) && Needs(g, c, name)
    ensures Needs(g, f, name)
  {
    var p :| ChainFrom(g, c, p) && name in g[p[|p| - 1]].unresolved;
    Prepend(g, f, c, p);
    var q := [f] + p;
    assert q[|q| - 1] == p[|p| - 1];
  }

  lemma NeedsOwn(g: Graph, f: Id, name: string)
    requires f in g && name in g[f].unresolved
    ensures Needs(g, f, name)
  {
    Single(g, f);
    assert [f][|[f]| - 1] == f;
  }

  lemma NeedsThroughCallee(g: Graph, f: Id, name: string) returns (c: Id)
    requires f in g && Needs(g, f, name) && name !in g[f].unresolved
    ensures Calls(g, f, c) && Needs(g, c, name)
  {
    var p :| ChainFrom(g, f, p) && name in g[p[|p| - 1]].unresolved;
    Rest(g, f, p);
    c := p[1];
    assert p[1..][|p[1..]| - 1] == p[|p| - 1];
  }

  /** The deepest chain of a function goes through a deepest chain of its deepest callee. */
  lemma DeepestThroughCallees(g: Graph, f: Id, deep: map<Id, nat>, max: nat)
    requires f in g && (forall c :: Calls(g, f, c) ==> c in deep && Deepest(g, c, deep[c]) && deep[c] <= max)
    requires max == 0 || exists c :: Calls(g, f, c) && deep[c] == max
    ensures Deepest(g, f, g[f].local_stack + max)
  {
    var n := g[f].local_stack + max;
    forall p | ChainFrom(g, f, p) ensures Stack(g, p) <= n {
      if |p| > 1 {
        Rest(g, f, p);
        Prepend(g, f, p[1], p[1..]);
        assert p == [f] + p[1..];
      }
    }
    if c :| Calls(g, f, c) && deep[c] == max {
      var p :| ChainFrom(g, c, p) && Stack(g, p) == deep[c];
      Prepend(g, f, c, p);
    } else {
      Single(g, f);
      assert Stack(g, [f]) == g[f].local_stack;
    }
  }

  // ----- results -----

  datatype Wcs = UnboundedStack | Bytes(n: nat)

  /** The first of `calls` without a bound, |calls| if all have one. */
  ghost function FirstUnbounded(g: Graph, calls: seq<Id>): (i: nat)
    ensures i <= |calls| && (forall j :: 0 <= j < i ==> !Unbounded(g, calls[j])) && (i < |calls| ==> Unbounded(g, calls[i]))
  {
    if calls == [] || Unbounded(g, calls[0]) then 0 else 1 + FirstUnbounded(g, calls[1..])
  }

  /** How many callees of `f` get to report their unresolved calls: none if `f` makes a pointer call,
      otherwise those before the first one without a bound. */
  ghost function Heard(g: Graph, f: Id): (i: nat)
    requires f in g
    ensures i <= |g[f].r_calls|
  {
    if g[f].has_ptr_call then 0 else FirstUnbounded(g, g[f].r_calls)
  }

  /** `name` was not found for a call of `f` itself, or of a function that one of its first `i` callees can reach. */
  ghost predicate Known(g: Graph, f: Id, i: nat, name: string)
    requires f in g && i <= |g[f].r_calls|
  {
    name in g[f].unresolved || exists j :: 0 <= j < i && Needs(g, g[f].r_calls[j], name)
  }

  ghost predicate Upto(g: Graph, f: Id, i: nat, unresolved: set<string>) {
    f in g && i <= |g[f].r_calls| && forall name :: name in unresolved <==> Known(g, f, i, name)
  }

  /** The result recorded for `f`. */
  ghost predicate Right(g: Graph, f: Id, w: Wcs, unresolved: set<string>)
    requires f in g
  {
    match w
    case UnboundedStack => Unbounded(g, f) && Upto(g, f, Heard(g, f), unresolved)
    case Bytes(n) => !Unbounded(g, f) && Deepest(g, f, n) && forall name :: name in unresolved <==> Needs(g, f, name)
  }

  /** What is right does not depend on the order in which functions were visited. */
  lemma RightIsUnique(g: Graph, f: Id, w: Wcs, u: set<string>, w': Wcs, u': set<string>)
    requires f in g && Right(g, f, w, u) && Right(g, f, w', u')
    ensures w == w' && u == u'
  {
    if w.Bytes? && w'.Bytes? {
      var p :| ChainFrom(g, f, p) && Stack(g, p) == w.n;
      var p' :| ChainFrom(g, f, p') && Stack(g, p') == w'.n;
    }
    forall name ensures name in u <==> name in u' {}
  }

  /** What a function knows it needs, and what it needs it knows when all its callees have been heard. */
  lemma KnownIsNeeded(g: Graph, f: Id, i: nat, name: string)
    requires Closed(g) && f in g && i <= |g[f].r_calls|
    ensures Known(g, f, i, name) ==> Needs(g, f, name)
    ensures i == |g[f].r_calls| && Needs(g, f, name) ==> Known(g, f, i, name)
  {
    if name in g[f].unresolved {
      NeedsOwn(g, f, name);
    } else if Known(g, f, i, name) {
      var j :| 0 <= j < i && Needs(g, g[f].r_calls[j], name);
      NeedsCallee(g, f, g[f].r_calls[j], name);
    } else if Needs(g, f, name) {
      var c := NeedsThroughCallee(g, f, name);
    }
  }

  /** The unresolved calls of a function without a bound are all it needs if and only if whatever a callee
      needs that was not heard is known from the function itself or from one that was. */
  lemma CompleteExactly(g: Graph, f: Id, u: set<string>)
    requires Closed(g) && f in g && Right(g, f, UnboundedStack, u)
    ensures (forall name :: Needs(g, f, name) <==> name in u) <==>
            (forall name, c :: Calls(g, f, c) && Needs(g, c, name) ==> Known(g, f, Heard(g, f), name))
  {
    var h := Heard(g, f);
    forall name ensures name in u ==> Needs(g, f, name) {
      KnownIsNeeded(g, f, h, name);
    }
    if forall name, c :: Calls(g, f, c) && Needs(g, c, name) ==> Known(g, f, h, name) {
      forall name | Needs(g, f, name) ensures name in u {
        if name !in g[f].unresolved {
          var c := NeedsThroughCallee(g, f, name);
        }
      }
    }
    forall name, c | (forall x :: Needs(g, f, x) <==> x in u) && Calls(g, f, c) && Needs(g, c, name) ensures Known(g, f, h, name) {
      NeedsCallee(g, f, c, name);
    }
  }

  /** For example, a function that makes a pointer call never learns of the unresolved calls of its callees. */
  lemma PointerCallLosesCalls(w: Wcs, u: set<string>)
    ensures var f, c := Global("f"), Global("c");
            var g: Graph := map[f := Fxn(8, true, [c], {}), c := Fxn(8, false, [], {"x"})];
            Right(g, f, w, u) ==> Needs(g, f, "x") && "x" !in u
  {
    var f, c := Global("f"), Global("c");
    var g: Graph := map[f := Fxn(8, true, [c], {}), c := Fxn(8, false, [], {"x"})];
    NeedsOwn(g, c, "x");
    NeedsCallee(g, f, c, "x");
    PointerCall(g, f);
    assert !Known(g, f, 0, "x");
  }
}

/** What the dictionaries of WCS.py hold during the search. */
module SearchState {
  import opened RtDef
  import opened CallGraphSpec

  datatype State = State(wcs: map<Id, Wcs>, unresolved: map<Id, set<string>>)

  /** All results are right, and functions not looked at yet have only their own unresolved calls. */
  ghost predicate Ok(g: Graph, s: State, parents: seq<Id>) {
    && Closed(g) && s.unresolved.Keys == g.Keys && s.wcs.Keys <= g.Keys
    && (forall f :: f in s.wcs ==> Right(g, f, s.wcs[f], s.unresolved[f]))
    && (forall f :: f in g && f !in s.wcs && f !in parents ==> Pending(g, s, f))
  }

  ghost predicate Pending(g: Graph, s: State, f: Id)
    requires f in g && s.unresolved.Keys == g.Keys
  {
    s.unresolved[f] == g[f].unresolved
  }

  /** Every function on a path of calls being looked at has heard the callees before the next one on the path,
      all of them bounded. */
  ghost predicate OnTheWay(g: Graph, s: State, path: seq<Id>) {
    forall k: nat {:trigger path[k]} :: k + 1 < |path| ==> Halfway(g, s, path[k], path[k + 1])
  }

  ghost predicate Halfway(g: Graph, s: State, f: Id, next: Id) {
    && f in g && f in s.unresolved && !g[f].has_ptr_call
    && exists i: nat :: i < |g[f].r_calls| && g[f].r_calls[i] == next && Heeded(g, s, f, i)
  }

  /** The first `i` callees of `f` are bounded and their unresolved calls have been added to its own. */
  ghost predicate Heeded(g: Graph, s: State, f: Id, i: nat) {
    && f in g && f in s.unresolved && Upto(g, f, i, s.unresolved[f])
    && forall j :: 0 <= j < i ==> !Unbounded(g, g[f].r_calls[j])
  }

  /** Nothing recorded in `s` is lost in `t`, and the functions being worked on keep their sets. */
  ghost predicate Extends(s: State, t: State, parents: seq<Id>) {
    && (forall f :: f in s.wcs ==> Kept(s, t, f) && f in t.wcs && t.wcs[f] == s.wcs[f])
    && (forall f :: f in parents ==> Kept(s, t, f))
  }

  ghost predicate Kept(s: State, t: State, f: Id) {
    f in s.unresolved ==> f in t.unresolved && t.unresolved[f] == s.unresolved[f]
  }

  ghost predicate NoneOf(s: State, parents: seq<Id>) {
    forall p :: p in parents ==> p !in s.wcs
  }

  /** The first `i` callees of `f` are done and bounded, their maximum is `max` and their unresolved calls are collected. */
  ghost predicate Gathered(g: Graph, f: Id, s: State, i: nat, max: nat) {
    && Heeded(g, s, f, i)
    && (forall c :: c in g[f].r_calls[..i] ==> Counted(s, c, max))
    && (max == 0 || exists c :: c in g[f].r_calls[..i] && c in s.wcs && s.wcs[c] == Bytes(max))
  }

  ghost predicate Counted(s: State, c: Id, max: nat) {
    c in s.wcs && s.wcs[c].Bytes? && s.wcs[c].n <= max
  }

  function Members(parents: seq<Id>): set<Id> {
    set p | p in parents
  }

  lemma MoreMembers(g: Graph, parents: seq<Id>, f: Id)
    requires f in g && f !in parents
    ensures |g.Keys - Members(parents + [f])| < |g.Keys - Members(parents)|
  {
    assert g.Keys - Members(parents + [f]) == g.Keys - Members(parents) - {f};
  }

  /** A function whose stack was given by hand: a leaf. */
  predicate Leaf(g: Graph, f: Id) {
    f in g && (forall c :: c !in g[f].r_calls) && g[f].unresolved == {} && !g[f].has_ptr_call
  }

  /** The hand-given stack of a leaf is what the search would find. */
  lemma LeafRight(g: Graph, f: Id)
    requires Leaf(g, f)
    ensures Right(g, f, Bytes(g[f].local_stack), {})
  {
    if Unbounded(g, f) {
      var c := UnboundedThroughCallee(g, f);
      assert false;
    }
    DeepestThroughCallees(g, f, map[], 0);
    forall name ensures !Needs(g, f, name) {
      if Needs(g, f, name) {
        var c := NeedsThroughCallee(g, f, name);
        assert false;
      }
    }
  }

  lemma StartOk(g: Graph, manual: set<Id>, s: State)
    requires Closed(g) && manual <= g.Keys && (forall f :: f in manual ==> Leaf(g, f))
    requires s == State(map f | f in manual :: Bytes(g[f].local_stack), map f | f in g :: g[f].unresolved)
    ensures Ok(g, s, [])
  {
    forall f | f in manual ensures Right(g, f, s.wcs[f], s.unresolved[f]) {
      LeafRight(g, f);
    }
  }

  /** A result is written down. */
  lemma MarkKeeps(g: Graph, start: State, s: State, parents: seq<Id>, f: Id, w: Wcs)
    requires Ok(g, s, parents + [f]) && f in g && Right(g, f, w, s.unresolved[f])
    requires Extends(start, s, parents) && f !in start.wcs
    ensures var t := s.(wcs := s.wcs[f := w]); Ok(g, t, parents) && Extends(start, t, parents)
  {
    var t := s.(wcs := s.wcs[f := w]);
    forall x | x in g && x !in t.wcs && x !in parents ensures Pending(g, t, x) {
      assert Pending(g, s, x);
    }
    MarkExtends(start, s, parents, f, w);
  }

  lemma MarkExtends(start: State, s: State, parents: seq<Id>, f: Id, w: Wcs)
    requires Extends(start, s, parents) && f !in start.wcs
    ensures Extends(start, s.(wcs := s.wcs[f := w]), parents)
  {
    var t := s.(wcs := s.wcs[f := w]);
    forall x | x in start.wcs || x in parents ensures Kept(start, t, x) {
      assert Kept(start, s, x);
    }
  }

  lemma ExtendsSelf(s: State, parents: seq<Id>)
    ensures Extends(s, s, parents)
  {
  }

  /** A function with a pointer call has only its own unresolved calls. */
  lemma AtOnce(g: Graph, s: State, parents: seq<Id>, f: Id)
    requires Ok(g, s, parents) && f in g && f !in s.wcs && f !in parents && g[f].has_ptr_call
    ensures Ok(g, s, parents + [f]) && Right(g, f, UnboundedStack, s.unresolved[f])
  {
    ParentsOnly(g, s, parents, f);
    PointerCall(g, f);
    assert Pending(g, s, f);
  }

  /** A function to which the search comes back has heard the callees before the one that led back to it. */
  lemma ComeBack(g: Graph, s: State, parents: seq<Id>, f: Id)
    requires Ok(g, s, parents) && f in parents && Chain(g, parents + [f]) && OnTheWay(g, s, parents + [f])
    ensures Ok(g, s, parents + [f]) && Right(g, f, UnboundedStack, s.unresolved[f])
  {
    ParentsOnly(g, s, parents, f);
    var path := parents + [f];
    var k: nat :| k < |parents| && parents[k] == f;
    assert path[k] == f && Halfway(g, s, path[k], path[k + 1]);
    var i: nat :| i < |g[f].r_calls| && g[f].r_calls[i] == path[k + 1] && Heeded(g, s, f, i);
    NextOnCycle(g, path, k);
    UnboundedRight(g, s, f, i);
  }

  lemma NextOnCycle(g: Graph, path: seq<Id>, k: nat)
    requires Chain(g, path) && k + 1 < |path| && path[k] == path[|path| - 1]
    ensures Unbounded(g, path[k + 1])
  {
    Part(g, path, k + 1, |path|);
    var p := path[k + 1..|path|];
    assert Link(g, path, k) && p[|p| - 1] == path[k];
    Append(g, p, path[k + 1]);
    assert p[0] == path[k + 1];
    BackEdge(g, p, path[k + 1]);
  }

  /** The state of the loop over the callees of `f`, the first `i` of which are done, entered in state `start`. */
  ghost predicate Working(g: Graph, start: State, s: State, parents: seq<Id>, f: Id, i: nat, max: nat) {
    && Ok(g, s, parents + [f]) && NoneOf(s, parents + [f]) && Extends(start, s, parents) && Gathered(g, f, s, i, max)
    && f !in start.wcs && f !in parents && !g[f].has_ptr_call && start.unresolved.Keys == g.Keys
    && Chain(g, parents + [f]) && OnTheWay(g, s, parents + [f])
  }

  lemma StartWorking(g: Graph, s: State, parents: seq<Id>, f: Id)
    requires Ok(g, s, parents) && NoneOf(s, parents) && f in g && f !in s.wcs && f !in parents && !g[f].has_ptr_call
    requires Chain(g, parents + [f]) && OnTheWay(g, s, parents + [f])
    ensures Working(g, s, s, parents, f, 0, 0)
  {
    ParentsOnly(g, s, parents, f);
    assert g[f].r_calls[..0] == [];
    assert Pending(g, s, f);
  }

  /** The path goes on to the next callee. */
  lemma GoOn(g: Graph, start: State, s: State, parents: seq<Id>, f: Id, i: nat, max: nat)
    requires Working(g, start, s, parents, f, i, max) && i < |g[f].r_calls|
    ensures var c := g[f].r_calls[i]; Calls(g, f, c) && Chain(g, parents + [f] + [c]) && OnTheWay(g, s, parents + [f] + [c])
  {
    var c, path := g[f].r_calls[i], parents + [f];
    assert Calls(g, f, c);
    Append(g, path, c);
    var q := path + [c];
    forall k: nat | k + 1 < |q| ensures Halfway(g, s, q[k], q[k + 1]) {
      if k + 1 < |path| {
        assert path[k] == q[k] && Halfway(g, s, path[k], path[k + 1]);
      }
    }
  }

  /** The functions on the path keep what they have heard. */
  lemma OnTheWayKept(g: Graph, s: State, t: State, parents: seq<Id>, f: Id)
    requires OnTheWay(g, s, parents + [f]) && s.unresolved.Keys == t.unresolved.Keys && forall p :: p in parents ==> Kept(s, t, p)
    ensures OnTheWay(g, t, parents + [f])
  {
    var path := parents + [f];
    forall k: nat | k + 1 < |path| ensures Halfway(g, t, path[k], path[k + 1]) {
      assert Halfway(g, s, path[k], path[k + 1]) && path[k] in parents && Kept(s, t, path[k]);
      var i: nat :| i < |g[path[k]].r_calls| && g[path[k]].r_calls[i] == path[k + 1] && Heeded(g, s, path[k], i);
      assert Heeded(g, t, path[k], i);
    }
  }

  /** The next callee has been looked at. */
  lemma VisitKeeps(g: Graph, start: State, s: State, t: State, parents: seq<Id>, f: Id, i: nat, max: nat)
    requires Working(g, start, s, parents, f, i, max) && Ok(g, t, parents + [f]) && Extends(s, t, parents + [f])
    ensures Extends(start, t, parents) && Heeded(g, t, f, i)
    ensures NoneOf(t, parents + [f]) ==> Working(g, start, t, parents, f, i, max)
  {
    ExtendsTwice(start, s, t, parents, f);
    GatheredKept(g, f, s, t, parents, i, max);
    forall p | p in parents ensures Kept(s, t, p) {
      assert p in parents + [f];
    }
    OnTheWayKept(g, s, t, parents, f);
  }

  lemma CollectWorking(g: Graph, start: State, s: State, parents: seq<Id>, f: Id, i: nat, max: nat)
    requires Working(g, start, s, parents, f, i, max) && i < |g[f].r_calls|
    requires var c := g[f].r_calls[i]; c in s.wcs && s.wcs[c].Bytes?
    ensures Working(g, start, Collected(s, f, g[f].r_calls[i]), parents, f, i + 1, Max(max, s.wcs[g[f].r_calls[i]].n))
  {
    assert f in parents + [f];
    CollectKeeps(g, f, s, parents, i, max);
    CollectGathers(g, f, s, i, max);
    var t := Collected(s, f, g[f].r_calls[i]);
    forall x | x in start.wcs || x in parents ensures Kept(start, t, x) {
      assert Kept(start, s, x);
    }
    OnTheWayKept(g, s, t, parents, f);
  }

  /** `f` takes over the unresolved calls of its callee `c`. */
  function Collected(s: State, f: Id, c: Id): State
    requires f in s.unresolved && c in s.unresolved
  {
    s.(unresolved := s.unresolved[f := s.unresolved[f] + s.unresolved[c]])
  }

  /** A function whose callee `i` has no bound, and which has heard those before. */
  lemma UnboundedRight(g: Graph, s: State, f: Id, i: nat)
    requires Closed(g) && f in g && !g[f].has_ptr_call && Heeded(g, s, f, i) && i < |g[f].r_calls| && Unbounded(g, g[f].r_calls[i])
    ensures Right(g, f, UnboundedStack, s.unresolved[f])
  {
    assert Calls(g, f, g[f].r_calls[i]);
    UnboundedCallee(g, f, g[f].r_calls[i]);
    assert Heard(g, f) == i;
  }

  lemma PathCallsNoPointer(g: Graph, s: State, parents: seq<Id>, f: Id)
    requires OnTheWay(g, s, parents + [f]) && f in g && g[f].has_ptr_call
    ensures f !in parents
  {
    var path := parents + [f];
    forall k: nat | k < |parents| ensures parents[k] != f {
      assert Halfway(g, s, path[k], path[k + 1]);
    }
  }

  lemma ParentsOnly(g: Graph, s: State, parents: seq<Id>, f: Id)
    requires Ok(g, s, parents)
    ensures Ok(g, s, parents + [f])
  {
  }

  lemma ExtendsTwice(s: State, t: State, u: State, parents: seq<Id>, f: Id)
    requires Extends(s, t, parents) && Extends(t, u, parents + [f])
    requires s.unresolved.Keys == t.unresolved.Keys == u.unresolved.Keys
    ensures Extends(s, u, parents)
  {
    forall x | x in s.wcs ensures Kept(s, u, x) && x in u.wcs && u.wcs[x] == s.wcs[x] {
      assert Kept(s, t, x) && Kept(t, u, x);
    }
    forall x | x in parents ensures Kept(s, u, x) {
      assert Kept(s, t, x);
      assert x in parents + [f];
      assert Kept(t, u, x);
    }
  }

  /** The callees counted so far stay as they are while the next one is looked at. */
  lemma GatheredKept(g: Graph, f: Id, s: State, t: State, parents: seq<Id>, i: nat, max: nat)
    requires Gathered(g, f, s, i, max) && Extends(s, t, parents + [f])
    requires s.unresolved.Keys == t.unresolved.Keys
    ensures Gathered(g, f, t, i, max)
  {
    assert f in parents + [f];
    assert Kept(s, t, f);
    forall c | c in g[f].r_calls[..i] ensures Counted(t, c, max) {
      assert Counted(s, c, max) && Kept(s, t, c);
    }
  }

  lemma CollectKeeps(g: Graph, f: Id, s: State, parents: seq<Id>, i: nat, max: nat)
    requires Ok(g, s, parents + [f]) && f in g && i < |g[f].r_calls| && f !in s.wcs
    requires var c := g[f].r_calls[i]; c in s.wcs && s.wcs[c].Bytes?
    ensures Ok(g, Collected(s, f, g[f].r_calls[i]), parents + [f])
  {
    var t := Collected(s, f, g[f].r_calls[i]);
    forall x | x in g && x !in t.wcs && x !in parents + [f] ensures Pending(g, t, x) {
      assert Pending(g, s, x);
    }
  }

  /** One more bounded callee is heard. */
  lemma CollectHeeds(g: Graph, f: Id, s: State, i: nat)
    requires Heeded(g, s, f, i) && i < |g[f].r_calls|
    requires var c := g[f].r_calls[i]; c in g && c in s.wcs && c in s.unresolved && s.wcs[c].Bytes? && Right(g, c, s.wcs[c], s.unresolved[c])
    ensures Heeded(g, Collected(s, f, g[f].r_calls[i]), f, i + 1)
  {
    var c := g[f].r_calls[i];
    var u := s.unresolved[f] + s.unresolved[c];
    forall name ensures name in u <==> Known(g, f, i + 1, name) {
      if name in u {
        assert name in s.unresolved[f] ==> Known(g, f, i, name);
        assert name in s.unresolved[c] ==> Needs(g, g[f].r_calls[i], name);
      }
      if Known(g, f, i + 1, name) && name !in g[f].unresolved {
        var j :| 0 <= j < i + 1 && Needs(g, g[f].r_calls[j], name);
        assert j < i ==> Known(g, f, i, name);
      }
    }
  }

  /** One more bounded callee is counted. */
  lemma CollectGathers(g: Graph, f: Id, s: State, i: nat, max: nat)
    requires Gathered(g, f, s, i, max) && i < |g[f].r_calls| && f !in s.wcs
    requires var c := g[f].r_calls[i]; c in g && c in s.wcs && c in s.unresolved && s.wcs[c].Bytes? && Right(g, c, s.wcs[c], s.unresolved[c])
    ensures Gathered(g, f, Collected(s, f, g[f].r_calls[i]), i + 1, Max(max, s.wcs[g[f].r_calls[i]].n))
  {
    var c := g[f].r_calls[i];
    var t, m := Collected(s, f, c), Max(max, s.wcs[c].n);
    CollectHeeds(g, f, s, i);
    assert g[f].r_calls[..i + 1] == g[f].r_calls[..i] + [c];
    forall x | x in g[f].r_calls[..i + 1] ensures Counted(t, x, m) {
      assert x in g[f].r_calls[..i] ==> Counted(s, x, max);
    }
  }

  /** When all callees are counted, their maximum makes the result. */
  lemma FinishRight(g: Graph, f: Id, s: State, parents: seq<Id>, max: nat)
    requires Ok(g, s, parents + [f]) && f in g && Gathered(g, f, s, |g[f].r_calls|, max) && !g[f].has_ptr_call && f !in s.wcs
    ensures Right(g, f, Bytes(max + g[f].local_stack), s.unresolved[f])
  {
    var calls := g[f].r_calls;
    assert calls[..|calls|] == calls;
    forall c | Calls(g, f, c) ensures Counted(s, c, max) {}
    if Unbounded(g, f) {
      var c := UnboundedThroughCallee(g, f);
      assert false;
    }
    FinishDeepest(g, f, s, max);
    forall name ensures name in s.unresolved[f] <==> Needs(g, f, name) {
      KnownIsNeeded(g, f, |calls|, name);
    }
  }

  lemma FinishDeepest(g: Graph, f: Id, s: State, max: nat)
    requires f in g && Gathered(g, f, s, |g[f].r_calls|, max)
    requires forall c :: Calls(g, f, c) ==> Counted(s, c, max) && Deepest(g, c, s.wcs[c].n)
    requires Closed(g)
    ensures Deepest(g, f, max + g[f].local_stack)
  {
    var calls := g[f].r_calls;
    assert calls[..|calls|] == calls;
    var deep := map c | c in s.wcs && s.wcs[c].Bytes? :: s.wcs[c].n;
    if max != 0 {
      var c :| c in calls && c in s.wcs && s.wcs[c] == Bytes(max);
      assert Calls(g, f, c) && deep[c] == max;
    }
    forall c | Calls(g, f, c) ensures c in deep && Deepest(g, c, deep[c]) && deep[c] <= max {
      assert Counted(s, c, max);
    }
    DeepestThroughCallees(g, f, deep, max);
  }
}

/** The search of WCS.py over a call graph. */
module WorstCaseStack {
  import opened RtDef
  import opened CallGraphSpec
  import opened SearchState

  /** What calc_wcs keeps in the dictionaries of the functions. */
  class Analysis {
    const g: Graph
    var wcs: map<Id, Wcs>
    var unresolved: map<Id, set<string>>

    ghost function Now(): State
      reads this
    {
      State(wcs, unresolved)
    }

    /** The functions of `manual` have their stack given by hand. */
    constructor (g: Graph, manual: set<Id>)
      requires Closed(g) && manual <= g.Keys && forall f :: f in manual ==> Leaf(g, f)
      ensures Ok(this.g, Now(), []) && this.g == g && wcs == map f | f in manual :: Bytes(g[f].local_stack)
    {
      this.g, wcs := g, map f | f in manual :: Bytes(g[f].local_stack);
      unresolved := map f | f in g :: g[f].unresolved;
      new;
      StartOk(g, manual, Now());
    }

    /** calc_wcs: `parents` are the functions whose callees are being looked at, each calling the next.
        If the search comes back to one of them, it gives up on everything above. */
    method CalcWcs(f: Id, parents: seq<Id>)
      requires Ok(g, Now(), parents) && NoneOf(Now(), parents) && Chain(g, parents + [f]) && OnTheWay(g, Now(), parents + [f])
      modifies this
      ensures Ok(g, Now(), parents) && Extends(old(Now()), Now(), parents) && f in wcs
      ensures wcs[f] == UnboundedStack || NoneOf(Now(), parents)
      decreases |g.Keys - Members(parents)|, 0
    {
      assert (parents + [f])[|parents|] == f;
      if f in wcs {
        return;
      }
      ghost var start := Now();
      ExtendsSelf(start, parents);
      if g[f].has_ptr_call {
        PathCallsNoPointer(g, start, parents, f);
        AtOnce(g, start, parents, f);
        Mark(f, UnboundedStack, parents, start);
        return;
      }
      if f in parents {
        ComeBack(g, start, parents, f);
        Mark(f, UnboundedStack, parents, start);
        return;
      }
      MoreMembers(g, parents, f);
      CalcCallees(f, parents);
    }

    /** The loop over the callees. */
    method CalcCallees(f: Id, parents: seq<Id>)
      requires Ok(g, Now(), parents) && NoneOf(Now(), parents) && Chain(g, parents + [f]) && OnTheWay(g, Now(), parents + [f])
      requires f in g && f !in wcs && f !in parents && !g[f].has_ptr_call
      modifies this
      ensures Ok(g, Now(), parents) && Extends(old(Now()), Now(), parents) && f in wcs
      ensures wcs[f] == UnboundedStack || NoneOf(Now(), parents)
      decreases |g.Keys - Members(parents + [f])|, 2
    {
      var call_max: nat := 0;
      var calls := g[f].r_calls;
      ghost var start := Now();
      StartWorking(g, start, parents, f);
      for i := 0 to |calls|
        invariant Working(g, start, Now(), parents, f, i, call_max)
      {
        var bounded;
        bounded, call_max := CalcCallee(f, parents, i, call_max, start);
        if !bounded {
          return;
        }
      }
      FinishRight(g, f, Now(), parents, call_max);
      Mark(f, Bytes(call_max + g[f].local_stack), parents, start);
    }

    /** One turn of that loop. */
    method CalcCallee(f: Id, parents: seq<Id>, i: nat, call_max: nat, ghost start: State) returns (bounded: bool, max: nat)
      requires Working(g, start, Now(), parents, f, i, call_max) && i < |g[f].r_calls|
      modifies this
      ensures bounded ==> Working(g, start, Now(), parents, f, i + 1, max)
      ensures !bounded ==> Ok(g, Now(), parents) && Extends(start, Now(), parents) && f in wcs && wcs[f] == UnboundedStack
      decreases |g.Keys - Members(parents + [f])|, 1
    {
      ghost var before := Now();
      var c := g[f].r_calls[i];
      GoOn(g, start, before, parents, f, i, call_max);
      CalcWcs(c, parents + [f]);
      VisitKeeps(g, start, before, Now(), parents, f, i, call_max);
      bounded, max := wcs[c] != UnboundedStack, call_max;
      if !bounded {
        GiveUp(f, i, parents, start);
        return;
      }
      CollectWorking(g, start, Now(), parents, f, i, call_max);
      max := Max(call_max, wcs[c].n);
      Collect(f, c);
    }

    /** `f` has no bound because its callee `i` has none. */
    method GiveUp(f: Id, ghost i: nat, parents: seq<Id>, ghost start: State)
      requires Ok(g, Now(), parents + [f]) && Extends(start, Now(), parents) && f !in start.wcs && Heeded(g, Now(), f, i)
      requires i < |g[f].r_calls| && !g[f].has_ptr_call && g[f].r_calls[i] in wcs && wcs[g[f].r_calls[i]] == UnboundedStack
      modifies this`wcs
      ensures Ok(g, Now(), parents) && Extends(start, Now(), parents) && f in wcs && wcs[f] == UnboundedStack
    {
      UnboundedRight(g, Now(), f, i);
      Mark(f, UnboundedStack, parents, start);
    }

    /** The unresolved calls of `c` are those of `f` too. */
    method Collect(f: Id, c: Id)
      requires f in unresolved && c in unresolved
      modifies this`unresolved
      ensures Now() == Collected(old(Now()), f, c)
    {
      unresolved := unresolved[f := unresolved[f] + unresolved[c]];
    }

    method Mark(f: Id, w: Wcs, parents: seq<Id>, ghost start: State)
      requires Ok(g, Now(), parents + [f]) && f in g && Right(g, f, w, unresolved[f])
      requires Extends(start, Now(), parents) && f !in start.wcs
      modifies this`wcs
      ensures wcs == old(wcs)[f := w] && Ok(g, Now(), parents) && Extends(start, Now(), parents)
    {
      MarkKeeps(g, start, Now(), parents, f, w);
      wcs := wcs[f := w];
    }

    method Visit(f: Id)
      requires Ok(g, Now(), []) && f in g
      modifies this
      ensures Ok(g, Now(), []) && f in wcs && old(wcs).Keys <= wcs.Keys
    {
      Single(g, f);
      assert [] + [f] == [f];
      CalcWcs(f, []);
    }

    /** calc_all_wcs: the functions are visited in any order. */
    method CalcAllWcs()
      requires Ok(g, Now(), [])
      modifies this
      ensures wcs.Keys == g.Keys == unresolved.Keys && forall f :: f in g ==> Right(g, f, wcs[f], unresolved[f])
    {
      var todo := g.Keys;
      while todo != {}
        invariant Ok(g, Now(), []) && todo <= g.Keys && forall f :: f in g && f !in todo ==> f in wcs
        decreases |todo|
      {
        var f :| f in todo;
        Visit(f);
        todo := todo - {f};
      }
    }
  }
}

/** resolve_all_calls: from called names to functions. */
module CallResolution {
  import opened RtDef
  import opened CallGraphSpec
  import opened SearchState
  import opened WorstCaseStack

  /** A function as it was read. */
  datatype Raw = Raw(unit: string, local_stack: nat, has_ptr_call: bool, calls: set<string>)

  /** find_fxn: a global function hides a local one of the same name. */
  function Find(ids: set<Id>, unit: string, name: string): Option<Id> {
    if Global(name) in ids then Some(Global(name))
    else if Local(name, unit) in ids then Some(Local(name, unit))
    else None
  }

  /** The calls in `calls` are sorted into those found and those not found. */
  ghost predicate Resolved(ids: set<Id>, raw: Raw, calls: set<string>, f: Fxn) {
    && f.local_stack == raw.local_stack && f.has_ptr_call == raw.has_ptr_call
    && (forall c :: c in f.r_calls ==> c in ids && c.name in calls && Find(ids, raw.unit, c.name) == Some(c))
    && (forall name :: name in calls ==>
          match Find(ids, raw.unit, name) case Some(c) => c in f.r_calls case None => name in f.unresolved)
    && (forall name :: name in f.unresolved ==> name in calls && Find(ids, raw.unit, name) == None)
  }

  /** A called name is a call of the global function of that name if there is one, otherwise of the one local to the
      caller's unit if there is one, otherwise unresolved; there are no other calls. */
  lemma {:induction false} CallsNearest(ids: set<Id>, raw: Raw, calls: set<string>, f: Fxn, name: string, unit: string)
    requires Resolved(ids, raw, calls, f)
    ensures Global(name) in f.r_calls <==> name in calls && Global(name) in ids
    ensures Local(name, unit) in f.r_calls <==> name in calls && Global(name) !in ids && Local(name, unit) in ids && unit == raw.unit
    ensures name in f.unresolved <==> name in calls && Global(name) !in ids && Local(name, raw.unit) !in ids
  {
  }

  method ResolveCalls(ids: set<Id>, raw: Raw) returns (f: Fxn)
    ensures Resolved(ids, raw, raw.calls, f)
    ensures forall i, j :: 0 <= i < j < |f.r_calls| ==> f.r_calls[i] != f.r_calls[j]
  {
    f := Fxn(raw.local_stack, raw.has_ptr_call, [], {});
    var todo := raw.calls;
    while todo != {}
      invariant todo <= raw.calls && Resolved(ids, raw, raw.calls - todo, f)
      invariant forall i, j :: 0 <= i < j < |f.r_calls| ==> f.r_calls[i] != f.r_calls[j]
      decreases |todo|
    {
      var call :| call in todo;
      match Find(ids, raw.unit, call) {
        case Some(c) => f := f.(r_calls := f.r_calls + [c]);
        case None => f := f.(unresolved := f.unresolved + {call});
      }
      todo := todo - {call};
    }
  }

  method ResolveAllCalls(raws: map<Id, Raw>) returns (g: Graph)
    ensures Closed(g) && g.Keys == raws.Keys && forall f :: f in g ==> Resolved(raws.Keys, raws[f], raws[f].calls, g[f])
  {
    g := map[];
    var todo := raws.Keys;
    while todo != {}
      invariant todo <= raws.Keys && g.Keys == raws.Keys - todo
      invariant forall f :: f in g ==> Resolved(raws.Keys, raws[f], raws[f].calls, g[f])
      decreases |todo|
    {
      var f :| f in todo;
      var fxn := ResolveCalls(raws.Keys, raws[f]);
      g := g[f := fxn];
      todo := todo - {f};
    }
  }

  /** The analysis from the functions as read to the results, the stack of those in `manual` being given by hand. */
  method Analyse(raws: map<Id, Raw>, manual: set<Id>) returns (g: Graph, a: Analysis)
    requires forall f :: f in manual ==> f in raws && raws[f].calls == {} && !raws[f].has_ptr_call
    ensures g.Keys == raws.Keys && (forall f :: f in g ==> Resolved(raws.Keys, raws[f], raws[f].calls, g[f]))
    ensures a.wcs.Keys == a.unresolved.Keys == g.Keys && forall f :: f in g ==> Right(g, f, a.wcs[f], a.unresolved[f])
  {
    g := ResolveAllCalls(raws);
    forall f | f in manual ensures Leaf(g, f) {
      NoCallsLeaf(raws.Keys, raws[f], g[f]);
    }
    a := new Analysis(g, manual);
    a.CalcAllWcs();
  }

  lemma NoCallsLeaf(ids: set<Id>, raw: Raw, f: Fxn)
    requires Resolved(ids, raw, {}, f)
    ensures (forall c :: c !in f.r_calls) && f.unresolved == {}
  {
  }
}
