/** digraph and traverse, with their dictionaries and their stack (bin/ply/yacc.py, 1898-1928). */
module Digraph {
  import opened Sets
  import opened Relations

  /** The nodes being worked on are on the stack. */
  ghost predicate Held(stack: seq<Node>, busy: set<Node>) {
    forall v :: v in busy ==> v in stack
  }

  ghost function Unmarked(g: Graph, n: map<Node, int>): set<Node> {
    set v | v in g.nodes && v in n && n[v] == 0
  }

  lemma {:induction false} EntriesCount(g: Graph, s: State, k: nat) returns (e: set<Node>)
    requires Shaped(g, s) && k <= |s.stack|
    ensures |e| == k && e <= g.nodes && forall v :: v in e ==> exists i :: 0 <= i < k && s.stack[i] == v
  {
    if k == 0 {
      e := {};
    } else {
      var rest := EntriesCount(g, s, k - 1);
      assert Entry(g, s, k - 1);
      forall v | v in rest
        ensures v != s.stack[k - 1]
      {
        var i :| 0 <= i < k - 1 && s.stack[i] == v;
        assert Entry(g, s, i);
      }
      e := rest + {s.stack[k - 1]};
      forall v | v in e
        ensures exists i :: 0 <= i < k && s.stack[i] == v
      {
        if v in rest {
          var i :| 0 <= i < k - 1 && s.stack[i] == v;
        }
      }
    }
  }

  /** There is room on the stack for an unmarked node. */
  lemma StackBound(g: Graph, s: State, x: Node)
    requires Shaped(g, s) && x in g.nodes && s.n[x] == 0
    ensures |s.stack| + 1 <= |g.nodes|
  {
    var e := EntriesCount(g, s, |s.stack|);
    if x in e {
      EntryAt(g, s, x);
    }
    SubsetCount(e + {x}, g.nodes);
  }

  lemma FewerUnmarked(g: Graph, s: State, t: State, x: Node)
    requires Extends(s, t) && x in g.nodes && x in s.n && s.n[x] == 0 && t.n[x] != 0 && s.n.Keys == g.nodes
    ensures |Unmarked(g, t.n)| < |Unmarked(g, s.n)|
  {
    SubsetCount(Unmarked(g, t.n), Unmarked(g, s.n) - {x});
  }

  /** One pop more. */
  lemma PopOne(s: State, k: nat, l: seq<Elem>)
    requires k < |s.stack| && s.stack[k] in s.n && s.stack[k] in s.f
    ensures var t, v := Popped(s, k + 1, l), s.stack[k];
            State(t.n[v := MAXINT], t.stack[..k], t.f[v := l], t.depth) == Popped(s, k, l)
  {
  }

  lemma NonePopped(s: State, l: seq<Elem>)
    ensures Popped(s, |s.stack|, l) == s
  {
  }

  /** The inner loop: appends what is missing. */
  method Merge(into: seq<Elem>, from: seq<Elem>) returns (m: seq<Elem>)
    ensures Union(m, into, from)
  {
    m := into;
    for i := 0 to |from|
      invariant Union(m, into, from[..i])
    {
      assert from[..i + 1] == from[..i] + [from[i]];
      if from[i] !in m {
        m := m + [from[i]];
      }
    }
    assert from[..|from|] == from;
  }

  class Traversal {
    var n: map<Node, int>
    var stack: seq<Node>
    var f: map<Node, seq<Elem>>
    ghost var depth: map<Node, int>

    constructor (xs: seq<Node>)
      ensures n == map x | x in xs :: 0
      ensures stack == [] && f == map[] && depth == map[]
    {
      n, stack, f, depth := map x | x in xs :: 0, [], map[], map[];
    }

    ghost function Snap(): State
      reads this
    {
      State(n, stack, f, depth)
    }

    /** The last part of traverse: pops the stack down to and including x. */
    method PopThrough(x: Node, ghost g: Graph, ghost busy: set<Node>, ghost d: nat)
      requires Root(g, Snap(), busy, x, d)
      modifies this
      ensures Snap() == Popped(old(Snap()), d - 1, old(f[x]))
    {
      hide Working, Popped;
      ghost var s := Snap();
      NonePopped(s, f[x]);
      RootEntries(g, s, busy, x, d);
      PopOne(s, |s.stack| - 1, f[x]);
      var element := PopTop(x);
      while element != x
        invariant d - 1 <= |stack| < |s.stack| && element == s.stack[|stack|]
        invariant x in f && Snap() == Popped(s, |stack|, s.f[x]) && f[x] == s.f[x]
        decreases |stack|
      {
        PoppedStack(s, |stack|, s.f[x]);
        PopOne(s, |stack| - 1, s.f[x]);
        element := PopTop(x);
      }
    }

    /** traverse */
    method Traverse(x: Node, g: Graph, ghost busy: set<Node>)
      requires Inv(g, Snap(), busy) && x in g.nodes && n.Keys == g.nodes && n[x] == 0 && Held(stack, busy)
      requires |g.nodes| < MAXINT && forall i :: 0 <= i < |stack| ==> Reaches(g, stack[i], x)
      modifies this
      ensures Returned(g, old(Snap()), Snap(), busy, x) && n.Keys == g.nodes
      ensures n[x] == MAXINT || n[x] <= |old(stack)|
      decreases |Unmarked(g, n)|, 0
    {
      hide Inv, Working, Reaches, Extends, Unmarked, Returned, Pushed;
      ghost var s0 := Snap();
      Room(g, s0, busy, x);
      StartWork(g, s0, x, busy);
      PushedParts(g, s0, x);
      stack := stack + [x];
      var d := |stack|;
      n := n[x := d];
      f := f[x := g.fp(x)];
      depth := depth[x := d];
      var rel := g.r(x);
      ghost var s1 := Snap();
      FewerUnmarked(g, s0, s1, x);
      for i := 0 to |rel|
        invariant Working(g, Snap(), busy, x, d, i) && Extends(s0, Snap()) && n.Keys == g.nodes
        invariant |Unmarked(g, n)| < |Unmarked(g, s0.n)|
      {
        Follow(x, rel[i], g, i, d, busy, s0);
      }
      Finish(x, d, g, busy, s0);
    }

    /** One turn of the loop over the related nodes. */
    method Follow(x: Node, y: Node, g: Graph, ghost i: nat, ghost d: nat, ghost busy: set<Node>, ghost s0: State)
      requires Working(g, Snap(), busy, x, d, i) && i < |g.r(x)| && y == g.r(x)[i]
      requires Extends(s0, Snap()) && n.Keys == g.nodes && |g.nodes| < MAXINT
      requires x !in s0.stack && !Done(s0, x) && Held(s0.stack, busy)
      modifies this
      ensures Working(g, Snap(), busy, x, d, i + 1) && Extends(s0, Snap()) && n.Keys == g.nodes
      ensures |Unmarked(g, n)| <= |Unmarked(g, old(n))|
      decreases |Unmarked(g, n)|, 1
    {
      hide Inv, Working, Reaches, Extends, Unmarked, Returned, Union;
      ghost var s := Snap();
      WorkingParts(g, s, busy, x, d, i);
      if n[y] == 0 {
        StackReachesNext(g, s, busy, x, d, i);
        HeldStill(s0, s, busy, x);
        Traverse(y, g, busy + {x});
      } else {
        AlreadyMarked(g, s, busy + {x}, y);
      }
      ghost var t := Snap();
      ReturnedParts(g, s, t, busy, x, d, i, y);
      n := n[x := Min(n[x], n[y])];
      var m := Merge(f[x], f[y]);
      f := f[x := m];
      NextEdge(g, s, t, busy, x, d, i, m);
      ExtendsTrans(s0, s, t);
      FollowExtends(s0, t, x, y, m);
      FollowUnmarked(g, s, t, x, y, m);
    }

    /** The end of traverse: pops the component if x is its root. */
    method Finish(x: Node, d: nat, ghost g: Graph, ghost busy: set<Node>, ghost s0: State)
      requires Working(g, Snap(), busy, x, d, |g.r(x)|) && Inv(g, s0, busy) && Extends(s0, Snap())
      requires |s0.stack| == d - 1 && s0.n.Keys == g.nodes == n.Keys
      modifies this
      ensures Returned(g, s0, Snap(), busy, x) && n.Keys == g.nodes
      ensures n[x] == MAXINT || n[x] <= |s0.stack|
    {
      hide Inv, Extends, Shaped, Linked, Popped, Working;
      ghost var s := Snap();
      WorkingMark(g, s, busy, x, d, |g.r(x)|);
      if n[x] == d {
        PopInv(g, s0, s, busy, x, d);
        PoppedStack(s, d - 1, f[x]);
        PopThrough(x, g, busy, d);
      } else {
        StayWaiting(g, s, busy, x, d);
      }
    }

    /** Takes the top entry off, finished, with x's list. */
    method PopTop(x: Node) returns (element: Node)
      requires |stack| > 0 && x in f
      modifies this
      ensures element == old(stack[|stack| - 1]) && x in f && f[x] == old(f[x])
      ensures Snap() == State(old(n)[element := MAXINT], old(stack)[..|old(stack)| - 1], old(f)[element := old(f)[x]], old(depth))
    {
      element := stack[|stack| - 1];
      n := n[element := MAXINT];
      f := f[element := f[x]];
      stack := stack[..|stack| - 1];
    }
  }

  lemma RootEntries(g: Graph, s: State, busy: set<Node>, x: Node, d: nat)
    requires Root(g, s, busy, x, d)
    ensures s.stack[d - 1] == x && forall i :: 0 <= i < |s.stack| ==> s.stack[i] in s.n && s.stack[i] in s.f
    ensures forall i :: d <= i < |s.stack| ==> s.stack[i] != x
  {
    hide Finished, Shared, Chained, Settled, Linked, Under;
    forall i | 0 <= i < |s.stack|
      ensures s.stack[i] in s.n && s.stack[i] in s.f
    {
      assert Entry(g, s, i);
    }
  }

  lemma Room(g: Graph, s: State, busy: set<Node>, x: Node)
    requires Inv(g, s, busy) && x in g.nodes && x in s.n && s.n[x] == 0 && |g.nodes| < MAXINT
    ensures |s.stack| + 1 < MAXINT && x !in s.stack && !Done(s, x)
  {
    hide Finished, Shared, Chained, Settled;
    StackBound(g, s, x);
    if x in s.stack {
      EntryAt(g, s, x);
    }
  }

  lemma PushedParts(g: Graph, s: State, x: Node)
    ensures var t := Pushed(g, s, x);
            t == State(s.n[x := |s.stack| + 1], s.stack + [x], s.f[x := g.fp(x)], s.depth[x := |s.stack| + 1])
  {
  }

  lemma WorkingParts(g: Graph, s: State, busy: set<Node>, x: Node, d: nat, i: nat)
    requires Working(g, s, busy, x, d, i) && i < |g.r(x)|
    ensures Inv(g, s, busy + {x}) && x in s.n && x in s.f && g.r(x)[i] in g.nodes && x in s.stack && s.n[x] > 0
    ensures g.r(x)[i] in s.n
  {
    hide Finished, Shared, Chained, Settled, Linked;
    assert Entry(g, s, d - 1);
  }

  lemma HeldStill(s0: State, s: State, busy: set<Node>, x: Node)
    requires Extends(s0, s) && Held(s0.stack, busy) && x in s.stack
    ensures Held(s.stack, busy + {x})
  {
  }

  lemma WorkingMark(g: Graph, s: State, busy: set<Node>, x: Node, d: nat, i: nat)
    requires Working(g, s, busy, x, d, i)
    ensures 1 <= d <= |s.stack| && s.stack[d - 1] == x && x in s.n && x in s.f && 0 < s.n[x] <= d
  {
    hide Finished, Shared, Chained, Settled, Linked;
    assert Entry(g, s, d - 1);
  }

  lemma ReturnedParts(g: Graph, s: State, t: State, busy: set<Node>, x: Node, d: nat, i: nat, y: Node)
    requires Working(g, s, busy, x, d, i) && Returned(g, s, t, busy + {x}, y)
    ensures Extends(s, t) && x in t.n && x in t.f && y in t.n && y in t.f && t.n[x] > 0 && t.n[y] > 0
  {
    hide Finished, Shared, Chained, Settled, Linked, Inv;
    WorkingMark(g, s, busy, x, d, i);
    assert x in s.stack && Kept(s, t, x);
  }

  lemma ExtendsTrans(s: State, t: State, u: State)
    requires Extends(s, t) && Extends(t, u)
    ensures Extends(s, u)
  {
    assert u.stack[..|s.stack|] == u.stack[..|t.stack|][..|s.stack|];
    forall v | v in s.stack || Done(s, v)
      ensures Kept(s, u, v)
    {
      assert Kept(s, t, v);
      if v in s.stack {
        var i :| 0 <= i < |s.stack| && s.stack[i] == v;
        assert t.stack[..|s.stack|][i] == v;
      }
      assert Kept(t, u, v);
    }
  }

  lemma FollowExtends(s: State, t: State, x: Node, y: Node, m: seq<Elem>)
    requires Extends(s, t) && x !in s.stack && !Done(s, x) && x in t.n && y in t.n && t.n[x] > 0 && t.n[y] > 0
    ensures Extends(s, Followed(t, x, y, m))
  {
  }

  lemma FollowUnmarked(g: Graph, s: State, t: State, x: Node, y: Node, m: seq<Elem>)
    requires Extends(s, t) && x in t.n && y in t.n && t.n[x] > 0 && t.n[y] > 0 && s.n.Keys == g.nodes
    ensures |Unmarked(g, Followed(t, x, y, m).n)| <= |Unmarked(g, s.n)|
  {
    SubsetCount(Unmarked(g, Followed(t, x, y, m).n), Unmarked(g, s.n));
  }

  lemma Initial(g: Graph, s: State)
    requires Closed(g) && s.n.Keys == g.nodes && (forall v :: v in s.n ==> s.n[v] == 0) && s.stack == []
    ensures Inv(g, s, {})
  {
  }

  /** With nothing under it, a node cannot be left waiting. */
  lemma MarkPositive(g: Graph, s: State, t: State, busy: set<Node>, x: Node)
    requires Returned(g, s, t, busy, x) && s.stack == [] && (t.n[x] == MAXINT || t.n[x] <= 0)
    ensures Done(t, x) && t.stack == []
  {
    hide Finished, Shared, Chained, Settled;
    if t.stack != [] {
      var v := t.stack[0];
      EntryAt(g, t, v);
    }
  }

  /** digraph */
  method Digraph(xs: seq<Node>, g: Graph) returns (f: map<Node, seq<Elem>>)
    requires g.nodes == (set x | x in xs) && Closed(g) && |xs| < MAXINT
    ensures forall x :: x in xs ==> x in f && Exact(g, f[x], x)
    ensures forall x, y :: x in xs && y in xs && Reaches(g, x, y) && Reaches(g, y, x) ==> f[x] == f[y]
  {
    hide Inv, Extends, Returned, Reaches, Exact;
    var t := new Traversal(xs);
    Initial(g, t.Snap());
    NodeCount(xs);
    for i := 0 to |xs|
      invariant Inv(g, t.Snap(), {}) && t.n.Keys == g.nodes && t.stack == []
      invariant forall k :: 0 <= k < i ==> Done(t.Snap(), xs[k])
    {
      if t.n[xs[i]] == 0 {
        ghost var s := t.Snap();
        t.Traverse(xs[i], g, {});
        MarkPositive(g, s, t.Snap(), {}, xs[i]);
        ReturnedKeeps(g, s, t.Snap(), {}, xs[i]);
      } else {
        MarkedIsDone(g, t.Snap(), xs[i]);
      }
    }
    f := t.f;
    AllExact(g, t.Snap(), xs);
  }

  lemma {:induction false} NodeCount(xs: seq<Node>)
    ensures |set x | x in xs| <= |xs|
  {
    if |xs| > 0 {
      var last := |xs| - 1;
      NodeCount(xs[..last]);
      assert (set x | x in xs) == (set x | x in xs[..last]) + {xs[last]};
    }
  }

  lemma ReturnedKeeps(g: Graph, s: State, t: State, busy: set<Node>, x: Node)
    requires Returned(g, s, t, busy, x)
    ensures Inv(g, t, busy) && forall v :: Done(s, v) ==> Done(t, v)
  {
  }

  lemma MarkedIsDone(g: Graph, s: State, x: Node)
    requires Inv(g, s, {}) && s.stack == [] && x in g.nodes && x in s.n && s.n[x] != 0
    ensures Done(s, x)
  {
  }

  lemma AllExact(g: Graph, s: State, xs: seq<Node>)
    requires Inv(g, s, {}) && (forall k :: 0 <= k < |xs| ==> Done(s, xs[k])) && g.nodes == (set x | x in xs)
    ensures forall x :: x in xs ==> x in s.f && Exact(g, s.f[x], x)
    ensures forall x, y :: x in xs && y in xs && Reaches(g, x, y) && Reaches(g, y, x) ==> s.f[x] == s.f[y]
  {
  }
}
