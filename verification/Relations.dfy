/** Unions over reachable nodes: the relation, its closure and the state of the traversal
    (bin/ply/yacc.py, 1882-1928). */
module Relations {
  /** Transitions of the parser automaton, or any other nodes. */
  type Node(==, !new)

  /** Terminals, or any other elements. */
  type Elem(==, !new)

  /** A relation on nodes and a list-valued function on them. */
  datatype Graph = Graph(nodes: set<Node>, r: Node -> seq<Node>, fp: Node -> seq<Elem>)

  ghost predicate Closed(g: Graph) {
    forall v, w :: v in g.nodes && w in g.r(v) ==> w in g.nodes
  }

  /** y is k steps from x. */
  ghost predicate StepsTo(g: Graph, x: Node, y: Node, k: nat) {
    if k == 0 then x == y else exists z :: z in g.r(x) && StepsTo(g, z, y, k - 1)
  }

  ghost predicate Reaches(g: Graph, x: Node, y: Node) {
    exists k :: StepsTo(g, x, y, k)
  }

  lemma ReachesSelf(g: Graph, x: Node)
    ensures Reaches(g, x, x)
  {
    assert StepsTo(g, x, x, 0);
  }

  lemma ReachesStep(g: Graph, x: Node, z: Node, y: Node)
    requires z in g.r(x) && Reaches(g, z, y)
    ensures Reaches(g, x, y)
  {
    var k: nat :| StepsTo(g, z, y, k);
    assert StepsTo(g, x, y, k + 1);
  }

  lemma {:induction false} StepsConcat(g: Graph, x: Node, y: Node, z: Node, k: nat)
    requires StepsTo(g, x, y, k) && Reaches(g, y, z)
    ensures Reaches(g, x, z)
    decreases k
  {
    if k > 0 {
      var w :| w in g.r(x) && StepsTo(g, w, y, k - 1);
      StepsConcat(g, w, y, z, k - 1);
      ReachesStep(g, x, w, z);
    }
  }

  lemma ReachesTrans(g: Graph, x: Node, y: Node, z: Node)
    requires Reaches(g, x, y) && Reaches(g, y, z)
    ensures Reaches(g, x, z)
  {
    var k: nat :| StepsTo(g, x, y, k);
    StepsConcat(g, x, y, z, k);
  }

  /** a belongs to fp of some node reachable from x. */
  ghost predicate Member(g: Graph, a: Elem, x: Node) {
    exists y :: Reaches(g, x, y) && a in g.fp(y)
  }

  lemma MemberBack(g: Graph, a: Elem, x: Node, y: Node)
    requires Reaches(g, x, y) && Member(g, a, y)
    ensures Member(g, a, x)
  {
    var z :| Reaches(g, y, z) && a in g.fp(z);
    ReachesTrans(g, x, y, z);
  }

  /** The list holds exactly the members for x: the union of fp over the nodes x reaches. */
  ghost predicate Exact(g: Graph, l: seq<Elem>, x: Node) {
    forall a :: a in l <==> Member(g, a, x)
  }

  ghost predicate Within(l: seq<Elem>, m: seq<Elem>) {
    forall a :: a in l ==> a in m
  }

  lemma WithinTrans(l: seq<Elem>, m: seq<Elem>, n: seq<Elem>)
    requires Within(l, m) && Within(m, n)
    ensures Within(l, n)
  {
  }

  // ---- the state of a traversal -----------------------------------------------------------------

  /** The marks, the stack and the results, with the depth at which each node was pushed. */
  datatype State = State(n: map<Node, int>, stack: seq<Node>, f: map<Node, seq<Elem>>, depth: map<Node, int>)

  const MAXINT: int := 0x7fffffffffffffff

  ghost predicate Done(s: State, v: Node) {
    v in s.n && s.n[v] == MAXINT
  }

  /** Every node is unmarked, done or on the stack; stack entries know their depth. */
  ghost predicate Shaped(g: Graph, s: State) {
    |s.stack| < MAXINT &&
    (forall v :: v in g.nodes ==> v in s.n && (s.n[v] == 0 || s.n[v] == MAXINT || v in s.stack)) &&
    forall i :: 0 <= i < |s.stack| ==> Entry(g, s, i)
  }

  ghost predicate Entry(g: Graph, s: State, i: int)
    requires 0 <= i < |s.stack|
  {
    var v := s.stack[i];
    v in g.nodes && v in s.n && v in s.f && v in s.depth && s.depth[v] == i + 1 && 1 <= s.n[v] <= i + 1
  }

  /** Finished nodes hold their union, and so do their successors. */
  ghost predicate Finished(g: Graph, s: State) {
    forall v :: v in g.nodes && Done(s, v) ==> Final(g, s, v)
  }

  ghost predicate Final(g: Graph, s: State, v: Node) {
    v in s.f && Exact(g, s.f[v], v) && forall w :: w in g.r(v) ==> Done(s, w)
  }

  /** Finished nodes that reach each other hold the same list. */
  ghost predicate Shared(g: Graph, s: State) {
    forall v, w :: v in g.nodes && w in g.nodes && Done(s, v) && Done(s, w) && Reaches(g, v, w) && Reaches(g, w, v) ==>
      Same(s, v, w)
  }

  ghost predicate Same(s: State, v: Node, w: Node) {
    v in s.f && w in s.f && s.f[v] == s.f[w]
  }

  /** Stack entries reach all later ones and the entry their mark names; what they hold so far is
      right and includes their own part. */
  ghost predicate Chained(g: Graph, s: State)
    requires Shaped(g, s)
  {
    (forall i, j :: 0 <= i <= j < |s.stack| ==> Reaches(g, s.stack[i], s.stack[j])) &&
    forall i :: 0 <= i < |s.stack| ==> Partly(g, s, i)
  }

  ghost predicate Partly(g: Graph, s: State, i: int)
    requires Shaped(g, s) && 0 <= i < |s.stack|
  {
    var v := s.stack[i];
    assert Entry(g, s, i);
    Reaches(g, v, s.stack[s.n[v] - 1]) && Within(g.fp(v), s.f[v]) && forall a :: a in s.f[v] ==> Member(g, a, v)
  }

  /** Edge v -> w has been followed: a finished w's union is in, a stacked w bounds v's mark. */
  ghost predicate Linked(s: State, v: Node, w: Node) {
    v in s.n && v in s.f && w in s.n && w in s.f && s.n[w] != 0 &&
    if s.n[w] == MAXINT then Within(s.f[w], s.f[v]) else w in s.depth && s.n[v] <= s.depth[w]
  }

  /** Entries no longer being worked on have followed all their edges and lie above their mark. */
  ghost predicate Settled(g: Graph, s: State, busy: set<Node>) {
    forall i :: 0 <= i < |s.stack| && s.stack[i] !in busy ==> Waiting(g, s, i)
  }

  ghost predicate Waiting(g: Graph, s: State, i: int)
    requires 0 <= i < |s.stack|
  {
    var v := s.stack[i];
    v in s.n && s.n[v] < i + 1 && forall w :: w in g.r(v) ==> Linked(s, v, w)
  }

  ghost predicate Inv(g: Graph, s: State, busy: set<Node>) {
    Closed(g) && Shaped(g, s) && Finished(g, s) && Shared(g, s) && Chained(g, s) && Settled(g, s, busy)
  }

  /** What a call leaves alone: the old stack and its entries, and finished nodes. */
  ghost predicate Extends(s: State, t: State) {
    |s.stack| <= |t.stack| && t.stack[..|s.stack|] == s.stack &&
    (forall v :: v in s.stack || Done(s, v) ==> Kept(s, t, v)) &&
    (forall v :: v in s.n ==> v in t.n) &&
    forall v :: v in s.n && t.n[v] == 0 ==> s.n[v] == 0
  }

  ghost predicate Kept(s: State, t: State, v: Node) {
    v in s.n && v in t.n && t.n[v] == s.n[v] &&
    (v in s.f ==> v in t.f && t.f[v] == s.f[v]) &&
    (v in s.depth ==> v in t.depth && t.depth[v] == s.depth[v])
  }

  // ---- facts about a valid state ---------------------------------------------------------------------

  lemma EntryAt(g: Graph, s: State, v: Node)
    requires Shaped(g, s) && v in s.stack
    ensures v in g.nodes && v in s.n && v in s.f && v in s.depth && 1 <= s.depth[v] <= |s.stack|
    ensures s.stack[s.depth[v] - 1] == v && 1 <= s.n[v] <= s.depth[v] < MAXINT
  {
    var i :| 0 <= i < |s.stack| && s.stack[i] == v;
    assert Entry(g, s, i);
  }

  /** A marked node is done or on the stack. */
  lemma Marked(g: Graph, s: State, v: Node)
    requires Shaped(g, s) && v in g.nodes && s.n[v] != 0
    ensures Done(s, v) || v in s.stack
  {
  }

  lemma LinkKept(g: Graph, s: State, t: State, v: Node, w: Node)
    requires Shaped(g, s) && Extends(s, t) && v in s.stack && w in g.nodes && Linked(s, v, w)
    ensures Linked(t, v, w)
  {
    hide Shaped;
    Marked(g, s, w);
    assert Kept(s, t, v) && Kept(s, t, w);
  }

  /** Entries of the old stack stay settled. */
  lemma WaitingKept(g: Graph, s: State, t: State, i: int)
    requires Closed(g) && Shaped(g, s) && Extends(s, t) && 0 <= i < |s.stack| && Waiting(g, s, i)
    ensures Waiting(g, t, i)
  {
    hide Shaped, Linked;
    var v := s.stack[i];
    EntryAt(g, s, v);
    assert t.stack[i] == t.stack[..|s.stack|][i] == v;
    assert Kept(s, t, v);
    forall w | w in g.r(v)
      ensures Linked(t, v, w)
    {
      LinkKept(g, s, t, v, w);
    }
  }

  // ---- pushing a node -----------------------------------------------------------------------------------

  function Pushed(g: Graph, s: State, x: Node): State {
    var d := |s.stack| + 1;
    State(s.n[x := d], s.stack + [x], s.f[x := g.fp(x)], s.depth[x := d])
  }

  lemma PushExtends(g: Graph, s: State, x: Node)
    requires Shaped(g, s) && x in g.nodes && s.n[x] == 0
    ensures Extends(s, Pushed(g, s, x)) && x !in s.stack
  {
    hide Shaped;
    var t := Pushed(g, s, x);
    assert t.stack[..|s.stack|] == s.stack;
    if x in s.stack {
      EntryAt(g, s, x);
    }
    forall v | v in s.stack || Done(s, v)
      ensures Kept(s, t, v)
    {
      if v in s.stack {
        EntryAt(g, s, v);
      }
    }
  }

  lemma PushShaped(g: Graph, s: State, x: Node)
    requires Shaped(g, s) && x in g.nodes && s.n[x] == 0 && |s.stack| + 1 < MAXINT
    ensures Shaped(g, Pushed(g, s, x))
  {
    PushExtends(g, s, x);
    var t := Pushed(g, s, x);
    forall i | 0 <= i < |t.stack|
      ensures Entry(g, t, i)
    {
      if i < |s.stack| {
        assert Entry(g, s, i) && s.stack[i] in s.stack;
      }
    }
    forall v | v in g.nodes
      ensures v in t.n && (t.n[v] == 0 || t.n[v] == MAXINT || v in t.stack)
    {
      if v in s.stack {
      }
    }
  }

  lemma PushFinished(g: Graph, s: State, x: Node)
    requires Closed(g) && Shaped(g, s) && Finished(g, s) && x in g.nodes && s.n[x] == 0 && |s.stack| + 1 < MAXINT
    ensures Finished(g, Pushed(g, s, x))
  {
    hide Shaped, Exact;
    PushExtends(g, s, x);
    var t := Pushed(g, s, x);
    forall v | v in g.nodes && Done(t, v)
      ensures Final(g, t, v)
    {
      assert Done(s, v) && Final(g, s, v);
      forall w | w in g.r(v)
        ensures Done(t, w)
      {
        assert Done(s, w) && Kept(s, t, w);
      }
    }
  }

  /** No node becomes finished and no finished node changes. */
  ghost predicate NoneFinished(g: Graph, s: State, t: State) {
    forall v :: v in g.nodes && Done(t, v) ==> Done(s, v) && (v in s.f ==> v in t.f && t.f[v] == s.f[v])
  }

  lemma SharedKept(g: Graph, s: State, t: State)
    requires Shared(g, s) && NoneFinished(g, s, t)
    ensures Shared(g, t)
  {
    hide Reaches;
    forall v, w | v in g.nodes && w in g.nodes && Done(t, v) && Done(t, w) && Reaches(g, v, w) && Reaches(g, w, v)
      ensures Same(t, v, w)
    {
      assert Same(s, v, w);
    }
  }

  lemma PushNoneFinished(g: Graph, s: State, x: Node)
    requires Shaped(g, s) && x in g.nodes && s.n[x] == 0 && |s.stack| + 1 < MAXINT
    ensures NoneFinished(g, s, Pushed(g, s, x))
  {
  }

  lemma FollowNoneFinished(g: Graph, s: State, x: Node, y: Node, m: seq<Elem>)
    requires Shaped(g, s) && x in s.stack && x in s.n && y in s.n
    ensures NoneFinished(g, s, Followed(s, x, y, m))
  {
    hide Shaped;
    EntryAt(g, s, x);
  }

  lemma PushChained(g: Graph, s: State, x: Node)
    requires Shaped(g, s) && Chained(g, s) && x in g.nodes && s.n[x] == 0 && Shaped(g, Pushed(g, s, x))
    requires forall i :: 0 <= i < |s.stack| ==> Reaches(g, s.stack[i], x)
    ensures Chained(g, Pushed(g, s, x))
  {
    hide Shaped, Reaches, Member;
    PushExtends(g, s, x);
    var t := Pushed(g, s, x);
    ReachesSelf(g, x);
    forall i | 0 <= i < |t.stack|
      ensures Partly(g, t, i)
    {
      if i < |s.stack| {
        PartlyKept(g, s, t, i);
      } else {
        OwnPart(g, x);
      }
    }
  }

  lemma OwnPart(g: Graph, x: Node)
    ensures forall a :: a in g.fp(x) ==> Member(g, a, x)
  {
    ReachesSelf(g, x);
  }

  lemma PartlyKept(g: Graph, s: State, t: State, i: int)
    requires Shaped(g, s) && Shaped(g, t) && Extends(s, t) && 0 <= i < |s.stack| && Partly(g, s, i)
    ensures Partly(g, t, i)
  {
    hide Shaped, Reaches, Member;
    var v := s.stack[i];
    EntryAt(g, s, v);
    PrefixAt(s, t, i);
    PrefixAt(s, t, s.n[v] - 1);
    assert Kept(s, t, v);
  }

  lemma PrefixAt(s: State, t: State, i: int)
    requires Extends(s, t) && 0 <= i < |s.stack|
    ensures t.stack[i] == s.stack[i]
  {
    assert t.stack[..|s.stack|][i] == s.stack[i];
  }

  lemma PushSettled(g: Graph, s: State, x: Node, busy: set<Node>)
    requires Closed(g) && Shaped(g, s) && Settled(g, s, busy) && x in g.nodes && s.n[x] == 0
    ensures Settled(g, Pushed(g, s, x), busy + {x})
  {
    hide Shaped, Waiting;
    PushExtends(g, s, x);
    var t := Pushed(g, s, x);
    forall i | 0 <= i < |t.stack| && t.stack[i] !in busy + {x}
      ensures Waiting(g, t, i)
    {
      WaitingKept(g, s, t, i);
    }
  }

  /** Starting work on an unmarked node that all of the stack reaches. */
  lemma PushInv(g: Graph, s: State, x: Node, busy: set<Node>)
    requires Inv(g, s, busy) && x in g.nodes && s.n[x] == 0 && |s.stack| + 1 < MAXINT
    requires forall i :: 0 <= i < |s.stack| ==> Reaches(g, s.stack[i], x)
    ensures Inv(g, Pushed(g, s, x), busy + {x}) && Extends(s, Pushed(g, s, x))
  {
    hide Shaped, Finished, Shared, Chained, Settled, Extends, Reaches, NoneFinished;
    PushExtends(g, s, x);
    PushNoneFinished(g, s, x);
    SharedKept(g, s, Pushed(g, s, x));
    PushShaped(g, s, x);
    PushFinished(g, s, x);
    PushChained(g, s, x);
    PushSettled(g, s, x, busy);
  }

  // ---- following an edge ---------------------------------------------------------------------------------

  function Min(a: int, b: int): int {
    if b < a then b else a
  }

  /** x takes over y's mark if smaller, and a list m that holds both lists. */
  function Followed(s: State, x: Node, y: Node, m: seq<Elem>): State
    requires x in s.n && y in s.n
  {
    s.(n := s.n[x := Min(s.n[x], s.n[y])], f := s.f[x := m])
  }

  ghost predicate Union(m: seq<Elem>, a: seq<Elem>, b: seq<Elem>) {
    forall e :: e in m <==> e in a || e in b
  }

  lemma FollowShaped(g: Graph, s: State, x: Node, y: Node, m: seq<Elem>)
    requires Shaped(g, s) && x in s.stack && y in g.nodes && s.n[y] != 0
    ensures x in s.n && Shaped(g, Followed(s, x, y, m))
  {
    EntryAt(g, s, x);
    if y in s.stack {
      EntryAt(g, s, y);
    }
    var t := Followed(s, x, y, m);
    forall i | 0 <= i < |t.stack|
      ensures Entry(g, t, i)
    {
      assert Entry(g, s, i);
    }
  }

  lemma FollowFinished(g: Graph, s: State, x: Node, y: Node, m: seq<Elem>)
    requires Shaped(g, s) && Finished(g, s) && x in s.stack && y in s.n && s.n[y] != 0
    ensures x in s.n && Finished(g, Followed(s, x, y, m))
  {
    hide Exact, Shaped;
    EntryAt(g, s, x);
    if y in s.stack {
      EntryAt(g, s, y);
    }
    var t := Followed(s, x, y, m);
    forall v | v in g.nodes && Done(t, v)
      ensures Final(g, t, v)
    {
      assert v != x && Done(s, v) && Final(g, s, v);
    }
  }

  lemma FollowChained(g: Graph, s: State, x: Node, y: Node, m: seq<Elem>)
    requires Shaped(g, s) && Finished(g, s) && Chained(g, s) && x in s.stack && y in g.r(x) && y in g.nodes && s.n[y] != 0
    requires x in s.f && y in s.f && x in s.n && y in s.n && Union(m, s.f[x], s.f[y]) && Shaped(g, Followed(s, x, y, m))
    ensures Chained(g, Followed(s, x, y, m))
  {
    hide Shaped, Reaches, Member;
    var t := Followed(s, x, y, m);
    forall i | 0 <= i < |t.stack|
      ensures Partly(g, t, i)
    {
      assert Partly(g, s, i);
      if s.stack[i] == x {
        FollowPartly(g, s, x, y, m, i);
      }
    }
  }

  lemma FollowPartly(g: Graph, s: State, x: Node, y: Node, m: seq<Elem>, i: int)
    requires Shaped(g, s) && Finished(g, s) && Chained(g, s) && y in g.r(x) && y in g.nodes && s.n[y] != 0
    requires 0 <= i < |s.stack| && s.stack[i] == x && Partly(g, s, i)
    requires x in s.f && y in s.f && x in s.n && y in s.n && Union(m, s.f[x], s.f[y]) && Shaped(g, Followed(s, x, y, m))
    ensures Partly(g, Followed(s, x, y, m), i)
  {
    hide Shaped, Reaches, Member;
    EntryAt(g, s, x);
    ReachesSelf(g, y);
    ReachesStep(g, x, y, y);
    Marked(g, s, y);
    if y in s.stack {
      EntryAt(g, s, y);
      assert Partly(g, s, s.depth[y] - 1);
      ReachesTrans(g, x, y, s.stack[s.n[y] - 1]);
    } else {
      assert Final(g, s, y);
    }
    forall a | a in s.f[y]
      ensures Member(g, a, x)
    {
      MemberBack(g, a, x, y);
    }
  }

  lemma FollowLinked(g: Graph, s: State, x: Node, y: Node, m: seq<Elem>, v: Node, w: Node)
    requires Shaped(g, s) && x in s.stack && x in s.n && x in s.f && y in s.n && y in s.f && Union(m, s.f[x], s.f[y])
    requires Linked(s, v, w) && s.n[y] > 0
    ensures Linked(Followed(s, x, y, m), v, w)
  {
    hide Shaped;
    EntryAt(g, s, x);
  }

  lemma FollowSettled(g: Graph, s: State, x: Node, y: Node, m: seq<Elem>, busy: set<Node>)
    requires Shaped(g, s) && Settled(g, s, busy) && x in s.stack && x in busy && x in s.n && x in s.f
    requires y in s.n && y in s.f && Union(m, s.f[x], s.f[y]) && s.n[y] > 0
    ensures Settled(g, Followed(s, x, y, m), busy)
  {
    hide Shaped, Linked, Union;
    var t := Followed(s, x, y, m);
    forall i | 0 <= i < |t.stack| && t.stack[i] !in busy
      ensures Waiting(g, t, i)
    {
      assert Waiting(g, s, i);
      var v := s.stack[i];
      forall w | w in g.r(v)
        ensures Linked(t, v, w)
      {
        FollowLinked(g, s, x, y, m, v, w);
      }
    }
  }

  lemma FollowInv(g: Graph, s: State, x: Node, y: Node, m: seq<Elem>, busy: set<Node>)
    requires Inv(g, s, busy) && x in s.stack && x in busy && y in g.r(x) && y in g.nodes && s.n[y] > 0
    requires x in s.n && x in s.f && y in s.n && y in s.f && Union(m, s.f[x], s.f[y])
    ensures Inv(g, Followed(s, x, y, m), busy) && Linked(Followed(s, x, y, m), x, y)
  {
    hide Shaped, Finished, Shared, Chained, Settled, Union, NoneFinished;
    FollowNoneFinished(g, s, x, y, m);
    SharedKept(g, s, Followed(s, x, y, m));
    FollowShaped(g, s, x, y, m);
    FollowFinished(g, s, x, y, m);
    FollowChained(g, s, x, y, m);
    FollowSettled(g, s, x, y, m, busy);
    LinkMade(g, s, x, y, m);
  }

  lemma LinkMade(g: Graph, s: State, x: Node, y: Node, m: seq<Elem>)
    requires Shaped(g, s) && x in s.stack && y in g.nodes && s.n[y] > 0
    requires x in s.n && x in s.f && y in s.n && y in s.f && Union(m, s.f[x], s.f[y])
    ensures Linked(Followed(s, x, y, m), x, y)
  {
    hide Shaped;
    EntryAt(g, s, x);
    Marked(g, s, y);
    if y in s.stack {
      EntryAt(g, s, y);
    }
  }

  // ---- working on a node ------------------------------------------------------------------------------------

  /** x, at depth d, has followed its first i edges; what lies above it is settled, with no smaller
      mark, and its lists are in x's. */
  ghost predicate Working(g: Graph, s: State, busy: set<Node>, x: Node, d: nat, i: nat) {
    Inv(g, s, busy + {x}) && x !in busy && 1 <= d <= |s.stack| && s.stack[d - 1] == x &&
    (forall j :: d <= j < |s.stack| ==> s.stack[j] !in busy + {x}) &&
    (forall j :: d - 1 <= j < |s.stack| ==> Under(s, x, j)) &&
    i <= |g.r(x)| && forall k :: 0 <= k < i ==> Linked(s, x, g.r(x)[k])
  }

  ghost predicate Under(s: State, x: Node, j: int)
    requires 0 <= j < |s.stack|
  {
    var v := s.stack[j];
    x in s.n && x in s.f && v in s.n && v in s.f && s.n[x] <= s.n[v] && Within(s.f[v], s.f[x])
  }

  lemma StartWork(g: Graph, s: State, x: Node, busy: set<Node>)
    requires Inv(g, s, busy) && x in g.nodes && s.n[x] == 0 && |s.stack| + 1 < MAXINT && x !in busy
    requires forall i :: 0 <= i < |s.stack| ==> Reaches(g, s.stack[i], x)
    ensures Working(g, Pushed(g, s, x), busy, x, |s.stack| + 1, 0) && Extends(s, Pushed(g, s, x))
  {
    hide Shaped, Finished, Shared, Chained, Settled, Reaches, Inv, Extends;
    PushInv(g, s, x, busy);
  }

  /** Everything on the stack reaches the node being worked on. */
  lemma {:induction false} StackReaches(g: Graph, s: State, busy: set<Node>, x: Node, d: nat, i: nat, j: nat)
    requires Working(g, s, busy, x, d, i) && j < |s.stack|
    ensures Reaches(g, s.stack[j], x)
    decreases j
  {
    hide Reaches, Shaped, Finished, Shared, Linked, Under;
    if j >= d {
      assert Waiting(g, s, j);
      EntryAt(g, s, s.stack[j]);
      var l := s.n[s.stack[j]] - 1;
      StackReaches(g, s, busy, x, d, i, l);
      assert Partly(g, s, j);
      ReachesTrans(g, s.stack[j], s.stack[l], x);
    }
  }

  lemma StackReachesNext(g: Graph, s: State, busy: set<Node>, x: Node, d: nat, i: nat)
    requires Working(g, s, busy, x, d, i) && i < |g.r(x)|
    ensures forall j :: 0 <= j < |s.stack| ==> Reaches(g, s.stack[j], g.r(x)[i])
  {
    hide Reaches, Working;
    var y := g.r(x)[i];
    ReachesSelf(g, y);
    ReachesStep(g, x, y, y);
    forall j | 0 <= j < |s.stack|
      ensures Reaches(g, s.stack[j], y)
    {
      StackReaches(g, s, busy, x, d, i, j);
      ReachesTrans(g, s.stack[j], x, y);
    }
  }

  /** What a call on y, or finding y marked, leaves: new entries are settled and under y. */
  ghost predicate Returned(g: Graph, s: State, t: State, busy: set<Node>, y: Node) {
    Inv(g, t, busy) && Extends(s, t) && y in t.n && t.n[y] > 0 && y in t.f &&
    forall j :: |s.stack| <= j < |t.stack| ==> t.stack[j] !in busy && Under(t, y, j)
  }

  lemma AlreadyMarked(g: Graph, s: State, busy: set<Node>, y: Node)
    requires Inv(g, s, busy) && y in g.nodes && s.n[y] != 0
    ensures Returned(g, s, s, busy, y)
  {
    hide Chained, Settled, Shared;
    Marked(g, s, y);
    if y in s.stack {
      EntryAt(g, s, y);
    } else {
      assert Final(g, s, y);
    }
    assert s.stack[..|s.stack|] == s.stack;
    forall v | v in s.stack || Done(s, v)
      ensures Kept(s, s, v)
    {
      if v in s.stack {
        EntryAt(g, s, v);
      }
    }
  }

  lemma FollowUnder(s: State, t: State, x: Node, y: Node, m: seq<Elem>, j: int)
    requires 0 <= j < |t.stack| && x in t.n && x in t.f && y in t.n && y in t.f && Union(m, t.f[x], t.f[y])
    requires Under(t, x, j) || Under(t, y, j)
    ensures Under(Followed(t, x, y, m), x, j)
  {
  }

  lemma UnderKept(g: Graph, s: State, t: State, x: Node, j: int)
    requires Shaped(g, s) && Extends(s, t) && 0 <= j < |s.stack| && x in s.stack && Under(s, x, j)
    ensures j < |t.stack| && Under(t, x, j)
  {
    hide Shaped;
    PrefixAt(s, t, j);
    EntryAt(g, s, s.stack[j]);
    assert Kept(s, t, s.stack[j]) && Kept(s, t, x);
  }

  /** One more edge followed. */
  lemma NextEdge(g: Graph, s: State, t: State, busy: set<Node>, x: Node, d: nat, i: nat, m: seq<Elem>)
    requires Working(g, s, busy, x, d, i) && i < |g.r(x)| && Returned(g, s, t, busy + {x}, g.r(x)[i])
    requires x in t.n && x in t.f && Union(m, t.f[x], t.f[g.r(x)[i]])
    ensures Working(g, Followed(t, x, g.r(x)[i], m), busy, x, d, i + 1)
  {
    hide Shaped, Finished, Shared, Chained, Settled, Under, Linked, Union, Extends;
    var y := g.r(x)[i];
    assert x in s.stack && x in g.nodes by { EntryAt(g, s, x); }
    PrefixAt(s, t, d - 1);
    StackLonger(s, t);
    FollowInv(g, t, x, y, m, busy + {x});
    var u := Followed(t, x, y, m);
    forall j | d <= j < |u.stack|
      ensures u.stack[j] !in busy + {x}
    {
      if j < |s.stack| {
        PrefixAt(s, t, j);
      }
    }
    forall j | d - 1 <= j < |u.stack|
      ensures Under(u, x, j)
    {
      if j < |s.stack| {
        UnderKept(g, s, t, x, j);
      }
      FollowUnder(s, t, x, y, m, j);
    }
    forall k | 0 <= k < i + 1
      ensures Linked(u, x, g.r(x)[k])
    {
      if k < i {
        LinkKept(g, s, t, x, g.r(x)[k]);
        FollowLinked(g, t, x, y, m, x, g.r(x)[k]);
      }
    }
  }

  lemma StackLonger(s: State, t: State)
    requires Extends(s, t)
    ensures |s.stack| <= |t.stack|
  {
  }

  // ---- leaving a node on the stack -------------------------------------------------------------------------

  /** All edges followed and a mark below its depth: the node waits for an entry under it. */
  lemma StayWaiting(g: Graph, s: State, busy: set<Node>, x: Node, d: nat)
    requires Working(g, s, busy, x, d, |g.r(x)|) && x in s.n && s.n[x] < d
    ensures Inv(g, s, busy) && (forall j :: d - 1 <= j < |s.stack| ==> s.stack[j] !in busy && Under(s, x, j))
  {
    hide Finished, Shared, Chained, Under, Linked, Shaped;
    forall i | 0 <= i < |s.stack| && s.stack[i] !in busy
      ensures Waiting(g, s, i)
    {
      if s.stack[i] == x {
        EntryAt(g, s, x);
        SamePlace(g, s, i, d - 1);
      }
    }
  }

  lemma SamePlace(g: Graph, s: State, i: int, j: int)
    requires Shaped(g, s) && 0 <= i < |s.stack| && 0 <= j < |s.stack| && s.stack[i] == s.stack[j]
    ensures i == j
  {
    assert Entry(g, s, i) && Entry(g, s, j);
  }

  // ---- popping a component -----------------------------------------------------------------------------------

  /** The entries above height k leave the stack, finished, all with the list l. */
  function Popped(s: State, k: nat, l: seq<Elem>): State
    requires k <= |s.stack|
  {
    State(map v | v in s.n :: if v in s.stack[k..] then MAXINT else s.n[v], s.stack[..k],
          map v | v in s.f :: if v in s.stack[k..] then l else s.f[v], s.depth)
  }

  /** The root of a component: all edges followed, and the mark is the node's own depth. */
  ghost predicate Root(g: Graph, s: State, busy: set<Node>, x: Node, d: nat) {
    1 <= d <= |s.stack| && x in s.n && x in s.f && s.n[x] == d && Working(g, s, busy, x, d, |g.r(x)|)
  }

  /** Edges from the component stay in it or lead to finished nodes whose lists x has. */
  lemma ComponentEdge(g: Graph, s: State, busy: set<Node>, x: Node, d: nat, j: int, w: Node)
    requires Root(g, s, busy, x, d) && d - 1 <= j < |s.stack| && w in g.r(s.stack[j])
    ensures w in g.nodes && w in s.f
    ensures if w in s.stack then w in s.depth && d <= s.depth[w] <= |s.stack| && s.stack[s.depth[w] - 1] == w
            else Done(s, w) && Within(s.f[w], s.f[x])
  {
    hide Finished, Shared, Chained, Within, Shaped;
    var v := s.stack[j];
    EntryAt(g, s, v);
    assert Under(s, x, j);
    assert Linked(s, v, w) by {
      if v == x {
        var k :| 0 <= k < |g.r(x)| && g.r(x)[k] == w;
      } else {
        assert Waiting(g, s, j);
      }
    }
    Marked(g, s, w);
    if w in s.stack {
      EntryAt(g, s, w);
    } else {
      WithinTrans(s.f[w], s.f[v], s.f[x]);
    }
  }

  lemma {:induction false} ComponentCovers(g: Graph, s: State, busy: set<Node>, x: Node, d: nat, j: int, z: Node, k: nat)
    requires Root(g, s, busy, x, d) && d - 1 <= j < |s.stack| && StepsTo(g, s.stack[j], z, k)
    ensures Within(g.fp(z), s.f[x])
    decreases k
  {
    hide Shaped, Finished, Shared, Chained, Settled, Linked;
    var v := s.stack[j];
    if k == 0 {
      OwnListIn(g, s, busy, x, d, j);
    } else {
      var w :| w in g.r(v) && StepsTo(g, w, z, k - 1);
      ComponentEdge(g, s, busy, x, d, j, w);
      if w in s.stack {
        ComponentCovers(g, s, busy, x, d, s.depth[w] - 1, z, k - 1);
      } else {
        FinishedCovers(g, s, w, z, k - 1);
      }
    }
  }

  lemma OwnListIn(g: Graph, s: State, busy: set<Node>, x: Node, d: nat, j: int)
    requires Root(g, s, busy, x, d) && d - 1 <= j < |s.stack|
    ensures Within(g.fp(s.stack[j]), s.f[x])
  {
    hide Shaped, Finished, Shared, Settled, Linked;
    assert Under(s, x, j) && Partly(g, s, j);
  }

  lemma FinishedCovers(g: Graph, s: State, w: Node, z: Node, k: nat)
    requires Finished(g, s) && Done(s, w) && w in g.nodes && StepsTo(g, w, z, k)
    ensures w in s.f && Within(g.fp(z), s.f[w])
  {
    assert Final(g, s, w);
    assert Reaches(g, w, z);
  }

  /** The root's list is the union for every node of the component. */
  lemma ComponentExact(g: Graph, s: State, busy: set<Node>, x: Node, d: nat, j: int)
    requires Root(g, s, busy, x, d) && d - 1 <= j < |s.stack|
    ensures Exact(g, s.f[x], s.stack[j])
  {
    hide Reaches, Working;
    var v := s.stack[j];
    forall a | Member(g, a, v)
      ensures a in s.f[x]
    {
      var z :| Reaches(g, v, z) && a in g.fp(z);
      var k := StepCount(g, v, z);
      ComponentCovers(g, s, busy, x, d, j, z, k);
    }
    RootReached(g, s, busy, x, d, j);
    forall a | a in s.f[x]
      ensures Member(g, a, v)
    {
      RootSound(g, s, busy, x, d, a);
      MemberBack(g, a, v, x);
    }
  }

  lemma StepCount(g: Graph, x: Node, y: Node) returns (k: nat)
    requires Reaches(g, x, y)
    ensures StepsTo(g, x, y, k)
  {
    k :| StepsTo(g, x, y, k);
  }

  lemma RootReached(g: Graph, s: State, busy: set<Node>, x: Node, d: nat, j: int)
    requires Root(g, s, busy, x, d) && d - 1 <= j < |s.stack|
    ensures Reaches(g, s.stack[j], x)
  {
    hide Working, Reaches;
    StackReaches(g, s, busy, x, d, |g.r(x)|, j);
  }

  lemma RootSound(g: Graph, s: State, busy: set<Node>, x: Node, d: nat, a: Elem)
    requires Root(g, s, busy, x, d) && a in s.f[x]
    ensures Member(g, a, x)
  {
    hide Shaped, Finished, Shared, Settled, Linked, Reaches;
    assert Partly(g, s, d - 1);
  }

  lemma PopAt(g: Graph, s: State, busy: set<Node>, x: Node, d: nat, v: Node)
    requires Root(g, s, busy, x, d) && v in s.n
    ensures v in s.stack ==> v in s.depth
    ensures var t := Popped(s, d - 1, s.f[x]);
            v in t.n &&
            if v in s.stack && s.depth[v] >= d then t.n[v] == MAXINT && v in t.f && t.f[v] == s.f[x]
            else t.n[v] == s.n[v] && (v in s.f ==> v in t.f && t.f[v] == s.f[v])
  {
    hide Finished, Shared, Chained, Settled, Linked, Under, Shaped;
    if v in s.stack {
      EntryAt(g, s, v);
      var k := s.depth[v] - 1;
      if k >= d - 1 {
        assert s.stack[d - 1..][k - (d - 1)] == v;
      } else if v in s.stack[d - 1..] {
        var i :| 0 <= i < |s.stack[d - 1..]| && s.stack[d - 1..][i] == v;
        SamePlace(g, s, k, d - 1 + i);
      }
    }
  }

  lemma PopShaped(g: Graph, s: State, busy: set<Node>, x: Node, d: nat)
    requires Root(g, s, busy, x, d)
    ensures Shaped(g, Popped(s, d - 1, s.f[x]))
  {
    hide Finished, Shared, Chained, Settled, Linked, Under, Popped;
    var t := Popped(s, d - 1, s.f[x]);
    PoppedStack(s, d - 1, s.f[x]);
    forall i | 0 <= i < |t.stack|
      ensures Entry(g, t, i)
    {
      assert Entry(g, s, i);
      PopAt(g, s, busy, x, d, s.stack[i]);
    }
    forall v | v in g.nodes
      ensures v in t.n && (t.n[v] == 0 || t.n[v] == MAXINT || v in t.stack)
    {
      PopAt(g, s, busy, x, d, v);
      if v in s.stack {
        EntryAt(g, s, v);
        if s.depth[v] < d {
          assert t.stack[s.depth[v] - 1] == v;
        }
      }
    }
  }

  lemma PoppedStack(s: State, k: nat, l: seq<Elem>)
    requires k <= |s.stack|
    ensures Popped(s, k, l).stack == s.stack[..k] && Popped(s, k, l).depth == s.depth
    ensures Popped(s, k, l).n.Keys == s.n.Keys && Popped(s, k, l).f.Keys == s.f.Keys
  {
  }

  /** v is on the stack at depth d or above. */
  ghost predicate InComponent(s: State, d: nat, v: Node) {
    v in s.stack && v in s.depth && 1 <= d <= s.depth[v] <= |s.stack| && s.stack[s.depth[v] - 1] == v
  }

  /** After the pop, a node is finished if it was, or if it is in the component. */
  lemma PopDone(g: Graph, s: State, busy: set<Node>, x: Node, d: nat, v: Node)
    requires Root(g, s, busy, x, d) && v in g.nodes
    ensures v in s.n && (Done(Popped(s, d - 1, s.f[x]), v) <==> Done(s, v) || InComponent(s, d, v))
    ensures Done(s, v) ==> !InComponent(s, d, v)
    ensures Done(Popped(s, d - 1, s.f[x]), v) ==>
      v in Popped(s, d - 1, s.f[x]).f && v in s.f &&
      Popped(s, d - 1, s.f[x]).f[v] == if InComponent(s, d, v) then s.f[x] else s.f[v]
  {
    hide Shared, Chained, Settled, Linked, Under, Popped, Exact;
    PopAt(g, s, busy, x, d, v);
    if v in s.stack {
      EntryAt(g, s, v);
    } else if Done(s, v) {
      assert Final(g, s, v);
    }
  }

  lemma PopFinished(g: Graph, s: State, busy: set<Node>, x: Node, d: nat)
    requires Root(g, s, busy, x, d)
    ensures Finished(g, Popped(s, d - 1, s.f[x]))
  {
    hide Shared, Chained, Settled, Linked, Under, Popped, Exact, Shaped;
    var t := Popped(s, d - 1, s.f[x]);
    forall v | v in g.nodes && Done(t, v)
      ensures Final(g, t, v)
    {
      PopDone(g, s, busy, x, d, v);
      if InComponent(s, d, v) {
        ComponentExact(g, s, busy, x, d, s.depth[v] - 1);
      } else {
        assert Final(g, s, v);
      }
      forall w | w in g.r(v)
        ensures Done(t, w)
      {
        if InComponent(s, d, v) {
          ComponentEdge(g, s, busy, x, d, s.depth[v] - 1, w);
        }
        PopDone(g, s, busy, x, d, w);
      }
    }
  }

  /** What a finished node reaches is finished. */
  lemma {:induction false} FinishedClosed(g: Graph, s: State, v: Node, w: Node, k: nat)
    requires Closed(g) && Finished(g, s) && v in g.nodes && Done(s, v) && StepsTo(g, v, w, k)
    ensures Done(s, w)
    decreases k
  {
    hide Exact;
    if k > 0 {
      var u :| u in g.r(v) && StepsTo(g, u, w, k - 1);
      assert Final(g, s, v);
      FinishedClosed(g, s, u, w, k - 1);
    }
  }

  lemma PopShared(g: Graph, s: State, busy: set<Node>, x: Node, d: nat)
    requires Root(g, s, busy, x, d)
    ensures Shared(g, Popped(s, d - 1, s.f[x]))
  {
    hide Chained, Settled, Linked, Under, Popped, Finished, Shaped, Reaches;
    var t := Popped(s, d - 1, s.f[x]);
    forall v, w | v in g.nodes && w in g.nodes && Done(t, v) && Done(t, w) && Reaches(g, v, w) && Reaches(g, w, v)
      ensures Same(t, v, w)
    {
      PopDone(g, s, busy, x, d, v);
      PopDone(g, s, busy, x, d, w);
      if Done(s, v) {
        var k := StepCount(g, v, w);
        FinishedClosed(g, s, v, w, k);
        assert Same(s, v, w);
      } else if Done(s, w) {
        var k := StepCount(g, w, v);
        FinishedClosed(g, s, w, v, k);
      }
    }
  }

  lemma PopChained(g: Graph, s: State, busy: set<Node>, x: Node, d: nat)
    requires Root(g, s, busy, x, d) && Shaped(g, Popped(s, d - 1, s.f[x]))
    ensures Chained(g, Popped(s, d - 1, s.f[x]))
  {
    hide Shared, Settled, Linked, Under, Popped, Finished, Shaped, Reaches, Member;
    var t := Popped(s, d - 1, s.f[x]);
    PoppedStack(s, d - 1, s.f[x]);
    forall i | 0 <= i < |t.stack|
      ensures Partly(g, t, i)
    {
      var v := s.stack[i];
      EntryAt(g, s, v);
      EntryAt(g, t, v);
      assert Partly(g, s, i);
      PopAt(g, s, busy, x, d, v);
    }
  }

  /** The pop restores the stack of the state x was pushed on, and keeps what that state had. */
  lemma PopExtends(g: Graph, s0: State, s: State, busy: set<Node>, x: Node, d: nat)
    requires Shaped(g, s0) && Extends(s0, s) && |s0.stack| == d - 1 && Root(g, s, busy, x, d) && s0.n.Keys == g.nodes
    ensures Extends(s0, Popped(s, d - 1, s.f[x]))
  {
    hide Shared, Chained, Settled, Linked, Under, Popped, Finished, Shaped;
    var t := Popped(s, d - 1, s.f[x]);
    PoppedStack(s, d - 1, s.f[x]);
    assert s.stack[..d - 1] == s0.stack;
    forall v | v in s0.stack || Done(s0, v)
      ensures Kept(s0, t, v)
    {
      assert Kept(s0, s, v);
      PopAt(g, s, busy, x, d, v);
      if v in s0.stack {
        EntryAt(g, s0, v);
      } else if v in s.stack {
        EntryAt(g, s, v);
      }
    }
    forall v | v in s0.n && t.n[v] == 0
      ensures s0.n[v] == 0
    {
      PopAt(g, s, busy, x, d, v);
    }
  }

  lemma PopSettled(g: Graph, s0: State, t: State, busy: set<Node>)
    requires Inv(g, s0, busy) && Extends(s0, t) && t.stack == s0.stack
    ensures Settled(g, t, busy)
  {
    hide Shared, Chained, Finished, Shaped, Waiting;
    forall i | 0 <= i < |t.stack| && t.stack[i] !in busy
      ensures Waiting(g, t, i)
    {
      WaitingKept(g, s0, t, i);
    }
  }

  /** A whole component leaves the stack with its union. */
  lemma PopInv(g: Graph, s0: State, s: State, busy: set<Node>, x: Node, d: nat)
    requires Inv(g, s0, busy) && Extends(s0, s) && |s0.stack| == d - 1 && Root(g, s, busy, x, d) && s0.n.Keys == g.nodes
    ensures Returned(g, s0, Popped(s, d - 1, s.f[x]), busy, x) && Done(Popped(s, d - 1, s.f[x]), x)
  {
    hide Shared, Chained, Settled, Linked, Under, Popped, Finished, Shaped, Extends;
    var t := Popped(s, d - 1, s.f[x]);
    PoppedStack(s, d - 1, s.f[x]);
    PopShaped(g, s, busy, x, d);
    PopFinished(g, s, busy, x, d);
    PopShared(g, s, busy, x, d);
    PopChained(g, s, busy, x, d);
    PopExtends(g, s0, s, busy, x, d);
    SamePrefix(s0, s, d);
    PopSettled(g, s0, t, busy);
    EntryAt(g, s, x);
    SamePlace(g, s, s.depth[x] - 1, d - 1);
    PopDone(g, s, busy, x, d, x);
  }

  lemma SamePrefix(s0: State, s: State, d: nat)
    requires Extends(s0, s) && |s0.stack| == d - 1 <= |s.stack|
    ensures s.stack[..d - 1] == s0.stack
  {
  }
}
