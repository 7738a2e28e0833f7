/** Parse trees, rightmost derivations and the stack of an LR parser. */
module ParseTrees {
  import opened Derivations

  /** What a stack symbol stands for. */
  datatype Tree = Leaf(kind: Symbol) | Node(kind: Symbol, rule: nat, children: seq<Tree>)

  function Kinds(ts: seq<Tree>): (k: seq<Symbol>)
    ensures |k| == |ts| && forall i :: 0 <= i < |ts| ==> k[i] == ts[i].kind
  {
    seq(|ts|, i requires 0 <= i < |ts| => ts[i].kind)
  }

  /** The terminals below a tree, left to right. */
  function Yield(t: Tree): seq<Symbol> {
    match t
    case Leaf(kind) => [kind]
    case Node(_, _, children) => YieldAll(children)
  }

  function YieldAll(ts: seq<Tree>): seq<Symbol> {
    if ts == [] then [] else Yield(ts[0]) + YieldAll(ts[1..])
  }

  lemma {:induction false} YieldConcat(a: seq<Tree>, b: seq<Tree>)
    ensures YieldAll(a + b) == YieldAll(a) + YieldAll(b)
    decreases |a|
  {
    if a == [] {
      assert a + b == b;
    } else {
      YieldConcat(a[1..], b);
      assert (a + b)[1..] == a[1..] + b;
    }
  }

  lemma YieldOne(t: Tree)
    ensures YieldAll([t]) == Yield(t)
  {
  }

  /** Every inner node is an instance of its rule. */
  ghost predicate Valid(prods: seq<Production>, t: Tree) {
    match t
    case Leaf(_) => true
    case Node(kind, rule, children) =>
      rule < |prods| && kind == prods[rule].name && Kinds(children) == prods[rule].prod &&
      forall i :: 0 <= i < |children| ==> Valid(prods, children[i])
  }

  ghost predicate AllValid(prods: seq<Production>, ts: seq<Tree>) {
    forall i :: 0 <= i < |ts| ==> Valid(prods, ts[i])
  }

  // ---- rightmost derivations -----------------------------------------------------------------------

  /** No symbol of u is the name of a rule. */
  ghost predicate NoNames(prods: seq<Production>, u: seq<Symbol>) {
    forall i, p :: 0 <= i < |u| && p in prods ==> u[i] != p.name
  }

  /** v comes from u by expanding its last name. */
  ghost predicate RightStep(prods: seq<Production>, u: seq<Symbol>, v: seq<Symbol>) {
    exists i: nat, p :: Expands(prods, u, v, i, p) && NoNames(prods, u[i + 1..])
  }

  ghost predicate RightDerivesIn(prods: seq<Production>, u: seq<Symbol>, v: seq<Symbol>, k: nat)
    decreases k
  {
    if k == 0 then u == v else exists w :: RightStep(prods, u, w) && RightDerivesIn(prods, w, v, k - 1)
  }

  ghost predicate RightDerives(prods: seq<Production>, u: seq<Symbol>, v: seq<Symbol>) {
    exists k :: RightDerivesIn(prods, u, v, k)
  }

  lemma RightDerivesSelf(prods: seq<Production>, u: seq<Symbol>)
    ensures RightDerives(prods, u, u)
  {
    assert RightDerivesIn(prods, u, u, 0);
  }

  lemma RightDerivesStep(prods: seq<Production>, u: seq<Symbol>, w: seq<Symbol>, v: seq<Symbol>)
    requires RightStep(prods, u, w) && RightDerives(prods, w, v)
    ensures RightDerives(prods, u, v)
  {
    var k: nat :| RightDerivesIn(prods, w, v, k);
    assert RightDerivesIn(prods, u, v, k + 1);
  }

  lemma {:induction false} RightStepsDerive(prods: seq<Production>, u: seq<Symbol>, v: seq<Symbol>, k: nat)
    requires RightDerivesIn(prods, u, v, k)
    ensures Derives(prods, u, v)
    decreases k
  {
    if k == 0 {
      DerivesSelf(prods, u);
    } else {
      var w :| RightStep(prods, u, w) && RightDerivesIn(prods, w, v, k - 1);
      RightStepsDerive(prods, w, v, k - 1);
      assert Step(prods, u, w);
      DerivesStep(prods, u, w, v);
    }
  }

  /** A rightmost derivation is a derivation. */
  lemma RightIsDerivation(prods: seq<Production>, u: seq<Symbol>, v: seq<Symbol>)
    requires RightDerives(prods, u, v)
    ensures Derives(prods, u, v)
  {
    var k: nat :| RightDerivesIn(prods, u, v, k);
    RightStepsDerive(prods, u, v, k);
  }

  // ---- items and tables ---------------------------------------------------------------------------------

  /** A rule with a dot before its symbol number `dot`. */
  datatype Item = Item(rule: nat, dot: nat)

  /** lr_action and lr_goto */
  datatype Tables = Tables(action: map<int, map<Symbol, int>>, goto: map<int, map<Symbol, int>>)

  ghost predicate InRange(prods: seq<Production>, it: Item) {
    it.rule < |prods| && it.dot <= |prods[it.rule].prod|
  }

  /** Going from s to t over x moves the dot over x. */
  ghost predicate Moves(prods: seq<Production>, items: int -> set<Item>, s: int, x: Symbol, t: int) {
    forall it :: it in items(t) ==> MovesTo(prods, items, s, x, it)
  }

  ghost predicate MovesTo(prods: seq<Production>, items: int -> set<Item>, s: int, x: Symbol, it: Item) {
    InRange(prods, it) &&
    (it.dot > 0 ==> prods[it.rule].prod[it.dot - 1] == x && Item(it.rule, it.dot - 1) in items(s))
  }

  /** An entry of the action table: shifts move dots, reductions need a finished item, and the
      input is accepted at its end on the finished start rule. */
  ghost predicate GoodAction(prods: seq<Production>, tables: Tables, items: int -> set<Item>, s: int, x: Symbol, t: int) {
    if t > 0 then x != END && t in tables.action && Moves(prods, items, s, x, t)
    else if t < 0 then -t < |prods| && Item(-t, |prods[-t].prod|) in items(s)
    else x == END && Item(0, 1) in items(s)
  }

  /** The tables follow an assignment of items to states, as the LR generators produce it. */
  ghost predicate Consistent(prods: seq<Production>, tables: Tables, items: int -> set<Item>) {
    |prods| > 0 && |prods[0].prod| == 1 && 0 in tables.action &&
    (forall it :: it in items(0) ==> InRange(prods, it) && it.dot == 0) &&
    (forall s :: Item(0, 0) in items(s) ==> s == 0) &&
    (forall s, x :: s in tables.action && x in tables.action[s] ==> GoodAction(prods, tables, items, s, x, tables.action[s][x])) &&
    (forall s, x :: s in tables.goto && x in tables.goto[s] ==> GoodGoto(prods, tables, items, s, x, tables.goto[s][x])) &&
    forall s, r: nat :: Item(r, 0) in items(s) && 0 < r < |prods| ==> s in tables.goto && prods[r].name in tables.goto[s]
  }

  ghost predicate GoodGoto(prods: seq<Production>, tables: Tables, items: int -> set<Item>, s: int, x: Symbol, t: int) {
    t > 0 && t in tables.action && Moves(prods, items, s, x, t)
  }

  // ---- the stack -----------------------------------------------------------------------------------------

  /** The item of the state at place i is spelled out by the symbols up to there. */
  ghost predicate Spelled(prods: seq<Production>, items: int -> set<Item>, states: seq<int>, kinds: seq<Symbol>, i: nat, it: Item)
    requires i < |states| == |kinds|
  {
    InRange(prods, it) && it.dot <= i && Item(it.rule, 0) in items(states[i - it.dot]) &&
    kinds[i + 1 - it.dot..i + 1] == prods[it.rule].prod[..it.dot]
  }

  ghost predicate AllSpelled(prods: seq<Production>, items: int -> set<Item>, states: seq<int>, kinds: seq<Symbol>) {
    |states| == |kinds| > 0 && states[0] == 0 &&
    (forall i :: 0 < i < |states| ==> states[i] > 0) &&
    forall i, it :: 0 <= i < |states| && it in items(states[i]) ==> Spelled(prods, items, states, kinds, i, it)
  }

  lemma SpelledStart(prods: seq<Production>, tables: Tables, items: int -> set<Item>, kinds: seq<Symbol>)
    requires Consistent(prods, tables, items) && |kinds| == 1
    ensures AllSpelled(prods, items, [0], kinds)
  {
    forall it | it in items(0)
      ensures Spelled(prods, items, [0], kinds, 0, it)
    {
      assert kinds[1..1] == prods[it.rule].prod[..0];
      assert Item(it.rule, 0) == it;
    }
  }

  lemma SpelledPush(prods: seq<Production>, items: int -> set<Item>, states: seq<int>, kinds: seq<Symbol>, x: Symbol, t: int)
    requires AllSpelled(prods, items, states, kinds) && t > 0 && Moves(prods, items, states[|states| - 1], x, t)
    ensures AllSpelled(prods, items, states + [t], kinds + [x])
  {
    hide Spelled;
    var states', kinds' := states + [t], kinds + [x];
    forall i, it | 0 <= i < |states'| && it in items(states'[i])
      ensures Spelled(prods, items, states', kinds', i, it)
    {
      if i < |states| {
        assert Spelled(prods, items, states, kinds, i, it);
        SpelledStays(prods, items, states, kinds, x, t, i, it);
      } else {
        SpelledLast(prods, items, states, kinds, x, t, it);
      }
    }
  }

  lemma SpelledStays(prods: seq<Production>, items: int -> set<Item>, states: seq<int>, kinds: seq<Symbol>, x: Symbol, t: int,
                     i: nat, it: Item)
    requires i < |states| == |kinds| && Spelled(prods, items, states, kinds, i, it)
    ensures Spelled(prods, items, states + [t], kinds + [x], i, it)
  {
    assert (kinds + [x])[i + 1 - it.dot..i + 1] == kinds[i + 1 - it.dot..i + 1];
  }

  lemma SpelledLast(prods: seq<Production>, items: int -> set<Item>, states: seq<int>, kinds: seq<Symbol>, x: Symbol, t: int, it: Item)
    requires AllSpelled(prods, items, states, kinds) && Moves(prods, items, states[|states| - 1], x, t) && it in items(t)
    ensures Spelled(prods, items, states + [t], kinds + [x], |states|, it)
  {
    var n := |states|;
    var states', kinds' := states + [t], kinds + [x];
    assert MovesTo(prods, items, states[n - 1], x, it);
    if it.dot == 0 {
      assert Item(it.rule, 0) == it;
      assert kinds'[n + 1..n + 1] == prods[it.rule].prod[..0];
    } else {
      var before := Item(it.rule, it.dot - 1);
      assert Spelled(prods, items, states, kinds, n - 1, before);
      assert states'[n - it.dot] == states[n - 1 - before.dot];
      assert kinds'[n + 1 - it.dot..n + 1] == kinds[n - before.dot..n] + [x];
      assert prods[it.rule].prod[..it.dot] == prods[it.rule].prod[..before.dot] + [x];
    }
  }

  lemma SpelledPop(prods: seq<Production>, items: int -> set<Item>, states: seq<int>, kinds: seq<Symbol>, m: nat)
    requires AllSpelled(prods, items, states, kinds) && 0 < m <= |states|
    ensures AllSpelled(prods, items, states[..m], kinds[..m])
  {
    forall i, it | 0 <= i < m && it in items(states[..m][i])
      ensures Spelled(prods, items, states[..m], kinds[..m], i, it)
    {
      assert Spelled(prods, items, states, kinds, i, it);
      assert kinds[..m][i + 1 - it.dot..i + 1] == kinds[i + 1 - it.dot..i + 1];
    }
  }

  /** A finished item: its rule's right side is on top of the stack, over a state with the rule's start. */
  lemma SpelledTop(prods: seq<Production>, items: int -> set<Item>, states: seq<int>, kinds: seq<Symbol>, r: nat)
    requires AllSpelled(prods, items, states, kinds) && r < |prods|
    requires Item(r, |prods[r].prod|) in items(states[|states| - 1])
    ensures |prods[r].prod| < |states|
    ensures kinds[|kinds| - |prods[r].prod|..] == prods[r].prod
    ensures Item(r, 0) in items(states[|states| - 1 - |prods[r].prod|])
  {
    var n := |states|;
    var rhs := prods[r].prod;
    assert Spelled(prods, items, states, kinds, n - 1, Item(r, |rhs|));
    assert rhs[..|rhs|] == rhs;
    assert kinds[n - |rhs|..n] == kinds[n - |rhs|..];
  }
}
