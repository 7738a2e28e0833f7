/** Which trees the shift-reduce engine returns (bin/ply/yacc.py, 897-1020): those that the tables
    guide it through, entry by entry. */
module GuidedParses {
  import opened Derivations
  import opened ParseTrees
  import opened LRParser

  /** The symbol the parser looks at when `rest` is still to come. */
  function Next(rest: seq<Symbol>): Symbol {
    if rest == [] then END else rest[0]
  }

  function Last(states: seq<int>): int
    requires |states| > 0
  {
    states[|states| - 1]
  }

  // ---- what the tables say about a tree ----------------------------------------------------------------

  /** The entry of a state for a symbol is the given action. */
  predicate Acts(tables: Tables, s: int, x: Symbol, t: int) {
    s in tables.action && x in tables.action[s] && tables.action[s][x] == t
  }

  /** The entry of a state for a symbol reduces by the given rule. */
  predicate Reduces(tables: Tables, s: int, x: Symbol, rule: int) {
    Acts(tables, s, x, -rule)
  }

  /** The state that the tables put on the stack for tree t when `rest` follows it: a leaf is
      shifted; a node's children are worked through in order, then reduced by its rule. None if
      some entry on the way is missing or says otherwise. */
  ghost function After(tables: Tables, states: seq<int>, t: Tree, rest: seq<Symbol>): Option<int>
    requires |states| > 0
    decreases t
  {
    var s := Last(states);
    match t
    case Leaf(kind) =>
      if s in tables.action && kind in tables.action[s] && tables.action[s][kind] > 0 then Some(tables.action[s][kind])
      else None
    case Node(kind, rule, children) =>
      var all := AfterAll(tables, states, children, rest);
      if all.Some? && rule > 0 && Reduces(tables, Last(all.value), Next(rest), rule) && s in tables.goto && kind in tables.goto[s]
      then Some(tables.goto[s][kind])
      else None
  }

  /** The stack after a row of trees. */
  ghost function AfterAll(tables: Tables, states: seq<int>, ts: seq<Tree>, rest: seq<Symbol>): (r: Option<seq<int>>)
    requires |states| > 0
    ensures r.Some? ==> |r.value| == |states| + |ts| && r.value[..|states|] == states
    decreases ts
  {
    if ts == [] then Some(states)
    else
      var t := After(tables, states, ts[0], YieldAll(ts[1..]) + rest);
      if t.None? then None else AfterAll(tables, states + [t.value], ts[1..], rest)
  }

  /** The tables guide the engine from its start through the tree to an accepting entry. */
  ghost predicate Guided(tables: Tables, tree: Tree) {
    var t := After(tables, [0], tree, []);
    t.Some? && Acts(tables, t.value, END, 0)
  }

  // ---- runs ----------------------------------------------------------------------------------------------

  /** A configuration with its lookahead fetched. */
  function Ready(states: seq<int>, symbols: seq<Tree>, rest: seq<Symbol>): Config {
    Config(states, symbols, Some(Next(rest)), if rest == [] then [] else rest[1..])
  }

  function Start(input: seq<Symbol>): Config {
    Config([0], [Leaf(END)], None, input)
  }

  /** One turn for each leaf and each node. */
  function Turns(t: Tree): nat {
    match t
    case Leaf(_) => 1
    case Node(_, _, children) => TurnsAll(children) + 1
  }

  function TurnsAll(ts: seq<Tree>): nat {
    if ts == [] then 0 else Turns(ts[0]) + TurnsAll(ts[1..])
  }

  lemma {:induction false} RunSplits(prods: seq<Production>, tables: Tables, c: Config, k: nat, more: nat)
    requires |c.states| == |c.symbols| > 0 && RunOf(prods, tables, c, k).0 == Continue
    ensures RunOf(prods, tables, c, k + more) == RunOf(prods, tables, RunOf(prods, tables, c, k).1, more)
    decreases k
  {
    hide TurnOf;
    if k > 0 {
      RunSplits(prods, tables, TurnOf(prods, tables, c).1, k - 1, more);
    }
  }

  /** From c, k turns go on and lead to where the stacks and the rest are as given. */
  ghost predicate Leads(prods: seq<Production>, tables: Tables, c: Config, k: nat, states: seq<int>, symbols: seq<Tree>,
                        rest: seq<Symbol>) {
    |c.states| == |c.symbols| > 0 && RunOf(prods, tables, c, k).0 == Continue &&
    Fetched(RunOf(prods, tables, c, k).1) == Ready(states, symbols, rest)
  }

  lemma LeadsOn(prods: seq<Production>, tables: Tables, c: Config, k: nat, more: nat, states: seq<int>, symbols: seq<Tree>,
                rest: seq<Symbol>)
    requires |c.states| == |c.symbols| > 0 && RunOf(prods, tables, c, k).0 == Continue
    requires Leads(prods, tables, RunOf(prods, tables, c, k).1, more, states, symbols, rest)
    ensures Leads(prods, tables, c, k + more, states, symbols, rest)
  {
    hide RunOf, Fetched;
    RunSplits(prods, tables, c, k, more);
  }

  /** One turn depends on what is fetched. */
  lemma OneTurn(prods: seq<Production>, tables: Tables, c: Config, d: Config)
    requires |c.states| == |c.symbols| > 0 && TurnOf(prods, tables, Fetched(c)) == (Continue, d)
    ensures RunOf(prods, tables, c, 1) == (Continue, d)
  {
    hide ReduceOf;
    assert RunOf(prods, tables, c, 1) == RunOf(prods, tables, d, 0);
  }

  // ---- completeness ----------------------------------------------------------------------------------------

  lemma LeafRun(prods: seq<Production>, tables: Tables, c: Config, states: seq<int>, symbols: seq<Tree>, kind: Symbol,
                rest: seq<Symbol>)
    requires |states| == |symbols| > 0 && Fetched(c) == Ready(states, symbols, [kind] + rest)
    requires After(tables, states, Leaf(kind), rest).Some?
    ensures Leads(prods, tables, c, 1, states + [After(tables, states, Leaf(kind), rest).value], symbols + [Leaf(kind)], rest)
  {
    hide ReduceOf;
    var t := After(tables, states, Leaf(kind), rest).value;
    assert ([kind] + rest)[1..] == rest;
    OneTurn(prods, tables, c, Shifted(Fetched(c), t));
  }

  lemma ReduceRun(prods: seq<Production>, tables: Tables, c: Config, states: seq<int>, symbols: seq<Tree>, rule: nat,
                  children: seq<Tree>, all: seq<int>, rest: seq<Symbol>)
    requires 0 < rule < |prods| && |children| == |prods[rule].prod|
    requires |all| == |states| + |children| && all[..|states|] == states && |states| == |symbols| > 0
    requires Fetched(c) == Ready(all, symbols + children, rest) && Reduces(tables, Last(all), Next(rest), rule)
    requires Last(states) in tables.goto && prods[rule].name in tables.goto[Last(states)]
    ensures Leads(prods, tables, c, 1, states + [tables.goto[Last(states)][prods[rule].name]],
                  symbols + [Node(prods[rule].name, rule, children)], rest)
  {
    var p := prods[rule];
    var f := Fetched(c);
    assert f.symbols[..|states|] == symbols && f.symbols[|states|..] == children;
    assert all[|states| - 1] == all[..|states|][|states| - 1];
    OneTurn(prods, tables, c, Reduced(f, p, rule, tables.goto[Last(states)][p.name]));
  }

  /** The engine works through a valid tree as the tables say, a turn for each leaf and node. */
  lemma {:induction false} TreeRun(prods: seq<Production>, tables: Tables, c: Config, states: seq<int>, symbols: seq<Tree>,
                                   t: Tree, rest: seq<Symbol>)
    requires |states| == |symbols| > 0 && Fetched(c) == Ready(states, symbols, Yield(t) + rest) && Valid(prods, t)
    requires After(tables, states, t, rest).Some?
    ensures Leads(prods, tables, c, Turns(t), states + [After(tables, states, t, rest).value], symbols + [t], rest)
    decreases t
  {
    hide RunOf, Fetched, Leads, AfterAll, Ready;
    match t
    case Leaf(kind) =>
      LeafRun(prods, tables, c, states, symbols, kind, rest);
    case Node(kind, rule, children) =>
      ForestRun(prods, tables, c, states, symbols, children, rest);
      var all := AfterAll(tables, states, children, rest).value;
      LeadsTo(prods, tables, c, TurnsAll(children), all, symbols + children, rest);
      var d := RunOf(prods, tables, c, TurnsAll(children)).1;
      ReduceRun(prods, tables, d, states, symbols, rule, children, all, rest);
      LeadsOn(prods, tables, c, TurnsAll(children), 1, states + [tables.goto[Last(states)][kind]], symbols + [t], rest);
  }

  lemma LeadsTo(prods: seq<Production>, tables: Tables, c: Config, k: nat, states: seq<int>, symbols: seq<Tree>,
                rest: seq<Symbol>)
    requires Leads(prods, tables, c, k, states, symbols, rest)
    ensures |c.states| == |c.symbols| > 0 && RunOf(prods, tables, c, k).0 == Continue
    ensures Fetched(RunOf(prods, tables, c, k).1) == Ready(states, symbols, rest)
  {
  }

  lemma {:induction false} ForestRun(prods: seq<Production>, tables: Tables, c: Config, states: seq<int>, symbols: seq<Tree>,
                                     ts: seq<Tree>, rest: seq<Symbol>)
    requires |states| == |symbols| > 0 && Fetched(c) == Ready(states, symbols, YieldAll(ts) + rest) && AllValid(prods, ts)
    requires AfterAll(tables, states, ts, rest).Some?
    ensures Leads(prods, tables, c, TurnsAll(ts), AfterAll(tables, states, ts, rest).value, symbols + ts, rest)
    decreases ts
  {
    hide RunOf, Fetched, Leads, After, Ready, Valid, Turns, Yield;
    if ts == [] {
      assert [] + rest == rest && symbols + ts == symbols;
      NoTurns(prods, tables, c, states, symbols, rest);
    } else {
      var later := YieldAll(ts[1..]) + rest;
      assert YieldAll(ts) + rest == Yield(ts[0]) + later;
      TreeRun(prods, tables, c, states, symbols, ts[0], later);
      var t := After(tables, states, ts[0], later).value;
      LeadsTo(prods, tables, c, Turns(ts[0]), states + [t], symbols + [ts[0]], later);
      ForestRun(prods, tables, RunOf(prods, tables, c, Turns(ts[0])).1, states + [t], symbols + [ts[0]], ts[1..], rest);
      assert symbols + [ts[0]] + ts[1..] == symbols + ts;
      LeadsOn(prods, tables, c, Turns(ts[0]), TurnsAll(ts[1..]), AfterAll(tables, states, ts, rest).value, symbols + ts, rest);
    }
  }

  lemma NoTurns(prods: seq<Production>, tables: Tables, c: Config, states: seq<int>, symbols: seq<Tree>, rest: seq<Symbol>)
    requires |states| == |symbols| > 0 && Fetched(c) == Ready(states, symbols, rest)
    ensures Leads(prods, tables, c, 0, states, symbols, rest)
  {
  }

  /** A turn on a zero entry ends the run, however many turns are allowed. */
  lemma AcceptRun(prods: seq<Production>, tables: Tables, c: Config, states: seq<int>, symbols: seq<Tree>, turns: nat)
    requires |states| == |symbols| > 0 && Fetched(c) == Ready(states, symbols, []) && Acts(tables, Last(states), END, 0)
    requires turns > 0
    ensures RunOf(prods, tables, c, turns).0 == Accept(symbols[|symbols| - 1])
  {
    hide ReduceOf;
  }

  /** Completeness: the engine returns every valid tree that the tables guide it through. */
  lemma GuidedAccepted(prods: seq<Production>, tables: Tables, tree: Tree, turns: nat)
    requires Valid(prods, tree) && Guided(tables, tree) && turns > Turns(tree)
    ensures RunOf(prods, tables, Start(Yield(tree)), turns).0 == Accept(tree)
  {
    hide RunOf, Fetched, After, Valid, Leads, Ready;
    var c := Start(Yield(tree));
    Fresh(Yield(tree));
    assert Yield(tree) + [] == Yield(tree);
    TreeRun(prods, tables, c, [0], [Leaf(END)], tree, []);
    var t := After(tables, [0], tree, []).value;
    LeadsTo(prods, tables, c, Turns(tree), [0] + [t], [Leaf(END)] + [tree], []);
    RunSplits(prods, tables, c, Turns(tree), turns - Turns(tree));
    AcceptRun(prods, tables, RunOf(prods, tables, c, Turns(tree)).1, [0] + [t], [Leaf(END)] + [tree], turns - Turns(tree));
  }

  lemma Fresh(input: seq<Symbol>)
    ensures Fetched(Start(input)) == Ready([0], [Leaf(END)], input)
  {
  }

  /** A sentence has at most one tree that the tables guide the engine through. */
  lemma OneGuidedTree(prods: seq<Production>, tables: Tables, x: Tree, y: Tree)
    requires Valid(prods, x) && Guided(tables, x) && Valid(prods, y) && Guided(tables, y) && Yield(x) == Yield(y)
    ensures x == y
  {
    hide RunOf, Valid, Guided, Yield;
    var turns := Turns(x) + Turns(y) + 1;
    GuidedAccepted(prods, tables, x, turns);
    GuidedAccepted(prods, tables, y, turns);
  }

  // ---- the converse, for consistent tables ---------------------------------------------------------------

  /** The tables guided the engine through the tree at place j of the stack. */
  ghost predicate GuidedAt(tables: Tables, states: seq<int>, symbols: seq<Tree>, rest: seq<Symbol>, j: nat)
    requires 0 < j < |states| == |symbols|
  {
    After(tables, states[..j], symbols[j], YieldAll(symbols[j + 1..]) + rest) == Some(states[j])
  }

  ghost predicate GuidedStack(tables: Tables, states: seq<int>, symbols: seq<Tree>, rest: seq<Symbol>) {
    |states| == |symbols| > 0 && forall j :: 0 < j < |states| ==> GuidedAt(tables, states, symbols, rest, j)
  }

  lemma ShiftGuided(tables: Tables, states: seq<int>, symbols: seq<Tree>, x: Symbol, rest: seq<Symbol>, t: int)
    requires GuidedStack(tables, states, symbols, [x] + rest) && Acts(tables, Last(states), x, t) && t > 0
    ensures GuidedStack(tables, states + [t], symbols + [Leaf(x)], rest)
  {
    hide AfterAll, Yield, YieldAll;
    var n := |states|;
    var states', symbols' := states + [t], symbols + [Leaf(x)];
    forall j | 0 < j < n + 1
      ensures GuidedAt(tables, states', symbols', rest, j)
    {
      assert states'[..j] == states[..j];
      if j < n {
        assert GuidedAt(tables, states, symbols, [x] + rest, j);
        assert symbols'[j + 1..] == symbols[j + 1..] + [Leaf(x)];
        LeafLast(symbols[j + 1..], x, rest);
      } else {
        assert states[..n] == states;
      }
    }
  }

  lemma LeafLast(ts: seq<Tree>, x: Symbol, rest: seq<Symbol>)
    ensures YieldAll(ts + [Leaf(x)]) + rest == YieldAll(ts) + ([x] + rest)
  {
    YieldConcat(ts, [Leaf(x)]);
    YieldOne(Leaf(x));
  }

  /** What is above place i of the stack is what the tables put there. */
  lemma {:induction false} StackAll(tables: Tables, states: seq<int>, symbols: seq<Tree>, rest: seq<Symbol>, i: nat)
    requires GuidedStack(tables, states, symbols, rest) && 0 < i <= |states|
    ensures AfterAll(tables, states[..i], symbols[i..], rest) == Some(states)
    decreases |states| - i
  {
    hide After, Yield, YieldAll;
    if i == |states| {
      assert states[..i] == states && symbols[i..] == [];
    } else {
      assert GuidedAt(tables, states, symbols, rest, i);
      assert symbols[i..][1..] == symbols[i + 1..];
      assert states[..i] + [states[i]] == states[..i + 1];
      StackAll(tables, states, symbols, rest, i + 1);
    }
  }

  lemma ReduceGuided(tables: Tables, states: seq<int>, symbols: seq<Tree>, rest: seq<Symbol>, m: nat, kind: Symbol, rule: nat, t: int)
    requires GuidedStack(tables, states, symbols, rest) && 0 < m <= |states| && rule > 0
    requires Reduces(tables, Last(states), Next(rest), rule)
    requires states[m - 1] in tables.goto && kind in tables.goto[states[m - 1]] && tables.goto[states[m - 1]][kind] == t
    ensures GuidedStack(tables, states[..m] + [t], symbols[..m] + [Node(kind, rule, symbols[m..])], rest)
  {
    hide AfterAll, Yield, YieldAll;
    var node := Node(kind, rule, symbols[m..]);
    var states', symbols' := states[..m] + [t], symbols[..m] + [node];
    StackAll(tables, states, symbols, rest, m);
    forall j | 0 < j < m + 1
      ensures GuidedAt(tables, states', symbols', rest, j)
    {
      assert states'[..j] == states[..j];
      if j < m {
        assert GuidedAt(tables, states, symbols, rest, j);
        assert symbols'[j + 1..] == symbols[j + 1..m] + [node];
        assert symbols[j + 1..] == symbols[j + 1..m] + symbols[m..];
        NodeLast(symbols[j + 1..m], node);
      } else {
        assert symbols'[m + 1..] == [];
        NoYield(rest);
      }
    }
  }

  lemma NodeLast(ts: seq<Tree>, node: Tree)
    requires node.Node?
    ensures YieldAll(ts + [node]) == YieldAll(ts + node.children)
  {
    YieldConcat(ts, [node]);
    YieldConcat(ts, node.children);
    YieldOne(node);
  }

  lemma NoYield(rest: seq<Symbol>)
    ensures YieldAll([]) + rest == rest
  {
  }

  /** Fetching keeps what a run keeps, and shows the first symbol of the rest. */
  lemma FetchTracks(prods: seq<Production>, tables: Tables, items: int -> set<Item>, c: Config, input: seq<Symbol>)
    requires Tracks(prods, tables, items, c, input)
    ensures Tracks(prods, tables, items, Fetched(c), input)
    ensures Rest(Fetched(c)) == Rest(c) && Fetched(c).lookahead.value == Next(Rest(c))
  {
    hide Consistent, AllSpelled, AllValid, NoNames, RightDerives, YieldAll;
    if c.lookahead.None? {
      if c.unread == [] {
        FetchEndTracks(prods, tables, items, c, input);
      } else {
        assert c.unread[0] in c.unread;
        FetchTokenTracks(prods, tables, items, c, input);
      }
    }
  }

  /** What a turn keeps: it goes on along the derivation, and the stack stays guided. */
  ghost predicate OnTrack(prods: seq<Production>, tables: Tables, items: int -> set<Item>, c: Config, input: seq<Symbol>) {
    Tracks(prods, tables, items, c, input) && GuidedStack(tables, c.states, c.symbols, Rest(c))
  }

  lemma ShiftTurn(prods: seq<Production>, tables: Tables, items: int -> set<Item>, f: Config, input: seq<Symbol>, t: int)
    requires OnTrack(prods, tables, items, f, input) && f.lookahead == Some(Next(Rest(f))) && t > 0
    requires Acts(tables, Last(f.states), f.lookahead.value, t)
    ensures OnTrack(prods, tables, items, Shifted(f, t), input)
  {
    hide Tracks, GuidedStack, GoodAction;
    TopRow(prods, tables, items, f, input);
    var x := f.lookahead.value;
    EntryMeans(prods, tables, items, Last(f.states), x, t);
    ShiftTracks(prods, tables, items, f, t, input);
    assert Rest(f) == [x] + Rest(Shifted(f, t));
    ShiftGuided(tables, f.states, f.symbols, x, Rest(Shifted(f, t)), t);
  }

  lemma EntryMeans(prods: seq<Production>, tables: Tables, items: int -> set<Item>, s: int, x: Symbol, t: int)
    requires GoodAction(prods, tables, items, s, x, t)
    ensures t > 0 ==> x != END
    ensures t < 0 ==> -t < |prods| && Item(-t, |prods[-t].prod|) in items(s)
    ensures t == 0 ==> x == END && Item(0, 1) in items(s)
  {
  }

  lemma ReduceTurn(prods: seq<Production>, tables: Tables, items: int -> set<Item>, f: Config, input: seq<Symbol>, rule: nat)
    requires OnTrack(prods, tables, items, f, input) && f.lookahead == Some(Next(Rest(f))) && rule > 0
    requires |f.states| > 0 && Reduces(tables, Last(f.states), f.lookahead.value, rule)
    ensures |f.states| == |f.symbols| && ReduceOf(prods, tables, f, rule).0 == Continue
    ensures OnTrack(prods, tables, items, ReduceOf(prods, tables, f, rule).1, input)
  {
    hide Tracks, GuidedStack, GoodAction, GoodGoto, Rest;
    TopRow(prods, tables, items, f, input);
    var s, x := Last(f.states), f.lookahead.value;
    EntryMeans(prods, tables, items, s, x, tables.action[s][x]);
    ReduceReady(prods, tables, items, f, rule, input);
    Bottom(prods, tables, items, f, input);
    var p := prods[rule];
    var m := |f.states| - |p.prod|;
    var t := tables.goto[f.states[m - 1]][p.name];
    ReduceTracks(prods, tables, items, f, rule, t, input);
    ReduceGuided(tables, f.states, f.symbols, Rest(f), m, p.name, rule, t);
    SameRest(f, Reduced(f, p, rule, t));
  }

  lemma SameRest(c: Config, d: Config)
    requires c.lookahead == d.lookahead && c.unread == d.unread
    ensures Rest(c) == Rest(d)
  {
  }

  lemma AcceptTurn(prods: seq<Production>, tables: Tables, items: int -> set<Item>, f: Config, input: seq<Symbol>)
    requires OnTrack(prods, tables, items, f, input) && f.lookahead == Some(Next(Rest(f)))
    requires |f.states| > 0 && Acts(tables, Last(f.states), f.lookahead.value, 0)
    ensures |f.symbols| == 2 && Parsed(prods, f.symbols[1], input) && Guided(tables, f.symbols[1])
  {
    hide Tracks, GoodAction, Parsed, After;
    TopRow(prods, tables, items, f, input);
    EntryMeans(prods, tables, items, Last(f.states), f.lookahead.value, 0);
    AcceptParses(prods, tables, items, f, input);
    Bottom(prods, tables, items, f, input);
    assert GuidedAt(tables, f.states, f.symbols, Rest(f), 1);
    assert f.states[..1] == [0] && f.symbols[2..] == [];
    NoYield(Rest(f));
  }

  lemma Bottom(prods: seq<Production>, tables: Tables, items: int -> set<Item>, c: Config, input: seq<Symbol>)
    requires Tracks(prods, tables, items, c, input)
    ensures |c.states| == |c.symbols| > 0 && c.states[0] == 0 && (c.lookahead == Some(END) ==> Rest(c) == [])
  {
  }

  /** Soundness in full: with consistent tables, what a run returns is a parse tree of the input
      that the tables guided it through. */
  lemma {:induction false} AcceptedGuided(prods: seq<Production>, tables: Tables, items: int -> set<Item>, c: Config,
                                          input: seq<Symbol>, turns: nat)
    requires OnTrack(prods, tables, items, c, input)
    ensures |c.states| == |c.symbols| > 0
    ensures var r := RunOf(prods, tables, c, turns).0;
            r != Fault && (r.Accept? ==> Parsed(prods, r.tree, input) && Guided(tables, r.tree))
    decreases turns
  {
    hide Tracks, GuidedStack, Parsed, Guided, Rest, Shifted, ReduceOf, Fetched;
    Bottom(prods, tables, items, c, input);
    if turns > 0 {
      var f := Fetched(c);
      FetchTracks(prods, tables, items, c, input);
      TopRow(prods, tables, items, f, input);
      var s, x := Last(f.states), f.lookahead.value;
      if x in tables.action[s] {
        var t := tables.action[s][x];
        if t > 0 {
          ShiftTurn(prods, tables, items, f, input, t);
          AcceptedGuided(prods, tables, items, Shifted(f, t), input, turns - 1);
        } else if t < 0 {
          ReduceTurn(prods, tables, items, f, input, -t);
          AcceptedGuided(prods, tables, items, ReduceOf(prods, tables, f, -t).1, input, turns - 1);
        } else {
          AcceptTurn(prods, tables, items, f, input);
        }
      }
    }
  }

  /** With consistent tables, some number of turns returns a tree exactly when it is a parse tree
      of the input that the tables guide the engine through. */
  lemma AcceptedIffGuided(prods: seq<Production>, tables: Tables, items: int -> set<Item>, input: seq<Symbol>, tree: Tree)
    requires Consistent(prods, tables, items) && NoNames(prods, input) && END !in input
    ensures (exists turns: nat :: RunOf(prods, tables, Start(input), turns).0 == Accept(tree)) <==>
            Valid(prods, tree) && Yield(tree) == input && Guided(tables, tree)
  {
    hide RunOf, Tracks, Consistent, NoNames, Guided, Valid, Yield, RightDerives, Derives;
    StartTracks(prods, tables, items, Start(input), input);
    if turns: nat :| RunOf(prods, tables, Start(input), turns).0 == Accept(tree) {
      AcceptedGuided(prods, tables, items, Start(input), input, turns);
    }
    if Valid(prods, tree) && Yield(tree) == input && Guided(tables, tree) {
      GuidedAccepted(prods, tables, tree, Turns(tree) + 1);
    }
  }

  /** A parser for a sentence whose tree the tables guide it through returns that tree. */
  method ParseSentence(prods: seq<Production>, tables: Tables, ghost tree: Tree, input: seq<Symbol>, turns: nat)
    returns (outcome: Outcome)
    requires Valid(prods, tree) && Guided(tables, tree) && Yield(tree) == input && turns > Turns(tree)
    ensures outcome == Accept(tree)
  {
    hide RunOf, Valid, Guided, Yield, Tracks, Consistent;
    var parser := new Parser(prods, tables, input);
    GuidedAccepted(prods, tables, tree, turns);
    outcome := parser.Parse(turns, input, s => {});
  }
}
