/** The shift-reduce engine (bin/ply/yacc.py, 897-1020), without error recovery. */
module LRParser {
  import opened Derivations
  import opened ParseTrees

  datatype Option<+T> = None | Some(value: T)

  /** How one turn of the loop ends: it goes on, returns a value, finds no action, or raises. */
  datatype Outcome = Continue | Accept(tree: Tree) | NoAction | Fault

  datatype Config = Config(states: seq<int>, symbols: seq<Tree>, lookahead: Option<Symbol>, unread: seq<Symbol>)

  // ---- what every run keeps -------------------------------------------------------------------------

  /** The two stacks run in step over the bottom entry. */
  ghost predicate Balanced(c: Config) {
    |c.states| == |c.symbols| > 0 && c.symbols[0] == Leaf(END)
  }

  ghost function Pending(c: Config): seq<Symbol> {
    (if c.lookahead.Some? then [c.lookahead.value] else []) + c.unread
  }

  /** What the stack yields, the lookahead and the unread tokens are the input, followed by as many
      end markers as were made. */
  ghost predicate Conserves(c: Config, input: seq<Symbol>, ends: nat) {
    |c.symbols| > 0 && YieldAll(c.symbols[1..]) + Pending(c) == input + seq(ends, i => END)
  }

  // ---- what consistent tables add ------------------------------------------------------------------------

  /** The tokens not yet shifted. */
  ghost function Rest(c: Config): seq<Symbol> {
    (if c.lookahead.Some? && c.lookahead.value != END then [c.lookahead.value] else []) + c.unread
  }

  /** The stack followed by the rest of the input derives the input, from the right. */
  ghost predicate Tracks(prods: seq<Production>, tables: Tables, items: int -> set<Item>, c: Config, input: seq<Symbol>) {
    Balanced(c) && Consistent(prods, tables, items) && AllSpelled(prods, items, c.states, Kinds(c.symbols)) &&
    AllValid(prods, c.symbols) && c.states[|c.states| - 1] in tables.action &&
    NoNames(prods, Rest(c)) && (c.lookahead == Some(END) ==> c.unread == []) && END !in c.unread &&
    YieldAll(c.symbols[1..]) + Rest(c) == input && RightDerives(prods, Kinds(c.symbols[1..]) + Rest(c), input)
  }

  /** The result of an accepting run: a parse tree of the whole input for the start symbol. */
  ghost predicate Parsed(prods: seq<Production>, tree: Tree, input: seq<Symbol>) {
    |prods| > 0 && |prods[0].prod| == 1 && tree.kind == prods[0].prod[0] && Valid(prods, tree) &&
    Yield(tree) == input && RightDerives(prods, [prods[0].prod[0]], input) && Derives(prods, [prods[0].prod[0]], input)
  }

  // ---- steps on configurations ----------------------------------------------------------------------------

  function Shifted(c: Config, t: int): Config
    requires c.lookahead.Some?
  {
    Config(c.states + [t], c.symbols + [Leaf(c.lookahead.value)], None, c.unread)
  }

  /** The last n symbols become the children of one, pushed with state t. */
  function Reduced(c: Config, p: Production, rule: nat, t: int): Config
    requires |p.prod| < |c.states| == |c.symbols|
  {
    var m := |c.symbols| - |p.prod|;
    Config(c.states[..m] + [t], c.symbols[..m] + [Node(p.name, rule, c.symbols[m..])], c.lookahead, c.unread)
  }

  /** The next token becomes the lookahead, or the end marker when there is none. */
  function Fetched(c: Config): (d: Config)
    ensures d.lookahead.Some? && d.states == c.states && d.symbols == c.symbols
  {
    if c.lookahead.Some? then c
    else if c.unread == [] then c.(lookahead := Some(END))
    else c.(lookahead := Some(c.unread[0]), unread := c.unread[1..])
  }

  /** Reducing by a rule: to the goto state of what is left of the stack. */
  function ReduceOf(prods: seq<Production>, tables: Tables, c: Config, rule: nat): (r: (Outcome, Config))
    requires |c.states| == |c.symbols| > 0
    ensures |r.1.states| == |r.1.symbols| > 0
  {
    if rule >= |prods| || |prods[rule].prod| >= |c.states| then (Fault, c)
    else
      var p := prods[rule];
      var from := c.states[|c.states| - 1 - |p.prod|];
      if from !in tables.goto || p.name !in tables.goto[from] then (Fault, c)
      else (Continue, Reduced(c, p, rule, tables.goto[from][p.name]))
  }

  lemma NoSuchRule(prods: seq<Production>, tables: Tables, c: Config, rule: nat)
    requires |c.states| == |c.symbols| > 0 && rule >= |prods|
    ensures ReduceOf(prods, tables, c, rule).0 == Fault
  {
  }

  /** What the tables prescribe: fetch, then shift, reduce, accept or stop as the entry of the top
      state for the lookahead says. */
  function TurnOf(prods: seq<Production>, tables: Tables, c: Config): (r: (Outcome, Config))
    requires |c.states| == |c.symbols| > 0
    ensures |r.1.states| == |r.1.symbols| > 0
  {
    var f := Fetched(c);
    var s, x := f.states[|f.states| - 1], f.lookahead.value;
    if s !in tables.action then (Fault, f)
    else if x !in tables.action[s] then (NoAction, f)
    else if tables.action[s][x] > 0 then (Continue, Shifted(f, tables.action[s][x]))
    else if tables.action[s][x] < 0 then ReduceOf(prods, tables, f, -tables.action[s][x])
    else (Accept(f.symbols[|f.symbols| - 1]), f)
  }

  /** So many turns, or fewer if one does not go on. */
  function RunOf(prods: seq<Production>, tables: Tables, c: Config, turns: nat): (r: (Outcome, Config))
    requires |c.states| == |c.symbols| > 0
    ensures |r.1.states| == |r.1.symbols| > 0
    decreases turns
  {
    if turns == 0 then (Continue, c)
    else
      var r := TurnOf(prods, tables, c);
      if r.0 == Continue then RunOf(prods, tables, r.1, turns - 1) else r
  }

  lemma ShiftConserves(c: Config, t: int, input: seq<Symbol>, ends: nat)
    requires Balanced(c) && c.lookahead.Some? && Conserves(c, input, ends)
    ensures Balanced(Shifted(c, t)) && Conserves(Shifted(c, t), input, ends)
  {
    var d, leaf := Shifted(c, t), Leaf(c.lookahead.value);
    assert d.symbols[1..] == c.symbols[1..] + [leaf];
    YieldConcat(c.symbols[1..], [leaf]);
    YieldOne(leaf);
    assert Pending(c) == [c.lookahead.value] + Pending(d);
  }

  lemma ReduceConserves(c: Config, p: Production, rule: nat, t: int, input: seq<Symbol>, ends: nat)
    requires Balanced(c) && |p.prod| < |c.symbols| && Conserves(c, input, ends)
    ensures Balanced(Reduced(c, p, rule, t)) && Conserves(Reduced(c, p, rule, t), input, ends)
  {
    ReduceYield(c, p, rule, t);
  }

  lemma ReduceYield(c: Config, p: Production, rule: nat, t: int)
    requires Balanced(c) && |p.prod| < |c.symbols|
    ensures Balanced(Reduced(c, p, rule, t))
    ensures YieldAll(Reduced(c, p, rule, t).symbols[1..]) == YieldAll(c.symbols[1..])
  {
    var d := Reduced(c, p, rule, t);
    var m := |c.symbols| - |p.prod|;
    var low, top := c.symbols[1..m], c.symbols[m..];
    var node := Node(p.name, rule, top);
    assert c.symbols[1..] == low + top && d.symbols[1..] == low + [node];
    YieldConcat(low, top);
    YieldConcat(low, [node]);
    YieldOne(node);
  }

  // ---- tracking -----------------------------------------------------------------------------------------------

  lemma ShiftTracks(prods: seq<Production>, tables: Tables, items: int -> set<Item>, c: Config, t: int, input: seq<Symbol>)
    requires Tracks(prods, tables, items, c, input) && c.lookahead.Some? && t > 0
    requires GoodAction(prods, tables, items, c.states[|c.states| - 1], c.lookahead.value, t)
    ensures Tracks(prods, tables, items, Shifted(c, t), input)
  {
    hide Consistent, AllSpelled, Moves, RightDerives;
    var d, leaf := Shifted(c, t), Leaf(c.lookahead.value);
    SpelledPush(prods, items, c.states, Kinds(c.symbols), leaf.kind, t);
    assert Kinds(d.symbols) == Kinds(c.symbols) + [leaf.kind];
    assert d.symbols[1..] == c.symbols[1..] + [leaf];
    YieldConcat(c.symbols[1..], [leaf]);
    YieldOne(leaf);
    assert Rest(c) == [leaf.kind] + Rest(d);
    assert Kinds(d.symbols[1..]) == Kinds(c.symbols[1..]) + [leaf.kind];
    assert Kinds(d.symbols[1..]) + Rest(d) == Kinds(c.symbols[1..]) + Rest(c);
    NoNamesTail(prods, leaf.kind, Rest(d));
  }

  lemma NoNamesTail(prods: seq<Production>, x: Symbol, u: seq<Symbol>)
    requires NoNames(prods, [x] + u)
    ensures NoNames(prods, u)
  {
    forall i, p | 0 <= i < |u| && p in prods
      ensures u[i] != p.name
    {
      assert ([x] + u)[i + 1] == u[i];
    }
  }

  /** A reduction undoes a rightmost step. */
  lemma ReduceStep(prods: seq<Production>, low: seq<Symbol>, p: Production, rest: seq<Symbol>)
    requires p in prods && NoNames(prods, rest)
    ensures RightStep(prods, low + [p.name] + rest, low + p.prod + rest)
  {
    var u, v := low + [p.name] + rest, low + p.prod + rest;
    assert u[..|low|] == low && u[|low| + 1..] == rest;
    assert Expands(prods, u, v, |low|, p);
  }

  lemma ReduceTracks(prods: seq<Production>, tables: Tables, items: int -> set<Item>, c: Config, rule: nat, t: int,
                     input: seq<Symbol>)
    requires Tracks(prods, tables, items, c, input) && 0 < rule < |prods|
    requires Item(rule, |prods[rule].prod|) in items(c.states[|c.states| - 1])
    requires |prods[rule].prod| < |c.states|
    requires GoodGoto(prods, tables, items, c.states[|c.states| - 1 - |prods[rule].prod|], prods[rule].name, t)
    ensures Tracks(prods, tables, items, Reduced(c, prods[rule], rule, t), input)
  {
    hide Consistent, AllSpelled, Moves, RightDerives, NoNames, Valid, Yield, YieldAll;
    var p := prods[rule];
    var m := |c.symbols| - |p.prod|;
    var d := Reduced(c, p, rule, t);
    var kinds := Kinds(c.symbols);
    SpelledTop(prods, items, c.states, kinds, rule);
    SpelledPop(prods, items, c.states, kinds, m);
    SpelledPush(prods, items, c.states[..m], kinds[..m], p.name, t);
    assert Kinds(d.symbols) == kinds[..m] + [p.name];
    assert Kinds(c.symbols[m..]) == kinds[m..];
    ReduceYield(c, p, rule, t);
    NodeValid(prods, rule, c.symbols[m..]);
    ReduceForms(prods, c, d, p, m, input);
  }

  lemma NodeValid(prods: seq<Production>, rule: nat, children: seq<Tree>)
    requires rule < |prods| && Kinds(children) == prods[rule].prod && AllValid(prods, children)
    ensures Valid(prods, Node(prods[rule].name, rule, children))
  {
  }

  lemma ReduceForms(prods: seq<Production>, c: Config, d: Config, p: Production, m: nat, input: seq<Symbol>)
    requires p in prods && 0 < m <= |c.symbols| && Kinds(c.symbols[m..]) == p.prod && |d.symbols| == m + 1
    requires d.symbols[..m] == c.symbols[..m] && d.symbols[m].kind == p.name
    requires Rest(d) == Rest(c) && NoNames(prods, Rest(c)) && RightDerives(prods, Kinds(c.symbols[1..]) + Rest(c), input)
    ensures RightDerives(prods, Kinds(d.symbols[1..]) + Rest(d), input)
  {
    hide NoNames, RightDerives, Rest;
    var low := Kinds(c.symbols[1..m]);
    assert Kinds(c.symbols[1..]) == low + p.prod by {
      assert c.symbols[1..] == c.symbols[1..m] + c.symbols[m..];
    }
    assert Kinds(d.symbols[1..]) == low + [p.name] by {
      assert d.symbols[1..m] == d.symbols[..m][1..] == c.symbols[1..m];
      assert d.symbols[1..] == d.symbols[1..m] + [d.symbols[m]];
    }
    ReduceStep(prods, low, p, Rest(c));
    RightDerivesStep(prods, low + [p.name] + Rest(c), low + p.prod + Rest(c), input);
  }

  /** Acceptance: one tree is left, for the start symbol, over the whole input. */
  lemma AcceptParses(prods: seq<Production>, tables: Tables, items: int -> set<Item>, c: Config, input: seq<Symbol>)
    requires Tracks(prods, tables, items, c, input) && c.lookahead == Some(END)
    requires Item(0, 1) in items(c.states[|c.states| - 1])
    ensures |c.symbols| == 2 && Parsed(prods, c.symbols[1], input)
  {
    hide Moves, RightDerives, NoNames;
    SpelledTop(prods, items, c.states, Kinds(c.symbols), 0);
    assert c.states[|c.states| - 2] == 0;
    assert c.symbols[1..] == [c.symbols[1]];
    YieldOne(c.symbols[1]);
    assert Yield(c.symbols[1]) + [] == Yield(c.symbols[1]);
    assert Kinds([c.symbols[1]]) + Rest(c) == [prods[0].prod[0]];
    RightIsDerivation(prods, [prods[0].prod[0]], input);
  }

  // ---- the parser ------------------------------------------------------------------------------------------------

  class Parser {
    const prods: seq<Production>
    const tables: Tables
    var statestack: seq<int>
    var symstack: seq<Tree>
    var state: int
    var lookahead: Option<Symbol>
    var unread: seq<Symbol>
    /** The end markers made so far. */
    ghost var ends: nat

    constructor (prods: seq<Production>, tables: Tables, input: seq<Symbol>)
      ensures this.prods == prods && this.tables == tables && Runs(input)
      ensures Snap() == Config([0], [Leaf(END)], None, input)
      ensures forall items :: Consistent(prods, tables, items) && NoNames(prods, input) && END !in input ==>
        Tracks(prods, tables, items, Snap(), input)
    {
      this.prods, this.tables := prods, tables;
      statestack, symstack, state := [0], [Leaf(END)], 0;
      lookahead, unread, ends := None, input, 0;
      new;
      StartConserves(Snap(), input);
      forall items | Consistent(prods, tables, items) && NoNames(prods, input) && END !in input
        ensures Tracks(prods, tables, items, Snap(), input)
      {
        StartTracks(prods, tables, items, Snap(), input);
      }
    }

    ghost function Snap(): Config
      reads this
    {
      Config(statestack, symstack, lookahead, unread)
    }

    /** What holds between turns, whatever the tables. */
    ghost predicate Runs(input: seq<Symbol>)
      reads this
    {
      Balanced(Snap()) && state == statestack[|statestack| - 1] && Conserves(Snap(), input, ends)
    }

    lemma RunsBalanced(input: seq<Symbol>)
      requires Runs(input)
      ensures |statestack| == |symstack| > 0
    {
    }

    /** Lines 919-926: the next token, or the end marker. */
    method Fetch(ghost input: seq<Symbol>, ghost items: int -> set<Item>)
      requires Runs(input)
      modifies this`lookahead, this`unread, this`ends
      ensures Runs(input) && Snap() == Fetched(old(Snap()))
      ensures old(Tracks(prods, tables, items, Snap(), input)) ==> Tracks(prods, tables, items, Snap(), input)
    {
      hide Balanced, Conserves, Tracks;
      ghost var c := Snap();
      if lookahead.None? {
        if unread == [] {
          FetchEnd(c, input, ends);
          lookahead, ends := Some(END), ends + 1;
          if Tracks(prods, tables, items, c, input) {
            FetchEndTracks(prods, tables, items, c, input);
          }
        } else {
          FetchToken(c, input, ends);
          lookahead, unread := Some(unread[0]), unread[1..];
          if Tracks(prods, tables, items, c, input) {
            FetchTokenTracks(prods, tables, items, c, input);
          }
        }
      }
    }

    /** Lines 933-943 */
    method Shift(t: int, ghost input: seq<Symbol>, ghost items: int -> set<Item>)
      requires Runs(input) && lookahead.Some?
      modifies this
      ensures Runs(input) && Snap() == Shifted(old(Snap()), t)
      ensures t > 0 && old(Tracks(prods, tables, items, Snap(), input) && GoodAction(prods, tables, items, state, lookahead.value, t))
        ==> Tracks(prods, tables, items, Snap(), input)
    {
      hide Conserves, Tracks, GoodAction;
      ghost var c, good := Snap(), GoodAction(prods, tables, items, state, lookahead.value, t);
      ShiftConserves(c, t, input, ends);
      statestack := statestack + [t];
      state := t;
      symstack := symstack + [Leaf(lookahead.value)];
      lookahead := None;
      if Tracks(prods, tables, items, c, input) && t > 0 && good {
        ShiftTracks(prods, tables, items, c, t, input);
      }
    }

    /** Lines 945-1004: a rule with symbols, or without; raises if the stack is too short or the goto
        entry is missing. */
    method Reduce(rule: nat, ghost input: seq<Symbol>, ghost items: int -> set<Item>) returns (outcome: Outcome)
      requires Runs(input) && 0 < rule < |prods|
      modifies this
      ensures outcome == Continue || outcome == Fault
      ensures outcome == Continue ==> Runs(input)
      ensures outcome == ReduceOf(prods, tables, old(Snap()), rule).0
      ensures outcome == Continue ==> Snap() == ReduceOf(prods, tables, old(Snap()), rule).1
      ensures old(Tracks(prods, tables, items, Snap(), input) && Item(rule, |prods[rule].prod|) in items(state))
        ==> outcome == Continue && Tracks(prods, tables, items, Snap(), input)
    {
      hide Tracks, Conserves, GoodGoto, Reduced, Balanced;
      RunsBalanced(input);
      var p := prods[rule];
      ghost var c, good := Snap(), Tracks(prods, tables, items, Snap(), input) && Item(rule, |p.prod|) in items(state);
      if good {
        ReduceReady(prods, tables, items, c, rule, input);
      }
      if |p.prod| >= |statestack| {
        return Fault;
      }
      var m := |symstack| - |p.prod|;
      var from := statestack[m - 1];
      if from !in tables.goto || p.name !in tables.goto[from] {
        return Fault;
      }
      var t := tables.goto[from][p.name];
      ReduceConserves(c, p, rule, t, input, ends);
      if good {
        ReduceTracks(prods, tables, items, c, rule, t, input);
      }
      Replace(p, rule, t);
      return Continue;
    }

    /** The last symbols of both stacks give way to one. */
    method Replace(p: Production, rule: nat, t: int)
      requires |p.prod| < |statestack| == |symstack|
      modifies this`symstack, this`statestack, this`state
      ensures Snap() == Reduced(old(Snap()), p, rule, t) && |statestack| > 0 && state == t == statestack[|statestack| - 1]
    {
      var m := |symstack| - |p.prod|;
      symstack := symstack[..m] + [Node(p.name, rule, symstack[m..])];
      statestack := statestack[..m] + [t];
      state := t;
    }

    /** One turn of the loop. */
    method Turn(ghost input: seq<Symbol>, ghost items: int -> set<Item>) returns (outcome: Outcome)
      requires Runs(input)
      modifies this
      ensures outcome != Fault ==> Runs(input)
      ensures outcome == TurnOf(prods, tables, old(Snap())).0
      ensures outcome != Fault ==> Snap() == TurnOf(prods, tables, old(Snap())).1
      ensures outcome == NoAction ==> state in tables.action && lookahead.Some? && lookahead.value !in tables.action[state]
      ensures outcome.Accept? ==> outcome.tree == symstack[|symstack| - 1]
      ensures old(Tracks(prods, tables, items, Snap(), input)) ==>
        outcome != Fault && Tracks(prods, tables, items, Snap(), input) &&
        (outcome.Accept? ==> Parsed(prods, outcome.tree, input))
    {
      hide Tracks, Conserves, Parsed, Shifted, ReduceOf;
      ghost var tracked := Tracks(prods, tables, items, Snap(), input);
      Fetch(input, items);
      if tracked {
        TopRow(prods, tables, items, Snap(), input);
      }
      if state !in tables.action {
        return Fault;
      }
      if lookahead.value !in tables.action[state] {
        return NoAction;
      }
      var t := tables.action[state][lookahead.value];
      if t > 0 {
        Shift(t, input, items);
        return Continue;
      }
      if t < 0 {
        if -t >= |prods| {
          NoSuchRule(prods, tables, Snap(), -t);
          return Fault;
        }
        outcome := Reduce(-t, input, items);
        return;
      }
      if tracked {
        AcceptParses(prods, tables, items, Snap(), input);
      }
      return Accept(symstack[|symstack| - 1]);
    }

    /** The parse loop, for a given number of turns. */
    method Parse(turns: nat, ghost input: seq<Symbol>, ghost items: int -> set<Item>) returns (outcome: Outcome)
      requires Runs(input)
      modifies this
      ensures outcome != Fault ==> Runs(input)
      ensures outcome == RunOf(prods, tables, old(Snap()), turns).0
      ensures outcome != Fault ==> Snap() == RunOf(prods, tables, old(Snap()), turns).1
      ensures old(Tracks(prods, tables, items, Snap(), input)) ==>
        outcome != Fault && (outcome.Accept? ==> Parsed(prods, outcome.tree, input))
    {
      hide Tracks, Parsed, Runs, TurnOf;
      outcome := Continue;
      RunsBalanced(input);
      ghost var tracked := Tracks(prods, tables, items, Snap(), input);
      for i := 0 to turns
        invariant outcome == Continue && Runs(input) && |statestack| == |symstack| > 0
        invariant RunOf(prods, tables, old(Snap()), turns) == RunOf(prods, tables, Snap(), turns - i)
        invariant tracked ==> Tracks(prods, tables, items, Snap(), input)
      {
        outcome := Turn(input, items);
        if outcome != Continue {
          return;
        }
        RunsBalanced(input);
      }
    }
  }

  lemma StartConserves(c: Config, input: seq<Symbol>)
    requires c == Config([0], [Leaf(END)], None, input)
    ensures Balanced(c) && Conserves(c, input, 0)
  {
  }

  lemma StartTracks(prods: seq<Production>, tables: Tables, items: int -> set<Item>, c: Config, input: seq<Symbol>)
    requires Consistent(prods, tables, items) && NoNames(prods, input) && END !in input
    requires c == Config([0], [Leaf(END)], None, input)
    ensures Tracks(prods, tables, items, c, input)
  {
    hide NoNames, Moves;
    SpelledStart(prods, tables, items, Kinds(c.symbols));
    assert c.symbols[1..] == [] && Kinds(c.symbols[1..]) == [];
    assert Rest(c) == input && [] + input == input;
    RightDerivesSelf(prods, input);
  }

  lemma FetchEnd(c: Config, input: seq<Symbol>, ends: nat)
    requires Balanced(c) && Conserves(c, input, ends) && c.lookahead.None? && c.unread == []
    ensures Balanced(c.(lookahead := Some(END))) && Conserves(c.(lookahead := Some(END)), input, ends + 1)
  {
    var d := c.(lookahead := Some(END));
    assert Pending(d) == Pending(c) + [END];
    assert seq(ends + 1, i => END) == seq(ends, i => END) + [END];
    assert input + seq(ends, i => END) + [END] == input + (seq(ends, i => END) + [END]);
    assert YieldAll(c.symbols[1..]) + Pending(c) + [END] == YieldAll(c.symbols[1..]) + (Pending(c) + [END]);
  }

  lemma FetchToken(c: Config, input: seq<Symbol>, ends: nat)
    requires Balanced(c) && Conserves(c, input, ends) && c.lookahead.None? && c.unread != []
    ensures var d := c.(lookahead := Some(c.unread[0]), unread := c.unread[1..]);
            Balanced(d) && Conserves(d, input, ends)
  {
  }

  lemma FetchEndTracks(prods: seq<Production>, tables: Tables, items: int -> set<Item>, c: Config, input: seq<Symbol>)
    requires Tracks(prods, tables, items, c, input) && c.lookahead.None? && c.unread == []
    ensures Tracks(prods, tables, items, c.(lookahead := Some(END)), input)
  {
  }

  lemma FetchTokenTracks(prods: seq<Production>, tables: Tables, items: int -> set<Item>, c: Config, input: seq<Symbol>)
    requires Tracks(prods, tables, items, c, input) && c.lookahead.None? && c.unread != []
    ensures Tracks(prods, tables, items, c.(lookahead := Some(c.unread[0]), unread := c.unread[1..]), input)
  {
    hide Consistent, AllSpelled, RightDerives;
    var d := c.(lookahead := Some(c.unread[0]), unread := c.unread[1..]);
    assert c.unread[0] in c.unread;
    assert Rest(d) == Rest(c);
    forall x | x in d.unread
      ensures x in c.unread
    {
    }
  }

  /** The row of the top state exists, and its entries are good. */
  lemma TopRow(prods: seq<Production>, tables: Tables, items: int -> set<Item>, c: Config, input: seq<Symbol>)
    requires Tracks(prods, tables, items, c, input)
    ensures |prods| > 0 && |c.states| > 0 && c.states[|c.states| - 1] in tables.action
    ensures var s := c.states[|c.states| - 1];
            forall x :: x in tables.action[s] ==> GoodAction(prods, tables, items, s, x, tables.action[s][x])
  {
    hide AllSpelled, RightDerives, Moves, NoNames, GoodAction;
  }

  /** A reduction the tables ask for finds its symbols and its goto entry. */
  lemma ReduceReady(prods: seq<Production>, tables: Tables, items: int -> set<Item>, c: Config, rule: nat, input: seq<Symbol>)
    requires Tracks(prods, tables, items, c, input) && 0 < rule < |prods|
    requires Item(rule, |prods[rule].prod|) in items(c.states[|c.states| - 1])
    ensures |prods[rule].prod| < |c.states|
    ensures var s := c.states[|c.states| - 1 - |prods[rule].prod|];
            s in tables.goto && prods[rule].name in tables.goto[s] &&
            GoodGoto(prods, tables, items, s, prods[rule].name, tables.goto[s][prods[rule].name])
  {
    hide RightDerives, Moves, NoNames, GoodAction, AllSpelled, GoodGoto;
    SpelledTop(prods, items, c.states, Kinds(c.symbols), rule);
  }
}
