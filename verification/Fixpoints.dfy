/** Nullable and unproductive nonterminals (bin/ply/yacc.py, 1518-1573 and 2093-2107). */
module Fixpoints {
  import opened Sets
  import opened Derivations
  import FS = FirstSets

  // ---- nullable nonterminals ---------------------------------------------------------------------------

  ghost predicate DerivesEmpty(ps: seq<Production>, x: Symbol) {
    Derives(ps, [x], [])
  }

  lemma {:induction false} AllEmpty(ps: seq<Production>, u: seq<Symbol>)
    requires forall i :: 0 <= i < |u| ==> DerivesEmpty(ps, u[i])
    ensures Derives(ps, u, [])
  {
    if u == [] {
      DerivesSelf(ps, u);
    } else {
      AllEmpty(ps, u[1..]);
      var none: seq<Symbol> := [];
      DerivesConcat(ps, [u[0]], none, u[1..], none);
      assert [u[0]] + u[1..] == u && none + none == none;
    }
  }

  lemma RuleEmpty(ps: seq<Production>, p: Production, nullable: set<Symbol>)
    requires p in ps && AllIn(p.prod, nullable) && forall x :: x in nullable ==> DerivesEmpty(ps, x)
    ensures DerivesEmpty(ps, p.name)
  {
    AllEmpty(ps, p.prod);
    ProductionDerives(ps, p, []);
  }

  lemma ClosedIsComplete(ps: seq<Production>, nullable: set<Symbol>, x: Symbol)
    requires ClosedUnder(ps, nullable) && DerivesEmpty(ps, x)
    ensures x in nullable
  {
    var k: nat :| DerivesIn(ps, [x], [], k);
    BackwardsIn(ps, nullable, [x], [], k);
    assert [x][0] in nullable;
  }

  ghost function Names(ps: seq<Production>): set<Symbol> {
    set p | p in ps :: p.name
  }

  /** The inner loop of compute_nullable_nonterminals: are all symbols known to be nullable? */
  method AllKnown(u: seq<Symbol>, nullable: set<Symbol>) returns (all: bool)
    ensures all <==> AllIn(u, nullable)
  {
    for i := 0 to |u|
      invariant AllIn(u[..i], nullable)
    {
      if u[i] !in nullable {
        return false;
      }
    }
    assert u[..|u|] == u;
    all := true;
  }

  /** One pass over the rules: a rule with no symbols or only nullable ones makes its name nullable. */
  method NullablePass(ps: seq<Production>, before: set<Symbol>) returns (nullable: set<Symbol>)
    requires before <= Names(ps) && forall x :: x in before ==> DerivesEmpty(ps, x)
    ensures before <= nullable <= Names(ps) && forall x :: x in nullable ==> DerivesEmpty(ps, x)
    ensures nullable == before ==> ClosedUnder(ps, nullable)
  {
    hide DerivesEmpty, AllIn;
    nullable := before;
    for i := 0 to |ps|
      invariant before <= nullable <= Names(ps) && forall x :: x in nullable ==> DerivesEmpty(ps, x)
      invariant nullable == before ==> forall k :: 0 <= k < i ==> (AllIn(ps[k].prod, before) ==> ps[k].name in before)
    {
      var all := AllKnown(ps[i].prod, nullable);
      if all {
        RuleEmpty(ps, ps[i], nullable);
        nullable := nullable + {ps[i].name};
      }
    }
  }

  /** compute_nullable_nonterminals, its dictionary as the set of its keys: exactly the names that
      derive the empty form. */
  method ComputeNullable(ps: seq<Production>) returns (nullable: set<Symbol>)
    ensures forall x :: x in nullable <==> DerivesEmpty(ps, x)
  {
    hide DerivesEmpty, ClosedUnder, Names;
    nullable := {};
    var count := 0;
    while true
      invariant nullable <= Names(ps) && count == |nullable|
      invariant forall x :: x in nullable ==> DerivesEmpty(ps, x)
      decreases |Names(ps)| - |nullable|
    {
      var before := nullable;
      nullable := NullablePass(ps, nullable);
      SubsetCount(before, nullable);
      SubsetCount(nullable, Names(ps));
      if |nullable| == count {
        break;
      }
      count := |nullable|;
    }
    forall x | DerivesEmpty(ps, x)
      ensures x in nullable
    {
      ClosedIsComplete(ps, nullable, x);
    }
  }

  /** The empty marker in the FIRST table and the nullable set say the same of every nonterminal. */
  lemma NullableAgreesWithFirst(g: FS.Grammar, t: FS.Table, nullable: set<Symbol>, n: Symbol)
    requires FS.Exact(g, t) && n in g.nonterminals && forall x :: x in nullable <==> DerivesEmpty(g.productions, x)
    ensures n in t && (FS.EMPTY in t[n] <==> n in nullable)
  {
    assert FS.ExactAt(g, t, n, FS.EMPTY) && (n in nullable <==> DerivesEmpty(g.productions, n));
  }

  // ---- nonterminals that derive no terminal string -----------------------------------------------------------

  /** x derives a string over the terminals. */
  ghost predicate Productive(ps: seq<Production>, terminals: set<Symbol>, x: Symbol) {
    exists w :: AllIn(w, terminals) && Derives(ps, [x], w)
  }

  lemma {:induction false} AllProductive(ps: seq<Production>, terminals: set<Symbol>, u: seq<Symbol>) returns (w: seq<Symbol>)
    requires forall i :: 0 <= i < |u| ==> Productive(ps, terminals, u[i])
    ensures AllIn(w, terminals) && Derives(ps, u, w)
  {
    if u == [] {
      DerivesSelf(ps, u);
      w := [];
    } else {
      var rest := AllProductive(ps, terminals, u[1..]);
      var head :| AllIn(head, terminals) && Derives(ps, [u[0]], head);
      DerivesConcat(ps, [u[0]], head, u[1..], rest);
      assert [u[0]] + u[1..] == u;
      w := head + rest;
    }
  }

  lemma RuleProductive(ps: seq<Production>, terminals: set<Symbol>, p: Production)
    requires p in ps && forall i :: 0 <= i < |p.prod| ==> Productive(ps, terminals, p.prod[i])
    ensures Productive(ps, terminals, p.name)
  {
    var w := AllProductive(ps, terminals, p.prod);
    ProductionDerives(ps, p, w);
  }

  lemma TerminalProductive(ps: seq<Production>, terminals: set<Symbol>, t: Symbol)
    requires t in terminals
    ensures Productive(ps, terminals, t)
  {
    DerivesSelf(ps, [t]);
    assert AllIn([t], terminals);
  }

  /** The symbols marked as terminating. */
  ghost function Marked(terminates: map<Symbol, bool>): set<Symbol> {
    set x | x in terminates && terminates[x]
  }

  ghost function TerminalSet(g: FS.Grammar): set<Symbol> {
    set t | t in g.terminals + [END]
  }

  /** The marks so far are right, and cover the terminals. */
  ghost predicate Justified(g: FS.Grammar, terminates: map<Symbol, bool>) {
    (forall x :: x in terminates <==> FS.IsTerminal(g, x) || x in g.nonterminals) &&
    (forall x :: x in Marked(terminates) ==> Productive(g.productions, TerminalSet(g), x)) &&
    TerminalSet(g) <= Marked(terminates)
  }

  lemma MarkedIsComplete(g: FS.Grammar, terminates: map<Symbol, bool>, x: Symbol)
    requires Justified(g, terminates) && ClosedUnder(g.productions, Marked(terminates))
    requires Productive(g.productions, TerminalSet(g), x)
    ensures x in Marked(terminates)
  {
    var w :| AllIn(w, TerminalSet(g)) && Derives(g.productions, [x], w);
    var k: nat :| DerivesIn(g.productions, [x], w, k);
    assert AllIn(w, Marked(terminates));
    BackwardsIn(g.productions, Marked(terminates), [x], w, k);
    assert [x][0] in Marked(terminates);
  }

  lemma MarkOne(g: FS.Grammar, terminates: map<Symbol, bool>, p: Production)
    requires FS.WellFormed(g) && Justified(g, terminates) && p in g.productions && AllIn(p.prod, Marked(terminates))
    ensures Justified(g, terminates[p.name := true])
    ensures Marked(terminates[p.name := true]) == Marked(terminates) + {p.name}
  {
    hide Productive;
    RuleProductive(g.productions, TerminalSet(g), p);
    FS.NameIsNonterminal(g, p);
  }

  /** Lines 1540-1550: do all symbols of a right side terminate? */
  method AllTerminate(u: seq<Symbol>, terminates: map<Symbol, bool>) returns (all: bool)
    requires forall i :: 0 <= i < |u| ==> u[i] in terminates
    ensures all <==> AllIn(u, Marked(terminates))
  {
    for i := 0 to |u|
      invariant AllIn(u[..i], Marked(terminates))
    {
      if !terminates[u[i]] {
        return false;
      }
    }
    assert u[..|u|] == u;
    all := true;
  }

  ghost predicate NameClosed(g: FS.Grammar, marked: set<Symbol>, n: Symbol) {
    n in g.prodnames && forall p :: p in g.prodnames[n] && AllIn(p.prod, marked) ==> n in marked
  }

  /** Lines 1538-1558: the rules of one name, up to the first that terminates. */
  method MarkName(g: FS.Grammar, before: map<Symbol, bool>, n: Symbol) returns (terminates: map<Symbol, bool>, changed: bool)
    requires FS.WellFormed(g) && Justified(g, before) && n in g.prodnames
    ensures Justified(g, terminates) && NameClosed(g, Marked(terminates), n)
    ensures if changed then Marked(before) < Marked(terminates) else terminates == before
  {
    hide Justified, AllIn, FS.WellFormed;
    terminates, changed := before, false;
    var rules := g.prodnames[n];
    for i := 0 to |rules|
      invariant terminates == before && !changed
      invariant forall k :: 0 <= k < i ==> !AllIn(rules[k].prod, Marked(before))
    {
      RuleUsable(g, before, n, rules[i]);
      var all := AllTerminate(rules[i].prod, terminates);
      if all {
        MarkOne(g, terminates, rules[i]);
        if !terminates[n] {
          terminates := terminates[n := true];
          changed := true;
        }
        return;
      }
    }
  }

  lemma RuleUsable(g: FS.Grammar, terminates: map<Symbol, bool>, n: Symbol, p: Production)
    requires FS.WellFormed(g) && Justified(g, terminates) && n in g.prodnames && p in g.prodnames[n]
    ensures p in g.productions && p.name == n && n in terminates && forall i :: 0 <= i < |p.prod| ==> p.prod[i] in terminates
  {
    hide Productive;
  }

  /** Lines 1535-1558: one pass over the names, in any order. */
  method MarkPass(g: FS.Grammar, before: map<Symbol, bool>) returns (terminates: map<Symbol, bool>, changed: bool)
    requires FS.WellFormed(g) && Justified(g, before)
    ensures Justified(g, terminates)
    ensures if changed then Marked(before) < Marked(terminates)
            else terminates == before && forall n :: n in g.prodnames ==> NameClosed(g, Marked(terminates), n)
  {
    hide Justified, FS.WellFormed, NameClosed, Marked;
    terminates, changed := before, false;
    var names := g.prodnames.Keys;
    while names != {}
      invariant names <= g.prodnames.Keys && Justified(g, terminates)
      invariant if changed then Marked(before) < Marked(terminates) else terminates == before
      invariant !changed ==> forall n :: n in g.prodnames && n !in names ==> NameClosed(g, Marked(before), n)
      decreases |names|
    {
      var n :| n in names;
      var more;
      terminates, more := MarkName(g, terminates, n);
      changed := changed || more;
      names := names - {n};
    }
  }

  lemma AllClosed(g: FS.Grammar, marked: set<Symbol>)
    requires FS.WellFormed(g) && forall n :: n in g.prodnames ==> NameClosed(g, marked, n)
    ensures ClosedUnder(g.productions, marked)
  {
  }

  lemma InitiallyJustified(g: FS.Grammar, terminates: map<Symbol, bool>)
    requires FS.WellFormed(g)
    requires terminates == (map t | t in g.terminals :: true) + map[END := true] + (map n | n in g.nonterminals :: false)
    ensures Justified(g, terminates)
  {
    hide Productive;
    forall x | x in Marked(terminates)
      ensures Productive(g.productions, TerminalSet(g), x)
    {
      TerminalProductive(g.productions, TerminalSet(g), x);
    }
  }

  lemma MarkedBound(terminates: map<Symbol, bool>)
    ensures Marked(terminates) <= terminates.Keys
  {
  }

  /** The propagation loop of infinite_cycles, lines 1519-1561. */
  method Terminating(g: FS.Grammar) returns (terminates: map<Symbol, bool>)
    requires FS.WellFormed(g)
    ensures forall x :: x in terminates <==> FS.IsTerminal(g, x) || x in g.nonterminals
    ensures forall x :: x in terminates ==> (terminates[x] <==> Productive(g.productions, TerminalSet(g), x))
  {
    hide Productive, FS.WellFormed, TerminalSet, NameClosed;
    terminates := (map t | t in g.terminals :: true) + map[END := true] + (map n | n in g.nonterminals :: false);
    InitiallyJustified(g, terminates);
    ghost var keys := terminates.Keys;
    var changed := true;
    while changed
      invariant Justified(g, terminates) && terminates.Keys == keys
      invariant !changed ==> forall n :: n in g.prodnames ==> NameClosed(g, Marked(terminates), n)
      decreases |keys| - |Marked(terminates)|, changed
    {
      ghost var before := terminates;
      terminates, changed := MarkPass(g, terminates);
      SameKeys(g, before, terminates);
      MarkedBound(terminates);
      SubsetCount(Marked(before), Marked(terminates));
      SubsetCount(Marked(terminates), keys);
    }
    AllClosed(g, Marked(terminates));
    forall x | x in terminates && Productive(g.productions, TerminalSet(g), x)
      ensures terminates[x]
    {
      MarkedIsComplete(g, terminates, x);
    }
  }

  lemma SameKeys(g: FS.Grammar, s: map<Symbol, bool>, t: map<Symbol, bool>)
    requires Justified(g, s) && Justified(g, t)
    ensures s.Keys == t.Keys
  {
    hide Productive;
  }

  /** infinite_cycles, its list as a set: exactly the nonterminals with rules (or named error) that derive
      no terminal string. */
  method InfiniteCycles(g: FS.Grammar) returns (infinite: set<Symbol>)
    requires FS.WellFormed(g)
    ensures forall s :: s in infinite <==>
      s in g.nonterminals && (s in g.prodnames || s == "error") && !Productive(g.productions, TerminalSet(g), s)
  {
    hide Productive;
    var terminates := Terminating(g);
    infinite := set s | s in terminates && !terminates[s] && (s in g.prodnames || s in g.terminals || s == "error");
    forall t | FS.IsTerminal(g, t)
      ensures Productive(g.productions, TerminalSet(g), t)
    {
      TerminalProductive(g.productions, TerminalSet(g), t);
    }
  }
}
