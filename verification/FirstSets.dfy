/** FIRST sets (bin/ply/yacc.py, 1647-1709). */
module FirstSets {
  import opened Sets
  import opened Derivations

  const EMPTY: Symbol := "<empty>"

  /** The declared symbols, the rules (without the added rule for the start symbol) and the rules
      of each name. */
  datatype Grammar = Grammar(terminals: seq<Symbol>, nonterminals: seq<Symbol>, productions: seq<Production>,
                             prodnames: map<Symbol, seq<Production>>)

  /** Terminals and nonterminals are different names, rules use declared symbols, and `prodnames`
      lists the rules by name. */
  ghost predicate WellFormed(g: Grammar) {
    EMPTY !in g.terminals && END !in g.nonterminals && EMPTY !in g.nonterminals &&
    (forall n :: n in g.nonterminals ==> n !in g.terminals) &&
    (forall p :: p in g.productions ==> p.name in g.prodnames && p in g.prodnames[p.name]) &&
    (forall n :: n in g.prodnames ==> n in g.nonterminals) &&
    (forall n, p :: n in g.prodnames && p in g.prodnames[n] ==> p in g.productions && p.name == n) &&
    forall p, s :: p in g.productions && s in p.prod ==> s in g.terminals || s in g.nonterminals
  }

  /** Every nonterminal has a rule. */
  ghost predicate AllDefined(g: Grammar) {
    forall n :: n in g.nonterminals ==> n in g.prodnames
  }

  ghost predicate IsTerminal(g: Grammar, f: Symbol) {
    f in g.terminals || f == END
  }

  // ---- the meaning ------------------------------------------------------------------------------------

  /** u derives a form that starts with f, or the empty form if f is the empty marker. */
  ghost predicate Starts(ps: seq<Production>, u: seq<Symbol>, f: Symbol) {
    if f == EMPTY then Derives(ps, u, []) else exists w :: Derives(ps, u, [f] + w)
  }

  // ---- one sequence -----------------------------------------------------------------------------------

  type Table = map<Symbol, seq<Symbol>>

  ghost predicate Known(t: Table, beta: seq<Symbol>) {
    forall i :: 0 <= i < |beta| ==> beta[i] in t
  }

  /** f is in FIRST(beta), by a table for single symbols. */
  ghost predicate InFirst(t: Table, beta: seq<Symbol>, f: Symbol)
    requires Known(t, beta)
  {
    if beta == [] then f == EMPTY
    else (f != EMPTY && f in t[beta[0]]) || (EMPTY in t[beta[0]] && InFirst(t, beta[1..], f))
  }

  /** FIRST of a concatenation. */
  lemma {:induction false} InFirstConcat(t: Table, u: seq<Symbol>, v: seq<Symbol>, f: Symbol)
    requires Known(t, u) && Known(t, v)
    ensures Known(t, u + v)
    ensures InFirst(t, u + v, f) <==> (f != EMPTY && InFirst(t, u, f)) || (InFirst(t, u, EMPTY) && InFirst(t, v, f))
    decreases |u|
  {
    if u == [] {
      assert u + v == v;
    } else {
      InFirstConcat(t, u[1..], v, f);
      assert (u + v)[1..] == u[1..] + v;
    }
  }

  lemma InFirstSingle(t: Table, x: Symbol, f: Symbol)
    requires x in t
    ensures InFirst(t, [x], f) <==> f in t[x]
  {
    assert [x][1..] == [];
  }

  // ---- soundness --------------------------------------------------------------------------------------

  ghost predicate Sound(ps: seq<Production>, t: Table) {
    forall x, f :: x in t && f in t[x] ==> Starts(ps, [x], f)
  }

  lemma {:induction false} SoundSequence(ps: seq<Production>, t: Table, beta: seq<Symbol>, f: Symbol)
    requires Sound(ps, t) && Known(t, beta) && InFirst(t, beta, f)
    ensures Starts(ps, beta, f)
    decreases |beta|
  {
    if beta == [] {
      DerivesSelf(ps, []);
    } else {
      var x, rest := beta[0], beta[1..];
      assert beta == [x] + rest;
      if f != EMPTY && f in t[x] {
        var w :| Derives(ps, [x], [f] + w);
        DerivesSelf(ps, rest);
        DerivesConcat(ps, [x], [f] + w, rest, rest);
        assert [f] + w + rest == [f] + (w + rest);
      } else {
        SoundSequence(ps, t, rest, f);
        assert Derives(ps, [x], []);
        StartsAfterEmpty(ps, [x], rest, f);
      }
    }
  }

  lemma StartsAfterEmpty(ps: seq<Production>, u: seq<Symbol>, v: seq<Symbol>, f: Symbol)
    requires Derives(ps, u, []) && Starts(ps, v, f)
    ensures Starts(ps, u + v, f)
  {
    if f == EMPTY {
      var none: seq<Symbol> := [];
      DerivesConcat(ps, u, none, v, none);
      assert none + none == none;
    } else {
      var w :| Derives(ps, v, [f] + w);
      DerivesConcat(ps, u, [], v, [f] + w);
      assert [] + ([f] + w) == [f] + w;
    }
  }

  lemma RuleStarts(ps: seq<Production>, p: Production, f: Symbol)
    requires p in ps && Starts(ps, p.prod, f)
    ensures Starts(ps, [p.name], f)
  {
    if f == EMPTY {
      ProductionDerives(ps, p, []);
    } else {
      var w :| Derives(ps, p.prod, [f] + w);
      ProductionDerives(ps, p, [f] + w);
    }
  }

  // ---- completeness -----------------------------------------------------------------------------------

  /** The table gives terminals themselves and names what their right sides give. */
  ghost predicate Fixed(g: Grammar, t: Table) {
    (forall f :: IsTerminal(g, f) ==> f in t && t[f] == [f]) &&
    (forall n :: n in g.nonterminals ==> n in t) &&
    forall p :: p in g.productions ==> RuleClosed(t, p)
  }

  ghost predicate RuleClosed(t: Table, p: Production) {
    p.name in t && Known(t, p.prod) && forall f :: InFirst(t, p.prod, f) ==> f in t[p.name]
  }

  /** Undoing one derivation step keeps what a sequence starts with. */
  lemma FirstBackStep(g: Grammar, t: Table, u: seq<Symbol>, v: seq<Symbol>, i: nat, p: Production, f: Symbol)
    requires Fixed(g, t) && Expands(g.productions, u, v, i, p) && Known(t, u) && Known(t, v) && InFirst(t, v, f)
    ensures InFirst(t, u, f)
  {
    hide InFirst;
    var a, n, b := u[..i], [p.name], u[i + 1..];
    assert u == a + n + b && v == a + p.prod + b;
    assert RuleClosed(t, p);
    InFirstConcat(t, a + p.prod, b, f);
    InFirstConcat(t, a, p.prod, f);
    InFirstConcat(t, a, p.prod, EMPTY);
    InFirstConcat(t, a + n, b, f);
    InFirstConcat(t, a, n, f);
    InFirstConcat(t, a, n, EMPTY);
    InFirstSingle(t, p.name, f);
    InFirstSingle(t, p.name, EMPTY);
  }

  lemma {:induction false} FirstBackwards(g: Grammar, t: Table, u: seq<Symbol>, v: seq<Symbol>, k: nat, f: Symbol)
    requires WellFormed(g) && Fixed(g, t) && DerivesIn(g.productions, u, v, k) && Known(t, u)
    requires Known(t, v) ==> InFirst(t, v, f)
    ensures InFirst(t, u, f)
    decreases k
  {
    hide WellFormed, InFirst;
    if k > 0 {
      var w :| Step(g.productions, u, w) && DerivesIn(g.productions, w, v, k - 1);
      var i: nat, p :| Expands(g.productions, u, w, i, p);
      KnownStep(g, t, u, w, i, p);
      FirstBackwards(g, t, w, v, k - 1, f);
      FirstBackStep(g, t, u, w, i, p, f);
    }
  }

  lemma KnownStep(g: Grammar, t: Table, u: seq<Symbol>, w: seq<Symbol>, i: nat, p: Production)
    requires Fixed(g, t) && Expands(g.productions, u, w, i, p) && Known(t, u)
    ensures Known(t, w)
  {
    assert RuleClosed(t, p);
  }

  /** A fixed table has every terminal that a symbol's derivations start with, and the empty marker
      if the symbol derives the empty form. */
  lemma FixedIsComplete(g: Grammar, t: Table, x: Symbol, f: Symbol)
    requires WellFormed(g) && Fixed(g, t) && x in t && Starts(g.productions, [x], f) && (f == EMPTY || IsTerminal(g, f))
    ensures f in t[x]
  {
    hide WellFormed;
    InFirstSingle(t, x, f);
    if f == EMPTY {
      var k: nat :| DerivesIn(g.productions, [x], [], k);
      FirstBackwards(g, t, [x], [], k, f);
    } else {
      var w :| Derives(g.productions, [x], [f] + w);
      var k: nat :| DerivesIn(g.productions, [x], [f] + w, k);
      assert ([f] + w)[0] == f && f in t[f];
      FirstBackwards(g, t, [x], [f] + w, k, f);
    }
  }

  // ---- the state while the table grows ------------------------------------------------------------------

  /** Terminals have themselves; names have terminals and the empty marker, all justified. */
  ghost predicate Growing(g: Grammar, t: Table) {
    WellFormed(g) && Sound(g.productions, t) &&
    (forall f :: IsTerminal(g, f) ==> f in t && t[f] == [f]) &&
    (forall x :: x in t <==> IsTerminal(g, x) || x in g.nonterminals) &&
    forall x, f :: x in t && f in t[x] ==> f == EMPTY || IsTerminal(g, f)
  }

  lemma RuleKnown(g: Grammar, t: Table, p: Production)
    requires Growing(g, t) && p in g.productions
    ensures p.name in t && Known(t, p.prod)
  {
  }

  lemma {:induction false} FirstIsTerminal(g: Grammar, t: Table, beta: seq<Symbol>, f: Symbol)
    requires Growing(g, t) && Known(t, beta) && InFirst(t, beta, f)
    ensures f == EMPTY || IsTerminal(g, f)
    decreases |beta|
  {
    hide WellFormed, Sound;
    if beta != [] && !(f != EMPTY && f in t[beta[0]]) {
      FirstIsTerminal(g, t, beta[1..], f);
    }
  }

  /** Appending a first symbol of a right side to its name's list. */
  lemma GrowBy(g: Grammar, t: Table, p: Production, f: Symbol)
    requires Growing(g, t) && p in g.productions && p.name in t && f !in t[p.name]
    requires Starts(g.productions, p.prod, f) && (f == EMPTY || IsTerminal(g, f))
    ensures Growing(g, t[p.name := t[p.name] + [f]])
  {
    hide Starts;
    RuleStarts(g.productions, p, f);
    NameIsNonterminal(g, p);
    var u := t[p.name := t[p.name] + [f]];
    forall x, e | x in u && e in u[x]
      ensures Starts(g.productions, [x], e) && (e == EMPTY || IsTerminal(g, e))
    {
      if x == p.name && e == f {
      } else {
        assert e in t[x];
      }
    }
  }

  lemma NameIsNonterminal(g: Grammar, p: Production)
    requires WellFormed(g) && p in g.productions
    ensures p.name in g.nonterminals && !IsTerminal(g, p.name)
  {
  }

  /** The entries a table lacks: what bounds the number of passes. */
  ghost function Missing(g: Grammar, t: Table): set<(Symbol, Symbol)> {
    set n, f | n in g.nonterminals && f in g.terminals + [END, EMPTY] && (n !in t || f !in t[n]) :: (n, f)
  }

  lemma MissingLess(g: Grammar, t: Table, n: Symbol, f: Symbol)
    requires n in t && n in g.nonterminals && f !in t[n] && (f == EMPTY || IsTerminal(g, f))
    ensures |Missing(g, t[n := t[n] + [f]])| < |Missing(g, t)|
  {
    var u := t[n := t[n] + [f]];
    assert (n, f) in Missing(g, t) && (n, f) !in Missing(g, u);
    SubsetCount(Missing(g, u), Missing(g, t) - {(n, f)});
  }

  // ---- the computation ------------------------------------------------------------------------------------

  class FirstSets {
    const g: Grammar
    var first: Table

    constructor (g: Grammar)
      ensures this.g == g && first == map[]
    {
      this.g, first := g, map[];
    }

    /** _first */
    method First(beta: seq<Symbol>) returns (result: seq<Symbol>)
      requires Known(first, beta)
      ensures forall f :: f in result <==> InFirst(first, beta, f)
    {
      result := [];
      for i := 0 to |beta|
        invariant EMPTY !in result
        invariant forall f :: InFirst(first, beta, f) <==> f in result || InFirst(first, beta[i..], f)
      {
        assert beta[i..][0] == beta[i] && beta[i..][1..] == beta[i + 1..];
        var empty;
        empty, result := AddNonEmpty(first[beta[i]], result);
        if !empty {
          return;
        }
      }
      assert beta[|beta|..] == [];
      result := result + [EMPTY];
    }

    /** The inner loop of _first: adds the symbols of a list but the empty marker, and tells
        whether that was there. */
    static method AddNonEmpty(list: seq<Symbol>, result0: seq<Symbol>) returns (empty: bool, result: seq<Symbol>)
      requires EMPTY !in result0
      ensures empty <==> EMPTY in list
      ensures forall f :: f in result <==> f in result0 || (f != EMPTY && f in list)
    {
      empty, result := false, result0;
      for i := 0 to |list|
        invariant empty <==> EMPTY in list[..i]
        invariant forall f :: f in result <==> f in result0 || (f != EMPTY && f in list[..i])
      {
        assert list[..i + 1] == list[..i] + [list[i]];
        if list[i] == EMPTY {
          empty := true;
        } else if list[i] !in result {
          result := result + [list[i]];
        }
      }
      assert list[..|list|] == list;
    }

    /** Lines 1702-1705: one rule of a name. */
    method ApplyRule(p: Production) returns (changed: bool)
      requires Growing(g, first) && p in g.productions
      modifies this
      ensures Growing(g, first)
      ensures if changed then |Missing(g, first)| < |Missing(g, old(first))| else first == old(first) && RuleClosed(first, p)
    {
      hide Growing, InFirst, Starts, Missing, IsTerminal;
      RuleKnown(g, first, p);
      var list := First(p.prod);
      RuleFirst(g, first, p, list);
      NameKnown(g, first, p);
      changed := false;
      for i := 0 to |list|
        invariant Growing(g, first) && p.name in first
        invariant if changed then |Missing(g, first)| < |Missing(g, old(first))| else first == old(first)
        invariant !changed ==> forall k :: 0 <= k < i ==> list[k] in first[p.name]
      {
        if list[i] !in first[p.name] {
          GrowBy(g, first, p, list[i]);
          MissingLess(g, first, p.name, list[i]);
          first := first[p.name := first[p.name] + [list[i]]];
          changed := true;
        }
      }
    }

    /** Lines 1699-1705: one pass over all the rules. */
    method Pass() returns (changed: bool)
      requires Growing(g, first) && AllDefined(g)
      modifies this
      ensures Growing(g, first)
      ensures if changed then |Missing(g, first)| < |Missing(g, old(first))| else first == old(first) && Fixed(g, first)
    {
      hide Growing, Missing, RuleClosed;
      changed := false;
      for i := 0 to |g.nonterminals|
        invariant Growing(g, first)
        invariant if changed then |Missing(g, first)| < |Missing(g, old(first))| else first == old(first)
        invariant !changed ==> forall k :: 0 <= k < i ==> NameClosed(g, first, g.nonterminals[k])
      {
        var n := g.nonterminals[i];
        var more := ApplyName(n);
        changed := changed || more;
      }
      if !changed {
        AllNamesClosed(g, first);
      }
    }

    /** Lines 1701-1705: the rules of one name. */
    method ApplyName(n: Symbol) returns (changed: bool)
      requires Growing(g, first) && n in g.prodnames
      modifies this
      ensures Growing(g, first)
      ensures if changed then |Missing(g, first)| < |Missing(g, old(first))| else first == old(first) && NameClosed(g, first, n)
    {
      hide Growing, Missing, RuleClosed;
      NameRules(g, first, n);
      var rules := g.prodnames[n];
      changed := false;
      for i := 0 to |rules|
        invariant Growing(g, first)
        invariant if changed then |Missing(g, first)| < |Missing(g, old(first))| else first == old(first)
        invariant !changed ==> forall k :: 0 <= k < i ==> RuleClosed(first, rules[k])
      {
        var more := ApplyRule(rules[i]);
        changed := changed || more;
      }
    }

    /** compute_first: a terminal is in FIRST of a symbol exactly when the symbol derives a form
        that starts with it, the empty marker exactly when it derives the empty form. */
    method ComputeFirst() returns (table: Table)
      requires WellFormed(g) && AllDefined(g) && (first == map[] || Exact(g, first))
      modifies this
      ensures table == first && Exact(g, first)
    {
      hide Growing, Missing, Fixed, WellFormed, Exact;
      if first != map[] {
        return first;
      }
      first := (map t | t in g.terminals :: [t]) + map[END := [END]] + (map n | n in g.nonterminals :: []);
      InitialGrowing(g, first);
      var changed := true;
      while changed
        invariant Growing(g, first) && (!changed ==> Fixed(g, first))
        decreases |Missing(g, first)|, changed
      {
        changed := Pass();
      }
      FixedIsExact(g, first);
      table := first;
    }
  }

  ghost predicate NameClosed(g: Grammar, t: Table, n: Symbol) {
    n in g.prodnames && forall k :: 0 <= k < |g.prodnames[n]| ==> RuleClosed(t, g.prodnames[n][k])
  }

  ghost predicate Exact(g: Grammar, t: Table) {
    (forall x :: x in t <==> IsTerminal(g, x) || x in g.nonterminals) &&
    forall x, f :: x in t ==> ExactAt(g, t, x, f)
  }

  ghost predicate ExactAt(g: Grammar, t: Table, x: Symbol, f: Symbol)
    requires x in t
  {
    f in t[x] <==> Starts(g.productions, [x], f) && (f == EMPTY || IsTerminal(g, f))
  }

  lemma RuleFirst(g: Grammar, t: Table, p: Production, list: seq<Symbol>)
    requires Growing(g, t) && p in g.productions && Known(t, p.prod) && forall f :: f in list <==> InFirst(t, p.prod, f)
    ensures forall k :: 0 <= k < |list| ==>
      Starts(g.productions, p.prod, list[k]) && (list[k] == EMPTY || IsTerminal(g, list[k]))
  {
    hide InFirst, Starts, IsTerminal;
    GrowingParts(g, t);
    forall k | 0 <= k < |list|
      ensures Starts(g.productions, p.prod, list[k]) && (list[k] == EMPTY || IsTerminal(g, list[k]))
    {
      SoundSequence(g.productions, t, p.prod, list[k]);
      FirstIsTerminal(g, t, p.prod, list[k]);
    }
  }

  lemma GrowingParts(g: Grammar, t: Table)
    requires Growing(g, t)
    ensures Sound(g.productions, t) && WellFormed(g)
  {
  }

  lemma NameKnown(g: Grammar, t: Table, p: Production)
    requires Growing(g, t) && p in g.productions
    ensures p.name in g.nonterminals
  {
  }

  lemma NameRules(g: Grammar, t: Table, n: Symbol)
    requires Growing(g, t) && n in g.prodnames
    ensures forall p :: p in g.prodnames[n] ==> p in g.productions
  {
  }

  lemma AllNamesClosed(g: Grammar, t: Table)
    requires Growing(g, t) && forall k :: 0 <= k < |g.nonterminals| ==> NameClosed(g, t, g.nonterminals[k])
    ensures Fixed(g, t)
  {
  }

  lemma InitialGrowing(g: Grammar, t: Table)
    requires WellFormed(g)
    requires t == (map t | t in g.terminals :: [t]) + map[END := [END]] + (map n | n in g.nonterminals :: [])
    ensures Growing(g, t)
  {
    forall x, f | x in t && f in t[x]
      ensures Starts(g.productions, [x], f)
    {
      DerivesSelf(g.productions, [x]);
      assert [f] + [] == [x];
    }
  }

  lemma FixedIsExact(g: Grammar, t: Table)
    requires Growing(g, t) && Fixed(g, t)
    ensures Exact(g, t)
  {
    hide Fixed, Starts;
    forall x, f | x in t
      ensures ExactAt(g, t, x, f)
    {
      if Starts(g.productions, [x], f) && (f == EMPTY || IsTerminal(g, f)) {
        FixedIsComplete(g, t, x, f);
      }
    }
  }
}
