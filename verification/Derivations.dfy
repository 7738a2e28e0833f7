/** Context-free grammars and their derivations. */
module Derivations {
  type Symbol = string

  /** The end of the input. */
  const END: Symbol := "$end"

  datatype Production = Production(name: Symbol, prod: seq<Symbol>)

  /** v comes from u by replacing the name at place i with the right side of p. */
  ghost predicate Expands(ps: seq<Production>, u: seq<Symbol>, v: seq<Symbol>, i: nat, p: Production) {
    p in ps && i < |u| && u[i] == p.name && v == u[..i] + p.prod + u[i + 1..]
  }

  ghost predicate Step(ps: seq<Production>, u: seq<Symbol>, v: seq<Symbol>) {
    exists i: nat, p :: Expands(ps, u, v, i, p)
  }

  ghost predicate DerivesIn(ps: seq<Production>, u: seq<Symbol>, v: seq<Symbol>, k: nat)
    decreases k
  {
    if k == 0 then u == v else exists w :: Step(ps, u, w) && DerivesIn(ps, w, v, k - 1)
  }

  ghost predicate Derives(ps: seq<Production>, u: seq<Symbol>, v: seq<Symbol>) {
    exists k :: DerivesIn(ps, u, v, k)
  }

  lemma DerivesSelf(ps: seq<Production>, u: seq<Symbol>)
    ensures Derives(ps, u, u)
  {
    assert DerivesIn(ps, u, u, 0);
  }

  lemma DerivesStep(ps: seq<Production>, u: seq<Symbol>, w: seq<Symbol>, v: seq<Symbol>)
    requires Step(ps, u, w) && Derives(ps, w, v)
    ensures Derives(ps, u, v)
  {
    var k: nat :| DerivesIn(ps, w, v, k);
    assert DerivesIn(ps, u, v, k + 1);
  }

  lemma {:induction false} DerivesInTrans(ps: seq<Production>, u: seq<Symbol>, v: seq<Symbol>, w: seq<Symbol>, k: nat)
    requires DerivesIn(ps, u, v, k) && Derives(ps, v, w)
    ensures Derives(ps, u, w)
    decreases k
  {
    if k > 0 {
      var x :| Step(ps, u, x) && DerivesIn(ps, x, v, k - 1);
      DerivesInTrans(ps, x, v, w, k - 1);
      DerivesStep(ps, u, x, w);
    }
  }

  lemma DerivesTrans(ps: seq<Production>, u: seq<Symbol>, v: seq<Symbol>, w: seq<Symbol>)
    requires Derives(ps, u, v) && Derives(ps, v, w)
    ensures Derives(ps, u, w)
  {
    var k: nat :| DerivesIn(ps, u, v, k);
    DerivesInTrans(ps, u, v, w, k);
  }

  lemma StepInContext(ps: seq<Production>, a: seq<Symbol>, u: seq<Symbol>, v: seq<Symbol>, b: seq<Symbol>)
    requires Step(ps, u, v)
    ensures Step(ps, a + u + b, a + v + b)
  {
    var i: nat, p :| Expands(ps, u, v, i, p);
    var u', v' := a + u + b, a + v + b;
    assert u'[..|a| + i] == a + u[..i];
    assert u'[|a| + i + 1..] == u[i + 1..] + b;
    assert v' == u'[..|a| + i] + p.prod + u'[|a| + i + 1..];
    assert Expands(ps, u', v', |a| + i, p);
  }

  lemma {:induction false} DerivesInContext(ps: seq<Production>, a: seq<Symbol>, u: seq<Symbol>, v: seq<Symbol>, b: seq<Symbol>, k: nat)
    requires DerivesIn(ps, u, v, k)
    ensures Derives(ps, a + u + b, a + v + b)
    decreases k
  {
    if k == 0 {
      DerivesSelf(ps, a + u + b);
    } else {
      var w :| Step(ps, u, w) && DerivesIn(ps, w, v, k - 1);
      DerivesInContext(ps, a, w, v, b, k - 1);
      StepInContext(ps, a, u, w, b);
      DerivesStep(ps, a + u + b, a + w + b, a + v + b);
    }
  }

  /** Derivations side by side. */
  lemma DerivesConcat(ps: seq<Production>, u: seq<Symbol>, u': seq<Symbol>, v: seq<Symbol>, v': seq<Symbol>)
    requires Derives(ps, u, u') && Derives(ps, v, v')
    ensures Derives(ps, u + v, u' + v')
  {
    var k: nat :| DerivesIn(ps, u, u', k);
    DerivesInContext(ps, [], u, u', v, k);
    assert [] + u + v == u + v && [] + u' + v == u' + v;
    var l: nat :| DerivesIn(ps, v, v', l);
    DerivesInContext(ps, u', v, v', [], l);
    assert u' + v + [] == u' + v && u' + v' + [] == u' + v';
    DerivesTrans(ps, u + v, u' + v, u' + v');
  }

  /** A name derives what its right sides derive. */
  lemma ProductionDerives(ps: seq<Production>, p: Production, v: seq<Symbol>)
    requires p in ps && Derives(ps, p.prod, v)
    ensures Derives(ps, [p.name], v)
  {
    var u := [p.name];
    assert p.prod == u[..0] + p.prod + u[1..];
    assert Expands(ps, u, p.prod, 0, p);
    DerivesStep(ps, u, p.prod, v);
  }

  // ---- closed sets of symbols ---------------------------------------------------------------------

  /** Every symbol of u is in the set. */
  predicate AllIn(u: seq<Symbol>, s: set<Symbol>) {
    forall i :: 0 <= i < |u| ==> u[i] in s
  }

  /** A name belongs when all symbols of one of its right sides do. */
  ghost predicate ClosedUnder(ps: seq<Production>, s: set<Symbol>) {
    forall p :: p in ps && AllIn(p.prod, s) ==> p.name in s
  }

  /** Read backwards, a derivation stays within a closed set. */
  lemma {:induction false} BackwardsIn(ps: seq<Production>, s: set<Symbol>, u: seq<Symbol>, v: seq<Symbol>, k: nat)
    requires ClosedUnder(ps, s) && DerivesIn(ps, u, v, k) && AllIn(v, s)
    ensures AllIn(u, s)
    decreases k
  {
    if k > 0 {
      var w :| Step(ps, u, w) && DerivesIn(ps, w, v, k - 1);
      BackwardsIn(ps, s, w, v, k - 1);
      var i: nat, p :| Expands(ps, u, w, i, p);
      ExpandedIn(ps, s, u, w, i, p);
    }
  }

  lemma ExpandedIn(ps: seq<Production>, s: set<Symbol>, u: seq<Symbol>, w: seq<Symbol>, i: nat, p: Production)
    requires ClosedUnder(ps, s) && Expands(ps, u, w, i, p) && AllIn(w, s)
    ensures AllIn(u, s)
  {
    forall j | 0 <= j < |p.prod|
      ensures p.prod[j] in s
    {
      assert w[i + j] == p.prod[j];
    }
    forall j | 0 <= j < |u|
      ensures u[j] in s
    {
      if j < i {
        assert w[j] == u[j];
      } else if j > i {
        assert w[j + |p.prod| - 1] == u[j];
      }
    }
  }
}
