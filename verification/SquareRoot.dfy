/** Square roots modulo p = 5 (mod 8), the arithmetic behind point decoding. */
module SquareRoot {
  import opened Modular
  import opened Powers
  import opened Edwards

  /** (p - 5) / 8 */
  const Q: nat := 0xffffffffffffffffffffffffffffffffffffffffffffffffffffffffffffffd

  /** A residue and its negative exhaust the square roots of its square. */
  lemma RootsOfSquare(a: int, b: int)
    requires Fermat() && Cong(a * a, b * b)
    ensures Cong(a, b) || Cong(a, -b)
  {
    hide Fermat, Pow, Cong;
    assert (a - b) * (a + b) == a * a - b * b;
    CongRefl(b * b);
    CongSub(a * a, b * b, b * b, b * b);
    if !Cong(a - b, 0) && !Cong(a + b, 0) {
      UnitProduct(a - b, a + b);
    }
    CongRefl(b); CongRefl(-b);
    if Cong(a - b, 0) {
      CongAdd(a - b, 0, b, b);
    }
    if Cong(a + b, 0) {
      CongAdd(a + b, 0, -b, -b);
    }
  }

  /** v^(2p - 1) = v, for every v. */
  lemma PowTwicePMinusOne(v: int)
    requires Fermat()
    ensures Cong(Pow(v, 2 * P - 1), v)
  {
    var e := P - 1;
    var w := Pow(v, e + e);
    PowStep(v, e + e);
    hide Pow, Cong;
    CongRefl(v); CongRefl(w);
    if Cong(v, 0) {
      CongMul(v, 0, w, w);
      CongSym(v, 0);
      CongTrans(v * w, 0, v);
    } else {
      FermatAt(v);
      hide Fermat;
      PowAdd(v, e, e);
      CongMul(Pow(v, e), 1, Pow(v, e), 1);
      CongMul(v, v, w, 1);
    }
  }

  lemma FermatAt(z: int)
    requires Fermat() && !Cong(z, 0)
    ensures Cong(Pow(z, P - 1), 1)
  {
  }

  /** x^((p-1)/2) is 1 or -1 for a unit x. */
  lemma EulerSign(x: int)
    requires Fermat() && !Cong(x, 0)
    ensures Cong(Pow(x, 4 * Q + 2), 1) || Cong(Pow(x, 4 * Q + 2), -1)
  {
    hide Pow, Fermat, Cong;
    var s := Pow(x, 4 * Q + 2);
    PowAdd(x, 4 * Q + 2, 4 * Q + 2);
    assert 8 * Q + 4 == P - 1;
    FermatAt(x);
    RootsOfSquare(s, 1);
  }

  /** The candidate u v^3 (u v^7)^((p-5)/8) of ge25519_unpack_negative_vartime. */
  ghost function Candidate(u: int, v: int): int {
    (u * Pow(v, 3)) * Pow(u * Pow(v, 7), Q)
  }

  /** For u = x^2 v the candidate collects to powers of x and v alone. */
  lemma CandidateOfSquare(x: int, v: int)
    ensures v * (Candidate(Pow(x, 2) * v, v) * Candidate(Pow(x, 2) * v, v)) == Pow(x, 4 + 4 * Q) * Pow(v, 2 * P - 1)
  {
    var c := Candidate(Pow(x, 2) * v, v);
    CandidatePowers(x, v);
    assert c == Pow(x, 2 + 2 * Q) * Pow(v, 4 + 8 * Q);
    hide Pow, Candidate;
    var a, b := Pow(x, 2 + 2 * Q), Pow(v, 4 + 8 * Q);
    Regroup(a, b, a, b);
    PowAdd(x, 2 + 2 * Q, 2 + 2 * Q);
    PowAdd(v, 4 + 8 * Q, 4 + 8 * Q);
    assert v * ((a * a) * (b * b)) == (a * a) * (v * (b * b));
    PowStep(v, 8 + 16 * Q);
    assert 9 + 16 * Q == 2 * P - 1;
  }

  lemma PowStep(x: int, e: nat)
    ensures Pow(x, e + 1) == x * Pow(x, e)
  {
  }

  lemma CandidatePowers(x: int, v: int)
    ensures Candidate(Pow(x, 2) * v, v) == Pow(x, 2 + 2 * Q) * Pow(v, 4 + 8 * Q)
  {
    var x2 := Pow(x, 2);
    PowStep(v, 3); PowStep(v, 7);
    assert Candidate(x2 * v, v) == ((x2 * v) * Pow(v, 3)) * Pow((x2 * v) * Pow(v, 7), Q);
    hide Pow, Candidate;
    assert (x2 * v) * Pow(v, 3) == x2 * Pow(v, 4);
    assert (x2 * v) * Pow(v, 7) == x2 * Pow(v, 8);
    PowMul(x2, Pow(v, 8), Q);
    PowPow(x, 2, Q);
    PowPow(v, 8, Q);
    Regroup(x2, Pow(v, 4), Pow(x, 2 * Q), Pow(v, 8 * Q));
    PowAdd(x, 2, 2 * Q);
    PowAdd(v, 4, 8 * Q);
  }

  /** If u / v has a root, the candidate is a root of u / v or of -u / v. */
  lemma CandidateIsRoot(x: int, u: int, v: int)
    requires Fermat() && Cong(u, (x * x) * v)
    ensures Cong(v * (Candidate(u, v) * Candidate(u, v)), u) || Cong(v * (Candidate(u, v) * Candidate(u, v)), -u)
  {
    hide Fermat, Pow, Cong;
    var c := Candidate(u, v);
    if Cong(x, 0) {
      ZeroRoot(x, u, v);
    } else {
      var w := Pow(x, 2) * v;
      SquareIsPow(x);
      CandidateCong(u, w, v);
      CandidateOfSquare(x, v);
      var c' := Candidate(w, v);
      CongMul(c, c', c, c');
      CongRefl(v);
      CongMul(v, v, c * c, c' * c');
      PowTwicePMinusOne(v);
      SignedRoot(x, u, v, v * (c * c));
    }
  }

  lemma SquareIsPow(x: int)
    ensures Pow(x, 2) == x * x
  {
    assert Pow(x, 2) == x * Pow(x, 1);
    assert Pow(x, 1) == x * Pow(x, 0);
  }

  lemma CandidateCong(u: int, w: int, v: int)
    requires Cong(u, w)
    ensures Cong(Candidate(u, v), Candidate(w, v))
  {
    hide Pow, Cong;
    CongRefl(Pow(v, 3)); CongRefl(Pow(v, 7));
    CongMul(u, w, Pow(v, 3), Pow(v, 3));
    CongMul(u, w, Pow(v, 7), Pow(v, 7));
    CongPow(u * Pow(v, 7), w * Pow(v, 7), Q);
    CongMul(u * Pow(v, 3), w * Pow(v, 3), Pow(u * Pow(v, 7), Q), Pow(w * Pow(v, 7), Q));
  }

  lemma ZeroRoot(x: int, u: int, v: int)
    requires Cong(x, 0) && Cong(u, (x * x) * v)
    ensures Cong(v * (Candidate(u, v) * Candidate(u, v)), u)
  {
    hide Pow, Cong;
    CongRefl(x); CongRefl(v);
    CongMul(x, 0, x, x);
    CongMul(x * x, 0, v, v);
    CongTrans(u, (x * x) * v, 0);
    var a, b := Pow(v, 3), Pow(u * Pow(v, 7), Q);
    var c := Candidate(u, v);
    var m := (a * b) * (v * c);
    assert v * (c * c) == u * m by {
      assert c == u * (a * b);
      assert v * ((u * (a * b)) * c) == u * ((a * b) * (v * c));
    }
    CongRefl(m);
    CongMul(u, 0, m, m);
    CongSym(u, 0);
    CongTrans(u * m, 0, u);
  }

  /** x^(4+4q) v is x^2 v times the sign of x. */
  lemma SignedRoot(x: int, u: int, v: int, t: int)
    requires Fermat() && !Cong(x, 0) && Cong(u, (x * x) * v)
    requires Cong(t, Pow(x, 4 + 4 * Q) * Pow(v, 2 * P - 1)) && Cong(Pow(v, 2 * P - 1), v)
    ensures Cong(t, u) || Cong(t, -u)
  {
    hide Fermat, Pow, Cong;
    var s := Pow(x, 4 * Q + 2);
    EulerSign(x);
    SquareIsPow(x);
    PowAdd(x, 2, 4 * Q + 2);
    CongRefl(Pow(x, 4 + 4 * Q));
    CongProduct(t, Pow(x, 4 + 4 * Q), Pow(v, 2 * P - 1), Pow(x, 4 + 4 * Q), v);
    assert ((x * x) * s) * v == ((x * x) * v) * s;
    CongSym(u, (x * x) * v);
    if Cong(s, 1) {
      CongProduct(t, (x * x) * v, s, u, 1);
    } else {
      CongProduct(t, (x * x) * v, s, u, -1);
    }
  }
}
