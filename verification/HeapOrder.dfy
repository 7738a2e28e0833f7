/** The order of a binary max-heap, stated on the sequence of keys in heap position. */
module HeapOrder {
  import opened Sets

  function Parent(i: nat): (p: nat)
    requires i > 0
    ensures p < i
  {
    (i - 1) / 2
  }

  ghost predicate Ordered(k: seq<int>) {
    forall i :: 0 < i < |k| ==> k[i] <= k[Parent(i)]
  }

  /** Ordered but for the key at `node`, which may exceed its parent. */
  ghost predicate Rising(k: seq<int>, node: nat) {
    node < |k| &&
    (forall i :: 0 < i < |k| && i != node ==> k[i] <= k[Parent(i)]) &&
    (node > 0 ==> forall i :: 0 < i < |k| && Parent(i) == node ==> k[i] <= k[Parent(node)])
  }

  /** Ordered but for the key at `node`, which may compare either way with parent and children. */
  ghost predicate Sinking(k: seq<int>, node: nat) {
    node < |k| &&
    (forall i :: 0 < i < |k| && i != node && Parent(i) != node ==> k[i] <= k[Parent(i)]) &&
    (node > 0 ==> forall i :: 0 < i < |k| && Parent(i) == node ==> k[i] <= k[Parent(node)])
  }

  function Swapped<T>(s: seq<T>, a: nat, b: nat): (r: seq<T>)
    requires a < |s| && b < |s|
    ensures |r| == |s| && r[a] == s[b] && r[b] == s[a]
    ensures forall i :: 0 <= i < |s| && i != a && i != b ==> r[i] == s[i]
  {
    s[a := s[b]][b := s[a]]
  }

  lemma ParentFacts(i: nat)
    requires i > 0
    ensures i == 2 * Parent(i) + 1 || i == 2 * Parent(i) + 2
    ensures Parent(2 * i + 1) == i && Parent(2 * i + 2) == i
  {
  }

  /** A larger key trades places with its parent. */
  lemma RiseStep(k: seq<int>, node: nat)
    requires Rising(k, node) && node > 0
    requires k[(node - 1) / 2] <= k[node]
    ensures Rising(Swapped(k, (node - 1) / 2, node), (node - 1) / 2)
  {
  }

  lemma RiseEnd(k: seq<int>, node: nat)
    requires Rising(k, node) && (node > 0 ==> k[node] <= k[(node - 1) / 2])
    ensures Ordered(k)
  {
  }

  /** The larger child moves up past a sinking key. */
  lemma SinkStep(k: seq<int>, node: nat, child: nat)
    requires Sinking(k, node) && child < |k| && (child == 2 * node + 1 || child == 2 * node + 2)
    requires forall i :: 0 < i < |k| && Parent(i) == node ==> k[i] <= k[child]
    ensures Sinking(Swapped(k, node, child), child)
  {
  }

  lemma SinkEnd(k: seq<int>, node: nat)
    requires Sinking(k, node) && 2 * node + 1 >= |k|
    ensures Rising(k, node)
  {
  }

  /** After the root key changes, only the root may be out of order. */
  lemma RootChanged(k: seq<int>, r: seq<int>)
    requires Ordered(k) && |r| == |k| > 0 && forall i :: 0 < i < |k| ==> r[i] == k[i]
    ensures Sinking(r, 0)
  {
  }

  lemma {:induction false} RootIsMax(k: seq<int>, i: nat)
    requires Ordered(k) && i < |k|
    ensures k[i] <= k[0]
    decreases i
  {
    if i > 0 {
      ParentFacts(i);
      RootIsMax(k, Parent(i));
    }
  }

  /** Below the root, nothing exceeds the larger of the root's two children. */
  lemma {:induction false} ChildIsMax(k: seq<int>, i: nat)
    requires Ordered(k) && 0 < i < |k| && |k| >= 3
    ensures k[i] <= k[1] || k[i] <= k[2]
    decreases i
  {
    if i > 2 {
      ParentFacts(i);
      ChildIsMax(k, Parent(i));
    }
  }

  // ---- index permutations ------------------------------------------------------------------

  /** The first n entries of h are the indices 0 to n - 1 in some order. */
  ghost predicate Indices(h: seq<nat>, n: nat) {
    n <= |h| && (forall i :: 0 <= i < n ==> h[i] < n) &&
    forall i, j :: 0 <= i < j < n ==> h[i] != h[j]
  }

  /** The keys v[h[i]] in heap position. */
  ghost function Keys(h: seq<nat>, v: seq<int>, n: nat): seq<int>
    requires Indices(h, n) && n <= |v|
  {
    seq(n, i requires 0 <= i < n => v[h[i]])
  }

  lemma SwapIndices(h: seq<nat>, v: seq<int>, n: nat, a: nat, b: nat)
    requires Indices(h, n) && n <= |v| && a < n && b < n
    ensures Indices(Swapped(h, a, b), n)
    ensures Keys(Swapped(h, a, b), v, n) == Swapped(Keys(h, v, n), a, b)
  {
  }

  ghost function UpTo(n: nat): (s: set<nat>)
    ensures |s| == n && forall x: nat :: x in s <==> x < n
  {
    if n == 0 then {} else UpTo(n - 1) + {n - 1}
  }

  ghost function FirstIndices(h: seq<nat>, n: nat, m: nat): (s: set<nat>)
    requires Indices(h, n) && m <= n
    ensures |s| == m && (forall i :: 0 <= i < m ==> h[i] in s)
    ensures forall x :: x in s ==> exists i :: 0 <= i < m && h[i] == x
  {
    if m == 0 then {} else FirstIndices(h, n, m - 1) + {h[m - 1]}
  }

  /** Distinct indices below n, n of them, leave none out. */
  lemma Position(h: seq<nat>, n: nat, x: nat) returns (j: nat)
    requires Indices(h, n) && x < n
    ensures j < n && h[j] == x
  {
    if forall i :: 0 <= i < n ==> h[i] != x {
      SubsetCount(FirstIndices(h, n, n), UpTo(n) - {x});
      assert false;
    }
    j :| j < n && h[j] == x;
  }
}
