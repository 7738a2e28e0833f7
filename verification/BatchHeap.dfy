/** The heap of scalars behind batch verification
    (src/ed25519-donna/ed25519-donna-batchverify.h, 5-103). */
module BatchHeap {
  import opened ModmLimbs
  import opened ModmBatch
  import opened HeapOrder
  import opened CurveOps

  const HEAP_BATCH_SIZE: nat := 129

  /** The numbers a sequence of scalars stands for. */
  ghost function Values(s: seq<Limbs>): (v: seq<int>)
    ensures |v| == |s|
  {
    seq(|s|, i requires 0 <= i < |s| => Value(s[i]))
  }

  /** The first n scalars have 56-bit limbs, none above `limbsize`. */
  ghost predicate Fitting(s: seq<Limbs>, n: nat, limbsize: nat) {
    n <= |s| && forall i :: 0 <= i < n ==> Carried(s[i]) && FitsIn(s[i], limbsize)
  }

  /** The first n positions of h hold the indices below n, in heap order of the scalars. */
  ghost predicate Heaped(h: seq<nat>, s: seq<Limbs>, n: nat) {
    n <= |s| && Indices(h, n) && Ordered(Keys(h, Values(s), n))
  }

  /** x and y are the indices of the largest and second largest of the first n values. */
  ghost predicate TopTwo(v: seq<int>, n: nat, x: nat, y: nat) {
    n <= |v| && x < n && y < n && x != y && v[y] <= v[x] &&
    forall i :: 0 <= i < n && i != x ==> v[i] <= v[y]
  }

  /** batch_heap_t */
  class Heap {
    const points: array<Ge>
    const scalars: array<Limbs>
    const heap: array<nat>
    var size: nat

    constructor (points: seq<Ge>, scalars: seq<Limbs>)
      requires |points| == HEAP_BATCH_SIZE && |scalars| == HEAP_BATCH_SIZE
      ensures fresh(this.points) && fresh(this.scalars) && fresh(heap) && heap.Length == HEAP_BATCH_SIZE
      ensures this.points[..] == points && this.scalars[..] == scalars
    {
      this.points := new Ge[HEAP_BATCH_SIZE](i requires 0 <= i < HEAP_BATCH_SIZE => points[i]);
      this.scalars := new Limbs[HEAP_BATCH_SIZE](i requires 0 <= i < HEAP_BATCH_SIZE => scalars[i]);
      heap := new nat[HEAP_BATCH_SIZE](i => 0);
      size := 0;
    }

    /** heap_swap */
    method Swap(a: nat, b: nat)
      requires a < heap.Length && b < heap.Length
      modifies heap
      ensures heap[..] == Swapped(old(heap[..]), a, b)
    {
      var temp := heap[a];
      heap[a] := heap[b];
      heap[b] := temp;
    }

    /** The sifting of lines 41-46: swaps a new leaf up while its parent is smaller. */
    method SiftUp(leaf: nat, ghost n: nat)
      requires leaf < n <= heap.Length && Indices(heap[..], n) && Fitting(scalars[..], n, 4)
      requires Rising(Keys(heap[..], Values(scalars[..]), n), leaf)
      modifies heap
      ensures Heaped(heap[..], scalars[..], n)
      ensures forall i :: n <= i < heap.Length ==> heap[i] == old(heap[i])
    {
      hide Rising, Ordered, Swapped, Keys, Values;
      ghost var v := Values(scalars[..]);
      KeysLength(heap[..], v, n);
      var node: nat := leaf;
      while node > 0
        invariant node < n && Indices(heap[..], n) && Rising(Keys(heap[..], v, n), node)
        invariant forall i :: n <= i < heap.Length ==> heap[i] == old(heap[i])
      {
        var parent := (node - 1) / 2;
        KeyAt(heap[..], scalars[..], n, parent, 4);
        KeyAt(heap[..], scalars[..], n, node, 4);
        var less := LtBatch(scalars[heap[parent]], scalars[heap[node]], 4);
        if !less {
          break;
        }
        RiseStep(Keys(heap[..], v, n), node);
        SwapIndices(heap[..], v, n, parent, node);
        Swap(parent, node);
        node := parent;
      }
      RiseEnd(Keys(heap[..], v, n), node);
    }

    /** heap_insert_next */
    method InsertNext()
      requires size < heap.Length && Heaped(heap[..], scalars[..], size)
      requires Fitting(scalars[..], size + 1, 4)
      modifies heap, `size
      ensures size == old(size) + 1 && Heaped(heap[..], scalars[..], size)
    {
      hide Rising, Ordered, Keys, Values, Indices;
      InsertLast(heap[..], heap[..][size := size], scalars[..], size);
      heap[size] := size;
      SiftUp(size, size + 1);
      size := size + 1;
    }

    /** The first loop of heap_updated_root: the larger child moves up until the old root is a
        leaf. An odd size leaves no node with one child. */
    method SinkRoot(limbsize: nat) returns (leaf: nat)
      requires 3 <= size <= heap.Length && size % 2 == 1 && limbsize <= 4
      requires Indices(heap[..], size) && Fitting(scalars[..], size, limbsize)
      requires Sinking(Keys(heap[..], Values(scalars[..]), size), 0)
      modifies heap
      ensures Indices(heap[..], size) && leaf < size && Rising(Keys(heap[..], Values(scalars[..]), size), leaf)
    {
      hide Rising, Sinking, Ordered, Swapped, Keys, Values, Indices;
      ghost var v := Values(scalars[..]);
      KeysLength(heap[..], v, size);
      leaf := 0;
      while 2 * leaf + 2 < size
        invariant leaf < size && Indices(heap[..], size) && Sinking(Keys(heap[..], v, size), leaf)
      {
        var node := LargerChild(leaf, limbsize);
        SinkStep(Keys(heap[..], v, size), leaf, node);
        SwapIndices(heap[..], v, size, leaf, node);
        Swap(leaf, node);
        leaf := node;
      }
      KeysLength(heap[..], v, size);
      SinkEnd(Keys(heap[..], v, size), leaf);
    }

    /** Line 63: the child with the larger scalar, the left one on a tie. */
    method LargerChild(parent: nat, limbsize: nat) returns (node: nat)
      requires 2 * parent + 2 < size <= heap.Length && limbsize <= 4
      requires Indices(heap[..], size) && Fitting(scalars[..], size, limbsize)
      ensures node == 2 * parent + 1 || node == 2 * parent + 2
      ensures var k := Keys(heap[..], Values(scalars[..]), size);
              |k| == size && forall i :: 0 < i < size && Parent(i) == parent ==> k[i] <= k[node]
    {
      hide Keys, Values, LowValue, Value;
      var childl, childr := 2 * parent + 1, 2 * parent + 2;
      KeyAt(heap[..], scalars[..], size, childl, limbsize);
      KeyAt(heap[..], scalars[..], size, childr, limbsize);
      var less := LtBatch(scalars[heap[childl]], scalars[heap[childr]], limbsize);
      node := if less then childr else childl;
    }

    /** The second loop of heap_updated_root: back up while the parent is no larger. */
    method RiseBack(leaf: nat, limbsize: nat)
      requires leaf < size <= heap.Length && limbsize <= 4
      requires Indices(heap[..], size) && Fitting(scalars[..], size, limbsize)
      requires Rising(Keys(heap[..], Values(scalars[..]), size), leaf)
      modifies heap
      ensures Heaped(heap[..], scalars[..], size)
    {
      hide Rising, Ordered, Swapped, Keys, Values;
      ghost var v := Values(scalars[..]);
      KeysLength(heap[..], v, size);
      var node: nat := leaf;
      while node > 0
        invariant node < size && Indices(heap[..], size) && Rising(Keys(heap[..], v, size), node)
      {
        var parent := (node - 1) / 2;
        KeyAt(heap[..], scalars[..], size, parent, limbsize);
        KeyAt(heap[..], scalars[..], size, node, limbsize);
        var lte := LteBatch(scalars[heap[parent]], scalars[heap[node]], limbsize);
        if !lte {
          break;
        }
        RiseStep(Keys(heap[..], v, size), node);
        SwapIndices(heap[..], v, size, parent, node);
        Swap(parent, node);
        node := parent;
      }
      RiseEnd(Keys(heap[..], v, size), node);
    }

    /** heap_updated_root */
    method UpdatedRoot(limbsize: nat)
      requires 3 <= size <= heap.Length && size % 2 == 1 && limbsize <= 4
      requires Indices(heap[..], size) && Fitting(scalars[..], size, limbsize)
      requires Sinking(Keys(heap[..], Values(scalars[..]), size), 0)
      modifies heap
      ensures Heaped(heap[..], scalars[..], size)
    {
      hide Rising, Sinking, Ordered, Keys, Values, Fitting, Indices;
      var leaf := SinkRoot(limbsize);
      RiseBack(leaf, limbsize);
    }

    /** heap_extend */
    method Extend(newCount: nat)
      requires size <= newCount <= heap.Length && Heaped(heap[..], scalars[..], size)
      requires Fitting(scalars[..], newCount, 4)
      modifies heap, `size
      ensures size == newCount && Heaped(heap[..], scalars[..], size)
    {
      hide Heaped;
      while size < newCount
        invariant size <= newCount && Heaped(heap[..], scalars[..], size)
      {
        InsertNext();
      }
    }

    /** heap_build */
    method Build(count: nat)
      requires 0 < count <= heap.Length && Fitting(scalars[..], count, 4)
      modifies heap, `size
      ensures size == count && Heaped(heap[..], scalars[..], size)
    {
      heap[0] := 0;
      size := 0;
      Extend(count);
    }

    /** heap_get_top2 */
    method GetTop2(limbsize: nat) returns (max1: nat, max2: nat)
      requires 3 <= size <= heap.Length && limbsize <= 4
      requires Heaped(heap[..], scalars[..], size) && Fitting(scalars[..], size, limbsize)
      ensures max1 == heap[0] && TopTwo(Values(scalars[..]), size, max1, max2)
    {
      hide Ordered, Keys, Values, Fitting, TopTwo, LowValue, Value;
      var h0, h1, h2 := heap[0], heap[1], heap[2];
      FittingAt(heap[..], scalars[..], size, 1, limbsize);
      FittingAt(heap[..], scalars[..], size, 2, limbsize);
      KeyAt(heap[..], scalars[..], size, 1, limbsize);
      KeyAt(heap[..], scalars[..], size, 2, limbsize);
      var less := LtBatch(scalars[h1], scalars[h2], limbsize);
      TopOfHeap(heap[..], scalars[..], size, if less then 2 else 1);
      if less {
        h1 := h2;
      }
      max1, max2 := h0, h1;
    }
  }

  lemma FittingAt(h: seq<nat>, s: seq<Limbs>, n: nat, i: nat, limbsize: nat)
    requires Indices(h, n) && Fitting(s, n, limbsize) && i < n
    ensures Carried(s[h[i]])
  {
  }

  /** A new last position holding its own index keeps the rest of the heap. */
  lemma InsertLast(h: seq<nat>, h': seq<nat>, s: seq<Limbs>, n: nat)
    requires Heaped(h, s, n) && n < |s| && |h'| == |h| > n && h'[n] == n && h' == h[n := n]
    ensures Indices(h', n + 1) && Rising(Keys(h', Values(s), n + 1), n)
  {
  }

  /** The root and its larger child are the two largest. */
  lemma TopOfHeap(h: seq<nat>, s: seq<Limbs>, n: nat, child: nat)
    requires n >= 3 && Heaped(h, s, n) && 1 <= child <= 2
    requires Keys(h, Values(s), n)[3 - child] <= Keys(h, Values(s), n)[child]
    ensures TopTwo(Values(s), n, h[0], h[child])
  {
    hide Values;
    var v := Values(s);
    var k := Keys(h, v, n);
    forall x | 0 <= x < n && x != h[0]
      ensures v[x] <= v[h[child]]
    {
      var j := Position(h, n, x);
      ChildIsMax(k, j);
    }
    RootIsMax(k, child);
  }


  lemma KeysLength(h: seq<nat>, v: seq<int>, n: nat)
    requires Indices(h, n) && n <= |v|
    ensures |Keys(h, v, n)| == n
  {
  }

  /** The key at position i is the value of the scalar there, which its low limbs give in full. */
  lemma KeyAt(h: seq<nat>, s: seq<Limbs>, n: nat, i: nat, limbsize: nat)
    requires Indices(h, n) && Fitting(s, n, limbsize) && i < n && limbsize <= 4
    ensures |Keys(h, Values(s), n)| == n
    ensures Keys(h, Values(s), n)[i] == Values(s)[h[i]] == Value(s[h[i]]) == LowValue(s[h[i]], limbsize + 1)
  {
    hide LowValue, Value;
    FittingValue(s[h[i]], limbsize);
  }
}
