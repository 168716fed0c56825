/** The heap of gzip.c: heap[1..heapLen] is a priority queue of tree nodes, heap[heapMax..] the nodes already merged. */
module Heap {
  import opened Trees

  const HEAP_SIZE := 573
  const SMALLEST := 1

  /** The order of the heap: SMALLER(tree, n, m) holds exactly when the key of n is at most that of m. */
  function Key(tree: seq<CtData>, depth: seq<nat>, n: nat): int
    requires n < |tree| && n < |depth|
  {
    tree[n].fc * 256 + depth[n]
  }

  predicate Smaller(tree: array<CtData>, depth: array<nat>, n: nat, m: nat)
    requires n < tree.Length && n < depth.Length && m < tree.Length && m < depth.Length
    reads tree, depth
  {
    tree[n].fc < tree[m].fc || (tree[n].fc == tree[m].fc && depth[n] <= depth[m])
  }

  function Keys(tree: seq<CtData>, depth: seq<nat>): (k: seq<int>)
    ensures |k| == if |tree| < |depth| then |tree| else |depth|
    ensures forall n :: 0 <= n < |k| ==> k[n] == Key(tree, depth, n)
  {
    seq(if |tree| < |depth| then |tree| else |depth|,
            (n: nat) requires n < |tree| && n < |depth| => Key(tree, depth, n))
  }

  // ----- heap order on sequences

  ghost predicate NodesBelow(a: seq<nat>, len: nat, bound: nat)
  {
    len < |a| && forall i :: 1 <= i <= len ==> a[i] < bound
  }

  /** Each father at index from or later is no larger than its sons. */
  ghost predicate HeapFrom(a: seq<nat>, keys: seq<int>, from: nat, len: nat)
  {
    && NodesBelow(a, len, |keys|)
    && forall i :: 2 <= i <= len && i / 2 >= from ==> keys[a[i / 2]] <= keys[a[i]]
  }

  /** Heap order except between index k, which holds the element being moved down, and its sons. */
  ghost predicate Sifting(a: seq<nat>, keys: seq<int>, from: nat, k: nat, len: nat)
  {
    && NodesBelow(a, len, |keys|)
    && 1 <= from <= k <= len
    && (forall i :: 2 <= i <= len && i / 2 >= from && i / 2 != k ==> keys[a[i / 2]] <= keys[a[i]])
    && (k / 2 >= from ==> forall i :: 2 <= i <= len && i / 2 == k ==> keys[a[k / 2]] <= keys[a[i]])
  }

  function Swap(a: seq<nat>, i: nat, j: nat): seq<nat>
    requires i < |a| && j < |a|
  {
    a[i := a[j]][j := a[i]]
  }

  lemma {:induction false} SiftStep(a: seq<nat>, keys: seq<int>, from: nat, k: nat, j: nat, len: nat)
    requires Sifting(a, keys, from, k, len) && 2 <= j <= len && j / 2 == k
    requires forall i :: 2 <= i <= len && i / 2 == k ==> keys[a[j]] <= keys[a[i]]
    requires keys[a[j]] <= keys[a[k]]
    ensures Sifting(Swap(a, k, j), keys, from, j, len)
  {
    var b := Swap(a, k, j);
    forall i | 2 <= i <= len && i / 2 >= from && i / 2 != j ensures keys[b[i / 2]] <= keys[b[i]] {
      if i == k { assert keys[a[k / 2]] <= keys[a[j]]; }
    }
    forall i | 2 <= i <= len && i / 2 == j ensures keys[b[j / 2]] <= keys[b[i]] {
      assert keys[a[i / 2]] <= keys[a[i]];
    }
  }

  ghost predicate SonsKnown(h: seq<nat>, keys: seq<int>, k: nat, len: nat) {
    len < |h| && forall i :: 2 <= i <= len && i / 2 == k ==> h[i] < |keys|
  }

  /** Index j holds a least son of index k. */
  ghost predicate IsLeastSon(h: seq<nat>, keys: seq<int>, k: nat, j: nat, len: nat) {
    && 2 <= j <= len < |h| && j / 2 == k && h[j] < |keys|
    && forall i :: 2 <= i <= len && i / 2 == k ==> h[i] < |keys| && keys[h[j]] <= keys[h[i]]
  }

  lemma {:induction false} SiftSons(a: seq<nat>, h: seq<nat>, keys: seq<int>, from: nat, k: nat, len: nat, v: nat)
    requires k < |h| && a == h[k := v] && Sifting(a, keys, from, k, len)
    ensures SonsKnown(h, keys, k, len) && v < |keys|
  {
    assert a[k] == v;
    assert forall i :: 2 <= i <= len && i / 2 == k ==> h[i] == a[i];
  }

  /** The element being moved down fits where it is. */
  lemma {:induction false} SiftStop(a: seq<nat>, h: seq<nat>, keys: seq<int>, from: nat, k: nat, j: nat, len: nat,
      v: nat)
    requires k < |h| && v < |keys| && a == h[k := v] && Sifting(a, keys, from, k, len)
    requires IsLeastSon(h, keys, k, j, len) && keys[v] <= keys[h[j]]
    ensures HeapFrom(a, keys, from, len)
  {
    forall i | 2 <= i <= len && i / 2 >= from ensures keys[a[i / 2]] <= keys[a[i]] {
      if i / 2 == k { assert a[i] == h[i]; }
    }
  }

  lemma {:induction false} SiftLeaf(a: seq<nat>, keys: seq<int>, from: nat, k: nat, len: nat)
    ensures Sifting(a, keys, from, k, len) && k * 2 > len ==> HeapFrom(a, keys, from, len)
  {
  }

  /** Moving v down one level in a is moving the least son up in h, the array that still lacks v. */
  lemma {:induction false} SiftDown(a: seq<nat>, h: seq<nat>, keys: seq<int>, from: nat, k: nat, j: nat, len: nat,
      v: nat)
    requires |h| == |a| && k < |h| && v < |keys| && a == h[k := v] && Sifting(a, keys, from, k, len)
    requires IsLeastSon(h, keys, k, j, len) && keys[h[j]] <= keys[v]
    ensures var b := Swap(a, k, j);
            && b == h[k := h[j]][j := v] && b[j] == v && Sifting(b, keys, from, j, len)
            && Queue(b, len) == Queue(a, len)
            && b[0] == a[0] && b[len + 1..] == a[len + 1..]
  {
    hide Queue;
    assert forall i :: 2 <= i <= len && i / 2 == k ==> h[i] == a[i];
    SiftStep(a, keys, from, k, j, len);
    QueueSwap(a, len, k, j);
  }

  lemma {:induction false} SiftStart(a: seq<nat>, keys: seq<int>, from: nat, len: nat)
    requires HeapFrom(a, keys, from + 1, len) && 1 <= from <= len
    ensures Sifting(a, keys, from, from, len)
  {
  }

  /** The root of a heap is a least element. */
  lemma {:induction false} RootIsLeast(a: seq<nat>, keys: seq<int>, len: nat, i: nat)
    requires HeapFrom(a, keys, 1, len) && 1 <= i <= len
    ensures keys[a[1]] <= keys[a[i]]
    decreases i
  {
    if i > 1 { RootIsLeast(a, keys, len, i / 2); }
  }

  /** The nodes in the queue. */
  function Queue(a: seq<nat>, len: nat): multiset<nat>
    requires len < |a|
  {
    multiset(a[1..len + 1])
  }

  lemma {:induction false} QueueSwap(a: seq<nat>, len: nat, i: nat, j: nat)
    requires 1 <= i <= len < |a| && 1 <= j <= len
    ensures Queue(Swap(a, i, j), len) == Queue(a, len)
  {
    var s := a[1..len + 1];
    assert Swap(a, i, j)[1..len + 1] == s[i - 1 := s[j - 1]][j - 1 := s[i - 1]];
  }

  class NodeHeap {
    const heap: array<nat>
    const depth: array<nat>
    var heapLen: nat
    var heapMax: nat

    constructor ()
      ensures heap.Length == HEAP_SIZE && depth.Length == HEAP_SIZE && heap != depth
      ensures fresh(heap) && fresh(depth)
      ensures heapLen == 0 && heapMax == HEAP_SIZE
      ensures Settled()
    {
      heap := new nat[HEAP_SIZE](_ => 0);
      depth := new nat[HEAP_SIZE](_ => 0);
      heapLen, heapMax := 0, HEAP_SIZE;
    }

    ghost predicate Valid()
      reads this, depth
    {
      Settled() && heapLen < heapMax <= HEAP_SIZE
    }

    /** What holds between two calls of build_tree. */
    ghost predicate Settled()
      reads depth
    {
      && heap.Length == HEAP_SIZE && depth.Length == HEAP_SIZE && heap != depth
      && forall i :: 0 <= i < HEAP_SIZE ==> depth[i] < 256
    }

    /** Takes the least node out of the queue: PQREMOVE. */
    method PqRemove(tree: array<CtData>) returns (top: nat)
      requires Valid() && 2 <= heapLen
      requires HeapFrom(heap[..], Keys(tree[..], depth[..]), 1, heapLen)
      modifies this`heapLen, heap
      ensures Valid() && heapLen == old(heapLen) - 1 && heapMax == old(heapMax)
      ensures HeapFrom(heap[..], Keys(tree[..], depth[..]), 1, heapLen)
      ensures top in old(Queue(heap[..], heapLen))
      ensures Queue(heap[..], heapLen) == old(Queue(heap[..], heapLen)) - multiset{top}
      ensures top < |Keys(tree[..], depth[..])|
      ensures forall x :: x in old(Queue(heap[..], heapLen)) ==>
                x < |Keys(tree[..], depth[..])| && Keys(tree[..], depth[..])[top] <= Keys(tree[..], depth[..])[x]
      ensures heap[old(heapLen) + 1..] == old(heap[heapLen + 1..])
    {
      hide Keys, Queue, HeapFrom, Settled;
      Sizes();
      ghost var keys := Keys(tree[..], depth[..]);
      ghost var a := heap[..];
      LeastOfQueue(a, keys, heapLen);
      top := heap[SMALLEST];
      heap[SMALLEST] := heap[heapLen];
      heapLen := heapLen - 1;
      QueueRemove(a, heap[..], keys, heapLen);
      PqDownHeap(tree, SMALLEST);
      assert heap[heapLen + 1..][1..] == heap[old(heapLen) + 1..];
    }

    lemma {:induction false} Sizes()
      ensures Settled() ==> heap.Length == HEAP_SIZE && depth.Length == HEAP_SIZE && heap != depth
      ensures Valid() ==> Settled() && heapLen < heap.Length
    {
    }

    static lemma {:induction false} LeastOfQueue(a: seq<nat>, keys: seq<int>, len: nat)
      requires HeapFrom(a, keys, 1, len) && 1 <= len
      ensures a[1] in Queue(a, len) && a[1] < |keys|
      ensures forall x :: x in Queue(a, len) ==> x < |keys| && keys[a[1]] <= keys[x]
    {
      assert a[1..len + 1][0] == a[1];
      forall x | x in Queue(a, len) ensures x < |keys| && keys[a[1]] <= keys[x] {
        var i :| 0 <= i < len && a[1..len + 1][i] == x;
        assert a[i + 1] == x;
        RootIsLeast(a, keys, len, i + 1);
      }
    }

    static lemma {:induction false} QueueRemove(a: seq<nat>, b: seq<nat>, keys: seq<int>, len: nat)
      requires 1 <= len && len + 1 < |a| && b == a[1 := a[len + 1]] && HeapFrom(a, keys, 1, len + 1)
      ensures Queue(b, len) == Queue(a, len + 1) - multiset{a[1]}
      ensures HeapFrom(b, keys, 2, len)
    {
      var s := a[1..len + 2];
      assert s == [a[1]] + a[2..len + 1] + [a[len + 1]];
      assert b[1..len + 1] == [a[len + 1]] + a[2..len + 1];
    }

    /** The smallest of the sons of index k, the first of which is left. */
    method LeastSon(tree: array<CtData>, k: nat, left: nat) returns (j: nat)
      requires Valid() && left == k * 2 && 1 <= k && left <= heapLen
      requires SonsKnown(heap[..], Keys(tree[..], depth[..]), k, heapLen)
      ensures IsLeastSon(heap[..], Keys(tree[..], depth[..]), k, j, heapLen)
    {
      j := left;
      if j < heapLen {
        KeyOrder(tree, heap[j + 1], heap[j]);
        if Smaller(tree, depth, heap[j + 1], heap[j]) { j := j + 1; }
      }
    }

    /** Moves the node at index from down until heap order holds from there on. */
    method PqDownHeap(tree: array<CtData>, from: nat)
      requires Valid() && 1 <= from <= heapLen
      requires HeapFrom(heap[..], Keys(tree[..], depth[..]), from + 1, heapLen)
      modifies heap
      ensures HeapFrom(heap[..], Keys(tree[..], depth[..]), from, heapLen)
      ensures Queue(heap[..], heapLen) == old(Queue(heap[..], heapLen))
      ensures heap[0] == old(heap[0]) && heap[heapLen + 1..] == old(heap[heapLen + 1..])
    {
      hide *;
      Sizes();
      ghost var keys := Keys(tree[..], depth[..]);
      var k := from;
      var v := heap[k];
      var j := k * 2;
      ghost var a0 := heap[..];
      ghost var a := a0;
      SiftStart(a, keys, from, heapLen);
      while j <= heapLen
        invariant from <= k <= heapLen && j == k * 2
        invariant |a| == heap.Length && a[k] == v && a == heap[..][k := v]
        invariant Sifting(a, keys, from, k, heapLen)
        invariant Queue(a, heapLen) == Queue(a0, heapLen) && a[0] == a0[0] && a[heapLen + 1..] == a0[heapLen + 1..]
      {
        SiftSons(a, heap[..], keys, from, k, heapLen, v);
        j := LeastSon(tree, k, j);
        Known(heap[..], tree, k, j);
        KeyOrder(tree, v, heap[j]);
        if Smaller(tree, depth, v, heap[j]) {
          SiftStop(a, heap[..], keys, from, k, j, heapLen, v);
          break;
        }
        SiftDown(a, heap[..], keys, from, k, j, heapLen, v);
        ghost var b := Swap(a, k, j);
        heap[k] := heap[j];
        a := b;
        k := j;
        j := j * 2;
      }
      if j > heapLen { SiftLeaf(a, keys, from, k, heapLen); }
      heap[k] := v;
      assert heap[..] == a;
    }

    lemma {:induction false} Known(h: seq<nat>, tree: array<CtData>, k: nat, j: nat)
      requires IsLeastSon(h, Keys(tree[..], depth[..]), k, j, heapLen)
      ensures 2 <= j <= heapLen < |h| && j / 2 == k && h[j] < tree.Length && h[j] < depth.Length
    {
      hide Keys;
    }

    lemma {:induction false} KeyOrder(tree: array<CtData>, n: nat, m: nat)
      requires Settled() && n < tree.Length && n < depth.Length && m < tree.Length && m < depth.Length
      ensures Smaller(tree, depth, n, m) <==> Keys(tree[..], depth[..])[n] <= Keys(tree[..], depth[..])[m]
    {
    }
  }
}
