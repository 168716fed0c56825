/** The merge loop of build_tree: the queue shrinks to one node while the merged nodes pile up at
    the end of the heap array. */
module Merging {
  import opened Trees
  import opened Heap
  import opened Huffman

  // ----- what the arrays say about the merges so far

  /** heap[heapMax..] holds the merged pairs, the latest first. */
  ghost predicate OrderOk(h: seq<nat>, ms: seq<Merge>)
  {
    && |h| == HEAP_SIZE && 2 * |ms| <= HEAP_SIZE
    && forall i :: 0 <= i < |ms| ==> h[HEAP_SIZE - 1 - 2 * i] == ms[i].n && h[HEAP_SIZE - 2 - 2 * i] == ms[i].m
  }

  /** The Dad fields of the sons, and the Freq fields of the fathers. */
  ghost predicate LinksOk(t: seq<CtData>, elems: nat, ms: seq<Merge>)
  {
    && elems + |ms| <= |t| && SonsOlder(elems, ms)
    && forall i :: 0 <= i < |ms| ==>
         && t[ms[i].n].dl == elems + i && t[ms[i].m].dl == elems + i
         && t[elems + i].fc == t[ms[i].n].fc + t[ms[i].m].fc
  }

  /** n has the least frequency in f and m the least but for n. */
  ghost predicate LeastPair(t: seq<CtData>, f: set<nat>, n: nat, m: nat)
  {
    forall x :: x in f && x < |t| && n < |t| && m < |t| ==> t[n].fc <= t[x].fc && (x != n ==> t[m].fc <= t[x].fc)
  }

  ghost predicate Greedy(t: seq<CtData>, leaves: set<nat>, elems: nat, ms: seq<Merge>)
  {
    forall i :: 0 <= i < |ms| ==> LeastPair(t, Front(leaves, elems, ms, i), ms[i].n, ms[i].m)
  }

  /** Everything known about a tree under construction. */
  ghost predicate Built(t: seq<CtData>, h: seq<nat>, leaves: set<nat>, elems: nat, ms: seq<Merge>)
  {
    ValidMerges(leaves, elems, ms) && OrderOk(h, ms) && LinksOk(t, elems, ms) && Greedy(t, leaves, elems, ms)
  }

  /** One more merge of n and m, whose father is the next node. */
  ghost predicate Merged(t: seq<CtData>, t': seq<CtData>, node: nat, n: nat, m: nat)
  {
    && |t'| == |t| && n < node < |t| && m < node
    && t'[n].dl == t'[m].dl == node
    && t'[node].fc == t[n].fc + t[m].fc
    && (forall i :: 0 <= i < node ==> t'[i].fc == t[i].fc)
    && (forall i :: 0 <= i < node && i != n && i != m ==> t'[i].dl == t[i].dl)
    && (forall i :: node < i < |t| ==> t'[i] == t[i])
  }

  lemma {:induction false} ExtendFront(leaves: set<nat>, elems: nat, ms: seq<Merge>, mg: Merge)
    ensures forall i :: 0 <= i <= |ms| ==> Front(leaves, elems, ms + [mg], i) == Front(leaves, elems, ms, i)
    ensures Front(leaves, elems, ms + [mg], |ms| + 1) == Front(leaves, elems, ms, |ms|) - {mg.n, mg.m} + {elems + |ms|}
  {
    forall i | 0 <= i <= |ms| ensures Front(leaves, elems, ms + [mg], i) == Front(leaves, elems, ms, i) {
      FrontPrefix(leaves, elems, ms + [mg], ms, i);
    }
  }

  lemma {:induction false} ExtendValid(leaves: set<nat>, elems: nat, ms: seq<Merge>, mg: Merge)
    requires ValidMerges(leaves, elems, ms) && mg.n != mg.m
    requires mg.n in Front(leaves, elems, ms, |ms|) && mg.m in Front(leaves, elems, ms, |ms|)
    ensures ValidMerges(leaves, elems, ms + [mg])
  {
    ExtendFront(leaves, elems, ms, mg);
    var ns := ms + [mg];
    forall j | 0 <= j < |ns| ensures MergeOk(leaves, elems, ns, j) {
      if j < |ms| { assert MergeOk(leaves, elems, ms, j); }
    }
  }

  lemma {:induction false} ExtendLinks(t: seq<CtData>, t': seq<CtData>, leaves: set<nat>, elems: nat, ms: seq<Merge>,
      mg: Merge)
    requires ValidMerges(leaves, elems, ms) && LinksOk(t, elems, ms) && Merged(t, t', elems + |ms|, mg.n, mg.m)
    requires mg.n in Front(leaves, elems, ms, |ms|) && mg.m in Front(leaves, elems, ms, |ms|)
    ensures LinksOk(t', elems, ms + [mg])
  {
    hide Front, ValidMerges;
    var ns := ms + [mg];
    forall i | 0 <= i < |ns|
      ensures t'[ns[i].n].dl == elems + i && t'[ns[i].m].dl == elems + i
              && t'[elems + i].fc == t'[ns[i].n].fc + t'[ns[i].m].fc
    {
      if i < |ms| { MergedIsGone(leaves, elems, ms, i, |ms|); }
    }
  }

  lemma {:induction false} ExtendGreedy(t: seq<CtData>, t': seq<CtData>, leaves: set<nat>, elems: nat, ms: seq<Merge>,
      mg: Merge)
    requires ValidMerges(leaves, elems, ms) && Greedy(t, leaves, elems, ms) && Merged(t, t', elems + |ms|, mg.n, mg.m)
    requires LeastPair(t, Front(leaves, elems, ms, |ms|), mg.n, mg.m)
    ensures Greedy(t', leaves, elems, ms + [mg])
  {
    hide Front, ValidMerges;
    ExtendFront(leaves, elems, ms, mg);
    var ns := ms + [mg];
    forall i | 0 <= i < |ns| ensures LeastPair(t', Front(leaves, elems, ns, i), ns[i].n, ns[i].m) {
      FrontBound(leaves, elems, ms, i);
      if i < |ms| {
        MergedIsGone(leaves, elems, ms, i, |ms|);
        assert LeastPair(t, Front(leaves, elems, ms, i), ms[i].n, ms[i].m);
      }
    }
  }

  /** The frequencies in the queue always add up to the same total. */
  lemma {:induction false} FrontTotal(leaves: set<nat>, elems: nat, ms: seq<Merge>, mg: Merge, t: seq<CtData>,
      t': seq<CtData>)
    requires ValidMerges(leaves, elems, ms) && mg.n != mg.m
    requires mg.n in Front(leaves, elems, ms, |ms|) && mg.m in Front(leaves, elems, ms, |ms|)
    requires Merged(t, t', elems + |ms|, mg.n, mg.m)
    ensures SumOver(Front(leaves, elems, ms + [mg], |ms| + 1), Freqs(t', |t'|))
            == SumOver(Front(leaves, elems, ms, |ms|), Freqs(t, |t|))
  {
    hide SumOver, Front, ValidMerges;
    FrontBound(leaves, elems, ms, |ms|);
    ExtendFront(leaves, elems, ms, mg);
    TotalStep(Front(leaves, elems, ms, |ms|), Front(leaves, elems, ms + [mg], |ms| + 1), Freqs(t, |t|),
            Freqs(t', |t'|), elems + |ms|, mg.n, mg.m);
  }

  lemma {:induction false} TotalStep(f: set<nat>, g: set<nat>, w: seq<nat>, w': seq<nat>, p: nat, n: nat, m: nat)
    requires n in f && m in f && n != m && g == f - {n, m} + {p} && p < |w| == |w'|
    requires forall x :: x in f ==> x < p
    requires forall i :: 0 <= i < p ==> w'[i] == w[i]
    requires w'[p] == w[n] + w[m]
    ensures SumOver(g, w') == SumOver(f, w)
  {
    assert f == g - {p} + {n, m};
    SumReplace(g, f, w', w, p, n, m);
  }

  lemma {:induction false} PairBelowTotal(f: set<nat>, w: seq<nat>, n: nat, m: nat)
    requires n in f && m in f && n != m && n < |w| && m < |w|
    ensures w[n] + w[m] <= SumOver(f, w)
  {
    SumRemove(f, w, n);
    SumRemove(f - {n}, w, m);
  }

  // ----- the loop

  /** The larger depth plus one, in the 8 bits of the depth array. */
  function FatherDepth(a: nat, b: nat): (d: nat)
    ensures d < 256
  {
    ((if a > b then a else b) + 1) % 256
  }

  /** h' is h with n and m added below the merged nodes. */
  ghost predicate Stacked(h: seq<nat>, h': seq<nat>, top: nat, n: nat, m: nat)
  {
    && |h'| == |h| && top + 2 <= |h|
    && h'[top + 1] == n && h'[top] == m
    && forall k :: top + 2 <= k < |h| ==> h'[k] == h[k]
  }

  lemma {:induction false} StackedKeeps(h: seq<nat>, h1: seq<nat>, h2: seq<nat>, top: nat, n: nat, m: nat)
    requires Stacked(h, h1, top, n, m) && |h2| == |h1|
    requires forall k :: top <= k < |h1| ==> h2[k] == h1[k]
    ensures Stacked(h, h2, top, n, m)
  {
  }

  /** Moves the two least frequent nodes to the list of merged nodes; the second stays at the
      root of the queue for now. */
  method TakeTwo(q: NodeHeap, tree: array<CtData>) returns (n: nat, m: nat)
    requires q.Valid() && 2 <= q.heapLen && q.heapLen + 2 <= q.heapMax
    requires HeapFrom(q.heap[..], Keys(tree[..], q.depth[..]), 1, q.heapLen)
    modifies q, q.heap
    ensures q.Valid() && q.heapLen == old(q.heapLen) - 1 && q.heapMax == old(q.heapMax) - 2 && q.heapLen < q.heapMax
    ensures HeapFrom(q.heap[..], Keys(tree[..], q.depth[..]), 1, q.heapLen)
    ensures q.heap[1] == m && m in Queue(q.heap[..], q.heapLen) && n in old(Queue(q.heap[..], q.heapLen))
    ensures Queue(q.heap[..], q.heapLen) == old(Queue(q.heap[..], q.heapLen)) - multiset{n}
    ensures Stacked(old(q.heap[..]), q.heap[..], q.heapMax, n, m)
    ensures n < tree.Length && m < tree.Length && n < HEAP_SIZE && m < HEAP_SIZE
    ensures forall x :: x in old(Queue(q.heap[..], q.heapLen)) ==> x < tree.Length && tree[n].fc <= tree[x].fc
    ensures forall x :: x in old(Queue(q.heap[..], q.heapLen)) - multiset{n} ==>
              x < tree.Length && tree[m].fc <= tree[x].fc
  {
    hide Queue, HeapFrom, Keys;
    ghost var a := q.heap[..];
    ghost var keys := Keys(tree[..], q.depth[..]);
    ghost var len, top := q.heapLen, q.heapMax;
    n := q.PqRemove(tree);
    ghost var b := q.heap[..];
    Tails(a, b, len + 1, top);
    q.LeastOfQueue(b, keys, q.heapLen);
    m := q.heap[SMALLEST];
    KeysOrderFreqs(tree[..], q.depth[..]);
    q.heapMax := q.heapMax - 1;
    q.heap[q.heapMax] := n;
    q.heapMax := q.heapMax - 1;
    q.heap[q.heapMax] := m;
    SameQueue(b, q.heap[..], keys, q.heapLen);
  }

  lemma {:induction false} SameQueue(a: seq<nat>, b: seq<nat>, keys: seq<int>, len: nat)
    requires len < |a| == |b| && forall i :: 0 <= i <= len ==> a[i] == b[i]
    ensures Queue(a, len) == Queue(b, len)
    ensures HeapFrom(a, keys, 1, len) ==> HeapFrom(b, keys, 1, len)
  {
    assert a[1..len + 1] == b[1..len + 1];
  }

  /** Makes node the father of n and m and puts it into the queue in place of m. */
  method MakeFather(q: NodeHeap, tree: array<CtData>, node: nat, n: nat, m: nat)
    requires q.Valid() && tree.Length <= HEAP_SIZE && 1 <= q.heapLen && n != m
    requires HeapFrom(q.heap[..], Keys(tree[..], q.depth[..]), 1, q.heapLen)
    requires n < node < tree.Length && m < node && q.heap[1] == m
    requires forall x :: x in Queue(q.heap[..], q.heapLen) ==> x < node
    requires tree[n].fc + tree[m].fc < 65536
    modifies q.heap, q.depth, tree
    ensures q.Valid()
    ensures HeapFrom(q.heap[..], Keys(tree[..], q.depth[..]), 1, q.heapLen)
    ensures Queue(q.heap[..], q.heapLen) == old(Queue(q.heap[..], q.heapLen)) - multiset{m} + multiset{node}
    ensures forall k :: q.heapMax <= k < HEAP_SIZE ==> q.heap[..][k] == old(q.heap[..])[k]
    ensures Merged(old(tree[..]), tree[..], node, n, m)
  {
    hide Queue, HeapFrom;
    ghost var b := q.heap[..];
    ghost var keys := Keys(tree[..], q.depth[..]);
    tree[node] := tree[node].(fc := (tree[n].fc + tree[m].fc) % 65536);
    q.depth[node] := FatherDepth(q.depth[n], q.depth[m]);
    tree[m] := tree[m].(dl := node);
    tree[n] := tree[n].(dl := node);
    q.heap[SMALLEST] := node;
    ReplaceRoot(b, q.heap[..], keys, Keys(tree[..], q.depth[..]), q.heapLen, node);
    hide Keys;
    ghost var e := q.heap[..];
    q.PqDownHeap(tree, SMALLEST);
    Tails(e, q.heap[..], q.heapLen + 1, q.heapMax);
  }

  lemma {:induction false} Tails(a: seq<nat>, b: seq<nat>, i: nat, j: nat)
    requires |a| == |b| && i <= j <= |a| && a[i..] == b[i..]
    ensures a[j..] == b[j..]
    ensures forall k :: j <= k < |a| ==> a[k] == b[k]
  {
    assert forall k :: i <= k < |a| ==> a[k] == a[i..][k - i] && b[k] == b[i..][k - i];
  }

  lemma {:induction false} KeysOrderFreqs(t: seq<CtData>, d: seq<nat>)
    requires forall i :: 0 <= i < |d| ==> d[i] < 256
    ensures forall x, y :: 0 <= x < |Keys(t, d)| && 0 <= y < |Keys(t, d)| && Keys(t, d)[x] <= Keys(t, d)[y] ==>
              t[x].fc <= t[y].fc
  {
  }

  /** The father takes the place of the least node at the root; the keys of the other nodes are as before. */
  lemma {:induction false} ReplaceRoot(b: seq<nat>, e: seq<nat>, keys: seq<int>, keys': seq<int>, len: nat, node: nat)
    requires HeapFrom(b, keys, 1, len) && 1 <= len < |b| && node < |keys| == |keys'|
    requires e == b[1 := node]
    requires forall x :: x in Queue(b, len) ==> x < node
    requires forall x :: 0 <= x < node ==> keys'[x] == keys[x]
    ensures HeapFrom(e, keys', 2, len)
    ensures Queue(e, len) == Queue(b, len) - multiset{b[1]} + multiset{node}
  {
    forall i | 1 <= i <= len ensures b[i] < node {
      assert b[1..len + 1][i - 1] == b[i];
      assert b[i] in Queue(b, len);
    }
    var s := b[2..len + 1];
    assert b[1..len + 1] == [b[1]] + s;
    assert e[1..len + 1] == [node] + s;
  }

  lemma {:induction false} ExtendBuilt(t: seq<CtData>, t': seq<CtData>, h: seq<nat>, h': seq<nat>, leaves: set<nat>,
      elems: nat, ms: seq<Merge>, mg: Merge)
    requires Built(t, h, leaves, elems, ms) && mg.n != mg.m && 2 * |ms| + 2 <= HEAP_SIZE == |h'|
    requires mg.n in Front(leaves, elems, ms, |ms|) && mg.m in Front(leaves, elems, ms, |ms|)
    requires Merged(t, t', elems + |ms|, mg.n, mg.m)
    requires LeastPair(t, Front(leaves, elems, ms, |ms|), mg.n, mg.m)
    requires Stacked(h, h', HEAP_SIZE - 2 - 2 * |ms|, mg.n, mg.m)
    ensures Built(t', h', leaves, elems, ms + [mg])
  {
    hide Front, ValidMerges, LinksOk, Greedy, Merged, LeastPair;
    ExtendValid(leaves, elems, ms, mg);
    ExtendLinks(t, t', leaves, elems, ms, mg);
    ExtendGreedy(t, t', leaves, elems, ms, mg);
  }

  lemma {:induction false} FrontOrigin(leaves: set<nat>, elems: nat, ms: seq<Merge>, j: nat)
    requires j <= |ms|
    ensures forall x :: x in Front(leaves, elems, ms, j) ==> x in leaves || x >= elems
  {
    if j > 0 { FrontOrigin(leaves, elems, ms, j - 1); }
  }

  lemma {:induction false} TwoOfFront(f: set<nat>, n: nat, m: nat)
    requires n in multiset(f) && m in multiset(f) - multiset{n}
    ensures n in f && m in f && n != m
    ensures forall x :: x in f && x != n ==> x in multiset(f) - multiset{n}
  {
  }

  lemma {:induction false} MultisetReplace(f: set<nat>, n: nat, m: nat, p: nat)
    requires n in f && m in f && n != m && p !in f
    ensures multiset(f) - multiset{n} - multiset{m} + multiset{p} == multiset(f - {n, m} + {p})
  {
  }

  lemma {:induction false} QueueAfter(leaves: set<nat>, elems: nat, ms: seq<Merge>, mg: Merge, before: multiset<nat>,
      after: multiset<nat>)
    requires ValidMerges(leaves, elems, ms) && mg.n != mg.m
    requires mg.n in Front(leaves, elems, ms, |ms|) && mg.m in Front(leaves, elems, ms, |ms|)
    requires before == multiset(Front(leaves, elems, ms, |ms|)) - multiset{mg.n}
    requires after == before - multiset{mg.m} + multiset{elems + |ms|}
    ensures after == multiset(Front(leaves, elems, ms + [mg], |ms + [mg]|))
  {
    hide Front, ValidMerges;
    FrontBound(leaves, elems, ms, |ms|);
    ExtendFront(leaves, elems, ms, mg);
    MultisetReplace(Front(leaves, elems, ms, |ms|), mg.n, mg.m, elems + |ms|);
  }

  /** The tree t, the heap array h with its two bounds, and the merges so far, at the head of the merge loop. */
  ghost predicate Midway(t: seq<CtData>, h: seq<nat>, heapLen: nat, heapMax: nat, leaves: set<nat>, elems: nat,
      ms: seq<Merge>)
  {
    && |t| == 2 * elems + 1 <= HEAP_SIZE == |h|
    && |leaves| <= elems && 1 <= heapLen && heapLen + |ms| == |leaves| && heapMax == HEAP_SIZE - 2 * |ms|
    && Queue(h, heapLen) == multiset(Front(leaves, elems, ms, |ms|))
    && Built(t, h, leaves, elems, ms)
    && SumOver(Front(leaves, elems, ms, |ms|), Freqs(t, |t|)) < 65536
  }

  /** The frequencies of the symbols are as before, and symbols that are not in use are untouched. */
  ghost predicate SymbolsKept(t: seq<CtData>, t': seq<CtData>, elems: nat, leaves: set<nat>)
  {
    && elems <= |t| == |t'|
    && forall i :: 0 <= i < elems ==> t'[i].fc == t[i].fc && (i !in leaves ==> t'[i] == t[i])
  }

  lemma {:induction false} MergedKeeps(t: seq<CtData>, t': seq<CtData>, node: nat, n: nat, m: nat, elems: nat,
      leaves: set<nat>)
    requires Merged(t, t', node, n, m) && elems <= node
    requires forall i :: 0 <= i < elems && (i == n || i == m) ==> i in leaves
    ensures SymbolsKept(t, t', elems, leaves)
  {
  }

  lemma {:induction false} MidwayOpen(t: seq<CtData>, h: seq<nat>, heapLen: nat, heapMax: nat, leaves: set<nat>,
      elems: nat, ms: seq<Merge>)
    requires Midway(t, h, heapLen, heapMax, leaves, elems, ms) && 2 <= heapLen
    ensures |t| == 2 * elems + 1 <= HEAP_SIZE && |h| == HEAP_SIZE && heapLen + 2 <= heapMax && elems + |ms| < |t|
    ensures Queue(h, heapLen) == multiset(Front(leaves, elems, ms, |ms|))
    ensures ValidMerges(leaves, elems, ms)
    ensures forall x :: x in Front(leaves, elems, ms, |ms|) ==> x < elems + |ms|
    ensures forall x :: x in Front(leaves, elems, ms, |ms|) ==> x in leaves || x >= elems
    ensures SumOver(Front(leaves, elems, ms, |ms|), Freqs(t, |t|)) < 65536
  {
    FrontBound(leaves, elems, ms, |ms|);
    FrontOrigin(leaves, elems, ms, |ms|);
  }

  lemma {:induction false} MidwayStep(t: seq<CtData>, t': seq<CtData>, h: seq<nat>, h': seq<nat>, heapLen: nat,
      heapMax: nat, leaves: set<nat>, elems: nat, ms: seq<Merge>, mg: Merge)
    requires Midway(t, h, heapLen, heapMax, leaves, elems, ms) && 2 <= heapLen <= heapMax - 2 && heapLen < |h'|
    requires mg.n != mg.m && mg.n in Front(leaves, elems, ms, |ms|) && mg.m in Front(leaves, elems, ms, |ms|)
    requires LeastPair(t, Front(leaves, elems, ms, |ms|), mg.n, mg.m)
    requires Merged(t, t', elems + |ms|, mg.n, mg.m)
    requires Stacked(h, h', heapMax - 2, mg.n, mg.m)
    requires Queue(h', heapLen - 1) == Queue(h, heapLen) - multiset{mg.n} - multiset{mg.m} + multiset{elems + |ms|}
    ensures Midway(t', h', heapLen - 1, heapMax - 2, leaves, elems, ms + [mg])
  {
    hide Queue, Built, SumOver, Front, LeastPair, Freqs;
    BuiltValid(t, h, leaves, elems, ms);
    hide OrderOk, LinksOk, ValidMerges;
    ExtendBuilt(t, t', h, h', leaves, elems, ms, mg);
    FrontTotal(leaves, elems, ms, mg, t, t');
    QueueAfter(leaves, elems, ms, mg, Queue(h, heapLen) - multiset{mg.n}, Queue(h', heapLen - 1));
  }

  /** TakeTwo in the terms of the merges so far. */
  method TakeFromFront(q: NodeHeap, tree: array<CtData>, ghost leaves: set<nat>, elems: nat, ghost ms: seq<Merge>)
    returns (n: nat, m: nat)
    requires q.Valid() && HeapFrom(q.heap[..], Keys(tree[..], q.depth[..]), 1, q.heapLen)
    requires Midway(tree[..], q.heap[..], q.heapLen, q.heapMax, leaves, elems, ms) && 2 <= q.heapLen
    modifies q, q.heap
    ensures q.Valid() && HeapFrom(q.heap[..], Keys(tree[..], q.depth[..]), 1, q.heapLen)
    ensures 2 <= old(q.heapLen) <= old(q.heapMax) - 2 && q.heapLen == old(q.heapLen) - 1
            && q.heapMax == old(q.heapMax) - 2
    ensures n != m && n in Front(leaves, elems, ms, |ms|) && m in Front(leaves, elems, ms, |ms|)
    ensures n < elems + |ms| && m < elems + |ms| && elems + |ms| < tree.Length <= HEAP_SIZE
    ensures LeastPair(tree[..], Front(leaves, elems, ms, |ms|), n, m)
    ensures Stacked(old(q.heap[..]), q.heap[..], q.heapMax, n, m)
    ensures q.heap[1] == m && Queue(q.heap[..], q.heapLen) == old(Queue(q.heap[..], q.heapLen)) - multiset{n}
    ensures forall x :: x in Queue(q.heap[..], q.heapLen) ==> x < elems + |ms|
    ensures tree[n].fc + tree[m].fc < 65536
    ensures forall i :: 0 <= i < elems && (i == n || i == m) ==> i in leaves
  {
    hide Midway, Queue, HeapFrom, Keys, SumOver, Front, ValidMerges, Freqs, Stacked;
    ghost var f := Front(leaves, elems, ms, |ms|);
    MidwayOpen(tree[..], q.heap[..], q.heapLen, q.heapMax, leaves, elems, ms);
    n, m := TakeTwo(q, tree);
    TwoOfFront(f, n, m);
    FreqSum(tree[..], f, n, m);
  }

  /** One turn of the merge loop. */
  method MergeStep(q: NodeHeap, tree: array<CtData>, ghost leaves: set<nat>, elems: nat, node: nat,
      ghost ms: seq<Merge>)
    returns (ghost mg: Merge)
    requires q.Valid() && HeapFrom(q.heap[..], Keys(tree[..], q.depth[..]), 1, q.heapLen)
    requires Midway(tree[..], q.heap[..], q.heapLen, q.heapMax, leaves, elems, ms) && 2 <= q.heapLen
            && node == elems + |ms|
    modifies q, q.heap, q.depth, tree
    ensures q.Valid() && HeapFrom(q.heap[..], Keys(tree[..], q.depth[..]), 1, q.heapLen)
    ensures Midway(tree[..], q.heap[..], q.heapLen, q.heapMax, leaves, elems, ms + [mg])
            && q.heapLen == old(q.heapLen) - 1
    ensures SymbolsKept(old(tree[..]), tree[..], elems, leaves)
  {
    hide Midway, Queue, HeapFrom, Keys, Front, SymbolsKept, LeastPair, Merged, Stacked;
    ghost var t, h, len, top := tree[..], q.heap[..], q.heapLen, q.heapMax;
    var n, m := TakeFromFront(q, tree, leaves, elems, ms);
    mg := Merge(n, m);
    ghost var h1 := q.heap[..];
    MakeFather(q, tree, node, n, m);
    StackedKeeps(h, h1, q.heap[..], q.heapMax, n, m);
    MidwayStep(t, tree[..], h, q.heap[..], len, top, leaves, elems, ms, mg);
    MergedKeeps(t, tree[..], node, n, m, elems, leaves);
  }

  lemma {:induction false} FreqSum(t: seq<CtData>, f: set<nat>, n: nat, m: nat)
    requires n in f && m in f && n != m && n < |t| && m < |t|
    ensures t[n].fc + t[m].fc <= SumOver(f, Freqs(t, |t|))
  {
    PairBelowTotal(f, Freqs(t, |t|), n, m);
  }

  lemma {:induction false} BuiltValid(t: seq<CtData>, h: seq<nat>, leaves: set<nat>, elems: nat, ms: seq<Merge>)
    requires Built(t, h, leaves, elems, ms)
    ensures ValidMerges(leaves, elems, ms) && OrderOk(h, ms) && LinksOk(t, elems, ms)
  {
  }
}
