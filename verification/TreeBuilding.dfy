/** build_tree: from frequencies to lengths and codes. */
module TreeBuilding {
  import opened Bits
  import opened Canonical
  import opened Trees
  import opened Costs
  import opened Heap
  import opened Huffman
  import opened Merging
  import opened Walk
  import opened BitLengths
  import opened GenBitlen
  import opened Optimal
  import opened Ranking

  // ----- the symbols in use

  /** The symbols below n with a frequency. */
  function InUse(t: seq<CtData>, n: nat): set<nat>
    requires n <= |t|
  {
    set s: nat | 0 <= s < n && t[s].fc != 0
  }

  lemma {:induction false} InUseNext(t: seq<CtData>, t': seq<CtData>, n: nat)
    requires n < |t| == |t'| && forall s :: 0 <= s <= n ==> t'[s].fc == t[s].fc
    ensures InUse(t', n + 1) == InUse(t, n) + if t[n].fc != 0 then {n} else {}
    ensures n !in InUse(t, n)
  {
  }

  lemma {:induction false} QueuePush(a: seq<nat>, b: seq<nat>, len: nat, x: nat)
    requires len + 1 < |a| == |b| && b == a[len + 1 := x]
    ensures Queue(b, len + 1) == Queue(a, len) + multiset{x}
  {
    assert b[1..len + 2] == a[1..len + 1] + [x];
  }

  lemma {:induction false} MultisetAdd(f: set<nat>, x: nat)
    requires x !in f
    ensures multiset(f + {x}) == multiset(f) + multiset{x}
    ensures |f + {x}| == |f| + 1
  {
  }

  /** The queue holds exactly the symbols in use below n; top is the last of them, -1 if there is none. */
  ghost predicate Collected(t: seq<CtData>, h: seq<nat>, heapLen: nat, n: nat, top: int)
  {
    && n <= |t| && heapLen <= n && heapLen < |h|
    && Queue(h, heapLen) == multiset(InUse(t, n)) && |InUse(t, n)| == heapLen
    && (forall s :: s in InUse(t, n) ==> s <= top)
    && -1 <= top < n && (heapLen == 0 <==> top == -1) && (top >= 0 ==> top in InUse(t, n))
  }

  lemma {:induction false} CollectStep(t: seq<CtData>, t': seq<CtData>, h: seq<nat>, heapLen: nat, n: nat, top: int)
    requires Collected(t, h, heapLen, n, top) && n < |t| == |t'| && n + 1 < |h|
    requires forall s :: 0 <= s <= n ==> t'[s].fc == t[s].fc
    ensures t[n].fc == 0 ==> Collected(t', h, heapLen, n + 1, top)
    ensures t[n].fc != 0 ==> Collected(t', h[heapLen + 1 := n], heapLen + 1, n + 1, n)
  {
    hide Queue;
    InUseNext(t, t', n);
    if t[n].fc != 0 {
      QueuePush(h, h[heapLen + 1 := n], heapLen, n);
      MultisetAdd(InUse(t, n), n);
    }
  }

  /** Puts every symbol in use into the queue and gives the others length 0. */
  method CollectLeaves(desc: TreeDesc, q: NodeHeap) returns (maxCode: int)
    requires desc.Valid() && q.heap.Length == q.depth.Length == HEAP_SIZE && q.heap != q.depth
    requires forall i :: 0 <= i < HEAP_SIZE ==> q.depth[i] < 256
    modifies q, q.heap, q.depth, desc.dynTree
    ensures q.Valid() && q.heapMax == HEAP_SIZE
    ensures Collected(desc.dynTree[..], q.heap[..], q.heapLen, desc.elems, maxCode)
    ensures forall i :: 0 <= i < desc.dynTree.Length ==> desc.dynTree[..][i].fc == old(desc.dynTree[..])[i].fc
    ensures forall s :: 0 <= s < desc.elems && desc.dynTree[s].fc == 0 ==> desc.dynTree[s].dl == 0
  {
    hide Collected, Pow2;
    var tree := desc.dynTree;
    ghost var t0 := tree[..];
    q.heapLen := 0;
    q.heapMax := HEAP_SIZE;
    maxCode := -1;
    CollectNone(t0, q.heap[..]);
    var n := 0;
    while n < desc.elems
      invariant 0 <= n <= desc.elems && q.heapLen <= n && q.heapMax == HEAP_SIZE
      invariant Collected(tree[..], q.heap[..], q.heapLen, n, maxCode)
      invariant forall i :: 0 <= i < HEAP_SIZE ==> q.depth[i] < 256
      invariant forall i :: 0 <= i < tree.Length ==> tree[..][i].fc == t0[i].fc
      invariant forall s :: 0 <= s < n && tree[s].fc == 0 ==> tree[s].dl == 0
    {
      ghost var t, h, top := tree[..], q.heap[..], maxCode;
      if tree[n].fc != 0 {
        q.heapLen := q.heapLen + 1;
        q.heap[q.heapLen] := n;
        maxCode := n;
        q.depth[n] := 0;
        CollectStep(t, tree[..], h, q.heapLen - 1, n, top);
      } else {
        tree[n] := tree[n].(dl := 0);
        CollectStep(t, tree[..], h, q.heapLen, n, maxCode);
      }
      n := n + 1;
    }
  }

  lemma {:induction false} CollectNone(t: seq<CtData>, h: seq<nat>)
    requires |h| > 0
    ensures Collected(t, h, 0, 0, -1)
  {
    assert h[1..1] == [];
    assert InUse(t, 0) == {};
  }

  // ----- forcing two codes

  /** The frequencies with one added for each forced symbol. */
  function AddForced(freq: seq<nat>, forced: seq<nat>): (r: seq<nat>)
    requires forall i :: 0 <= i < |forced| ==> forced[i] < |freq|
    ensures |r| == |freq|
  {
    if forced == [] then freq
    else
      var f := AddForced(freq, forced[..|forced| - 1]);
      var s := forced[|forced| - 1];
      f[s := f[s] + 1]
  }

  /** The symbols with a frequency. */
  function Symbols(freq: seq<nat>): set<nat> {
    set s: nat | s < |freq| && freq[s] > 0
  }

  /** The last of them, or -1. */
  function LastSymbol(freq: seq<nat>): (top: int)
    ensures -1 <= top < |freq| && (top >= 0 ==> freq[top] > 0) && forall s :: top < s < |freq| ==> freq[s] == 0
  {
    if freq == [] then -1
    else if freq[|freq| - 1] > 0 then |freq| - 1
    else LastSymbol(freq[..|freq| - 1])
  }

  /** The symbols that are forced behind top when n are in use. */
  function ForcedFrom(top: int, n: nat): (r: seq<nat>)
    requires top >= -1
    ensures |r| == (if n < 2 then 2 - n else 0) && forall i :: 0 <= i < |r| ==> r[i] < 3
    decreases 2 - n
  {
    if n >= 2 then []
    else
      var s: nat := if top < 2 then top + 1 else 0;
      [s] + ForcedFrom(if top < 2 then top + 1 else top, n + 1)
  }

  /** The frequencies for which the tree is built: fewer than two symbols in use are made two. */
  function UsedFor(freq: seq<nat>): (used: seq<nat>)
    requires |freq| >= 3
    ensures |used| == |freq|
  {
    AddForced(freq, ForcedFrom(LastSymbol(freq), |Symbols(freq)|))
  }

  lemma {:induction false} CollectedSymbols(t: seq<CtData>, h: seq<nat>, heapLen: nat, n: nat, top: int, freq: seq<nat>)
    requires Collected(t, h, heapLen, n, top) && |freq| == n && forall s :: 0 <= s < n ==> t[s].fc == freq[s]
    ensures LastSymbol(freq) == top && |Symbols(freq)| == heapLen
  {
    assert Symbols(freq) == InUse(t, n);
    var last := LastSymbol(freq);
    if last >= 0 { assert last in InUse(t, n); }
  }

  function SumAt(w: seq<nat>, at: seq<nat>): nat
    requires forall i :: 0 <= i < |at| ==> at[i] < |w|
  {
    if at == [] then 0 else SumAt(w, at[..|at| - 1]) + w[at[|at| - 1]]
  }

  lemma {:induction false} CostForced(freq: seq<nat>, forced: seq<nat>, lens: seq<nat>, extra: seq<nat>)
    requires |freq| == |lens| == |extra|
    requires forall i :: 0 <= i < |forced| ==> forced[i] < |freq| && extra[forced[i]] == 0
    ensures Cost(AddForced(freq, forced), lens, extra) == Cost(freq, lens, extra) + SumAt(lens, forced)
  {
    if forced != [] {
      var init, s := forced[..|forced| - 1], forced[|forced| - 1];
      CostForced(freq, init, lens, extra);
      CostAdd(AddForced(freq, init), lens, extra, s, 1);
    }
  }

  lemma {:induction false} SumAtOnes(w: seq<nat>, at: seq<nat>)
    requires forall i :: 0 <= i < |at| ==> at[i] < |w| && w[at[i]] == 1
    ensures SumAt(w, at) == |at|
  {
    if at != [] { SumAtOnes(w, at[..|at| - 1]); }
  }

  lemma {:induction false} TotalForced(freq: seq<nat>, forced: seq<nat>)
    requires forall i :: 0 <= i < |forced| ==> forced[i] < |freq|
    ensures Total(AddForced(freq, forced)) == Total(freq) + |forced|
    ensures forall s :: 0 <= s < |freq| ==> freq[s] <= AddForced(freq, forced)[s]
  {
    if forced != [] {
      TotalForced(freq, forced[..|forced| - 1]);
      TotalAdd(AddForced(freq, forced[..|forced| - 1]), forced[|forced| - 1], 1);
    }
  }

  ghost predicate Forcible(forced: seq<nat>, elems: nat, t: seq<CtData>)
  {
    elems <= |t| && |forced| <= 2 && forall i :: 0 <= i < |forced| ==> forced[i] < 3 <= elems && t[forced[i]].fc != 0
  }

  lemma {:induction false} ForceStep(t0: seq<CtData>, t: seq<CtData>, elems: nat, forced: seq<nat>, s: nat,
      slens: seq<nat>)
    requires 3 <= elems <= |t| == |t0| && |slens| == elems && s < 3 && |forced| <= 1 && t[s].fc == 0
    requires Forcible(forced, elems, t)
    requires Freqs(t, elems) == AddForced(Freqs(t0, elems), forced)
    ensures var t' := t[s := t[s].(fc := 1)];
            Forcible(forced + [s], elems, t') && Freqs(t', elems) == AddForced(Freqs(t0, elems), forced + [s])
    ensures forall i :: 0 <= i <= |forced| ==> (forced + [s])[i] < elems
    ensures SumAt(slens, forced + [s]) == SumAt(slens, forced) + slens[s]
  {
    assert (forced + [s])[..|forced|] == forced;
  }

  lemma {:induction false} ForcedCollected(t: seq<CtData>, h: seq<nat>, heapLen: nat, n: nat, top: int, s: nat)
    requires Collected(t, h, heapLen, n, top) && heapLen < 2 && 3 <= n && n <= |t| && heapLen + 1 < |h|
    requires s == if top < 2 then top + 1 else 0
    ensures s < 3 && t[s].fc == 0
    ensures Collected(t[s := t[s].(fc := 1)], h[heapLen + 1 := s], heapLen + 1, n, if top < 2 then top + 1 else top)
  {
    hide Queue;
    var f := InUse(t, n);
    if heapLen == 1 {
      assert |f - {top}| == 0;
      assert f == {top};
    } else {
      assert f == {};
    }
    assert s !in f;
    var t' := t[s := t[s].(fc := 1)];
    assert InUse(t', n) == f + {s};
    MultisetAdd(f, s);
    QueuePush(h, h[heapLen + 1 := s], heapLen, s);
  }

  /** The state while codes are forced: forced lists the symbols given a code so far. */
  ghost predicate Forcing(desc: TreeDesc, q: NodeHeap, t0: seq<CtData>, top: int, forced: seq<nat>)
    requires desc.Valid() && |t0| == desc.dynTree.Length
    reads desc.dynTree, q, q.heap, q.depth
  {
    && q.Valid() && q.heapMax == HEAP_SIZE
    && Collected(desc.dynTree[..], q.heap[..], q.heapLen, desc.elems, top)
    && |forced| <= q.heapLen && (|forced| > 0 ==> q.heapLen <= 2)
    && (forall i :: 0 <= i < |t0| ==> desc.dynTree[..][i].dl == t0[i].dl)
    && Forcible(forced, desc.elems, desc.dynTree[..])
    && Freqs(desc.dynTree[..], desc.elems) == AddForced(Freqs(t0, desc.elems), forced)
  }

  /** Gives one more symbol a code; its cost is taken off in advance. */
  method ForceOne(desc: TreeDesc, q: NodeHeap, g: BlockStats, top0: int, ghost t0: seq<CtData>, ghost forced0: seq<nat>)
    returns (top: int, ghost forced: seq<nat>)
    requires desc.Valid() && |t0| == desc.dynTree.Length && Forcing(desc, q, t0, top0, forced0) && q.heapLen < 2
    modifies q, q.heap, q.depth, desc.dynTree, g`optLen, g`staticLen
    ensures q.heapLen == old(q.heapLen) + 1 && Forcing(desc, q, t0, top, forced) && -1 <= top0 && -1 <= top
    ensures forced + ForcedFrom(top, q.heapLen) == forced0 + ForcedFrom(top0, old(q.heapLen))
    ensures g.optLen == old(g.optLen) - 1 && |forced| == |forced0| + 1
    ensures forall i :: 0 <= i < |forced| ==> forced[i] < desc.elems
    ensures desc.staticTree != null ==>
              g.staticLen + SumAt(desc.StaticLens(), forced)
                  == old(g.staticLen) + SumAt(old(desc.StaticLens()), forced0)
    ensures desc.staticTree == null ==> g.staticLen == old(g.staticLen)
  {
    hide Collected, Pow2, AddForced, Queue, Forcible, SumAt, ForcedFrom, Freqs;
    var tree := desc.dynTree;
    ghost var t, h := tree[..], q.heap[..];
    TopRange(t, h, q.heapLen, desc.elems, top0);
    var new': nat := if top0 < 2 then top0 + 1 else 0;
    ForcedCollected(t, h, q.heapLen, desc.elems, top0, new');
    ForceStep(t0, t, desc.elems, forced0, new', desc.StaticLens());
    top := if top0 < 2 then top0 + 1 else top0;
    q.heapLen := q.heapLen + 1;
    q.heap[q.heapLen] := new';
    tree[new'] := tree[new'].(fc := 1);
    q.depth[new'] := 0;
    g.optLen := g.optLen - 1;
    if desc.staticTree != null { g.staticLen := g.staticLen - desc.staticTree[new'].dl; }
    forced := forced0 + [new'];
    assert tree[..] == t[new' := t[new'].(fc := 1)];
    assert q.heap[..] == h[q.heapLen := new'];
    ForcedNext(forced0, top0, q.heapLen - 1);
  }

  lemma {:induction false} ForcedNext(forced: seq<nat>, top: int, n: nat)
    requires top >= -1 && n < 2
    ensures var s: nat := if top < 2 then top + 1 else 0;
            forced + [s] + ForcedFrom(if top < 2 then top + 1 else top, n + 1) == forced + ForcedFrom(top, n)
  {
  }

  /** Makes sure that at least two symbols get a code. */
  method ForceTwo(desc: TreeDesc, q: NodeHeap, g: BlockStats, maxCode0: int)
    returns (maxCode: nat, ghost forced: seq<nat>)
    requires desc.Valid() && q.Valid() && q.heapMax == HEAP_SIZE
    requires Collected(desc.dynTree[..], q.heap[..], q.heapLen, desc.elems, maxCode0)
    modifies q, q.heap, q.depth, desc.dynTree, g`optLen, g`staticLen
    ensures q.Valid() && q.heapMax == HEAP_SIZE && 2 <= q.heapLen && (|forced| > 0 ==> q.heapLen == 2)
    ensures Collected(desc.dynTree[..], q.heap[..], q.heapLen, desc.elems, maxCode)
    ensures forall i :: 0 <= i < desc.dynTree.Length ==> desc.dynTree[..][i].dl == old(desc.dynTree[..])[i].dl
    ensures Forcible(forced, desc.elems, desc.dynTree[..])
    ensures Freqs(desc.dynTree[..], desc.elems) == AddForced(old(Freqs(desc.dynTree[..], desc.elems)), forced)
    ensures forall i :: 0 <= i < |forced| ==> forced[i] < |desc.StaticLens()|
    ensures maxCode0 >= -1 && forced == ForcedFrom(maxCode0, old(q.heapLen))
    ensures g.optLen == old(g.optLen) - |forced|
    ensures g.staticLen
            == old(g.staticLen) - if desc.staticTree == null then 0 else SumAt(old(desc.StaticLens()), forced)
  {
    hide Collected, Pow2, AddForced, SumAt, Forcible, Queue;
    TopRange(desc.dynTree[..], q.heap[..], q.heapLen, desc.elems, maxCode0);
    ghost var t0, slens := desc.dynTree[..], desc.StaticLens();
    forced := [];
    var top := maxCode0;
    NoneForced(Freqs(t0, desc.elems), slens, t0, desc.elems);
    while q.heapLen < 2
      invariant q.Valid() && Forcing(desc, q, t0, top, forced)
      invariant -1 <= top && forced + ForcedFrom(top, q.heapLen) == ForcedFrom(maxCode0, old(q.heapLen))
      invariant forall i :: 0 <= i < |forced| ==> forced[i] < desc.elems
      invariant g.optLen == old(g.optLen) - |forced|
      invariant g.staticLen == old(g.staticLen) - if desc.staticTree == null then 0 else SumAt(slens, forced)
    {
      top, forced := ForceOne(desc, q, g, top, t0, forced);
    }
    TopRange(desc.dynTree[..], q.heap[..], q.heapLen, desc.elems, top);
    maxCode := top;
  }

  lemma {:induction false} NoneForced(freq: seq<nat>, slens: seq<nat>, t: seq<CtData>, elems: nat)
    requires elems <= |t|
    ensures AddForced(freq, []) == freq && SumAt(slens, []) == 0 && Forcible([], elems, t)
  {
  }

  lemma {:induction false} TopRange(t: seq<CtData>, h: seq<nat>, heapLen: nat, n: nat, top: int)
    requires Collected(t, h, heapLen, n, top)
    ensures -1 <= top < n && (heapLen > 0 ==> 0 <= top && top in InUse(t, n))
  {
  }

  // ----- the whole of build_tree

  lemma {:induction false} CollectedNodes(t: seq<CtData>, h: seq<nat>, heapLen: nat, n: nat, top: int)
    requires Collected(t, h, heapLen, n, top)
    ensures NodesBelow(h, heapLen, n)
    ensures Queue(h, heapLen) == multiset(InUse(t, n)) && |InUse(t, n)| == heapLen
    ensures forall s :: s in InUse(t, n) ==> s <= top
  {
    forall i | 1 <= i <= heapLen ensures h[i] < n {
      assert h[1..heapLen + 1][i - 1] == h[i];
      assert h[i] in Queue(h, heapLen);
      assert h[i] in multiset(InUse(t, n));
    }
  }

  /** Establishes heap order bottom up. */
  method Heapify(q: NodeHeap, tree: array<CtData>)
    requires q.Valid() && 2 <= q.heapLen && NodesBelow(q.heap[..], q.heapLen, |Keys(tree[..], q.depth[..])|)
    modifies q.heap
    ensures q.Valid() && HeapFrom(q.heap[..], Keys(tree[..], q.depth[..]), 1, q.heapLen)
    ensures Queue(q.heap[..], q.heapLen) == old(Queue(q.heap[..], q.heapLen))
  {
    hide Queue, Keys;
    var n := q.heapLen / 2;
    while n >= 1
      invariant 0 <= n <= q.heapLen / 2 && q.Valid()
      invariant HeapFrom(q.heap[..], Keys(tree[..], q.depth[..]), n + 1, q.heapLen)
      invariant Queue(q.heap[..], q.heapLen) == old(Queue(q.heap[..], q.heapLen))
    {
      q.PqDownHeap(tree, n);
      n := n - 1;
    }
  }

  lemma {:induction false} SumIsTotal(f: set<nat>, w: seq<nat>, freq: seq<nat>)
    requires |freq| <= |w| && forall s :: 0 <= s < |freq| ==> w[s] == freq[s]
    requires forall s :: 0 <= s < |w| && s in f ==> s < |freq|
    ensures SumOver(f, w) <= Total(freq)
    decreases |w|
  {
    if w != [] {
      var k := |w| - 1;
      if k < |freq| {
        SumIsTotal(f, w[..k], freq[..k]);
      } else {
        SumIsTotal(f, w[..k], freq);
      }
    }
  }

  lemma {:induction false} MidwayStart(t: seq<CtData>, h: seq<nat>, heapLen: nat, elems: nat, top: int)
    requires Collected(t, h, heapLen, elems, top) && |t| == 2 * elems + 1 <= HEAP_SIZE == |h| && 1 <= heapLen
    requires Total(Freqs(t, elems)) < 65536
    ensures Midway(t, h, heapLen, HEAP_SIZE, InUse(t, elems), elems, [])
  {
    hide Queue;
    SumIsTotal(InUse(t, elems), Freqs(t, |t|), Freqs(t, elems));
    assert Built(t, h, InUse(t, elems), elems, []);
  }

  /** The merge loop and the root placed on top of the merged nodes. */
  method MergeAll(desc: TreeDesc, q: NodeHeap, ghost leaves: set<nat>) returns (ghost ms: seq<Merge>)
    requires desc.Valid() && q.Valid() && HeapFrom(q.heap[..], Keys(desc.dynTree[..], q.depth[..]), 1, q.heapLen)
    requires Midway(desc.dynTree[..], q.heap[..], q.heapLen, q.heapMax, leaves, desc.elems, []) && 2 <= q.heapLen
    modifies q, q.heap, q.depth, desc.dynTree
    ensures |leaves| == |ms| + 1 && 1 <= |ms| && 2 * |ms| < HEAP_SIZE && q.heapMax == HEAP_SIZE - 1 - 2 * |ms|
    ensures Built(desc.dynTree[..], q.heap[..], leaves, desc.elems, ms) && q.heap[q.heapMax] == desc.elems + |ms| - 1
    ensures SymbolsKept(old(desc.dynTree[..]), desc.dynTree[..], desc.elems, leaves)
    ensures q.Settled()
  {
    hide Midway, HeapFrom, Keys, Pow2;
    var tree := desc.dynTree;
    ms := [];
    var node := desc.elems;
    while true
      invariant q.Valid() && HeapFrom(q.heap[..], Keys(tree[..], q.depth[..]), 1, q.heapLen)
      invariant Midway(tree[..], q.heap[..], q.heapLen, q.heapMax, leaves, desc.elems, ms) && 2 <= q.heapLen
      invariant node == desc.elems + |ms|
      invariant SymbolsKept(old(tree[..]), tree[..], desc.elems, leaves)
      decreases q.heapLen
    {
      ghost var mg := MergeStep(q, tree, leaves, desc.elems, node, ms);
      ms := ms + [mg];
      node := node + 1;
      if q.heapLen < 2 { break; }
    }
    MidwayEnd(tree[..], q.heap[..], q.heapLen, q.heapMax, leaves, desc.elems, ms);
    q.heapMax := q.heapMax - 1;
    ghost var h := q.heap[..];
    q.heap[q.heapMax] := q.heap[SMALLEST];
    RootPlaced(tree[..], h, q.heap[..], leaves, desc.elems, ms);
  }

  lemma {:induction false} MidwayEnd(t: seq<CtData>, h: seq<nat>, heapLen: nat, heapMax: nat, leaves: set<nat>,
      elems: nat, ms: seq<Merge>)
    requires Midway(t, h, heapLen, heapMax, leaves, elems, ms) && heapLen == 1 && 1 <= |ms|
    ensures |leaves| == |ms| + 1 && |h| == HEAP_SIZE && 2 * |ms| < HEAP_SIZE && heapMax == HEAP_SIZE - 2 * |ms|
    ensures h[1] == elems + |ms| - 1
    ensures Built(t, h, leaves, elems, ms)
  {
    RootFront(leaves, elems, ms);
    assert h[1..2][0] == h[1];
    assert h[1] in Queue(h, 1);
    assert h[1] in multiset({elems + |ms| - 1});
  }

  lemma {:induction false} RootPlaced(t: seq<CtData>, h: seq<nat>, h': seq<nat>, leaves: set<nat>, elems: nat,
      ms: seq<Merge>)
    requires Built(t, h, leaves, elems, ms) && 2 * |ms| < HEAP_SIZE && |h'| == |h|
    requires forall i :: HEAP_SIZE - 2 * |ms| <= i < HEAP_SIZE ==> h'[i] == h[i]
    ensures Built(t, h', leaves, elems, ms)
  {
    hide ValidMerges, LinksOk, Greedy;
  }

  /** With two symbols in use both lengths are 1. */
  lemma {:induction false} TwoLeaves(leaves: set<nat>, elems: nat, ms: seq<Merge>, m: nat, lens: seq<nat>)
    requires ValidMerges(leaves, elems, ms) && SonsOlder(elems, ms) && |leaves| == 2 && |ms| == 1 && 1 <= m
            && |lens| >= elems
    requires Overflow(elems, ms, m, 0) == 0 ==>
              forall s :: s in leaves ==> s < elems && lens[s] == LensAt(elems, ms, m, 0)[s]
    ensures forall s :: s in leaves ==> s < elems && lens[s] == 1
  {
    assert MergeOk(leaves, elems, ms, 0);
    assert Front(leaves, elems, ms, 0) == leaves;
    var n, k := ms[0].n, ms[0].m;
    assert |leaves - {n, k}| == 0 by { assert leaves - {n, k} == leaves - {n} - {k}; }
    assert leaves == leaves - {n, k} + {n, k};
    assert LensAt(elems, ms, m, 1)[elems] == 0;
    assert Overflow(elems, ms, m, 1) == 0;
  }

  /** Cutting the unused symbols off the end. */
  lemma {:induction false} KraftTrim(lens: seq<nat>, n: nat, m: nat)
    requires n <= |lens| && forall s :: n <= s < |lens| ==> lens[s] == 0
    ensures Kraft(lens[..n], m) == Kraft(lens, m)
    ensures forall l :: l > 0 ==> Count(lens[..n], l) == Count(lens, l)
  {
    if n < |lens| {
      KraftTrim(lens[..|lens| - 1], n, m);
      assert lens[..|lens| - 1][..n] == lens[..n];
    } else {
      assert lens[..n] == lens;
    }
  }

  /** The Kraft sum in finer units. */
  lemma {:induction false} KraftScale(lens: seq<nat>, m: nat, m': nat)
    requires LengthsWithin(lens, m) && m <= m'
    ensures Kraft(lens, m') == Kraft(lens, m) * Pow2(m' - m)
  {
    hide Pow2;
    if lens != [] {
      var x := lens[|lens| - 1];
      KraftScale(lens[..|lens| - 1], m, m');
      if x > 0 { Pow2Add(m - x, m' - m); }
      assert m - x + (m' - m) == m' - x;
      Spread(Kraft(lens[..|lens| - 1], m), Share(x, m), Pow2(m' - m));
    }
  }

  /** The lengths that gen_codes gets: a complete code. */
  lemma {:induction false} ReadyForCodes(lens: seq<nat>, leaves: set<nat>, m: nat, bc: seq<nat>, maxCode: nat)
    requires GoodLengths(lens, leaves, m, bc) && m <= MAX_BITS && maxCode < |lens|
    requires forall s :: s in leaves ==> s <= maxCode
    ensures LengthsWithin(lens[..maxCode + 1], MAX_BITS) && Kraft(lens[..maxCode + 1], MAX_BITS) == Pow2(MAX_BITS)
    ensures |bc| == MAX_BITS + 1 && bc[0] == 0
            && forall l :: 1 <= l <= MAX_BITS ==> bc[l] == Count(lens[..maxCode + 1], l)
  {
    hide Pow2;
    KraftTrim(lens, maxCode + 1, m);
    KraftTrim(lens, maxCode + 1, MAX_BITS);
    KraftScale(lens, m, MAX_BITS);
    Pow2Add(m, MAX_BITS - m);
  }

  /** The arrays of the tree, the queue and the counters are all different. */
  ghost predicate Apart(desc: TreeDesc, q: NodeHeap, g: BlockStats)
    reads q
  {
    desc.Valid() && g.blCount.Length == MAX_BITS + 1 && q.heap != g.blCount && q.depth != g.blCount
  }

  /** The first half of build_tree: the queue, the forced codes and the merges. */
  method JoinNodes(desc: TreeDesc, q: NodeHeap, g: BlockStats)
    returns (ghost leaves: set<nat>, ghost forced: seq<nat>, ghost ms: seq<Merge>)
    requires Apart(desc, q, g) && q.Settled()
    requires Total(Freqs(desc.dynTree[..], desc.elems)) < 65534
    modifies desc, q, q.heap, q.depth, desc.dynTree, g`optLen, g`staticLen
    ensures q.Settled() && desc.Ready(q, g, leaves, ms)
    ensures leaves == InUse(desc.dynTree[..], desc.elems) && desc.maxCode in leaves
    ensures forall s :: 0 <= s < desc.elems && s !in leaves ==> desc.dynTree[s].dl == 0 && desc.dynTree[s].fc == 0
    ensures Forcible(forced, desc.elems, desc.dynTree[..]) && (|forced| > 0 ==> |leaves| == 2)
    ensures Freqs(desc.dynTree[..], desc.elems) == AddForced(old(Freqs(desc.dynTree[..], desc.elems)), forced)
    ensures Freqs(desc.dynTree[..], desc.elems) == UsedFor(old(Freqs(desc.dynTree[..], desc.elems)))
    ensures forall i :: 0 <= i < |forced| ==> forced[i] < |desc.StaticLens()|
    ensures g.optLen == old(g.optLen) - |forced|
    ensures g.staticLen
            == old(g.staticLen) - if desc.staticTree == null then 0 else SumAt(old(desc.StaticLens()), forced)
  {
    hide Midway, HeapFrom, Keys, Pow2, Collected, AddForced, Built, Total, Queue, Forcible, SumAt, UsedFor, Symbols,
        LastSymbol, ForcedFrom;
    ghost var freq := Freqs(desc.dynTree[..], desc.elems);
    var top := CollectLeaves(desc, q);
    SameColumn(freq, desc.dynTree[..], desc.elems);
    ghost var t0 := desc.dynTree[..];
    CollectedSymbols(t0, q.heap[..], q.heapLen, desc.elems, top, freq);
    var maxCode;
    maxCode, forced := ForceTwo(desc, q, g, top);
    desc.maxCode := maxCode;
    ghost var t1, h := desc.dynTree[..], q.heap[..];
    leaves := InUse(t1, desc.elems);
    ForcedTotal(freq, forced, desc.elems, t1);
    CollectedNodes(t1, h, q.heapLen, desc.elems, maxCode);
    TopRange(t1, h, q.heapLen, desc.elems, maxCode);
    MidwayStart(t1, h, q.heapLen, desc.elems, maxCode);
    KeysLength(t1, q.depth[..]);
    Heapify(q, desc.dynTree);
    MidwayHeap(t1, h, q.heap[..], q.heapLen, leaves, desc.elems);
    ms := MergeAll(desc, q, leaves);
    SymbolColumns(t1, desc.dynTree[..], desc.elems, leaves, forced);
    ForcedUsed(freq, forced);
    UnusedLens(t0, t1, desc.dynTree[..], freq, forced, desc.elems, leaves);
  }

  lemma {:induction false} ForcedUsed(freq: seq<nat>, forced: seq<nat>)
    requires |freq| >= 3 && forced == ForcedFrom(LastSymbol(freq), |Symbols(freq)|)
    ensures AddForced(freq, forced) == UsedFor(freq) && (|Symbols(freq)| >= 2 ==> UsedFor(freq) == freq)
  {
  }

  lemma {:induction false} UnusedLens(t0: seq<CtData>, t1: seq<CtData>, t: seq<CtData>, freq: seq<nat>,
      forced: seq<nat>, elems: nat, leaves: set<nat>)
    requires elems <= |t0| == |t1| == |t| && Forcible(forced, elems, t1) && |freq| == elems
    requires Freqs(t0, elems) == freq && Freqs(t1, elems) == AddForced(freq, forced)
    requires forall s :: 0 <= s < elems && t0[s].fc == 0 ==> t0[s].dl == 0
    requires forall i :: 0 <= i < |t0| ==> t1[i].dl == t0[i].dl
    requires forall s :: 0 <= s < elems && s !in leaves ==> t[s].fc == 0 && t[s].dl == t1[s].dl
    requires leaves == InUse(t1, elems)
    ensures forall s :: 0 <= s < elems && s !in leaves ==> t[s].dl == 0 && t[s].fc == 0
  {
    TotalForced(freq, forced);
    forall s | 0 <= s < elems && s !in leaves ensures t[s].dl == 0 {
      assert Freqs(t1, elems)[s] == t1[s].fc == 0;
      assert freq[s] <= AddForced(freq, forced)[s];
      assert freq[s] == t0[s].fc;
    }
  }

  lemma {:induction false} ForcedTotal(freq: seq<nat>, forced: seq<nat>, elems: nat, t: seq<CtData>)
    requires Forcible(forced, elems, t) && |freq| == elems
    ensures Total(AddForced(freq, forced)) <= Total(freq) + 2
    ensures forall s :: 0 <= s < |freq| ==> freq[s] <= AddForced(freq, forced)[s]
  {
    TotalForced(freq, forced);
  }

  /** Builds the tree for the frequencies in desc.dynTree: a complete code that covers every symbol in use, whose cost
      is added to optLen. used is the frequencies with the forced codes; leaves and ms describe the tree. */
  method BuildTree(desc: TreeDesc, q: NodeHeap, g: BlockStats)
    returns (ghost lens: seq<nat>, ghost used: seq<nat>, ghost leaves: set<nat>, ghost ms: seq<Merge>)
    requires Apart(desc, q, g) && q.Settled()
    requires Total(Freqs(desc.dynTree[..], desc.elems)) < 65534
    modifies desc, q, q.heap, q.depth, desc.dynTree, g`optLen, g`staticLen, g.blCount
    ensures q.Settled() && desc.maxCode < desc.elems && |lens| == desc.elems
    ensures Lens(desc.dynTree[..], desc.elems) == lens
    ensures HasCodes(desc.dynTree[..], lens[..desc.maxCode + 1])
    ensures Kraft(lens[..desc.maxCode + 1], MAX_BITS) == Pow2(MAX_BITS)
    ensures LengthsWithin(lens, desc.maxLength) && lens[desc.maxCode] > 0
            && forall s :: desc.maxCode < s < desc.elems ==> lens[s] == 0
    ensures HuffmanLengths(old(Freqs(desc.dynTree[..], desc.elems)), used, leaves, ms, desc.maxLength, lens)
    ensures var freq := old(Freqs(desc.dynTree[..], desc.elems));
            && UsedFreqs(freq, used, lens)
            && g.optLen == old(g.optLen) + Cost(freq, lens, desc.Extra())
            && g.staticLen
               == old(g.staticLen) +
                  if desc.staticTree == null then 0 else Cost(freq, old(desc.StaticLens()), desc.Extra())
  {
    hide Midway, Pow2, Cost, AddForced, Built, Kraft, GoodLengths, Total, Forcible, Overflow, LensAt, SumAt, HasCodes,
        IsHuffman, HuffmanLengths, BestLengths, AtLimit, UsedFor, UsedFreqs, RepairedFrom, CutLens, Descending;
    ghost var freq, slens, forced := Freqs(desc.dynTree[..], desc.elems), desc.StaticLens(), [];
    leaves, forced, ms := JoinNodes(desc, q, g);
    ghost var t := desc.dynTree[..];
    used := Freqs(t, desc.elems);
    BuiltValid(t, q.heap[..], leaves, desc.elems, ms);
    hide ValidMerges, OrderOk, LinksOk;
    lens := GenBitLengths(desc, q, g, leaves, ms);
    BuiltIsHuffman(t, q.heap[..], leaves, desc.elems, ms);
    HuffmanBuilt(freq, used, leaves, ms, desc.maxLength, lens);
    SettleCost(desc, freq, forced, used, slens, leaves, ms, lens, t);
    GoodFacts(lens, leaves, desc.maxLength, g.blCount[..], desc.maxCode);
    ReadyForCodes(lens, leaves, desc.maxLength, g.blCount[..], desc.maxCode);
    UsedIs(t, freq, forced, used, leaves, lens);
    ghost var t3 := desc.dynTree[..];
    LensPrefix(t3, lens, desc.maxCode + 1);
    GenCodes(desc.dynTree, desc.maxCode, g.blCount);
    SameLens(t3, desc.dynTree[..], desc.elems);
  }

  /** The leaves are the symbols in use, and each merge joins two nodes of least frequency among those that have no
      father yet. */
  ghost predicate IsHuffman(used: seq<nat>, leaves: set<nat>, ms: seq<Merge>) {
    && leaves == Symbols(used) && ValidMerges(leaves, |used|, ms) && SonsOlder(|used|, ms)
    && 1 <= |ms| && |leaves| == |ms| + 1
    && exists w :: GreedyMerges(leaves, |used|, ms, w) && used <= w
  }

  lemma {:induction false} BuiltIsHuffman(t: seq<CtData>, h: seq<nat>, leaves: set<nat>, elems: nat, ms: seq<Merge>)
    requires Built(t, h, leaves, elems, ms) && |leaves| == |ms| + 1 && 1 <= |ms|
    requires SonsOlder(elems, ms) && elems <= |t| && leaves == InUse(t, elems)
    ensures IsHuffman(Freqs(t, elems), leaves, ms)
  {
    hide OrderOk, Front;
    var used, w := Freqs(t, elems), Freqs(t, elems + |ms|);
    assert used <= w;
    assert Symbols(used) == leaves;
    forall i | 0 <= i < |ms| ensures LeastTwo(Front(leaves, elems, ms, i), w, ms[i].n, ms[i].m) {
      assert LeastPair(t, Front(leaves, elems, ms, i), ms[i].n, ms[i].m);
    }
    assert GreedyMerges(leaves, elems, ms, w);
  }

  lemma {:induction false} HuffmanIsBest(used: seq<nat>, leaves: set<nat>, ms: seq<Merge>, maxLen: nat, lens: seq<nat>)
    requires IsHuffman(used, leaves, ms) && Overflow(|used|, ms, maxLen, 0) == 0 && |lens| == |used|
    requires forall s :: s in leaves ==> s < |used| && lens[s] == LensAt(|used|, ms, maxLen, 0)[s]
    ensures BestLengths(used, lens)
  {
    hide ValidMerges, Overflow, LensAt, BestLengths, Front, GreedyMerges;
    var w :| GreedyMerges(leaves, |used|, ms, w) && used <= w;
    GreedySize(leaves, |used|, ms, w);
    UncutIsBest(leaves, |used|, ms, w, maxLen, used, lens);
  }

  /** What build_tree makes of the frequencies. The tree is the greedy one for the frequencies used, which are freq
      itself if at least two symbols are in use. No prefix-free code for them is cheaper if no length was cut down,
      and a caller sees that none was if no length is as great as it may be. If some were, the lengths are those of
      the tree after as many turns of the repair as there are pairs of them. Either way no symbol has a longer code
      than one that is less frequent. */
  ghost predicate HuffmanLengths(freq: seq<nat>, used: seq<nat>, leaves: set<nat>, ms: seq<Merge>, maxLen: nat,
      lens: seq<nat>)
  {
    && 3 <= |freq| == |used| == |lens|
    && used == UsedFor(freq) && (|Symbols(freq)| >= 2 ==> used == freq)
    && IsHuffman(used, leaves, ms)
    && (Overflow(|used|, ms, maxLen, 0) == 0 ==> BestLengths(used, lens))
    && (!AtLimit(lens, maxLen) ==> BestLengths(used, lens))
    && RepairedFrom(CutLens(leaves, |used|, ms, maxLen), lens, maxLen, Overflow(|used|, ms, maxLen, 0) / 2)
    && NeverLonger(used, lens)
  }

  lemma {:induction false} HuffmanBuilt(freq: seq<nat>, used: seq<nat>, leaves: set<nat>, ms: seq<Merge>, maxLen: nat,
      lens: seq<nat>)
    requires 3 <= |freq| == |used| == |lens| && used == UsedFor(freq) && IsHuffman(used, leaves, ms)
    requires Overflow(|used|, ms, maxLen, 0) == 0 ==>
               forall s :: s in leaves ==> s < |used| && lens[s] == LensAt(|used|, ms, maxLen, 0)[s]
    requires Overflow(|used|, ms, maxLen, 0) > 0 ==> AtLimit(lens, maxLen) && Descending(ms, lens, 0)
    requires RepairedFrom(CutLens(leaves, |used|, ms, maxLen), lens, maxLen, Overflow(|used|, ms, maxLen, 0) / 2)
    ensures HuffmanLengths(freq, used, leaves, ms, maxLen, lens)
  {
    hide ValidMerges, BestLengths, Overflow, LensAt, AtLimit, Symbols, AddForced, RepairedFrom, CutLens, NeverLonger,
        Descending;
    HuffmanNeverLonger(used, leaves, ms, maxLen, lens);
    if Overflow(|used|, ms, maxLen, 0) == 0 { HuffmanIsBest(used, leaves, ms, maxLen, lens); }
    ForcedUsed(freq, ForcedFrom(LastSymbol(freq), |Symbols(freq)|));
  }

  lemma {:induction false} HuffmanNeverLonger(used: seq<nat>, leaves: set<nat>, ms: seq<Merge>, maxLen: nat,
      lens: seq<nat>)
    requires IsHuffman(used, leaves, ms) && |lens| == |used|
    requires Overflow(|used|, ms, maxLen, 0) == 0 ==>
               forall s :: s in leaves ==> s < |used| && lens[s] == LensAt(|used|, ms, maxLen, 0)[s]
    requires Overflow(|used|, ms, maxLen, 0) > 0 ==> Descending(ms, lens, 0)
    ensures NeverLonger(used, lens)
  {
    hide ValidMerges, Overflow, LensAt, NeverLonger, Descending, Front, GreedyMerges;
    var w :| GreedyMerges(leaves, |used|, ms, w) && used <= w;
    if Overflow(|used|, ms, maxLen, 0) == 0 {
      UncutNeverLonger(leaves, |used|, ms, w, maxLen, used, lens);
    } else {
      HandedNeverLonger(leaves, |used|, ms, w, used, lens);
    }
  }

  lemma {:induction false} GreedySize(leaves: set<nat>, elems: nat, ms: seq<Merge>, w: seq<nat>)
    requires GreedyMerges(leaves, elems, ms, w)
    ensures |w| == elems + |ms|
  {
  }

  /** The frequencies with forced codes: nothing is lost, and exactly the symbols in use have a length. */
  ghost predicate UsedFreqs(freq: seq<nat>, used: seq<nat>, lens: seq<nat>)
  {
    |freq| == |used| == |lens| && forall s :: 0 <= s < |freq| ==> freq[s] <= used[s] && (used[s] > 0 <==> lens[s] > 0)
  }

  lemma {:induction false} UsedIs(t: seq<CtData>, freq: seq<nat>, forced: seq<nat>, used: seq<nat>, leaves: set<nat>,
      lens: seq<nat>)
    requires |freq| == |used| == |lens| <= |t| && Forcible(forced, |freq|, t)
    requires used == AddForced(freq, forced) && used == Freqs(t, |freq|) && leaves == InUse(t, |freq|)
    requires forall s :: 0 <= s < |lens| ==> (lens[s] > 0 <==> s in leaves)
    ensures UsedFreqs(freq, used, lens)
  {
    TotalForced(freq, forced);
  }

  /** Unused symbols after the last code do not disturb the codes. */
  lemma {:induction false} PadCodes(t: seq<CtData>, lens: seq<nat>, n: nat)
    requires n <= |lens| <= |t| && Lens(t, |lens|) == lens && HasCodes(t, lens[..n])
    requires forall s :: n <= s < |lens| ==> lens[s] == 0
    ensures HasCodes(t, lens)
  {
    hide Pow2, Reverse;
    KraftTrim(lens, n, MAX_BITS);
    forall s | 0 <= s < |lens|
      ensures t[s].dl == lens[s] && (lens[s] > 0 ==> t[s].fc == Reverse(CodeOf(lens, s), lens[s]))
    {
      if s < n {
        assert lens[..n][s] == lens[s];
        if lens[s] > 0 {
          SameFirst(lens[..n], lens, lens[s]);
          assert lens[..n][..s] == lens[..s];
        }
      }
    }
  }

  lemma {:induction false} SameFirst(a: seq<nat>, b: seq<nat>, l: nat)
    requires forall i :: i > 0 ==> Count(a, i) == Count(b, i)
    ensures FirstCode(a, l) == FirstCode(b, l)
  {
    if l > 0 { SameFirst(a, b, l - 1); }
  }

  lemma {:induction false} SameLens(t: seq<CtData>, t': seq<CtData>, n: nat)
    requires n <= |t| == |t'| && forall i :: 0 <= i < |t| ==> t'[i].dl == t[i].dl
    ensures Lens(t', n) == Lens(t, n)
  {
  }

  lemma {:induction false} LensPrefix(t: seq<CtData>, lens: seq<nat>, n: nat)
    requires n <= |lens| <= |t| && Lens(t, |lens|) == lens
    ensures Lens(t, n) == lens[..n]
  {
  }

  lemma {:induction false} GoodFacts(lens: seq<nat>, leaves: set<nat>, m: nat, bc: seq<nat>, maxCode: nat)
    requires GoodLengths(lens, leaves, m, bc) && maxCode < |lens| && maxCode in leaves
            && forall s :: s in leaves ==> s <= maxCode
    ensures LengthsWithin(lens, m) && lens[maxCode] > 0 && forall s :: maxCode < s < |lens| ==> lens[s] == 0
    ensures forall s :: 0 <= s < |lens| ==> (lens[s] > 0 <==> s in leaves)
  {
  }

  lemma {:induction false} MidwayHeap(t: seq<CtData>, h: seq<nat>, h': seq<nat>, heapLen: nat, leaves: set<nat>,
      elems: nat)
    requires Midway(t, h, heapLen, HEAP_SIZE, leaves, elems, []) && |h'| == |h|
            && Queue(h', heapLen) == Queue(h, heapLen)
    ensures Midway(t, h', heapLen, HEAP_SIZE, leaves, elems, [])
  {
    hide SumOver, LinksOk, Greedy, ValidMerges;
  }

  lemma {:induction false} SymbolColumns(t: seq<CtData>, t': seq<CtData>, elems: nat, leaves: set<nat>,
      forced: seq<nat>)
    requires SymbolsKept(t, t', elems, leaves) && leaves == InUse(t, elems)
    requires Forcible(forced, elems, t)
    ensures Freqs(t', elems) == Freqs(t, elems) && InUse(t', elems) == leaves && Forcible(forced, elems, t')
    ensures forall s :: 0 <= s < elems && s !in leaves ==> t'[s].fc == 0 && t'[s].dl == t[s].dl
  {
  }

  /** The cost taken off for forced symbols is what gen_bitlen adds for them. */
  lemma {:induction false} SettleCost(desc: TreeDesc, freq: seq<nat>, forced: seq<nat>, used: seq<nat>,
      slens: seq<nat>, leaves: set<nat>, ms: seq<Merge>, lens: seq<nat>, t: seq<CtData>)
    requires desc.Valid() && |freq| == |used| == |slens| == |lens| == desc.elems
    requires Forcible(forced, desc.elems, t) && leaves == InUse(t, desc.elems) && used == AddForced(freq, forced)
    requires |forced| > 0 ==> |leaves| == 2
    requires ValidMerges(leaves, desc.elems, ms) && SonsOlder(desc.elems, ms) && |leaves| == |ms| + 1
    requires Overflow(desc.elems, ms, desc.maxLength, 0) == 0 ==>
               forall s :: s in leaves ==> s < desc.elems && lens[s] == LensAt(desc.elems, ms, desc.maxLength, 0)[s]
    ensures Cost(used, lens, desc.Extra()) == Cost(freq, lens, desc.Extra()) + |forced|
    ensures forall i :: 0 <= i < |forced| ==> forced[i] < |slens|
    ensures Cost(used, slens, desc.Extra()) == Cost(freq, slens, desc.Extra()) + SumAt(slens, forced)
  {
    hide Cost, AddForced, ValidMerges, Overflow, LensAt, Pow2;
    CostForced(freq, forced, lens, desc.Extra());
    CostForced(freq, forced, slens, desc.Extra());
    if |forced| > 0 { TwoLeaves(leaves, desc.elems, ms, desc.maxLength, lens); }
    SumAtOnes(lens, forced);
  }

  lemma {:induction false} KeysLength(t: seq<CtData>, d: seq<nat>)
    requires |t| <= |d|
    ensures |Keys(t, d)| == |t|
  {
  }

  lemma {:induction false} SameColumn(freq: seq<nat>, t: seq<CtData>, n: nat)
    requires n <= |t| && |freq| == n && forall i :: 0 <= i < n ==> t[i].fc == freq[i]
    ensures Freqs(t, n) == freq
  {
  }
}
