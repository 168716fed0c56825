/** gen_bitlen: lengths from the merged tree, cut at the maximum and repaired. */
module BitLengths {
  import opened Bits
  import opened Canonical
  import opened Trees
  import opened Heap
  import opened Huffman
  import opened Merging
  import opened Walk
  import opened Costs

  /** bl_count, opt_len and static_len. The source keeps the last two in 32 bits and lets them wrap below zero for a
      moment; as only their final values are used, integers model them. */
  class BlockStats {
    const blCount: array<nat>
    var optLen: int
    var staticLen: int

    constructor ()
      ensures fresh(blCount) && blCount.Length == MAX_BITS + 1
      ensures optLen == 0 && staticLen == 0
      ensures forall i :: 0 <= i <= MAX_BITS ==> blCount[i] == 0
    {
      blCount := new nat[MAX_BITS + 1](_ => 0);
      optLen, staticLen := 0, 0;
    }
  }

  /** The extra bits of every symbol: extra[n - base] from base on, none below. */
  function ExtraTable(extra: seq<nat>, base: nat): (r: seq<nat>)
    ensures |r| == base + |extra|
    ensures forall i :: 0 <= i < |r| ==> r[i] == if i >= base then extra[i - base] else 0
  {
    seq(base + |extra|, (i: nat) requires i < base + |extra| => if i >= base then extra[i - base] else 0)
  }

  // ----- the first pass

  /** The Len fields of visited nodes of the front and the Dad fields of those still to be visited. */
  ghost predicate Visited(t: seq<CtData>, leaves: set<nat>, elems: nat, ms: seq<Merge>, maxLen: nat, e: nat)
    requires e <= 2 * |ms| && SonsOlder(elems, ms)
  {
    && elems + |ms| <= |t|
    && (forall x :: x in WalkFront(leaves, elems, ms, e) ==>
          x < elems + |ms| && t[x].dl == WalkLens(elems, ms, maxLen, e)[x])
    && (forall d :: 1 <= d <= e ==> DadOk(t, elems, ms, d))
  }

  ghost predicate DadOk(t: seq<CtData>, elems: nat, ms: seq<Merge>, d: nat)
    requires 1 <= d <= 2 * |ms|
  {
    WalkNode(ms, d) < elems + |ms| <= |t| && t[WalkNode(ms, d)].dl == elems + (d - 1) / 2
  }

  lemma {:induction false} VisitStep(t: seq<CtData>, leaves: set<nat>, elems: nat, ms: seq<Merge>, maxLen: nat, e: nat)
    requires ValidMerges(leaves, elems, ms) && SonsOlder(elems, ms) && 1 <= e <= 2 * |ms|
    requires Visited(t, leaves, elems, ms, maxLen, e)
    ensures var node := WalkNode(ms, e);
            && node < elems + |ms| <= |t| && t[node].dl < |t|
            && var p := t[node].dl;
            && p == elems + (e - 1) / 2
            && t[p].dl == WalkLens(elems, ms, maxLen, e)[p]
            && var b := Clamp(t[p].dl + 1, maxLen);
            && Visited(t[node := t[node].(dl := b)], leaves, elems, ms, maxLen, e - 1)
  {
    hide ValidMerges, Front, WalkFront, WalkLens, WalkOverflow;
    WalkStep(leaves, elems, ms, maxLen, e);
    var node := WalkNode(ms, e);
    assert DadOk(t, elems, ms, e);
    var p := t[node].dl;
    assert p == elems + (e - 1) / 2 < |t|;
    var t' := t[node := t[node].(dl := Clamp(t[p].dl + 1, maxLen))];
    forall d | 1 <= d <= e - 1 ensures DadOk(t', elems, ms, d) {
      assert DadOk(t, elems, ms, d);
      WalkDistinct(leaves, elems, ms, e, d);
    }
  }

  lemma {:induction false} VisitStart(t: seq<CtData>, leaves: set<nat>, elems: nat, ms: seq<Merge>, maxLen: nat)
    requires ValidMerges(leaves, elems, ms) && LinksOk(t, elems, ms) && |leaves| == |ms| + 1 && 1 <= |ms|
    ensures var root := elems + |ms| - 1;
            && root < |t|
            && Visited(t[root := t[root].(dl := 0)], leaves, elems, ms, maxLen, 2 * |ms|)
            && WalkFront(leaves, elems, ms, 2 * |ms|) == {root}
            && WalkOverflow(elems, ms, maxLen, 2 * |ms|) == 0
  {
    hide ValidMerges, Front;
    RootFront(leaves, elems, ms);
    var root := elems + |ms| - 1;
    var t' := t[root := t[root].(dl := 0)];
    forall d | 1 <= d <= 2 * |ms| ensures DadOk(t', elems, ms, d) {
      MergedIsGone(leaves, elems, ms, (d - 1) / 2, |ms|);
    }
  }

  lemma {:induction false} WalkOrder(h: seq<nat>, ms: seq<Merge>, e: nat)
    requires OrderOk(h, ms) && 1 <= e <= 2 * |ms|
    ensures h[HEAP_SIZE - e] == WalkNode(ms, e)
  {
    var i := (e - 1) / 2;
    assert h[HEAP_SIZE - 1 - 2 * i] == ms[i].n && h[HEAP_SIZE - 2 - 2 * i] == ms[i].m;
  }

  /** The counters after the visited leaves: marks holds their lengths. */
  ghost predicate Counted(marks: seq<nat>, blCount: seq<nat>)
  {
    |blCount| == MAX_BITS + 1 && blCount[0] == 0 && forall l :: 1 <= l <= MAX_BITS ==> blCount[l] == Count(marks, l)
  }

  lemma {:induction false} CountedMark(marks: seq<nat>, blCount: seq<nat>, s: nat, b: nat)
    requires Counted(marks, blCount) && s < |marks| && marks[s] == 0 && 1 <= b <= MAX_BITS
    ensures Counted(marks[s := b], blCount[b := blCount[b] + 1])
  {
    var counts := blCount[b := blCount[b] + 1];
    forall l | 1 <= l <= MAX_BITS ensures counts[l] == Count(marks[s := b], l) {
      CountUpdate(marks, s, b, l);
    }
  }

  lemma {:induction false} WalkLeaf(leaves: set<nat>, elems: nat, ms: seq<Merge>, e: nat)
    requires ValidMerges(leaves, elems, ms) && 1 <= e <= 2 * |ms|
    ensures WalkNode(ms, e) in leaves || WalkNode(ms, e) >= elems
    ensures forall s :: s in leaves ==> s < elems
  {
    assert MergeOk(leaves, elems, ms, (e - 1) / 2);
    FrontOrigin(leaves, elems, ms, (e - 1) / 2);
  }

  lemma {:induction false} VisibleStep(marks: seq<nat>, f: set<nat>, g: set<nat>, lens: seq<nat>, elems: nat, n: nat,
      p: nat, b: nat)
    requires Visible(marks, f, lens, elems) && n !in f && n < |lens| && p >= elems && b >= 1
    requires g == f + {n} || g == f - {p} + {n}
    requires forall s :: s in f && s < elems ==> marks[s] >= 1
    ensures n < elems ==> marks[n] == 0 && Visible(marks[n := b], g, lens[n := b], elems)
    ensures n >= elems ==> Visible(marks, g, lens[n := b], elems)
    ensures var marks' := if n < elems then marks[n := b] else marks;
            forall s :: s in g && s < elems ==> marks'[s] >= 1
  {
  }

  lemma {:induction false} PriceOne(marks: seq<nat>, freq: seq<nat>, slens: seq<nat>, extra: seq<nat>, n: nat, b: nat)
    requires |marks| == |freq| == |slens| == |extra| && n < |marks| && marks[n] == 0 && b >= 1
    ensures Priced(marks[n := b], freq, marks[n := b], extra)
            == Priced(marks, freq, marks, extra) + freq[n] * (b + extra[n])
    ensures Priced(marks[n := b], freq, slens, extra)
            == Priced(marks, freq, slens, extra) + freq[n] * (slens[n] + extra[n])
  {
    PricedMark(marks, freq, marks, marks[n := b], extra, n, b);
    PricedMark(marks, freq, slens, slens, extra, n, b);
  }

  lemma {:induction false} VisibleStart(marks: seq<nat>, leaves: set<nat>, elems: nat, ms: seq<Merge>, maxLen: nat)
    requires |marks| == elems && forall s :: 0 <= s < elems ==> marks[s] == 0
    requires SonsOlder(elems, ms) && 1 <= |ms|
    requires WalkFront(leaves, elems, ms, 2 * |ms|) == {elems + |ms| - 1}
    ensures Visible(marks, WalkFront(leaves, elems, ms, 2 * |ms|), WalkLens(elems, ms, maxLen, 2 * |ms|), elems)
    ensures forall s :: s in WalkFront(leaves, elems, ms, 2 * |ms|) && s < elems ==> marks[s] >= 1
  {
  }

  lemma {:induction false} MarksStart(marks: seq<nat>, blCount: seq<nat>, freq: seq<nat>, slens: seq<nat>,
      extra: seq<nat>)
    requires |marks| == |freq| == |slens| == |extra| && forall s :: 0 <= s < |marks| ==> marks[s] == 0
    requires |blCount| == MAX_BITS + 1 && forall i :: 0 <= i <= MAX_BITS ==> blCount[i] == 0
    ensures Counted(marks, blCount)
    ensures Priced(marks, freq, marks, extra) == 0 && Priced(marks, freq, slens, extra) == 0
  {
    forall l | 1 <= l <= MAX_BITS ensures Count(marks, l) == 0 { CountZeros(marks, l); }
    PricedNone(marks, freq, marks, extra);
    PricedNone(marks, freq, slens, extra);
  }

  /** Zeroes the counters of all lengths. */
  method ResetCounts(g: BlockStats)
    requires g.blCount.Length == MAX_BITS + 1
    modifies g.blCount
    ensures forall i :: 0 <= i <= MAX_BITS ==> g.blCount[..][i] == 0
  {
    var bits := 0;
    while bits <= MAX_BITS
      invariant 0 <= bits <= MAX_BITS + 1
      invariant forall i :: 0 <= i < bits ==> g.blCount[i] == 0
    {
      g.blCount[bits] := 0;
      bits := bits + 1;
    }
  }

  class TreeDesc {
    const dynTree: array<CtData>
    const staticTree: array?<CtData>
    const extraBits: seq<nat>
    const extraBase: nat
    const elems: nat
    const maxLength: nat
    var maxCode: nat

    constructor (dynTree: array<CtData>, staticTree: array?<CtData>, extraBits: seq<nat>, extraBase: nat, elems: nat,
        maxLength: nat)
      ensures this.dynTree == dynTree && this.staticTree == staticTree && this.extraBits == extraBits
      ensures this.extraBase == extraBase && this.elems == elems && this.maxLength == maxLength
    {
      this.dynTree, this.staticTree, this.extraBits := dynTree, staticTree, extraBits;
      this.extraBase, this.elems, this.maxLength := extraBase, elems, maxLength;
      maxCode := 0;
    }

    /** What pack_gzip sets up for each of the three trees. */
    ghost predicate Valid()
    {
      && dynTree.Length == 2 * elems + 1 <= HEAP_SIZE && 3 <= elems
      && extraBase + |extraBits| == elems
      && 1 <= maxLength <= MAX_BITS && elems <= Pow2(maxLength)
      && (staticTree != null ==> staticTree != dynTree && staticTree.Length >= elems)
      && forall i :: 0 <= i < 3 ==> Extra()[i] == 0
    }

    ghost function Extra(): (r: seq<nat>)
      ensures |r| == extraBase + |extraBits|
    {
      ExtraTable(extraBits, extraBase)
    }

    /** The Len column of the static tree. */
    ghost function StaticLens(): (r: seq<nat>)
      requires Valid()
      reads staticTree
      ensures |r| == elems
    {
      if staticTree == null then seq(elems, i => 0) else Lens(staticTree[..], elems)
    }

    /** Counts a leaf n of length bits. */
    method VisitLeaf(g: BlockStats, n: nat, bits: nat, ghost marks: seq<nat>)
      requires Valid() && n < elems == |marks| && marks[n] == 0 && 1 <= bits <= MAX_BITS
      requires Counted(marks, g.blCount[..])
      modifies g`optLen, g`staticLen, g.blCount
      ensures Counted(marks[n := bits], g.blCount[..])
      ensures g.optLen == old(g.optLen) + dynTree[n].fc * (bits + Extra()[n])
      ensures g.staticLen
              == old(g.staticLen) + if staticTree == null then 0 else dynTree[n].fc * (StaticLens()[n] + Extra()[n])
    {
      hide Count, Pow2;
      CountedMark(marks, g.blCount[..], n, bits);
      ghost var before := g.blCount[..];
      g.blCount[bits] := g.blCount[bits] + 1;
      assert g.blCount[..] == before[bits := before[bits] + 1];
      var xbits := 0;
      if n >= extraBase { xbits := extraBits[n - extraBase]; }
      var f := dynTree[n].fc;
      g.optLen := g.optLen + f * (bits + xbits);
      if staticTree != null { g.staticLen := g.staticLen + f * (staticTree[n].dl + xbits); }
    }
  
    /** What build_tree has established when it calls gen_bitlen. */
    ghost predicate Ready(q: NodeHeap, g: BlockStats, leaves: set<nat>, ms: seq<Merge>)
      reads this, dynTree, q, q.heap
    {
      && Valid() && maxCode < elems
      && q.heap.Length == HEAP_SIZE && q.heap != g.blCount && g.blCount.Length == MAX_BITS + 1
      && Built(dynTree[..], q.heap[..], leaves, elems, ms)
      && |leaves| == |ms| + 1 && 1 <= |ms| && 2 * |ms| < HEAP_SIZE && q.heapMax == HEAP_SIZE - 1 - 2 * |ms|
      && q.heap[q.heapMax] == elems + |ms| - 1
      && forall s :: s in leaves ==> s <= maxCode
    }

    lemma {:induction false} ReadyFacts(q: NodeHeap, g: BlockStats, leaves: set<nat>, ms: seq<Merge>)
      requires Ready(q, g, leaves, ms)
      ensures ValidMerges(leaves, elems, ms) && OrderOk(q.heap[..], ms) && LinksOk(dynTree[..], elems, ms)
              && SonsOlder(elems, ms)
      ensures elems + |ms| - 1 < dynTree.Length && forall s :: s in leaves ==> s < elems
    {
    }

    lemma {:induction false} VisitEnd(g: BlockStats, t0: seq<CtData>, leaves: set<nat>, ms: seq<Merge>, marks: seq<nat>)
      requires ValidMerges(leaves, elems, ms) && SonsOlder(elems, ms) && Visiting(g, t0, leaves, ms, 0, marks)
      ensures Freqs(dynTree[..], dynTree.Length) == Freqs(t0, |t0|) && Freqs(dynTree[..], elems) == Freqs(t0, elems)
      ensures forall s :: 0 <= s < elems ==>
                dynTree[..][s].dl == if s in leaves then LensAt(elems, ms, maxLength, 0)[s] else t0[s].dl
      ensures Visible(marks, leaves, LensAt(elems, ms, maxLength, 0), elems)
      ensures forall s :: s in leaves ==> s < elems && marks[s] >= 1
      ensures Counted(marks, g.blCount[..])
      ensures WalkOverflow(elems, ms, maxLength, 0) == Overflow(elems, ms, maxLength, 0)
    {
      hide Counted;
    }

    /** The state of the first pass when e nodes are left. */
    ghost predicate Visiting(g: BlockStats, t0: seq<CtData>, leaves: set<nat>, ms: seq<Merge>, e: nat, marks: seq<nat>)
      requires e <= 2 * |ms| && SonsOlder(elems, ms)
      reads dynTree, g.blCount
    {
      && |t0| == dynTree.Length && elems <= |t0|
      && Visited(dynTree[..], leaves, elems, ms, maxLength, e)
      && |marks| == elems
      && elems <= elems + |ms|
      && Visible(marks, WalkFront(leaves, elems, ms, e), WalkLens(elems, ms, maxLength, e), elems)
      && (forall s :: s in WalkFront(leaves, elems, ms, e) && s < elems ==> marks[s] >= 1)
      && Counted(marks, g.blCount[..])
      && (forall i :: 0 <= i < |t0| ==> dynTree[..][i].fc == t0[i].fc)
      && (forall i :: 0 <= i < elems && i !in leaves ==> dynTree[..][i] == t0[i])
    }

    /** Visits the node at index h. */
    method VisitOne(q: NodeHeap, g: BlockStats, h: nat, ghost t0: seq<CtData>, ghost leaves: set<nat>,
        ghost ms: seq<Merge>, ghost marks0: seq<nat>)
      returns (cut: bool, ghost marks: seq<nat>)
      requires Valid() && maxCode < elems && 1 <= h < HEAP_SIZE && HEAP_SIZE - h <= 2 * |ms|
      requires q.heap.Length == HEAP_SIZE && q.heap != g.blCount
      requires ValidMerges(leaves, elems, ms) && SonsOlder(elems, ms) && OrderOk(q.heap[..], ms)
      requires forall s :: s in leaves ==> s <= maxCode
      requires Visiting(g, t0, leaves, ms, HEAP_SIZE - h, marks0)
      modifies dynTree, g`optLen, g`staticLen, g.blCount
      ensures Visiting(g, t0, leaves, ms, HEAP_SIZE - h - 1, marks)
      ensures WalkOverflow(elems, ms, maxLength, HEAP_SIZE - h - 1)
              == WalkOverflow(elems, ms, maxLength, HEAP_SIZE - h) + if cut then 1 else 0
      ensures var freq := Freqs(t0, elems);
        && g.optLen - old(g.optLen) == Priced(marks, freq, marks, Extra()) - Priced(marks0, freq, marks0, Extra())
        && g.staticLen - old(g.staticLen)
            == if staticTree == null then 0
               else Priced(marks, freq, StaticLens(), Extra()) - Priced(marks0, freq, StaticLens(), Extra())
    {
      hide ValidMerges, Visited, Visible, Counted, WalkFront, WalkLens, WalkOverflow, Priced, Pow2, OrderOk;
      ghost var e, t := HEAP_SIZE - h, dynTree[..];
      VisitStep(t, leaves, elems, ms, maxLength, e);
      WalkStep(leaves, elems, ms, maxLength, e);
      WalkOrder(q.heap[..], ms, e);
      WalkLeaf(leaves, elems, ms, e);
      var n := q.heap[h];
      var bits := dynTree[dynTree[n].dl].dl + 1;
      cut := bits > maxLength;
      if cut { bits := maxLength; }
      ghost var p := dynTree[n].dl;
      dynTree[n] := dynTree[n].(dl := bits);
      marks := marks0;
      VisibleStep(marks0, WalkFront(leaves, elems, ms, e), WalkFront(leaves, elems, ms, e - 1),
              WalkLens(elems, ms, maxLength, e), elems, n, p, bits);
      if n <= maxCode {
        marks := marks0[n := bits];
        PriceOne(marks0, Freqs(t0, elems), StaticLens(), Extra(), n, bits);
        VisitLeaf(g, n, bits, marks0);
      }
    }

    /** The first pass: the length of each node is one more than its father's, cut at
        maxLength. Returns how many were cut. */
    method FirstPass(q: NodeHeap, g: BlockStats, ghost leaves: set<nat>, ghost ms: seq<Merge>)
      returns (overflow: nat, ghost marks: seq<nat>)
      requires Ready(q, g, leaves, ms)
      modifies dynTree, g`optLen, g`staticLen, g.blCount
      ensures SonsOlder(elems, ms) && overflow == Overflow(elems, ms, maxLength, 0)
      ensures Freqs(dynTree[..], dynTree.Length) == old(Freqs(dynTree[..], dynTree.Length))
      ensures forall s :: 0 <= s < elems ==>
                dynTree[..][s].dl == if s in leaves then LensAt(elems, ms, maxLength, 0)[s] else old(dynTree[..])[s].dl
      ensures Visible(marks, leaves, LensAt(elems, ms, maxLength, 0), elems)
      ensures forall s :: s in leaves ==> s < elems && marks[s] >= 1
      ensures Counted(marks, g.blCount[..])
      ensures g.optLen == old(g.optLen) + Priced(marks, Freqs(dynTree[..], elems), marks, Extra())
      ensures g.staticLen
              == old(g.staticLen) +
                 if staticTree == null then 0 else Priced(marks, Freqs(dynTree[..], elems), old(StaticLens()), Extra())
    {
      hide Built, Visited, Visible, Counted, WalkFront, WalkLens, WalkOverflow, Front, LensAt, Overflow, Priced, Pow2;
      ghost var t0, freq := dynTree[..], Freqs(dynTree[..], elems);
      ReadyFacts(q, g, leaves, ms);
      ResetCounts(g);
      overflow := 0;
      marks := seq(elems, i => 0);
      MarksStart(marks, g.blCount[..], freq, StaticLens(), Extra());
      dynTree[q.heap[q.heapMax]] := dynTree[q.heap[q.heapMax]].(dl := 0);
      VisitStart(t0, leaves, elems, ms, maxLength);
      VisibleStart(marks, leaves, elems, ms, maxLength);
      var h := q.heapMax + 1;
      while h < HEAP_SIZE
        invariant HEAP_SIZE - 2 * |ms| <= h <= HEAP_SIZE
        invariant Visiting(g, t0, leaves, ms, HEAP_SIZE - h, marks)
        invariant overflow == WalkOverflow(elems, ms, maxLength, HEAP_SIZE - h)
        invariant g.optLen == old(g.optLen) + Priced(marks, freq, marks, Extra())
        invariant g.staticLen
                == old(g.staticLen) + if staticTree == null then 0 else Priced(marks, freq, StaticLens(), Extra())
      {
        var cut;
        cut, marks := VisitOne(q, g, h, t0, leaves, ms, marks);
        if cut { overflow := overflow + 1; }
        h := h + 1;
      }
      VisitEnd(g, t0, leaves, ms, marks);
    }
  }
}
