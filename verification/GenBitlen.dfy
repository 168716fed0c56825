/** The last pass of gen_bitlen and the whole of it. */
module GenBitlen {
  import opened Bits
  import opened Canonical
  import opened Trees
  import opened Costs
  import opened Heap
  import opened Huffman
  import opened Merging
  import opened Walk
  import opened BitLengths
  import opened Repair

  // ----- handing the lengths out again

  lemma {:induction false} NonZeroMark(marks: seq<nat>, s: nat, b: nat)
    requires s < |marks| && marks[s] == 0 && b > 0
    ensures NonZero(marks[s := b]) == NonZero(marks) + 1
  {
    var k := |marks| - 1;
    if s < k {
      NonZeroMark(marks[..k], s, b);
      assert marks[s := b][..k] == marks[..k][s := b];
    } else {
      assert marks[s := b][..k] == marks[..k];
    }
  }

  /** Fewer marks than leaves: some leaf has no mark. */
  lemma {:induction false} SomeUnmarked(marks: seq<nat>, done: seq<nat>) returns (s: nat)
    requires |marks| == |done| && NonZero(done) < NonZero(marks)
    ensures s < |marks| && marks[s] > 0 && done[s] == 0
  {
    var k := |marks| - 1;
    if marks[k] > 0 && done[k] == 0 { return k; }
    s := SomeUnmarked(marks[..k], done[..k]);
  }

  lemma {:induction false} SameNonZero(marks: seq<nat>, done: seq<nat>)
    requires |marks| == |done| && NonZero(done) == NonZero(marks)
    requires forall s :: 0 <= s < |marks| && done[s] > 0 ==> marks[s] > 0
    ensures forall s :: 0 <= s < |marks| && marks[s] > 0 ==> done[s] > 0
  {
    if marks != [] {
      var k := |marks| - 1;
      NonZeroLess(done[..k], marks[..k]);
      SameNonZero(marks[..k], done[..k]);
    }
  }

  lemma {:induction false} NonZeroLess(done: seq<nat>, marks: seq<nat>)
    requires |marks| == |done| && forall s :: 0 <= s < |marks| && done[s] > 0 ==> marks[s] > 0
    ensures NonZero(done) <= NonZero(marks)
  {
    if marks != [] { NonZeroLess(done[..|marks| - 1], marks[..|marks| - 1]); }
  }

  /** Every leaf is merged at some point, so it is visited. */
  lemma {:induction false} LeafIsMerged(leaves: set<nat>, elems: nat, ms: seq<Merge>, s: nat, j: nat) returns (d: nat)
    requires ValidMerges(leaves, elems, ms) && s in leaves && j <= |ms| && s !in Front(leaves, elems, ms, j)
    ensures 1 <= d <= 2 * j && WalkNode(ms, d) == s
  {
    if s in Front(leaves, elems, ms, j - 1) {
      if s == ms[j - 1].n { d := 2 * j - 1; } else { d := 2 * j; }
    } else {
      d := LeafIsMerged(leaves, elems, ms, s, j - 1);
    }
  }

  /** The lengths handed out so far: done holds the new lengths, price the current Len of every symbol. */
  ghost predicate Handing(done: seq<nat>, price: seq<nat>, marks: seq<nat>, bc: seq<nat>, bits: nat, n: nat)
  {
    && |done| == |price| == |marks| && |bc| == MAX_BITS + 1 && bits <= MAX_BITS && bc[0] == 0
    && n <= bc[bits]
    && (forall s :: 0 <= s < |marks| ==> price[s] == if done[s] > 0 then done[s] else marks[s])
    && (forall s :: 0 <= s < |marks| && done[s] > 0 ==> marks[s] > 0 && done[s] <= MAX_BITS)
    && (forall l :: bits < l <= MAX_BITS ==> Count(done, l) == bc[l])
    && (bits > 0 ==> Count(done, bits) + n == bc[bits])
    && (forall l :: 1 <= l < bits ==> Count(done, l) == 0)
    && NonZero(done) + n + (if bits == 0 then 0 else CodesUpTo(bc, bits - 1)) == NonZero(marks)
  }

  lemma {:induction false} HandingStep(done: seq<nat>, price: seq<nat>, marks: seq<nat>, bc: seq<nat>, bits: nat,
      n: nat, s: nat)
    requires Handing(done, price, marks, bc, bits, n) && n > 0 && bits >= 1
    requires s < |marks| && marks[s] > 0 && done[s] == 0
    ensures Handing(done[s := bits], price[s := bits], marks, bc, bits, n - 1)
  {
    hide Count, NonZero, CodesUpTo;
    NonZeroMark(done, s, bits);
    var done' := done[s := bits];
    forall l | 1 <= l <= MAX_BITS ensures Count(done', l) == Count(done, l) + if l == bits then 1 else 0 {
      CountUpdate(done, s, bits, l);
    }
    assert forall l :: bits < l <= MAX_BITS ==> Count(done', l) == bc[l];
    assert Count(done', bits) + (n - 1) == bc[bits];
    assert NonZero(done') + (n - 1) == NonZero(done) + n;
  }

  lemma {:induction false} NextLength(done: seq<nat>, price: seq<nat>, marks: seq<nat>, bc: seq<nat>, bits: nat)
    requires Handing(done, price, marks, bc, bits, 0) && bits >= 1
    ensures bits == 1 ==> Handing(done, price, marks, bc, 0, 0)
    ensures bits > 1 ==> Handing(done, price, marks, bc, bits - 1, bc[bits - 1])
  {
    hide NonZero, Count;
    if bits > 1 { assert CodesUpTo(bc, bits - 1) == CodesUpTo(bc, bits - 2) + bc[bits - 1]; }
  }

  lemma {:induction false} HandingStart(done: seq<nat>, marks: seq<nat>, bc: seq<nat>, m: nat)
    requires |done| == |marks| && forall s :: 0 <= s < |done| ==> done[s] == 0
    requires |bc| == MAX_BITS + 1 && 1 <= m <= MAX_BITS && bc[0] == 0
    requires CodesUpTo(bc, m) == NonZero(marks) && forall l :: m < l <= MAX_BITS ==> bc[l] == 0
    ensures Handing(done, marks, marks, bc, m, bc[m])
  {
    forall l | 1 <= l <= MAX_BITS ensures Count(done, l) == 0 { CountZeros(done, l); }
    NonZeroNone(done);
  }

  lemma {:induction false} NonZeroNone(marks: seq<nat>)
    requires forall s :: 0 <= s < |marks| ==> marks[s] == 0
    ensures NonZero(marks) == 0
  {
    if marks != [] { NonZeroNone(marks[..|marks| - 1]); }
  }

  /** All lengths handed out: the counters describe the new lengths. */
  lemma {:induction false} HandingEnd(done: seq<nat>, price: seq<nat>, marks: seq<nat>, bc: seq<nat>)
    requires Handing(done, price, marks, bc, 0, 0)
    ensures Counted(done, bc) && price == done && |done| == |marks|
    ensures forall s :: 0 <= s < |marks| ==> (done[s] > 0 <==> marks[s] > 0) && done[s] <= MAX_BITS
  {
    SameNonZero(marks, done);
  }

  /** Changing the price of a marked symbol. */
  lemma {:induction false} PricedReprice(marks: seq<nat>, freq: seq<nat>, price: seq<nat>, extra: seq<nat>, s: nat,
      b: nat)
    requires |marks| <= |freq| && |marks| <= |price| && |marks| <= |extra| && s < |marks| && marks[s] != 0
    ensures Priced(marks, freq, price[s := b], extra) == Priced(marks, freq, price, extra) + (b - price[s]) * freq[s]
  {
    var k := |marks| - 1;
    if s < k {
      PricedReprice(marks[..k], freq, price, extra, s, b);
    } else {
      PricedSame(marks[..k], freq, freq, price, price[s := b], extra);
      Reprice(freq[s], b, price[s], extra[s]);
    }
  }

  lemma {:induction false} Reprice(f: int, b: int, p: int, x: int)
    ensures f * (b + x) == f * (p + x) + (b - p) * f
  {
  }

  // ----- the pass itself

  /** Where the scan stands: h is the heap index last looked at, and no symbol at h or
      above is without its new length. */
  ghost predicate Scanned(ms: seq<Merge>, done: seq<nat>, h: nat)
  {
    forall d :: 1 <= d <= 2 * |ms| && WalkNode(ms, d) < |done| ==> (HEAP_SIZE - d >= h <==> done[WalkNode(ms, d)] > 0)
  }

  /** In the order of the scan the lengths do not grow, and none handed out so far is below least. */
  ghost predicate Descending(ms: seq<Merge>, done: seq<nat>, least: nat) {
    && (forall s :: 0 <= s < |done| ==> done[s] == 0 || done[s] >= least)
    && forall d, d' :: 1 <= d < d' <= 2 * |ms| && WalkNode(ms, d) < |done| && WalkNode(ms, d') < |done| ==>
         done[WalkNode(ms, d)] >= done[WalkNode(ms, d')]
  }

  lemma {:induction false} DescendingStart(ms: seq<Merge>, done: seq<nat>, least: nat)
    requires forall s :: 0 <= s < |done| ==> done[s] == 0
    ensures Descending(ms, done, least)
  {
    hide WalkNode;
  }

  lemma {:induction false} DescendingLess(ms: seq<Merge>, done: seq<nat>, least: nat, less: nat)
    requires Descending(ms, done, least) && less <= least
    ensures Descending(ms, done, less)
  {
    hide WalkNode;
  }

  lemma {:induction false} DescendingDown(leaves: set<nat>, elems: nat, ms: seq<Merge>, done: seq<nat>, h: nat,
      bits: nat)
    requires ValidMerges(leaves, elems, ms) && |done| == elems && Scanned(ms, done, h) && 1 <= h <= HEAP_SIZE
    requires HEAP_SIZE - h + 1 <= 2 * |ms| && Descending(ms, done, bits)
    requires WalkNode(ms, HEAP_SIZE - h + 1) < elems
    ensures Descending(ms, done[WalkNode(ms, HEAP_SIZE - h + 1) := bits], bits)
  {
    hide WalkNode;
    var e := HEAP_SIZE - h + 1;
    forall d | 1 <= d <= 2 * |ms| && d != e ensures WalkNode(ms, d) != WalkNode(ms, e) {
      if d < e { WalkDistinct(leaves, elems, ms, e, d); } else { WalkDistinct(leaves, elems, ms, d, e); }
    }
  }

  /** The arrays while the lengths are handed out. */
  ghost predicate Held(t: seq<CtData>, t0: seq<CtData>, price: seq<nat>, elems: nat, leaves: set<nat>)
  {
    && |t| == |t0| && elems <= |t| && |price| == elems
    && (forall i :: 0 <= i < |t| ==> t[i].fc == t0[i].fc)
    && (forall s :: 0 <= s < elems ==> t[s].dl == if s in leaves then price[s] else t0[s].dl)
  }

  /** What does not change during the pass. */
  ghost predicate Scene(desc: TreeDesc, q: NodeHeap, g: BlockStats, leaves: set<nat>, ms: seq<Merge>, marks: seq<nat>)
    reads desc, q, q.heap
  {
    && desc.Valid() && desc.maxCode < desc.elems && |marks| == desc.elems
    && q.heap.Length == HEAP_SIZE && q.heap != g.blCount && g.blCount.Length == MAX_BITS + 1
    && ValidMerges(leaves, desc.elems, ms) && OrderOk(q.heap[..], ms) && 2 * |ms| < HEAP_SIZE
    && Front(leaves, desc.elems, ms, |ms|) == {desc.elems + |ms| - 1} && 1 <= |ms|
    && (forall s :: s in leaves ==> s <= desc.maxCode)
    && (forall s :: 0 <= s < desc.elems ==> (s in leaves <==> marks[s] > 0))
  }

  /** The scan goes on only while some symbol is left to find. */
  lemma {:induction false} ScanFinds(desc: TreeDesc, q: NodeHeap, g: BlockStats, leaves: set<nat>, ms: seq<Merge>,
      marks: seq<nat>, done: seq<nat>, h: nat)
    requires Scene(desc, q, g, leaves, ms, marks) && |done| == |marks| && Scanned(ms, done, h) && h <= HEAP_SIZE
    requires NonZero(done) < NonZero(marks)
    ensures h >= 2 && HEAP_SIZE - 2 * |ms| < h
    ensures q.heap[h - 1] == WalkNode(ms, HEAP_SIZE - h + 1)
    ensures q.heap[h - 1] in leaves || q.heap[h - 1] >= desc.elems
  {
    hide OrderOk, ValidMerges, Front;
    var s := SomeUnmarked(marks, done);
    var d := LeafIsMerged(leaves, desc.elems, ms, s, |ms|);
    assert HEAP_SIZE - d < h;
    WalkOrder(q.heap[..], ms, HEAP_SIZE - h + 1);
    WalkLeaf(leaves, desc.elems, ms, HEAP_SIZE - h + 1);
  }

  /** One step down the scan: the next node is internal or gets the length bits. */
  lemma {:induction false} ScannedDown(leaves: set<nat>, elems: nat, ms: seq<Merge>, done: seq<nat>, h: nat, bits: nat)
    requires ValidMerges(leaves, elems, ms) && |done| == elems && Scanned(ms, done, h) && 1 <= h
            && 1 <= HEAP_SIZE - h + 1 <= 2 * |ms| && h <= HEAP_SIZE
    requires bits > 0
    ensures var m := WalkNode(ms, HEAP_SIZE - h + 1);
            (m >= elems ==> Scanned(ms, done, h - 1))
                && (m < elems ==> done[m] == 0 && Scanned(ms, done[m := bits], h - 1))
  {
    var e := HEAP_SIZE - h + 1;
    forall d | 1 <= d <= 2 * |ms| && d != e ensures WalkNode(ms, d) != WalkNode(ms, e) {
      if d < e { WalkDistinct(leaves, elems, ms, e, d); } else { WalkDistinct(leaves, elems, ms, d, e); }
    }
  }

  lemma {:induction false} ScanStart(ms: seq<Merge>, done: seq<nat>)
    requires forall s :: 0 <= s < |done| ==> done[s] == 0
    ensures Scanned(ms, done, HEAP_SIZE)
  {
  }

  /** The state of the pass: the lengths handed out so far, the Len fields, the scan and the running cost. */
  ghost predicate Passing(desc: TreeDesc, g: BlockStats, t0: seq<CtData>, opt0: int, leaves: set<nat>, ms: seq<Merge>,
      marks: seq<nat>, done: seq<nat>, price: seq<nat>, h: nat, bits: nat, n: nat)
    requires desc.Valid() && |marks| == desc.elems
    reads desc.dynTree, g, g.blCount
  {
    && desc.elems <= |t0| && h <= HEAP_SIZE
    && Handing(done, price, marks, g.blCount[..], bits, n)
    && Held(desc.dynTree[..], t0, price, desc.elems, leaves)
    && Scanned(ms, done, h) && Descending(ms, done, bits)
    && g.optLen == opt0 + Priced(marks, Freqs(t0, desc.elems), price, desc.Extra())
  }

  /** Looks at the next node of the scan. */
  method HandOne(desc: TreeDesc, q: NodeHeap, g: BlockStats, h0: nat, bits: nat, n0: nat, ghost t0: seq<CtData>,
      ghost opt0: int, ghost leaves: set<nat>, ghost ms: seq<Merge>, ghost marks: seq<nat>, ghost done0: seq<nat>,
      ghost price0: seq<nat>)
    returns (h: nat, n: nat, ghost done: seq<nat>, ghost price: seq<nat>)
    requires Scene(desc, q, g, leaves, ms, marks) && 1 <= bits <= desc.maxLength && n0 > 0
    requires Passing(desc, g, t0, opt0, leaves, ms, marks, done0, price0, h0, bits, n0)
    modifies desc.dynTree, g`optLen
    ensures h == h0 - 1 && n <= n0
    ensures Passing(desc, g, t0, opt0, leaves, ms, marks, done, price, h, bits, n)
  {
    hide *;
    SceneFacts(desc, q, g, leaves, ms, marks);
    PassingParts(desc, g, t0, opt0, leaves, ms, marks, done0, price0, h0, bits, n0);
    NextNode(desc, q, g, t0, opt0, leaves, ms, marks, done0, price0, h0, bits, n0);
    n, done, price := n0, done0, price0;
    h := h0 - 1;
    var m := q.heap[h];
    if m > desc.maxCode {
    } else {
      ghost var t := desc.dynTree[..];
      HandingStep(done0, price0, marks, g.blCount[..], bits, n0, m);
      LeafPriced(t, t0, price0, marks, desc.Extra(), leaves, m, bits);
      done, price := done0[m := bits], price0[m := bits];
      if desc.dynTree[m].dl != bits {
        g.optLen := g.optLen + (bits - desc.dynTree[m].dl) * desc.dynTree[m].fc;
        desc.dynTree[m] := desc.dynTree[m].(dl := bits);
      }
      assert desc.dynTree[..] == t[m := t[m].(dl := bits)];
      n := n - 1;
    }
    PassingNow(desc, g, t0, opt0, leaves, ms, marks, done, price, h, bits, n);
  }

  lemma {:induction false} PassingParts(desc: TreeDesc, g: BlockStats, t0: seq<CtData>, opt0: int, leaves: set<nat>,
      ms: seq<Merge>, marks: seq<nat>, done: seq<nat>, price: seq<nat>, h: nat, bits: nat, n: nat)
    requires desc.Valid() && |marks| == desc.elems
    requires Passing(desc, g, t0, opt0, leaves, ms, marks, done, price, h, bits, n)
    ensures desc.elems <= |t0| && desc.elems <= desc.dynTree.Length && |desc.Extra()| == desc.elems
    ensures |done| == |price| == desc.elems && h <= HEAP_SIZE
    ensures Handing(done, price, marks, g.blCount[..], bits, n)
    ensures Held(desc.dynTree[..], t0, price, desc.elems, leaves)
    ensures g.optLen == opt0 + Priced(marks, Freqs(t0, desc.elems), price, desc.Extra())
    ensures Scanned(ms, done, h) && Descending(ms, done, bits)
  {
    hide Priced, Freqs, Handing, Held, Scanned, Descending;
    HandingSizes(done, price, marks, g.blCount[..], bits, n);
  }

  lemma {:induction false} HandingSizes(done: seq<nat>, price: seq<nat>, marks: seq<nat>, bc: seq<nat>, bits: nat,
      n: nat)
    requires Handing(done, price, marks, bc, bits, n)
    ensures |done| == |price| == |marks|
  {
    hide Count, NonZero, CodesUpTo;
  }

  lemma {:induction false} PassingNow(desc: TreeDesc, g: BlockStats, t0: seq<CtData>, opt0: int, leaves: set<nat>,
      ms: seq<Merge>, marks: seq<nat>, done: seq<nat>, price: seq<nat>, h: nat, bits: nat, n: nat)
    requires desc.Valid() && |marks| == desc.elems <= |t0| && |price| == desc.elems
    ensures h <= HEAP_SIZE && Handing(done, price, marks, g.blCount[..], bits, n)
            && Held(desc.dynTree[..], t0, price, desc.elems, leaves) && Scanned(ms, done, h)
            && Descending(ms, done, bits)
            && g.optLen == opt0 + Priced(marks, Freqs(t0, desc.elems), price, desc.Extra()) ==>
              Passing(desc, g, t0, opt0, leaves, ms, marks, done, price, h, bits, n)
  {
    hide Priced, Freqs, Handing, Held, Scanned, Descending;
  }

  /** The next node is internal, or a leaf that has no new length yet. */
  lemma {:induction false} NextNode(desc: TreeDesc, q: NodeHeap, g: BlockStats, t0: seq<CtData>, opt0: int,
      leaves: set<nat>, ms: seq<Merge>, marks: seq<nat>, done: seq<nat>, price: seq<nat>, h: nat, bits: nat, n: nat)
    requires Scene(desc, q, g, leaves, ms, marks) && bits > 0 && n > 0
    requires Passing(desc, g, t0, opt0, leaves, ms, marks, done, price, h, bits, n)
    ensures desc.Valid() && |marks| == desc.elems && 2 <= h <= q.heap.Length && h <= HEAP_SIZE
    ensures var m := q.heap[h - 1];
            if m > desc.maxCode then Scanned(ms, done, h - 1)
            else m in leaves && m < |marks| && m < |done| && marks[m] > 0 && done[m] == 0
                 && Scanned(ms, done[m := bits], h - 1) && Descending(ms, done[m := bits], bits)
  {
    hide Scanned, Handing, Priced, ValidMerges, OrderOk, Front, Pow2, Held, Descending, WalkNode;
    HandingLeft(done, price, marks, g.blCount[..], bits, n);
    ScanFinds(desc, q, g, leaves, ms, marks, done, h);
    ScannedDown(leaves, desc.elems, ms, done, h, bits);
    if q.heap[h - 1] <= desc.maxCode { DescendingDown(leaves, desc.elems, ms, done, h, bits); }
  }

  /** A leaf gets the length bits. */
  lemma {:induction false} LeafPriced(t: seq<CtData>, t0: seq<CtData>, price: seq<nat>, marks: seq<nat>,
      extra: seq<nat>, leaves: set<nat>, m: nat, bits: nat)
    requires Held(t, t0, price, |marks|, leaves) && m in leaves && m < |marks| && marks[m] != 0 && |extra| == |marks|
    ensures |t| == |t0| && Held(t[m := t[m].(dl := bits)], t0, price[m := bits], |marks|, leaves)
    ensures Priced(marks, Freqs(t0, |marks|), price[m := bits], extra)
            == Priced(marks, Freqs(t0, |marks|), price, extra) + (bits - t[m].dl) * t[m].fc
  {
    hide Priced;
    PricedReprice(marks, Freqs(t0, |marks|), price, extra, m, bits);
  }

  lemma {:induction false} HandingLeft(done: seq<nat>, price: seq<nat>, marks: seq<nat>, bc: seq<nat>, bits: nat,
      n: nat)
    requires Handing(done, price, marks, bc, bits, n) && n > 0
    ensures NonZero(done) < NonZero(marks) && |done| == |marks| == |price|
  {
  }

  /** Hands out the lengths from the greatest down, scanning the nodes from the least frequent up. */
  method HandOut(desc: TreeDesc, q: NodeHeap, g: BlockStats, ghost leaves: set<nat>, ghost ms: seq<Merge>,
      ghost marks: seq<nat>)
    returns (ghost lens: seq<nat>)
    requires Scene(desc, q, g, leaves, ms, marks)
    requires g.blCount[0] == 0 && CodesUpTo(g.blCount[..], desc.maxLength) == NonZero(marks)
    requires forall l :: desc.maxLength < l <= MAX_BITS ==> g.blCount[l] == 0
    requires forall s :: s in leaves ==> s < desc.elems && desc.dynTree[..][s].dl == marks[s]
    modifies desc.dynTree, g`optLen
    ensures |lens| == desc.elems && Counted(lens, g.blCount[..])
    ensures forall s :: 0 <= s < desc.elems ==> (lens[s] > 0 <==> marks[s] > 0) && lens[s] <= MAX_BITS
    ensures Descending(ms, lens, 0)
    ensures Held(desc.dynTree[..], old(desc.dynTree[..]), lens, desc.elems, leaves)
    ensures var freq := Freqs(old(desc.dynTree[..]), desc.elems);
            g.optLen - old(g.optLen)
            == Priced(marks, freq, lens, desc.Extra()) - Priced(marks, freq, marks, desc.Extra())
  {
    hide Priced, Scanned, Handing, CodesUpTo, NonZero, Pow2, Scene, Held, Descending;
    SceneFacts(desc, q, g, leaves, ms, marks);
    ghost var t0 := desc.dynTree[..];
    ghost var opt0 := g.optLen - Priced(marks, Freqs(t0, desc.elems), marks, desc.Extra());
    ghost var done, price := seq(desc.elems, i => 0), marks;
    HandingStart(done, marks, g.blCount[..], desc.maxLength);
    ScanStart(ms, done);
    DescendingStart(ms, done, desc.maxLength);
    HeldStart(t0, marks, desc.elems, leaves);
    var h: nat := HEAP_SIZE;
    var bits: nat := desc.maxLength;
    while bits != 0
      invariant bits <= desc.maxLength
      invariant Passing(desc, g, t0, opt0, leaves, ms, marks, done, price, h, bits,
              if bits == 0 then 0 else g.blCount[bits])
    {
      var n := g.blCount[bits];
      while n != 0
        invariant Passing(desc, g, t0, opt0, leaves, ms, marks, done, price, h, bits, n)
        decreases h
      {
        h, n, done, price := HandOne(desc, q, g, h, bits, n, t0, opt0, leaves, ms, marks, done, price);
      }
      NextLength(done, price, marks, g.blCount[..], bits);
      DescendingLess(ms, done, bits, bits - 1);
      bits := bits - 1;
    }
    HandingEnd(done, price, marks, g.blCount[..]);
    lens := done;
  }

  lemma {:induction false} SceneFacts(desc: TreeDesc, q: NodeHeap, g: BlockStats, leaves: set<nat>, ms: seq<Merge>,
      marks: seq<nat>)
    requires Scene(desc, q, g, leaves, ms, marks)
    ensures desc.Valid() && |marks| == desc.elems && g.blCount.Length == MAX_BITS + 1
    ensures forall s :: s in leaves ==> s <= desc.maxCode < desc.elems
  {
  }

  lemma {:induction false} HeldStart(t: seq<CtData>, marks: seq<nat>, elems: nat, leaves: set<nat>)
    requires elems <= |t| && |marks| == elems
    requires forall s :: s in leaves ==> s < elems && t[s].dl == marks[s]
    ensures Held(t, t, marks, elems, leaves)
  {
  }

  // ----- all of gen_bitlen

  lemma {:induction false} CountOfOwn(lens: seq<nat>, s: nat)
    requires s < |lens|
    ensures Count(lens, lens[s]) >= 1
  {
    if s < |lens| - 1 { CountOfOwn(lens[..|lens| - 1], s); }
  }

  lemma {:induction false} CountAbove(lens: seq<nat>, l: nat)
    requires forall s :: 0 <= s < |lens| ==> lens[s] < l
    ensures Count(lens, l) == 0
  {
    if lens != [] { CountAbove(lens[..|lens| - 1], l); }
  }

  /** The lengths of a finished tree: complete, within the limit, one for each symbol in use. */
  ghost predicate GoodLengths(lens: seq<nat>, leaves: set<nat>, m: nat, bc: seq<nat>)
  {
    && LengthsWithin(lens, m) && Kraft(lens, m) == Pow2(m)
    && (forall s :: 0 <= s < |lens| ==> (lens[s] > 0 <==> s in leaves))
    && Counted(lens, bc)
  }

  lemma {:induction false} GoodIfFull(lens: seq<nat>, leaves: set<nat>, m: nat, bc: seq<nat>)
    requires Excess(bc, m, 0) && Counted(lens, bc)
    requires forall s :: 0 <= s < |lens| ==> (lens[s] > 0 <==> s in leaves) && lens[s] <= MAX_BITS
    requires forall l :: m < l <= MAX_BITS ==> bc[l] == 0
    ensures GoodLengths(lens, leaves, m, bc)
  {
    hide Pow2;
    forall s | 0 <= s < |lens| ensures lens[s] <= m { CountOfOwn(lens, s); }
    KraftOfCounts(lens, bc, m, m);
    KraftByLength(lens, m);
  }

  /** Computes the lengths of all symbols in use, and adds what the block costs with them. */
  method GenBitLengths(desc: TreeDesc, q: NodeHeap, g: BlockStats, ghost leaves: set<nat>, ghost ms: seq<Merge>)
    returns (ghost lens: seq<nat>)
    requires desc.Ready(q, g, leaves, ms)
    requires forall s :: 0 <= s < desc.elems && s !in leaves ==> desc.dynTree[s].dl == 0 && desc.dynTree[s].fc == 0
    modifies desc.dynTree, g`optLen, g`staticLen, g.blCount
    ensures |lens| == desc.elems && Lens(desc.dynTree[..], desc.elems) == lens
    ensures Freqs(desc.dynTree[..], desc.dynTree.Length) == old(Freqs(desc.dynTree[..], desc.dynTree.Length))
    ensures GoodLengths(lens, leaves, desc.maxLength, g.blCount[..])
    ensures var freq := old(Freqs(desc.dynTree[..], desc.elems));
            && g.optLen == old(g.optLen) + Cost(freq, lens, desc.Extra())
            && g.staticLen
               == old(g.staticLen) +
                  if desc.staticTree == null then 0 else Cost(freq, old(desc.StaticLens()), desc.Extra())
    ensures SonsOlder(desc.elems, ms)
    ensures Overflow(desc.elems, ms, desc.maxLength, 0) == 0 ==>
              forall s :: s in leaves ==> s < desc.elems && lens[s] == LensAt(desc.elems, ms, desc.maxLength, 0)[s]
    ensures Overflow(desc.elems, ms, desc.maxLength, 0) > 0 ==>
              AtLimit(lens, desc.maxLength) && Descending(ms, lens, 0)
    ensures RepairedFrom(CutLens(leaves, desc.elems, ms, desc.maxLength), lens, desc.maxLength,
                         Overflow(desc.elems, ms, desc.maxLength, 0) / 2)
  {
    hide Built, Priced, Cost, Pow2, Excess, CodesUpTo, NonZero, Overflow, LensAt, Scene, Held, Kraft, ValidMerges,
        OrderOk, LinksOk, Descending, Turns, RepairedFrom, CutLens;
    desc.ReadyFacts(q, g, leaves, ms);
    ghost var t0 := desc.dynTree[..];
    ghost var freq := Freqs(t0, desc.elems);
    var overflow;
    ghost var marks;
    overflow, marks := desc.FirstPass(q, g, leaves, ms);
    ghost var t1 := desc.dynTree[..];
    SameFreqs(t0, t1, desc.elems);
    ExcessAfterFirstPass(leaves, desc.elems, ms, desc.maxLength, marks, g.blCount[..]);
    AboveMax(marks, desc.maxLength, g.blCount[..]);
    ghost var counts := g.blCount[..];
    MarksAreCut(marks, leaves, desc.elems, ms, desc.maxLength);
    PricedIsCost(marks, freq, desc.StaticLens(), desc.Extra());
    PricedIsCost(marks, freq, marks, desc.Extra());
    if overflow == 0 {
      lens := marks;
      GoodIfFull(lens, leaves, desc.maxLength, g.blCount[..]);
      NoTurn(counts, desc.maxLength);
      NowRepaired(marks, lens, counts, counts, desc.maxLength, 0);
      return;
    }
    ghost var turns := RepairLengths(g, desc.maxLength, overflow);
    SceneReady(desc, q, g, leaves, ms, marks);
    ExcessFacts(g.blCount[..], desc.maxLength);
    lens := HandOut(desc, q, g, leaves, ms, marks);
    GoodIfFull(lens, leaves, desc.maxLength, g.blCount[..]);
    SomeAtLimit(lens, g.blCount[..], desc.maxLength);
    NowRepaired(marks, lens, counts, g.blCount[..], desc.maxLength, overflow / 2);
    PricedIsCost(marks, freq, lens, desc.Extra());
    HeldEnd(t1, desc.dynTree[..], lens, desc.elems, leaves);
  }

  /** The lengths of the leaves in the tree, cut at m. */
  ghost function CutLens(leaves: set<nat>, elems: nat, ms: seq<Merge>, m: nat): seq<nat>
    requires SonsOlder(elems, ms)
  {
    seq(elems, s requires 0 <= s < elems => if s in leaves then LensAt(elems, ms, m, 0)[s] else 0)
  }

  /** There are as many lengths of each kind as k turns of the repair leave of those in cut. */
  ghost predicate RepairedFrom(cut: seq<nat>, lens: seq<nat>, m: nat, k: nat) {
    exists c, c' :: Counted(cut, c) && Counted(lens, c') && Turns(c, c', m, k)
  }

  lemma {:induction false} NowRepaired(cut: seq<nat>, lens: seq<nat>, c: seq<nat>, c': seq<nat>, m: nat, k: nat)
    requires Counted(cut, c) && Counted(lens, c') && Turns(c, c', m, k)
    ensures RepairedFrom(cut, lens, m, k)
  {
    hide Counted, Turns;
  }

  lemma {:induction false} MarksAreCut(marks: seq<nat>, leaves: set<nat>, elems: nat, ms: seq<Merge>, m: nat)
    requires SonsOlder(elems, ms) && Visible(marks, leaves, LensAt(elems, ms, m, 0), elems)
    ensures marks == CutLens(leaves, elems, ms, m)
  {
    hide LensAt;
  }

  /** Some length is as great as it may be. */
  ghost predicate AtLimit(lens: seq<nat>, m: nat) {
    exists s :: 0 <= s < |lens| && lens[s] == m
  }

  lemma {:induction false} SomeAtLimit(lens: seq<nat>, bc: seq<nat>, m: nat)
    requires Counted(lens, bc) && 1 <= m <= MAX_BITS && bc[m] > 0
    ensures AtLimit(lens, m)
  {
    if !AtLimit(lens, m) { CountNone(lens, m); }
  }

  lemma {:induction false} CountNone(lens: seq<nat>, l: nat)
    requires l > 0 && forall s :: 0 <= s < |lens| ==> lens[s] != l
    ensures Count(lens, l) == 0
  {
    if lens != [] { CountNone(lens[..|lens| - 1], l); }
  }

  lemma {:induction false} SameFreqs(t: seq<CtData>, t': seq<CtData>, n: nat)
    requires n <= |t| && n <= |t'| && Freqs(t', |t'|) == Freqs(t, |t|)
    ensures Freqs(t', n) == Freqs(t, n)
  {
    assert Freqs(t', n) == Freqs(t', |t'|)[..n] && Freqs(t, n) == Freqs(t, |t|)[..n];
  }

  lemma {:induction false} AboveMax(marks: seq<nat>, m: nat, bc: seq<nat>)
    requires Counted(marks, bc) && forall s :: 0 <= s < |marks| ==> marks[s] <= m
    ensures forall l :: m < l <= MAX_BITS ==> bc[l] == 0
  {
    forall l | m < l <= MAX_BITS ensures bc[l] == 0 { CountAbove(marks, l); }
  }

  lemma {:induction false} ExcessFacts(bc: seq<nat>, m: nat)
    requires Excess(bc, m, 0)
    ensures |bc| == MAX_BITS + 1 && bc[0] == 0
  {
  }

  lemma {:induction false} SceneReady(desc: TreeDesc, q: NodeHeap, g: BlockStats, leaves: set<nat>, ms: seq<Merge>,
      marks: seq<nat>)
    requires desc.Valid() && desc.maxCode < desc.elems && |marks| == desc.elems
    requires q.heap.Length == HEAP_SIZE && q.heap != g.blCount && g.blCount.Length == MAX_BITS + 1
    requires ValidMerges(leaves, desc.elems, ms) && OrderOk(q.heap[..], ms) && 2 * |ms| < HEAP_SIZE
    requires |leaves| == |ms| + 1 && 1 <= |ms|
    requires forall s :: s in leaves ==> s <= desc.maxCode
    requires forall s :: 0 <= s < desc.elems ==> (s in leaves <==> marks[s] > 0)
    ensures Scene(desc, q, g, leaves, ms, marks)
  {
    RootFront(leaves, desc.elems, ms);
  }

  lemma {:induction false} HeldEnd(t: seq<CtData>, t': seq<CtData>, lens: seq<nat>, elems: nat, leaves: set<nat>)
    requires Held(t', t, lens, elems, leaves)
    requires forall s :: 0 <= s < elems && s !in leaves ==> t[s].dl == 0 && lens[s] == 0
    ensures Lens(t', elems) == lens && Freqs(t', |t'|) == Freqs(t, |t|)
  {
  }
}
