/** gen_bitlen's first pass as a walk over the merged nodes, from the root down: e is the
    number of nodes still to visit. */
module Walk {
  import opened Bits
  import opened Canonical
  import opened Huffman
  import opened Costs

  /** The node visited when e nodes are left: the second son of a merge comes before the first. */
  function WalkNode(ms: seq<Merge>, e: nat): nat
    requires 1 <= e <= 2 * |ms|
  {
    if e % 2 == 0 then ms[(e - 1) / 2].m else ms[(e - 1) / 2].n
  }

  /** The front of visited nodes when e nodes are left; between the sons of one merge it still holds their father. */
  function WalkFront(leaves: set<nat>, elems: nat, ms: seq<Merge>, e: nat): set<nat>
    requires e <= 2 * |ms|
  {
    if e % 2 == 0 then Front(leaves, elems, ms, e / 2) else Front(leaves, elems, ms, e / 2 + 1) + {ms[e / 2].m}
  }

  function WalkLens(elems: nat, ms: seq<Merge>, maxLen: nat, e: nat): (lens: seq<nat>)
    requires e <= 2 * |ms| && SonsOlder(elems, ms)
    ensures |lens| == elems + |ms|
    ensures forall i :: 0 <= i < |lens| ==> lens[i] <= maxLen
  {
    if e % 2 == 0 then LensAt(elems, ms, maxLen, e / 2)
    else
      var above := LensAt(elems, ms, maxLen, e / 2 + 1);
      above[ms[e / 2].m := Clamp(above[elems + e / 2] + 1, maxLen)]
  }

  function WalkOverflow(elems: nat, ms: seq<Merge>, maxLen: nat, e: nat): nat
    requires e <= 2 * |ms| && SonsOlder(elems, ms)
  {
    if e % 2 == 0 then Overflow(elems, ms, maxLen, e / 2)
    else
      Overflow(elems, ms, maxLen, e / 2 + 1)
      + if LensAt(elems, ms, maxLen, e / 2 + 1)[elems + e / 2] + 1 > maxLen then 1 else 0
  }

  /** Visiting one node: its father has been visited, the node itself has not. */
  lemma {:induction false} WalkStep(leaves: set<nat>, elems: nat, ms: seq<Merge>, maxLen: nat, e: nat)
    requires ValidMerges(leaves, elems, ms) && SonsOlder(elems, ms) && 1 <= e <= 2 * |ms|
    ensures var node, p := WalkNode(ms, e), elems + (e - 1) / 2;
            var f, g := WalkFront(leaves, elems, ms, e), WalkFront(leaves, elems, ms, e - 1);
            var lens := WalkLens(elems, ms, maxLen, e);
            && p in f && node !in f && node < elems + |ms|
            && g == (if e % 2 == 0 then f + {node} else f - {p} + {node})
            && WalkLens(elems, ms, maxLen, e - 1) == lens[node := Clamp(lens[p] + 1, maxLen)]
            && WalkOverflow(elems, ms, maxLen, e - 1)
                == WalkOverflow(elems, ms, maxLen, e) + if lens[p] + 1 > maxLen then 1 else 0
  {
    hide Front, ValidMerges;
    var i := (e - 1) / 2;
    FrontBack(leaves, elems, ms, i);
    MergedIsGone(leaves, elems, ms, i, i + 1);
    if e % 2 == 0 {
      assert e == 2 * i + 2 && e / 2 == i + 1 && (e - 1) / 2 == i && (e - 1) % 2 == 1;
    } else {
      assert e == 2 * i + 1 && e / 2 == i && (e - 1) / 2 == i && (e - 1) % 2 == 0;
    }
  }

  /** The nodes still to visit are different from the one visited now and from all visited ones. */
  lemma {:induction false} WalkDistinct(leaves: set<nat>, elems: nat, ms: seq<Merge>, e: nat, d: nat)
    requires ValidMerges(leaves, elems, ms) && 1 <= d < e <= 2 * |ms|
    ensures WalkNode(ms, d) != WalkNode(ms, e)
  {
    var i, l := (e - 1) / 2, (d - 1) / 2;
    if i == l {
      assert MergeOk(leaves, elems, ms, i);
    } else {
      MergedIsGone(leaves, elems, ms, l, i);
      assert MergeOk(leaves, elems, ms, i);
    }
  }

  // ----- counting and pricing the leaves visited so far

  /** The lengths of the symbols visited so far; 0 for the others. */
  ghost predicate Visible(visible: seq<nat>, f: set<nat>, lens: seq<nat>, elems: nat)
  {
    && |visible| == elems <= |lens|
    && forall s :: 0 <= s < elems ==> visible[s] == if s in f then lens[s] else 0
  }

  lemma {:induction false} CountUpdate(lens: seq<nat>, s: nat, b: nat, l: nat)
    requires s < |lens|
    ensures Count(lens[s := b], l) + (if lens[s] == l then 1 else 0) == Count(lens, l) + (if b == l then 1 else 0)
  {
    var k := |lens| - 1;
    if s < k {
      CountUpdate(lens[..k], s, b, l);
      assert lens[s := b][..k] == lens[..k][s := b];
    } else {
      assert lens[s := b][..k] == lens[..k];
    }
  }

  lemma {:induction false} CountZeros(lens: seq<nat>, l: nat)
    requires l > 0 && forall s :: 0 <= s < |lens| ==> lens[s] == 0
    ensures Count(lens, l) == 0
  {
    if lens != [] { CountZeros(lens[..|lens| - 1], l); }
  }

  /** What the marked symbols cost when symbol k takes price[k] bits and extra[k] extra bits. */
  function Priced(marks: seq<nat>, freq: seq<nat>, price: seq<nat>, extra: seq<nat>): nat
    requires |marks| <= |freq| && |marks| <= |price| && |marks| <= |extra|
  {
    if marks == [] then 0
    else
      var k := |marks| - 1;
      Priced(marks[..k], freq, price, extra) + if marks[k] == 0 then 0 else freq[k] * (price[k] + extra[k])
  }

  lemma {:induction false} PricedSame(marks: seq<nat>, freq: seq<nat>, freq': seq<nat>, price: seq<nat>,
      price': seq<nat>, extra: seq<nat>)
    requires |marks| <= |freq| && |marks| <= |price| && |marks| <= |extra| && |marks| <= |freq'| && |marks| <= |price'|
    requires forall s :: 0 <= s < |marks| && marks[s] != 0 ==> price[s] == price'[s] && freq[s] == freq'[s]
    ensures Priced(marks, freq, price, extra) == Priced(marks, freq', price', extra)
  {
    if marks != [] { PricedSame(marks[..|marks| - 1], freq, freq', price, price', extra); }
  }

  /** Marking symbol s, whose price may change at that moment. */
  lemma {:induction false} PricedMark(marks: seq<nat>, freq: seq<nat>, price: seq<nat>, price': seq<nat>,
      extra: seq<nat>, s: nat, b: nat)
    requires |marks| <= |freq| && |marks| <= |price| == |price'| && |marks| <= |extra| && s < |marks| && marks[s] == 0
            && b > 0
    requires forall i :: 0 <= i < |marks| && i != s ==> price[i] == price'[i]
    ensures Priced(marks[s := b], freq, price', extra)
            == Priced(marks, freq, price, extra) + freq[s] * (price'[s] + extra[s])
  {
    var k := |marks| - 1;
    if s < k {
      PricedMark(marks[..k], freq, price, price', extra, s, b);
      assert marks[s := b][..k] == marks[..k][s := b];
    } else {
      assert marks[s := b][..k] == marks[..k];
      PricedSame(marks[..k], freq, freq, price, price', extra);
    }
  }

  lemma {:induction false} PricedNone(marks: seq<nat>, freq: seq<nat>, price: seq<nat>, extra: seq<nat>)
    requires |marks| <= |freq| && |marks| <= |price| && |marks| <= |extra|
    requires forall s :: 0 <= s < |marks| ==> marks[s] == 0
    ensures Priced(marks, freq, price, extra) == 0
  {
    if marks != [] { PricedNone(marks[..|marks| - 1], freq, price, extra); }
  }

  /** Once every symbol in use is marked, this is the cost of the frequencies. */
  lemma {:induction false} PricedIsCost(marks: seq<nat>, freq: seq<nat>, price: seq<nat>, extra: seq<nat>)
    requires |marks| == |freq| <= |extra| && |freq| <= |price|
    requires forall s :: 0 <= s < |marks| ==> (marks[s] == 0 ==> freq[s] == 0)
    ensures Priced(marks, freq, price, extra) == Cost(freq, price, extra)
  {
    if marks != [] {
      var k := |marks| - 1;
      PricedSame(marks[..k], freq, freq[..k], price, price, extra);
      PricedIsCost(marks[..k], freq[..k], price, extra);
    }
  }
}
