/** The tree that build_tree makes, as the sequence of its merges, and the lengths gen_bitlen reads off it. */
module Huffman {
  import opened Bits

  /** The j-th merge makes node elems + j the father of n and m. */
  datatype Merge = Merge(n: nat, m: nat)

  // ----- sums over sets of nodes

  /** The sum of w[i] over the i in f. */
  function SumOver(f: set<nat>, w: seq<nat>): nat
  {
    if w == [] then 0
    else SumOver(f, w[..|w| - 1]) + if |w| - 1 in f then w[|w| - 1] else 0
  }

  lemma {:induction false} SumSame(f: set<nat>, g: set<nat>, w: seq<nat>, v: seq<nat>)
    requires |w| == |v|
    requires forall i :: 0 <= i < |w| ==> (i in f <==> i in g) && (i in f ==> w[i] == v[i])
    ensures SumOver(f, w) == SumOver(g, v)
  {
    if w != [] { SumSame(f, g, w[..|w| - 1], v[..|v| - 1]); }
  }

  lemma {:induction false} SumRemove(f: set<nat>, w: seq<nat>, x: nat)
    requires x in f && x < |w|
    ensures SumOver(f, w) == SumOver(f - {x}, w) + w[x]
  {
    var k := |w| - 1;
    if x < k {
      SumRemove(f, w[..k], x);
    } else {
      SumSame(f, f - {x}, w[..k], w[..k]);
    }
  }

  lemma {:induction false} SumEmpty(w: seq<nat>)
    ensures SumOver({}, w) == 0
  {
    if w != [] { SumEmpty(w[..|w| - 1]); }
  }

  lemma {:induction false} SumSingle(w: seq<nat>, x: nat)
    requires x < |w|
    ensures SumOver({x}, w) == w[x]
  {
    SumRemove({x}, w, x);
    assert {x} - {x} == {};
    SumEmpty(w);
  }

  /** Replacing p by n and m, whose weights change while those of the others do not. */
  lemma {:induction false} SumReplace(f: set<nat>, g: set<nat>, w: seq<nat>, v: seq<nat>, p: nat, n: nat, m: nat)
    requires |w| == |v| && p in f && p < |w| && n != m && n < |w| && m < |w|
    requires n !in f && m !in f && g == f - {p} + {n, m}
    requires forall i :: 0 <= i < |w| && i in f && i != p ==> v[i] == w[i]
    ensures SumOver(g, v) + w[p] == SumOver(f, w) + v[n] + v[m]
  {
    SumRemove(f, w, p);
    SumRemove(g, v, n);
    SumRemove(g - {n}, v, m);
    assert g - {n} - {m} == f - {p};
    SumSame(f - {p}, f - {p}, w, v);
  }

  // ----- the merges

  /** The nodes still in the queue after the first j merges. */
  function Front(leaves: set<nat>, elems: nat, ms: seq<Merge>, j: nat): set<nat>
    requires j <= |ms|
  {
    if j == 0 then leaves else Front(leaves, elems, ms, j - 1) - {ms[j - 1].n, ms[j - 1].m} + {elems + j - 1}
  }

  /** Merge j joins two different nodes of the queue. */
  ghost predicate MergeOk(leaves: set<nat>, elems: nat, ms: seq<Merge>, j: nat)
    requires j < |ms|
  {
    ms[j].n != ms[j].m && ms[j].n in Front(leaves, elems, ms, j) && ms[j].m in Front(leaves, elems, ms, j)
  }

  ghost predicate ValidMerges(leaves: set<nat>, elems: nat, ms: seq<Merge>)
  {
    && (forall x :: x in leaves ==> x < elems)
    && forall j :: 0 <= j < |ms| ==> MergeOk(leaves, elems, ms, j)
  }

  /** Sons come before their father in the numbering of nodes. */
  predicate SonsOlder(elems: nat, ms: seq<Merge>)
  {
    forall i :: 0 <= i < |ms| ==> ms[i].n < elems + i && ms[i].m < elems + i
  }

  lemma {:induction false} ReplaceCard(f: set<nat>, n: nat, m: nat, p: nat)
    requires n in f && m in f && n != m && p !in f
    ensures |f - {n, m} + {p}| == |f| - 1
  {
    assert f - {n, m} == f - {n} - {m};
  }

  lemma {:induction false} FrontBound(leaves: set<nat>, elems: nat, ms: seq<Merge>, j: nat)
    requires ValidMerges(leaves, elems, ms) && j <= |ms|
    ensures forall x :: x in Front(leaves, elems, ms, j) ==> x < elems + j
    ensures |Front(leaves, elems, ms, j)| == |leaves| - j
  {
    if j > 0 {
      FrontBound(leaves, elems, ms, j - 1);
      assert MergeOk(leaves, elems, ms, j - 1);
      ReplaceCard(Front(leaves, elems, ms, j - 1), ms[j - 1].n, ms[j - 1].m, elems + j - 1);
    }
  }

  lemma {:induction false} FrontPrefix(leaves: set<nat>, elems: nat, ms: seq<Merge>, ns: seq<Merge>, j: nat)
    requires j <= |ms| && j <= |ns| && forall i :: 0 <= i < j ==> ms[i] == ns[i]
    ensures Front(leaves, elems, ms, j) == Front(leaves, elems, ns, j)
  {
    if j > 0 { FrontPrefix(leaves, elems, ms, ns, j - 1); }
  }

  /** A merged node never comes back. */
  lemma {:induction false} MergedIsGone(leaves: set<nat>, elems: nat, ms: seq<Merge>, i: nat, j: nat)
    requires ValidMerges(leaves, elems, ms) && i < j <= |ms|
    ensures ms[i].n !in Front(leaves, elems, ms, j) && ms[i].m !in Front(leaves, elems, ms, j)
    ensures ms[i].n < elems + i && ms[i].m < elems + i
  {
    FrontBound(leaves, elems, ms, i);
    assert MergeOk(leaves, elems, ms, i);
    if j > i + 1 { MergedIsGone(leaves, elems, ms, i, j - 1); }
  }

  // ----- lengths: the depth of each node, cut at maxLen

  function Clamp(x: nat, maxLen: nat): nat
  {
    if x > maxLen then maxLen else x
  }

  /** The lengths once the sons of merges j and later have been given theirs. */
  function LensAt(elems: nat, ms: seq<Merge>, maxLen: nat, j: nat): (lens: seq<nat>)
    requires j <= |ms|
    requires SonsOlder(elems, ms)
    ensures |lens| == elems + |ms|
    ensures forall i :: 0 <= i < |lens| ==> lens[i] <= maxLen
    decreases |ms| - j
  {
    if j == |ms| then seq(elems + |ms|, i => 0)
    else
      var above := LensAt(elems, ms, maxLen, j + 1);
      var b := Clamp(above[elems + j] + 1, maxLen);
      above[ms[j].m := b][ms[j].n := b]
  }

  /** How many nodes were cut, once the sons of merges j and later have been looked at. */
  function Overflow(elems: nat, ms: seq<Merge>, maxLen: nat, j: nat): (o: nat)
    requires j <= |ms|
    requires SonsOlder(elems, ms)
    ensures o % 2 == 0
    decreases |ms| - j
  {
    if j == |ms| then 0
    else
      var above := LensAt(elems, ms, maxLen, j + 1);
      Overflow(elems, ms, maxLen, j + 1) + if above[elems + j] + 1 > maxLen then 2 else 0
  }

  /** Going back over merge j: its father leaves the front and its sons enter it. */
  lemma {:induction false} FrontBack(leaves: set<nat>, elems: nat, ms: seq<Merge>, j: nat)
    requires ValidMerges(leaves, elems, ms) && j < |ms|
    ensures var f, p := Front(leaves, elems, ms, j + 1), elems + j;
            && p in f && ms[j].n !in f && ms[j].m !in f && ms[j].n != ms[j].m
            && Front(leaves, elems, ms, j) == f - {p} + {ms[j].n, ms[j].m}
  {
    FrontBound(leaves, elems, ms, j);
    assert MergeOk(leaves, elems, ms, j);
  }

  /** Shares of the Kraft sum in units of 2^-maxLen. */
  function Shares(lens: seq<nat>, maxLen: nat): (w: seq<nat>)
    ensures |w| == |lens|
    ensures forall i :: 0 <= i < |w| ==> w[i] == if lens[i] <= maxLen then Pow2(maxLen - lens[i]) else 0
  {
    seq(|lens|, (i: nat) requires i < |lens| => if lens[i] <= maxLen then Pow2(maxLen - lens[i]) else 0)
  }

  /** 1 at the nodes of length l. */
  function Ones(lens: seq<nat>, l: nat): (w: seq<nat>)
    ensures |w| == |lens| && forall i :: 0 <= i < |w| ==> w[i] == if lens[i] == l then 1 else 0
  {
    seq(|lens|, (i: nat) requires i < |lens| => if lens[i] == l then 1 else 0)
  }

  /** Cutting lengths makes the Kraft sum exceed 1 by exactly half the number of cut nodes, in units of 2^-maxLen. */
  lemma {:induction false} KraftOfFront(leaves: set<nat>, elems: nat, ms: seq<Merge>, maxLen: nat, j: nat)
    requires ValidMerges(leaves, elems, ms) && |leaves| == |ms| + 1 && 1 <= |ms| && j <= |ms|
    requires SonsOlder(elems, ms)
    ensures 2 * SumOver(Front(leaves, elems, ms, j), Shares(LensAt(elems, ms, maxLen, j), maxLen))
         == 2 * Pow2(maxLen) + Overflow(elems, ms, maxLen, j)
    decreases |ms| - j
  {
    hide SumOver, Pow2, Front, ValidMerges;
    var lens := LensAt(elems, ms, maxLen, j);
    if j == |ms| {
      RootFront(leaves, elems, ms);
      SumSingle(Shares(lens, maxLen), elems + |ms| - 1);
    } else {
      KraftOfFront(leaves, elems, ms, maxLen, j + 1);
      FrontBack(leaves, elems, ms, j);
      var above := LensAt(elems, ms, maxLen, j + 1);
      SumReplace(Front(leaves, elems, ms, j + 1), Front(leaves, elems, ms, j),
                 Shares(above, maxLen), Shares(lens, maxLen), elems + j, ms[j].n, ms[j].m);
      SplitShare(above[elems + j], maxLen);
    }
  }

  lemma {:induction false} SplitShare(l: nat, maxLen: nat)
    requires l <= maxLen
    ensures l < maxLen ==> Pow2(maxLen - l) == 2 * Pow2(maxLen - (l + 1))
    ensures Pow2(0) == 1
  {
  }

  lemma {:induction false} RootFront(leaves: set<nat>, elems: nat, ms: seq<Merge>)
    requires ValidMerges(leaves, elems, ms) && |leaves| == |ms| + 1 && 1 <= |ms|
    ensures Front(leaves, elems, ms, |ms|) == {elems + |ms| - 1}
  {
    var f, root := Front(leaves, elems, ms, |ms|), elems + |ms| - 1;
    FrontBound(leaves, elems, ms, |ms|);
    assert root in f && |f - {root}| == 0;
    assert f == f - {root} + {root};
  }

  /** More nodes of the front have the greatest length than half the number of cut nodes. */
  lemma {:induction false} DeepestOfFront(leaves: set<nat>, elems: nat, ms: seq<Merge>, maxLen: nat, j: nat)
    requires ValidMerges(leaves, elems, ms) && |leaves| == |ms| + 1 && 1 <= |ms| && j <= |ms| && 1 <= maxLen
    requires SonsOlder(elems, ms)
    ensures Overflow(elems, ms, maxLen, j) > 0 ==>
              2 * SumOver(Front(leaves, elems, ms, j), Ones(LensAt(elems, ms, maxLen, j), maxLen))
              >= Overflow(elems, ms, maxLen, j) + 2
    decreases |ms| - j
  {
    hide SumOver, Front, ValidMerges;
    if j < |ms| {
      var lens, above := LensAt(elems, ms, maxLen, j), LensAt(elems, ms, maxLen, j + 1);
      DeepestOfFront(leaves, elems, ms, maxLen, j + 1);
      FrontBack(leaves, elems, ms, j);
      var f := Front(leaves, elems, ms, j + 1);
      SumReplace(f, Front(leaves, elems, ms, j), Ones(above, maxLen), Ones(lens, maxLen), elems + j, ms[j].n, ms[j].m);
      SumRemove(f, Ones(above, maxLen), elems + j);
    }
  }

  /** Frequency times length. */
  function Products(freq: seq<nat>, lens: seq<nat>): (w: seq<nat>)
    requires |freq| == |lens|
    ensures |w| == |freq| && forall i :: 0 <= i < |w| ==> w[i] == Product(freq[i], lens[i])
  {
    seq(|freq|, (i: nat) requires i < |freq| => Product(freq[i], lens[i]))
  }

  function Product(a: nat, b: nat): nat
  {
    a * b
  }

  /** The sum of the frequencies of the fathers made by merges j and later. */
  function MergedFreq(freq: seq<nat>, elems: nat, count: nat, j: nat): nat
    requires |freq| >= elems + count && j <= count
    decreases count - j
  {
    if j == count then 0 else freq[elems + j] + MergedFreq(freq, elems, count, j + 1)
  }

  /** If nothing was cut, the cost of the front is the sum of the frequencies of all later fathers. */
  lemma {:induction false} CostOfFront(leaves: set<nat>, elems: nat, ms: seq<Merge>, maxLen: nat, freq: seq<nat>,
      j: nat)
    requires ValidMerges(leaves, elems, ms) && |leaves| == |ms| + 1 && 1 <= |ms| && j <= |ms|
    requires SonsOlder(elems, ms)
    requires |freq| == elems + |ms|
    requires forall i :: 0 <= i < |ms| ==> freq[elems + i] == freq[ms[i].n] + freq[ms[i].m]
    requires Overflow(elems, ms, maxLen, j) == 0
    ensures SumOver(Front(leaves, elems, ms, j), Products(freq, LensAt(elems, ms, maxLen, j)))
            == MergedFreq(freq, elems, |ms|, j)
    decreases |ms| - j
  {
    hide *;
    CostSteps(elems, ms, maxLen, freq, j);
    var lens := LensAt(elems, ms, maxLen, j);
    OneDeeper(freq[elems + |ms| - 1], 0, 0);
    if j == |ms| {
      RootFront(leaves, elems, ms);
      SumSingle(Products(freq, lens), elems + |ms| - 1);
    } else {
      var above := LensAt(elems, ms, maxLen, j + 1);
      CostOfFront(leaves, elems, ms, maxLen, freq, j + 1);
      FrontBack(leaves, elems, ms, j);
      SumReplace(Front(leaves, elems, ms, j + 1), Front(leaves, elems, ms, j),
                 Products(freq, above), Products(freq, lens), elems + j, ms[j].n, ms[j].m);
      OneDeeper(freq[ms[j].n], freq[ms[j].m], above[elems + j]);
    }
  }

  lemma {:induction false} CostSteps(elems: nat, ms: seq<Merge>, maxLen: nat, freq: seq<nat>, j: nat)
    requires SonsOlder(elems, ms) && |freq| == elems + |ms| && 1 <= |ms| && j <= |ms|
            && Overflow(elems, ms, maxLen, j) == 0
    ensures j == |ms| ==> LensAt(elems, ms, maxLen, j)[elems + |ms| - 1] == 0 && MergedFreq(freq, elems, |ms|, j) == 0
    ensures j < |ms| ==>
              var above, lens := LensAt(elems, ms, maxLen, j + 1), LensAt(elems, ms, maxLen, j);
              && ms[j].n < elems + j && ms[j].m < elems + j
              && Overflow(elems, ms, maxLen, j + 1) == 0
              && lens[ms[j].n] == lens[ms[j].m] == above[elems + j] + 1
              && (forall i :: 0 <= i < |freq| && i != ms[j].n && i != ms[j].m ==> lens[i] == above[i])
              && MergedFreq(freq, elems, |ms|, j) == freq[elems + j] + MergedFreq(freq, elems, |ms|, j + 1)
  {
  }

  lemma {:induction false} OneDeeper(a: nat, b: nat, l: nat)
    ensures Product(a, l + 1) + Product(b, l + 1) == Product(a + b, l) + (a + b)
    ensures Product(a, 0) == 0
  {
  }
}
