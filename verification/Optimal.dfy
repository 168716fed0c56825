/** The lengths of an uncut tree are the best possible: no prefix code for the same frequencies takes fewer bits. */
module Optimal {
  import opened Bits
  import opened Huffman

  /** Any lengths l over f that satisfy the Kraft inequality cost at least c. */
  ghost predicate LowerBound(f: set<nat>, w: seq<nat>, c: nat)
  {
    forall l: seq<nat>, d: nat :: Feasible(f, w, l, d) ==> c <= SumOver(f, Products(w, l))
  }

  /** Lengths l of at most d bits over f that satisfy the Kraft inequality. */
  ghost predicate Feasible(f: set<nat>, w: seq<nat>, l: seq<nat>, d: nat)
  {
    && |l| == |w| && (forall i :: i in f ==> i < |w|)
    && (forall i :: i in f && i < |w| ==> l[i] <= d)
    && SumOver(f, Shares(l, d)) <= Pow2(d)
  }

  // ----- moving the greatest lengths to the least frequent symbols

  /** Giving the rarer symbol n the greater length of x changes no sum of shares and costs no more. */
  lemma {:induction false} Exchange(f: set<nat>, w: seq<nat>, l: seq<nat>, d: nat, n: nat, x: nat)
    requires Feasible(f, w, l, d) && n in f && x in f && w[n] <= w[x] && l[n] <= l[x]
    ensures var l' := l[n := l[x]][x := l[n]];
            Feasible(f, w, l', d) && SumOver(f, Products(w, l')) <= SumOver(f, Products(w, l))
  {
    hide SumOver, Pow2, Product;
    var l' := l[n := l[x]][x := l[n]];
    if n != x {
      SumTwo(f, Shares(l, d), Shares(l', d), n, x);
      SumTwo(f, Products(w, l), Products(w, l'), n, x);
      Rearrange(w[n], w[x], l[n], l[x]);
    } else {
      assert l' == l;
    }
  }

  lemma {:induction false} SumTwo(f: set<nat>, v: seq<nat>, v': seq<nat>, n: nat, x: nat)
    requires |v| == |v'| && n in f && x in f && n != x && n < |v| && x < |v|
    requires forall i :: 0 <= i < |v| && i != n && i != x ==> v[i] == v'[i]
    ensures SumOver(f, v') + v[n] + v[x] == SumOver(f, v) + v'[n] + v'[x]
  {
    SumRemove(f, v, n);
    SumRemove(f - {n}, v, x);
    SumRemove(f, v', n);
    SumRemove(f - {n}, v', x);
    SumSame(f - {n} - {x}, f - {n} - {x}, v, v');
  }

  lemma {:induction false} Rearrange(a: nat, b: nat, s: nat, t: nat)
    requires a <= b && s <= t
    ensures Product(a, t) + Product(b, s) <= Product(a, s) + Product(b, t)
  {
    assert (b - a) * (t - s) >= 0;
    assert b * t - b * s - a * t + a * s == (b - a) * (t - s);
  }

  /** An element of f with the greatest length. */
  lemma {:induction false} Greatest(f: set<nat>, l: seq<nat>) returns (x: nat)
    requires f != {} && forall i :: i in f ==> i < |l|
    ensures x in f && forall i :: i in f ==> l[i] <= l[x]
    decreases |f|
  {
    x :| x in f;
    var rest := f - {x};
    if rest != {} {
      var y := Greatest(rest, l);
      if l[y] > l[x] { x := y; }
    }
  }

  // ----- shortening and merging the two deepest

  lemma {:induction false} ScaleShares(f: set<nat>, l: seq<nat>, d: nat, e: nat)
    requires e <= d && forall i :: 0 <= i < |l| && i in f ==> l[i] <= e
    ensures SumOver(f, Shares(l, d)) == SumOver(f, Shares(l, e)) * Pow2(d - e)
  {
    hide Pow2;
    if l != [] {
      var k := |l| - 1;
      ScaleShares(f, l[..k], d, e);
      assert Shares(l, d)[..k] == Shares(l[..k], d) && Shares(l, e)[..k] == Shares(l[..k], e);
      if k in f {
        Pow2Add(e - l[k], d - e);
        assert e - l[k] + (d - e) == d - l[k];
        Spread(SumOver(f, Shares(l[..k], e)), Pow2(e - l[k]), Pow2(d - e));
      }
    }
  }

  /** If n alone may be longer than e, it can be cut to e. */
  lemma {:induction false} Shorten(f: set<nat>, w: seq<nat>, l: seq<nat>, d: nat, n: nat, m: nat)
    requires Feasible(f, w, l, d) && n in f && m in f && n != m && l[m] <= l[n]
    requires forall i :: i in f && i != n ==> l[i] <= l[m]
    ensures 1 <= l[m] && Feasible(f, w, l[n := l[m]], l[m])
    ensures SumOver(f, Products(w, l[n := l[m]])) <= SumOver(f, Products(w, l))
  {
    hide SumOver, Pow2, Product;
    var e := l[m];
    var l' := l[n := e];
    var s := SumOver(f - {n}, Shares(l, e));
    ScaleShares(f - {n}, l, d, e);
    SumRemove(f, Shares(l, d), n);
    Pow2Add(e, d - e);
    Room(s, Pow2(d - l[n]), Pow2(e), Pow2(d - e));
    SumRemove(f, Shares(l', e), n);
    SumSame(f - {n}, f - {n}, Shares(l, e), Shares(l', e));
    SumRemove(f - {n}, Shares(l, e), m);
    Pow2OfZero();
    SumRemove(f, Products(w, l), n);
    SumRemove(f, Products(w, l'), n);
    SumSame(f - {n}, f - {n}, Products(w, l), Products(w, l'));
    ProductMono(w[n], e, l[n]);
  }

  lemma {:induction false} Pow2OfZero()
    ensures Pow2(0) == 1
  {
  }

  lemma {:induction false} ProductMono(a: nat, s: nat, t: nat)
    requires s <= t
    ensures Product(a, s) <= Product(a, t)
  {
    MulMono(t - s, a);
    assert a * t - a * s == a * (t - s);
  }

  lemma {:induction false} Room(s: nat, x: nat, q: nat, p: nat)
    requires x >= 1 && p >= 1 && s * p + x <= q * p
    ensures s + 1 <= q
  {
    MulLess(q, s, p);
  }

  /** A bound for the queue after a merge gives one for the queue before it. */
  lemma {:induction false} MergeBound(f: set<nat>, g: set<nat>, w: seq<nat>, n: nat, m: nat, p: nat, c: nat)
    requires n in f && m in f && n != m && p !in f && p < |w| && g == f - {n, m} + {p}
    requires forall i :: i in f ==> i < |w|
    requires forall i :: i in f ==> w[n] <= w[i] && (i != n ==> w[m] <= w[i])
    requires w[p] == w[n] + w[m]
    requires LowerBound(g, w, c)
    ensures LowerBound(f, w, c + w[p])
  {
    forall l: seq<nat>, d: nat | Feasible(f, w, l, d) ensures c + w[p] <= SumOver(f, Products(w, l)) {
      MergeBoundAt(f, g, w, n, m, p, c, l, d);
    }
  }

  lemma {:induction false} MergeBoundAt(f: set<nat>, g: set<nat>, w: seq<nat>, n: nat, m: nat, p: nat, c: nat,
      l: seq<nat>, d: nat)
    requires n in f && m in f && n != m && p !in f && p < |w| && g == f - {n, m} + {p}
    requires forall i :: i in f ==> i < |w|
    requires forall i :: i in f ==> w[n] <= w[i] && (i != n ==> w[m] <= w[i])
    requires w[p] == w[n] + w[m]
    requires LowerBound(g, w, c) && Feasible(f, w, l, d)
    ensures c + w[p] <= SumOver(f, Products(w, l))
  {
    hide SumOver, Pow2, Product, LowerBound;
    var x := Greatest(f, l);
    Exchange(f, w, l, d, n, x);
    var l1 := l[n := l[x]][x := l[n]];
    var y := Greatest(f - {n}, l1);
    Exchange(f, w, l1, d, m, y);
    var l2 := l1[m := l1[y]][y := l1[m]];
    Shorten(f, w, l2, d, n, m);
    MergeDeepest(f, g, w, n, m, p, c, l2[n := l2[m]], l2[m]);
  }

  lemma {:induction false} MergeDeepest(f: set<nat>, g: set<nat>, w: seq<nat>, n: nat, m: nat, p: nat, c: nat,
      l: seq<nat>, e: nat)
    requires n in f && m in f && n != m && p !in f && p < |w| && g == f - {n, m} + {p}
    requires w[p] == (if n < |w| then w[n] else 0) + (if m < |w| then w[m] else 0)
    requires LowerBound(g, w, c) && Feasible(f, w, l, e) && 1 <= e && l[n] == l[m] == e
    ensures c + w[p] <= SumOver(f, Products(w, l))
  {
    hide SumOver, Product;
    var l' := l[p := e - 1];
    assert f == g - {p} + {n, m};
    SumReplace(g, f, Shares(l', e), Shares(l, e), p, n, m);
    SumReplace(g, f, Products(w, l'), Products(w, l), p, n, m);
    assert Pow2(1) == 2;
    OneDeeper(w[n], w[m], e - 1);
    assert Feasible(g, w, l', e);
  }

  // ----- the whole tree

  /** Every merge joins the two least frequent nodes of the queue. */
  ghost predicate GreedyMerges(leaves: set<nat>, elems: nat, ms: seq<Merge>, w: seq<nat>)
  {
    && |w| == elems + |ms| && SonsOlder(elems, ms)
    && (forall i :: 0 <= i < |ms| ==> w[elems + i] == w[ms[i].n] + w[ms[i].m])
    && (forall i :: 0 <= i < |ms| ==> LeastTwo(Front(leaves, elems, ms, i), w, ms[i].n, ms[i].m))
  }

  ghost predicate LeastTwo(f: set<nat>, w: seq<nat>, n: nat, m: nat)
  {
    n < |w| && m < |w| && forall i :: i in f && i < |w| ==> w[n] <= w[i] && (i != n ==> w[m] <= w[i])
  }

  lemma {:induction false} FrontLowerBound(leaves: set<nat>, elems: nat, ms: seq<Merge>, w: seq<nat>, j: nat)
    requires ValidMerges(leaves, elems, ms) && GreedyMerges(leaves, elems, ms, w) && j <= |ms|
    ensures LowerBound(Front(leaves, elems, ms, j), w, MergedFreq(w, elems, |ms|, j))
    decreases |ms| - j
  {
    hide LowerBound, Front, ValidMerges;
    if j == |ms| {
      ZeroBound(Front(leaves, elems, ms, j), w);
    } else {
      FrontLowerBound(leaves, elems, ms, w, j + 1);
      FrontBack(leaves, elems, ms, j);
      FrontBound(leaves, elems, ms, j);
      var f, g, p := Front(leaves, elems, ms, j), Front(leaves, elems, ms, j + 1), elems + j;
      assert LeastTwo(f, w, ms[j].n, ms[j].m);
      assert g == f - {ms[j].n, ms[j].m} + {p};
      MergeBound(f, g, w, ms[j].n, ms[j].m, p, MergedFreq(w, elems, |ms|, j + 1));
    }
  }

  lemma {:induction false} ZeroBound(f: set<nat>, w: seq<nat>)
    ensures LowerBound(f, w, 0)
  {
  }

  /** Huffman's theorem for uncut trees, against all lengths that satisfy the Kraft inequality. */
  lemma {:induction false} UncutIsOptimal(leaves: set<nat>, elems: nat, ms: seq<Merge>, w: seq<nat>, maxLen: nat)
    requires ValidMerges(leaves, elems, ms) && GreedyMerges(leaves, elems, ms, w) && |leaves| == |ms| + 1 && 1 <= |ms|
    requires Overflow(elems, ms, maxLen, 0) == 0
    ensures LowerBound(leaves, w, SumOver(leaves, Products(w, LensAt(elems, ms, maxLen, 0))))
  {
    CostOfFront(leaves, elems, ms, maxLen, w, 0);
    FrontLowerBound(leaves, elems, ms, w, 0);
    assert Front(leaves, elems, ms, 0) == leaves;
  }

  // ----- prefix codes satisfy the Kraft inequality

  ghost predicate PrefixFreeOver(f: set<nat>, code: seq<seq<bool>>)
  {
    && (forall i :: i in f ==> i < |code|)
    && forall i, j :: i in f && j in f && i != j && i < |code| && j < |code| ==> !(code[i] <= code[j])
  }

  function CodeLens(code: seq<seq<bool>>): (l: seq<nat>)
    ensures |l| == |code| && forall i :: 0 <= i < |l| ==> l[i] == |code[i]|
  {
    seq(|code|, (i: nat) requires i < |code| => |code[i]|)
  }

  /** The codes without their first bits. */
  function Tails(code: seq<seq<bool>>): (r: seq<seq<bool>>)
    ensures |r| == |code| && forall i :: 0 <= i < |r| ==> r[i] == if code[i] == [] then [] else code[i][1..]
  {
    seq(|code|, (i: nat) requires i < |code| => if code[i] == [] then [] else code[i][1..])
  }

  lemma {:induction false} SumDisjoint(f: set<nat>, g: set<nat>, w: seq<nat>)
    requires f !! g
    ensures SumOver(f + g, w) == SumOver(f, w) + SumOver(g, w)
  {
    if w != [] { SumDisjoint(f, g, w[..|w| - 1]); }
  }

  lemma {:induction false} KraftInequality(f: set<nat>, code: seq<seq<bool>>, d: nat)
    requires PrefixFreeOver(f, code) && forall i :: i in f && i < |code| ==> |code[i]| <= d
    ensures SumOver(f, Shares(CodeLens(code), d)) <= Pow2(d)
    decreases d, 2
  {
    hide SumOver;
    if f == {} {
      SumEmpty(Shares(CodeLens(code), d));
    } else if e :| e in f && code[e] == [] {
      assert forall i :: i in f ==> code[e] <= code[i];
      assert f == {e};
      SumSingle(Shares(CodeLens(code), d), e);
    } else {
      var i :| i in f;
      assert |code[i]| >= 1;
      KraftSplit(f, code, d);
    }
  }

  lemma {:induction false} KraftSplit(f: set<nat>, code: seq<seq<bool>>, d: nat)
    requires d >= 1 && PrefixFreeOver(f, code) && forall i :: i in f && i < |code| ==> 1 <= |code[i]| <= d
    ensures SumOver(f, Shares(CodeLens(code), d)) <= Pow2(d)
    decreases d, 1
  {
    var zero := set i | i in f && !code[i][0];
    var one := set i | i in f && code[i][0];
    assert f == zero + one;
    SumDisjoint(zero, one, Shares(CodeLens(code), d));
    KraftHalf(f, zero, code, d, false);
    KraftHalf(f, one, code, d, true);
  }

  lemma {:induction false} TailPrefix(a: seq<bool>, b: seq<bool>)
    requires a != [] && b != [] && a[0] == b[0]
    ensures a[1..] <= b[1..] ==> a <= b
  {
    assert a == [a[0]] + a[1..] && b == [b[0]] + b[1..];
  }

  lemma {:induction false} KraftHalf(f: set<nat>, h: set<nat>, code: seq<seq<bool>>, d: nat, b: bool)
    requires d >= 1 && PrefixFreeOver(f, code) && forall i :: i in f && i < |code| ==> 1 <= |code[i]| <= d
    requires h <= f && forall i :: i in h ==> code[i][0] == b
    ensures SumOver(h, Shares(CodeLens(code), d)) <= Pow2(d - 1)
    decreases d, 0
  {
    hide SumOver;
    var tails := Tails(code);
    forall i, j | i in h && j in h && i != j && i < |tails| && j < |tails| ensures !(tails[i] <= tails[j]) {
      TailPrefix(code[i], code[j]);
    }
    KraftInequality(h, tails, d - 1);
    SumSame(h, h, Shares(CodeLens(code), d), Shares(CodeLens(tails), d - 1));
  }

  // ----- the statement about frequencies and lengths by symbol

  /** The total length of all symbols. */
  function WeightedLength(freq: seq<nat>, lens: seq<nat>): nat
    requires |freq| <= |lens|
  {
    if freq == [] then 0
    else
      var k := |freq| - 1;
      WeightedLength(freq[..k], lens) + freq[k] * lens[k]
  }

  /** A prefix code with a code word for every symbol of nonzero frequency. */
  ghost predicate PrefixCode(freq: seq<nat>, code: seq<seq<bool>>)
  {
    && |code| == |freq|
    && forall i, j :: 0 <= i < |freq| && 0 <= j < |freq| && i != j && freq[i] > 0 && freq[j] > 0 ==>
              !(code[i] <= code[j])
  }

  /** No prefix code takes fewer bits in total. */
  ghost predicate BestLengths(freq: seq<nat>, lens: seq<nat>)
    requires |freq| <= |lens|
  {
    forall code: seq<seq<bool>> :: PrefixCode(freq, code) ==>
              WeightedLength(freq, lens) <= WeightedLength(freq, CodeLens(code))
  }

  lemma {:induction false} WeightedIsSum(f: set<nat>, freq: seq<nat>, w: seq<nat>, lens: seq<nat>, l: seq<nat>)
    requires |freq| <= |lens| && |freq| <= |w| == |l|
    requires forall i :: 0 <= i < |freq| ==> w[i] == freq[i] && (i in f ==> l[i] == lens[i])
    requires forall i :: i in f ==> i < |freq|
    requires forall i :: 0 <= i < |freq| && i !in f ==> freq[i] == 0
    ensures SumOver(f, Products(w, l)) == WeightedLength(freq, lens)
    decreases |w|
  {
    hide Product;
    if w != [] {
      var k := |w| - 1;
      assert Products(w, l)[..k] == Products(w[..k], l[..k]);
      if k < |freq| {
        SumSame(f, f - {k}, Products(w[..k], l[..k]), Products(w[..k], l[..k]));
        WeightedIsSum(f - {k}, freq[..k], w[..k], lens, l[..k]);
        ProductOf(freq[k], lens[k]);
      } else {
        WeightedIsSum(f, freq, w[..k], lens, l[..k]);
      }
    }
  }

  lemma {:induction false} ProductOf(a: nat, b: nat)
    ensures Product(a, b) == a * b
  {
  }

  /** The lengths of an uncut tree are best among all prefix codes. */
  lemma {:induction false} UncutIsBest(leaves: set<nat>, elems: nat, ms: seq<Merge>, w: seq<nat>, maxLen: nat,
      freq: seq<nat>, lens: seq<nat>)
    requires ValidMerges(leaves, elems, ms) && GreedyMerges(leaves, elems, ms, w) && |leaves| == |ms| + 1 && 1 <= |ms|
    requires Overflow(elems, ms, maxLen, 0) == 0
    requires |freq| == |lens| == elems && forall s :: 0 <= s < elems ==> w[s] == freq[s]
    requires forall s :: 0 <= s < elems ==> (freq[s] > 0 <==> s in leaves)
    requires forall s :: s in leaves ==> s < elems && lens[s] == LensAt(elems, ms, maxLen, 0)[s]
    ensures BestLengths(freq, lens)
  {
    hide LowerBound, ValidMerges, Overflow, SumOver, LensAt;
    UncutIsOptimal(leaves, elems, ms, w, maxLen);
    WeightedIsSum(leaves, freq, w, lens, LensAt(elems, ms, maxLen, 0));
    forall code: seq<seq<bool>> | PrefixCode(freq, code)
      ensures WeightedLength(freq, lens) <= WeightedLength(freq, CodeLens(code))
    {
      BoundForCode(leaves, w, freq, code, SumOver(leaves, Products(w, LensAt(elems, ms, maxLen, 0))));
    }
  }

  lemma {:induction false} BoundForCode(leaves: set<nat>, w: seq<nat>, freq: seq<nat>, code: seq<seq<bool>>, c: nat)
    requires LowerBound(leaves, w, c) && PrefixCode(freq, code) && |freq| <= |w|
    requires forall s :: 0 <= s < |freq| ==> w[s] == freq[s] && (freq[s] > 0 <==> s in leaves)
    requires forall s :: s in leaves ==> s < |freq|
    ensures c <= WeightedLength(freq, CodeLens(code))
  {
    hide SumOver;
    var padded := code + seq(|w| - |code|, i => []);
    var d := Longest(code);
    var l := CodeLens(padded);
    KraftInequality(leaves, padded, d);
    assert Feasible(leaves, w, l, d);
    WeightedIsSum(leaves, freq, w, CodeLens(code), l);
  }

  lemma {:induction false} Longest(code: seq<seq<bool>>) returns (d: nat)
    ensures forall i :: 0 <= i < |code| ==> |code[i]| <= d
  {
    d := 0;
    if code != [] {
      d := Longest(code[1..]);
      assert forall i :: 1 <= i < |code| ==> code[i] == code[1..][i - 1];
      if |code[0]| > d { d := |code[0]|; }
    }
  }
}
