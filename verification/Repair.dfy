/** The length-limit repair of gen_bitlen: moving leaves down until the lengths fit the maximum again. */
module Repair {
  import opened Bits
  import opened Canonical
  import opened Huffman
  import opened Walk
  import opened BitLengths

  // ----- sums over the counters

  /** The Kraft sum of bc[l] codes of each length 1..l, in units of 2^-m. */
  function KraftCounts(bc: seq<nat>, l: nat, m: nat): nat
    requires l < |bc|
  {
    if l == 0 then 0 else KraftCounts(bc, l - 1, m) + bc[l] * Share(l, m)
  }

  function CodesUpTo(bc: seq<nat>, l: nat): nat
    requires l < |bc|
  {
    if l == 0 then 0 else CodesUpTo(bc, l - 1) + bc[l]
  }

  lemma {:induction false} KraftCountsUpdate(bc: seq<nat>, l: nat, m: nat, i: nat, v: nat)
    requires l < |bc| && 1 <= i < |bc|
    ensures KraftCounts(bc[i := v], l, m) + (if i <= l then bc[i] * Share(i, m) else 0)
         == KraftCounts(bc, l, m) + (if i <= l then v * Share(i, m) else 0)
  {
    if l > 0 { KraftCountsUpdate(bc, l - 1, m, i, v); }
  }

  lemma {:induction false} CodesUpdate(bc: seq<nat>, l: nat, i: nat, v: nat)
    requires l < |bc| && 1 <= i < |bc|
    ensures CodesUpTo(bc[i := v], l) + (if i <= l then bc[i] else 0) == CodesUpTo(bc, l) + (if i <= l then v else 0)
  {
    if l > 0 { CodesUpdate(bc, l - 1, i, v); }
  }

  /** The counters of some lengths have the Kraft sum of those lengths. */
  lemma {:induction false} KraftOfCounts(marks: seq<nat>, bc: seq<nat>, l: nat, m: nat)
    requires l < |bc| && forall i :: 1 <= i <= l ==> bc[i] == Count(marks, i)
    ensures KraftCounts(bc, l, m) == KraftBelow(marks, l + 1, m)
  {
    if l > 0 { KraftOfCounts(marks, bc, l - 1, m); }
  }

  /** If only the greatest length is in use, the Kraft sum is the number of codes. */
  lemma {:induction false} OnlyDeepest(bc: seq<nat>, l: nat, m: nat)
    requires l < |bc| && l < m && forall i :: 1 <= i <= l ==> bc[i] == 0
    ensures KraftCounts(bc, l, m) == 0 && CodesUpTo(bc, l) == 0
  {
    if l > 0 { OnlyDeepest(bc, l - 1, m); }
  }

  // ----- one turn of the repair loop

  /** The counters are half the overflow above a full tree, and the greatest length has codes to spare. */
  ghost predicate Excess(bc: seq<nat>, m: nat, overflow: nat)
  {
    && |bc| == MAX_BITS + 1 && 1 <= m <= MAX_BITS && overflow % 2 == 0 && bc[0] == 0
    && 2 * KraftCounts(bc, m, m) == 2 * Pow2(m) + overflow
    && CodesUpTo(bc, m) <= Pow2(m)
    && (overflow > 0 ==> 2 * bc[m] >= overflow + 2)
  }

  /** Takes a leaf of length b one level down, with a cut node as its brother. */
  function MoveDown(bc: seq<nat>, b: nat, m: nat): (r: seq<nat>)
    requires 1 <= b < m < |bc| && bc[b] >= 1 && bc[m] >= 1
    ensures |r| == |bc|
  {
    var one := bc[b := bc[b] - 1];
    var two := one[b + 1 := one[b + 1] + 2];
    two[m := two[m] - 1]
  }

  lemma {:induction false} MoveDownStep(bc: seq<nat>, b: nat, m: nat, overflow: nat)
    requires Excess(bc, m, overflow) && overflow >= 2 && 1 <= b < m && bc[b] >= 1
    ensures Excess(MoveDown(bc, b, m), m, overflow - 2)
    ensures CodesUpTo(MoveDown(bc, b, m), m) == CodesUpTo(bc, m)
    ensures MoveDown(bc, b, m)[m] + 1 >= bc[m]
  {
    hide Pow2;
    var one := bc[b := bc[b] - 1];
    var two := one[b + 1 := one[b + 1] + 2];
    CodesUpdate(bc, m, b, bc[b] - 1);
    CodesUpdate(one, m, b + 1, one[b + 1] + 2);
    CodesUpdate(two, m, m, two[m] - 1);
    KraftCountsUpdate(bc, m, m, b, bc[b] - 1);
    KraftCountsUpdate(one, m, m, b + 1, one[b + 1] + 2);
    KraftCountsUpdate(two, m, m, m, two[m] - 1);
    ShareHalves(b, m);
    TimesLess(bc[b], 1, Share(b, m));
    TimesMore(one[b + 1], Share(b + 1, m));
  }

  lemma {:induction false} ShareHalves(b: nat, m: nat)
    requires 1 <= b < m
    ensures Share(b, m) == 2 * Share(b + 1, m) && Share(m, m) == 1
  {
  }

  lemma {:induction false} TimesLess(a: nat, k: nat, s: nat)
    requires k <= a
    ensures (a - k) * s == a * s - k * s
  {
  }

  lemma {:induction false} TimesMore(a: nat, s: nat)
    ensures (a + 2) * s == a * s + 2 * s
  {
  }

  /** Some length below the greatest is still in use while there is overflow. */
  lemma {:induction false} SomeShorter(bc: seq<nat>, m: nat, overflow: nat)
    requires Excess(bc, m, overflow) && overflow > 0
    ensures exists b :: 1 <= b < m && bc[b] > 0
  {
    assert Share(m, m) == 1;
    if forall b :: 1 <= b < m ==> bc[b] == 0 { OnlyDeepest(bc, m - 1, m); }
  }

  // ----- which leaves are moved

  /** b is the greatest length below m that is in use. */
  ghost predicate Deepest(c: seq<nat>, b: nat, m: nat) {
    1 <= b < m < |c| && c[b] >= 1 && c[m] >= 1 && forall l :: b < l < m ==> c[l] == 0
  }

  /** k turns lead from the counters c to c', each of which moves a leaf of the greatest length below m. */
  ghost predicate Turns(c: seq<nat>, c': seq<nat>, m: nat, k: nat)
    decreases k
  {
    if k == 0 then c' == c
    else exists b :: Deepest(c, b, m) && Turns(MoveDown(c, b, m), c', m, k - 1)
  }

  lemma {:induction false} OneMoreTurn(c: seq<nat>, mid: seq<nat>, b: nat, m: nat, k: nat)
    requires Turns(c, mid, m, k) && Deepest(mid, b, m)
    ensures Turns(c, MoveDown(mid, b, m), m, k + 1)
    decreases k
  {
    hide MoveDown;
    if k == 0 {
      assert Turns(MoveDown(mid, b, m), MoveDown(mid, b, m), m, 0);
    } else {
      var a :| Deepest(c, a, m) && Turns(MoveDown(c, a, m), mid, m, k - 1);
      OneMoreTurn(MoveDown(c, a, m), mid, b, m, k - 1);
    }
  }

  /** The number of leaves of each length up to l, weighed by their share of the tree, never grows below m. */
  lemma {:induction false} TurnsLighten(c: seq<nat>, c': seq<nat>, m: nat, k: nat)
    requires Turns(c, c', m, k) && 1 <= m < |c|
    ensures |c'| == |c| && KraftCounts(c', m - 1, m) <= KraftCounts(c, m - 1, m)
    decreases k
  {
    hide KraftCounts, MoveDown;
    if k > 0 {
      var b :| Deepest(c, b, m) && Turns(MoveDown(c, b, m), c', m, k - 1);
      DeepestFacts(c, b, m);
      TurnLightens(c, b, m);
      TurnsLighten(MoveDown(c, b, m), c', m, k - 1);
    }
  }

  lemma {:induction false} DeepestFacts(c: seq<nat>, b: nat, m: nat)
    requires Deepest(c, b, m)
    ensures 1 <= b < m < |c| && c[b] >= 1 && c[m] >= 1 && forall l :: b < l < m ==> c[l] == 0
  {
  }

  lemma {:induction false} TurnLightens(c: seq<nat>, b: nat, m: nat)
    requires 1 <= b < m < |c| && c[b] >= 1 && c[m] >= 1
    ensures KraftCounts(MoveDown(c, b, m), m - 1, m) <= KraftCounts(c, m - 1, m)
  {
    hide Pow2, KraftCounts;
    var one := c[b := c[b] - 1];
    var two := one[b + 1 := one[b + 1] + 2];
    KraftCountsUpdate(c, m - 1, m, b, c[b] - 1);
    KraftCountsUpdate(one, m - 1, m, b + 1, one[b + 1] + 2);
    KraftCountsUpdate(two, m - 1, m, m, two[m] - 1);
    ShareHalves(b, m);
    TimesLess(c[b], 1, Share(b, m));
    TimesMore(one[b + 1], Share(b + 1, m));
  }

  lemma {:induction false} KraftCountsSame(c: seq<nat>, c': seq<nat>, l: nat, m: nat)
    requires l < |c| == |c'| && forall i :: 1 <= i <= l ==> c'[i] == c[i]
    ensures KraftCounts(c', l, m) == KraftCounts(c, l, m)
  {
    if l > 0 { KraftCountsSame(c, c', l - 1, m); }
  }

  /** If only b is in use from b up to m, one leaf of it weighs what is left between. */
  lemma {:induction false} BetweenEmpty(c: seq<nat>, b: nat, l: nat, m: nat)
    requires b <= l < |c| && forall i :: b < i <= l ==> c[i] == 0
    ensures KraftCounts(c, l, m) == KraftCounts(c, b, m)
  {
    if l > b { BetweenEmpty(c, b, l - 1, m); }
  }

  /** The leaves come from as far down as possible. If b is the least length that has lost leaves, the shorter ones
      keep theirs, no length between b and m was in use when the first of them was moved, and what is between b and m
      in the end weighs no more than one leaf of length b. */
  lemma {:induction false} FromFarDown(c: seq<nat>, c': seq<nat>, m: nat, k: nat)
    returns (b: nat, mid: seq<nat>, j: nat)
    requires Turns(c, c', m, k) && k > 0
    ensures |c| == |c'| == |mid| && 1 <= b < m < |c| && j < k
    ensures c'[b] < c[b] && forall l :: 0 <= l < b ==> c'[l] == c[l]
    ensures Turns(c, mid, m, j) && Turns(mid, c', m, k - j) && mid[b] == c[b] && forall l :: b < l < m ==> mid[l] == 0
    ensures KraftCounts(c', m - 1, m) <= KraftCounts(c', b, m) + Share(b, m)
    decreases k
  {
    hide KraftCounts, Share, MoveDown;
    var a :| Deepest(c, a, m) && Turns(MoveDown(c, a, m), c', m, k - 1);
    var c1 := MoveDown(c, a, m);
    DeepestFacts(c, a, m);
    MovedFacts(c, a, m);
    TurnsLighten(c1, c', m, k - 1);
    b, mid, j := a, c, 0;
    if k == 1 {
      FirstTurn(c, a, m);
    } else {
      var b1, mid1, j1 := FromFarDown(c1, c', m, k - 1);
      if b1 < a {
        b, mid, j := b1, mid1, j1 + 1;
        assert Turns(c, mid, m, j);
      } else if b1 > a {
        FirstTurn(c, a, m);
        KraftCountsSame(c1, c', a, m);
      }
    }
  }

  lemma {:induction false} MovedFacts(c: seq<nat>, a: nat, m: nat)
    requires 1 <= a < m < |c| && c[a] >= 1 && c[m] >= 1
    ensures var r := MoveDown(c, a, m);
            |r| == |c| && r[a] == c[a] - 1 && forall l :: 0 <= l < a ==> r[l] == c[l]
  {
  }

  /** After the first turn there is just the leaf that was moved. */
  lemma {:induction false} FirstTurn(c: seq<nat>, a: nat, m: nat)
    requires Deepest(c, a, m)
    ensures var r := MoveDown(c, a, m);
            KraftCounts(r, m - 1, m) <= KraftCounts(r, a, m) + Share(a, m)
  {
    hide KraftCounts, Share;
    var r := MoveDown(c, a, m);
    BetweenEmpty(c, a, m - 1, m);
    TurnLightens(c, a, m);
    assert r[..a + 1] == c[a := c[a] - 1][..a + 1];
    KraftCountsSame(c[a := c[a] - 1], r, a, m);
    KraftCountsUpdate(c, a, m, a, c[a] - 1);
    TimesLess(c[a], 1, Share(a, m));
  }

  /** The repair loop: it takes overflow / 2 turns, keeps the number of codes and leaves a full tree. */
  method RepairLengths(g: BlockStats, maxLength: nat, overflow0: nat) returns (ghost turns: nat)
    requires overflow0 > 0 && Excess(g.blCount[..], maxLength, overflow0)
    modifies g.blCount
    ensures turns == overflow0 / 2 && Turns(old(g.blCount[..]), g.blCount[..], maxLength, turns)
    ensures Excess(g.blCount[..], maxLength, 0)
    ensures maxLength < g.blCount.Length && g.blCount[maxLength] > 0
    ensures CodesUpTo(g.blCount[..], maxLength) == old(CodesUpTo(g.blCount[..], maxLength))
    ensures forall l :: maxLength < l <= MAX_BITS ==> g.blCount[l] == old(g.blCount[l])
  {
    hide Excess, KraftCounts, CodesUpTo, Pow2, Turns, Deepest;
    ghost var c0 := g.blCount[..];
    NoTurn(c0, maxLength);
    var overflow: nat := overflow0;
    turns := 0;
    ExcessBounds(g.blCount[..], maxLength, overflow);
    while true
      invariant overflow > 0 && 2 * turns + overflow == overflow0
      invariant g.blCount.Length == MAX_BITS + 1 && maxLength <= MAX_BITS
      invariant 2 * g.blCount[maxLength] >= overflow + 2
      invariant Excess(g.blCount[..], maxLength, overflow) && Turns(c0, g.blCount[..], maxLength, turns)
      invariant CodesUpTo(g.blCount[..], maxLength) == old(CodesUpTo(g.blCount[..], maxLength))
      invariant forall l :: maxLength < l <= MAX_BITS ==> g.blCount[l] == old(g.blCount[l])
      decreases overflow
    {
      ghost var bc := g.blCount[..];
      ExcessBounds(bc, maxLength, overflow);
      SomeShorter(bc, maxLength, overflow);
      var bits := maxLength - 1;
      while g.blCount[bits] == 0
        invariant 1 <= bits < maxLength
        invariant forall l :: bits < l < maxLength ==> bc[l] == 0
        invariant exists b :: 1 <= b <= bits && bc[b] > 0
        decreases bits
      {
        bits := bits - 1;
      }
      MoveDownStep(bc, bits, maxLength, overflow);
      NowDeepest(bc, bits, maxLength);
      OneMoreTurn(c0, bc, bits, maxLength, turns);
      g.blCount[bits] := g.blCount[bits] - 1;
      g.blCount[bits + 1] := g.blCount[bits + 1] + 2;
      g.blCount[maxLength] := g.blCount[maxLength] - 1;
      assert g.blCount[..] == MoveDown(bc, bits, maxLength);
      overflow := overflow - 2;
      turns := turns + 1;
      if overflow <= 0 { break; }
    }
  }

  lemma {:induction false} NoTurn(c: seq<nat>, m: nat)
    ensures Turns(c, c, m, 0)
  {
  }

  lemma {:induction false} NowDeepest(c: seq<nat>, b: nat, m: nat)
    requires 1 <= b < m < |c| && c[b] >= 1 && c[m] >= 1 && forall l :: b < l < m ==> c[l] == 0
    ensures Deepest(c, b, m)
  {
  }

  lemma {:induction false} ExcessBounds(bc: seq<nat>, m: nat, overflow: nat)
    requires Excess(bc, m, overflow)
    ensures |bc| == MAX_BITS + 1 && 1 <= m <= MAX_BITS && overflow % 2 == 0
    ensures overflow > 0 ==> overflow >= 2 && 2 * bc[m] >= overflow + 2
  {
  }

  // ----- the counters after the first pass

  /** The number of symbols with a length. */
  function NonZero(lens: seq<nat>): nat
  {
    if lens == [] then 0 else NonZero(lens[..|lens| - 1]) + if lens[|lens| - 1] > 0 then 1 else 0
  }

  lemma {:induction false} NonZeroBound(lens: seq<nat>)
    ensures NonZero(lens) <= |lens|
  {
    if lens != [] { NonZeroBound(lens[..|lens| - 1]); }
  }

  lemma {:induction false} CodesSnoc(lens: seq<nat>, x: nat, bc: seq<nat>, bc': seq<nat>, l: nat)
    requires l < |bc| && l < |bc'|
    requires forall i :: 1 <= i <= l ==> bc[i] == Count(lens, i) && bc'[i] == Count(lens + [x], i)
    ensures CodesUpTo(bc', l) == CodesUpTo(bc, l) + if 1 <= x <= l then 1 else 0
  {
    assert (lens + [x])[..|lens|] == lens;
    if l > 0 { CodesSnoc(lens, x, bc, bc', l - 1); }
  }

  lemma {:induction false} CodesAreNonZero(lens: seq<nat>, bc: seq<nat>, l: nat)
    requires l < |bc| && LengthsWithin(lens, l)
    requires forall i :: 1 <= i <= l ==> bc[i] == Count(lens, i)
    ensures CodesUpTo(bc, l) == NonZero(lens)
  {
    if lens == [] {
      NoCodes(bc, l);
    } else {
      var init, x := lens[..|lens| - 1], lens[|lens| - 1];
      var bc0 := seq(|bc|, (i: nat) => Count(init, i));
      assert lens == init + [x];
      CodesAreNonZero(init, bc0, l);
      CodesSnoc(init, x, bc0, bc, l);
    }
  }

  lemma {:induction false} NoCodes(bc: seq<nat>, l: nat)
    requires l < |bc| && forall i :: 1 <= i <= l ==> bc[i] == 0
    ensures CodesUpTo(bc, l) == 0
  {
    if l > 0 { NoCodes(bc, l - 1); }
  }

  /** The Kraft sum by symbol and by node agree. */
  lemma {:induction false} KraftIsSum(marks: seq<nat>, leaves: set<nat>, lens: seq<nat>, m: nat)
    requires |marks| == |lens| && LengthsWithin(lens, m)
    requires forall s :: 0 <= s < |marks| ==> marks[s] == if s in leaves then lens[s] else 0
    requires forall s :: 0 <= s < |marks| && s in leaves ==> lens[s] >= 1
    ensures Kraft(marks, m) == SumOver(leaves, Shares(lens, m))
    ensures 1 <= m ==> Count(marks, m) == SumOver(leaves, Ones(lens, m))
  {
    if marks != [] {
      var k := |marks| - 1;
      KraftIsSum(marks[..k], leaves, lens[..k], m);
      assert Shares(lens, m)[..k] == Shares(lens[..k], m);
      assert Ones(lens, m)[..k] == Ones(lens[..k], m);
    }
  }

  lemma {:induction false} SumPrefix(f: set<nat>, w: seq<nat>, n: nat)
    requires n <= |w| && forall x :: x in f ==> x < n
    ensures SumOver(f, w) == SumOver(f, w[..n])
  {
    if n < |w| {
      SumPrefix(f, w[..|w| - 1], n);
      assert w[..|w| - 1][..n] == w[..n];
    } else {
      assert w[..n] == w;
    }
  }

  /** After the first pass the excess over a full tree is half the number of cut nodes. */
  lemma {:induction false} ExcessAfterFirstPass(leaves: set<nat>, elems: nat, ms: seq<Merge>, m: nat, marks: seq<nat>,
      bc: seq<nat>)
    requires ValidMerges(leaves, elems, ms) && SonsOlder(elems, ms) && |leaves| == |ms| + 1 && 1 <= |ms|
    requires 1 <= m <= MAX_BITS && elems <= Pow2(m)
    requires Visible(marks, leaves, LensAt(elems, ms, m, 0), elems)
    requires forall s :: s in leaves ==> s < elems && marks[s] >= 1
    requires Counted(marks, bc)
    ensures Excess(bc, m, Overflow(elems, ms, m, 0))
    ensures CodesUpTo(bc, m) == NonZero(marks)
  {
    hide Pow2, SumOver, Overflow, ValidMerges, KraftCounts, CodesUpTo, Count, LensAt;
    var lens := LensAt(elems, ms, m, 0);
    KraftOfFront(leaves, elems, ms, m, 0);
    DeepestOfFront(leaves, elems, ms, m, 0);
    assert Front(leaves, elems, ms, 0) == leaves;
    SumPrefix(leaves, Shares(lens, m), elems);
    SumPrefix(leaves, Ones(lens, m), elems);
    assert Shares(lens, m)[..elems] == Shares(lens[..elems], m);
    assert Ones(lens, m)[..elems] == Ones(lens[..elems], m);
    KraftIsSum(marks, leaves, lens[..elems], m);
    KraftByLength(marks, m);
    KraftOfCounts(marks, bc, m, m);
    CodesAreNonZero(marks, bc, m);
    NonZeroBound(marks);
  }
}
