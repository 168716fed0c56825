/** What the order of merging means for the lengths: a symbol that is more frequent never gets a longer code. */
module Ranking {
  import opened Huffman
  import opened Walk
  import opened Optimal
  import opened GenBitlen

  /** In the order of merging the frequencies do not fall. */
  lemma {:induction false} WalkRises(leaves: set<nat>, elems: nat, ms: seq<Merge>, w: seq<nat>, d: nat, e: nat)
    requires ValidMerges(leaves, elems, ms) && GreedyMerges(leaves, elems, ms, w) && 1 <= d <= e <= 2 * |ms|
    ensures WalkNode(ms, d) < |w| && WalkNode(ms, e) < |w| && w[WalkNode(ms, d)] <= w[WalkNode(ms, e)]
    decreases e
  {
    hide ValidMerges, GreedyMerges, WalkNode;
    WalkInside(leaves, elems, ms, w, d);
    if d < e {
      WalkRises(leaves, elems, ms, w, d, e - 1);
      WalkNext(leaves, elems, ms, w, e - 1);
    }
  }

  lemma {:induction false} WalkInside(leaves: set<nat>, elems: nat, ms: seq<Merge>, w: seq<nat>, d: nat)
    requires GreedyMerges(leaves, elems, ms, w) && 1 <= d <= 2 * |ms|
    ensures WalkNode(ms, d) < |w|
  {
  }

  /** Where the sons of a merge stand in the order, and what their father weighs. */
  lemma {:induction false} SonsAt(leaves: set<nat>, elems: nat, ms: seq<Merge>, w: seq<nat>, i: nat)
    requires GreedyMerges(leaves, elems, ms, w) && i < |ms|
    ensures WalkNode(ms, 2 * i + 1) == ms[i].n < |w| == elems + |ms| && WalkNode(ms, 2 * i + 2) == ms[i].m < |w|
    ensures w[elems + i] == w[ms[i].n] + w[ms[i].m]
  {
    hide Front, LeastTwo;
    assert (2 * i + 1) % 2 == 1 && (2 * i + 1 - 1) / 2 == i && (2 * i + 2) % 2 == 0 && (2 * i + 2 - 1) / 2 == i;
  }

  /** No node that is left when two are merged is lighter than the second of them. */
  lemma {:induction false} NoneLighter(leaves: set<nat>, elems: nat, ms: seq<Merge>, w: seq<nat>, i: nat, x: nat)
    requires GreedyMerges(leaves, elems, ms, w) && i < |ms| && x < |w| && x in Front(leaves, elems, ms, i)
    ensures ms[i].n < |w| && ms[i].m < |w| && w[ms[i].n] <= w[x] && (x != ms[i].n ==> w[ms[i].m] <= w[x])
  {
    hide Front;
    assert LeastTwo(Front(leaves, elems, ms, i), w, ms[i].n, ms[i].m);
  }

  lemma {:induction false} WalkNext(leaves: set<nat>, elems: nat, ms: seq<Merge>, w: seq<nat>, d: nat)
    requires ValidMerges(leaves, elems, ms) && GreedyMerges(leaves, elems, ms, w) && 1 <= d < 2 * |ms|
    ensures WalkNode(ms, d) < |w| && WalkNode(ms, d + 1) < |w| && w[WalkNode(ms, d)] <= w[WalkNode(ms, d + 1)]
  {
    hide ValidMerges, Front, GreedyMerges, WalkNode;
    var i := (d - 1) / 2;
    SonsAt(leaves, elems, ms, w, i);
    Joined(leaves, elems, ms, i);
    if d == 2 * i + 1 {
      NoneLighter(leaves, elems, ms, w, i, ms[i].m);
    } else {
      SonsAt(leaves, elems, ms, w, i + 1);
      Joined(leaves, elems, ms, i + 1);
      FrontBack(leaves, elems, ms, i);
      if ms[i + 1].n != elems + i { NoneLighter(leaves, elems, ms, w, i, ms[i + 1].n); }
    }
  }

  lemma {:induction false} Joined(leaves: set<nat>, elems: nat, ms: seq<Merge>, i: nat)
    requires ValidMerges(leaves, elems, ms) && i < |ms|
    ensures ms[i].n in Front(leaves, elems, ms, i) && ms[i].m in Front(leaves, elems, ms, i) && ms[i].n != ms[i].m
  {
    assert MergeOk(leaves, elems, ms, i);
  }

  // ----- lengths from the tree

  /** The length of a son is one more than its father's, cut at maxLen. */
  lemma {:induction false} LensOfSons(leaves: set<nat>, elems: nat, ms: seq<Merge>, maxLen: nat, i: nat, j: nat)
    requires ValidMerges(leaves, elems, ms) && SonsOlder(elems, ms) && j <= i < |ms|
    ensures var lens := LensAt(elems, ms, maxLen, j);
            lens[ms[i].n] == lens[ms[i].m] == Clamp(lens[elems + i] + 1, maxLen)
    decreases i - j
  {
    hide ValidMerges;
    if j < i {
      LensOfSons(leaves, elems, ms, maxLen, i, j + 1);
      MergedIsGone(leaves, elems, ms, j, i);
      Joined(leaves, elems, ms, i);
    } else {
      Joined(leaves, elems, ms, i);
    }
  }

  lemma {:induction false} LenOfRoot(elems: nat, ms: seq<Merge>, maxLen: nat, j: nat)
    requires SonsOlder(elems, ms) && 1 <= |ms| && j <= |ms|
    ensures LensAt(elems, ms, maxLen, j)[elems + |ms| - 1] == 0
    decreases |ms| - j
  {
    if j < |ms| { LenOfRoot(elems, ms, maxLen, j + 1); }
  }

  /** A node with a father. */
  ghost predicate IsSon(ms: seq<Merge>, x: nat, i: nat) {
    i < |ms| && (x == ms[i].n || x == ms[i].m)
  }

  /** Of two sons the lighter one is merged first, and if their fathers differ its father is lighter too. */
  lemma {:induction false} LighterFirst(leaves: set<nat>, elems: nat, ms: seq<Merge>, w: seq<nat>, x: nat, i: nat,
      y: nat, j: nat)
    requires ValidMerges(leaves, elems, ms) && GreedyMerges(leaves, elems, ms, w)
    requires IsSon(ms, x, i) && IsSon(ms, y, j) && x < |w| && y < |w| && w[x] < w[y]
    ensures i <= j < |ms| && |w| == elems + |ms| && (i < j ==> w[elems + i] < w[elems + j])
  {
    hide ValidMerges, GreedyMerges, WalkNode;
    SonsAt(leaves, elems, ms, w, i);
    SonsAt(leaves, elems, ms, w, j);
    var d, e := if x == ms[i].n then 2 * i + 1 else 2 * i + 2, if y == ms[j].n then 2 * j + 1 else 2 * j + 2;
    if e <= d { WalkRises(leaves, elems, ms, w, e, d); }
    if i < j {
      WalkRises(leaves, elems, ms, w, 2 * i + 1, 2 * i + 2);
      WalkRises(leaves, elems, ms, w, 2 * i + 2, 2 * j + 1);
      WalkRises(leaves, elems, ms, w, 2 * j + 1, 2 * j + 2);
    }
  }

  /** Every node but the root has a father. */
  lemma {:induction false} HasFather(leaves: set<nat>, elems: nat, ms: seq<Merge>, x: nat, j: nat) returns (i: nat)
    requires ValidMerges(leaves, elems, ms) && 1 <= |ms| && |leaves| == |ms| + 1 && j <= |ms|
    requires x in Front(leaves, elems, ms, j) && x != elems + |ms| - 1
    ensures j <= i && IsSon(ms, x, i)
    decreases |ms| - j
  {
    hide ValidMerges, Front;
    if j == |ms| {
      RootFront(leaves, elems, ms);
      i := j;
      assert false;
    } else if x == ms[j].n || x == ms[j].m {
      i := j;
    } else {
      FrontBack(leaves, elems, ms, j);
      i := HasFather(leaves, elems, ms, x, j + 1);
    }
  }

  /** In the tree, cut or not, the lighter of two nodes never lies higher. */
  lemma {:induction false} LighterIsDeeper(leaves: set<nat>, elems: nat, ms: seq<Merge>, w: seq<nat>, maxLen: nat,
      x: nat, i: nat, y: nat, j: nat)
    requires ValidMerges(leaves, elems, ms) && GreedyMerges(leaves, elems, ms, w) && |leaves| == |ms| + 1 && 1 <= |ms|
    requires IsSon(ms, x, i) && IsSon(ms, y, j) && x < |w| && y < |w| && w[x] < w[y]
    ensures SonsOlder(elems, ms)
    ensures var lens := LensAt(elems, ms, maxLen, 0); lens[x] >= lens[y]
    decreases |ms| - i
  {
    hide ValidMerges, LensAt, Front, GreedyMerges;
    GreedyFacts(leaves, elems, ms, w);
    LighterFirst(leaves, elems, ms, w, x, i, y, j);
    LensOfSons(leaves, elems, ms, maxLen, i, 0);
    LensOfSons(leaves, elems, ms, maxLen, j, 0);
    var root := elems + |ms| - 1;
    if i < j {
      FatherInFront(leaves, elems, ms, i);
      FatherInFront(leaves, elems, ms, j);
      LenOfRoot(elems, ms, maxLen, 0);
      if elems + j != root {
        var k := HasFather(leaves, elems, ms, elems + i, i + 1);
        var l := HasFather(leaves, elems, ms, elems + j, j + 1);
        LighterIsDeeper(leaves, elems, ms, w, maxLen, elems + i, k, elems + j, l);
      }
    }
  }

  lemma {:induction false} GreedyFacts(leaves: set<nat>, elems: nat, ms: seq<Merge>, w: seq<nat>)
    requires GreedyMerges(leaves, elems, ms, w)
    ensures |w| == elems + |ms| && SonsOlder(elems, ms)
  {
  }

  lemma {:induction false} FatherInFront(leaves: set<nat>, elems: nat, ms: seq<Merge>, i: nat)
    requires ValidMerges(leaves, elems, ms) && i < |ms|
    ensures elems + i in Front(leaves, elems, ms, i + 1)
  {
    FrontBack(leaves, elems, ms, i);
  }

  // ----- lengths of symbols

  /** No symbol has a longer code than one that is less frequent. */
  ghost predicate NeverLonger(freq: seq<nat>, lens: seq<nat>) {
    && |freq| == |lens|
    && forall s, t :: 0 <= s < |freq| && 0 <= t < |freq| && 0 < freq[s] < freq[t] ==> lens[t] <= lens[s]
  }

  lemma {:induction false} UncutNeverLonger(leaves: set<nat>, elems: nat, ms: seq<Merge>, w: seq<nat>, maxLen: nat,
      used: seq<nat>, lens: seq<nat>)
    requires ValidMerges(leaves, elems, ms) && GreedyMerges(leaves, elems, ms, w) && |leaves| == |ms| + 1 && 1 <= |ms|
    requires SonsOlder(elems, ms) && used <= w && |used| == |lens| == elems
    requires forall s :: 0 <= s < elems && used[s] > 0 ==> s in leaves
    requires forall s :: s in leaves ==> s < elems && lens[s] == LensAt(elems, ms, maxLen, 0)[s]
    ensures NeverLonger(used, lens)
  {
    hide ValidMerges, GreedyMerges, LensAt, Front;
    GreedyFacts(leaves, elems, ms, w);
    assert Front(leaves, elems, ms, 0) == leaves by { FirstFront(leaves, elems, ms); }
    forall s, t | 0 <= s < elems && 0 <= t < elems && 0 < used[s] < used[t] ensures lens[t] <= lens[s] {
      var i := HasFather(leaves, elems, ms, s, 0);
      var j := HasFather(leaves, elems, ms, t, 0);
      LighterIsDeeper(leaves, elems, ms, w, maxLen, s, i, t, j);
    }
  }

  lemma {:induction false} FirstFront(leaves: set<nat>, elems: nat, ms: seq<Merge>)
    ensures Front(leaves, elems, ms, 0) == leaves
  {
  }

  lemma {:induction false} HandedNeverLonger(leaves: set<nat>, elems: nat, ms: seq<Merge>, w: seq<nat>,
      used: seq<nat>, lens: seq<nat>)
    requires ValidMerges(leaves, elems, ms) && GreedyMerges(leaves, elems, ms, w) && |leaves| == |ms| + 1 && 1 <= |ms|
    requires used <= w && |used| == |lens| == elems && Descending(ms, lens, 0)
    requires forall s :: 0 <= s < elems && used[s] > 0 ==> s in leaves
    ensures NeverLonger(used, lens)
  {
    hide ValidMerges, GreedyMerges, Front, Descending;
    GreedyFacts(leaves, elems, ms, w);
    assert Front(leaves, elems, ms, 0) == leaves by { FirstFront(leaves, elems, ms); }
    forall s, t | 0 <= s < elems && 0 <= t < elems && 0 < used[s] < used[t] ensures lens[t] <= lens[s] {
      var i := HasFather(leaves, elems, ms, s, 0);
      var j := HasFather(leaves, elems, ms, t, 0);
      HandedOrder(leaves, elems, ms, w, lens, s, i, t, j);
    }
  }

  lemma {:induction false} HandedOrder(leaves: set<nat>, elems: nat, ms: seq<Merge>, w: seq<nat>, lens: seq<nat>,
      s: nat, i: nat, t: nat, j: nat)
    requires ValidMerges(leaves, elems, ms) && GreedyMerges(leaves, elems, ms, w) && Descending(ms, lens, 0)
    requires IsSon(ms, s, i) && IsSon(ms, t, j) && s < |lens| <= |w| && t < |lens| && w[s] < w[t]
    ensures lens[t] <= lens[s]
  {
    hide ValidMerges, GreedyMerges, WalkNode;
    SonsAt(leaves, elems, ms, w, i);
    SonsAt(leaves, elems, ms, w, j);
    var d, e := if s == ms[i].n then 2 * i + 1 else 2 * i + 2, if t == ms[j].n then 2 * j + 1 else 2 * j + 2;
    if e <= d { WalkRises(leaves, elems, ms, w, e, d); }
  }
}
