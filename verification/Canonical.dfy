/** Canonical Huffman codes from code lengths, section 3.2.2 of RFC 1951, and decoding with them. */
module Canonical {
  import opened Bits
  import opened Wrappers

  const MAX_BITS := 15

  /** The number of symbols whose code length is l. */
  function Count(lens: seq<nat>, l: nat): nat
  {
    if lens == [] then 0 else Count(lens[..|lens| - 1], l) + (if lens[|lens| - 1] == l then 1 else 0)
  }

  /** The smallest code of length l: step 2 of the algorithm of section 3.2.2. */
  function FirstCode(lens: seq<nat>, l: nat): nat
  {
    if l == 0 then 0 else 2 * (FirstCode(lens, l - 1) + if l == 1 then 0 else Count(lens, l - 1))
  }

  /** The code of symbol n: codes of one length are consecutive in symbol order. */
  function CodeOf(lens: seq<nat>, n: nat): nat
    requires n < |lens|
  {
    FirstCode(lens, lens[n]) + Count(lens[..n], lens[n])
  }

  /** The bits of the code of symbol n in the order in which they are sent. */
  function Codeword(lens: seq<nat>, n: nat): (w: seq<bool>)
    requires n < |lens|
    ensures |w| == lens[n]
  {
    MsbBits(CodeOf(lens, n), lens[n])
  }

  /** The Kraft sum of the lengths in units of 2^-m; length 0 means an unused symbol. */
  function Kraft(lens: seq<nat>, m: nat): nat
  {
    if lens == [] then 0 else Kraft(lens[..|lens| - 1], m) + Share(lens[|lens| - 1], m)
  }

  function Share(len: nat, m: nat): nat
  {
    if len == 0 || len > m then 0 else Pow2(m - len)
  }

  ghost predicate LengthsWithin(lens: seq<nat>, m: nat)
  {
    forall n :: 0 <= n < |lens| ==> lens[n] <= m
  }

  /** The lengths a decoder can work with: at most MAX_BITS long and not over-subscribed. */
  ghost predicate Decodable(lens: seq<nat>)
  {
    LengthsWithin(lens, MAX_BITS) && Kraft(lens, MAX_BITS) <= Pow2(MAX_BITS)
  }

  // ----- how the first codes relate to the Kraft sum

  /** The Kraft sum of the lengths 1..l-1, by length. */
  function KraftBelow(lens: seq<nat>, l: nat, m: nat): nat
  {
    if l <= 1 then 0 else KraftBelow(lens, l - 1, m) + Count(lens, l - 1) * Share(l - 1, m)
  }

  lemma {:induction false} KraftBelowSnoc(lens: seq<nat>, x: nat, l: nat, m: nat)
    ensures KraftBelow(lens + [x], l, m) == KraftBelow(lens, l, m) + if 0 < x < l then Share(x, m) else 0
  {
    if l > 1 {
      KraftBelowSnoc(lens, x, l - 1, m);
      assert (lens + [x])[..|lens|] == lens;
      var c, s := Count(lens, l - 1), Share(l - 1, m);
      assert (c + 1) * s == c * s + s;
    }
  }

  /** Summing by length and summing by symbol agree. */
  lemma {:induction false} KraftByLength(lens: seq<nat>, m: nat)
    ensures KraftBelow(lens, m + 1, m) == Kraft(lens, m)
  {
    if lens == [] {
      KraftBelowEmpty(m + 1, m);
    } else {
      var init, x := lens[..|lens| - 1], lens[|lens| - 1];
      KraftByLength(init, m);
      KraftBelowSnoc(init, x, m + 1, m);
      assert lens == init + [x];
    }
  }

  lemma {:induction false} KraftBelowEmpty(l: nat, m: nat)
    ensures KraftBelow([], l, m) == 0
  {
    if l > 1 { KraftBelowEmpty(l - 1, m); }
  }

  lemma {:induction false} KraftBelowMono(lens: seq<nat>, l: nat, l': nat, m: nat)
    requires l <= l'
    ensures KraftBelow(lens, l, m) <= KraftBelow(lens, l', m)
  {
    if l < l' {
      KraftBelowMono(lens, l, l' - 1, m);
      MulMono(Count(lens, l' - 1), Share(l' - 1, m));
    }
  }

  lemma {:induction false} FirstCodeKraft(lens: seq<nat>, l: nat, m: nat)
    requires 1 <= l <= m
    ensures FirstCode(lens, l) * Pow2(m - l) == KraftBelow(lens, l, m)
  {
    if l > 1 {
      FirstCodeKraft(lens, l - 1, m);
      var f, c, p := FirstCode(lens, l - 1), Count(lens, l - 1), Pow2(m - l);
      assert Pow2(m - (l - 1)) == 2 * p;
      Distribute(f, c, p);
    }
  }

  lemma {:induction false} Distribute(f: nat, c: nat, p: nat)
    ensures (2 * (f + c)) * p == f * (2 * p) + c * (2 * p)
  {
  }

  /** Lengths that are not over-subscribed leave room for every code of every length. */
  lemma {:induction false} CodesFit(lens: seq<nat>, l: nat)
    requires Decodable(lens) && 1 <= l <= MAX_BITS
    ensures FirstCode(lens, l) + Count(lens, l) <= Pow2(l)
  {
    hide FirstCode, Pow2, Count;
    var m := MAX_BITS;
    FirstCodeKraft(lens, l, m);
    KraftByLength(lens, m);
    KraftBelowMono(lens, l + 1, m + 1, m);
    assert KraftBelow(lens, l + 1, m) == KraftBelow(lens, l, m) + Count(lens, l) * Pow2(m - l);
    Pow2Add(l, m - l);
    hide KraftBelow, Kraft;
    CancelFactor(FirstCode(lens, l), Count(lens, l), Pow2(l), Pow2(m - l));
  }

  lemma {:induction false} CancelFactor(f: nat, c: nat, q: nat, p: nat)
    requires p > 0 && f * p + c * p <= q * p
    ensures f + c <= q
  {
    MulLess(q, f + c, p);
    assert p * (f + c) == f * p + c * p;
  }

  lemma {:induction false} CountSplit(lens: seq<nat>, n: nat, l: nat)
    requires n < |lens|
    ensures Count(lens[..n], l) + (if lens[n] == l then 1 else 0) <= Count(lens, l)
  {
    var init := lens[..|lens| - 1];
    if n < |init| {
      CountSplit(init, n, l);
      assert init[..n] == lens[..n];
    }
  }

  lemma {:induction false} CodeBound(lens: seq<nat>, n: nat)
    requires Decodable(lens) && n < |lens| && lens[n] > 0
    ensures CodeOf(lens, n) < FirstCode(lens, lens[n]) + Count(lens, lens[n]) <= Pow2(lens[n])
  {
    CountSplit(lens, n, lens[n]);
    CodesFit(lens, lens[n]);
  }

  // ----- section 3.2.2: the two rules that fix the code

  /** Codes of one length are consecutive, in symbol order. */
  lemma {:induction false} ConsecutiveCodes(lens: seq<nat>, m: nat, n: nat)
    requires m < n < |lens| && lens[m] == lens[n]
    requires forall k :: m < k < n ==> lens[k] != lens[n]
    ensures CodeOf(lens, n) == CodeOf(lens, m) + 1
  {
    CountSkip(lens, m, n, n);
  }

  lemma {:induction false} CountSkip(lens: seq<nat>, m: nat, j: nat, n: nat)
    requires m < j <= n < |lens| && lens[m] == lens[n]
    requires forall k :: m < k < n ==> lens[k] != lens[n]
    ensures Count(lens[..j], lens[n]) == Count(lens[..m], lens[n]) + 1
  {
    assert lens[..j][..j - 1] == lens[..j - 1];
    if j > m + 1 { CountSkip(lens, m, j - 1, n); }
  }

  lemma {:induction false} CountGrows(lens: seq<nat>, m: nat, n: nat)
    requires m < n < |lens|
    ensures Count(lens[..m], lens[m]) < Count(lens[..n], lens[m])
  {
    CountSplit(lens[..n], m, lens[m]);
    assert lens[..n][..m] == lens[..m];
  }

  /** Codes longer than l come after all codes of length l, cut to l bits. */
  lemma {:induction false} LongerCodesAfter(lens: seq<nat>, l: nat, l': nat)
    requires 1 <= l < l'
    ensures FirstCode(lens, l') >= (FirstCode(lens, l) + Count(lens, l)) * Pow2(l' - l)
  {
    hide FirstCode, Count, Pow2;
    var e := FirstCode(lens, l) + Count(lens, l);
    NextFirstCode(lens, l' - 1);
    PowerStep(e, l' - 1 - l);
    if l' > l + 1 {
      LongerCodesAfter(lens, l, l' - 1);
    } else {
      PowerNone(e);
    }
  }

  lemma {:induction false} NextFirstCode(lens: seq<nat>, l: nat)
    requires l >= 1
    ensures FirstCode(lens, l + 1) == 2 * (FirstCode(lens, l) + Count(lens, l))
  {
    hide Count;
  }

  lemma {:induction false} PowerStep(e: nat, k: nat)
    ensures e * Pow2(k + 1) == 2 * (e * Pow2(k))
  {
    assert Pow2(k + 1) == 2 * Pow2(k);
  }

  lemma {:induction false} PowerNone(e: nat)
    ensures e * Pow2(0) == e
  {
  }

  // ----- no code is a prefix of another

  lemma {:induction false} MsbBitsPrefix(c: nat, l: nat, d: nat)
    ensures MsbBits(c, l + d)[..l] == MsbBits(c / Pow2(d), l)
    decreases d
  {
    if d > 0 {
      MsbBitsPrefix(c / 2, l, d - 1);
      DivHalf(c, Pow2(d - 1));
      assert MsbBits(c, l + d)[..l] == MsbBits(c / 2, l + d - 1)[..l];
    } else {
      DivOne(c);
    }
  }

  lemma {:induction false} MsbBitsInjective(a: nat, b: nat, l: nat)
    requires a < Pow2(l) && b < Pow2(l) && MsbBits(a, l) == MsbBits(b, l)
    ensures a == b
    decreases l
  {
    if l > 0 {
      var x, y := MsbBits(a / 2, l - 1), MsbBits(b / 2, l - 1);
      assert (x + [a % 2 == 1])[l - 1] == (y + [b % 2 == 1])[l - 1];
      assert (x + [a % 2 == 1])[..l - 1] == x && (y + [b % 2 == 1])[..l - 1] == y;
      MsbBitsInjective(a / 2, b / 2, l - 1);
    }
  }

  lemma {:induction false} DivAtLeast(c: nat, e: nat, p: nat)
    requires p > 0 && c >= e * p
    ensures c / p >= e
  {
    DivMod(c, p);
    MulLess(c / p, e, p);
  }

  lemma {:induction false} DivBelow(c: nat, l: nat, d: nat)
    requires c < Pow2(l + d)
    ensures c / Pow2(d) < Pow2(l)
  {
    Pow2Add(l, d);
    DivMod(c, Pow2(d));
    MulLess(Pow2(l), c / Pow2(d) + 1, Pow2(d));
    MulLess(Pow2(l), c / Pow2(d), Pow2(d));
  }

  /** The code of m, cut to the length of n's code, is not n's code. */
  lemma {:induction false} PrefixFree(lens: seq<nat>, n: nat, m: nat)
    requires Decodable(lens) && n < |lens| && m < |lens| && n != m && 0 < lens[n] <= lens[m]
    ensures Codeword(lens, m)[..lens[n]] != Codeword(lens, n)
  {
    hide MsbBits, FirstCode, Count, Pow2;
    var l, d := lens[n], lens[m] - lens[n];
    var a, c := CodeOf(lens, n), CodeOf(lens, m);
    CodeBound(lens, n);
    CodeBound(lens, m);
    MsbBitsPrefix(c, l, d);
    DivBelow(c, l, d);
    if d > 0 {
      LongerCodesAfter(lens, l, lens[m]);
      DivAtLeast(c, FirstCode(lens, l) + Count(lens, l), Pow2(d));
    } else {
      SameLengthDiffer(lens, n, m);
      Pow2Zero(c);
    }
    if MsbBits(c / Pow2(d), l) == MsbBits(a, l) { MsbBitsInjective(c / Pow2(d), a, l); }
  }

  lemma {:induction false} Pow2Zero(c: nat)
    ensures Pow2(0) == 1 && c / Pow2(0) == c
  {
  }

  lemma {:induction false} SameLengthDiffer(lens: seq<nat>, n: nat, m: nat)
    requires n < |lens| && m < |lens| && n != m && lens[n] == lens[m]
    ensures CodeOf(lens, n) != CodeOf(lens, m)
  {
    if n < m { CountGrows(lens, n, m); } else { CountGrows(lens, m, n); }
  }

  // ----- decoding

  /** The string w occurs in bits at position pos. */
  ghost predicate At(bits: seq<bool>, pos: nat, w: seq<bool>)
  {
    pos + |w| <= |bits| && bits[pos..pos + |w|] == w
  }

  lemma {:induction false} AtConcat(bits: seq<bool>, pos: nat, v: seq<bool>, w: seq<bool>)
    ensures At(bits, pos, v + w) <==> At(bits, pos, v) && At(bits, pos + |v|, w)
  {
    if At(bits, pos, v + w) {
      assert bits[pos..pos + |v|] == (v + w)[..|v|];
      assert bits[pos + |v|..pos + |v| + |w|] == (v + w)[|v|..];
    }
    if At(bits, pos, v) && At(bits, pos + |v|, w) {
      assert bits[pos..pos + |v + w|] == bits[pos..pos + |v|] + bits[pos + |v|..pos + |v| + |w|];
    }
  }

  function Occurs(bits: seq<bool>, pos: nat, w: seq<bool>): (b: bool)
    ensures b <==> At(bits, pos, w)
  {
    pos + |w| <= |bits| && bits[pos..pos + |w|] == w
  }

  /** The first symbol from n on whose code occurs at pos, and the position after it. */
  function DecodeFrom(lens: seq<nat>, bits: seq<bool>, pos: nat, n: nat): (r: Option<(nat, nat)>)
    ensures r.Some? ==> n <= r.value.0 < |lens| && pos < r.value.1 <= |bits|
    decreases |lens| - n
  {
    if n >= |lens| then None
    else if lens[n] > 0 && Occurs(bits, pos, Codeword(lens, n)) then Some((n, pos + lens[n]))
    else DecodeFrom(lens, bits, pos, n + 1)
  }

  function DecodeSymbol(lens: seq<nat>, bits: seq<bool>, pos: nat): (r: Option<(nat, nat)>)
    ensures r.Some? ==> r.value.0 < |lens| && pos < r.value.1 <= |bits|
  {
    DecodeFrom(lens, bits, pos, 0)
  }

  lemma {:induction false} DecodeFromFinds(lens: seq<nat>, bits: seq<bool>, pos: nat, n: nat, s: nat)
    requires Decodable(lens) && n <= s < |lens| && lens[s] > 0
    requires At(bits, pos, Codeword(lens, s))
    ensures DecodeFrom(lens, bits, pos, n) == Some((s, pos + lens[s]))
    decreases s - n
  {
    hide Codeword, Kraft, Pow2;
    if n < s {
      if lens[n] > 0 && At(bits, pos, Codeword(lens, n)) {
        if lens[n] <= lens[s] { PrefixFree(lens, n, s); } else { PrefixFree(lens, s, n); }
        assert false;
      }
      DecodeFromFinds(lens, bits, pos, n + 1, s);
    }
  }

  /** A decoder that knows only the lengths recovers the symbol whose code was sent. */
  lemma {:induction false} DecodeSymbolFinds(lens: seq<nat>, bits: seq<bool>, pos: nat, s: nat)
    requires Decodable(lens) && s < |lens| && lens[s] > 0
    requires At(bits, pos, Codeword(lens, s))
    ensures DecodeSymbol(lens, bits, pos) == Some((s, pos + lens[s]))
  {
    DecodeFromFinds(lens, bits, pos, 0, s);
  }
}
