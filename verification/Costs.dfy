/** Bit costs: what a frequency table costs under given code lengths. */
module Costs {

  /** The bits needed to send each symbol i freq[i] times, with a code of lens[i] bits and extra[i] extra bits. */
  function Cost(freq: seq<nat>, lens: seq<nat>, extra: seq<nat>): nat
    requires |freq| <= |lens| && |freq| <= |extra|
  {
    if freq == [] then 0
    else
      var k := |freq| - 1;
      Cost(freq[..k], lens, extra) + freq[k] * (lens[k] + extra[k])
  }

  lemma {:induction false} CostAdd(freq: seq<nat>, lens: seq<nat>, extra: seq<nat>, i: nat, n: nat)
    requires |freq| <= |lens| && |freq| <= |extra| && i < |freq|
    ensures Cost(freq[i := freq[i] + n], lens, extra) == Cost(freq, lens, extra) + n * (lens[i] + extra[i])
  {
    var k := |freq| - 1;
    var freq' := freq[i := freq[i] + n];
    if i < k {
      CostAdd(freq[..k], lens, extra, i, n);
      assert freq'[..k] == freq[..k][i := freq[i] + n];
    } else {
      assert freq'[..k] == freq[..k];
      assert (freq[k] + n) * (lens[k] + extra[k]) == freq[k] * (lens[k] + extra[k]) + n * (lens[k] + extra[k]);
    }
  }

  lemma {:induction false} CostZero(freq: seq<nat>, lens: seq<nat>, extra: seq<nat>)
    requires |freq| <= |lens| && |freq| <= |extra|
    requires forall i :: 0 <= i < |freq| ==> freq[i] == 0
    ensures Cost(freq, lens, extra) == 0
  {
    if freq != [] { CostZero(freq[..|freq| - 1], lens, extra); }
  }

  /** The sum of the frequencies. */
  function Total(freq: seq<nat>): nat
  {
    if freq == [] then 0 else Total(freq[..|freq| - 1]) + freq[|freq| - 1]
  }

  lemma {:induction false} TotalAdd(freq: seq<nat>, i: nat, n: nat)
    requires i < |freq|
    ensures Total(freq[i := freq[i] + n]) == Total(freq) + n
  {
    var k := |freq| - 1;
    var freq' := freq[i := freq[i] + n];
    if i < k {
      TotalAdd(freq[..k], i, n);
      assert freq'[..k] == freq[..k][i := freq[i] + n];
    } else {
      assert freq'[..k] == freq[..k];
    }
  }

  lemma {:induction false} TotalZero(freq: seq<nat>)
    requires forall i :: 0 <= i < |freq| ==> freq[i] == 0
    ensures Total(freq) == 0
  {
    if freq != [] { TotalZero(freq[..|freq| - 1]); }
  }

  lemma {:induction false} CostSame(freq: seq<nat>, lens: seq<nat>, lens': seq<nat>, extra: seq<nat>)
    requires |freq| <= |lens| && |freq| <= |lens'| && |freq| <= |extra|
    requires forall i :: 0 <= i < |freq| ==> lens[i] == lens'[i]
    ensures Cost(freq, lens, extra) == Cost(freq, lens', extra)
  {
    if freq != [] { CostSame(freq[..|freq| - 1], lens, lens', extra); }
  }
}
