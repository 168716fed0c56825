/** scan_tree and send_tree: run-length coding of code lengths, and its inverse in section 3.2.7 of RFC 1951. */
module CodeLengths {
  import opened Bits
  import opened Canonical
  import opened Inflate
  import opened BitOutput
  import opened Trees
  import opened Costs
  import opened Wrappers

  const REP_3_6 := 16
  const REPZ_3_10 := 17
  const REPZ_11_138 := 18
  const BL_CODES := 19
  const GUARD := 0xffff

  /** One symbol of the code length code with the value of its extra bits. */
  datatype RunCode = RunCode(symbol: nat, extra: nat)

  /** extra_blbits. */
  function ExtraBlBits(symbol: nat): nat
  {
    if symbol == REP_3_6 then 2 else if symbol == REPZ_3_10 then 3 else if symbol == REPZ_11_138 then 7 else 0
  }

  // ----- how lengths are cut into runs; prev is the length sent last, -1 at the start

  function MaxCount(prev: int, cur: nat): nat
  {
    if cur == 0 then 138 else if cur == prev then 6 else 7
  }

  function MinCount(prev: int, cur: nat): nat
  {
    if cur == 0 || cur == prev then 3 else 4
  }

  /** The symbols for count copies of cur. */
  function EmitRun(prev: int, cur: nat, count: nat): seq<RunCode>
  {
    if count < MinCount(prev, cur) then Singles(cur, count)
    else if cur != 0 then
      if cur != prev then [RunCode(cur, 0), RunCode(REP_3_6, count - 4)] else [RunCode(REP_3_6, count - 3)]
    else if count <= 10 then [RunCode(REPZ_3_10, count - 3)]
    else [RunCode(REPZ_11_138, if count >= 11 then count - 11 else 0)]
  }

  function Singles(cur: nat, count: nat): (r: seq<RunCode>)
  {
    if count == 0 then [] else Singles(cur, count - 1) + [RunCode(cur, 0)]
  }

  /** Whether the run that holds lens[n] as its count-th element goes on. */
  predicate RunContinues(lens: seq<nat>, n: nat, prev: int, count: nat)
    requires n < |lens|
  {
    count < MaxCount(prev, lens[n]) && n + 1 < |lens| && lens[n + 1] == lens[n]
  }

  /** The symbols for lens[n..] when count elements before n belong to the run that lens[n] continues. */
  function Runs(lens: seq<nat>, n: nat, prev: int, count: nat): seq<RunCode>
    decreases |lens| - n
  {
    if n >= |lens| then []
    else if RunContinues(lens, n, prev, count + 1) then Runs(lens, n + 1, prev, count + 1)
    else EmitRun(prev, lens[n], count + 1) + Runs(lens, n + 1, lens[n], 0)
  }

  function AllRuns(lens: seq<nat>): seq<RunCode>
  {
    Runs(lens, 0, -1, 0)
  }

  /** How a stretch of equal lengths is sent: up to 138 zeros take one symbol, from three on, and up to seven times
      another length two, from four on; shorter stretches are sent one by one. */
  lemma {:induction false} StretchSent(lens: seq<nat>, k: nat, n: nat, prev: int)
    requires 1 <= n && k + n <= |lens| && (forall i :: k <= i < k + n ==> lens[i] == lens[k])
    requires (k + n < |lens| ==> lens[k + n] != lens[k]) && prev != lens[k] && n <= if lens[k] == 0 then 138 else 7
    ensures var x := lens[k];
            Runs(lens, k, prev, 0) ==
              (if x == 0 && n >= 11 then [RunCode(18, n - 11)]
               else if x == 0 && n >= 3 then [RunCode(17, n - 3)]
               else if x != 0 && n >= 4 then [RunCode(x, 0), RunCode(16, n - 4)]
               else seq(n, i => RunCode(x, 0)))
              + Runs(lens, k + n, x, 0)
  {
    StretchRuns(lens, k, n, prev, 0);
    SinglesAll(lens[k], n);
  }

  lemma {:induction false} StretchRuns(lens: seq<nat>, k: nat, n: nat, prev: int, j: nat)
    requires j < n && k + n <= |lens| && (forall i :: k <= i < k + n ==> lens[i] == lens[k])
    requires (k + n < |lens| ==> lens[k + n] != lens[k]) && prev != lens[k] && n <= if lens[k] == 0 then 138 else 7
    ensures Runs(lens, k + j, prev, j) == EmitRun(prev, lens[k], n) + Runs(lens, k + n, lens[k], 0)
    decreases n - j
  {
    hide EmitRun;
    if j + 1 < n { StretchRuns(lens, k, n, prev, j + 1); }
  }

  lemma {:induction false} SinglesAll(x: nat, n: nat)
    ensures Singles(x, n) == seq(n, i => RunCode(x, 0))
  {
    if n > 0 { SinglesAll(x, n - 1); }
  }

  // ----- section 3.2.7: what the symbols stand for

  function ExpandOne(acc: seq<nat>, r: RunCode): Option<seq<nat>>
  {
    if r.symbol < 16 then Some(acc + [r.symbol])
    else if r.symbol == REP_3_6 then
      if acc == [] then None else Some(acc + Repeat(acc[|acc| - 1], r.extra + 3))
    else if r.symbol == REPZ_3_10 then Some(acc + Repeat(0, r.extra + 3))
    else Some(acc + Repeat(0, r.extra + 11))
  }

  function Expand(acc: seq<nat>, rs: seq<RunCode>): Option<seq<nat>>
    decreases |rs|
  {
    if rs == [] then Some(acc)
    else
      var acc' :- ExpandOne(acc, rs[0]);
      Expand(acc', rs[1..])
  }

  lemma {:induction false} ExpandConcat(acc: seq<nat>, rs: seq<RunCode>, ts: seq<RunCode>)
    requires Expand(acc, rs).Some?
    ensures Expand(acc, rs + ts) == Expand(Expand(acc, rs).value, ts)
    decreases |rs|
  {
    if rs == [] {
      assert rs + ts == ts;
    } else {
      assert (rs + ts)[1..] == rs[1..] + ts;
      ExpandConcat(ExpandOne(acc, rs[0]).value, rs[1..], ts);
    }
  }

  lemma {:induction false} ExpandSingles(acc: seq<nat>, cur: nat, count: nat)
    requires cur < 16
    ensures Expand(acc, Singles(cur, count)) == Some(acc + Repeat(cur, count))
  {
    if count == 0 {
      assert acc + Repeat(cur, 0) == acc;
    } else {
      ExpandSingles(acc, cur, count - 1);
      ExpandConcat(acc, Singles(cur, count - 1), [RunCode(cur, 0)]);
      ExpandSingle(acc + Repeat(cur, count - 1), RunCode(cur, 0));
      assert acc + Repeat(cur, count - 1) + [cur] == acc + Repeat(cur, count);
    }
  }

  lemma {:induction false} ExpandSingle(acc: seq<nat>, r: RunCode)
    ensures Expand(acc, [r]) == ExpandOne(acc, r)
  {
    if ExpandOne(acc, r).Some? { assert Expand(ExpandOne(acc, r).value, [r][1..]) == ExpandOne(acc, r); }
  }

  lemma {:induction false} ExpandRun(acc: seq<nat>, prev: int, cur: nat, count: nat)
    requires cur < 16 && 1 <= count <= MaxCount(prev, cur)
    requires cur == prev ==> acc != [] && acc[|acc| - 1] == cur
    ensures Expand(acc, EmitRun(prev, cur, count)) == Some(acc + Repeat(cur, count))
  {
    if count < MinCount(prev, cur) {
      ExpandSingles(acc, cur, count);
    } else if cur != 0 && cur != prev {
      var first := RunCode(cur, 0);
      ExpandSingle(acc + [cur], RunCode(REP_3_6, count - 4));
      assert [first, RunCode(REP_3_6, count - 4)][1..] == [RunCode(REP_3_6, count - 4)];
      assert acc + [cur] + Repeat(cur, count - 1) == acc + Repeat(cur, count);
    } else {
      ExpandSingle(acc, EmitRun(prev, cur, count)[0]);
    }
  }

  ghost predicate SmallLens(lens: seq<nat>)
  {
    forall i :: 0 <= i < |lens| ==> lens[i] <= MAX_BITS
  }

  lemma {:induction false} ExpandNothing(acc: seq<nat>)
    ensures Expand(acc, []) == Some(acc)
  {
  }

  lemma {:induction false} ExpandRuns(acc: seq<nat>, lens: seq<nat>, n: nat, prev: int, count: nat)
    requires SmallLens(lens) && count <= n <= |lens|
    requires count > 0 ==> n < |lens|
    requires forall i :: n - count <= i < n ==> lens[i] == lens[n]
    requires n < |lens| ==> count < MaxCount(prev, lens[n])
    requires prev >= 0 ==> acc != [] && acc[|acc| - 1] == prev
    ensures Expand(acc, Runs(lens, n, prev, count)) == Some(acc + lens[n - count..])
    decreases |lens| - n
  {
    hide EmitRun, ExpandOne, Expand;
    if n == |lens| {
      ExpandNothing(acc);
      assert acc + lens[n..] == acc;
    } else if RunContinues(lens, n, prev, count + 1) {
      ExpandRuns(acc, lens, n + 1, prev, count + 1);
    } else {
      var run := EmitRun(prev, lens[n], count + 1);
      ExpandRun(acc, prev, lens[n], count + 1);
      var acc' := acc + Repeat(lens[n], count + 1);
      ExpandRuns(acc', lens, n + 1, lens[n], 0);
      ExpandConcat(acc, run, Runs(lens, n + 1, lens[n], 0));
      assert acc' + lens[n + 1..] == acc + lens[n - count..];
    }
  }

  /** Expanding the symbols sent for lens gives back exactly lens, after whatever was decoded before. */
  lemma {:induction false} ExpandAllRuns(acc: seq<nat>, lens: seq<nat>)
    requires SmallLens(lens)
    ensures Expand(acc, AllRuns(lens)) == Some(acc + lens)
  {
    ExpandRuns(acc, lens, 0, -1, 0);
    assert lens[0..] == lens;
  }

  // ----- the bits of the symbols

  ghost predicate RunsWellFormed(rs: seq<RunCode>)
  {
    forall i :: 0 <= i < |rs| ==> rs[i].symbol < BL_CODES && rs[i].extra < Pow2(ExtraBlBits(rs[i].symbol))
  }

  lemma {:induction false} RunsAreWellFormed(lens: seq<nat>, n: nat, prev: int, count: nat)
    requires SmallLens(lens) && n <= |lens|
    requires n < |lens| ==> count < MaxCount(prev, lens[n])
    ensures RunsWellFormed(Runs(lens, n, prev, count))
    decreases |lens| - n
  {
    if n < |lens| {
      if RunContinues(lens, n, prev, count + 1) {
        RunsAreWellFormed(lens, n + 1, prev, count + 1);
      } else {
        EmitIsWellFormed(prev, lens[n], count + 1);
        RunsAreWellFormed(lens, n + 1, lens[n], 0);
      }
    }
  }

  lemma {:induction false} EmitIsWellFormed(prev: int, cur: nat, count: nat)
    requires cur < 16 && 1 <= count <= MaxCount(prev, cur)
    ensures RunsWellFormed(EmitRun(prev, cur, count))
  {
    SinglesAre(cur, count);
    Pow2Values();
    assert Pow2(2) == 4 && Pow2(3) == 8 && Pow2(0) == 1;
  }

  lemma {:induction false} SinglesAre(cur: nat, count: nat)
    ensures |Singles(cur, count)| == count
    ensures forall i :: 0 <= i < count ==> Singles(cur, count)[i] == RunCode(cur, 0)
  {
    if count > 0 { SinglesAre(cur, count - 1); }
  }

  function EncodeRun(code: seq<nat>, r: RunCode): seq<bool>
    requires r.symbol < |code|
  {
    Codeword(code, r.symbol) + BitsOf(r.extra, ExtraBlBits(r.symbol))
  }

  function EncodeRuns(code: seq<nat>, rs: seq<RunCode>): seq<bool>
    requires forall i :: 0 <= i < |rs| ==> rs[i].symbol < |code|
  {
    if rs == [] then [] else EncodeRuns(code, rs[..|rs| - 1]) + EncodeRun(code, rs[|rs| - 1])
  }

  lemma {:induction false} EncodeRunsConcat(code: seq<nat>, rs: seq<RunCode>, ts: seq<RunCode>)
    requires forall i :: 0 <= i < |rs| ==> rs[i].symbol < |code|
    requires forall i :: 0 <= i < |ts| ==> ts[i].symbol < |code|
    ensures EncodeRuns(code, rs + ts) == EncodeRuns(code, rs) + EncodeRuns(code, ts)
  {
    if ts == [] {
      assert rs + ts == rs;
    } else {
      var ts' := ts[..|ts| - 1];
      EncodeRunsConcat(code, rs, ts');
      assert (rs + ts)[..|rs + ts| - 1] == rs + ts';
      ConcatAssoc(EncodeRuns(code, rs), EncodeRuns(code, ts'), EncodeRun(code, ts[|ts| - 1]));
    }
  }

  /** The symbols used all have a code. */
  ghost predicate Covers(code: seq<nat>, rs: seq<RunCode>)
  {
    |code| == BL_CODES && Decodable(code)
        && forall i :: 0 <= i < |rs| ==> rs[i].symbol < BL_CODES && code[rs[i].symbol] > 0
  }

  /** Reading back the symbols sent gives the lengths they stand for. */
  lemma {:induction false} ReadLengthsBack(code: seq<nat>, bits: seq<bool>, pos: nat, rs: seq<RunCode>, acc: seq<nat>,
      lens: seq<nat>)
    requires Covers(code, rs) && RunsWellFormed(rs)
    requires At(bits, pos, EncodeRuns(code, rs))
    requires Expand(acc, rs) == Some(lens)
    ensures ReadLengths(code, bits, pos, |lens|, acc) == Some((lens, pos + |EncodeRuns(code, rs)|))
    ensures |acc| <= |lens| && (rs != [] ==> |acc| < |lens|)
    decreases |rs|
  {
    hide Codeword, Kraft, Pow2, BitsOf, DecodeSymbol, ValueOf, ReadLengths, EncodeRuns, EncodeRun, ExpandOne, At;
    if rs == [] {
      ReadNone(code, bits, pos, lens);
    } else {
      var r, rest := rs[0], rs[1..];
      assert forall i :: 0 <= i < |rest| ==> rest[i] == rs[i + 1];
      EncodeRunsConcat(code, [r], rest);
      assert rs == [r] + rest;
      OneRun(code, r);
      AtConcat(bits, pos, EncodeRun(code, r), EncodeRuns(code, rest));
      var acc' := ExpandOne(acc, r).value;
      ExpandGrows(acc, r);
      ReadLengthsBack(code, bits, pos + |EncodeRun(code, r)|, rest, acc', lens);
      ReadOne(code, bits, pos, r, acc, |lens|);
    }
  }

  lemma {:induction false} ReadNone(code: seq<nat>, bits: seq<bool>, pos: nat, lens: seq<nat>)
    ensures ReadLengths(code, bits, pos, |lens|, lens) == Some((lens, pos))
    ensures |code| == BL_CODES ==> EncodeRuns(code, []) == []
  {
  }

  lemma {:induction false} ExpandGrows(acc: seq<nat>, r: RunCode)
    requires ExpandOne(acc, r).Some?
    ensures |acc| < |ExpandOne(acc, r).value|
  {
  }

  lemma {:induction false} OneRun(code: seq<nat>, r: RunCode)
    requires r.symbol < |code|
    ensures EncodeRuns(code, [r]) == EncodeRun(code, r)
  {
    assert [r][..0] == [];
    assert EncodeRuns(code, []) + EncodeRun(code, r) == EncodeRun(code, r);
  }

  lemma {:induction false} ReadOne(code: seq<nat>, bits: seq<bool>, pos: nat, r: RunCode, acc: seq<nat>, total: nat)
    requires Decodable(code) && r.symbol < |code| == BL_CODES && code[r.symbol] > 0
            && r.extra < Pow2(ExtraBlBits(r.symbol))
    requires At(bits, pos, EncodeRun(code, r))
    requires ExpandOne(acc, r).Some? && |acc| < total
    ensures ReadLengths(code, bits, pos, total, acc)
         == ReadLengths(code, bits, pos + |EncodeRun(code, r)|, total, ExpandOne(acc, r).value)
  {
    hide Codeword, Kraft, Pow2, BitsOf, DecodeSymbol, At, ReadBits;
    AtConcat(bits, pos, Codeword(code, r.symbol), BitsOf(r.extra, ExtraBlBits(r.symbol)));
    DecodeSymbolFinds(code, bits, pos, r.symbol);
    ReadBack(bits, pos + code[r.symbol], r.extra, ExtraBlBits(r.symbol));
  }

  // ----- how often each symbol is used

  /** The frequencies f after the symbols of rs have been counted. */
  function FreqAfter(f: seq<nat>, rs: seq<RunCode>): (r: seq<nat>)
    requires forall i :: 0 <= i < |rs| ==> rs[i].symbol < |f|
    ensures |r| == |f|
    ensures forall s :: 0 <= s < |f| ==> f[s] <= r[s]
  {
    if rs == [] then f
    else
      var g := FreqAfter(f, rs[..|rs| - 1]);
      var s := rs[|rs| - 1].symbol;
      g[s := g[s] + 1]
  }

  lemma {:induction false} FreqConcat(f: seq<nat>, rs: seq<RunCode>, ts: seq<RunCode>)
    requires forall i :: 0 <= i < |rs| ==> rs[i].symbol < |f|
    requires forall i :: 0 <= i < |ts| ==> ts[i].symbol < |f|
    ensures FreqAfter(f, rs + ts) == FreqAfter(FreqAfter(f, rs), ts)
  {
    if ts == [] {
      assert rs + ts == rs;
    } else {
      FreqConcat(f, rs, ts[..|ts| - 1]);
      assert (rs + ts)[..|rs + ts| - 1] == rs + ts[..|ts| - 1];
    }
  }

  lemma {:induction false} FreqSingles(f: seq<nat>, cur: nat, count: nat)
    requires cur < |f|
    ensures forall i :: 0 <= i < |Singles(cur, count)| ==> Singles(cur, count)[i].symbol == cur
    ensures FreqAfter(f, Singles(cur, count)) == f[cur := f[cur] + count]
  {
    SinglesAre(cur, count);
    if count > 0 {
      FreqSingles(f, cur, count - 1);
      assert Singles(cur, count)[..count - 1] == Singles(cur, count - 1);
    }
  }

  lemma {:induction false} FreqUsed(f: seq<nat>, rs: seq<RunCode>, i: nat)
    requires forall j :: 0 <= j < |rs| ==> rs[j].symbol < |f|
    requires i < |rs|
    ensures FreqAfter(f, rs)[rs[i].symbol] > 0
  {
    if i < |rs| - 1 { FreqUsed(f, rs[..|rs| - 1], i); }
  }

  /** extra_blbits as a table. */
  function ExtraBl(): (t: seq<nat>)
    ensures |t| == BL_CODES && forall s :: 0 <= s < BL_CODES ==> t[s] == ExtraBlBits(s)
  {
    seq(BL_CODES, (i: nat) => ExtraBlBits(i))
  }

  /** Counting symbols first and pricing them later is exact. */
  lemma {:induction false} RunsCost(f: seq<nat>, code: seq<nat>, rs: seq<RunCode>)
    requires |f| == |code| == BL_CODES
    requires forall i :: 0 <= i < |rs| ==> rs[i].symbol < BL_CODES
    ensures Cost(FreqAfter(f, rs), code, ExtraBl()) == Cost(f, code, ExtraBl()) + |EncodeRuns(code, rs)|
  {
    hide Codeword, Cost;
    if rs != [] {
      var init, r := rs[..|rs| - 1], rs[|rs| - 1];
      RunsCost(f, code, init);
      CostAdd(FreqAfter(f, init), code, ExtraBl(), r.symbol, 1);
    }
  }

  // ----- the two loops

  lemma {:induction false} FreqsUpdate(t: seq<CtData>, s: nat, v: nat, n: nat)
    requires s < n <= |t|
    ensures Freqs(t[s := t[s].(fc := v)], n) == Freqs(t, n)[s := v]
    ensures Lens(t[s := t[s].(fc := v)], n) == Lens(t, n)
  {
  }

  /** Adds n to the frequency of symbol s. */
  method AddFreq(tree: array<CtData>, s: nat, n: nat)
    requires s < BL_CODES <= tree.Length
    modifies tree
    ensures Freqs(tree[..], BL_CODES) == old(Freqs(tree[..], BL_CODES))[s := old(tree[s].fc) + n]
    ensures forall i :: 0 <= i < tree.Length ==> tree[i].dl == old(tree[i].dl)
    ensures forall i :: BL_CODES <= i < tree.Length ==> tree[i] == old(tree[i])
  {
    FreqsUpdate(tree[..], s, tree[s].fc + n, BL_CODES);
    ghost var before := tree[..];
    tree[s] := tree[s].(fc := tree[s].fc + n);
    assert tree[..] == before[s := before[s].(fc := before[s].fc + n)];
  }

  /** One run counted: what the four branches of scan_tree do. */
  lemma {:induction false} FreqRun(f: seq<nat>, prev: int, cur: nat, count: nat)
    requires |f| == BL_CODES && cur < 16 && 1 <= count <= MaxCount(prev, cur)
    ensures forall i :: 0 <= i < |EmitRun(prev, cur, count)| ==> EmitRun(prev, cur, count)[i].symbol < BL_CODES
    ensures FreqAfter(f, EmitRun(prev, cur, count)) ==
            if count < MinCount(prev, cur) then f[cur := f[cur] + count]
            else if cur != 0 then
              (if cur != prev then f[cur := f[cur] + 1][REP_3_6 := f[REP_3_6] + 1] else f[REP_3_6 := f[REP_3_6] + 1])
            else if count <= 10 then f[REPZ_3_10 := f[REPZ_3_10] + 1]
            else f[REPZ_11_138 := f[REPZ_11_138] + 1]
  {
    hide FreqAfter;
    if count < MinCount(prev, cur) {
      FreqSingles(f, cur, count);
    } else if cur != 0 && cur != prev {
      assert EmitRun(prev, cur, count) == [RunCode(cur, 0)] + [RunCode(REP_3_6, count - 4)];
      FreqConcat(f, [RunCode(cur, 0)], [RunCode(REP_3_6, count - 4)]);
      FreqOne(f, RunCode(cur, 0));
      FreqOne(f[cur := f[cur] + 1], RunCode(REP_3_6, count - 4));
    } else {
      FreqOne(f, EmitRun(prev, cur, count)[0]);
    }
  }

  lemma {:induction false} FreqOne(f: seq<nat>, r: RunCode)
    requires r.symbol < |f|
    ensures FreqAfter(f, [r]) == f[r.symbol := f[r.symbol] + 1]
  {
    var rs := [r];
    assert rs[..0] == [] && |rs| == 1 && rs[0] == r;
    FreqNone(f);
  }

  lemma {:induction false} FreqNone(f: seq<nat>)
    ensures FreqAfter(f, []) == f
  {
  }

  /** Counts the symbols of one finished run. */
  method CountRun(blTree: array<CtData>, prevlen: int, curlen: nat, count: nat, minCount: nat)
    requires BL_CODES <= blTree.Length && curlen < 16 && 1 <= count <= MaxCount(prevlen, curlen)
    requires minCount == MinCount(prevlen, curlen) && RunsWellFormed(EmitRun(prevlen, curlen, count))
    modifies blTree
    ensures Freqs(blTree[..], BL_CODES) == FreqAfter(old(Freqs(blTree[..], BL_CODES)), EmitRun(prevlen, curlen, count))
    ensures forall i :: 0 <= i < blTree.Length ==> blTree[i].dl == old(blTree[i].dl)
    ensures forall i :: BL_CODES <= i < blTree.Length ==> blTree[i] == old(blTree[i])
  {
    hide FreqAfter, EmitRun;
    FreqRun(Freqs(blTree[..], BL_CODES), prevlen, curlen, count);
    if count < minCount {
      AddFreq(blTree, curlen, count);
    } else if curlen != 0 {
      if curlen != prevlen { AddFreq(blTree, curlen, 1); }
      AddFreq(blTree, REP_3_6, 1);
    } else if count <= 10 {
      AddFreq(blTree, REPZ_3_10, 1);
    } else {
      AddFreq(blTree, REPZ_11_138, 1);
    }
  }

  /** Counts the code length symbols that send_tree will emit for tree[0..maxCode]. */
  method ScanTree(tree: array<CtData>, maxCode: nat, blTree: array<CtData>)
    requires tree != blTree && maxCode + 1 < tree.Length && BL_CODES <= blTree.Length
    requires SmallLens(Lens(tree[..], maxCode + 1))
    modifies tree, blTree
    ensures tree[maxCode + 1] == old(tree[maxCode + 1]).(dl := GUARD)
    ensures forall i :: 0 <= i < tree.Length && i != maxCode + 1 ==> tree[i] == old(tree[i])
    ensures RunsWellFormed(AllRuns(old(Lens(tree[..], maxCode + 1))))
    ensures Freqs(blTree[..], BL_CODES)
            == FreqAfter(old(Freqs(blTree[..], BL_CODES)), AllRuns(old(Lens(tree[..], maxCode + 1))))
    ensures forall i :: 0 <= i < blTree.Length ==> blTree[i].dl == old(blTree[i].dl)
    ensures forall i :: BL_CODES <= i < blTree.Length ==> blTree[i] == old(blTree[i])
  {
    hide FreqAfter, EmitRun, Runs, Pow2;
    ghost var lens := Lens(tree[..], maxCode + 1);
    RunsAreWellFormed(lens, 0, -1, 0);
    ghost var goal := FreqAfter(Freqs(blTree[..], BL_CODES), AllRuns(lens));
    var prevlen: int, nextlen: nat, count: nat := -1, tree[0].dl, 0;
    var maxCount, minCount := 7, 4;
    if nextlen == 0 { maxCount, minCount := 138, 3; }
    tree[maxCode + 1] := tree[maxCode + 1].(dl := GUARD);
    var n := 0;
    while n <= maxCode
      invariant 0 <= n <= maxCode + 1
      invariant nextlen == if n <= maxCode then lens[n] else GUARD
      invariant n <= maxCode ==>
                count < maxCount == MaxCount(prevlen, lens[n]) && minCount == MinCount(prevlen, lens[n])
      invariant count >= 0 && RunsWellFormed(Runs(lens, n, prevlen, count))
      invariant tree[maxCode + 1].dl == GUARD
      invariant forall i :: 0 <= i < tree.Length && i != maxCode + 1 ==> tree[i] == old(tree[i])
      invariant tree[maxCode + 1] == old(tree[maxCode + 1]).(dl := GUARD)
      invariant FreqAfter(Freqs(blTree[..], BL_CODES), Runs(lens, n, prevlen, count)) == goal
      invariant forall i :: 0 <= i < blTree.Length ==> blTree[i].dl == old(blTree[i].dl)
      invariant forall i :: BL_CODES <= i < blTree.Length ==> blTree[i] == old(blTree[i])
    {
      var curlen := nextlen;
      nextlen := tree[n + 1].dl;
      count := count + 1;
      ghost var f := Freqs(blTree[..], BL_CODES);
      RunsStep(f, lens, n, prevlen, count - 1);
      if count < maxCount && curlen == nextlen {
        n := n + 1;
        continue;
      }
      CountRun(blTree, prevlen, curlen, count, minCount);
      count := 0;
      prevlen := curlen;
      maxCount, minCount := 7, 4;
      if nextlen == 0 {
        maxCount, minCount := 138, 3;
      } else if curlen == nextlen {
        maxCount, minCount := 6, 3;
      }
      n := n + 1;
    }
    EndOfRuns(Freqs(blTree[..], BL_CODES), lens, prevlen, count);
  }

  lemma {:induction false} EndOfRuns(f: seq<nat>, lens: seq<nat>, prev: int, count: nat)
    ensures Runs(lens, |lens|, prev, count) == [] && FreqAfter(f, []) == f
  {
  }

  /** One element of the scan: the run goes on, or is counted and a new one starts. */
  lemma {:induction false} RunsStep(f: seq<nat>, lens: seq<nat>, n: nat, prev: int, count: nat)
    requires |f| == BL_CODES && SmallLens(lens) && n < |lens|
    requires count < MaxCount(prev, lens[n]) && RunsWellFormed(Runs(lens, n, prev, count))
    ensures RunContinues(lens, n, prev, count + 1) ==> Runs(lens, n, prev, count) == Runs(lens, n + 1, prev, count + 1)
    ensures !RunContinues(lens, n, prev, count + 1) ==>
              var e := EmitRun(prev, lens[n], count + 1);
              var rest := Runs(lens, n + 1, lens[n], 0);
              && RunsWellFormed(rest) && RunsWellFormed(e)
              && Runs(lens, n, prev, count) == e + rest
              && FreqAfter(f, Runs(lens, n, prev, count)) == FreqAfter(FreqAfter(f, e), rest)
  {
    if !RunContinues(lens, n, prev, count + 1) {
      EmitIsWellFormed(prev, lens[n], count + 1);
      RunsAreWellFormed(lens, n + 1, lens[n], 0);
      FreqConcat(f, EmitRun(prev, lens[n], count + 1), Runs(lens, n + 1, lens[n], 0));
    }
  }

  /** Sends the symbols of one finished run. */
  method SendRun(w: BitWriter, blTree: array<CtData>, ghost code: seq<nat>, prevlen: int, curlen: nat, runCount: nat,
      minCount: nat)
    requires w.Valid() && HasCodes(blTree[..], code)
    requires curlen < 16 && 1 <= runCount <= MaxCount(prevlen, curlen) && minCount == MinCount(prevlen, curlen)
    requires Covers(code, EmitRun(prevlen, curlen, runCount))
    modifies w, w.outbuf
    ensures w.Valid() && w.Contents() == old(w.Contents()) + EncodeRuns(code, EmitRun(prevlen, curlen, runCount))
  {
    hide HasCodes, EncodeRuns, Codeword, BitsOf, ByteBits, Pow2, w.Valid, w.Contents, Kraft;
    var count := runCount;
    Pow2Small();
    if count < minCount {
      SinglesAre(curlen, runCount);
      ghost var i := 0;
      EncodeNothing(code, curlen, w.Contents());
      while true
        invariant w.Valid() && i + count == runCount && count >= 1
        invariant w.Contents() == old(w.Contents()) + EncodeRuns(code, Singles(curlen, i))
        decreases count
      {
        assert EmitRun(prevlen, curlen, runCount)[0] == RunCode(curlen, 0);
        EncodeSinglesNext(code, curlen, i, i + 1, old(w.Contents()));
        SendCode(w, blTree, curlen, code);
        i := i + 1;
        count := count - 1;
        if count == 0 { break; }
      }
    } else if curlen != 0 {
      if curlen != prevlen {
        assert EmitRun(prevlen, curlen, runCount)[0] == RunCode(curlen, 0);
        assert EmitRun(prevlen, curlen, runCount)[1] == RunCode(REP_3_6, runCount - 4);
        EncodeTwo(code, RunCode(curlen, 0), RunCode(REP_3_6, runCount - 4), w.Contents());
        SendCode(w, blTree, curlen, code);
        count := count - 1;
      } else {
        assert EmitRun(prevlen, curlen, runCount)[0] == RunCode(REP_3_6, runCount - 3);
        EncodeJust(code, RunCode(REP_3_6, runCount - 3), w.Contents());
      }
      SendCode(w, blTree, REP_3_6, code);
      w.SendBits(count - 3, 2);
    } else if count <= 10 {
      assert EmitRun(prevlen, curlen, runCount)[0] == RunCode(REPZ_3_10, runCount - 3);
      EncodeJust(code, RunCode(REPZ_3_10, runCount - 3), w.Contents());
      SendCode(w, blTree, REPZ_3_10, code);
      w.SendBits(count - 3, 3);
    } else {
      assert EmitRun(prevlen, curlen, runCount)[0] == RunCode(REPZ_11_138, runCount - 11);
      EncodeJust(code, RunCode(REPZ_11_138, runCount - 11), w.Contents());
      SendCode(w, blTree, REPZ_11_138, code);
      w.SendBits(count - 11, 7);
    }
  }

  lemma {:induction false} Pow2Small()
    ensures Pow2(2) == 4 && Pow2(3) == 8 && Pow2(7) == 128
  {
    Pow2Values();
  }

  lemma {:induction false} EncodeNothing(code: seq<nat>, cur: nat, before: seq<bool>)
    ensures Singles(cur, 0) == [] && EncodeRuns(code, []) == []
    ensures before + EncodeRuns(code, []) == before
  {
  }

  lemma {:induction false} EncodeSinglesNext(code: seq<nat>, cur: nat, i: nat, k: nat, before: seq<bool>)
    requires k == i + 1 && cur < |code| && cur < 16
    ensures forall j :: 0 <= j < |Singles(cur, i)| ==> Singles(cur, i)[j].symbol < |code|
    ensures forall j :: 0 <= j < |Singles(cur, k)| ==> Singles(cur, k)[j].symbol < |code|
    ensures before + EncodeRuns(code, Singles(cur, k))
            == before + EncodeRuns(code, Singles(cur, i)) + Codeword(code, cur)
  {
    SinglesAre(cur, i);
    SinglesAre(cur, k);
    assert Singles(cur, k)[..i] == Singles(cur, i);
    SingleCode(code, cur);
    ConcatAssoc(before, EncodeRuns(code, Singles(cur, i)), Codeword(code, cur));
  }

  lemma {:induction false} SingleCode(code: seq<nat>, cur: nat)
    requires cur < |code|
    ensures cur < 16 ==> EncodeRun(code, RunCode(cur, 0)) == Codeword(code, cur)
  {
  }

  lemma {:induction false} EncodeJust(code: seq<nat>, r: RunCode, before: seq<bool>)
    requires r.symbol < |code|
    ensures before + EncodeRuns(code, [r]) == before + Codeword(code, r.symbol) + BitsOf(r.extra, ExtraBlBits(r.symbol))
  {
    OneRun(code, r);
  }

  lemma {:induction false} EncodeTwo(code: seq<nat>, a: RunCode, b: RunCode, before: seq<bool>)
    requires a.symbol < |code| && a.symbol < 16 && a.extra == 0 && b.symbol < |code|
    ensures before + EncodeRuns(code, [a, b])
         == before + Codeword(code, a.symbol) + Codeword(code, b.symbol) + BitsOf(b.extra, ExtraBlBits(b.symbol))
  {
    hide EncodeRuns, Codeword, BitsOf;
    assert [a, b] == [a] + [b];
    EncodeRunsConcat(code, [a], [b]);
    OneRun(code, a);
    OneRun(code, b);
    SingleCode(code, a.symbol);
    var x := BitsOf(b.extra, ExtraBlBits(b.symbol));
    ConcatAssoc(before, Codeword(code, a.symbol), Codeword(code, b.symbol) + x);
    ConcatAssoc(before + Codeword(code, a.symbol), Codeword(code, b.symbol), x);
  }

  /** Sends tree[0..maxCode].Len in compressed form, using the codes in blTree; the guard is already set. */
  method SendTree(w: BitWriter, tree: array<CtData>, maxCode: nat, blTree: array<CtData>, ghost code: seq<nat>)
    requires w.Valid() && tree != blTree && maxCode + 1 < tree.Length && tree[maxCode + 1].dl == GUARD
    requires SmallLens(Lens(tree[..], maxCode + 1)) && HasCodes(blTree[..], code)
    requires Covers(code, AllRuns(Lens(tree[..], maxCode + 1)))
    modifies w, w.outbuf
    ensures w.Valid()
    ensures w.Contents() == old(w.Contents()) + EncodeRuns(code, AllRuns(Lens(tree[..], maxCode + 1)))
  {
    hide HasCodes, EncodeRuns, EmitRun, Runs, w.Valid, w.Contents, Kraft;
    ghost var lens := Lens(tree[..], maxCode + 1);
    ghost var goal := w.Contents() + EncodeRuns(code, AllRuns(lens));
    RunsAreWellFormed(lens, 0, -1, 0);
    var prevlen: int, nextlen: nat, count: nat := -1, tree[0].dl, 0;
    var maxCount, minCount := 7, 4;
    if nextlen == 0 { maxCount, minCount := 138, 3; }
    var n := 0;
    while n <= maxCode
      invariant 0 <= n <= maxCode + 1 && w.Valid()
      invariant nextlen == if n <= maxCode then lens[n] else GUARD
      invariant n <= maxCode ==>
                count < maxCount == MaxCount(prevlen, lens[n]) && minCount == MinCount(prevlen, lens[n])
      invariant Covers(code, Runs(lens, n, prevlen, count)) && RunsWellFormed(Runs(lens, n, prevlen, count))
      invariant w.Contents() + EncodeRuns(code, Runs(lens, n, prevlen, count)) == goal
    {
      var curlen := nextlen;
      nextlen := tree[n + 1].dl;
      count := count + 1;
      SendStep(code, lens, n, prevlen, count - 1, w.Contents());
      if count < maxCount && curlen == nextlen {
        n := n + 1;
        continue;
      }
      SendRun(w, blTree, code, prevlen, curlen, count, minCount);
      count := 0;
      prevlen := curlen;
      if nextlen == 0 {
        maxCount, minCount := 138, 3;
      } else if curlen == nextlen {
        maxCount, minCount := 6, 3;
      } else {
        maxCount, minCount := 7, 4;
      }
      n := n + 1;
    }
    EndOfRuns([], lens, prevlen, count);
    EncodeNothing(code, 0, w.Contents());
  }

  lemma {:induction false} CoversBoth(code: seq<nat>, e: seq<RunCode>, rest: seq<RunCode>)
    requires Covers(code, e + rest)
    ensures Covers(code, e) && Covers(code, rest)
    ensures forall i :: 0 <= i < |e| ==> e[i].symbol < |code|
    ensures forall i :: 0 <= i < |rest| ==> rest[i].symbol < |code|
  {
    hide Decodable;
    var all := e + rest;
    assert forall i :: 0 <= i < |e| ==> all[i] == e[i];
    assert forall i :: 0 <= i < |rest| ==> all[i + |e|] == rest[i];
  }

  lemma {:induction false} SendStep(code: seq<nat>, lens: seq<nat>, n: nat, prev: int, count: nat, before: seq<bool>)
    requires SmallLens(lens) && n < |lens|
    requires count < MaxCount(prev, lens[n]) && RunsWellFormed(Runs(lens, n, prev, count))
    requires Covers(code, Runs(lens, n, prev, count))
    ensures RunContinues(lens, n, prev, count + 1) ==> Runs(lens, n, prev, count) == Runs(lens, n + 1, prev, count + 1)
    ensures !RunContinues(lens, n, prev, count + 1) ==>
              var e := EmitRun(prev, lens[n], count + 1);
              var rest := Runs(lens, n + 1, lens[n], 0);
              && RunsWellFormed(rest) && Covers(code, rest) && Covers(code, e)
              && before + EncodeRuns(code, Runs(lens, n, prev, count))
                  == before + EncodeRuns(code, e) + EncodeRuns(code, rest)
  {
    hide EncodeRuns, EmitRun, Kraft, Covers, RunsWellFormed;
    if !RunContinues(lens, n, prev, count + 1) {
      var e, rest := EmitRun(prev, lens[n], count + 1), Runs(lens, n + 1, lens[n], 0);
      EmitIsWellFormed(prev, lens[n], count + 1);
      RunsAreWellFormed(lens, n + 1, lens[n], 0);
      CoversBoth(code, e, rest);
      EncodeRunsConcat(code, e, rest);
      ConcatAssoc(before, EncodeRuns(code, e), EncodeRuns(code, rest));
    }
  }

  // ----- the number of symbols

  lemma {:induction false} RunsCount(lens: seq<nat>, n: nat, prev: int, count: nat)
    requires n <= |lens| && (n < |lens| ==> count < MaxCount(prev, lens[n]))
    ensures |Runs(lens, n, prev, count)| <= |lens| - n + count
    decreases |lens| - n
  {
    if n < |lens| {
      if RunContinues(lens, n, prev, count + 1) {
        RunsCount(lens, n + 1, prev, count + 1);
      } else {
        SinglesAre(lens[n], count + 1);
        RunsCount(lens, n + 1, lens[n], 0);
      }
    }
  }

  lemma {:induction false} FreqTotal(f: seq<nat>, rs: seq<RunCode>)
    requires forall i :: 0 <= i < |rs| ==> rs[i].symbol < |f|
    ensures Total(FreqAfter(f, rs)) == Total(f) + |rs|
  {
    if rs != [] {
      FreqTotal(f, rs[..|rs| - 1]);
      TotalAdd(FreqAfter(f, rs[..|rs| - 1]), rs[|rs| - 1].symbol, 1);
    }
  }

  /** Symbols that name no length themselves expand zeros to zeros. */
  lemma {:induction false} OnlyZeros(acc: seq<nat>, rs: seq<RunCode>)
    requires forall i :: 0 <= i < |rs| ==> rs[i].symbol == 0 || rs[i].symbol >= 16
    requires forall i :: 0 <= i < |acc| ==> acc[i] == 0
    ensures Expand(acc, rs).Some? ==> forall i :: 0 <= i < |Expand(acc, rs).value| ==> Expand(acc, rs).value[i] == 0
    decreases |rs|
  {
    if rs != [] && ExpandOne(acc, rs[0]).Some? {
      OnlyZeros(ExpandOne(acc, rs[0]).value, rs[1..]);
    }
  }

  /** The symbols for lengths that are not all zero name some length. */
  lemma {:induction false} SomeLengthSent(lens: seq<nat>, s: nat) returns (i: nat)
    requires SmallLens(lens) && s < |lens| && lens[s] > 0
    ensures i < |AllRuns(lens)| && 1 <= AllRuns(lens)[i].symbol < 16
  {
    hide Expand;
    var rs := AllRuns(lens);
    ExpandAllRuns([], lens);
    assert [] + lens == lens;
    if forall j :: 0 <= j < |rs| ==> rs[j].symbol == 0 || rs[j].symbol >= 16 { OnlyZeros([], rs); }
    i :| 0 <= i < |rs| && 1 <= rs[i].symbol < 16;
  }
}
