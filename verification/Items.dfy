/** The bits of literals and matches under given code lengths, and their decoding. */
module Items {
  import opened Bits
  import opened Canonical
  import opened Inflate
  import opened Tables
  import opened Costs
  import opened Wrappers

  /** The mappings of ct_init as values: match length - 3 to length code, and the index of D_CODE to distance code. */
  datatype CodeMap = CodeMap(len: seq<nat>, dist: seq<nat>)

  function DistIndex(d: nat): nat
  {
    if d < 256 then d else 256 + d / 128
  }

  ghost predicate LengthRow(c: nat, lc: nat)
  {
    c < LENGTH_CODES && LengthBase()[c] <= lc + 3 < LengthBase()[c] + Pow2(LengthExtra()[c])
  }

  ghost predicate DistRow(c: nat, d: nat)
  {
    c < D_CODES && DistBase()[c] <= d + 1 < DistBase()[c] + Pow2(DistExtra()[c])
  }

  ghost predicate GoodMap(cm: CodeMap)
  {
    && |cm.len| == 256 && |cm.dist| == 512
    && (forall lc :: 0 <= lc < 256 ==> LengthRow(cm.len[lc], lc))
    && (forall d :: 0 <= d < 32768 ==> DistRow(cm.dist[DistIndex(d)], d))
  }

  /** Literals, and matches within the limits of the format. */
  predicate GoodItem(item: Item)
  {
    match item
    case Literal(b) => true
    case Match(length, distance) => 3 <= length <= 258 && 1 <= distance <= 32768
    case EndOfBlock => false
  }

  ghost predicate GoodItems(items: seq<Item>)
  {
    forall i :: 0 <= i < |items| ==> GoodItem(items[i])
  }

  /** The literal/length symbol of an item. */
  function LitSymbol(cm: CodeMap, item: Item): (s: nat)
    requires GoodItem(item) && |cm.len| == 256
  {
    match item
    case Literal(b) => b
    case Match(length, distance) => cm.len[length - 3] + 257
  }

  function DistSymbol(cm: CodeMap, item: Item): (s: nat)
    requires GoodItem(item) && item.Match? && |cm.dist| == 512
  {
    cm.dist[DistIndex(item.distance - 1)]
  }

  /** All symbols of the item have a code. */
  ghost predicate Sendable(cm: CodeMap, lit: seq<nat>, dist: seq<nat>, item: Item)
  {
    && GoodMap(cm) && GoodItem(item)
    && LitSymbol(cm, item) < |lit| && lit[LitSymbol(cm, item)] > 0
    && (item.Match? ==> DistSymbol(cm, item) < |dist| && dist[DistSymbol(cm, item)] > 0)
  }

  function MatchTail(cm: CodeMap, dist: seq<nat>, item: Item): seq<bool>
    requires GoodItem(item) && item.Match? && |cm.len| == 256 && |cm.dist| == 512
    requires cm.len[item.length - 3] < 29 && LengthBase()[cm.len[item.length - 3]] <= item.length
    requires DistSymbol(cm, item) < |dist| && DistSymbol(cm, item) < 30
            && DistBase()[DistSymbol(cm, item)] <= item.distance
  {
    var c, d := cm.len[item.length - 3], DistSymbol(cm, item);
    BitsOf(item.length - LengthBase()[c], LengthExtra()[c])
    + (Codeword(dist, d) + BitsOf(item.distance - DistBase()[d], DistExtra()[d]))
  }

  ghost function EncodeItem(cm: CodeMap, lit: seq<nat>, dist: seq<nat>, item: Item): seq<bool>
    requires Sendable(cm, lit, dist, item)
  {
    match item
    case Literal(b) => Codeword(lit, b)
    case Match(length, distance) =>
      assert LengthRow(cm.len[length - 3], length - 3) && DistRow(cm.dist[DistIndex(distance - 1)], distance - 1);
      Codeword(lit, LitSymbol(cm, item)) + MatchTail(cm, dist, item)
  }

  ghost predicate AllSendable(cm: CodeMap, lit: seq<nat>, dist: seq<nat>, items: seq<Item>)
  {
    forall i :: 0 <= i < |items| ==> Sendable(cm, lit, dist, items[i])
  }

  ghost function EncodeItems(cm: CodeMap, lit: seq<nat>, dist: seq<nat>, items: seq<Item>): seq<bool>
    requires AllSendable(cm, lit, dist, items)
  {
    if items == [] then []
    else EncodeItems(cm, lit, dist, items[..|items| - 1]) + EncodeItem(cm, lit, dist, items[|items| - 1])
  }

  // ----- decoding what was encoded

  lemma {:induction false} DecodeLiteralBack(cm: CodeMap, lit: seq<nat>, dist: seq<nat>, bits: seq<bool>, pos: nat,
      item: Item)
    requires Decodable(lit) && Sendable(cm, lit, dist, item) && item.Literal?
    requires At(bits, pos, EncodeItem(cm, lit, dist, item))
    ensures DecodeItem(lit, dist, bits, pos) == Some((item, pos + |EncodeItem(cm, lit, dist, item)|))
  {
    hide Kraft, Pow2, Codeword, DecodeSymbol, GoodMap;
    DecodeSymbolFinds(lit, bits, pos, item.b);
  }

  lemma {:induction false} DecodeMatchBack(cm: CodeMap, lit: seq<nat>, dist: seq<nat>, bits: seq<bool>, pos: nat,
      item: Item)
    requires Decodable(lit) && Decodable(dist) && Sendable(cm, lit, dist, item) && item.Match?
    requires At(bits, pos, EncodeItem(cm, lit, dist, item))
    ensures DecodeItem(lit, dist, bits, pos) == Some((item, pos + |EncodeItem(cm, lit, dist, item)|))
  {
    hide Kraft, Pow2, Codeword, DecodeSymbol, BitsOf, LengthBase, LengthExtra, DistBase, DistExtra, At, ReadBits;
    var lc, dd := item.length - 3, item.distance - 1;
    assert LengthRow(cm.len[lc], lc) && DistRow(cm.dist[DistIndex(dd)], dd);
    var c, d := cm.len[lc], DistSymbol(cm, item);
    var le := BitsOf(item.length - LengthBase()[c], LengthExtra()[c]);
    var de := BitsOf(item.distance - DistBase()[d], DistExtra()[d]);
    var p := pos + lit[c + 257];
    AtConcat(bits, pos, Codeword(lit, c + 257), le + (Codeword(dist, d) + de));
    AtConcat(bits, p, le, Codeword(dist, d) + de);
    AtConcat(bits, p + |le|, Codeword(dist, d), de);
    DecodeSymbolFinds(lit, bits, pos, c + 257);
    ReadBack(bits, p, item.length - LengthBase()[c], LengthExtra()[c]);
    DecodeSymbolFinds(dist, bits, p + |le|, d);
    ReadBack(bits, p + |le| + dist[d], item.distance - DistBase()[d], DistExtra()[d]);
  }

  lemma {:induction false} DecodeItemBack(cm: CodeMap, lit: seq<nat>, dist: seq<nat>, bits: seq<bool>, pos: nat,
      item: Item)
    requires Decodable(lit) && Decodable(dist) && Sendable(cm, lit, dist, item)
    requires At(bits, pos, EncodeItem(cm, lit, dist, item))
    ensures DecodeItem(lit, dist, bits, pos) == Some((item, pos + |EncodeItem(cm, lit, dist, item)|))
  {
    if item.Literal? {
      DecodeLiteralBack(cm, lit, dist, bits, pos, item);
    } else {
      DecodeMatchBack(cm, lit, dist, bits, pos, item);
    }
  }

  /** The output after all items. */
  function ApplyAll(out: seq<byte>, items: seq<Item>): Option<seq<byte>>
  {
    if items == [] then Some(out)
    else
      var out' :- ApplyAll(out, items[..|items| - 1]);
      Apply(out', items[|items| - 1])
  }

  lemma {:induction false} EncodeFirst(cm: CodeMap, lit: seq<nat>, dist: seq<nat>, items: seq<Item>)
    requires AllSendable(cm, lit, dist, items) && items != []
    ensures AllSendable(cm, lit, dist, items[1..])
    ensures EncodeItems(cm, lit, dist, items)
            == EncodeItem(cm, lit, dist, items[0]) + EncodeItems(cm, lit, dist, items[1..])
  {
    hide EncodeItem, Sendable;
    var k := |items| - 1;
    assert forall i :: 0 <= i < |items[1..]| ==> items[1..][i] == items[i + 1];
    if k == 0 {
      assert items[..0] == [] && items[1..] == [];
      assert EncodeItems(cm, lit, dist, []) + EncodeItem(cm, lit, dist, items[0])
              == EncodeItem(cm, lit, dist, items[0]) + [];
    } else {
      EncodeFirst(cm, lit, dist, items[..k]);
      assert items[..k][1..] == items[1..][..k - 1];
      ConcatAssoc(EncodeItem(cm, lit, dist, items[0]), EncodeItems(cm, lit, dist, items[1..][..k - 1]),
              EncodeItem(cm, lit, dist, items[k]));
    }
  }

  lemma {:induction false} ApplyFirst(out: seq<byte>, items: seq<Item>)
    requires items != [] && ApplyAll(out, items).Some?
    ensures Apply(out, items[0]).Some? && ApplyAll(Apply(out, items[0]).value, items[1..]) == ApplyAll(out, items)
  {
    var k := |items| - 1;
    if k == 0 {
      assert items[..0] == [] && items[1..] == [];
    } else {
      ApplyFirst(out, items[..k]);
      assert items[..k][1..] == items[1..][..k - 1];
    }
  }

  /** Decoding the items of a block and its end marker appends what the items stand for. */
  lemma {:induction false} BlockDataBack(cm: CodeMap, lit: seq<nat>, dist: seq<nat>, bits: seq<bool>, pos: nat,
      out: seq<byte>, items: seq<Item>)
    requires Decodable(lit) && Decodable(dist) && AllSendable(cm, lit, dist, items) && END_BLOCK < |lit|
            && lit[END_BLOCK] > 0
    requires At(bits, pos, EncodeItems(cm, lit, dist, items) + Codeword(lit, END_BLOCK))
    requires ApplyAll(out, items).Some?
    ensures BlockData(lit, dist, bits, pos, out)
         == Some((ApplyAll(out, items).value, pos + |EncodeItems(cm, lit, dist, items)| + lit[END_BLOCK]))
    decreases |items|
  {
    hide Kraft, Pow2, Codeword, DecodeSymbol, EncodeItem, Sendable, DecodeItem, At;
    var eob := Codeword(lit, END_BLOCK);
    if items == [] {
      assert EncodeItems(cm, lit, dist, items) + eob == eob;
      EndBack(lit, dist, bits, pos);
    } else {
      var first, rest := EncodeItem(cm, lit, dist, items[0]), items[1..];
      EncodeFirst(cm, lit, dist, items);
      ApplyFirst(out, items);
      ConcatAssoc(first, EncodeItems(cm, lit, dist, rest), eob);
      AtConcat(bits, pos, first, EncodeItems(cm, lit, dist, rest) + eob);
      assert Sendable(cm, lit, dist, items[0]);
      DecodeItemBack(cm, lit, dist, bits, pos, items[0]);
      NotEnd(cm, lit, dist, items[0]);
      BlockDataBack(cm, lit, dist, bits, pos + |first|, Apply(out, items[0]).value, rest);
    }
  }

  lemma {:induction false} NotEnd(cm: CodeMap, lit: seq<nat>, dist: seq<nat>, item: Item)
    requires Sendable(cm, lit, dist, item)
    ensures !item.EndOfBlock?
  {
  }

  lemma {:induction false} EndBack(lit: seq<nat>, dist: seq<nat>, bits: seq<bool>, pos: nat)
    requires Decodable(lit) && END_BLOCK < |lit| && lit[END_BLOCK] > 0 && At(bits, pos, Codeword(lit, END_BLOCK))
    ensures DecodeItem(lit, dist, bits, pos) == Some((EndOfBlock, pos + lit[END_BLOCK]))
  {
    DecodeSymbolFinds(lit, bits, pos, END_BLOCK);
  }

  // ----- counting symbols

  /** The literal/length frequencies f after the items have been counted. */
  function LitFreqs(cm: CodeMap, f: seq<nat>, items: seq<Item>): (r: seq<nat>)
    requires |cm.len| == 256 && forall i :: 0 <= i < |items| ==> GoodItem(items[i]) && LitSymbol(cm, items[i]) < |f|
    ensures |r| == |f| && forall s :: 0 <= s < |f| ==> f[s] <= r[s]
  {
    if items == [] then f
    else
      var g := LitFreqs(cm, f, items[..|items| - 1]);
      var s := LitSymbol(cm, items[|items| - 1]);
      g[s := g[s] + 1]
  }

  function DistFreqs(cm: CodeMap, f: seq<nat>, items: seq<Item>): (r: seq<nat>)
    requires |cm.dist| == 512
    requires forall i :: 0 <= i < |items| ==> GoodItem(items[i]) && (items[i].Match? ==> DistSymbol(cm, items[i]) < |f|)
    ensures |r| == |f| && forall s :: 0 <= s < |f| ==> f[s] <= r[s]
  {
    if items == [] then f
    else
      var g := DistFreqs(cm, f, items[..|items| - 1]);
      var item := items[|items| - 1];
      if item.Match? then g[DistSymbol(cm, item) := g[DistSymbol(cm, item)] + 1] else g
  }

  /** extra_lbits over all literal/length symbols. */
  function LitExtra(): (r: seq<nat>)
    ensures |r| == L_CODES && forall s :: 0 <= s < L_CODES ==> r[s] == if s >= 257 then LengthExtra()[s - 257] else 0
  {
    seq(L_CODES, (s: nat) requires s < L_CODES => if s >= 257 then LengthExtra()[s - 257] else 0)
  }

  lemma {:induction false} SymbolsInRange(cm: CodeMap, items: seq<Item>)
    requires GoodMap(cm) && GoodItems(items)
    ensures forall i :: 0 <= i < |items| ==> GoodItem(items[i]) && LitSymbol(cm, items[i]) < L_CODES
                                              && (items[i].Match? ==> DistSymbol(cm, items[i]) < D_CODES)
  {
    forall i | 0 <= i < |items|
      ensures LitSymbol(cm, items[i]) < L_CODES && (items[i].Match? ==> DistSymbol(cm, items[i]) < D_CODES)
    {
      if items[i].Match? {
        assert LengthRow(cm.len[items[i].length - 3], items[i].length - 3);
        assert DistRow(cm.dist[DistIndex(items[i].distance - 1)], items[i].distance - 1);
      }
    }
  }

  lemma {:induction false} TalliedTotals(cm: CodeMap, f: seq<nat>, g: seq<nat>, items: seq<Item>)
    requires GoodMap(cm) && GoodItems(items) && |f| == L_CODES && |g| == D_CODES
    requires forall i :: 0 <= i < |items| ==> GoodItem(items[i]) && LitSymbol(cm, items[i]) < L_CODES
                                              && (items[i].Match? ==> DistSymbol(cm, items[i]) < D_CODES)
    ensures Total(LitFreqs(cm, f, items)) == Total(f) + |items|
    ensures Total(DistFreqs(cm, g, items)) <= Total(g) + |items|
  {
    hide Total, GoodItem, LitSymbol, DistSymbol;
    if items != [] {
      var init, item := items[..|items| - 1], items[|items| - 1];
      TalliedTotals(cm, f, g, init);
      TotalAdd(LitFreqs(cm, f, init), LitSymbol(cm, item), 1);
      if item.Match? { TotalAdd(DistFreqs(cm, g, init), DistSymbol(cm, item), 1); }
    }
  }

  /** Every symbol of a tallied item has a nonzero frequency. */
  lemma {:induction false} TalliedSymbols(cm: CodeMap, f: seq<nat>, g: seq<nat>, items: seq<Item>, i: nat)
    requires |cm.len| == 256 && |cm.dist| == 512 && i < |items|
    requires forall j :: 0 <= j < |items| ==> GoodItem(items[j]) && LitSymbol(cm, items[j]) < |f|
                                              && (items[j].Match? ==> DistSymbol(cm, items[j]) < |g|)
    ensures LitFreqs(cm, f, items)[LitSymbol(cm, items[i])] > 0
    ensures items[i].Match? ==> DistFreqs(cm, g, items)[DistSymbol(cm, items[i])] > 0
  {
    if i < |items| - 1 { TalliedSymbols(cm, f, g, items[..|items| - 1], i); }
  }

  lemma {:induction false} ItemSize(cm: CodeMap, lit: seq<nat>, dist: seq<nat>, item: Item)
    requires Sendable(cm, lit, dist, item)
    ensures LitSymbol(cm, item) < L_CODES
    ensures item.Literal? ==>
              |EncodeItem(cm, lit, dist, item)| == lit[LitSymbol(cm, item)] + LitExtra()[LitSymbol(cm, item)]
    ensures item.Match? ==> DistSymbol(cm, item) < D_CODES
    ensures item.Match? ==>
              |EncodeItem(cm, lit, dist, item)|
                  == lit[LitSymbol(cm, item)] + LitExtra()[LitSymbol(cm, item)]
                      + (dist[DistSymbol(cm, item)] + DistExtra()[DistSymbol(cm, item)])
  {
    hide Codeword, LengthBase, DistBase;
    SymbolsInRange(cm, [item]);
    assert [item][0] == item;
  }

  /** Counting the items and pricing the counts gives the number of bits sent. litLens and distLens are the lengths
      over the whole alphabets, of which lit and dist are the used parts. */
  lemma {:induction false} ItemsCost(cm: CodeMap, f: seq<nat>, g: seq<nat>, lit: seq<nat>, dist: seq<nat>,
      litLens: seq<nat>, distLens: seq<nat>, items: seq<Item>)
    requires |f| == L_CODES <= |litLens| && |g| == D_CODES <= |distLens|
    requires |lit| <= |litLens| && |dist| <= |distLens|
    requires forall s :: 0 <= s < |lit| ==> lit[s] == litLens[s]
    requires forall s :: 0 <= s < |dist| ==> dist[s] == distLens[s]
    requires AllSendable(cm, lit, dist, items) && |cm.len| == 256 && |cm.dist| == 512
    requires forall i :: 0 <= i < |items| ==> GoodItem(items[i]) && LitSymbol(cm, items[i]) < L_CODES
                                              && (items[i].Match? ==> DistSymbol(cm, items[i]) < D_CODES)
    ensures Cost(LitFreqs(cm, f, items), litLens, LitExtra()) + Cost(DistFreqs(cm, g, items), distLens, DistExtra())
         == Cost(f, litLens, LitExtra()) + Cost(g, distLens, DistExtra()) + |EncodeItems(cm, lit, dist, items)|
  {
    hide Cost, EncodeItem, LitExtra, DistExtra, GoodMap;
    if items != [] {
      var init, item := items[..|items| - 1], items[|items| - 1];
      ItemsCost(cm, f, g, lit, dist, litLens, distLens, init);
      ItemSize(cm, lit, dist, item);
      var s := LitSymbol(cm, item);
      CostAdd(LitFreqs(cm, f, init), litLens, LitExtra(), s, 1);
      if item.Match? { CostAdd(DistFreqs(cm, g, init), distLens, DistExtra(), DistSymbol(cm, item), 1); }
    }
  }
}
