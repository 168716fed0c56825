/** The buffers of ct_tally, and compress_block, which reads them back. */
module BlockBuffer {
  import opened Bits
  import opened Canonical
  import opened Inflate
  import opened BitOutput
  import opened Trees
  import opened Tables
  import opened Items

  const LIT_BUFSIZE := 8192
  const DIST_BUFSIZE := 8192

  // ----- what the three buffers hold for a sequence of items

  /** What l_buf holds for an item: the byte, or the match length - 3. */
  function LByte(item: Item): nat
    requires GoodItem(item)
  {
    if item.Literal? then item.b else item.length - 3
  }

  function LBytes(items: seq<Item>): (r: seq<nat>)
    requires GoodItems(items)
    ensures |r| == |items| && forall i :: 0 <= i < |r| ==> r[i] == LByte(items[i])
  {
    seq(|items|, (i: nat) requires i < |items| => LByte(items[i]))
  }

  /** What d_buf holds: the distances - 1 of the matches. */
  function DistBytes(items: seq<Item>): (r: seq<nat>)
    requires GoodItems(items)
    ensures |r| <= |items|
  {
    if items == [] then []
    else
      var init, item := items[..|items| - 1], items[|items| - 1];
      if item.Match? then DistBytes(init) + [item.distance - 1] else DistBytes(init)
  }

  /** The flags: which items are matches. */
  function FlagBits(items: seq<Item>): (r: seq<bool>)
    ensures |r| == |items| && forall i :: 0 <= i < |r| ==> r[i] == items[i].Match?
  {
    seq(|items|, (i: nat) requires i < |items| => items[i].Match?)
  }

  function Min(a: nat, b: nat): nat
  {
    if a < b then a else b
  }

  /** The flag byte for items 8k..8k+7. */
  function FlagByte(items: seq<Item>, k: nat): nat
    requires 8 * k <= |items|
  {
    ValueOf(FlagBits(items)[8 * k..Min(8 * k + 8, |items|)])
  }

  /** The buffers hold the items, all flag bytes saved. */
  ghost predicate Saved(items: seq<Item>, lBuf: seq<nat>, dBuf: seq<nat>, flagBuf: seq<nat>)
  {
    && GoodItems(items) && |items| < |lBuf| && |items| <= 8 * |flagBuf|
    && |DistBytes(items)| <= |dBuf|
    && lBuf[..|items|] == LBytes(items)
    && dBuf[..|DistBytes(items)|] == DistBytes(items)
    && forall k :: 0 <= k < |flagBuf| && 8 * k < |items| ==> flagBuf[k] == FlagByte(items, k)
  }

  lemma {:induction false} DistPrefix(items: seq<Item>, n: nat)
    requires GoodItems(items) && n <= |items|
    ensures GoodItems(items[..n]) && DistBytes(items[..n]) <= DistBytes(items)
  {
    if n < |items| {
      DistPrefix(items[..|items| - 1], n);
      assert items[..|items| - 1][..n] == items[..n];
    } else {
      assert items[..n] == items;
    }
  }

  /** The distance of match n is the next entry of d_buf. */
  lemma {:induction false} NextDist(items: seq<Item>, n: nat)
    requires GoodItems(items) && n < |items|
    ensures GoodItems(items[..n]) && GoodItems(items[..n + 1])
    ensures items[n].Match? ==>
              |DistBytes(items[..n])| < |DistBytes(items)|
                  && DistBytes(items)[|DistBytes(items[..n])|] == items[n].distance - 1
    ensures |DistBytes(items[..n + 1])| == |DistBytes(items[..n])| + if items[n].Match? then 1 else 0
  {
    DistPrefix(items, n);
    DistPrefix(items, n + 1);
    assert items[..n + 1][..n] == items[..n];
  }

  /** Taking the lowest bit off a flag byte. */
  lemma {:induction false} ShiftFlags(bits: seq<bool>, i: nat, j: nat)
    requires i < j <= |bits|
    ensures var v := ValueOf(bits[i..j]);
            (v % 2 == 1 <==> bits[i]) && v / 2 == ValueOf(bits[i + 1..j])
  {
    assert bits[i..j][1..] == bits[i + 1..j];
  }

  // ----- sending one item

  ghost predicate MapOf(tables: CodeTables, cm: CodeMap)
    reads tables.lengthCode, tables.distCode
  {
    cm == CodeMap(tables.lengthCode[..], tables.distCode[..])
  }

  lemma {:induction false} MapIsGood(tables: CodeTables, cm: CodeMap)
    requires tables.Valid() && MapOf(tables, cm)
    ensures GoodMap(cm)
  {
    hide Pow2, LengthBase, LengthExtra, DistBase, DistExtra, HasCodes;
    CodeTables.OneIsOne();
    forall lc | 0 <= lc < 256 ensures LengthRow(cm.len[lc], lc) {
      assert LengthCoded(tables.lengthCode[..][lc], lc, tables.baseLength[..]);
    }
    forall d | 0 <= d < 32768 ensures DistRow(cm.dist[DistIndex(d)], d) {
      assert DistCoded(tables.DCode(d), d, tables.baseDist[..]);
    }
  }

  /** Sends the length part of a match. */
  method SendLength(w: BitWriter, tables: CodeTables, ltree: array<CtData>, lc: nat, ghost lit: seq<nat>)
    requires w.Valid() && tables.Valid() && HasCodes(ltree[..], lit) && lc < 256
    requires tables.lengthCode[lc] < LENGTH_CODES && tables.lengthCode[lc] + 257 < |lit|
            && lit[tables.lengthCode[lc] + 257] > 0
    modifies w, w.outbuf
    ensures w.Valid()
    ensures LengthRow(tables.lengthCode[lc], lc)
    ensures var c := tables.lengthCode[lc];
            w.Contents() == old(w.Contents()) + Codeword(lit, c + 257)
                + BitsOf(lc + 3 - LengthBase()[c], LengthExtra()[c])
  {
    hide HasCodes, Codeword, BitsOf, ByteBits, Pow2, w.Valid, w.Contents, LengthBase, LengthExtra, DistCoded;
    var code := tables.lengthCode[lc];
    assert LengthCoded(tables.lengthCode[..][lc], lc, tables.baseLength[..]);
    CodeTables.OneIsOne();
    SendCode(w, ltree, code + LITERALS + 1, lit);
    var extra := LengthExtra()[code];
    if extra != 0 {
      ExtraWidth(code);
      w.SendBits(lc - tables.baseLength[code], extra);
    } else {
      NoBits(w.Contents(), lc + 3 - LengthBase()[code]);
    }
  }

  lemma {:induction false} NoBits(s: seq<bool>, v: nat)
    ensures s + BitsOf(v, 0) == s
  {
  }

  lemma {:induction false} ExtraWidth(code: nat)
    ensures code < LENGTH_CODES ==> LengthExtra()[code] <= 16
    ensures code < D_CODES ==> DistExtra()[code] <= 16
  {
  }

  /** Sends the distance part of a match. */
  method SendDistance(w: BitWriter, tables: CodeTables, dtree: array<CtData>, dist: nat, ghost lens: seq<nat>)
    requires w.Valid() && tables.Valid() && HasCodes(dtree[..], lens) && dist < 32768
    requires tables.DCode(dist) < |lens| && lens[tables.DCode(dist)] > 0
    modifies w, w.outbuf
    ensures w.Valid()
    ensures DistRow(tables.DCode(dist), dist)
    ensures var c := tables.DCode(dist);
            w.Contents() == old(w.Contents()) + Codeword(lens, c) + BitsOf(dist + 1 - DistBase()[c], DistExtra()[c])
  {
    hide HasCodes, Codeword, BitsOf, ByteBits, Pow2, w.Valid, w.Contents, DistBase, DistExtra, LengthCoded;
    var code := tables.DCode(dist);
    assert DistCoded(tables.DCode(dist), dist, tables.baseDist[..]);
    CodeTables.OneIsOne();
    SendCode(w, dtree, code, lens);
    var extra := DistExtra()[code];
    if extra != 0 {
      ExtraWidth(code);
      w.SendBits(dist - tables.baseDist[code], extra);
    } else {
      NoBits(w.Contents(), dist + 1 - DistBase()[code]);
    }
  }

  // ----- compress_block

  lemma {:induction false} EncodeNext(cm: CodeMap, lit: seq<nat>, dist: seq<nat>, items: seq<Item>, n: nat,
      before: seq<bool>)
    requires AllSendable(cm, lit, dist, items) && n < |items|
    ensures AllSendable(cm, lit, dist, items[..n]) && AllSendable(cm, lit, dist, items[..n + 1])
    ensures Sendable(cm, lit, dist, items[n])
    ensures before + EncodeItems(cm, lit, dist, items[..n + 1])
            == before + EncodeItems(cm, lit, dist, items[..n]) + EncodeItem(cm, lit, dist, items[n])
  {
    hide EncodeItem, Sendable;
    assert items[..n + 1][..n] == items[..n];
    ConcatAssoc(before, EncodeItems(cm, lit, dist, items[..n]), EncodeItem(cm, lit, dist, items[n]));
  }

  lemma {:induction false} EncodeMatchParts(cm: CodeMap, lit: seq<nat>, dist: seq<nat>, item: Item, before: seq<bool>)
    requires Sendable(cm, lit, dist, item) && item.Match?
    ensures var c, d := cm.len[item.length - 3], DistSymbol(cm, item);
            && LengthRow(c, item.length - 3) && DistRow(d, item.distance - 1)
            && before + EncodeItem(cm, lit, dist, item)
            == before + Codeword(lit, c + 257) + BitsOf(item.length - LengthBase()[c], LengthExtra()[c])
               + Codeword(dist, d) + BitsOf(item.distance - DistBase()[d], DistExtra()[d])
  {
    hide Codeword, BitsOf, LengthBase, LengthExtra, DistBase, DistExtra;
    assert LengthRow(cm.len[item.length - 3], item.length - 3);
    assert DistRow(cm.dist[DistIndex(item.distance - 1)], item.distance - 1);
    var c, d := cm.len[item.length - 3], DistSymbol(cm, item);
    Regroup5(before, Codeword(lit, c + 257), BitsOf(item.length - LengthBase()[c], LengthExtra()[c]),
             Codeword(dist, d), BitsOf(item.distance - DistBase()[d], DistExtra()[d]));
  }

  lemma {:induction false} Regroup5(a: seq<bool>, b: seq<bool>, c: seq<bool>, d: seq<bool>, e: seq<bool>)
    ensures a + (b + (c + (d + e))) == a + b + c + d + e
  {
  }

  /** Sends one item: its flag, its l_buf byte and, for a match, its d_buf entry are given. */
  method SendItem(w: BitWriter, tables: CodeTables, ltree: array<CtData>, dtree: array<CtData>, isMatch: bool,
      lc: nat, dist: nat, ghost cm: CodeMap, ghost lit: seq<nat>, ghost dlens: seq<nat>, ghost item: Item)
    requires w.Valid() && tables.Valid() && MapOf(tables, cm) && HasCodes(ltree[..], lit) && HasCodes(dtree[..], dlens)
    requires Sendable(cm, lit, dlens, item)
    requires isMatch == item.Match? && lc == LByte(item) && (isMatch ==> dist == item.distance - 1)
    modifies w, w.outbuf
    ensures w.Valid() && w.Contents() == old(w.Contents()) + EncodeItem(cm, lit, dlens, item)
  {
    hide HasCodes, Codeword, BitsOf, ByteBits, Pow2, w.Valid, w.Contents, LengthBase, LengthExtra, DistBase, DistExtra,
        MatchTail, GoodMap;
    if !isMatch {
      SendCode(w, ltree, lc, lit);
    } else {
      EncodeMatchParts(cm, lit, dlens, item, w.Contents());
      SendLength(w, tables, ltree, lc, lit);
      SendDistance(w, tables, dtree, dist, dlens);
    }
  }

  /** The flags of item lx and those after it in the same byte. */
  function FlagsLeft(items: seq<Item>, lx: nat): nat
    requires lx < |items|
  {
    ValueOf(FlagBits(items)[lx..Min(8 * (lx / 8) + 8, |items|)])
  }

  lemma {:induction false} SavedSizes(items: seq<Item>, lBuf: seq<nat>, dBuf: seq<nat>, flagBuf: seq<nat>)
    requires Saved(items, lBuf, dBuf, flagBuf)
    ensures GoodItems(items) && |items| < |lBuf| && |items| <= 8 * |flagBuf|
    ensures GoodItems([]) && items[..0] == []
  {
  }

  /** What the buffers say about item lx. */
  lemma {:induction false} BufferedItem(items: seq<Item>, lBuf: seq<nat>, dBuf: seq<nat>, flagBuf: seq<nat>, lx: nat)
    requires Saved(items, lBuf, dBuf, flagBuf) && lx < |items|
    ensures GoodItems(items) && GoodItems(items[..lx]) && GoodItems(items[..lx + 1]) && lx < |lBuf|
            && GoodItem(items[lx])
    ensures lBuf[lx] == LByte(items[lx])
    ensures items[lx].Match? ==>
              |DistBytes(items[..lx])| < |dBuf| && dBuf[|DistBytes(items[..lx])|] == items[lx].distance - 1
    ensures |DistBytes(items[..lx + 1])| == |DistBytes(items[..lx])| + if items[lx].Match? then 1 else 0
    ensures lx % 8 == 0 ==> lx / 8 < |flagBuf| && flagBuf[lx / 8] == FlagsLeft(items, lx)
    ensures FlagsLeft(items, lx) % 2 == 1 <==> items[lx].Match?
    ensures lx + 1 < |items| && (lx + 1) % 8 != 0 ==> FlagsLeft(items, lx) / 2 == FlagsLeft(items, lx + 1)
  {
    hide ValueOf, DistBytes;
    NextDist(items, lx);
    ShiftFlags(FlagBits(items), lx, Min(8 * (lx / 8) + 8, |items|));
    assert lBuf[..|items|][lx] == LByte(items[lx]);
    if items[lx].Match? {
      var dx := |DistBytes(items[..lx])|;
      assert dBuf[..|DistBytes(items)|][dx] == DistBytes(items)[dx];
    }
    if lx % 8 == 0 { assert flagBuf[lx / 8] == FlagByte(items, lx / 8); }
  }

  /** Sends the items held by the buffers and the end marker. */
  method CompressBlock(w: BitWriter, tables: CodeTables, lBuf: array<nat>, dBuf: array<nat>, flagBuf: array<nat>,
      lastLit: nat, ltree: array<CtData>, dtree: array<CtData>, ghost cm: CodeMap, ghost lit: seq<nat>,
      ghost dlens: seq<nat>, ghost items: seq<Item>)
    requires w.Valid() && tables.Valid() && MapOf(tables, cm) && HasCodes(ltree[..], lit) && HasCodes(dtree[..], dlens)
    requires Saved(items, lBuf[..], dBuf[..], flagBuf[..]) && lastLit == |items|
    requires AllSendable(cm, lit, dlens, items) && END_BLOCK < |lit| && lit[END_BLOCK] > 0
    modifies w, w.outbuf
    ensures w.Valid()
    ensures w.Contents() == old(w.Contents()) + (EncodeItems(cm, lit, dlens, items) + Codeword(lit, END_BLOCK))
  {
    hide HasCodes, Codeword, w.Valid, w.Contents, Sendable, EncodeItem, EncodeItems, tables.Valid, DistBytes,
        FlagsLeft, Saved, GoodItems, LByte;
    SavedSizes(items, lBuf[..], dBuf[..], flagBuf[..]);
    ghost var before := w.Contents();
    var lx, dx, fx := 0, 0, 0;
    var flag := 0;
    StartEncoding(cm, lit, dlens, items, before);
    if lastLit != 0 {
      while true
        invariant 0 <= lx < lastLit && w.Valid()
        invariant fx == (lx + 7) / 8 && GoodItems(items[..lx]) && dx == |DistBytes(items[..lx])|
        invariant lx % 8 != 0 ==> flag == FlagsLeft(items, lx)
        invariant AllSendable(cm, lit, dlens, items[..lx])
        invariant w.Contents() == before + EncodeItems(cm, lit, dlens, items[..lx])
        decreases lastLit - lx
      {
        BufferedItem(items, lBuf[..], dBuf[..], flagBuf[..], lx);
        EncodeNext(cm, lit, dlens, items, lx, before);
        if lx % 8 == 0 {
          flag := flagBuf[fx];
          fx := fx + 1;
        }
        var lc := lBuf[lx];
        lx := lx + 1;
        if flag % 2 == 0 {
          SendItem(w, tables, ltree, dtree, false, lc, 0, cm, lit, dlens, items[lx - 1]);
        } else {
          var dist := dBuf[dx];
          dx := dx + 1;
          SendItem(w, tables, ltree, dtree, true, lc, dist, cm, lit, dlens, items[lx - 1]);
        }
        flag := flag / 2;
        if lx >= lastLit { break; }
      }
    }
    assert items[..lastLit] == items;
    SendCode(w, ltree, END_BLOCK, lit);
    ConcatAssoc(before, EncodeItems(cm, lit, dlens, items), Codeword(lit, END_BLOCK));
  }

  lemma {:induction false} StartEncoding(cm: CodeMap, lit: seq<nat>, dist: seq<nat>, items: seq<Item>,
      before: seq<bool>)
    ensures items[..0] == [] && DistBytes([]) == [] && AllSendable(cm, lit, dist, [])
            && before + EncodeItems(cm, lit, dist, []) == before
    ensures items == [] ==> items[..0] == items
  {
  }
}
