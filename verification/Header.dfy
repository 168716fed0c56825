/** The bits of the three kinds of block and their decoding: sections 3.2.3, 3.2.4, 3.2.6 and 3.2.7 of RFC 1951. */
module Header {
  import opened Bits
  import opened Canonical
  import opened Inflate
  import opened BitOutput
  import opened CodeLengths
  import opened Tables
  import opened Items
  import opened Wrappers

  // ----- the order of the code length code

  /** The rank of a symbol in CodeLengthOrder. */
  function Rank(s: nat): nat
    requires s < 19
  {
    [3, 17, 15, 13, 11, 9, 7, 5, 4, 6, 8, 10, 12, 14, 16, 18, 0, 1, 2][s]
  }

  lemma {:induction false} RankInverts(s: nat, r: nat)
    requires s < 19 && r < 19
    ensures Rank(s) < 19 && CodeLengthOrder()[Rank(s)] == s
    ensures CodeLengthOrder()[r] < 19 && Rank(CodeLengthOrder()[r]) == r
  {
  }

  /** The first n lengths of the code length code, in the order of transmission. */
  function InOrder(lens: seq<nat>, n: nat): (vals: seq<nat>)
    requires |lens| == 19 && n <= 19
    ensures |vals| == n
  {
    seq(n, (r: nat) requires r < 19 => LenAt(lens, CodeLengthOrder()[r]))
  }

  function LenAt(lens: seq<nat>, s: nat): nat
  {
    if s < |lens| then lens[s] else 0
  }

  lemma {:induction false} LookupBack(lens: seq<nat>, n: nat, s: nat, rank: nat)
    requires |lens| == 19 && n <= 19 && s < 19 && rank <= Rank(s)
    requires forall r :: n <= r < 19 ==> LenAt(lens, CodeLengthOrder()[r]) == 0
    ensures Lookup(InOrder(lens, n), s, rank) == lens[s]
    decreases 19 - rank
  {
    hide CodeLengthOrder, Rank;
    RankInverts(s, 0);
    if rank < n {
      RankInverts(s, rank);
      if CodeLengthOrder()[rank] != s { LookupBack(lens, n, s, rank + 1); }
    }
  }

  /** Trailing zeros need not be sent. */
  lemma {:induction false} ScatterBack(lens: seq<nat>, n: nat)
    requires |lens| == 19 && n <= 19
    requires forall r :: n <= r < 19 ==> LenAt(lens, CodeLengthOrder()[r]) == 0
    ensures Scatter(InOrder(lens, n)) == lens
  {
    hide CodeLengthOrder, Rank;
    forall s | 0 <= s < 19 ensures Scatter(InOrder(lens, n))[s] == lens[s] {
      LookupBack(lens, n, s, 0);
    }
  }

  function Lens3Bits(vals: seq<nat>): seq<bool>
  {
    if vals == [] then [] else BitsOf(vals[0], 3) + Lens3Bits(vals[1..])
  }

  lemma {:induction false} Lens3Size(vals: seq<nat>)
    ensures |Lens3Bits(vals)| == 3 * |vals|
  {
    if vals != [] { Lens3Size(vals[1..]); }
  }

  lemma {:induction false} ReadLens3Back(bits: seq<bool>, pos: nat, vals: seq<nat>)
    requires forall r :: 0 <= r < |vals| ==> vals[r] < 8
    requires At(bits, pos, Lens3Bits(vals))
    ensures ReadLens3(bits, pos, |vals|) == Some((vals, pos + 3 * |vals|))
    decreases |vals|
  {
    hide BitsOf, At, ReadBits;
    if vals != [] {
      Pow2Values();
      AtConcat(bits, pos, BitsOf(vals[0], 3), Lens3Bits(vals[1..]));
      ReadBack(bits, pos, vals[0], 3);
      ReadLens3Back(bits, pos + 3, vals[1..]);
      assert [vals[0]] + vals[1..] == vals;
    }
  }

  // ----- the dynamic block

  /** The counts and the lengths of the code length code. */
  function CountBits(lcodes: nat, dcodes: nat, blcodes: nat, bl: seq<nat>): seq<bool>
    requires 257 <= lcodes && 1 <= dcodes && 4 <= blcodes <= 19 && |bl| == 19
  {
    BitsOf(lcodes - 257, 5) + (BitsOf(dcodes - 1, 5) + (BitsOf(blcodes - 4, 4) + Lens3Bits(InOrder(bl, blcodes))))
  }

  /** What a dynamic block needs: two decodable codes and a code length code that covers their run lengths. */
  ghost predicate DynamicCodes(lit: seq<nat>, dist: seq<nat>, bl: seq<nat>, blcodes: nat)
  {
    && Decodable(lit) && Decodable(dist) && 257 <= |lit| <= 286 && 1 <= |dist| <= 30 && lit[END_BLOCK] > 0
    && |bl| == 19 && 4 <= blcodes <= 19
    && (forall s :: 0 <= s < 19 ==> bl[s] < 8)
    && (forall r :: blcodes <= r < 19 ==> LenAt(bl, CodeLengthOrder()[r]) == 0)
    && Covers(bl, AllRuns(lit)) && Covers(bl, AllRuns(dist))
  }

  function TreeBits(lit: seq<nat>, dist: seq<nat>, bl: seq<nat>, blcodes: nat): seq<bool>
    requires 257 <= |lit| && 1 <= |dist| && |bl| == 19 && 4 <= blcodes <= 19
    requires forall i :: 0 <= i < |AllRuns(lit)| ==> AllRuns(lit)[i].symbol < |bl|
    requires forall i :: 0 <= i < |AllRuns(dist)| ==> AllRuns(dist)[i].symbol < |bl|
  {
    CountBits(|lit|, |dist|, blcodes, bl) + (EncodeRuns(bl, AllRuns(lit)) + EncodeRuns(bl, AllRuns(dist)))
  }

  lemma {:induction false} InOrderSmall(bl: seq<nat>, n: nat)
    requires |bl| == 19 && n <= 19 && forall s :: 0 <= s < 19 ==> bl[s] < 8
    ensures forall r :: 0 <= r < n ==> InOrder(bl, n)[r] < 8
  {
    hide CodeLengthOrder;
  }

  /** Both codes' lengths are read back as one sequence. */
  lemma {:induction false} ReadBothLengths(bl: seq<nat>, bits: seq<bool>, pos: nat, lit: seq<nat>, dist: seq<nat>)
    requires Covers(bl, AllRuns(lit)) && Covers(bl, AllRuns(dist)) && SmallLens(lit) && SmallLens(dist)
    requires At(bits, pos, EncodeRuns(bl, AllRuns(lit)) + EncodeRuns(bl, AllRuns(dist)))
    ensures ReadLengths(bl, bits, pos, |lit| + |dist|, [])
         == Some((lit + dist, pos + |EncodeRuns(bl, AllRuns(lit))| + |EncodeRuns(bl, AllRuns(dist))|))
  {
    hide Kraft, EncodeRuns, AllRuns, ReadLengths, RunsWellFormed, At;
    var rs, ts := AllRuns(lit), AllRuns(dist);
    ExpandAllRuns([], lit);
    ExpandAllRuns([] + lit, dist);
    assert [] + lit == lit;
    ExpandConcat([], rs, ts);
    EncodeRunsConcat(bl, rs, ts);
    BothWellFormed(lit, dist);
    var all := rs + ts;
    assert forall i :: 0 <= i < |all| ==> all[i] == if i < |rs| then rs[i] else ts[i - |rs|];
    ReadLengthsBack(bl, bits, pos, all, [], lit + dist);
  }

  lemma {:induction false} BothWellFormed(lit: seq<nat>, dist: seq<nat>)
    requires SmallLens(lit) && SmallLens(dist)
    ensures RunsWellFormed(AllRuns(lit) + AllRuns(dist))
  {
    hide Pow2;
    RunsAreWellFormed(lit, 0, -1, 0);
    RunsAreWellFormed(dist, 0, -1, 0);
  }

  /** Decoding a dynamic block. */
  lemma {:induction false} DynamicBack(bits: seq<bool>, pos: nat, out: seq<byte>, cm: CodeMap, lit: seq<nat>,
      dist: seq<nat>, bl: seq<nat>, blcodes: nat, items: seq<Item>)
    requires DynamicCodes(lit, dist, bl, blcodes) && AllSendable(cm, lit, dist, items) && ApplyAll(out, items).Some?
    requires At(bits, pos,
            TreeBits(lit, dist, bl, blcodes) + (EncodeItems(cm, lit, dist, items) + Codeword(lit, END_BLOCK)))
    ensures DynamicBlock(bits, pos, out)
         == Some((ApplyAll(out, items).value,
                 pos + |TreeBits(lit, dist, bl, blcodes)| + |EncodeItems(cm, lit, dist, items)| + lit[END_BLOCK]))
  {
    hide Kraft, EncodeRuns, AllRuns, ReadLengths, Codeword, BitsOf, BlockData, EncodeItems, Lens3Bits, At, ReadBits,
        ReadLens3, Scatter, InOrder, ApplyAll, CodeLengthOrder, Sendable, Pow2;
    var tail := EncodeItems(cm, lit, dist, items) + Codeword(lit, END_BLOCK);
    var runs := EncodeRuns(bl, AllRuns(lit)) + EncodeRuns(bl, AllRuns(dist));
    var vals := InOrder(bl, blcodes);
    AtConcat(bits, pos, TreeBits(lit, dist, bl, blcodes), tail);
    AtConcat(bits, pos, CountBits(|lit|, |dist|, blcodes, bl), runs);
    ReadCounts(bits, pos, |lit|, |dist|, blcodes, bl);
    ScatterBack(bl, blcodes);
    var v := pos + 14 + 3 * blcodes;
    ReadBothLengths(bl, bits, v, lit, dist);
    BlockDataBack(cm, lit, dist, bits, v + |runs|, out, items);
    assert (lit + dist)[..|lit|] == lit && (lit + dist)[|lit|..] == dist;
  }

  lemma {:induction false} ReadCounts(bits: seq<bool>, pos: nat, lcodes: nat, dcodes: nat, blcodes: nat, bl: seq<nat>)
    requires 257 <= lcodes <= 286 && 1 <= dcodes <= 30 && 4 <= blcodes <= 19 && |bl| == 19
    requires forall s :: 0 <= s < 19 ==> bl[s] < 8
    requires At(bits, pos, CountBits(lcodes, dcodes, blcodes, bl))
    ensures |CountBits(lcodes, dcodes, blcodes, bl)| == 14 + 3 * blcodes
    ensures ReadBits(bits, pos, 5) == Some((lcodes - 257, pos + 5))
    ensures ReadBits(bits, pos + 5, 5) == Some((dcodes - 1, pos + 10))
    ensures ReadBits(bits, pos + 10, 4) == Some((blcodes - 4, pos + 14))
    ensures ReadLens3(bits, pos + 14, blcodes) == Some((InOrder(bl, blcodes), pos + 14 + 3 * blcodes))
  {
    hide BitsOf, At, ReadBits, ReadLens3, InOrder, Lens3Bits, CodeLengthOrder;
    Pow2Values();
    var a, b, c, vals := BitsOf(lcodes - 257, 5), BitsOf(dcodes - 1, 5), BitsOf(blcodes - 4, 4), InOrder(bl, blcodes);
    AtConcat(bits, pos, a, b + (c + Lens3Bits(vals)));
    AtConcat(bits, pos + 5, b, c + Lens3Bits(vals));
    AtConcat(bits, pos + 10, c, Lens3Bits(vals));
    ReadBack(bits, pos, lcodes - 257, 5);
    ReadBack(bits, pos + 5, dcodes - 1, 5);
    ReadBack(bits, pos + 10, blcodes - 4, 4);
    InOrderSmall(bl, blcodes);
    ReadLens3Back(bits, pos + 14, vals);
    Lens3Size(vals);
  }

  // ----- the stored block

  lemma {:induction false} ByteBitsFirst(data: seq<byte>)
    requires data != []
    ensures ByteBits(data) == BitsOf(data[0], 8) + ByteBits(data[1..])
  {
    ByteBitsConcat([data[0]], data[1..]);
    assert data == [data[0]] + data[1..];
    assert [data[0]][..0] == [];
    assert ByteBits([]) + BitsOf(data[0], 8) == BitsOf(data[0], 8);
  }

  lemma {:induction false} ReadBytesBack(bits: seq<bool>, pos: nat, data: seq<byte>)
    requires At(bits, pos, ByteBits(data))
    ensures ReadBytes(bits, pos, |data|) == Some((data, pos + 8 * |data|))
    decreases |data|
  {
    hide BitsOf, At, ReadBits, ByteBits;
    if data != [] {
      Pow2Values();
      ByteBitsFirst(data);
      AtConcat(bits, pos, BitsOf(data[0], 8), ByteBits(data[1..]));
      ReadBack(bits, pos, data[0], 8);
      ReadBytesBack(bits, pos + 8, data[1..]);
      assert [data[0]] + data[1..] == data;
    } else {
      AtBound(bits, pos, ByteBits(data));
    }
  }

  lemma {:induction false} AtBound(bits: seq<bool>, pos: nat, w: seq<bool>)
    requires At(bits, pos, w)
    ensures pos + |w| <= |bits|
  {
  }

  /** Decoding a stored block; its length fits in 16 bits. */
  lemma {:induction false} StoredBack(bits: seq<bool>, pos: nat, out: seq<byte>, data: seq<byte>)
    requires |data| < 65536 && At(bits, pos, StoredBits(pos, |data|, data))
    ensures StoredBlock(bits, pos, out) == Some((out + data, pos + |StoredBits(pos, |data|, data)|))
    ensures |StoredBits(pos, |data|, data)| == Padding(pos) + 32 + 8 * |data|
  {
    hide BitsOf, At, ReadBits, ByteBits, ReadBytes;
    Pow2Values();
    var pad, p, n := BitsOf(0, Padding(pos)), pos + Padding(pos), |data|;
    var len, nlen := BitsOf(n, 16), BitsOf(65535 - n, 16);
    AtConcat(bits, pos, pad, len + (nlen + ByteBits(data)));
    AtConcat(bits, p, len, nlen + ByteBits(data));
    AtConcat(bits, p + 16, nlen, ByteBits(data));
    ReadBack(bits, p, n, 16);
    ReadBack(bits, p + 16, 65535 - n, 16);
    ReadBytesBack(bits, p + 32, data);
  }

  // ----- one block in the stream

  /** The three bits that start a block. */
  function StartBits(kind: nat, eof: bool): seq<bool>
  {
    BitsOf(kind * 2 + if eof then 1 else 0, 3)
  }

  lemma {:induction false} StartBack(bits: seq<bool>, pos: nat, kind: nat, eof: bool, out: seq<byte>)
    requires kind < 3 && At(bits, pos, StartBits(kind, eof))
    requires InflateBlock(kind, bits, pos + 3, out).Some?
    ensures InflateFrom(bits, pos, out) ==
            var (out', q) := InflateBlock(kind, bits, pos + 3, out).value;
            if eof then Some(out') else InflateFrom(bits, q, out')
  {
    hide BitsOf, InflateBlock;
    Pow2Values();
    ReadBack(bits, pos, kind * 2 + if eof then 1 else 0, 3);
  }

  /** The static distance lengths lack two codes that never occur, which changes no code word. */
  lemma {:induction false} FixedDistSame(cm: CodeMap, item: Item)
    requires Sendable(cm, FixedLitLens(), StaticDistLens(), item)
    ensures Sendable(cm, FixedLitLens(), FixedDistLens(), item)
    ensures EncodeItem(cm, FixedLitLens(), FixedDistLens(), item)
            == EncodeItem(cm, FixedLitLens(), StaticDistLens(), item)
  {
    hide FixedLitLens, Codeword, LengthBase, LengthExtra, DistBase, DistExtra;
    if item.Match? {
      assert DistRow(cm.dist[DistIndex(item.distance - 1)], item.distance - 1);
      FivesCode(FixedDistLens(), DistSymbol(cm, item));
      FivesCode(StaticDistLens(), DistSymbol(cm, item));
    }
  }

  lemma {:induction false} FixedItemsSame(cm: CodeMap, items: seq<Item>)
    requires AllSendable(cm, FixedLitLens(), StaticDistLens(), items)
    ensures AllSendable(cm, FixedLitLens(), FixedDistLens(), items)
    ensures EncodeItems(cm, FixedLitLens(), FixedDistLens(), items)
            == EncodeItems(cm, FixedLitLens(), StaticDistLens(), items)
  {
    hide FixedLitLens, FixedDistLens, StaticDistLens, Sendable, EncodeItem;
    forall i | 0 <= i < |items| ensures Sendable(cm, FixedLitLens(), FixedDistLens(), items[i]) {
      FixedDistSame(cm, items[i]);
    }
    if items != [] {
      FixedItemsSame(cm, items[..|items| - 1]);
      FixedDistSame(cm, items[|items| - 1]);
    }
  }

  /** Decoding a block with the fixed codes. */
  lemma {:induction false} StaticBack(bits: seq<bool>, pos: nat, out: seq<byte>, cm: CodeMap, items: seq<Item>)
    requires AllSendable(cm, FixedLitLens(), StaticDistLens(), items) && ApplyAll(out, items).Some?
    requires At(bits, pos,
            EncodeItems(cm, FixedLitLens(), StaticDistLens(), items) + Codeword(FixedLitLens(), END_BLOCK))
    ensures BlockData(FixedLitLens(), FixedDistLens(), bits, pos, out)
         == Some((ApplyAll(out, items).value,
                 pos + |EncodeItems(cm, FixedLitLens(), StaticDistLens(), items)| + FixedLitLens()[END_BLOCK]))
  {
    hide Sendable, EncodeItem, EncodeItems, Codeword, Kraft, BlockData;
    FixedLitComplete();
    FivesDecodable(FixedDistLens());
    FixedItemsSame(cm, items);
    BlockDataBack(cm, FixedLitLens(), FixedDistLens(), bits, pos, out, items);
  }

  // ----- a block as a step of the decoder

  /** Whatever follows, decoding from the end of before with output out passes over the
      block, which appends to the output. */
  ghost predicate Decodes(before: seq<bool>, after: seq<bool>, out: seq<byte>, out': seq<byte>, eof: bool)
  {
    && before <= after
    && forall bits: seq<bool> :: after <= bits ==>
         InflateFrom(bits, |before|, out) == if eof then Some(out') else InflateFrom(bits, |after|, out')
  }

  lemma {:induction false} PrefixAt(before: seq<bool>, w: seq<bool>, bits: seq<bool>)
    requires before + w <= bits
    ensures At(bits, |before|, w)
  {
    assert bits[|before|..|before| + |w|] == (before + w)[|before|..];
  }

  lemma {:induction false} KindBack(before: seq<bool>, kind: nat, body: seq<bool>, bits: seq<bool>, eof: bool)
    requires before + StartBits(kind, eof) + body <= bits
    ensures At(bits, |before|, StartBits(kind, eof)) && At(bits, |before| + 3, body)
  {
    hide BitsOf, At;
    ConcatAssoc(before, StartBits(kind, eof), body);
    PrefixAt(before, StartBits(kind, eof) + body, bits);
    AtConcat(bits, |before|, StartBits(kind, eof), body);
  }

  lemma {:induction false} StaticDecodes(before: seq<bool>, eof: bool, out: seq<byte>, cm: CodeMap, items: seq<Item>)
    requires AllSendable(cm, FixedLitLens(), StaticDistLens(), items) && ApplyAll(out, items).Some?
    ensures var body := EncodeItems(cm, FixedLitLens(), StaticDistLens(), items) + Codeword(FixedLitLens(), END_BLOCK);
            Decodes(before, before + StartBits(1, eof) + body, out, ApplyAll(out, items).value, eof)
  {
    hide Sendable, EncodeItems, Codeword, BlockData, StartBits, InflateFrom, At;
    var body := EncodeItems(cm, FixedLitLens(), StaticDistLens(), items) + Codeword(FixedLitLens(), END_BLOCK);
    var after := before + StartBits(1, eof) + body;
    StartSize(1, eof);
    forall bits: seq<bool> | after <= bits
      ensures InflateFrom(bits, |before|, out)
              == if eof then Some(ApplyAll(out, items).value)
                 else InflateFrom(bits, |after|, ApplyAll(out, items).value)
    {
      KindBack(before, 1, body, bits, eof);
      StaticBack(bits, |before| + 3, out, cm, items);
      StartBack(bits, |before|, 1, eof, out);
    }
    SizeOfCodeword();
  }

  lemma {:induction false} SizeOfCodeword()
    ensures |Codeword(FixedLitLens(), END_BLOCK)| == FixedLitLens()[END_BLOCK] == 7
  {
  }

  lemma {:induction false} StartSize(kind: nat, eof: bool)
    ensures |StartBits(kind, eof)| == 3
  {
  }

  lemma {:induction false} DynamicDecodes(before: seq<bool>, eof: bool, out: seq<byte>, cm: CodeMap, lit: seq<nat>,
      dist: seq<nat>, bl: seq<nat>, blcodes: nat, items: seq<Item>)
    requires DynamicCodes(lit, dist, bl, blcodes) && AllSendable(cm, lit, dist, items) && ApplyAll(out, items).Some?
    ensures var body := TreeBits(lit, dist, bl, blcodes)
            + (EncodeItems(cm, lit, dist, items) + Codeword(lit, END_BLOCK));
            Decodes(before, before + StartBits(2, eof) + body, out, ApplyAll(out, items).value, eof)
  {
    hide Sendable, EncodeItems, BlockData, StartBits, InflateFrom, At, TreeBits, DynamicBlock, MsbBits, Kraft;
    var body := TreeBits(lit, dist, bl, blcodes) + (EncodeItems(cm, lit, dist, items) + Codeword(lit, END_BLOCK));
    var after := before + StartBits(2, eof) + body;
    StartSize(2, eof);
    forall bits: seq<bool> | after <= bits
      ensures InflateFrom(bits, |before|, out)
              == if eof then Some(ApplyAll(out, items).value)
                 else InflateFrom(bits, |after|, ApplyAll(out, items).value)
    {
      KindBack(before, 2, body, bits, eof);
      DynamicBack(bits, |before| + 3, out, cm, lit, dist, bl, blcodes, items);
      StartBack(bits, |before|, 2, eof, out);
    }
  }

  lemma {:induction false} StoredDecodes(before: seq<bool>, eof: bool, out: seq<byte>, data: seq<byte>)
    requires |data| < 65536
    ensures Decodes(before, before + StartBits(0, eof) + StoredBits(|before| + 3, |data|, data), out, out + data, eof)
  {
    hide StartBits, InflateFrom, At, StoredBits, StoredBlock;
    var body := StoredBits(|before| + 3, |data|, data);
    var after := before + StartBits(0, eof) + body;
    StartSize(0, eof);
    forall bits: seq<bool> | after <= bits
      ensures InflateFrom(bits, |before|, out)
              == if eof then Some(out + data) else InflateFrom(bits, |after|, out + data)
    {
      KindBack(before, 0, body, bits, eof);
      StoredBack(bits, |before| + 3, out, data);
      StartBack(bits, |before|, 0, eof, out);
    }
  }

  /** After the last block anything may follow. */
  lemma {:induction false} DecodesPadded(before: seq<bool>, after: seq<bool>, pad: seq<bool>, out: seq<byte>,
      out': seq<byte>)
    requires Decodes(before, after, out, out', true)
    ensures Decodes(before, after + pad, out, out', true)
  {
    hide InflateFrom;
    forall bits: seq<bool> | after + pad <= bits ensures InflateFrom(bits, |before|, out) == Some(out') {
      assert after <= after + pad;
      assert after <= bits;
    }
  }

  /** Two blocks in a row. */
  lemma {:induction false} DecodesChain(a: seq<bool>, b: seq<bool>, c: seq<bool>, out: seq<byte>, out': seq<byte>,
      out'': seq<byte>, eof: bool)
    requires Decodes(a, b, out, out', false) && Decodes(b, c, out', out'', eof)
    ensures Decodes(a, c, out, out'', eof)
  {
    hide InflateFrom;
    forall bits: seq<bool> | c <= bits
      ensures InflateFrom(bits, |a|, out) == if eof then Some(out'') else InflateFrom(bits, |c|, out'')
    {
      assert b <= bits;
    }
  }
}
