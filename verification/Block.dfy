/** The state of struct globals2 and flush_block: choosing and sending a block. */
module Block {
  import opened Bits
  import opened Canonical
  import opened Inflate
  import opened BitOutput
  import opened Trees
  import opened Costs
  import opened CodeLengths
  import opened Heap
  import opened Huffman
  import opened BitLengths
  import opened TreeBuilding
  import opened Tables
  import opened Items
  import opened BlockBuffer
  import opened Tally
  import opened Header
  import opened Wrappers

  // ----- frequencies at the start of a block

  /** The frequencies of a new block: only the end marker is in use. */
  function FreshLit(): (f: seq<nat>)
    ensures |f| == L_CODES && forall s :: 0 <= s < L_CODES ==> f[s] == if s == END_BLOCK then 1 else 0
  {
    seq(L_CODES, i => if i == END_BLOCK then 1 else 0)
  }

  function Zeros(n: nat): (f: seq<nat>)
    ensures |f| == n && forall s :: 0 <= s < n ==> f[s] == 0
  {
    seq(n, i => 0)
  }

  lemma {:induction false} CostOne(freq: seq<nat>, lens: seq<nat>, extra: seq<nat>, s: nat)
    requires |freq| <= |lens| && |freq| <= |extra| && s < |freq| && freq[s] == 1
    requires forall i :: 0 <= i < |freq| && i != s ==> freq[i] == 0
    ensures Cost(freq, lens, extra) == lens[s] + extra[s]
    ensures Total(freq) == 1
  {
    var zero := freq[s := 0];
    CostZero(zero, lens, extra);
    TotalZero(zero);
    CostAdd(zero, lens, extra, s, 1);
    TotalAdd(zero, s, 1);
    assert zero[s := zero[s] + 1] == freq;
  }

  /** The codes of a dynamic block, as lengths, and the number of code length lengths to send. */
  datatype Plan = Plan(lit: seq<nat>, dist: seq<nat>, bl: seq<nat>, blcodes: nat)

  // ----- where a block ends

  function Matches(items: seq<Item>): (n: nat)
    ensures n <= |items|
  {
    if items == [] then 0 else Matches(items[..|items| - 1]) + if items[|items| - 1].Match? then 1 else 0
  }

  /** What the distances are guessed to take: five bits each, and their extra bits. */
  function DistGuess(cm: CodeMap, items: seq<Item>): nat {
    if items == [] then 0
    else
      var item := items[|items| - 1];
      DistGuess(cm, items[..|items| - 1])
      + if item.Match? && GoodItem(item) && |cm.dist| == 512 && DistSymbol(cm, item) < D_CODES
        then 5 + DistExtra()[DistSymbol(cm, item)]
        else 0
  }

  /** The block ends when the buffers are full, or earlier if few of the items are matches and yet they are guessed to
      take less than half of the bytes. */
  predicate EndsBlock(cm: CodeMap, items: seq<Item>, bytes: int) {
    || |items| == LIT_BUFSIZE - 1 || Matches(items) == DIST_BUFSIZE
    || (|items| % 4096 == 0 && Matches(items) < |items| / 2 && (8 * |items| + DistGuess(cm, items)) / 8 < bytes / 2)
  }

  function Fives(): (r: seq<nat>)
    ensures |r| == D_CODES && forall i :: 0 <= i < D_CODES ==> r[i] == 5
  {
    seq(D_CODES, i => 5)
  }

  /** The sum over the frequencies is the sum over the items. */
  lemma {:induction false} GuessIsCost(cm: CodeMap, f: seq<nat>, items: seq<Item>)
    requires |cm.dist| == 512 && |f| == D_CODES <= |DistExtra()|
    requires forall i :: 0 <= i < |items| ==> GoodItem(items[i]) && (items[i].Match? ==> DistSymbol(cm, items[i]) < |f|)
    ensures Cost(DistFreqs(cm, f, items), Fives(), DistExtra()) == Cost(f, Fives(), DistExtra()) + DistGuess(cm, items)
  {
    hide Cost, Fives, DistExtra;
    if items != [] {
      var init, item := items[..|items| - 1], items[|items| - 1];
      GuessIsCost(cm, f, init);
      if item.Match? { CostAdd(DistFreqs(cm, f, init), Fives(), DistExtra(), DistSymbol(cm, item), 1); }
    }
  }

  lemma {:induction false} MatchesCounted(items: seq<Item>)
    requires GoodItems(items)
    ensures |DistBytes(items)| == Matches(items)
  {
    if items != [] { MatchesCounted(items[..|items| - 1]); }
  }

  // ----- which kind of block is sent

  /** The bits of a stored block of len bytes that begins behind n bits. */
  function StoredSize(n: nat, len: nat): nat {
    3 + Padding(n + 3) + 32 + 8 * len
  }

  /** The bytes of the shorter of two coded blocks, with the three bits that open it. */
  function CodedBytes(fixed: nat, own: nat): nat {
    if (fixed + 10) / 8 <= (own + 10) / 8 then (fixed + 10) / 8 else (own + 10) / 8
  }

  /** The block that was sent behind n bits has size bits, where the codes of section 3.2.6 would take fixed
      bits and its own codes own bits: it is stored if the window still holds it and this costs, at four bytes
      besides the data, no more bytes than the shorter of the other two; else with the codes of section 3.2.6 if
      its own take as many bytes. */
  ghost predicate Choice(n: nat, size: nat, len: nat, inWindow: bool, fixed: nat, own: nat) {
    var least := CodedBytes(fixed, own);
    if inWindow && len + 4 <= least then size == StoredSize(n, len)
    else size == if (fixed + 10) / 8 == least then 3 + fixed else 3 + own
  }

  /** So a block is never longer than if it were stored, and not longer in bytes than with either code, unless it is
      stored although its padding and the bits that open it make it longer than the shorter of them. */
  lemma {:induction false} LeastExactly(n: nat, size: nat, len: nat, inWindow: bool, fixed: nat, own: nat)
    requires Choice(n, size, len, inWindow, fixed, own)
    ensures (size + 7) / 8 <= (fixed + 10) / 8 && (size + 7) / 8 <= (own + 10) / 8
            <==> !(inWindow && len + 4 <= CodedBytes(fixed, own) < len + (42 + Padding(n + 3)) / 8)
    ensures (size + 7) / 8 <= CodedBytes(fixed, own) + 2
    ensures inWindow ==> size <= StoredSize(n, len) && (n + size + 7) / 8 <= (n + 7) / 8 + len + 5
  {
  }

  /** Fifteen bytes from 144 on, sent behind six bits: the codes of section 3.2.6 take 145 bits with those that open
      the block, and its own may take no fewer, but 162 bits are sent. */
  lemma {:induction false} StoredCanBeLonger(cm: CodeMap, items: seq<Item>, own: nat)
    requires AllSendable(cm, FixedLitLens(), StaticDistLens(), items) && |items| == 15 && own >= 142
    requires forall i :: 0 <= i < |items| ==> items[i].Literal? && items[i].b >= 144
    ensures var fixed := |EncodeItems(cm, FixedLitLens(), StaticDistLens(), items)| + 7;
            3 + fixed == 145 && forall size :: Choice(6, size, 15, true, fixed, own) <==> size == 162
  {
    hide *;
    HighLiterals(cm, items);
    StoredThen(own);
  }

  lemma {:induction false} StoredThen(own: nat)
    requires own >= 142
    ensures forall size :: Choice(6, size, 15, true, 142, own) <==> size == 162
  {
  }

  lemma {:induction false} HighLiterals(cm: CodeMap, items: seq<Item>)
    requires AllSendable(cm, FixedLitLens(), StaticDistLens(), items)
    requires forall i :: 0 <= i < |items| ==> items[i].Literal? && items[i].b >= 144
    ensures |EncodeItems(cm, FixedLitLens(), StaticDistLens(), items)| == 9 * |items|
  {
    if items != [] { HighLiterals(cm, items[..|items| - 1]); }
  }

  /** The code has the lengths of a Huffman tree for the frequencies. */
  ghost predicate HuffmanCode(freq: seq<nat>, maxLen: nat, code: seq<nat>) {
    exists lens, used, leaves, ms :: HuffmanLengths(freq, used, leaves, ms, maxLen, lens) && Shortened(lens, code)
  }

  /** The code stops behind its last length. */
  ghost predicate Shortened(lens: seq<nat>, code: seq<nat>) {
    code <= lens && forall s :: |code| <= s < |lens| ==> lens[s] == 0
  }

  lemma {:induction false} NowHuffman(freq: seq<nat>, used: seq<nat>, leaves: set<nat>, ms: seq<Merge>, maxLen: nat,
      lens: seq<nat>, n: nat)
    requires HuffmanLengths(freq, used, leaves, ms, maxLen, lens) && n <= |lens|
    requires forall s :: n <= s < |lens| ==> lens[s] == 0
    ensures HuffmanCode(freq, maxLen, lens[..n])
  {
    hide HuffmanLengths;
    assert Shortened(lens, lens[..n]);
  }

  /** The codes of p are those of Huffman trees, for the symbols of the items and for the run-length symbols of the two
      codes, and no more code length lengths are sent than needed. */
  ghost predicate HuffmanPlan(litFreq: seq<nat>, distFreq: seq<nat>, p: Plan) {
    && HuffmanCode(litFreq, MAX_BITS, p.lit) && HuffmanCode(distFreq, MAX_BITS, p.dist)
    && RunsWellFormed(AllRuns(p.lit) + AllRuns(p.dist))
    && HuffmanCode(FreqAfter(Zeros(BL_CODES), AllRuns(p.lit) + AllRuns(p.dist)), 7, p.bl)
    && 1 <= p.blcodes <= BL_CODES && LenAt(p.bl, CodeLengthOrder()[p.blcodes - 1]) > 0
    && forall r :: p.blcodes <= r < BL_CODES ==> LenAt(p.bl, CodeLengthOrder()[r]) == 0
  }

  /** All symbols of the items are in range. */
  ghost predicate InRange(cm: CodeMap, items: seq<Item>) {
    && GoodMap(cm) && GoodItems(items)
    && forall i :: 0 <= i < |items| ==>
         && GoodItem(items[i]) && LitSymbol(cm, items[i]) < L_CODES
         && (items[i].Match? ==> DistSymbol(cm, items[i]) < D_CODES)
  }

  /** The bits of a block with the codes of section 3.2.6, without the three that open it. */
  ghost function FixedSize(cm: CodeMap, items: seq<Item>): nat
    requires AllSendable(cm, FixedLitLens(), StaticDistLens(), items)
  {
    |EncodeItems(cm, FixedLitLens(), StaticDistLens(), items)| + 7
  }

  /** The same with its own codes, which are sent as well. */
  ghost function OwnSize(cm: CodeMap, items: seq<Item>, p: Plan): nat
    requires DynamicCodes(p.lit, p.dist, p.bl, p.blcodes) && AllSendable(cm, p.lit, p.dist, items)
    requires END_BLOCK < |p.lit|
  {
    |TreeBits(p.lit, p.dist, p.bl, p.blcodes)| + |EncodeItems(cm, p.lit, p.dist, items)| + p.lit[END_BLOCK]
  }

  /** The codes are those of Huffman trees for the symbols of the items. */
  ghost predicate HuffmanFor(cm: CodeMap, items: seq<Item>, p: Plan)
    requires InRange(cm, items)
  {
    HuffmanPlan(LitFreqs(cm, FreshLit(), items), DistFreqs(cm, Zeros(D_CODES), items), p)
  }

  /** The items take fixed bits with the codes of section 3.2.6, and own bits with the codes of p, which are those of
      Huffman trees; both without the three bits that open a block. */
  ghost predicate Costed(cm: CodeMap, items: seq<Item>, p: Plan, fixed: int, own: int) {
    && InRange(cm, items) && HuffmanFor(cm, items, p)
    && AllSendable(cm, FixedLitLens(), StaticDistLens(), items) && fixed == FixedSize(cm, items)
    && DynamicCodes(p.lit, p.dist, p.bl, p.blcodes) && AllSendable(cm, p.lit, p.dist, items) && END_BLOCK < |p.lit|
    && own == OwnSize(cm, items, p)
  }

  /** A block of the items, sent behind n bits, has size bits: Choice tells which of the three kinds of block it is. */
  ghost predicate SentAsChosen(cm: CodeMap, items: seq<Item>, n: nat, size: nat, len: nat, inWindow: bool) {
    exists p: Plan, fixed: nat, own: nat ::
      Costed(cm, items, p, fixed, own) && Choice(n, size, len, inWindow, fixed, own)
  }

  lemma {:induction false} CostedFacts(cm: CodeMap, items: seq<Item>, p: Plan, fixed: int, own: int)
    requires Costed(cm, items, p, fixed, own)
    ensures fixed >= 0 && own >= 0
  {
    hide InRange, HuffmanFor, DynamicCodes, AllSendable, FixedSize, OwnSize;
  }

  lemma {:induction false} NowChosen(cm: CodeMap, items: seq<Item>, p: Plan, fixed: nat, own: nat, n: nat, size: nat,
      len: nat, inWindow: bool)
    requires Costed(cm, items, p, fixed, own) && Choice(n, size, len, inWindow, fixed, own)
    ensures SentAsChosen(cm, items, n, size, len, inWindow)
  {
    hide Costed, Choice;
  }

  lemma {:induction false} NowHuffmanPlan(litFreq: seq<nat>, distFreq: seq<nat>, p: Plan)
    requires HuffmanCode(litFreq, MAX_BITS, p.lit) && HuffmanCode(distFreq, MAX_BITS, p.dist)
    requires RunsWellFormed(AllRuns(p.lit) + AllRuns(p.dist)) && 1 <= p.blcodes && p.blcodes - 1 < BL_CODES
    requires HuffmanCode(FreqAfter(Zeros(BL_CODES), AllRuns(p.lit) + AllRuns(p.dist)), 7, p.bl)
    requires LenAt(p.bl, CodeLengthOrder()[p.blcodes - 1]) > 0
    requires forall r :: p.blcodes - 1 < r < 19 ==> LenAt(p.bl, CodeLengthOrder()[r]) == 0
    ensures HuffmanPlan(litFreq, distFreq, p)
  {
  }

  // ----- the parts of globals2

  class Globals2 {
    const w: BitWriter
    const tables: CodeTables
    const q: NodeHeap
    const g: BlockStats
    const buf: TallyBuffers
    const lDesc: TreeDesc
    const dDesc: TreeDesc
    const blDesc: TreeDesc
    var compressedLen: nat
    ghost var items: seq<Item>

    constructor (tables: CodeTables, lDesc: TreeDesc, dDesc: TreeDesc, blDesc: TreeDesc)
      requires tables.Sized()
      ensures this.tables == tables && this.lDesc == lDesc && this.dDesc == dDesc && this.blDesc == blDesc
      ensures fresh(w) && fresh(w.outbuf) && fresh(q) && fresh(q.heap) && fresh(q.depth) && fresh(g) && fresh(g.blCount)
      ensures fresh(buf) && fresh(buf.lBuf) && fresh(buf.dBuf) && fresh(buf.flagBuf)
      ensures w.Valid() && w.Contents() == [] && q.Settled() && buf.Sized()
      ensures q.heap !in {g.blCount, buf.lBuf, buf.dBuf, buf.flagBuf}
              && q.depth !in {g.blCount, buf.lBuf, buf.dBuf, buf.flagBuf}
      ensures g.blCount !in {buf.lBuf, buf.dBuf, buf.flagBuf}
      ensures g.blCount.Length == MAX_BITS + 1 && forall l :: 0 <= l <= MAX_BITS ==> g.blCount[l] == 0
    {
      this.tables, this.lDesc, this.dDesc, this.blDesc := tables, lDesc, dDesc, blDesc;
      buf := new TallyBuffers();
      q := new NodeHeap();
      g := new BlockStats();
      w := new BitWriter();
      compressedLen := 0;
      items := [];
      new;
      hide w.Contents, w.Valid;
    }

    lemma {:induction false} SetUp()
      requires tables.Sized()
      requires lDesc.dynTree.Length == 2 * L_CODES + 1 && lDesc.elems == L_CODES && lDesc.extraBits == LengthExtra()
              && lDesc.extraBase == LITERALS + 1
      requires lDesc.maxLength == MAX_BITS && lDesc.staticTree == tables.staticLtree
              && lDesc.dynTree != tables.staticLtree
      requires dDesc.dynTree.Length == 2 * D_CODES + 1 && dDesc.elems == D_CODES && dDesc.extraBits == DistExtra()
              && dDesc.extraBase == 0
      requires dDesc.maxLength == MAX_BITS && dDesc.staticTree == tables.staticDtree
              && dDesc.dynTree != tables.staticDtree
      requires blDesc.dynTree.Length == 2 * BL_CODES + 1 && blDesc.elems == BL_CODES && blDesc.extraBits == ExtraBl()
              && blDesc.extraBase == 0
      requires blDesc.maxLength == 7 && blDesc.staticTree == null
      ensures Described()
    {
      hide Pow2, LengthExtra, DistExtra, ExtraBl;
      FirstExtras();
    }

    lemma {:induction false} AllDistinct()
      requires lDesc != dDesc && lDesc != blDesc && dDesc != blDesc
      requires lDesc.dynTree !in {dDesc.dynTree, blDesc.dynTree, tables.staticLtree, tables.staticDtree}
      requires dDesc.dynTree !in {blDesc.dynTree, tables.staticLtree, tables.staticDtree}
      requires blDesc.dynTree !in {tables.staticLtree, tables.staticDtree}
      requires q.heap !in {g.blCount, buf.lBuf, buf.dBuf, buf.flagBuf}
              && q.depth !in {g.blCount, buf.lBuf, buf.dBuf, buf.flagBuf}
      requires g.blCount !in {buf.lBuf, buf.dBuf, buf.flagBuf}
      requires tables.Repr() !! {q.heap as object, q.depth as object, g.blCount as object, buf.lBuf as object,
              buf.dBuf as object, buf.flagBuf as object}
      requires g.blCount.Length == MAX_BITS + 1
      ensures Distinct()
    {
      assert tables.lengthCode in tables.Repr() && tables.distCode in tables.Repr()
              && tables.baseLength in tables.Repr() && tables.baseDist in tables.Repr();
    }

    static lemma {:induction false} FirstExtras()
      ensures Pow2(MAX_BITS) == 32768 && Pow2(7) == 128
      ensures DistExtra()[0] == DistExtra()[1] == DistExtra()[2] == 0
      ensures ExtraBl()[0] == ExtraBl()[1] == ExtraBl()[2] == 0
    {
      hide DistExtra, ExtraBl;
      FirstRows();
      hide Pow2;
      Pow2Values();
    }

    static lemma {:induction false} FirstRows()
      ensures DistExtra()[0] == DistExtra()[1] == DistExtra()[2] == 0
      ensures ExtraBl()[0] == ExtraBl()[1] == ExtraBl()[2] == 0
    {
    }

    /** ct_init: the tables, and an empty first block. */
    method CtInit()
      requires Described() && Distinct() && w.Valid() && w.Contents() == [] && q.Settled() && buf.Sized()
      requires forall l :: 0 <= l <= MAX_BITS ==> g.blCount[l] == 0
      modifies Repr(), tables.Repr()
      ensures Valid() && items == [] && w.Contents() == []
    {
      hide *;
      ReprHas();
      TablesApart();
      compressedLen := 0;
      InitTables();
      assert w.Contents() == [];
      CoreAgain();
      Separate();
      InitBlock();
      ValidAgain();
    }

    lemma {:induction false} TablesApart()
      requires Distinct()
      ensures this !in tables.Repr() && w !in tables.Repr() && w.outbuf !in tables.Repr() && q !in tables.Repr()
              && q.heap !in tables.Repr() && q.depth !in tables.Repr()
      ensures g.blCount != q.heap && g.blCount != q.depth && g.blCount as object != w.outbuf
      ensures g.blCount != tables.lengthCode && g.blCount != tables.distCode && g.blCount != tables.baseLength
              && g.blCount != tables.baseDist
      ensures {tables.lengthCode as object, tables.distCode as object, tables.baseLength as object,
              tables.baseDist as object} <= tables.Repr()
      ensures {tables.staticLtree, tables.staticDtree} <= tables.Repr()
      ensures g.blCount.Length == MAX_BITS + 1
    {
    }

    method InitTables()
      requires Described() && Distinct() && w.Valid() && q.Settled()
      requires forall l :: 0 <= l <= MAX_BITS ==> g.blCount[l] == 0
      modifies g.blCount, tables.Repr()
      ensures tables.Valid() && GoodMap(Map()) && w.Valid() && w.Contents() == old(w.Contents()) && q.Settled()
    {
      hide *;
      DescribedSizes();
      TablesApart();
      tables.Init(g.blCount);
      MapIsGood(tables, Map());
    }

    lemma {:induction false} DescribedSizes()
      requires Described()
      ensures tables.Sized()
    {
    }

    /** The three tree descriptions as pack_gzip sets them up. */
    ghost predicate Described()
    {
      && tables.Sized() && lDesc.Valid() && dDesc.Valid() && blDesc.Valid()
      && lDesc.elems == L_CODES && lDesc.extraBits == LengthExtra() && lDesc.extraBase == LITERALS + 1
      && lDesc.maxLength == MAX_BITS && lDesc.staticTree == tables.staticLtree
      && dDesc.elems == D_CODES && dDesc.extraBits == DistExtra() && dDesc.extraBase == 0
      && dDesc.maxLength == MAX_BITS && dDesc.staticTree == tables.staticDtree
      && blDesc.elems == BL_CODES && blDesc.extraBits == ExtraBl() && blDesc.extraBase == 0
      && blDesc.maxLength == 7 && blDesc.staticTree == null
    }

    /** a is none of the counters and buffers of a block. */
    ghost predicate NoBuffer(a: array<nat>)
    {
      a != g.blCount && a != buf.lBuf && a != buf.dBuf && a != buf.flagBuf
    }

    /** a is neither a heap nor one of the counters and buffers. */
    ghost predicate NoWorkspace(a: array<nat>)
    {
      a != q.heap && a != q.depth && NoBuffer(a)
    }

    /** No two of the arrays of one type are the same. */
    ghost predicate Distinct()
    {
      && lDesc != dDesc && lDesc != blDesc && dDesc != blDesc
      && lDesc.dynTree != dDesc.dynTree && lDesc.dynTree != blDesc.dynTree && dDesc.dynTree != blDesc.dynTree
      && tables.staticLtree != lDesc.dynTree && tables.staticLtree != dDesc.dynTree
      && tables.staticLtree != blDesc.dynTree
      && tables.staticDtree != lDesc.dynTree && tables.staticDtree != dDesc.dynTree
      && tables.staticDtree != blDesc.dynTree
      && NoBuffer(q.heap) && NoBuffer(q.depth)
      && g.blCount != buf.lBuf && g.blCount != buf.dBuf && g.blCount != buf.flagBuf
      && NoWorkspace(tables.lengthCode) && NoWorkspace(tables.distCode) && NoWorkspace(tables.baseLength)
      && NoWorkspace(tables.baseDist)
      && g.blCount.Length == MAX_BITS + 1
    }

    lemma {:induction false} Separate()
      requires Distinct()
      ensures lDesc != dDesc && lDesc != blDesc && dDesc != blDesc
      ensures lDesc.dynTree != dDesc.dynTree && lDesc.dynTree != blDesc.dynTree && dDesc.dynTree != blDesc.dynTree
      ensures tables.staticLtree != lDesc.dynTree && tables.staticLtree != dDesc.dynTree
              && tables.staticLtree != blDesc.dynTree
      ensures tables.staticDtree != lDesc.dynTree && tables.staticDtree != dDesc.dynTree
              && tables.staticDtree != blDesc.dynTree
      ensures q.heap != g.blCount && q.heap != buf.lBuf && q.heap != buf.dBuf && q.heap != buf.flagBuf
      ensures q.depth != g.blCount && q.depth != buf.lBuf && q.depth != buf.dBuf && q.depth != buf.flagBuf
      ensures g.blCount != buf.lBuf && g.blCount != buf.dBuf && g.blCount != buf.flagBuf
      ensures tables.lengthCode != q.heap && tables.lengthCode != q.depth && tables.lengthCode != g.blCount
      ensures tables.lengthCode != buf.lBuf && tables.lengthCode != buf.dBuf && tables.lengthCode != buf.flagBuf
      ensures tables.distCode != q.heap && tables.distCode != q.depth && tables.distCode != g.blCount
      ensures tables.distCode != buf.lBuf && tables.distCode != buf.dBuf && tables.distCode != buf.flagBuf
      ensures tables.baseLength != q.heap && tables.baseLength != q.depth && tables.baseLength != g.blCount
      ensures tables.baseLength != buf.lBuf && tables.baseLength != buf.dBuf && tables.baseLength != buf.flagBuf
      ensures tables.baseDist != q.heap && tables.baseDist != q.depth && tables.baseDist != g.blCount
      ensures tables.baseDist != buf.lBuf && tables.baseDist != buf.dBuf && tables.baseDist != buf.flagBuf
      ensures g.blCount.Length == MAX_BITS + 1
    {
    }

    /** The mappings of the tables as a value. */
    ghost function Map(): (cm: CodeMap)
      reads tables.lengthCode, tables.distCode
      ensures MapOf(tables, cm)
    {
      CodeMap(tables.lengthCode[..], tables.distCode[..])
    }

    /** All symbols of the items are in range. */
    ghost predicate SymbolsOk()
      reads this, tables.lengthCode, tables.distCode
    {
      var cm := Map();
      && GoodMap(cm) && GoodItems(items)
      && (forall i :: 0 <= i < |items| ==>
            && GoodItem(items[i]) && LitSymbol(cm, items[i]) < L_CODES
            && (items[i].Match? ==> DistSymbol(cm, items[i]) < D_CODES))
    }

    /** The frequency fields count the symbols of the items. */
    ghost predicate Counting()
      requires Described()
      reads this, tables.lengthCode, tables.distCode, lDesc.dynTree, dDesc.dynTree, blDesc.dynTree
    {
      var cm := Map();
      && SymbolsOk()
      && Freqs(lDesc.dynTree[..], L_CODES) == LitFreqs(cm, FreshLit(), items)
      && Freqs(dDesc.dynTree[..], D_CODES) == DistFreqs(cm, Zeros(D_CODES), items)
      && Freqs(blDesc.dynTree[..], BL_CODES) == Zeros(BL_CODES)
    }

    lemma {:induction false} CountsSized()
      requires Distinct()
      ensures g.blCount.Length == MAX_BITS + 1
    {
    }

    ghost function Repr(): set<object>
    {
      {this, w, w.outbuf as object, q, q.heap as object, q.depth as object, g, g.blCount as object,
       buf, buf.lBuf as object, buf.dBuf as object, buf.flagBuf as object, lDesc, dDesc, blDesc,
       lDesc.dynTree as object, dDesc.dynTree as object, blDesc.dynTree as object}
    }

    ghost predicate Valid()
      reads Repr(), tables.lengthCode, tables.distCode, tables.baseLength, tables.baseDist, tables.staticLtree,
          tables.staticDtree
    {
      && Described() && Distinct() && Core() && q.Settled()
      && buf.Holds(items) && Counting()
      && g.optLen == 0 && g.staticLen == 0
    }

    /** The bits sent so far, counted by compressed_len, and the tables. */
    ghost predicate Core()
      reads this`compressedLen, w, w.outbuf, tables.lengthCode, tables.distCode, tables.baseLength, tables.baseDist,
          tables.staticLtree, tables.staticDtree
    {
      w.Valid() && tables.Valid() && GoodMap(Map()) && compressedLen == |w.Contents()|
    }

    lemma {:induction false} CoreFacts()
      requires Core()
      ensures w.Valid() && tables.Valid() && GoodMap(Map()) && compressedLen == |w.Contents()|
    {
    }

    // ----- the trees of a block

    /** opt_len is the exact number of bits of the block under the codes of p, without the three bits that open it. */
    ghost predicate DynamicPriced(p: Plan)
      reads this, g, tables.lengthCode, tables.distCode
    {
      && DynamicCodes(p.lit, p.dist, p.bl, p.blcodes) && AllSendable(Map(), p.lit, p.dist, items)
      && g.optLen == |TreeBits(p.lit, p.dist, p.bl, p.blcodes)| + |EncodeItems(Map(), p.lit, p.dist, items)|
          + p.lit[END_BLOCK]
    }

    /** static_len is the exact number of bits of the block under the fixed codes, without
        the three bits that open it. */
    ghost predicate StaticPriced()
      reads this, g, tables.lengthCode, tables.distCode
    {
      && AllSendable(Map(), FixedLitLens(), StaticDistLens(), items)
      && g.staticLen == |EncodeItems(Map(), FixedLitLens(), StaticDistLens(), items)| + 7
    }

    /** The codes chosen for a dynamic block. */
    ghost predicate Ready(p: Plan)
      requires Described()
      reads this, lDesc, dDesc, lDesc.dynTree, dDesc.dynTree, blDesc.dynTree, tables.lengthCode, tables.distCode
    {
      && DynamicCodes(p.lit, p.dist, p.bl, p.blcodes)
      && lDesc.maxCode + 1 == |p.lit| && dDesc.maxCode + 1 == |p.dist|
      && HasCodes(lDesc.dynTree[..], p.lit) && HasCodes(dDesc.dynTree[..], p.dist) && HasCodes(blDesc.dynTree[..], p.bl)
      && lDesc.dynTree[|p.lit|].dl == GUARD && dDesc.dynTree[|p.dist|].dl == GUARD
      && AllSendable(Map(), p.lit, p.dist, items)
    }

    /** build_tree for the literal/length codes. */
    method BuildLit() returns (ghost lens: seq<nat>)
      requires Described() && Distinct() && q.Settled() && Counting() && |items| < LIT_BUFSIZE
      modifies lDesc, q, q.heap, q.depth, lDesc.dynTree, g`optLen, g`staticLen, g.blCount
      ensures q.Settled() && LitBuilt(lens)
      ensures var freq := old(LitFreqs(Map(), FreshLit(), items));
              && HuffmanCode(freq, MAX_BITS, lens[..lDesc.maxCode + 1])
              && (forall s :: 0 <= s < L_CODES && freq[s] > 0 ==> lens[s] > 0)
              && g.optLen == old(g.optLen) + Cost(freq, lens, LitExtra())
              && g.staticLen == old(g.staticLen) + Cost(freq, old(lDesc.StaticLens()), LitExtra())
    {
      hide GoodMap, FreshLit, LitFreqs, DistFreqs, Zeros, Pow2, HasCodes, Cost, Total, Kraft, HuffmanLengths,
          HuffmanCode;
      DescribedFacts();
      LitTotal(Map(), items);
      ghost var freq, used, leaves, ms;
      freq := LitFreqs(Map(), FreshLit(), items);
      lens, used, leaves, ms := BuildTree(lDesc, q, g);
      CompleteDecodable(lens, lDesc.maxCode + 1);
      NowHuffman(freq, used, leaves, ms, MAX_BITS, lens, lDesc.maxCode + 1);
      hide Described;
    }

    /** The literal/length tree has a complete code for the lengths up to maxCode, which covers the end marker. */
    ghost predicate LitBuilt(lens: seq<nat>)
      reads lDesc, lDesc.dynTree
    {
      && |lens| == L_CODES && lDesc.maxCode < L_CODES <= lDesc.dynTree.Length
      && HasCodes(lDesc.dynTree[..], lens[..lDesc.maxCode + 1]) && LengthsWithin(lens, MAX_BITS)
      && forall s :: lDesc.maxCode < s < L_CODES ==> lens[s] == 0
    }

    static lemma {:induction false} CompleteDecodable(lens: seq<nat>, n: nat)
      requires n <= |lens| && LengthsWithin(lens, MAX_BITS) && Kraft(lens[..n], MAX_BITS) == Pow2(MAX_BITS)
      ensures Decodable(lens[..n])
    {
    }

    static lemma {:induction false} LitTotal(cm: CodeMap, items: seq<Item>)
      requires GoodMap(cm) && GoodItems(items)
      requires forall i :: 0 <= i < |items| ==>
                GoodItem(items[i]) && LitSymbol(cm, items[i]) < L_CODES
                    && (items[i].Match? ==> DistSymbol(cm, items[i]) < D_CODES)
      ensures Total(LitFreqs(cm, FreshLit(), items)) == 1 + |items|
      ensures Total(DistFreqs(cm, Zeros(D_CODES), items)) <= |items|
    {
      hide GoodMap, FreshLit, Zeros;
      CostOne(FreshLit(), FreshLit(), LitExtra(), END_BLOCK);
      TotalZero(Zeros(D_CODES));
      TalliedTotals(cm, FreshLit(), Zeros(D_CODES), items);
    }

    /** build_tree for the distance codes. */
    method BuildDist() returns (ghost lens: seq<nat>)
      requires Described() && Distinct() && q.Settled() && |items| < LIT_BUFSIZE && SymbolsOk()
      requires Freqs(dDesc.dynTree[..], D_CODES) == DistFreqs(Map(), Zeros(D_CODES), items)
      modifies dDesc, q, q.heap, q.depth, dDesc.dynTree, g`optLen, g`staticLen, g.blCount
      ensures q.Settled() && DistBuilt(lens)
      ensures var freq := old(DistFreqs(Map(), Zeros(D_CODES), items));
              && HuffmanCode(freq, MAX_BITS, lens[..dDesc.maxCode + 1])
              && (forall s :: 0 <= s < D_CODES && freq[s] > 0 ==> lens[s] > 0)
              && g.optLen == old(g.optLen) + Cost(freq, lens, DistExtra())
              && g.staticLen == old(g.staticLen) + Cost(freq, old(dDesc.StaticLens()), DistExtra())
    {
      hide GoodMap, FreshLit, LitFreqs, DistFreqs, Zeros, Pow2, HasCodes, Cost, Total, Kraft, HuffmanLengths,
          HuffmanCode;
      DescribedFacts();
      LitTotal(Map(), items);
      ghost var freq, used, leaves, ms;
      freq := DistFreqs(Map(), Zeros(D_CODES), items);
      lens, used, leaves, ms := BuildTree(dDesc, q, g);
      CompleteDecodable(lens, dDesc.maxCode + 1);
      NowHuffman(freq, used, leaves, ms, MAX_BITS, lens, dDesc.maxCode + 1);
      hide Described;
    }

    ghost predicate DistBuilt(lens: seq<nat>)
      reads dDesc, dDesc.dynTree
    {
      && |lens| == D_CODES && dDesc.maxCode < D_CODES <= dDesc.dynTree.Length
      && HasCodes(dDesc.dynTree[..], lens[..dDesc.maxCode + 1]) && LengthsWithin(lens, MAX_BITS)
      && forall s :: dDesc.maxCode < s < D_CODES ==> lens[s] == 0
    }

    /** scan_tree for both trees. */
    method ScanBoth(ghost lit: seq<nat>, ghost dist: seq<nat>)
      requires Described() && Distinct() && lDesc.maxCode < L_CODES && dDesc.maxCode < D_CODES
      requires HasCodes(lDesc.dynTree[..], lit) && |lit| == lDesc.maxCode + 1
      requires HasCodes(dDesc.dynTree[..], dist) && |dist| == dDesc.maxCode + 1
      requires Freqs(blDesc.dynTree[..], BL_CODES) == Zeros(BL_CODES)
      modifies lDesc.dynTree, dDesc.dynTree, blDesc.dynTree
      ensures HasCodes(lDesc.dynTree[..], lit) && HasCodes(dDesc.dynTree[..], dist)
      ensures lDesc.dynTree[..][|lit|].dl == GUARD && dDesc.dynTree[..][|dist|].dl == GUARD
      ensures RunsWellFormed(AllRuns(lit) + AllRuns(dist))
      ensures Freqs(blDesc.dynTree[..], BL_CODES) == FreqAfter(Zeros(BL_CODES), AllRuns(lit) + AllRuns(dist))
    {
      hide HasCodes, AllRuns, RunsWellFormed, FreqAfter, Zeros, Pow2;
      DescribedFacts();
      hide Described;
      CodedLens(lDesc.dynTree[..], lit);
      CodedLens(dDesc.dynTree[..], dist);
      ghost var lt, dt := lDesc.dynTree[..], dDesc.dynTree[..];
      ScanTree(lDesc.dynTree, lDesc.maxCode, blDesc.dynTree);
      KeepCodes(lt, lDesc.dynTree[..], lit);
      ScanTree(dDesc.dynTree, dDesc.maxCode, blDesc.dynTree);
      KeepCodes(dt, dDesc.dynTree[..], dist);
      BothRuns(lit, dist);
    }

    static lemma {:induction false} CodedLens(t: seq<CtData>, lens: seq<nat>)
      requires HasCodes(t, lens)
      ensures |lens| <= |t| && Lens(t, |lens|) == lens && SmallLens(lens)
    {
    }

    static lemma {:induction false} KeepCodes(t: seq<CtData>, t': seq<CtData>, lens: seq<nat>)
      requires HasCodes(t, lens) && |t'| == |t| && forall i :: 0 <= i < |lens| ==> t'[i] == t[i]
      ensures HasCodes(t', lens)
    {
      hide CodeOf, Reverse;
    }

    static lemma {:induction false} BothRuns(lit: seq<nat>, dist: seq<nat>)
      requires SmallLens(lit) && SmallLens(dist)
      ensures RunsWellFormed(AllRuns(lit)) && RunsWellFormed(AllRuns(dist))
              && RunsWellFormed(AllRuns(lit) + AllRuns(dist))
      ensures FreqAfter(Zeros(BL_CODES), AllRuns(lit) + AllRuns(dist))
              == FreqAfter(FreqAfter(Zeros(BL_CODES), AllRuns(lit)), AllRuns(dist))
      ensures |AllRuns(lit) + AllRuns(dist)| <= |lit| + |dist|
    {
      hide Runs, FreqAfter, Pow2, Zeros;
      BothWellFormed(lit, dist);
      RunsAreWellFormed(lit, 0, -1, 0);
      RunsAreWellFormed(dist, 0, -1, 0);
      FreqConcat(Zeros(BL_CODES), AllRuns(lit), AllRuns(dist));
      RunsCount(lit, 0, -1, 0);
      RunsCount(dist, 0, -1, 0);
    }

    /** build_bl_tree: the code length code, and the rank of the last of its lengths to send. */
    method BuildBlTree(ghost lit: seq<nat>, ghost dist: seq<nat>) returns (maxBlindex: nat, ghost bl: seq<nat>)
      requires Described() && Distinct() && q.Settled() && lDesc.maxCode < L_CODES && dDesc.maxCode < D_CODES
      requires HasCodes(lDesc.dynTree[..], lit) && |lit| == lDesc.maxCode + 1
      requires HasCodes(dDesc.dynTree[..], dist) && |dist| == dDesc.maxCode + 1
      requires END_BLOCK < |lit| && lit[END_BLOCK] > 0
      requires Freqs(blDesc.dynTree[..], BL_CODES) == Zeros(BL_CODES)
      modifies lDesc.dynTree, dDesc.dynTree, blDesc.dynTree, blDesc, q, q.heap, q.depth, g`optLen, g`staticLen,
          g.blCount
      ensures q.Settled() && HasCodes(lDesc.dynTree[..], lit) && HasCodes(dDesc.dynTree[..], dist)
              && HasCodes(blDesc.dynTree[..], bl)
      ensures lDesc.dynTree[..][|lit|].dl == GUARD && dDesc.dynTree[..][|dist|].dl == GUARD
      ensures |bl| == BL_CODES && 3 <= maxBlindex < BL_CODES
      ensures (forall s :: 0 <= s < 19 ==> bl[s] < 8)
              && (forall r :: maxBlindex < r < 19 ==> LenAt(bl, CodeLengthOrder()[r]) == 0)
      ensures LenAt(bl, CodeLengthOrder()[maxBlindex]) > 0 && RunsWellFormed(AllRuns(lit) + AllRuns(dist))
      ensures HuffmanCode(FreqAfter(Zeros(BL_CODES), AllRuns(lit) + AllRuns(dist)), 7, bl)
      ensures Covers(bl, AllRuns(lit)) && Covers(bl, AllRuns(dist))
      ensures g.staticLen == old(g.staticLen)
      ensures g.optLen == old(g.optLen) + |EncodeRuns(bl, AllRuns(lit))| + |EncodeRuns(bl, AllRuns(dist))|
              + 3 * (maxBlindex + 1) + 14
    {
      hide HasCodes, AllRuns, RunsWellFormed, FreqAfter, Zeros, Pow2, Covers, EncodeRuns, Cost, Total, Kraft,
          CodeLengthOrder, UsedFreqs, HuffmanLengths, HuffmanCode;
      DescribedFacts();
      hide Described;
      ScanBoth(lit, dist);
      ghost var rs := AllRuns(lit) + AllRuns(dist);
      CodedLens(lDesc.dynTree[..], lit);
      CodedLens(dDesc.dynTree[..], dist);
      BothRuns(lit, dist);
      RunsTotal(rs);
      ghost var freq, used, leaves, ms;
      freq := Freqs(blDesc.dynTree[..], BL_CODES);
      bl, used, leaves, ms := BuildTree(blDesc, q, g);
      NowHuffman(freq, used, leaves, ms, 7, bl, |bl|);
      assert bl[..|bl|] == bl;
      PadCodes(blDesc.dynTree[..], bl, blDesc.maxCode + 1);
      RunsPriced(lit, dist, bl, freq, used);
      CodedDecodable(blDesc.dynTree[..], bl);
      CoverRuns(lit, dist, bl, freq, used);
      maxBlindex := BL_CODES - 1;
      OrderRange();
      while maxBlindex >= 3
        invariant 2 <= maxBlindex < BL_CODES
        invariant forall r :: maxBlindex < r < 19 ==> LenAt(bl, CodeLengthOrder()[r]) == 0
      {
        if blDesc.dynTree[CodeLengthOrder()[maxBlindex]].dl != 0 { break; }
        maxBlindex := maxBlindex - 1;
      }
      EnoughLengths(lit, bl, maxBlindex);
      g.optLen := g.optLen + 3 * (maxBlindex + 1) + 5 + 5 + 4;
    }

    static lemma {:induction false} RunsTotal(rs: seq<RunCode>)
      requires RunsWellFormed(rs)
      ensures Total(FreqAfter(Zeros(BL_CODES), rs)) == |rs|
    {
      hide Pow2, Zeros;
      TotalZero(Zeros(BL_CODES));
      FreqTotal(Zeros(BL_CODES), rs);
    }

    static lemma {:induction false} RunsPriced(lit: seq<nat>, dist: seq<nat>, bl: seq<nat>, freq: seq<nat>,
        used: seq<nat>)
      requires RunsWellFormed(AllRuns(lit)) && RunsWellFormed(AllRuns(dist))
              && RunsWellFormed(AllRuns(lit) + AllRuns(dist))
      requires |bl| == BL_CODES && freq == FreqAfter(Zeros(BL_CODES), AllRuns(lit) + AllRuns(dist))
      ensures Cost(freq, bl, ExtraBl()) == |EncodeRuns(bl, AllRuns(lit))| + |EncodeRuns(bl, AllRuns(dist))|
    {
      hide AllRuns, Pow2, Zeros, Cost, EncodeRuns, FreqAfter;
      CostZero(Zeros(BL_CODES), bl, ExtraBl());
      RunsCost(Zeros(BL_CODES), bl, AllRuns(lit) + AllRuns(dist));
      EncodeRunsConcat(bl, AllRuns(lit), AllRuns(dist));
    }

    static lemma {:induction false} CodedDecodable(t: seq<CtData>, lens: seq<nat>)
      requires HasCodes(t, lens)
      ensures Decodable(lens) && |lens| <= |t| && forall s :: 0 <= s < |lens| ==> t[s].dl == lens[s]
    {
    }

    static lemma {:induction false} CoverRuns(lit: seq<nat>, dist: seq<nat>, bl: seq<nat>, freq: seq<nat>,
        used: seq<nat>)
      requires RunsWellFormed(AllRuns(lit) + AllRuns(dist)) && |bl| == BL_CODES && Decodable(bl)
      requires freq == FreqAfter(Zeros(BL_CODES), AllRuns(lit) + AllRuns(dist)) && UsedFreqs(freq, used, bl)
      ensures Covers(bl, AllRuns(lit)) && Covers(bl, AllRuns(dist))
    {
      hide AllRuns, Pow2, Zeros, FreqAfter, Kraft;
      var rs := AllRuns(lit) + AllRuns(dist);
      forall i | 0 <= i < |rs| ensures bl[rs[i].symbol] > 0 { FreqUsed(Zeros(BL_CODES), rs, i); }
      assert forall i :: 0 <= i < |AllRuns(lit)| ==> rs[i] == AllRuns(lit)[i];
      assert forall i :: 0 <= i < |AllRuns(dist)| ==> rs[i + |AllRuns(lit)|] == AllRuns(dist)[i];
    }

    /** The search for the last length to send does not run off its end: some length from 1 to 15 has a code. */
    static lemma {:induction false} EnoughLengths(lit: seq<nat>, bl: seq<nat>, last: nat)
      requires SmallLens(lit) && END_BLOCK < |lit| && lit[END_BLOCK] > 0 && Covers(bl, AllRuns(lit))
      requires forall r :: last < r < 19 ==> LenAt(bl, CodeLengthOrder()[r]) == 0
      ensures last >= 3
    {
      hide AllRuns, Kraft, Pow2;
      var i := SomeLengthSent(lit, END_BLOCK);
      var s := AllRuns(lit)[i].symbol;
      RankInverts(s, 0);
      assert LenAt(bl, CodeLengthOrder()[Rank(s)]) > 0;
    }

    static lemma {:induction false} OrderRange()
      ensures forall r :: 0 <= r < 19 ==> CodeLengthOrder()[r] < 19
    {
    }

    static lemma {:induction false} PlanSends(cm: CodeMap, items: seq<Item>, litLens: seq<nat>, distLens: seq<nat>,
        lit: seq<nat>, dist: seq<nat>)
      requires GoodMap(cm) && GoodItems(items) && L_CODES <= |litLens| && D_CODES <= |distLens|
      requires forall i :: 0 <= i < |items| ==>
                GoodItem(items[i]) && LitSymbol(cm, items[i]) < L_CODES
                    && (items[i].Match? ==> DistSymbol(cm, items[i]) < D_CODES)
      requires forall s :: 0 <= s < L_CODES && LitFreqs(cm, FreshLit(), items)[s] > 0 ==> litLens[s] > 0
      requires forall s :: 0 <= s < D_CODES && DistFreqs(cm, Zeros(D_CODES), items)[s] > 0 ==> distLens[s] > 0
      requires lit <= litLens && forall s :: |lit| <= s < L_CODES ==> litLens[s] == 0
      requires dist <= distLens && forall s :: |dist| <= s < D_CODES ==> distLens[s] == 0
      ensures AllSendable(cm, lit, dist, items)
    {
      assert |cm.len| == 256 && |cm.dist| == 512;
      hide GoodMap, FreshLit, Zeros, LitFreqs, DistFreqs;
      forall i | 0 <= i < |items| ensures Sendable(cm, lit, dist, items[i]) {
        TalliedSymbols(cm, FreshLit(), Zeros(D_CODES), items, i);
      }
    }

    /** Codes that cover the counted symbols: every item can be sent, at the cost of the counts. */
    static lemma {:induction false} PlanCost(cm: CodeMap, items: seq<Item>, litLens: seq<nat>, distLens: seq<nat>,
        lit: seq<nat>, dist: seq<nat>)
      requires GoodMap(cm) && GoodItems(items) && L_CODES <= |litLens| && D_CODES <= |distLens|
      requires forall i :: 0 <= i < |items| ==>
                GoodItem(items[i]) && LitSymbol(cm, items[i]) < L_CODES
                    && (items[i].Match? ==> DistSymbol(cm, items[i]) < D_CODES)
      requires lit <= litLens && dist <= distLens && AllSendable(cm, lit, dist, items)
      ensures Cost(LitFreqs(cm, FreshLit(), items), litLens, LitExtra())
              + Cost(DistFreqs(cm, Zeros(D_CODES), items), distLens, DistExtra())
           == |EncodeItems(cm, lit, dist, items)| + litLens[END_BLOCK]
    {
      assert |cm.len| == 256 && |cm.dist| == 512;
      FreshCost(litLens, distLens);
      hide GoodMap, FreshLit, Zeros, LitFreqs, DistFreqs, Cost, EncodeItems, Sendable, AllSendable;
      ItemsCost(cm, FreshLit(), Zeros(D_CODES), lit, dist, litLens, distLens, items);
    }

    static lemma {:induction false} EndCovered(cm: CodeMap, items: seq<Item>, litLens: seq<nat>, lit: seq<nat>)
      requires |cm.len| == 256 && L_CODES <= |litLens|
      requires forall i :: 0 <= i < |items| ==> GoodItem(items[i]) && LitSymbol(cm, items[i]) < L_CODES
      requires forall s :: 0 <= s < L_CODES && LitFreqs(cm, FreshLit(), items)[s] > 0 ==> litLens[s] > 0
      requires lit <= litLens && forall s :: |lit| <= s < L_CODES ==> litLens[s] == 0
      ensures END_BLOCK < |lit| && lit[END_BLOCK] == litLens[END_BLOCK] > 0
    {
      hide LitFreqs, FreshLit;
      assert LitFreqs(cm, FreshLit(), items)[END_BLOCK] >= FreshLit()[END_BLOCK] == 1;
    }

    static lemma {:induction false} FreshCost(litLens: seq<nat>, distLens: seq<nat>)
      requires L_CODES <= |litLens| && D_CODES <= |distLens|
      ensures Cost(FreshLit(), litLens, LitExtra()) == litLens[END_BLOCK]
      ensures Cost(Zeros(D_CODES), distLens, DistExtra()) == 0
    {
      hide Cost, FreshLit, Zeros;
      CostOne(FreshLit(), litLens, LitExtra(), END_BLOCK);
      CostZero(Zeros(D_CODES), distLens, DistExtra());
    }

    /** The static codes cover everything. */
    lemma {:induction false} StaticCost()
      requires Described() && tables.Valid() && SymbolsOk()
      ensures AllSendable(Map(), FixedLitLens(), StaticDistLens(), items)
      ensures |lDesc.StaticLens()| == L_CODES && |dDesc.StaticLens()| == D_CODES
      ensures Cost(LitFreqs(Map(), FreshLit(), items), lDesc.StaticLens(), LitExtra())
            + Cost(DistFreqs(Map(), Zeros(D_CODES), items), dDesc.StaticLens(), DistExtra())
           == |EncodeItems(Map(), FixedLitLens(), StaticDistLens(), items)| + 7
    {
      hide GoodMap, FreshLit, Zeros, LitFreqs, DistFreqs, Cost, EncodeItems, LengthCoded, DistCoded, CodeOf, Kraft;
      DescribedFacts();
      StaticColumns();
      hide Described, tables.Valid;
      PlanSends(Map(), items, FixedLitLens(), StaticDistLens(), FixedLitLens(), StaticDistLens());
      PlanCost(Map(), items, FixedLitLens(), StaticDistLens(), FixedLitLens(), StaticDistLens());
      CostSame(LitFreqs(Map(), FreshLit(), items), lDesc.StaticLens(), FixedLitLens(), LitExtra());
      CostSame(DistFreqs(Map(), Zeros(D_CODES), items), dDesc.StaticLens(), StaticDistLens(), DistExtra());
    }

    lemma {:induction false} StaticColumns()
      requires Described() && tables.Valid()
      ensures |lDesc.StaticLens()| == L_CODES
              && forall s :: 0 <= s < L_CODES ==> lDesc.StaticLens()[s] == FixedLitLens()[s]
      ensures |dDesc.StaticLens()| == D_CODES
              && forall s :: 0 <= s < D_CODES ==> dDesc.StaticLens()[s] == StaticDistLens()[s]
    {
      hide LengthCoded, DistCoded, CodeOf, Kraft, FixedLitLens, StaticDistLens, Pow2;
    }

    /** The codes of both trees, what they can send and what it costs. */
    ghost predicate TwoTrees(lit: seq<nat>, dist: seq<nat>)
      reads this, g, lDesc, dDesc, lDesc.dynTree, dDesc.dynTree, tables.lengthCode, tables.distCode
    {
      && lDesc.maxCode < L_CODES && dDesc.maxCode < D_CODES && |lit| == lDesc.maxCode + 1 && |dist| == dDesc.maxCode + 1
      && HasCodes(lDesc.dynTree[..], lit) && HasCodes(dDesc.dynTree[..], dist)
      && END_BLOCK < |lit| && lit[END_BLOCK] > 0
      && AllSendable(Map(), lit, dist, items)
      && g.optLen == |EncodeItems(Map(), lit, dist, items)| + lit[END_BLOCK]
    }

    /** The literal/length tree and the distance tree. */
    method BuildTwo(ghost litFreq: seq<nat>, ghost distFreq: seq<nat>)
      returns (ghost lit: seq<nat>, ghost dist: seq<nat>)
      requires Described() && Distinct() && q.Settled() && Core() && Counting() && |items| < LIT_BUFSIZE
      requires litFreq == LitFreqs(Map(), FreshLit(), items) && distFreq == DistFreqs(Map(), Zeros(D_CODES), items)
      requires g.optLen == 0 && g.staticLen == 0
      modifies lDesc, dDesc, q, q.heap, q.depth, lDesc.dynTree, dDesc.dynTree, g`optLen, g`staticLen, g.blCount
      ensures q.Settled() && TwoTrees(lit, dist) && StaticPriced()
      ensures HuffmanCode(litFreq, MAX_BITS, lit) && HuffmanCode(distFreq, MAX_BITS, dist)
      ensures Freqs(blDesc.dynTree[..], BL_CODES) == Zeros(BL_CODES)
    {
      hide *;
      Separate();
      DescribedFacts();
      CoreFacts();
      CountingFacts();
      StaticCost();
      ghost var litLens := BuildLit();
      ghost var distLens := BuildDist();
      BuiltFacts(litLens, distLens);
      lit, dist := litLens[..lDesc.maxCode + 1], distLens[..dDesc.maxCode + 1];
      PlanSends(Map(), items, litLens, distLens, lit, dist);
      EndCovered(Map(), items, litLens, lit);
      PlanCost(Map(), items, litLens, distLens, lit, dist);
      NowTwoTrees(lit, dist);
    }

    lemma {:induction false} CountingFacts()
      requires Described()
      ensures Counting() ==> SymbolsOk() && GoodMap(Map()) && GoodItems(items)
      ensures Counting() ==>
                forall i :: 0 <= i < |items| ==>
                          GoodItem(items[i]) && LitSymbol(Map(), items[i]) < L_CODES
                              && (items[i].Match? ==> DistSymbol(Map(), items[i]) < D_CODES)
      ensures Counting() ==> Freqs(lDesc.dynTree[..], L_CODES) == LitFreqs(Map(), FreshLit(), items)
      ensures Counting() ==>
                Freqs(dDesc.dynTree[..], D_CODES) == DistFreqs(Map(), Zeros(D_CODES), items)
                    && Freqs(blDesc.dynTree[..], BL_CODES) == Zeros(BL_CODES)
    {
      hide GoodMap, FreshLit, Zeros, LitFreqs, DistFreqs;
    }

    lemma {:induction false} BuiltFacts(litLens: seq<nat>, distLens: seq<nat>)
      requires LitBuilt(litLens) && DistBuilt(distLens)
      ensures |litLens| == L_CODES && lDesc.maxCode < L_CODES
              && HasCodes(lDesc.dynTree[..], litLens[..lDesc.maxCode + 1])
      ensures forall s :: lDesc.maxCode < s < L_CODES ==> litLens[s] == 0
      ensures |distLens| == D_CODES && dDesc.maxCode < D_CODES
              && HasCodes(dDesc.dynTree[..], distLens[..dDesc.maxCode + 1])
      ensures forall s :: dDesc.maxCode < s < D_CODES ==> distLens[s] == 0
    {
    }

    lemma {:induction false} NowTwoTrees(lit: seq<nat>, dist: seq<nat>)
      requires lDesc.maxCode < L_CODES && dDesc.maxCode < D_CODES && |lit| == lDesc.maxCode + 1
              && |dist| == dDesc.maxCode + 1
      requires HasCodes(lDesc.dynTree[..], lit) && HasCodes(dDesc.dynTree[..], dist) && END_BLOCK < |lit|
              && lit[END_BLOCK] > 0
      requires AllSendable(Map(), lit, dist, items) && AllSendable(Map(), FixedLitLens(), StaticDistLens(), items)
      ensures g.optLen == |EncodeItems(Map(), lit, dist, items)| + lit[END_BLOCK] ==> TwoTrees(lit, dist)
      ensures g.staticLen == |EncodeItems(Map(), FixedLitLens(), StaticDistLens(), items)| + 7 ==> StaticPriced()
    {
      hide AllSendable, EncodeItems, HasCodes, FixedLitLens, StaticDistLens;
    }

    /** The three trees and the plan for a dynamic block. */
    method BuildPlan(ghost litFreq: seq<nat>, ghost distFreq: seq<nat>) returns (maxBlindex: nat, ghost p: Plan)
      requires Described() && Distinct() && q.Settled() && Core() && Counting() && |items| < LIT_BUFSIZE
      requires litFreq == LitFreqs(Map(), FreshLit(), items) && distFreq == DistFreqs(Map(), Zeros(D_CODES), items)
      requires g.optLen == 0 && g.staticLen == 0
      modifies lDesc, dDesc, blDesc, q, q.heap, q.depth, lDesc.dynTree, dDesc.dynTree, blDesc.dynTree, g`optLen,
          g`staticLen, g.blCount
      ensures q.Settled() && Ready(p) && p.blcodes == maxBlindex + 1 && DynamicPriced(p) && StaticPriced()
      ensures HuffmanPlan(litFreq, distFreq, p)
    {
      hide *;
      Separate();
      DescribedFacts();
      ghost var lit, dist, bl;
      lit, dist := BuildTwo(litFreq, distFreq);
      TwoTreesFacts(lit, dist);
      StaticFacts();
      maxBlindex, bl := BuildBlTree(lit, dist);
      p := Plan(lit, dist, bl, maxBlindex + 1);
      NowHuffmanPlan(litFreq, distFreq, p);
      PlanSize(p);
      NowReady(p);
      StaticFacts();
    }

    /** The first half of flush_block: the three trees, the plan for a dynamic block and the exact costs. */
    method BuildAll() returns (maxBlindex: nat, ghost p: Plan)
      requires Described() && Distinct() && q.Settled() && Core() && Counting() && |items| < LIT_BUFSIZE
      requires g.optLen == 0 && g.staticLen == 0
      modifies lDesc, dDesc, blDesc, q, q.heap, q.depth, lDesc.dynTree, dDesc.dynTree, blDesc.dynTree, g`optLen,
          g`staticLen, g.blCount
      ensures q.Settled() && Ready(p) && p.blcodes == maxBlindex + 1 && DynamicPriced(p) && StaticPriced()
      ensures Costed(old(Map()), old(items), p, g.staticLen, g.optLen)
    {
      hide *;
      Separate();
      CountsRange();
      ghost var cm := Map();
      ghost var litFreq, distFreq := Counts(cm, items);
      maxBlindex, p := BuildPlan(litFreq, distFreq);
      assert Map() == cm;
      NowFor(cm, items, litFreq, distFreq, p);
      NowCosted(p);
    }

    lemma {:induction false} CountsRange()
      requires Described() && Counting()
      ensures SymbolsOk() && InRange(Map(), items)
    {
    }

    lemma {:induction false} NowCosted(p: Plan)
      requires InRange(Map(), items) && DynamicPriced(p) && StaticPriced()
      requires HuffmanFor(Map(), items, p)
      ensures Costed(Map(), items, p, g.staticLen, g.optLen)
    {
      hide HuffmanFor, TreeBits, EncodeItems, AllSendable, InRange;
    }

    /** How often each symbol occurs, with one end of block. */
    static lemma {:induction false} Counts(cm: CodeMap, items: seq<Item>)
      returns (litFreq: seq<nat>, distFreq: seq<nat>)
      requires InRange(cm, items)
      ensures litFreq == LitFreqs(cm, FreshLit(), items) && distFreq == DistFreqs(cm, Zeros(D_CODES), items)
    {
      litFreq, distFreq := LitFreqs(cm, FreshLit(), items), DistFreqs(cm, Zeros(D_CODES), items);
    }

    static lemma {:induction false} NowFor(cm: CodeMap, items: seq<Item>, litFreq: seq<nat>, distFreq: seq<nat>,
        p: Plan)
      requires InRange(cm, items)
      requires litFreq == LitFreqs(cm, FreshLit(), items) && distFreq == DistFreqs(cm, Zeros(D_CODES), items)
      requires HuffmanPlan(litFreq, distFreq, p)
      ensures HuffmanFor(cm, items, p)
    {
      hide HuffmanPlan;
    }

    lemma {:induction false} StaticFacts()
      ensures StaticPriced() <==>
                && AllSendable(Map(), FixedLitLens(), StaticDistLens(), items)
                && g.staticLen == |EncodeItems(Map(), FixedLitLens(), StaticDistLens(), items)| + 7
    {
    }

    lemma {:induction false} TwoTreesFacts(lit: seq<nat>, dist: seq<nat>)
      requires TwoTrees(lit, dist)
      ensures lDesc.maxCode < L_CODES && dDesc.maxCode < D_CODES && |lit| == lDesc.maxCode + 1
              && |dist| == dDesc.maxCode + 1 && 257 <= |lit|
      ensures HasCodes(lDesc.dynTree[..], lit) && HasCodes(dDesc.dynTree[..], dist) && END_BLOCK < |lit|
              && lit[END_BLOCK] > 0
      ensures AllSendable(Map(), lit, dist, items)
              && g.optLen == |EncodeItems(Map(), lit, dist, items)| + lit[END_BLOCK]
    {
    }

    lemma {:induction false} NowReady(p: Plan)
      requires Described() && DynamicCodes(p.lit, p.dist, p.bl, p.blcodes) && lDesc.maxCode + 1 == |p.lit|
              && dDesc.maxCode + 1 == |p.dist|
      requires HasCodes(lDesc.dynTree[..], p.lit) && HasCodes(dDesc.dynTree[..], p.dist)
              && HasCodes(blDesc.dynTree[..], p.bl)
      requires AllSendable(Map(), p.lit, p.dist, items)
      requires lDesc.dynTree[..][|p.lit|].dl == GUARD && dDesc.dynTree[..][|p.dist|].dl == GUARD
      ensures Ready(p)
      ensures var size := |TreeBits(p.lit, p.dist, p.bl, p.blcodes)| + |EncodeItems(Map(), p.lit, p.dist, items)|;
              g.optLen == size + p.lit[END_BLOCK] ==> DynamicPriced(p)
    {
      hide HasCodes, AllSendable, TreeBits, EncodeItems, AllRuns, CodeLengthOrder;
    }

    lemma {:induction false} PlanSize(p: Plan)
      requires Described()
      requires HasCodes(lDesc.dynTree[..], p.lit) && HasCodes(dDesc.dynTree[..], p.dist)
      requires 257 <= |p.lit| <= L_CODES && 1 <= |p.dist| <= D_CODES && p.lit[END_BLOCK] > 0
      requires |p.bl| == BL_CODES && 4 <= p.blcodes <= BL_CODES && (forall s :: 0 <= s < 19 ==> p.bl[s] < 8)
      requires forall r :: p.blcodes <= r < 19 ==> LenAt(p.bl, CodeLengthOrder()[r]) == 0
      requires Covers(p.bl, AllRuns(p.lit)) && Covers(p.bl, AllRuns(p.dist))
      ensures DynamicCodes(p.lit, p.dist, p.bl, p.blcodes)
      ensures |TreeBits(p.lit, p.dist, p.bl, p.blcodes)|
              == 14 + 3 * p.blcodes + |EncodeRuns(p.bl, AllRuns(p.lit))| + |EncodeRuns(p.bl, AllRuns(p.dist))|
    {
      hide CodeOf, AllRuns, EncodeRuns, CodeLengthOrder, Lens3Bits, BitsOf, Described;
      Lens3Size(InOrder(p.bl, p.blcodes));
    }

    // ----- sending a block

    /** The counts and the lengths of the code length code. */
    method SendCounts(lcodes: nat, dcodes: nat, blcodes: nat, ghost bl: seq<nat>)
      requires Described() && Distinct() && w.Valid() && 257 <= lcodes <= 286 && 1 <= dcodes <= 30 && 4 <= blcodes <= 19
      requires |bl| == BL_CODES && forall s :: 0 <= s < BL_CODES ==> bl[s] < 8 && blDesc.dynTree[..][s].dl == bl[s]
      modifies w, w.outbuf
      ensures w.Valid() && w.Contents() == old(w.Contents()) + CountBits(lcodes, dcodes, blcodes, bl)
    {
      hide *;
      DescribedFacts();
      ghost var before := w.Contents();
      CountWidths(lcodes, dcodes, blcodes, bl);
      w.SendBits(lcodes - 257, 5);
      w.SendBits(dcodes - 1, 5);
      w.SendBits(blcodes - 4, 4);
      SendBlLens(blcodes, bl);
      RegroupCounts(before, BitsOf(lcodes - 257, 5), BitsOf(dcodes - 1, 5), BitsOf(blcodes - 4, 4),
              Lens3Bits(InOrder(bl, blcodes)));
    }

    /** send_all_trees: the counts, the lengths of the code length code and the two trees. */
    method SendAllTrees(lcodes: nat, dcodes: nat, blcodes: nat, ghost p: Plan)
      requires Described() && Distinct() && w.Valid() && Ready(p) && lcodes == |p.lit| && dcodes == |p.dist|
              && blcodes == p.blcodes
      modifies w, w.outbuf
      ensures w.Valid() && w.Contents() == old(w.Contents()) + TreeBits(p.lit, p.dist, p.bl, p.blcodes)
    {
      hide HasCodes, AllRuns, EncodeRuns, Covers, CodeLengthOrder, w.Valid, w.Contents, SmallLens, AllSendable,
          GoodMap, CountBits, Kraft;
      DescribedFacts();
      ghost var before := w.Contents();
      CodedLens(lDesc.dynTree[..], p.lit);
      CodedLens(dDesc.dynTree[..], p.dist);
      CodedDecodable(blDesc.dynTree[..], p.bl);
      PlanCovered(p);
      SendCounts(lcodes, dcodes, blcodes, p.bl);
      hide Described;
      SendTree(w, lDesc.dynTree, lcodes - 1, blDesc.dynTree, p.bl);
      SendTree(w, dDesc.dynTree, dcodes - 1, blDesc.dynTree, p.bl);
      RegroupTrees(before, CountBits(lcodes, dcodes, blcodes, p.bl), EncodeRuns(p.bl, AllRuns(p.lit)),
              EncodeRuns(p.bl, AllRuns(p.dist)));
    }

    static lemma {:induction false} PlanCovered(p: Plan)
      requires DynamicCodes(p.lit, p.dist, p.bl, p.blcodes)
      ensures |p.bl| == BL_CODES
      ensures forall i :: 0 <= i < |AllRuns(p.lit)| ==> AllRuns(p.lit)[i].symbol < |p.bl|
      ensures forall i :: 0 <= i < |AllRuns(p.dist)| ==> AllRuns(p.dist)[i].symbol < |p.bl|
    {
      hide AllRuns, Kraft;
    }

    static lemma {:induction false} CountWidths(lcodes: nat, dcodes: nat, blcodes: nat, bl: seq<nat>)
      requires 257 <= lcodes <= 286 && 1 <= dcodes <= 30 && 4 <= blcodes <= 19 && |bl| == BL_CODES
      ensures lcodes - 257 < Pow2(5) && dcodes - 1 < Pow2(5) && blcodes - 4 < Pow2(4)
      ensures BL_CODES == 19 && 5 <= BUF_SIZE
      ensures CountBits(lcodes, dcodes, blcodes, bl)
              == BitsOf(lcodes - 257, 5)
                  + (BitsOf(dcodes - 1, 5) + (BitsOf(blcodes - 4, 4) + Lens3Bits(InOrder(bl, blcodes))))
    {
      hide BitsOf, Lens3Bits, InOrder;
      Pow2Values();
    }

    static lemma {:induction false} RegroupCounts(s: seq<bool>, a: seq<bool>, b: seq<bool>, c: seq<bool>, d: seq<bool>)
      ensures s + a + b + c + d == s + (a + (b + (c + d)))
    {
    }

    static lemma {:induction false} RegroupTrees(s: seq<bool>, a: seq<bool>, b: seq<bool>, c: seq<bool>)
      ensures s + a + b + c == s + (a + (b + c))
    {
    }

    /** Sends the first blcodes lengths of the code length code in order. */
    method SendBlLens(blcodes: nat, ghost bl: seq<nat>)
      requires Described() && Distinct() && w.Valid() && |bl| == BL_CODES && blcodes <= BL_CODES
      requires forall s :: 0 <= s < BL_CODES ==> bl[s] < 8 && blDesc.dynTree[s].dl == bl[s]
      modifies w, w.outbuf
      ensures w.Valid() && w.Contents() == old(w.Contents()) + Lens3Bits(InOrder(bl, blcodes))
    {
      hide BitsOf, ByteBits, w.Valid, w.Contents, CodeLengthOrder, Described, Distinct, Pow2, Lens3Bits;
      DescribedFacts();
      OrderRange();
      ghost var vals := InOrder(bl, blcodes);
      ghost var goal := w.Contents() + Lens3Bits(vals);
      EightIsCube();
      assert vals[0..] == vals;
      var rank := 0;
      while rank < blcodes
        invariant 0 <= rank <= blcodes && w.Valid()
        invariant w.Contents() + Lens3Bits(vals[rank..]) == goal
      {
        Lens3Next(vals, rank, w.Contents());
        w.SendBits(blDesc.dynTree[CodeLengthOrder()[rank]].dl, 3);
        rank := rank + 1;
      }
      Lens3End(vals, w.Contents());
    }

    static lemma {:induction false} EightIsCube()
      ensures Pow2(3) == 8
    {
    }

    static lemma {:induction false} Lens3Next(vals: seq<nat>, r: nat, s: seq<bool>)
      requires r < |vals|
      ensures s + Lens3Bits(vals[r..]) == s + BitsOf(vals[r], 3) + Lens3Bits(vals[r + 1..])
    {
      assert vals[r..][1..] == vals[r + 1..];
      ConcatAssoc(s, BitsOf(vals[r], 3), Lens3Bits(vals[r + 1..]));
    }

    static lemma {:induction false} Lens3End(vals: seq<nat>, s: seq<bool>)
      ensures s + Lens3Bits(vals[|vals|..]) == s
    {
    }

    /** The three bits that open a block. */
    method SendStart(kind: nat, eof: bool)
      requires w.Valid() && kind < 3
      modifies w, w.outbuf
      ensures w.Valid() && w.Contents() == old(w.Contents()) + StartBits(kind, eof)
    {
      hide BitsOf, ByteBits, w.Valid, w.Contents;
      EightIsCube();
      w.SendBits(kind * 2 + if eof then 1 else 0, 3);
    }

    /** The trees have been built, the buffers are complete, and the costs of both ways of
        coding the block are exact. */
    ghost predicate Planned(maxBlindex: nat, p: Plan)
      reads Repr(), tables.lengthCode, tables.distCode, tables.baseLength, tables.baseDist, tables.staticLtree,
          tables.staticDtree
    {
      && Described() && Distinct() && Core() && q.Settled() && BuffersSaved()
      && Ready(p) && p.blcodes == maxBlindex + 1 && DynamicPriced(p) && StaticPriced()
    }

    /** Sends the block as it is. */
    method SendStored(window: array<byte>, blockStart: int, storedLen: nat, eof: bool, ghost out: seq<byte>,
        ghost data: seq<byte>)
      requires w.Valid() && window != w.outbuf && compressedLen == |w.Contents()| && 0 <= blockStart
      requires storedLen == |data| < 65536 && blockStart + storedLen <= window.Length
              && window[blockStart..blockStart + storedLen] == data
      modifies this`compressedLen, w, w.outbuf
      ensures w.Valid() && compressedLen == |w.Contents()|
              && Decodes(old(w.Contents()), w.Contents(), out, out + data, eof)
      ensures compressedLen == old(compressedLen) + StoredSize(old(compressedLen), storedLen)
    {
      hide BitsOf, ByteBits, w.Valid, w.Contents, StartBits, Decodes;
      ghost var before := w.Contents();
      StartSize(0, eof);
      SendStart(0, eof);
      compressedLen := (compressedLen + 3 + 7) / 8 * 8;
      compressedLen := compressedLen + (storedLen + 4) * 8;
      w.CopyBlock(window, blockStart, storedLen);
      StoredDecodes(before, eof, out, data);
      StoredIsSize(|before| + 3, data);
    }

    static lemma {:induction false} StoredIsSize(n: nat, data: seq<byte>)
      ensures |StoredBits(n, |data|, data)| == Padding(n) + 32 + 8 * |data|
      ensures n + Padding(n) == (n + 7) / 8 * 8
    {
      hide BitsOf, ByteBits;
    }

    /** Sends the block with the fixed codes. */
    method SendStatic(eof: bool, ghost out: seq<byte>, ghost maxBlindex: nat, ghost p: Plan)
      requires w.Valid() && Planned(maxBlindex, p) && ApplyAll(out, items).Some?
      modifies this`compressedLen, w, w.outbuf
      ensures w.Valid() && compressedLen == |w.Contents()|
      ensures compressedLen == old(compressedLen) + 3 + old(g.staticLen)
      ensures Decodes(old(w.Contents()), w.Contents(), out, ApplyAll(out, items).value, eof)
    {
      hide *;
      StaticParts(maxBlindex, p);
      ghost var before := w.Contents();
      StartSize(1, eof);
      SizeOfCodeword();
      SendStart(1, eof);
      CompressBlock(w, tables, buf.lBuf, buf.dBuf, buf.flagBuf, buf.lastLit, tables.staticLtree, tables.staticDtree,
              Map(), FixedLitLens(), StaticDistLens(), items);
      compressedLen := compressedLen + 3 + g.staticLen;
      StaticDecodes(before, eof, out, Map(), items);
    }

    lemma {:induction false} StaticParts(maxBlindex: nat, p: Plan)
      requires Planned(maxBlindex, p)
      ensures tables.Valid() && HasCodes(tables.staticLtree[..], FixedLitLens())
              && HasCodes(tables.staticDtree[..], StaticDistLens())
      ensures Saved(items, buf.lBuf[..], buf.dBuf[..], buf.flagBuf[..]) && buf.lastLit == |items|
      ensures AllSendable(Map(), FixedLitLens(), StaticDistLens(), items)
      ensures g.staticLen == |EncodeItems(Map(), FixedLitLens(), StaticDistLens(), items)| + 7
      ensures w.Valid() && compressedLen == |w.Contents()| && END_BLOCK < |FixedLitLens()|
    {
    }

    /** Sends the block with its own codes. */
    method SendDynamic(maxBlindex: nat, eof: bool, ghost out: seq<byte>, ghost p: Plan)
      requires w.Valid() && Planned(maxBlindex, p) && ApplyAll(out, items).Some?
      modifies this`compressedLen, w, w.outbuf
      ensures w.Valid() && compressedLen == |w.Contents()|
      ensures compressedLen == old(compressedLen) + 3 + old(g.optLen)
      ensures Decodes(old(w.Contents()), w.Contents(), out, ApplyAll(out, items).value, eof)
    {
      hide *;
      DynamicParts(maxBlindex, p);
      ghost var before := w.Contents();
      PlanCovered(p);
      StartSize(2, eof);
      SendStart(2, eof);
      SendAllTrees(lDesc.maxCode + 1, dDesc.maxCode + 1, maxBlindex + 1, p);
      CompressBlock(w, tables, buf.lBuf, buf.dBuf, buf.flagBuf, buf.lastLit, lDesc.dynTree, dDesc.dynTree, Map(),
              p.lit, p.dist, items);
      compressedLen := compressedLen + 3 + g.optLen;
      ConcatAssoc(before + StartBits(2, eof), TreeBits(p.lit, p.dist, p.bl, p.blcodes),
              EncodeItems(Map(), p.lit, p.dist, items) + Codeword(p.lit, END_BLOCK));
      DynamicDecodes(before, eof, out, Map(), p.lit, p.dist, p.bl, p.blcodes, items);
    }

    lemma {:induction false} DynamicParts(maxBlindex: nat, p: Plan)
      requires Planned(maxBlindex, p)
      ensures Described() && Distinct() && Ready(p) && p.blcodes == maxBlindex + 1
      ensures DynamicCodes(p.lit, p.dist, p.bl, p.blcodes) && |p.lit| == lDesc.maxCode + 1
              && |p.dist| == dDesc.maxCode + 1
      ensures 257 <= |p.lit| && 1 <= |p.dist| && |p.bl| == 19 && 4 <= p.blcodes <= 19 && 0 <= END_BLOCK < |p.lit|
              && p.lit[END_BLOCK] > 0
      ensures tables.Valid() && HasCodes(lDesc.dynTree[..], p.lit) && HasCodes(dDesc.dynTree[..], p.dist)
      ensures Saved(items, buf.lBuf[..], buf.dBuf[..], buf.flagBuf[..]) && buf.lastLit == |items|
      ensures AllSendable(Map(), p.lit, p.dist, items)
      ensures w.Valid() && compressedLen == |w.Contents()|
      ensures g.optLen == |TreeBits(p.lit, p.dist, p.bl, p.blcodes)| + |EncodeItems(Map(), p.lit, p.dist, items)|
              + p.lit[END_BLOCK]
    {
    }

    /** The buffers are complete. */
    ghost predicate BuffersSaved()
      reads this, buf, buf.lBuf, buf.dBuf, buf.flagBuf
    {
      Saved(items, buf.lBuf[..], buf.dBuf[..], buf.flagBuf[..]) && buf.lastLit == |items| < LIT_BUFSIZE && buf.Sized()
    }

    lemma {:induction false} ValidParts()
      ensures Valid() ==>
                Described() && Distinct() && Core() && w.Valid() && q.Settled() && Counting() && buf.Holds(items)
      ensures Valid() ==> g.optLen == 0 && g.staticLen == 0 && |items| < LIT_BUFSIZE
    {
    }

    lemma {:induction false} NowPlanned(maxBlindex: nat, p: Plan)
      requires Described()
      ensures Distinct() && Core() && q.Settled() && BuffersSaved() && Ready(p) && p.blcodes == maxBlindex + 1
              && DynamicPriced(p) && StaticPriced()
              ==> Planned(maxBlindex, p)
    {
    }

    lemma {:induction false} NowSaved()
      ensures && Saved(items, buf.lBuf[..], buf.dBuf[..], buf.flagBuf[..])
              && buf.lastLit == |items| < LIT_BUFSIZE && buf.Sized()
              ==> BuffersSaved()
    {
    }

    /** Saves the last flags. */
    method SaveRest()
      requires Core() && buf.Holds(items) && Described() && Distinct() && Counting() && q.Settled()
      modifies buf.flagBuf
      ensures Core() && BuffersSaved() && Counting() && q.Settled()
    {
      hide *;
      Separate();
      HeldSize(items);
      buf.SaveFlags(items);
      NowSaved();
    }

    /** Completes the buffers and builds the trees. */
    method Prepare() returns (maxBlindex: nat, ghost p: Plan)
      requires Valid()
      modifies buf.flagBuf, lDesc, dDesc, blDesc, q, q.heap, q.depth, lDesc.dynTree, dDesc.dynTree, blDesc.dynTree,
          g`optLen, g`staticLen, g.blCount
      ensures w.Valid() && w.Contents() == old(w.Contents()) && Planned(maxBlindex, p)
      ensures Costed(old(Map()), old(items), p, g.staticLen, g.optLen)
    {
      hide *;
      ValidParts();
      Separate();
      SaveRest();
      maxBlindex, p := BuildAll();
      NowPlanned(maxBlindex, p);
    }

    /** Picks the kind of block by its exact cost in bytes and sends it. */
    method SendBest(window: array<byte>, blockStart: int, storedLen: nat, eof: bool, maxBlindex: nat, ghost p: Plan,
        ghost out: seq<byte>, ghost data: seq<byte>)
      requires w.Valid() && Planned(maxBlindex, p) && window != w.outbuf && storedLen == |data|
      requires 0 <= blockStart ==>
                storedLen < 65536 && blockStart + storedLen <= window.Length
                    && window[blockStart..blockStart + storedLen] == data
      requires ApplyAll(out, items) == Some(out + data)
      modifies this`compressedLen, w, w.outbuf
      ensures Core() && w.Valid() && Decodes(old(w.Contents()), w.Contents(), out, out + data, eof)
      ensures compressedLen == |w.Contents()| && |old(w.Contents())| == old(compressedLen) <= compressedLen
      ensures old(g.staticLen) >= 0 && old(g.optLen) >= 0
      ensures Choice(old(compressedLen), compressedLen - old(compressedLen), storedLen, 0 <= blockStart,
                     old(g.staticLen), old(g.optLen))
    {
      hide *;
      CompressedSoFar(maxBlindex, p);
      PlannedPrice(maxBlindex, p);
      var optLenb := (g.optLen + 3 + 7) / 8;
      var staticLenb := (g.staticLen + 3 + 7) / 8;
      if staticLenb <= optLenb { optLenb := staticLenb; }
      Chosen(compressedLen, storedLen, 0 <= blockStart, g.staticLen, g.optLen, optLenb);
      if storedLen + 4 <= optLenb && 0 <= blockStart {
        SendStored(window, blockStart, storedLen, eof, out, data);
      } else if staticLenb == optLenb {
        SendStatic(eof, out, maxBlindex, p);
      } else {
        SendDynamic(maxBlindex, eof, out, p);
      }
      CoreAgain();
    }

    /** The three cases of the choice, as flush_block computes them. */
    static lemma {:induction false} Chosen(n: nat, len: nat, inWindow: bool, fixed: nat, own: nat, least: int)
      requires least <= (fixed + 3 + 7) / 8 && least <= (own + 3 + 7) / 8
      requires least == (fixed + 3 + 7) / 8 || least == (own + 3 + 7) / 8
      ensures len + 4 <= least && inWindow ==> Choice(n, StoredSize(n, len), len, inWindow, fixed, own)
      ensures !(len + 4 <= least && inWindow) && (fixed + 3 + 7) / 8 == least ==>
                Choice(n, 3 + fixed, len, inWindow, fixed, own)
      ensures !(len + 4 <= least && inWindow) && (fixed + 3 + 7) / 8 != least ==>
                Choice(n, 3 + own, len, inWindow, fixed, own)
    {
    }

    lemma {:induction false} CoreAgain()
      requires w.Valid() && compressedLen == |w.Contents()| && tables.Valid() && GoodMap(Map())
      ensures Core()
    {
    }

    lemma {:induction false} PlannedKeeps(maxBlindex: nat, p: Plan)
      requires Planned(maxBlindex, p)
      ensures Described() && Distinct() && Core() && q.Settled() && buf.Sized()
    {
    }

    lemma {:induction false} CompressedSoFar(maxBlindex: nat, p: Plan)
      requires Planned(maxBlindex, p)
      ensures w.Valid() && compressedLen == |w.Contents()| && tables.Valid() && GoodMap(Map())
    {
    }

    /** flush_block without its last steps: builds the trees and sends the block. */
    method SendBlock(window: array<byte>, blockStart: int, storedLen: nat, eof: bool, ghost out: seq<byte>,
        ghost data: seq<byte>)
      requires Valid() && window != w.outbuf && storedLen == |data|
      requires 0 <= blockStart ==>
                storedLen < 65536 && blockStart + storedLen <= window.Length
                    && window[blockStart..blockStart + storedLen] == data
      requires ApplyAll(out, items) == Some(out + data)
      modifies this`compressedLen, w, w.outbuf, buf.flagBuf, lDesc, dDesc, blDesc, q, q.heap, q.depth, lDesc.dynTree,
          dDesc.dynTree, blDesc.dynTree, g`optLen, g`staticLen, g.blCount
      ensures Described() && Distinct() && Core() && q.Settled() && buf.Sized()
      ensures w.Valid() && Decodes(old(w.Contents()), w.Contents(), out, out + data, eof)
      ensures |old(w.Contents())| <= |w.Contents()|
      ensures SentAsChosen(old(Map()), old(items), |old(w.Contents())|, |w.Contents()| - |old(w.Contents())|, storedLen,
                           0 <= blockStart)
    {
      hide *;
      ValidParts();
      ghost var cm, its, n := Map(), items, |w.Contents()|;
      var maxBlindex;
      ghost var p;
      maxBlindex, p := Prepare();
      PlannedKeeps(maxBlindex, p);
      ghost var fixed, own := g.staticLen, g.optLen;
      CostedFacts(cm, its, p, fixed, own);
      SendBest(window, blockStart, storedLen, eof, maxBlindex, p, out, data);
      NowChosen(cm, its, p, fixed, own, n, |w.Contents()| - n, storedLen, 0 <= blockStart);
    }

    lemma {:induction false} PlannedPrice(maxBlindex: nat, p: Plan)
      requires Planned(maxBlindex, p)
      ensures g.staticLen >= 0 && g.optLen >= 0
    {
    }

    /** Sends the block and empties the buffers for the next one. */
    method SendAndClear(window: array<byte>, blockStart: int, storedLen: nat, eof: bool, ghost out: seq<byte>,
        ghost data: seq<byte>)
      requires Valid() && w.Valid() && window != w.outbuf && storedLen == |data|
      requires 0 <= blockStart ==>
                storedLen < 65536 && blockStart + storedLen <= window.Length
                    && window[blockStart..blockStart + storedLen] == data
      requires ApplyAll(out, items) == Some(out + data)
      modifies Repr()
      ensures Described() && Distinct() && Core() && q.Settled() && buf.Holds(items) && Counting()
      ensures g.optLen == 0 && g.staticLen == 0 && items == []
      ensures w.Valid() && compressedLen == |w.Contents()|
              && Decodes(old(w.Contents()), w.Contents(), out, out + data, eof)
      ensures |old(w.Contents())| <= |w.Contents()|
      ensures SentAsChosen(old(Map()), old(items), |old(w.Contents())|, |w.Contents()| - |old(w.Contents())|, storedLen,
                           0 <= blockStart)
    {
      hide *;
      ReprHas();
      ValidParts();
      SendBlock(window, blockStart, storedLen, eof, out, data);
      CoreFacts();
      ClearBlock();
    }

    /** init_block, which does not touch the bits sent. */
    method ClearBlock()
      requires Described() && Distinct() && Core() && q.Settled() && buf.Sized() && w.Valid()
      modifies this`items, buf, g`optLen, g`staticLen, lDesc.dynTree, dDesc.dynTree, blDesc.dynTree
      ensures Core() && q.Settled() && buf.Holds(items) && Counting()
      ensures g.optLen == 0 && g.staticLen == 0 && items == []
      ensures w.Valid() && compressedLen == |w.Contents()| && w.Contents() == old(w.Contents())
    {
      hide *;
      Separate();
      CoreFacts();
      InitBlock();
    }

    /** flush_block: sends the items as a block that decodes to data, starts a new one, and returns the bytes produced
        so far. After the last block the stream ends on a byte boundary. The size of the block is the one that Choice
        tells for the codes of Huffman trees. */
    method FlushBlock(window: array<byte>, blockStart: int, storedLen: nat, eof: bool, ghost out: seq<byte>,
        ghost data: seq<byte>) returns (len: nat)
      requires Valid() && window != w.outbuf && storedLen == |data|
      requires 0 <= blockStart ==>
                storedLen < 65536 && blockStart + storedLen <= window.Length
                    && window[blockStart..blockStart + storedLen] == data
      requires ApplyAll(out, items) == Some(out + data)
      modifies Repr()
      ensures w.Valid() && Decodes(old(w.Contents()), w.Contents(), out, out + data, eof)
      ensures !eof ==> Valid() && items == [] && len == |w.Contents()| / 8
      ensures eof ==> w.biValid == 0 && |w.Contents()| == 8 * len
      ensures var n, inWindow := |old(w.Contents())|, 0 <= blockStart;
              exists size: nat ::
                && SentAsChosen(old(Map()), old(items), n, size, storedLen, inWindow)
                && |w.Contents()| == if eof then 8 * ((n + size + 7) / 8) else n + size
    {
      hide *;
      ReprHas();
      ValidParts();
      ghost var before := w.Contents();
      SendAndClear(window, blockStart, storedLen, eof, out, data);
      ghost var size := |w.Contents()| - |before|;
      if eof {
        WindUp(before, out, out + data);
      } else {
        ValidAgain();
      }
      len := compressedLen / 8;
      assert SentAsChosen(old(Map()), old(items), |before|, size, storedLen, 0 <= blockStart);
    }

    lemma {:induction false} ReprHas()
      ensures {this, w, w.outbuf as object, q, q.heap as object, q.depth as object, g, g.blCount as object} <= Repr()
      ensures {buf, buf.lBuf as object, buf.dBuf as object, buf.flagBuf as object, lDesc, dDesc, blDesc} <= Repr()
      ensures {lDesc.dynTree, dDesc.dynTree, blDesc.dynTree} <= Repr()
    {
    }

    lemma {:induction false} ValidAgain()
      ensures && Described() && Distinct() && Core() && q.Settled() && buf.Holds(items) && Counting()
              && g.optLen == 0 && g.staticLen == 0
              ==> Valid()
    {
    }

    /** Fills the last byte with zeros. */
    method WindUp(ghost before: seq<bool>, ghost out: seq<byte>, ghost out': seq<byte>)
      requires Core() && w.Valid() && Decodes(before, w.Contents(), out, out', true)
      modifies this`compressedLen, w, w.outbuf
      ensures w.Valid() && w.biValid == 0 && |w.Contents()| == 8 * (compressedLen / 8)
              && Decodes(before, w.Contents(), out, out', true)
      ensures |w.Contents()| == 8 * ((|old(w.Contents())| + 7) / 8)
    {
      hide BitsOf, ByteBits, w.Contents, tables.Valid, GoodMap, Decodes, Pow2;
      ghost var after := w.Contents();
      w.BiWindup();
      DecodesPadded(before, after, BitsOf(0, Padding(|after|)), out, out');
      compressedLen := compressedLen + 7;
      Rounded(|after|);
    }

    static lemma {:induction false} Rounded(n: nat)
      ensures n + Padding(n) == 8 * ((n + 7) / 8)
    {
    }

    // ----- one item

    /** Counts the symbols of an item. */
    method CountItem(dist: nat, lc: nat, ghost item: Item)
      requires Described() && Distinct() && Core() && Counting() && q.Settled() && buf.Holds(items + [item])
      requires GoodItem(item) && lc == LByte(item) && (if item.Match? then dist == item.distance else dist == 0)
      modifies this`items, lDesc.dynTree, dDesc.dynTree
      ensures items == old(items) + [item] && Counting() && Core() && q.Settled() && buf.Holds(items)
    {
      hide *;
      Separate();
      DescribedFacts();
      CoreFacts();
      CountingFacts();
      SymbolsOf(dist, lc, item);
      ghost var lt, dt, before := lDesc.dynTree[..], dDesc.dynTree[..], items;
      if dist == 0 {
        lDesc.dynTree[lc] := lDesc.dynTree[lc].(fc := lDesc.dynTree[lc].fc + 1);
        FreqBump(lt, lDesc.dynTree[..], lc, L_CODES);
      } else {
        var s := tables.lengthCode[lc] + LITERALS + 1;
        var d := tables.DCode(dist - 1);
        lDesc.dynTree[s] := lDesc.dynTree[s].(fc := lDesc.dynTree[s].fc + 1);
        FreqBump(lt, lDesc.dynTree[..], s, L_CODES);
        dDesc.dynTree[d] := dDesc.dynTree[d].(fc := dDesc.dynTree[d].fc + 1);
        FreqBump(dt, dDesc.dynTree[..], d, D_CODES);
      }
      items := items + [item];
      Counted(before, item);
    }

    /** The symbols of an item as ct_tally finds them. */
    lemma {:induction false} SymbolsOf(dist: nat, lc: nat, item: Item)
      requires Described() && GoodMap(Map()) && GoodItem(item) && lc == LByte(item)
              && (if item.Match? then dist == item.distance else dist == 0)
      ensures L_CODES <= lDesc.dynTree.Length && D_CODES <= dDesc.dynTree.Length && tables.Sized()
      ensures dist == 0 ==> item.Literal? && lc < L_CODES && lc == LitSymbol(Map(), item)
      ensures dist > 0 ==> item.Match? && lc < tables.lengthCode.Length && dist <= 32768
      ensures dist > 0 ==> 0 <= tables.lengthCode[lc] + LITERALS + 1 < L_CODES && tables.DCode(dist - 1) < D_CODES
      ensures dist > 0 ==>
                tables.lengthCode[lc] + LITERALS + 1 == LitSymbol(Map(), item)
                    && tables.DCode(dist - 1) == DistSymbol(Map(), item)
    {
      hide Pow2;
      if item.Match? {
        assert LengthRow(Map().len[lc], lc) && DistRow(Map().dist[DistIndex(dist - 1)], dist - 1);
      }
    }

    lemma {:induction false} Counted(before: seq<Item>, item: Item)
      requires Described() && items == before + [item] && GoodMap(Map()) && GoodItems(before) && GoodItem(item)
      requires forall i :: 0 <= i < |before| ==>
                GoodItem(before[i]) && LitSymbol(Map(), before[i]) < L_CODES
                    && (before[i].Match? ==> DistSymbol(Map(), before[i]) < D_CODES)
      requires LitSymbol(Map(), item) < L_CODES && (item.Match? ==> DistSymbol(Map(), item) < D_CODES)
      requires var f := LitFreqs(Map(), FreshLit(), before);
               Freqs(lDesc.dynTree[..], L_CODES) == f[LitSymbol(Map(), item) := f[LitSymbol(Map(), item)] + 1]
      requires var f := DistFreqs(Map(), Zeros(D_CODES), before);
               Freqs(dDesc.dynTree[..], D_CODES)
                   == if item.Match? then f[DistSymbol(Map(), item) := f[DistSymbol(Map(), item)] + 1] else f
      requires Freqs(blDesc.dynTree[..], BL_CODES) == Zeros(BL_CODES)
      ensures Counting()
    {
      hide GoodMap, FreshLit, LitFreqs, DistFreqs, Zeros;
      CountSnoc(Map(), before, item);
    }

    static lemma {:induction false} FreqBump(t: seq<CtData>, t': seq<CtData>, s: nat, n: nat)
      requires s < n <= |t| && t' == t[s := t[s].(fc := t[s].fc + 1)]
      ensures Freqs(t', n) == Freqs(t, n)[s := Freqs(t, n)[s] + 1]
    {
    }

    static lemma {:induction false} CountSnoc(cm: CodeMap, items: seq<Item>, item: Item)
      requires GoodMap(cm) && GoodItems(items) && GoodItem(item)
      requires forall i :: 0 <= i < |items| ==>
                GoodItem(items[i]) && LitSymbol(cm, items[i]) < L_CODES
                    && (items[i].Match? ==> DistSymbol(cm, items[i]) < D_CODES)
      ensures GoodItems(items + [item])
      ensures LitSymbol(cm, item) < L_CODES && (item.Match? ==> DistSymbol(cm, item) < D_CODES)
      ensures forall i :: 0 <= i <= |items| ==>
                GoodItem((items + [item])[i]) && LitSymbol(cm, (items + [item])[i]) < L_CODES
                    && ((items + [item])[i].Match? ==> DistSymbol(cm, (items + [item])[i]) < D_CODES)
      ensures var f, s := LitFreqs(cm, FreshLit(), items), LitSymbol(cm, item);
              LitFreqs(cm, FreshLit(), items + [item]) == f[s := f[s] + 1]
      ensures item.Literal? ==> DistFreqs(cm, Zeros(D_CODES), items + [item]) == DistFreqs(cm, Zeros(D_CODES), items)
      ensures item.Match? ==>
                var f, s := DistFreqs(cm, Zeros(D_CODES), items), DistSymbol(cm, item);
                DistFreqs(cm, Zeros(D_CODES), items + [item]) == f[s := f[s] + 1]
    {
      hide GoodMap, FreshLit, Zeros;
      SymbolsInRange(cm, [item]);
      assert [item][0] == item;
      assert (items + [item])[..|items|] == items;
    }

    /** The guess of ct_tally, once in 4096 items, that stopping the block here is worth while. */
    method FewMatches(strstart: nat, blockStart: int, ghost freq: seq<nat>) returns (stop: bool)
      requires dDesc.dynTree.Length >= D_CODES && freq == Freqs(dDesc.dynTree[..], D_CODES)
      ensures |freq| == D_CODES <= |DistExtra()|
      ensures stop <==> buf.lastLit % 4096 == 0 && buf.lastDist < buf.lastLit / 2
                        && (8 * buf.lastLit + Cost(freq, Fives(), DistExtra())) / 8 < (strstart - blockStart) / 2
    {
      hide Cost, Fives, DistExtra;
      ThirtyExtras();
      stop := false;
      if buf.lastLit % 4096 == 0 {
        var outLength := buf.lastLit * 8;
        var inLength := strstart - blockStart;
        var dcode := 0;
        NoCost(freq, Fives(), DistExtra());
        while dcode < D_CODES
          invariant 0 <= dcode <= D_CODES
          invariant outLength == 8 * buf.lastLit + Cost(freq[..dcode], Fives(), DistExtra())
        {
          NextCost(freq, Fives(), DistExtra(), dcode);
          outLength := outLength + dDesc.dynTree[dcode].fc * (5 + DistExtra()[dcode]);
          dcode := dcode + 1;
        }
        assert freq[..dcode] == freq;
        outLength := outLength / 8;
        stop := buf.lastDist < buf.lastLit / 2 && outLength < inLength / 2;
      }
    }

    static lemma {:induction false} ThirtyExtras()
      ensures D_CODES <= |DistExtra()|
    {
    }

    static lemma {:induction false} NoCost(freq: seq<nat>, lens: seq<nat>, extra: seq<nat>)
      ensures Cost(freq[..0], lens, extra) == 0
    {
    }

    static lemma {:induction false} NextCost(freq: seq<nat>, lens: seq<nat>, extra: seq<nat>, k: nat)
      requires k < |freq| && |freq| <= |lens| && |freq| <= |extra|
      ensures Cost(freq[..k + 1], lens, extra) == Cost(freq[..k], lens, extra) + freq[k] * (lens[k] + extra[k])
    {
      assert freq[..k + 1][..k] == freq[..k];
    }

    /** Saves an item. */
    method SaveItem(dist: nat, lc: nat, ghost item: Item)
      requires Described() && Distinct() && Core() && Counting() && q.Settled() && buf.Holds(items)
              && |items| + 1 < LIT_BUFSIZE
      requires GoodItem(item) && lc == LByte(item) && (if item.Match? then dist == item.distance else dist == 0)
      modifies buf, buf.lBuf, buf.dBuf, buf.flagBuf
      ensures Core() && Counting() && q.Settled() && buf.Holds(items + [item])
    {
      hide *;
      Separate();
      buf.Save(dist, lc, items, item);
    }

    /** ct_tally: saves and counts an item; the result says whether the block must be flushed. */
    method CtTally(dist: nat, lc: nat, strstart: nat, blockStart: int, ghost item: Item) returns (flush: bool)
      requires Valid() && w.Valid() && |items| + 1 < LIT_BUFSIZE
      requires GoodItem(item) && lc == LByte(item) && (if item.Match? then dist == item.distance else dist == 0)
      modifies this`items, buf, buf.lBuf, buf.dBuf, buf.flagBuf, lDesc.dynTree, dDesc.dynTree
      ensures Valid() && items == old(items) + [item]
      ensures w.Valid() && w.Contents() == old(w.Contents())
      ensures !flush ==> |items| + 1 < LIT_BUFSIZE
      ensures flush <==> EndsBlock(old(Map()), items, strstart - blockStart)
    {
      hide *;
      ValidParts();
      Separate();
      ghost var cm := Map();
      SaveItem(dist, lc, item);
      CountItem(dist, lc, item);
      HeldSize(items);
      DescribedFacts();
      assert Map() == cm;
      ghost var freq := Freqs(dDesc.dynTree[..], D_CODES);
      Guessed(freq);
      var few := FewMatches(strstart, blockStart, freq);
      EndIs(cm, items, strstart - blockStart);
      ValidAgain();
      flush := few || buf.lastLit == LIT_BUFSIZE - 1 || buf.lastDist == DIST_BUFSIZE;
    }

    lemma {:induction false} HeldSize(items: seq<Item>)
      requires buf.Holds(items)
      ensures buf.lastLit == |items| < LIT_BUFSIZE && buf.lastDist == Matches(items)
    {
      MatchesCounted(items);
    }

    lemma {:induction false} Guessed(freq: seq<nat>)
      requires Described() && Counting() && freq == Freqs(dDesc.dynTree[..], D_CODES)
      ensures |freq| == D_CODES <= |DistExtra()|
      ensures Cost(freq, Fives(), DistExtra()) == DistGuess(Map(), items)
    {
      hide GoodMap, FreshLit, LitFreqs, Cost, Fives;
      CountsRange();
      assert |Map().dist| == 512 by { MapSized(); }
      GuessIsCost(Map(), Zeros(D_CODES), items);
      CostZero(Zeros(D_CODES), Fives(), DistExtra());
    }

    lemma {:induction false} MapSized()
      requires Described()
      ensures |Map().dist| == 512
    {
    }

    static lemma {:induction false} EndIs(cm: CodeMap, items: seq<Item>, bytes: int)
      ensures EndsBlock(cm, items, bytes) <==>
                || |items| == LIT_BUFSIZE - 1 || Matches(items) == DIST_BUFSIZE
                || (|items| % 4096 == 0 && Matches(items) < |items| / 2
                    && (8 * |items| + DistGuess(cm, items)) / 8 < bytes / 2)
    {
    }

    // ----- starting a block

    /** Empties the buffers and the counters. */
    method InitBlock()
      requires Described() && Distinct() && buf.Sized() && GoodMap(Map())
      modifies this`items, buf, g`optLen, g`staticLen, lDesc.dynTree, dDesc.dynTree, blDesc.dynTree
      ensures items == [] && buf.Holds(items) && Counting()
      ensures g.optLen == 0 && g.staticLen == 0
    {
      hide *;
      Separate();
      DescribedFacts();
      ZeroFreqs(lDesc.dynTree, L_CODES);
      ZeroFreqs(dDesc.dynTree, D_CODES);
      ZeroFreqs(blDesc.dynTree, BL_CODES);
      CountEnd();
      g.optLen := 0;
      g.staticLen := 0;
      items := [];
      buf.Clear();
      NothingCounted();
    }

    /** The end marker occurs once. */
    method CountEnd()
      requires lDesc.dynTree.Length == 2 * L_CODES + 1 && Freqs(lDesc.dynTree[..], L_CODES) == Zeros(L_CODES)
      modifies lDesc.dynTree
      ensures Freqs(lDesc.dynTree[..], L_CODES) == FreshLit()
    {
      hide Freqs, FreshLit, Zeros;
      ghost var t := lDesc.dynTree[..];
      EndMarker(t);
      lDesc.dynTree[END_BLOCK] := lDesc.dynTree[END_BLOCK].(fc := 1);
      assert lDesc.dynTree[..] == t[END_BLOCK := t[END_BLOCK].(fc := 1)];
    }

    lemma {:induction false} NothingCounted()
      requires Described() && items == [] && GoodMap(Map())
      requires Freqs(lDesc.dynTree[..], L_CODES) == FreshLit() && Freqs(dDesc.dynTree[..], D_CODES) == Zeros(D_CODES)
      requires Freqs(blDesc.dynTree[..], BL_CODES) == Zeros(BL_CODES)
      ensures Counting()
    {
      hide GoodMap, Freqs, FreshLit, Zeros;
    }

    static lemma {:induction false} EndMarker(t: seq<CtData>)
      requires |t| > L_CODES && Freqs(t, L_CODES) == Zeros(L_CODES)
      ensures Freqs(t[END_BLOCK := t[END_BLOCK].(fc := 1)], L_CODES) == FreshLit()
    {
      assert forall s :: 0 <= s < L_CODES ==> Freqs(t, L_CODES)[s] == t[s].fc;
    }

    lemma {:induction false} DescribedFacts()
      requires Described()
      ensures lDesc.dynTree.Length == 2 * L_CODES + 1 && dDesc.dynTree.Length == 2 * D_CODES + 1
              && blDesc.dynTree.Length == 2 * BL_CODES + 1
      ensures 0 <= END_BLOCK < L_CODES && 0 <= D_CODES && 0 <= BL_CODES
      ensures lDesc.elems == L_CODES && dDesc.elems == D_CODES && blDesc.elems == BL_CODES
      ensures lDesc.maxLength == dDesc.maxLength == MAX_BITS && blDesc.maxLength == 7
      ensures lDesc.staticTree == tables.staticLtree && dDesc.staticTree == tables.staticDtree
              && blDesc.staticTree == null
      ensures tables.Sized() && lDesc.Valid() && dDesc.Valid() && blDesc.Valid()
      ensures lDesc.Extra() == LitExtra() && dDesc.Extra() == DistExtra() && blDesc.Extra() == ExtraBl()
    {
    }

    static method ZeroFreqs(tree: array<CtData>, elems: nat)
      requires elems <= tree.Length
      modifies tree
      ensures Freqs(tree[..], elems) == Zeros(elems)
    {
      var n := 0;
      while n < elems
        invariant 0 <= n <= elems
        invariant forall s :: 0 <= s < n ==> tree[s].fc == 0
      {
        tree[n] := tree[n].(fc := 0);
        n := n + 1;
      }
    }
  }

  /** pack_gzip: allocates the arrays and sets up the tree descriptions. */
  method MakeDescs() returns (t: CodeTables, l: TreeDesc, d: TreeDesc, b: TreeDesc)
    ensures t.Sized() && fresh(t.Repr()) && fresh(l) && fresh(d) && fresh(b)
    ensures fresh(l.dynTree) && fresh(d.dynTree) && fresh(b.dynTree) && l != d && l != b && d != b
    ensures l.dynTree !in {d.dynTree, b.dynTree, t.staticLtree, t.staticDtree}
    ensures d.dynTree !in {b.dynTree, t.staticLtree, t.staticDtree} && b.dynTree !in {t.staticLtree, t.staticDtree}
    ensures l.dynTree.Length == 2 * L_CODES + 1 && l.elems == L_CODES && l.extraBits == LengthExtra()
            && l.extraBase == LITERALS + 1
    ensures l.maxLength == MAX_BITS && l.staticTree == t.staticLtree
    ensures d.dynTree.Length == 2 * D_CODES + 1 && d.elems == D_CODES && d.extraBits == DistExtra() && d.extraBase == 0
    ensures d.maxLength == MAX_BITS && d.staticTree == t.staticDtree
    ensures b.dynTree.Length == 2 * BL_CODES + 1 && b.elems == BL_CODES && b.extraBits == ExtraBl() && b.extraBase == 0
    ensures b.maxLength == 7 && b.staticTree == null
  {
    hide LengthExtra, DistExtra, ExtraBl;
    t := new CodeTables();
    var lTree := new CtData[2 * L_CODES + 1](_ => CtData(0, 0));
    var dTree := new CtData[2 * D_CODES + 1](_ => CtData(0, 0));
    var blTree := new CtData[2 * BL_CODES + 1](_ => CtData(0, 0));
    l := new TreeDesc(lTree, t.staticLtree, LengthExtra(), LITERALS + 1, L_CODES, MAX_BITS);
    d := new TreeDesc(dTree, t.staticDtree, DistExtra(), 0, D_CODES, MAX_BITS);
    b := new TreeDesc(blTree, null, ExtraBl(), 0, BL_CODES, 7);
  }

  /** A new state as pack_gzip sets it up. */
  method NewState() returns (g2: Globals2)
    ensures fresh(g2) && fresh(g2.Repr()) && fresh(g2.tables.Repr())
    ensures g2.Described() && g2.Distinct() && g2.w.Valid() && g2.w.Contents() == [] && g2.q.Settled() && g2.buf.Sized()
    ensures forall l :: 0 <= l <= MAX_BITS ==> g2.g.blCount[l] == 0
  {
    var t, l, d, b := MakeDescs();
    g2 := new Globals2(t, l, d, b);
    assert fresh(g2.Repr());
    hide *;
    g2.SetUp();
    g2.AllDistinct();
    g2.CountsSized();
  }

  /** A new state, ready for the first block. */
  method NewGlobals() returns (g2: Globals2)
    ensures fresh(g2) && fresh(g2.Repr()) && fresh(g2.tables.Repr())
    ensures g2.Valid() && g2.items == [] && g2.w.Contents() == []
  {
    hide *;
    g2 := NewState();
    g2.CtInit();
  }
}
