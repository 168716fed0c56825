/** The ct_data arrays of gzip.c, whose two unions each hold two things in turn, and gen_codes. */
module Trees {
  import opened Bits
  import opened Canonical
  import opened BitOutput

  /** One element of a code tree. The field fc is Freq until gen_codes overwrites it with Code;
      dl is Dad until gen_bitlen overwrites it with Len. */
  datatype CtData = CtData(fc: nat, dl: nat)

  /** The Len (or Dad) column of the first n elements. */
  function Lens(t: seq<CtData>, n: nat): (r: seq<nat>)
    requires n <= |t|
    ensures |r| == n && forall i :: 0 <= i < n ==> r[i] == t[i].dl
  {
    seq(n, i requires 0 <= i < n => t[i].dl)
  }

  /** The Freq (or Code) column of the first n elements. */
  function Freqs(t: seq<CtData>, n: nat): (r: seq<nat>)
    requires n <= |t|
    ensures |r| == n && forall i :: 0 <= i < n ==> r[i] == t[i].fc
  {
    seq(n, i requires 0 <= i < n => t[i].fc)
  }

  /** The tree holds the canonical code of lens, bit-reversed for sending. */
  ghost predicate HasCodes(t: seq<CtData>, lens: seq<nat>)
  {
    && |lens| <= |t|
    && Decodable(lens)
    && forall n :: 0 <= n < |lens| ==>
         t[n].dl == lens[n] && (lens[n] > 0 ==> t[n].fc == Reverse(CodeOf(lens, n), lens[n]))
  }

  /** Sends the code of symbol c. */
  method SendCode(w: BitWriter, tree: array<CtData>, c: nat, ghost lens: seq<nat>)
    requires w.Valid() && HasCodes(tree[..], lens) && c < |lens| && lens[c] > 0
    modifies w, w.outbuf
    ensures w.Valid() && w.Contents() == old(w.Contents()) + Codeword(lens, c)
  {
    hide CodeOf, Reverse, MsbBits, BitsOf, ByteBits, Kraft, Pow2, w.Valid;
    assert tree[..][c] == tree[c];
    SendingCodeword(lens, c);
    w.SendBits(tree[c].fc, tree[c].dl);
  }

  lemma {:induction false} SendingCodeword(lens: seq<nat>, c: nat)
    requires c < |lens|
    ensures BitsOf(Reverse(CodeOf(lens, c), lens[c]), lens[c]) == Codeword(lens, c)
  {
    ReverseBits(CodeOf(lens, c), lens[c]);
  }

  /** Assigns the code of every symbol 0..maxCode from its length and the number of codes of each length. */
  method GenCodes(tree: array<CtData>, maxCode: nat, blCount: array<nat>)
    requires maxCode < tree.Length && blCount.Length == MAX_BITS + 1 && blCount[0] == 0
    requires Decodable(Lens(tree[..], maxCode + 1))
    requires forall l :: 1 <= l <= MAX_BITS ==> blCount[l] == Count(Lens(tree[..], maxCode + 1), l)
    modifies tree
    ensures HasCodes(tree[..], old(Lens(tree[..], maxCode + 1)))
    ensures forall i :: 0 <= i < tree.Length ==> tree[i].dl == old(tree[i].dl)
    ensures forall i :: maxCode < i < tree.Length ==> tree[i] == old(tree[i])
  {
    hide Count, FirstCode, Reverse, Kraft, Pow2;
    ghost var lens := Lens(tree[..], maxCode + 1);
    var nextCode := FirstCodes(blCount, lens);
    var n := 0;
    while n <= maxCode
      invariant 0 <= n <= maxCode + 1
      invariant nextCode.Length == MAX_BITS + 1
      invariant forall l :: 1 <= l <= MAX_BITS ==> nextCode[l] == FirstCode(lens, l) + Count(lens[..n], l)
      invariant forall i :: 0 <= i < tree.Length ==> tree[i].dl == old(tree[i].dl)
      invariant forall i :: n <= i < tree.Length ==> tree[i] == old(tree[i])
      invariant forall i :: 0 <= i < n && lens[i] > 0 ==> tree[i].fc == Reverse(CodeOf(lens, i), lens[i])
    {
      var len := tree[n].dl;
      CountNext(lens, n);
      if len != 0 {
        CodeBound(lens, n);
        var code := BiReverse(nextCode[len], len);
        nextCode[len] := nextCode[len] + 1;
        tree[n] := tree[n].(fc := code);
      }
      n := n + 1;
    }
    assert lens[..n] == lens;
  }

  lemma {:induction false} CountNext(lens: seq<nat>, n: nat)
    requires n < |lens|
    ensures forall l :: Count(lens[..n + 1], l) == Count(lens[..n], l) + if lens[n] == l then 1 else 0
  {
    assert lens[..n + 1][..n] == lens[..n];
  }

  /** The smallest code of each length, computed in the 16-bit arithmetic of the source. */
  method FirstCodes(blCount: array<nat>, ghost lens: seq<nat>) returns (nextCode: array<nat>)
    requires blCount.Length == MAX_BITS + 1 && blCount[0] == 0
    requires Decodable(lens)
    requires forall l :: 1 <= l <= MAX_BITS ==> blCount[l] == Count(lens, l)
    ensures fresh(nextCode) && nextCode.Length == MAX_BITS + 1
    ensures forall l :: 1 <= l <= MAX_BITS ==> nextCode[l] == FirstCode(lens, l) + Count(lens[..0], l)
  {
    hide Pow2, FirstCode, Count;
    FirstCodeNext(lens, 0);
    nextCode := new nat[MAX_BITS + 1];
    var code := 0;
    var bits := 1;
    while bits <= MAX_BITS
      invariant 1 <= bits <= MAX_BITS + 1
      invariant code == FirstCode(lens, bits - 1)
      invariant forall l :: 1 <= l < bits ==> nextCode[l] == FirstCode(lens, l)
    {
      FirstCodeWidth(lens, bits);
      FirstCodeNext(lens, bits);
      code := ((code + blCount[bits - 1]) * 2) % 65536;
      nextCode[bits] := code;
      bits := bits + 1;
    }
    forall l | 1 <= l <= MAX_BITS ensures Count(lens[..0], l) == 0 { FirstCodeNext(lens, l); }
  }

  lemma {:induction false} FirstCodeNext(lens: seq<nat>, l: nat)
    ensures FirstCode(lens, 0) == 0 && Count(lens[..0], l) == 0
    ensures l > 0 ==> FirstCode(lens, l) == 2 * (FirstCode(lens, l - 1) + if l == 1 then 0 else Count(lens, l - 1))
  {
  }

  lemma {:induction false} FirstCodeWidth(lens: seq<nat>, l: nat)
    requires Decodable(lens) && 1 <= l <= MAX_BITS
    ensures FirstCode(lens, l) < 65536
  {
    CodesFit(lens, l);
    Pow2Mono(l, MAX_BITS);
    Pow2Values();
  }
}
