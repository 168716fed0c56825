/** ct_init: the tables from match lengths and distances to codes, and the static trees. */
module Tables {
  import opened Bits
  import opened Canonical
  import opened Inflate
  import opened Trees

  const LENGTH_CODES := 29
  const D_CODES := 30
  const LITERALS := 256
  const END_BLOCK := 256
  const L_CODES := 286

  // ----- the tables of section 3.2.5 of RFC 1951 are contiguous

  lemma {:induction false} LengthRows(c: nat)
    requires c < 28
    ensures LengthBase()[0] == 3 && LengthBase()[28] == 258 && LengthExtra()[28] == 0
    ensures LengthBase()[c] + Pow2(LengthExtra()[c]) == if c < 27 then LengthBase()[c + 1] else 259
    ensures 3 <= LengthBase()[c] && LengthBase()[c] + Pow2(LengthExtra()[c]) <= 259
  {
    hide Pow2;
    SmallPowers();
  }

  lemma {:induction false} SmallPowers()
    ensures Pow2(0) == 1 && Pow2(1) == 2 && Pow2(2) == 4 && Pow2(3) == 8 && Pow2(4) == 16 && Pow2(5) == 32
            && Pow2(6) == 64 && Pow2(7) == 128
    ensures Pow2(8) == 256 && Pow2(9) == 512 && Pow2(10) == 1024 && Pow2(11) == 2048 && Pow2(12) == 4096
            && Pow2(13) == 8192
  {
    assert Pow2(3) == 8;
    assert Pow2(6) == 64;
    assert Pow2(9) == 512;
    assert Pow2(12) == 4096;
  }

  lemma {:induction false} DistRows(c: nat)
    requires c < 30
    ensures DistBase()[0] == 1 && DistBase()[16] == 257
    ensures DistBase()[c] + Pow2(DistExtra()[c]) == if c < 29 then DistBase()[c + 1] else 32769
    ensures 1 <= DistBase()[c] && DistBase()[c] + Pow2(DistExtra()[c]) <= 32769
    ensures c >= 16 ==> DistExtra()[c] >= 7
    ensures c < 16 ==> DistBase()[c] + Pow2(DistExtra()[c]) <= 257
    ensures c >= 16 ==> DistBase()[c] >= 257
  {
    hide Pow2;
    SmallPowers();
  }

  // ----- lengths that stay the same over a range

  lemma {:induction false} KraftConst(lens: seq<nat>, a: nat, b: nat, x: nat, m: nat)
    requires a <= b <= |lens| && forall i :: a <= i < b ==> lens[i] == x
    ensures Kraft(lens[..b], m) == Kraft(lens[..a], m) + (b - a) * Share(x, m)
  {
    if a < b {
      KraftConst(lens, a, b - 1, x, m);
      assert lens[..b][..b - 1] == lens[..b - 1];
      assert (b - 1 - a) * Share(x, m) + Share(x, m) == (b - a) * Share(x, m);
    }
  }

  /** The fixed literal code is complete. */
  lemma {:induction false} FixedLitComplete()
    ensures Decodable(FixedLitLens()) && Kraft(FixedLitLens(), MAX_BITS) == Pow2(MAX_BITS)
  {
    hide Kraft, Share, Pow2;
    var lens := FixedLitLens();
    FixedShares();
    KraftEmpty(15);
    KraftConst(lens, 0, 144, 8, 15);
    KraftConst(lens, 144, 256, 9, 15);
    KraftConst(lens, 256, 280, 7, 15);
    KraftConst(lens, 280, 288, 8, 15);
    assert lens[..288] == lens && lens[..0] == [];
  }

  lemma {:induction false} FixedShares()
    ensures Share(8, 15) == 128 && Share(9, 15) == 64 && Share(7, 15) == 256 && Pow2(15) == 32768
  {
    Pow2Values();
    assert Pow2(6) == 64;
  }

  lemma {:induction false} KraftEmpty(m: nat)
    ensures Kraft([], m) == 0
  {
  }

  /** The lengths of the static distance tree: all 5, without the two codes that never occur. */
  function StaticDistLens(): (lens: seq<nat>)
    ensures |lens| == D_CODES
  {
    seq(D_CODES, i => 5)
  }

  lemma {:induction false} FivesDecodable(lens: seq<nat>)
    requires |lens| <= 32 && forall i :: 0 <= i < |lens| ==> lens[i] == 5
    ensures Decodable(lens)
  {
    KraftConst(lens, 0, |lens|, 5, 15);
    assert lens[..|lens|] == lens && lens[..0] == [];
    Pow2Values();
    assert Pow2(10) == 1024;
  }

  lemma {:induction false} FivesCount(lens: seq<nat>, l: nat)
    requires forall i :: 0 <= i < |lens| ==> lens[i] == 5
    ensures Count(lens, l) == if l == 5 then |lens| else 0
  {
    if lens != [] { FivesCount(lens[..|lens| - 1], l); }
  }

  /** With all lengths 5, the code of symbol n is n. */
  lemma {:induction false} FivesCode(lens: seq<nat>, n: nat)
    requires n < |lens| && forall i :: 0 <= i < |lens| ==> lens[i] == 5
    ensures CodeOf(lens, n) == n && Codeword(lens, n) == MsbBits(n, 5)
  {
    FivesCount(lens[..n], 5);
    FivesCount(lens, 1);
    FivesCount(lens, 2);
    FivesCount(lens, 3);
    FivesCount(lens, 4);
    assert FirstCode(lens, 1) == 0;
    assert FirstCode(lens, 2) == 0;
    assert FirstCode(lens, 3) == 0;
    assert FirstCode(lens, 4) == 0;
    assert FirstCode(lens, 5) == 0;
  }

  // ----- the tables

  /** What length_code and base_length say about a match length lc + 3. */
  ghost predicate LengthCoded(code: nat, lc: nat, base: seq<nat>)
  {
    && code < LENGTH_CODES && |base| == LENGTH_CODES
    && if LengthExtra()[code] == 0 then LengthBase()[code] == lc + 3
       else base[code] + 3 == LengthBase()[code] && base[code] <= lc < base[code] + Pow2(LengthExtra()[code])
  }

  /** What dist_code and base_dist say about a match distance d + 1. */
  ghost predicate DistCoded(code: nat, d: nat, base: seq<nat>)
  {
    && code < D_CODES && |base| == D_CODES
    && if DistExtra()[code] == 0 then DistBase()[code] == d + 1
       else base[code] + 1 == DistBase()[code] && base[code] <= d < base[code] + Pow2(DistExtra()[code])
  }

  class CodeTables {
    const lengthCode: array<nat>
    const distCode: array<nat>
    const baseLength: array<nat>
    const baseDist: array<nat>
    const staticLtree: array<CtData>
    const staticDtree: array<CtData>

    ghost predicate Sized()
    {
      && lengthCode.Length == 256 && distCode.Length == 512 && baseLength.Length == LENGTH_CODES
      && baseDist.Length == D_CODES
      && staticLtree.Length == L_CODES + 2 && staticDtree.Length == D_CODES && staticLtree != staticDtree
      && lengthCode != distCode && lengthCode != baseLength && lengthCode != baseDist
      && distCode != baseLength && distCode != baseDist && baseLength != baseDist
    }

    ghost function Repr(): set<object>
    {
      {lengthCode as object, distCode as object, baseLength as object, baseDist as object, staticLtree as object,
              staticDtree as object}
    }

    /** The index into dist_code: D_CODE. */
    function DCode(dist: nat): nat
      requires Sized() && dist < 32768
      reads distCode
    {
      if dist < 256 then distCode[dist] else distCode[256 + dist / 128]
    }

    /** The tables are those of section 3.2.5 of RFC 1951, and the static trees those of section 3.2.6. */
    ghost predicate Valid()
      reads lengthCode, distCode, baseLength, baseDist, staticLtree, staticDtree
    {
      && Sized()
      && (forall lc :: 0 <= lc < 256 ==> LengthCoded(lengthCode[..][lc], lc, baseLength[..]))
      && (forall d :: 0 <= d < 32768 ==> DistCoded(DCode(d), d, baseDist[..]))
      && HasCodes(staticLtree[..], FixedLitLens())
      && HasCodes(staticDtree[..], StaticDistLens())
    }

    constructor ()
      ensures Sized() && fresh(Repr())
    {
      lengthCode := new nat[256](_ => 0);
      distCode := new nat[512](_ => 0);
      baseLength := new nat[LENGTH_CODES](_ => 0);
      baseDist := new nat[D_CODES](_ => 0);
      staticLtree := new CtData[L_CODES + 2](_ => CtData(0, 0));
      staticDtree := new CtData[D_CODES](_ => CtData(0, 0));
    }

    /** The mapping from length - 3 to length code. */
    method InitLengths()
      requires Sized()
      modifies lengthCode, baseLength
      ensures forall lc :: 0 <= lc < 256 ==> LengthCoded(lengthCode[..][lc], lc, baseLength[..])
    {
      hide Pow2, LengthBase, LengthExtra;
      LengthRows(0);
      var length, code := 0, 0;
      while code < LENGTH_CODES - 1
        invariant 0 <= code <= LENGTH_CODES - 1
        invariant length + 3 == if code < 28 then LengthBase()[code] else 259
        invariant forall c :: 0 <= c < code ==> baseLength[c] + 3 == LengthBase()[c]
        invariant forall i :: 0 <= i < length ==>
                  i < 256 && lengthCode[i] < code
                      && baseLength[lengthCode[i]] <= i < baseLength[lengthCode[i]] + Pow2(LengthExtra()[lengthCode[i]])
      {
        LengthRows(code);
        baseLength[code] := length;
        var n := 0;
        while n < ShiftLeft(1, LengthExtra()[code])
          invariant 0 <= n <= Pow2(LengthExtra()[code]) && length == baseLength[code] + n
          invariant forall c :: 0 <= c <= code ==> baseLength[c] + 3 == LengthBase()[c]
          invariant forall i :: 0 <= i < length ==>
                    i < 256 && lengthCode[i] <= code
                        && baseLength[lengthCode[i]] <= i < baseLength[lengthCode[i]]
                            + Pow2(LengthExtra()[lengthCode[i]])
        {
          lengthCode[length] := code;
          length := length + 1;
          n := n + 1;
        }
        code := code + 1;
      }
      lengthCode[length - 1] := code;
      LengthFacts(lengthCode[..], baseLength[..]);
    }

    static lemma {:induction false} LengthFacts(lengthCode: seq<nat>, base: seq<nat>)
      requires |lengthCode| == 256 && |base| == LENGTH_CODES && lengthCode[255] == 28
      requires forall c :: 0 <= c < 28 ==> base[c] + 3 == LengthBase()[c]
      requires forall i :: 0 <= i < 255 ==>
                lengthCode[i] < 28
                    && base[lengthCode[i]] <= i < base[lengthCode[i]] + Pow2(LengthExtra()[lengthCode[i]])
      ensures forall lc :: 0 <= lc < 256 ==> LengthCoded(lengthCode[lc], lc, base)
    {
      hide LengthBase, LengthExtra;
      LengthRows(0);
      forall lc | 0 <= lc < 256 ensures LengthCoded(lengthCode[lc], lc, base) {
        if lc < 255 {
          var c := lengthCode[lc];
          if LengthExtra()[c] == 0 { assert Pow2(0) == 1; }
        }
      }
    }

    /** The mapping from distance - 1 to distance code, in two parts. */
    method InitDists()
      requires Sized()
      modifies distCode, baseDist
      ensures forall d :: 0 <= d < 32768 ==> DistCoded(DCode(d), d, baseDist[..])
    {
      hide Pow2, DistBase, DistExtra;
      var dist, code := InitNearDists();
      dist := dist / 128;
      DistRows(16);
      while code < D_CODES
        invariant 16 <= code <= D_CODES
        invariant dist * 128 + 1 == if code < 30 then DistBase()[code] else 32769
        invariant forall c :: 0 <= c < code ==> baseDist[c] + 1 == DistBase()[c]
        invariant NearCoded(distCode[..], baseDist[..])
        invariant AllFar(distCode[..], baseDist[..], dist, code)
      {
        DistRows(code);
        ghost var base := baseDist[..];
        baseDist[code] := dist * 128;
        assert NearCoded(distCode[..], baseDist[..]);
        FarBase(distCode[..], base, baseDist[..], dist, code);
        ghost var start := dist;
        var n := 0;
        HighShift(DistExtra()[code]);
        while n < ShiftLeft(1, DistExtra()[code] - 7)
          invariant 0 <= n <= Pow2(DistExtra()[code] - 7) && dist == start + n
          invariant forall c :: 0 <= c <= code ==> baseDist[c] + 1 == DistBase()[c]
          invariant baseDist[code] == start * 128
          invariant NearCoded(distCode[..], baseDist[..])
          invariant AllFar(distCode[..], baseDist[..], dist, code + 1)
        {
          distCode[256 + dist] := code;
          dist := dist + 1;
          n := n + 1;
        }
        code := code + 1;
      }
      DistFacts();
    }

    static lemma {:induction false} HighShift(e: nat)
      requires e >= 7
      ensures Pow2(e) == 128 * Pow2(e - 7)
    {
      Pow2Values();
      Pow2Add(7, e - 7);
    }

    /** dist_code for distances below 256. */
    static ghost predicate NearCoded(distCode: seq<nat>, base: seq<nat>)
    {
      && |distCode| == 512 && |base| == D_CODES
      && forall d :: 0 <= d < 256 ==>
                distCode[d] < 16 && base[distCode[d]] <= d < base[distCode[d]] + Pow2(DistExtra()[distCode[d]])
    }

    static ghost predicate AllFar(distCode: seq<nat>, base: seq<nat>, dist: nat, code: nat)
    {
      && dist <= 256 && |distCode| == 512
      && forall k :: 258 <= k < 256 + dist ==> FarCoded(distCode[k], k - 256, base, code)
    }

    static lemma {:induction false} FarBase(distCode: seq<nat>, base: seq<nat>, base': seq<nat>, dist: nat, code: nat)
      requires AllFar(distCode, base, dist, code) && |base'| == |base| == D_CODES && code < D_CODES
      requires forall c :: 0 <= c < code ==> base'[c] == base[c]
      ensures AllFar(distCode, base', dist, code + 1)
    {
    }

    /** dist_code for the 128 distances that share the upper bits j. */
    static ghost predicate FarCoded(c: nat, j: nat, base: seq<nat>, code: nat)
    {
      && |base| == D_CODES && c < code <= D_CODES
      && base[c] <= j * 128 && j * 128 + 128 <= base[c] + Pow2(DistExtra()[c])
    }

    method InitNearDists() returns (dist: nat, code: nat)
      requires Sized()
      modifies distCode, baseDist
      ensures dist == 256 && code == 16
      ensures forall c :: 0 <= c < 16 ==> baseDist[c] + 1 == DistBase()[c]
      ensures NearCoded(distCode[..], baseDist[..])
    {
      hide Pow2, DistBase, DistExtra;
      DistRows(0);
      dist, code := 0, 0;
      while code < 16
        invariant 0 <= code <= 16
        invariant dist + 1 == DistBase()[code]
        invariant forall c :: 0 <= c < code ==> baseDist[c] + 1 == DistBase()[c]
        invariant forall d :: 0 <= d < dist ==>
                  d < 256 && distCode[d] < code
                      && baseDist[distCode[d]] <= d < baseDist[distCode[d]] + Pow2(DistExtra()[distCode[d]])
      {
        DistRows(code);
        baseDist[code] := dist;
        var n := 0;
        while n < ShiftLeft(1, DistExtra()[code])
          invariant 0 <= n <= Pow2(DistExtra()[code]) && dist == baseDist[code] + n
          invariant forall c :: 0 <= c <= code ==> baseDist[c] + 1 == DistBase()[c]
          invariant forall d :: 0 <= d < dist ==>
                    d < 256 && distCode[d] <= code
                        && baseDist[distCode[d]] <= d < baseDist[distCode[d]] + Pow2(DistExtra()[distCode[d]])
        {
          distCode[dist] := code;
          dist := dist + 1;
          n := n + 1;
        }
        code := code + 1;
      }
      DistRows(16);
    }

    lemma {:induction false} DistFacts()
      requires Sized() && NearCoded(distCode[..], baseDist[..])
      requires forall c :: 0 <= c < 30 ==> baseDist[c] + 1 == DistBase()[c]
      requires AllFar(distCode[..], baseDist[..], 256, 30)
      ensures forall d :: 0 <= d < 32768 ==> DistCoded(DCode(d), d, baseDist[..])
    {
      hide Pow2, DistBase, DistExtra;
      forall d | 0 <= d < 32768 ensures DistCoded(DCode(d), d, baseDist[..]) {
        var c := DCode(d);
        if d < 256 {
          assert distCode[..][d] == c;
        } else {
          assert FarCoded(distCode[..][256 + d / 128], d / 128, baseDist[..], 30);
        }
        assert baseDist[..][c] == baseDist[c];
        if DistExtra()[c] == 0 { OneIsOne(); }
      }
    }

    static lemma {:induction false} OneIsOne()
      ensures Pow2(0) == 1
    {
    }

    /** Gives the symbols n..last the length len and counts them. */
    method FillLens(blCount: array<nat>, n0: nat, last: nat, len: nat) returns (n: nat)
      requires Sized() && blCount.Length == MAX_BITS + 1 && n0 <= last + 1 <= 288 && 1 <= len <= MAX_BITS
              && blCount[0] == 0
      requires FillState(blCount[..], n0) && forall i :: n0 <= i <= last ==> FixedLitLens()[i] == len
      modifies staticLtree, blCount
      ensures n == last + 1 && FillState(blCount[..], n)
      ensures blCount[0] == 0
    {
      hide Count, FixedLitLens;
      n := n0;
      while n <= last
        invariant n0 <= n <= last + 1 && blCount[0] == 0
        invariant FillState(blCount[..], n)
      {
        CountNext(FixedLitLens(), n);
        ghost var counts, t := blCount[..], staticLtree[..];
        staticLtree[n] := staticLtree[n].(dl := len);
        n := n + 1;
        blCount[len] := blCount[len] + 1;
        assert blCount[..] == counts[len := counts[len] + 1];
        assert staticLtree[..] == t[n - 1 := t[n - 1].(dl := len)];
      }
    }

    ghost predicate FillState(blCount: seq<nat>, n: nat)
      reads staticLtree
    {
      && Sized() && |blCount| == MAX_BITS + 1 && n <= 288
      && (forall i :: 0 <= i < n ==> staticLtree[..][i].dl == FixedLitLens()[i])
      && forall l :: 1 <= l <= MAX_BITS ==> blCount[l] == Count(FixedLitLens()[..n], l)
    }

    /** The static literal tree. */
    method InitStaticLtree(blCount: array<nat>)
      requires Sized() && blCount.Length == MAX_BITS + 1 && forall l :: 0 <= l <= MAX_BITS ==> blCount[l] == 0
      modifies staticLtree, blCount
      ensures HasCodes(staticLtree[..], FixedLitLens())
    {
      hide FixedLitLens, Count, Kraft, HasCodes;
      FixedRanges();
      NoneCounted();
      var n := FillLens(blCount, 0, 143, 8);
      n := FillLens(blCount, n, 255, 9);
      n := FillLens(blCount, n, 279, 7);
      n := FillLens(blCount, n, 287, 8);
      FixedLitComplete();
      FixedColumn(staticLtree[..]);
      assert FixedLitLens()[..288] == FixedLitLens();
      GenCodes(staticLtree, L_CODES + 1, blCount);
    }

    static lemma {:induction false} FixedColumn(t: seq<CtData>)
      requires |t| == 288 && forall i :: 0 <= i < 288 ==> t[i].dl == FixedLitLens()[i]
      ensures Lens(t, 288) == FixedLitLens()
    {
    }

    static lemma {:induction false} NoneCounted()
      ensures forall l {:trigger Count(FixedLitLens()[..0], l)} :: Count(FixedLitLens()[..0], l) == 0
    {
      assert FixedLitLens()[..0] == [];
    }

    static lemma {:induction false} FixedRanges()
      ensures forall i :: 0 <= i < 288 ==>
                FixedLitLens()[i] == if i < 144 then 8 else if i < 256 then 9 else if i < 280 then 7 else 8
    {
    }

    /** The static distance tree: the code of symbol n is n itself. */
    method InitStaticDtree()
      requires Sized()
      modifies staticDtree
      ensures HasCodes(staticDtree[..], StaticDistLens())
    {
      hide CodeOf, Reverse, Kraft, Pow2;
      FivesDecodable(StaticDistLens());
      var n := 0;
      while n < D_CODES
        invariant 0 <= n <= D_CODES
        invariant forall i :: 0 <= i < n ==>
                  staticDtree[i].dl == 5 && staticDtree[i].fc == Reverse(CodeOf(StaticDistLens(), i), 5)
      {
        FivesCode(StaticDistLens(), n);
        var code := BiReverse(n, 5);
        staticDtree[n] := CtData(code, 5);
        n := n + 1;
      }
    }

    /** The tables and the static trees. */
    method Init(blCount: array<nat>)
      requires Sized() && blCount.Length == MAX_BITS + 1 && forall l :: 0 <= l <= MAX_BITS ==> blCount[l] == 0
      requires blCount != lengthCode && blCount != distCode && blCount != baseLength && blCount != baseDist
      modifies lengthCode, baseLength, distCode, baseDist, staticLtree, staticDtree, blCount
      ensures Valid()
    {
      hide HasCodes, LengthCoded, DistCoded, FixedLitLens, StaticDistLens;
      InitLengths();
      InitDists();
      InitStaticLtree(blCount);
      InitStaticDtree();
    }
  }
}
