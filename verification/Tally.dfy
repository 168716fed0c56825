/** ct_tally: saving one literal or match in the block buffers and counting its symbols. */
module Tally {
  import opened Bits
  import opened Canonical
  import opened Inflate
  import opened Trees
  import opened Costs
  import opened Tables
  import opened Items
  import opened BlockBuffer

  // ----- flags

  lemma {:induction false} ValueOfSnoc(b: seq<bool>, x: bool)
    ensures ValueOf(b + [x]) == ValueOf(b) + if x then Pow2(|b|) else 0
  {
    if b == [] {
      assert [x][1..] == [];
    } else {
      assert (b + [x])[1..] == b[1..] + [x];
      ValueOfSnoc(b[1..], x);
    }
  }

  /** The flags of the items not yet saved as a whole byte. */
  function OpenFlags(items: seq<Item>): seq<bool>
  {
    FlagBits(items)[8 * (|items| / 8)..]
  }

  lemma {:induction false} FlagsGrow(items: seq<Item>, item: Item)
    ensures var n := |items|;
            && FlagBits(items + [item]) == FlagBits(items) + [item.Match?]
            && (n % 8 < 7 ==> OpenFlags(items + [item]) == OpenFlags(items) + [item.Match?])
            && (n % 8 == 7 ==> OpenFlags(items + [item]) == []
                               && FlagByte(items + [item], n / 8) == ValueOf(OpenFlags(items) + [item.Match?]))
    ensures |OpenFlags(items)| == |items| % 8
    ensures forall k :: 0 <= k < |items| / 8 ==> FlagByte(items + [item], k) == FlagByte(items, k)
  {
    hide ValueOf;
    var n := |items|;
    var fs := FlagBits(items);
    FlagBitsGrow(items, item);
    hide FlagBits;
    if n % 8 < 7 {
      assert (fs + [item.Match?])[8 * (n / 8)..] == fs[8 * (n / 8)..] + [item.Match?];
    } else {
      assert (fs + [item.Match?])[8 * (n / 8)..n + 1] == fs[8 * (n / 8)..] + [item.Match?];
    }
    forall k | 0 <= k < n / 8 ensures FlagByte(items + [item], k) == FlagByte(items, k) {
      assert (fs + [item.Match?])[8 * k..8 * k + 8] == fs[8 * k..8 * k + 8];
    }
  }

  lemma {:induction false} FlagBitsGrow(items: seq<Item>, item: Item)
    ensures FlagBits(items + [item]) == FlagBits(items) + [item.Match?]
  {
  }

  /** Setting the flag bit of a match. */
  lemma {:induction false} SetFlag(b: seq<bool>)
    ensures BitOr(ValueOf(b), Pow2(|b|)) == ValueOf(b + [true])
    ensures ValueOf(b + [false]) == ValueOf(b)
  {
    ValueOfBound(b);
    BitOrDisjoint(ValueOf(b), 1, |b|);
    assert 1 * Pow2(|b|) == Pow2(|b|);
    ValueOfSnoc(b, true);
    ValueOfSnoc(b, false);
  }

  // ----- the buffers

  class TallyBuffers {
    const lBuf: array<nat>
    const dBuf: array<nat>
    const flagBuf: array<nat>
    var lastLit: nat
    var lastDist: nat
    var lastFlags: nat
    var flags: nat
    var flagBit: nat

    constructor ()
      ensures Holds([]) && fresh(lBuf) && fresh(dBuf) && fresh(flagBuf)
    {
      lBuf := new nat[LIT_BUFSIZE];
      dBuf := new nat[DIST_BUFSIZE];
      flagBuf := new nat[LIT_BUFSIZE / 8];
      lastLit, lastDist, lastFlags, flags, flagBit := 0, 0, 0, 0, 1;
    }

    ghost predicate Sized()
    {
      lBuf.Length == LIT_BUFSIZE && dBuf.Length == DIST_BUFSIZE && flagBuf.Length == LIT_BUFSIZE / 8
      && lBuf != dBuf && lBuf != flagBuf && dBuf != flagBuf
    }

    /** The buffers hold the items; the flags of the last few are still in flags. */
    ghost predicate Holds(items: seq<Item>)
      reads this, lBuf, dBuf, flagBuf
    {
      Sized() && GoodItems(items) && |items| < LIT_BUFSIZE && HoldsBytes(items) && HoldsFlags(items)
    }

    ghost predicate HoldsBytes(items: seq<Item>)
      requires Sized() && GoodItems(items) && |items| < LIT_BUFSIZE
      reads this`lastLit, this`lastDist, lBuf, dBuf
    {
      && lastLit == |items| && lBuf[..|items|] == LBytes(items)
      && lastDist == |DistBytes(items)| && dBuf[..lastDist] == DistBytes(items)
    }

    ghost predicate HoldsFlags(items: seq<Item>)
      requires Sized() && |items| < LIT_BUFSIZE
      reads this`lastFlags, this`flags, this`flagBit, flagBuf
    {
      && lastFlags == |items| / 8 && (forall k :: 0 <= k < lastFlags ==> flagBuf[..][k] == FlagByte(items, k))
      && flags == ValueOf(OpenFlags(items)) && flagBit == Pow2(|items| % 8)
    }

    lemma {:induction false} Grown(items: seq<Item>, item: Item)
      requires GoodItems(items) && GoodItem(item)
      ensures GoodItems(items + [item])
      ensures LBytes(items + [item]) == LBytes(items) + [LByte(item)]
      ensures DistBytes(items + [item]) == DistBytes(items) + if item.Match? then [item.distance - 1] else []
    {
      assert (items + [item])[..|items|] == items;
    }

    /** Saves one item: dist is 0 for the literal lc, otherwise the distance of a match of length lc + 3. */
    method Save(dist: nat, lc: nat, ghost items: seq<Item>, ghost item: Item)
      requires Holds(items) && |items| + 1 < LIT_BUFSIZE
      requires GoodItem(item) && lc == LByte(item) && (if item.Match? then dist == item.distance else dist == 0)
      modifies this, lBuf, dBuf, flagBuf
      ensures Holds(items + [item])
    {
      hide HoldsFlags, GoodItems, GoodItem, LByte, LBytes, DistBytes;
      GoodGrown(items, item);
      SaveBytes(dist, lc, items, item);
      SaveFlag(dist != 0, items, item);
    }

    static lemma {:induction false} GoodGrown(items: seq<Item>, item: Item)
      requires GoodItem(item)
      ensures GoodItems(items) ==> GoodItems(items + [item])
      ensures item.Match? ==> item.distance > 0
    {
      assert (items + [item])[..|items|] == items;
    }

    /** The bytes of the item go to the two buffers. */
    method SaveBytes(dist: nat, lc: nat, ghost items: seq<Item>, ghost item: Item)
      requires Sized() && GoodItems(items) && |items| + 1 < LIT_BUFSIZE && HoldsBytes(items)
      requires GoodItem(item) && lc == LByte(item) && (if item.Match? then dist == item.distance else dist == 0)
      modifies this`lastLit, this`lastDist, lBuf, dBuf
      ensures GoodItems(items + [item]) && HoldsBytes(items + [item])
    {
      hide DistBytes, LBytes, LByte;
      Grown(items, item);
      ghost var l, d := lBuf[..], dBuf[..];
      lBuf[lastLit] := lc;
      lastLit := lastLit + 1;
      assert lBuf[..lastLit] == l[..|items|] + [lc];
      if dist != 0 {
        dBuf[lastDist] := dist - 1;
        lastDist := lastDist + 1;
        assert dBuf[..lastDist] == d[..lastDist - 1] + [dist - 1];
      } else {
        assert dBuf[..lastDist] == d[..lastDist];
      }
    }

    /** The flag of the item goes to the open byte, which is saved when it is full. */
    method SaveFlag(isMatch: bool, ghost items: seq<Item>, ghost item: Item)
      requires Sized() && |items| + 1 < LIT_BUFSIZE && HoldsFlags(items) && lastLit == |items| + 1
              && isMatch == item.Match?
      modifies this`lastFlags, this`flags, this`flagBit, flagBuf
      ensures HoldsFlags(items + [item])
    {
      hide ValueOf, FlagByte, Pow2, OpenFlags, BitOr;
      FlagsGrow(items, item);
      SetFlag(OpenFlags(items));
      if isMatch { flags := BitOr(flags, flagBit); }
      FlagBitNext(|items|);
      flagBit := (flagBit * 2) % 256;
      if lastLit % 8 == 0 {
        flagBuf[lastFlags] := flags;
        lastFlags := lastFlags + 1;
        flags := 0;
        flagBit := 1;
      }
    }

    static lemma {:induction false} FlagBitNext(n: nat)
      ensures n % 8 < 7 ==> (Pow2(n % 8) * 2) % 256 == Pow2((n + 1) % 8)
      ensures (n + 1) % 8 == 0 ==> Pow2((n + 1) % 8) == 1 && ValueOf([]) == 0
    {
      if n % 8 < 7 { Pow2Mono(n % 8 + 1, 7); }
      Pow2Values();
    }

    /** Saves the flags of the last items, which makes the buffers complete. */
    method SaveFlags(ghost items: seq<Item>)
      requires Holds(items)
      modifies flagBuf
      ensures Saved(items, lBuf[..], dBuf[..], flagBuf[..]) && Sized() && lastLit == |items|
    {
      hide ValueOf, DistBytes, LBytes;
      flagBuf[lastFlags] := flags;
      var k := |items| / 8;
      assert FlagBits(items)[8 * k..] == FlagBits(items)[8 * k..Min(8 * k + 8, |items|)];
    }

    /** Empties the buffers. */
    method Clear()
      requires Sized()
      modifies this
      ensures Holds([])
    {
      lastLit, lastDist, lastFlags := 0, 0, 0;
      flags := 0;
      flagBit := 1;
      assert OpenFlags([]) == [] && Pow2(0) == 1;
    }
  }
}
