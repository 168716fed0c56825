/** The bit-packing writer of gzip.c: outbuf, outcnt, bi_buf and bi_valid of struct globals. */
module BitOutput {
  import opened Bits

  const OUTBUFSIZ := 8192
  const BUF_SIZE := 16

  /** The number of zero bits needed to reach the next byte boundary. */
  function Padding(n: nat): (p: nat)
    ensures p < 8 && (n + p) % 8 == 0
  {
    (8 - n % 8) % 8
  }

  class BitWriter {
    const outbuf: array<byte>
    var outcnt: nat
    var biBuf: nat
    var biValid: nat
    /** Everything handed to xwrite so far. */
    var written: seq<byte>

    ghost predicate OutValid()
      reads this`outcnt
    {
      outbuf.Length == OUTBUFSIZ && outcnt < OUTBUFSIZ
    }

    ghost predicate Valid()
      reads this, outbuf
    {
      && OutValid()
      && biValid <= BUF_SIZE
      && biBuf < Pow2(biValid)
    }

    /** The whole bytes produced so far, flushed or not. */
    ghost function Bytes(): seq<byte>
      reads this`outcnt, this`written, outbuf
      requires OutValid()
    {
      written + outbuf[..outcnt]
    }

    /** Every bit sent so far, including those still held in biBuf. */
    ghost function Contents(): seq<bool>
      reads this, outbuf
      requires Valid()
    {
      ByteBits(Bytes()) + BitsOf(biBuf, biValid)
    }

    constructor ()
      ensures Valid() && fresh(outbuf)
      ensures Contents() == []
    {
      outbuf := new byte[OUTBUFSIZ];
      outcnt, biBuf, biValid, written := 0, 0, 0, [];
    }

    method FlushOutbuf()
      requires outbuf.Length == OUTBUFSIZ && outcnt <= OUTBUFSIZ
      modifies this`written, this`outcnt
      ensures OutValid() && outcnt == 0
      ensures Bytes() == old(written + outbuf[..outcnt])
    {
      if outcnt == 0 { return; }
      written := written + outbuf[..outcnt];
      outcnt := 0;
    }

    /** Appends the low byte of c. */
    method Put8bit(c: nat)
      requires OutValid()
      modifies this`written, this`outcnt, outbuf
      ensures OutValid()
      ensures Bytes() == old(Bytes()) + [c % 256]
    {
      ghost var before := outbuf[..outcnt];
      outbuf[outcnt] := c % 256;
      outcnt := outcnt + 1;
      assert outbuf[..outcnt] == before + [c % 256];
      assert written + outbuf[..outcnt] == old(Bytes()) + [c % 256];
      if outcnt == OUTBUFSIZ { FlushOutbuf(); }
    }

    /** Appends a 16-bit value, low byte first. */
    method Put16bit(w: nat)
      requires OutValid() && w < 65536
      modifies this`written, this`outcnt, outbuf
      ensures OutValid()
      ensures Bytes() == old(Bytes()) + [w % 256, w / 256]
      ensures ByteBits(Bytes()) == old(ByteBits(Bytes())) + BitsOf(w, 16)
    {
      hide ByteBits, BitsOf, Pow2;
      ghost var bytes := Bytes();
      if outcnt < OUTBUFSIZ - 2 {
        ghost var before := outbuf[..outcnt];
        outbuf[outcnt] := w % 256;
        outcnt := outcnt + 1;
        outbuf[outcnt] := w / 256;
        outcnt := outcnt + 1;
        assert outbuf[..outcnt] == before + [w % 256, w / 256];
      } else {
        Put8bit(w);
        Put8bit(w / 256);
        assert (bytes + [w % 256]) + [w / 256] == bytes + [w % 256, w / 256];
      }
      PutWordBits(bytes, w);
    }

    /** Sends the low length bits of value, least significant bit first. */
    method SendBits(value: nat, length: nat)
      requires Valid() && length <= BUF_SIZE && value < Pow2(length)
      modifies this, outbuf
      ensures Valid()
      ensures Contents() == old(Contents()) + BitsOf(value, length)
    {
      hide ByteBits, BitsOf, Pow2, BitOr, ShiftLeft, ShiftRight;
      ghost var bytes := ByteBits(Bytes());
      ghost var buf, v := biBuf, biValid;
      if biValid > BUF_SIZE - length {
        SendSplit(biBuf, biValid, value, length);
        biBuf := BitOr(biBuf, ShiftLeft(value, biValid) % 65536);
        Put16bit(biBuf);
        ghost var word := BitsOf(biBuf, 16);
        biBuf := ShiftRight(value % 65536, BUF_SIZE - biValid);
        biValid := biValid + length - BUF_SIZE;
        Regroup(bytes, word, BitsOf(biBuf, biValid), BitsOf(buf, v), BitsOf(value, length));
      } else {
        SendFits(biBuf, biValid, value, length);
        biBuf := BitOr(biBuf, ShiftLeft(value, biValid));
        biValid := biValid + length;
        ConcatAssoc(bytes, BitsOf(buf, v), BitsOf(value, length));
      }
    }

    /** Writes out the bits of an incomplete byte, padded with zero bits. */
    method BiWindup()
      requires Valid()
      modifies this, outbuf
      ensures Valid() && biValid == 0
      ensures Contents() == old(Contents()) + BitsOf(0, Padding(|old(Contents())|))
    {
      hide ByteBits, BitsOf, Pow2, BitOr, ShiftLeft, ShiftRight;
      ghost var bytes := ByteBits(Bytes());
      ghost var held := BitsOf(biBuf, biValid);
      ghost var pad := Padding(|bytes + held|);
      PadTo(biBuf, biValid, bytes);
      if biValid > 8 {
        WordFits(biBuf, biValid);
        Put16bit(biBuf);
      } else if biValid > 0 {
        ByteFits(biBuf, biValid);
        ByteBitsSnoc(Bytes(), biBuf % 256);
        Put8bit(biBuf);
      }
      biBuf := 0;
      biValid := 0;
      ConcatAssoc(bytes, held, BitsOf(0, pad));
      assert ByteBits(Bytes()) + BitsOf(0, 0) == ByteBits(Bytes());
    }

    /** Appends len bytes of buf from start. */
    method PutBytes(buf: array<byte>, start: nat, len: nat)
      requires OutValid() && buf != outbuf && start + len <= buf.Length
      modifies this`written, this`outcnt, outbuf
      ensures OutValid() && Bytes() == old(Bytes()) + buf[start..start + len]
    {
      ghost var bytes := Bytes();
      var i := 0;
      while i < len
        invariant i <= len && OutValid() && Bytes() == bytes + buf[start..start + i]
      {
        hide Bytes;
        assert buf[start..start + i + 1] == buf[start..start + i] + [buf[start + i]];
        Put8bit(buf[start + i]);
        i := i + 1;
      }
    }

    /** Copies len bytes of buf from start as the body of a stored block, after its length
        and the complement of that. */
    method CopyBlock(buf: array<byte>, start: nat, len: nat)
      requires Valid() && buf != outbuf && start + len <= buf.Length
      modifies this, outbuf
      ensures Valid() && biValid == 0
      ensures Contents() == old(Contents()) + StoredBits(|old(Contents())|, len, buf[start..start + len])
    {
      hide ByteBits, BitsOf, Pow2;
      ghost var before := Contents();
      BiWindup();
      ghost var aligned := ByteBits(Bytes());
      assert aligned + BitsOf(0, 0) == aligned;
      Put16bit(len % 65536);
      Put16bit(65535 - len % 65536);
      ghost var bytes := Bytes();
      PutBytes(buf, start, len);
      ByteBitsConcat(bytes, buf[start..start + len]);
      assert ByteBits(Bytes()) + BitsOf(0, 0) == ByteBits(Bytes());
      RegroupStored(before, BitsOf(0, Padding(|before|)), BitsOf(len % 65536, 16), BitsOf(65535 - len % 65536, 16),
              ByteBits(buf[start..start + len]));
    }
  }

  /** What follows position n of the bit string when a stored block's data is sent: padding, LEN, NLEN and the bytes. */
  function StoredBits(n: nat, len: nat, data: seq<byte>): seq<bool>
  {
    BitsOf(0, Padding(n)) + (BitsOf(len % 65536, 16) + (BitsOf(65535 - len % 65536, 16) + ByteBits(data)))
  }

  lemma {:induction false} RegroupStored(a: seq<bool>, b: seq<bool>, c: seq<bool>, d: seq<bool>, e: seq<bool>)
    ensures ((((a + b) + c) + d) + e) == a + (b + (c + (d + e)))
  {
  }

  lemma {:induction false} PutWordBits(bytes: seq<byte>, w: nat)
    requires w < 65536
    ensures ByteBits(bytes + [w % 256, w / 256]) == ByteBits(bytes) + BitsOf(w, 16)
  {
    WordBits(w);
    ByteBitsSnoc(bytes, w % 256);
    ByteBitsSnoc(bytes + [w % 256], w / 256);
    assert bytes + [w % 256, w / 256] == (bytes + [w % 256]) + [w / 256];
    ConcatAssoc(ByteBits(bytes), BitsOf(w % 256, 8), BitsOf(w / 256, 8));
  }

  /** The room left in the buffer suffices. */
  lemma {:induction false} SendFits(buf: nat, v: nat, value: nat, length: nat)
    requires v + length <= 16 && buf < Pow2(v) && value < Pow2(length)
    ensures BitOr(buf, ShiftLeft(value, v)) < Pow2(v + length)
    ensures BitsOf(BitOr(buf, ShiftLeft(value, v)), v + length) == BitsOf(buf, v) + BitsOf(value, length)
  {
    hide BitOr, BitsOf, Pow2;
    BitOrDisjoint(buf, value, v);
    BitsOfPacked(buf, value, v, length);
    PackedBound(buf, value, v, length);
  }

  lemma {:induction false} PackedBound(a: nat, b: nat, k: nat, n: nat)
    requires a < Pow2(k) && b < Pow2(n)
    ensures a + b * Pow2(k) < Pow2(k + n)
  {
    Pow2Add(n, k);
    MulLess(b, Pow2(n), Pow2(k));
  }

  /** The value straddles the 16-bit buffer. */
  lemma {:induction false} SendSplit(buf: nat, v: nat, value: nat, length: nat)
    requires v <= 16 && length <= 16 < v + length && buf < Pow2(v) && value < Pow2(length)
    ensures var word := BitOr(buf, ShiftLeft(value, v) % 65536);
            var rest := ShiftRight(value % 65536, 16 - v);
            && word < 65536
            && rest < Pow2(v + length - 16)
            && BitsOf(word, 16) + BitsOf(rest, v + length - 16) == BitsOf(buf, v) + BitsOf(value, length)
  {
    hide BitOr, BitsOf, Pow2;
    var n := v + length - 16;
    var lo, hi := SplitValue(value, v, length);
    SendFits(buf, v, lo, 16 - v);
    Pow2Is16();
    BitsOfPacked(lo, hi, 16 - v, n);
    ConcatAssoc(BitsOf(buf, v), BitsOf(lo, 16 - v), BitsOf(hi, n));
  }

  lemma {:induction false} Pow2Is8()
    ensures Pow2(8) == 256
  {
    Pow2Values();
  }

  lemma {:induction false} Pow2Is16()
    ensures Pow2(16) == 65536
  {
    Pow2Values();
  }

  /** The value as its 16 - v low bits, which fill the buffer, and the rest. */
  lemma {:induction false} SplitValue(value: nat, v: nat, length: nat) returns (lo: nat, hi: nat)
    requires v <= 16 && length <= 16 < v + length && value < Pow2(length)
    ensures lo < Pow2(16 - v) && hi < Pow2(v + length - 16) && value == lo + hi * Pow2(16 - v)
    ensures ShiftLeft(value, v) % 65536 == ShiftLeft(lo, v)
    ensures ShiftRight(value % 65536, 16 - v) == hi
  {
    hide Pow2;
    var p, n := Pow2(16 - v), v + length - 16;
    Pow2Is16();
    Pow2Mono(length, 16);
    Pow2Add(16 - v, v);
    Pow2Add(n, 16 - v);
    lo, hi := SplitAt(value, p, Pow2(n), Pow2(v));
    Within(value, 65536);
  }

  lemma {:induction false} Within(value: nat, n: nat)
    requires value < n
    ensures value % n == value
  {
  }

  lemma {:induction false} SplitAt(value: nat, p: nat, r: nat, q: nat) returns (lo: nat, hi: nat)
    requires p > 0 && q > 0 && value < r * p
    ensures lo < p && hi < r && value == lo + hi * p && hi == value / p
    ensures (value * q) % (p * q) == lo * q
  {
    lo, hi := value % p, value / p;
    DivMod(value, p);
    MulLess(r, hi, p);
    MulLess(lo, p, q);
    TopCut(lo, hi, p, q);
  }

  lemma {:induction false} TopCut(lo: nat, hi: nat, p: nat, q: nat)
    requires p * q > 0 && lo * q < p * q
    ensures ((lo + hi * p) * q) % (p * q) == lo * q
  {
    assert (lo + hi * p) * q == (p * q) * hi + lo * q by {
      assert (hi * p) * q == (p * q) * hi;
      assert (lo + hi * p) * q == lo * q + (hi * p) * q;
    }
    ModUnique((lo + hi * p) * q, p * q, hi, lo * q);
  }

  lemma {:induction false} Regroup(a: seq<bool>, word: seq<bool>, rest: seq<bool>, held: seq<bool>, sent: seq<bool>)
    requires word + rest == held + sent
    ensures (a + word) + rest == (a + held) + sent
  {
    ConcatAssoc(a, word, rest);
    ConcatAssoc(a, held, sent);
  }

  lemma {:induction false} WordFits(buf: nat, v: nat)
    requires 8 < v <= 16 && buf < Pow2(v)
    ensures buf < 65536 && BitsOf(buf, 16) == BitsOf(buf, v) + BitsOf(0, 16 - v)
  {
    hide Pow2, BitsOf;
    Pow2Is16();
    Pow2Mono(v, 16);
    BitsOfPacked(buf, 0, v, 16 - v);
  }

  lemma {:induction false} ByteFits(buf: nat, v: nat)
    requires 0 < v <= 8 && buf < Pow2(v)
    ensures buf % 256 == buf && BitsOf(buf, 8) == BitsOf(buf, v) + BitsOf(0, 8 - v)
  {
    hide Pow2, BitsOf;
    Pow2Is8();
    Pow2Mono(v, 8);
    BitsOfPacked(buf, 0, v, 8 - v);
  }

  lemma {:induction false} PadTo(buf: nat, v: nat, bytes: seq<bool>)
    requires v <= 16 && |bytes| % 8 == 0
    ensures Padding(|bytes + BitsOf(buf, v)|) == if v > 8 then 16 - v else if v > 0 then 8 - v else 0
  {
    hide BitsOf;
  }
}
