/** Natural-number models of the C bit operators, and bit strings as sequences of bool.
    All bit strings are least-significant-bit first unless a name says otherwise. */
module Bits {

  /** 2 to the power k. */
  function Pow2(k: nat): (r: nat)
    ensures r >= 1
  {
    if k == 0 then 1 else 2 * Pow2(k - 1)
  }

  lemma {:induction false} Pow2Add(a: nat, b: nat)
    ensures Pow2(a + b) == Pow2(a) * Pow2(b)
  {
    if a > 0 {
      Pow2Add(a - 1, b);
      assert Pow2(a + b) == 2 * Pow2(a - 1 + b);
      assert 2 * (Pow2(a - 1) * Pow2(b)) == (2 * Pow2(a - 1)) * Pow2(b);
    }
  }

  lemma {:induction false} Pow2Mono(a: nat, b: nat)
    requires a <= b
    ensures Pow2(a) <= Pow2(b)
  {
    if a < b { Pow2Mono(a, b - 1); }
  }

  lemma {:induction false} Pow2Values()
    ensures Pow2(3) == 8 && Pow2(4) == 16 && Pow2(5) == 32 && Pow2(7) == 128 && Pow2(8) == 256
    ensures Pow2(13) == 8192 && Pow2(15) == 32768 && Pow2(16) == 65536
  {
    assert Pow2(8) == 256;
    assert Pow2(12) == 4096;
    assert Pow2(14) == 16384;
  }

  /** The C operators `<<` and `>>` on unsigned operands wide enough not to lose bits. */
  function ShiftLeft(v: nat, k: nat): (r: nat) { v * Pow2(k) }

  function ShiftRight(v: nat, k: nat): (r: nat) { Quotient(v, Pow2(k)) }

  function Quotient(v: nat, p: nat): (r: nat)
    requires p > 0
  {
    v / p
  }

  /** The C operator `|` on unsigned operands. */
  function BitOr(a: nat, b: nat): (r: nat)
    decreases a + b
  {
    if a == 0 && b == 0 then 0
    else 2 * BitOr(a / 2, b / 2) + (if a % 2 == 1 || b % 2 == 1 then 1 else 0)
  }

  /** The C operator `^` on unsigned operands. */
  function BitXor(a: nat, b: nat): (r: nat)
    decreases a + b
  {
    if a == 0 && b == 0 then 0
    else 2 * BitXor(a / 2, b / 2) + (if a % 2 != b % 2 then 1 else 0)
  }

  lemma {:induction false} BitOrZero(a: nat)
    ensures BitOr(a, 0) == a
  {
    if a > 0 { BitOrZero(a / 2); }
  }

  lemma {:induction false} BitOrAssoc(a: nat, b: nat, c: nat)
    ensures BitOr(BitOr(a, b), c) == BitOr(a, BitOr(b, c))
    decreases a + b + c
  {
    if a > 0 || b > 0 || c > 0 {
      BitOrHalves(a, b);
      BitOrHalves(b, c);
      BitOrHalves(BitOr(a, b), c);
      BitOrHalves(a, BitOr(b, c));
      BitOrAssoc(a / 2, b / 2, c / 2);
    }
  }

  lemma {:induction false} BitOrHalves(a: nat, b: nat)
    ensures BitOr(a, b) / 2 == BitOr(a / 2, b / 2) && BitOr(a, b) % 2 == (if a % 2 == 1 || b % 2 == 1 then 1 else 0)
  {
  }

  /** Or-ing in a value shifted past the occupied bits is an addition. */
  lemma {:induction false} BitOrDisjoint(a: nat, b: nat, k: nat)
    requires a < Pow2(k)
    ensures BitOr(a, b * Pow2(k)) == a + b * Pow2(k)
  {
    if k == 0 {
      BitOrZeroLeft(b);
    } else {
      var s := b * Pow2(k);
      assert s == 2 * (b * Pow2(k - 1));
      BitOrDisjoint(a / 2, b, k - 1);
      assert s / 2 == b * Pow2(k - 1) && s % 2 == 0;
    }
  }

  lemma {:induction false} BitOrZeroLeft(b: nat)
    ensures BitOr(0, b) == b
  {
    if b > 0 { BitOrZeroLeft(b / 2); }
  }

  /** The n low-order bits of v. */
  function BitsOf(v: nat, n: nat): (b: seq<bool>)
    ensures |b| == n
    decreases n
  {
    if n == 0 then [] else [v % 2 == 1] + BitsOf(v / 2, n - 1)
  }

  /** The number a bit string denotes. */
  function ValueOf(b: seq<bool>): (v: nat)
  {
    if b == [] then 0 else (if b[0] then 1 else 0) + 2 * ValueOf(b[1..])
  }

  lemma {:induction false} ValueOfBitsOf(v: nat, n: nat)
    requires v < Pow2(n)
    ensures ValueOf(BitsOf(v, n)) == v
  {
    if n > 0 {
      ValueOfBitsOf(v / 2, n - 1);
      assert BitsOf(v, n)[1..] == BitsOf(v / 2, n - 1);
    }
  }

  lemma {:induction false} ValueOfBound(b: seq<bool>)
    ensures ValueOf(b) < Pow2(|b|)
  {
    if b != [] { ValueOfBound(b[1..]); }
  }

  lemma {:induction false} PackedHalf(a: nat, b: nat, p: nat)
    ensures a + b * (2 * p) == a + 2 * (b * p)
  {
  }

  /** Packing b above the k low bits of a concatenates the two bit strings. */
  lemma {:induction false} BitsOfPacked(a: nat, b: nat, k: nat, n: nat)
    requires a < Pow2(k)
    ensures BitsOf(a + b * Pow2(k), k + n) == BitsOf(a, k) + BitsOf(b, n)
  {
    if k > 0 {
      var half := b * Pow2(k - 1);
      PackedHalf(a, b, Pow2(k - 1));
      assert (a + 2 * half) / 2 == a / 2 + half && (a + 2 * half) % 2 == a % 2;
      BitsOfPacked(a / 2, b, k - 1, n);
    } else {
      assert a + b * Pow2(k) == b;
      assert BitsOf(a, 0) + BitsOf(b, n) == BitsOf(b, n);
    }
  }

  /** v mod 2m keeps the low bit of v and the residue of the rest. */
  lemma {:induction false} ModHalf(v: nat, m: nat)
    requires m > 0
    ensures v % (2 * m) == v % 2 + 2 * ((v / 2) % m)
  {
    var h := v / 2;
    assert h == m * (h / m) + h % m;
    assert v == 2 * m * (h / m) + (v % 2 + 2 * (h % m)) by {
      assert 2 * (m * (h / m)) == 2 * m * (h / m);
    }
    ModUnique(v, 2 * m, h / m, v % 2 + 2 * (h % m));
  }

  lemma {:induction false} ModUnique(v: int, m: nat, q: int, r: nat)
    requires m > 0 && v == m * q + r && r < m
    ensures v % m == r && v / m == q
  {
    MulLess(q, v / m, m);
    MulLess(v / m, q, m);
  }

  lemma {:induction false} DivMod(v: nat, m: nat)
    requires m > 0
    ensures v == v % m + (v / m) * m && v / m >= 0
  {
  }

  lemma {:induction false} Spread(a: nat, b: nat, p: nat)
    ensures (a + b) * p == a * p + b * p
  {
  }

  lemma {:induction false} DivOne(v: nat)
    ensures v / 1 == v
  {
  }

  lemma {:induction false} DivHalf(v: nat, m: nat)
    requires m > 0
    ensures (v / 2) / m == v / (2 * m)
  {
    var h := v / 2;
    assert 2 * (m * (h / m)) == 2 * m * (h / m);
    ModUnique(v, 2 * m, h / m, v % 2 + 2 * (h % m));
  }

  lemma {:induction false} MulLess(x: int, y: int, m: nat)
    ensures x < y ==> m * x + m <= m * y
  {
    if x < y { MulMono(y - x - 1, m); assert m * y == m * x + (m * (y - x - 1) + m); }
  }

  lemma {:induction false} MulMono(k: nat, m: nat)
    ensures m * k >= 0
  {
  }

  /** A byte, and the bit string of a byte sequence (RFC 1951, section 3.1.1). */
  type byte = b: int | 0 <= b < 256

  function ByteBits(bytes: seq<byte>): (b: seq<bool>)
    ensures |b| == 8 * |bytes|
  {
    if bytes == [] then [] else ByteBits(bytes[..|bytes| - 1]) + BitsOf(bytes[|bytes| - 1], 8)
  }

  lemma {:induction false} ByteBitsSnoc(s: seq<byte>, b: byte)
    ensures ByteBits(s + [b]) == ByteBits(s) + BitsOf(b, 8)
  {
    assert (s + [b])[..|s|] == s;
  }

  lemma {:induction false} ByteBitsConcat(s: seq<byte>, t: seq<byte>)
    ensures ByteBits(s + t) == ByteBits(s) + ByteBits(t)
  {
    hide BitsOf;
    if t == [] {
      assert s + t == s;
    } else {
      var t' := t[..|t| - 1];
      ByteBitsConcat(s, t');
      assert (s + t)[..|s + t| - 1] == s + t';
      ConcatAssoc(ByteBits(s), ByteBits(t'), BitsOf(t[|t| - 1], 8));
    }
  }

  lemma {:induction false} ConcatAssoc<T>(a: seq<T>, b: seq<T>, c: seq<T>)
    ensures (a + b) + c == a + (b + c)
  {
  }

  /** A 16-bit word written low byte first. */
  lemma {:induction false} WordBits(w: nat)
    requires w < 65536
    ensures BitsOf(w, 16) == BitsOf(w % 256, 8) + BitsOf(w / 256, 8)
  {
    Pow2Values();
    BitsOfPacked(w % 256, w / 256, 8, 8);
  }

  /** Reverses the low len bits of code. */
  function Reverse(code: nat, len: nat): (r: nat)
    ensures r < Pow2(len)
  {
    if len == 0 then 0 else (code % 2) * Pow2(len - 1) + Reverse(code / 2, len - 1)
  }

  /** The low len bits of code, most significant first: how section 3.1.1 of RFC 1951 packs Huffman codes. */
  function MsbBits(code: nat, len: nat): (b: seq<bool>)
    ensures |b| == len
    decreases len
  {
    if len == 0 then [] else MsbBits(code / 2, len - 1) + [code % 2 == 1]
  }

  lemma {:induction false} ReverseSplit(code: nat, len: nat)
    requires len > 0
    ensures Reverse(code, len) == Reverse(code / 2, len - 1) + (code % 2) * Pow2(len - 1)
  {
  }

  /** Sending the reversed code least significant bit first sends the code most significant bit first. */
  lemma {:induction false} ReverseBits(code: nat, len: nat)
    ensures BitsOf(Reverse(code, len), len) == MsbBits(code, len)
  {
    if len > 0 {
      ReverseBits(code / 2, len - 1);
      ReverseSplit(code, len);
      hide Pow2, Reverse;
      BitsOfPacked(Reverse(code / 2, len - 1), code % 2, len - 1, 1);
      assert BitsOf(code % 2, 1) == [code % 2 == 1] by {
        assert BitsOf((code % 2) / 2, 0) == [];
      }
    }
  }

  /** Reverses the first len bits of a code. */
  method BiReverse(code: nat, len: nat) returns (res: nat)
    requires 1 <= len
    ensures res == Reverse(code, len)
  {
    hide BitOr, Reverse, ReversedWith;
    res := 0;
    var c: nat, l: nat := code, len;
    ReversedFromStart(code, len);
    while true
      invariant 1 <= l <= len && res % 2 == 0 && ReversedWith(res, c, l) == Reverse(code, len)
      decreases l
    {
      OrLowBit(res, c);
      ReversedStep(res, c, l);
      res := BitOr(res, c % 2);
      l := l - 1;
      if l <= 0 { return; }
      c := c / 2;
      res := res * 2;
    }
  }

  /** What becomes of the bits reversed so far once the l bits of c follow. */
  function ReversedWith(res: nat, c: nat, l: nat): nat
    requires l >= 1
  {
    res * Pow2(l - 1) + Reverse(c, l)
  }

  lemma {:induction false} ReversedFromStart(code: nat, len: nat)
    requires len >= 1
    ensures ReversedWith(0, code, len) == Reverse(code, len)
  {
    hide Reverse, Pow2;
  }

  lemma {:induction false} ReversedStep(res: nat, c: nat, l: nat)
    requires l >= 1
    ensures l > 1 ==> ReversedWith(res, c, l) == ReversedWith((res + c % 2) * 2, c / 2, l - 1)
    ensures l == 1 ==> ReversedWith(res, c, l) == res + c % 2
  {
    ReverseSplit(c, l);
    SumTimes(res, c % 2, Pow2(l - 1));
    if l > 1 {
      assert Pow2(l - 1) == 2 * Pow2(l - 2);
      hide Pow2, Reverse;
      DoubleMoves(res + c % 2, Pow2(l - 2));
    }
  }

  lemma {:induction false} SumTimes(a: nat, b: nat, p: nat)
    ensures (a + b) * p == a * p + b * p
  {
  }

  lemma {:induction false} DoubleMoves(a: nat, p: nat)
    ensures (a * 2) * p == a * (2 * p)
  {
  }

  lemma {:induction false} OrLowBit(res: nat, c: nat)
    requires res % 2 == 0
    ensures BitOr(res, c % 2) == res + c % 2
  {
    if res > 0 || c % 2 > 0 {
      BitOrZero(res / 2);
      assert c % 2 / 2 == 0;
    }
  }
}
