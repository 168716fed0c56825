/** A reference decoder for the DEFLATE format, RFC 1951, written from sections 3.1.1 and 3.2.3 to 3.2.7.
    It reads a bit string from a position on; None means that the data is not valid. */
module Inflate {
  import opened Bits
  import opened Canonical
  import opened Wrappers

  /** What a compressed block is made of: section 3.2.5. */
  datatype Item = Literal(b: byte) | Match(length: nat, distance: nat) | EndOfBlock

  // ----- the tables of section 3.2.5 (symbols 257..285 and distance symbols 0..29)

  function LengthBase(): (t: seq<nat>)
    ensures |t| == 29
  {
    [3, 4, 5, 6, 7, 8, 9, 10, 11, 13, 15, 17, 19, 23, 27, 31, 35, 43, 51, 59, 67, 83, 99, 115, 131, 163, 195, 227, 258]
  }

  function LengthExtra(): (t: seq<nat>)
    ensures |t| == 29
  {
    [0, 0, 0, 0, 0, 0, 0, 0, 1, 1, 1, 1, 2, 2, 2, 2, 3, 3, 3, 3, 4, 4, 4, 4, 5, 5, 5, 5, 0]
  }

  function DistBase(): (t: seq<nat>)
    ensures |t| == 30
  {
    [1, 2, 3, 4, 5, 7, 9, 13, 17, 25, 33, 49, 65, 97, 129, 193, 257, 385, 513, 769,
     1025, 1537, 2049, 3073, 4097, 6145, 8193, 12289, 16385, 24577]
  }

  function DistExtra(): (t: seq<nat>)
    ensures |t| == 30
  {
    [0, 0, 0, 0, 1, 1, 2, 2, 3, 3, 4, 4, 5, 5, 6, 6, 7, 7, 8, 8, 9, 9, 10, 10, 11, 11, 12, 12, 13, 13]
  }

  /** The order in which the lengths of the code length code are sent: section 3.2.7. */
  function CodeLengthOrder(): (t: seq<nat>)
    ensures |t| == 19
  {
    [16, 17, 18, 0, 8, 7, 9, 6, 10, 5, 11, 4, 12, 3, 13, 2, 14, 1, 15]
  }

  /** The lengths of the fixed codes: section 3.2.6. */
  function FixedLitLens(): (lens: seq<nat>)
    ensures |lens| == 288
  {
    seq(288, i => if i < 144 then 8 else if i < 256 then 9 else if i < 280 then 7 else 8)
  }

  function FixedDistLens(): (lens: seq<nat>)
    ensures |lens| == 32
  {
    seq(32, i => 5)
  }

  // ----- items

  /** An n-bit number, least significant bit first. */
  function ReadBits(bits: seq<bool>, pos: nat, n: nat): (r: Option<(nat, nat)>)
    ensures r.Some? ==> r.value.1 == pos + n <= |bits|
  {
    if pos + n <= |bits| then Some((ValueOf(bits[pos..pos + n]), pos + n)) else None
  }

  lemma {:induction false} ReadBack(bits: seq<bool>, pos: nat, v: nat, n: nat)
    requires v < Pow2(n) && At(bits, pos, BitsOf(v, n))
    ensures ReadBits(bits, pos, n) == Some((v, pos + n))
  {
    ValueOfBitsOf(v, n);
  }

  function DecodeItem(lit: seq<nat>, dist: seq<nat>, bits: seq<bool>, pos: nat): (r: Option<(Item, nat)>)
    ensures r.Some? ==> pos < r.value.1 <= |bits|
  {
    var (s, p) :- DecodeSymbol(lit, bits, pos);
    if s < 256 then Some((Literal(s), p))
    else if s == 256 then Some((EndOfBlock, p))
    else if s - 257 >= 29 then None
    else
      var (le, q) :- ReadBits(bits, p, LengthExtra()[s - 257]);
      var (d, u) :- DecodeSymbol(dist, bits, q);
      if d >= 30 then None
      else
        var (de, v) :- ReadBits(bits, u, DistExtra()[d]);
        Some((Match(LengthBase()[s - 257] + le, DistBase()[d] + de), v))
  }

  /** Copies length bytes from distance bytes back, byte by byte so that the copy may overlap itself. */
  function CopyBack(out: seq<byte>, length: nat, distance: nat): (r: seq<byte>)
    requires 1 <= distance <= |out|
    ensures |r| == |out| + length && out <= r
    decreases length
  {
    if length == 0 then out else CopyBack(out + [out[|out| - distance]], length - 1, distance)
  }

  /** The output after one literal or match. */
  function Apply(out: seq<byte>, item: Item): Option<seq<byte>>
  {
    match item
    case Literal(b) => Some(out + [b])
    case Match(length, distance) => if 1 <= distance <= |out| then Some(CopyBack(out, length, distance)) else None
    case EndOfBlock => None
  }

  /** The items of one block up to its end marker, applied to the output so far. */
  function BlockData(lit: seq<nat>, dist: seq<nat>, bits: seq<bool>, pos: nat,
      out: seq<byte>): (r: Option<(seq<byte>, nat)>)
    ensures r.Some? ==> pos < r.value.1 <= |bits|
    decreases |bits| - pos
  {
    var (item, p) :- DecodeItem(lit, dist, bits, pos);
    if item.EndOfBlock? then Some((out, p))
    else
      var out' :- Apply(out, item);
      BlockData(lit, dist, bits, p, out')
  }

  // ----- blocks

  /** Section 3.2.4. */
  function StoredBlock(bits: seq<bool>, pos: nat, out: seq<byte>): (r: Option<(seq<byte>, nat)>)
    ensures r.Some? ==> pos < r.value.1 <= |bits|
  {
    var p := pos + (8 - pos % 8) % 8;
    var (len, q) :- ReadBits(bits, p, 16);
    var (nlen, u) :- ReadBits(bits, q, 16);
    if len + nlen != 65535 then None
    else
      var (data, v) :- ReadBytes(bits, u, len);
      Some((out + data, v))
  }

  function ReadBytes(bits: seq<bool>, pos: nat, n: nat): (r: Option<(seq<byte>, nat)>)
    ensures r.Some? ==> r.value.1 == pos + 8 * n <= |bits|
    decreases n
  {
    if n == 0 then if pos <= |bits| then Some(([], pos)) else None
    else
      var (b, p) :- ReadBits(bits, pos, 8);
      var (rest, q) :- ReadBytes(bits, p, n - 1);
      var first: byte := b % 256;
      Some(([first] + rest, q))
  }

  /** n three-bit lengths. */
  function ReadLens3(bits: seq<bool>, pos: nat, n: nat): (r: Option<(seq<nat>, nat)>)
    ensures r.Some? ==> r.value.1 == pos + 3 * n && |r.value.0| == n
    decreases n
  {
    if n == 0 then Some(([], pos))
    else
      var (x, p) :- ReadBits(bits, pos, 3);
      var (rest, q) :- ReadLens3(bits, p, n - 1);
      Some(([x] + rest, q))
  }

  /** The code length code's lengths by symbol, from the first |vals| lengths in transmission order. */
  function Scatter(vals: seq<nat>): (lens: seq<nat>)
    ensures |lens| == 19
  {
    seq(19, (i: nat) => Lookup(vals, i, 0))
  }

  function Lookup(vals: seq<nat>, symbol: nat, rank: nat): nat
    decreases |vals| - rank
  {
    if rank >= |vals| || rank >= 19 then 0
    else if CodeLengthOrder()[rank] == symbol then vals[rank]
    else Lookup(vals, symbol, rank + 1)
  }

  /** Section 3.2.7: the run-length coded lengths of both codes, as one sequence of total lengths. */
  function ReadLengths(code: seq<nat>, bits: seq<bool>, pos: nat, total: nat,
      acc: seq<nat>): (r: Option<(seq<nat>, nat)>)
    ensures r.Some? ==> pos <= r.value.1 && |r.value.0| == total
    decreases |bits| - pos
  {
    if |acc| == total then Some((acc, pos))
    else if |acc| > total then None
    else
      var (s, p) :- DecodeSymbol(code, bits, pos);
      if s < 16 then ReadLengths(code, bits, p, total, acc + [s])
      else if s == 16 then
        if acc == [] then None
        else
          var (n, q) :- ReadBits(bits, p, 2);
          ReadLengths(code, bits, q, total, acc + Repeat(acc[|acc| - 1], n + 3))
      else if s == 17 then
        var (n, q) :- ReadBits(bits, p, 3);
        ReadLengths(code, bits, q, total, acc + Repeat(0, n + 3))
      else
        var (n, q) :- ReadBits(bits, p, 7);
        ReadLengths(code, bits, q, total, acc + Repeat(0, n + 11))
  }

  function Repeat(x: nat, n: nat): (r: seq<nat>)
    ensures |r| == n
  {
    seq(n, i => x)
  }

  /** Section 3.2.7. */
  function DynamicBlock(bits: seq<bool>, pos: nat, out: seq<byte>): (r: Option<(seq<byte>, nat)>)
    ensures r.Some? ==> pos < r.value.1 <= |bits|
  {
    var (hlit, p) :- ReadBits(bits, pos, 5);
    var (hdist, q) :- ReadBits(bits, p, 5);
    var (hclen, u) :- ReadBits(bits, q, 4);
    if hclen + 4 > 19 then None
    else
      var (vals, v) :- ReadLens3(bits, u, hclen + 4);
      var (lens, w) :- ReadLengths(Scatter(vals), bits, v, hlit + 257 + hdist + 1, []);
      BlockData(lens[..hlit + 257], lens[hlit + 257..], bits, w, out)
  }

  /** Section 3.2.3: the blocks from pos on, after the output so far. */
  function InflateFrom(bits: seq<bool>, pos: nat, out: seq<byte>): Option<seq<byte>>
    decreases |bits| - pos
  {
    var (header, p) :- ReadBits(bits, pos, 3);
    var (out', q) :- InflateBlock(header / 2, bits, p, out);
    if header % 2 == 1 then Some(out') else InflateFrom(bits, q, out')
  }

  function InflateBlock(kind: nat, bits: seq<bool>, pos: nat, out: seq<byte>): (r: Option<(seq<byte>, nat)>)
    ensures r.Some? ==> pos < r.value.1 <= |bits|
  {
    if kind == 0 then StoredBlock(bits, pos, out)
    else if kind == 1 then BlockData(FixedLitLens(), FixedDistLens(), bits, pos, out)
    else if kind == 2 then DynamicBlock(bits, pos, out)
    else None
  }

  function Inflate(bytes: seq<byte>): Option<seq<byte>>
  {
    InflateFrom(ByteBits(bytes), 0, [])
  }
}
