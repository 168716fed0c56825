/** The sliding window of struct globals: reading input, sliding, and the hash chains. */
module Window {
  import opened Bits
  import opened Hash

  const WSIZE := 32768
  const WINDOW_SIZE := 65536
  const MIN_MATCH := 3
  const MAX_MATCH := 258
  const MIN_LOOKAHEAD := 262
  const MAX_DIST := 32506
  /** prev and, from WSIZE on, head. */
  const PREV_SIZE := 65536

  /** The input: its bytes, and how many of them have been read. */
  class Input {
    const data: seq<byte>
    var pos: nat
    var failed: bool

    constructor (data: seq<byte>)
      ensures this.data == data && pos == 0 && !failed
    {
      this.data := data;
      pos, failed := 0, false;
    }

    /** file_read: some bytes, as many as the system likes to deliver; none at the end of the input or on an error. */
    method FileRead(buf: array<byte>, off: nat, size: nat) returns (n: nat)
      requires off + size <= buf.Length && 1 <= size && pos <= |data|
      modifies this, buf
      ensures n <= size && pos == old(pos) + n <= |data|
      ensures forall i :: 0 <= i < off ==> buf[i] == old(buf[i])
      ensures forall i :: off <= i < off + n ==> buf[i] == data[old(pos) + (i - off)]
      ensures n == 0 ==> failed || pos == |data|
      ensures n > 0 ==> failed == old(failed)
    {
      n := 0;
      if * {
        failed := true;
      } else if pos < |data| {
        var most := if size < |data| - pos then size else |data| - pos;
        n :| 1 <= n <= most;
        var k := 0;
        while k < n
          invariant 0 <= k <= n && pos == old(pos) && failed == old(failed)
          invariant forall i :: 0 <= i < off ==> buf[i] == old(buf[i])
          invariant forall i :: off <= i < off + k ==> buf[i] == data[pos + (i - off)]
        {
          buf[off + k] := data[pos + k];
          k := k + 1;
        }
        pos := pos + n;
      }
    }
  }

  /** The hash key of the string at p. */
  function HashAt(w: seq<byte>, p: nat): nat
    requires p + 2 < |w|
  {
    Hash3(w[p], w[p + 1], w[p + 2])
  }

  /** q is the latest position before p with the hash key h, or nil if there is none behind position 0. */
  ghost predicate Link(w: seq<byte>, q: nat, p: nat, h: nat)
  {
    (q == 0 || (q < p && q + 2 < |w| && HashAt(w, q) == h)) && NoneBetween(w, q, p, h)
  }

  ghost predicate NoneBetween(w: seq<byte>, q: nat, p: nat, h: nat)
  {
    forall r: nat :: q < r < p && r + 2 < |w| ==> HashAt(w, r) != h
  }

  /** The chains after all positions below ins have been inserted: head[h] is the latest position with key h, prev[p
      mod WSIZE] the one before p, as long as p is less than WSIZE back. */
  ghost predicate Chains(w: seq<byte>, prev: seq<nat>, ins: nat)
  {
    && |prev| == PREV_SIZE && ins + 2 <= |w|
    && (forall h :: 0 <= h < HASH_SIZE ==> HeadOk(w, prev, ins, h))
    && (forall p :: 0 <= p < ins && ins <= p + WSIZE ==> SlotOk(w, prev, p))
  }

  ghost predicate HeadOk(w: seq<byte>, prev: seq<nat>, ins: nat, h: nat)
    requires |prev| == PREV_SIZE && h < HASH_SIZE
  {
    Link(w, prev[WSIZE + h], ins, h)
  }

  ghost predicate SlotOk(w: seq<byte>, prev: seq<nat>, p: nat)
    requires |prev| == PREV_SIZE && p + 2 < |w|
  {
    Link(w, prev[p % WSIZE], p, HashAt(w, p))
  }

  /** Inserting position ins. */
  function Inserted(prev: seq<nat>, ins: nat, h: nat): (r: seq<nat>)
    requires |prev| == PREV_SIZE && h < HASH_SIZE
    ensures |r| == |prev|
  {
    prev[ins % WSIZE := prev[WSIZE + h]][WSIZE + h := ins]
  }

  /** Inserting n positions from ins on. */
  function InsertedAll(w: seq<byte>, prev: seq<nat>, ins: nat, n: nat): (r: seq<nat>)
    requires |prev| == PREV_SIZE && ins + n + 2 <= |w|
    ensures |r| == |prev|
  {
    if n == 0 then prev else Inserted(InsertedAll(w, prev, ins, n - 1), ins + n - 1, HashAt(w, ins + n - 1))
  }

  lemma {:induction false} InsertedFirst(w: seq<byte>, prev: seq<nat>, ins: nat, n: nat)
    requires |prev| == PREV_SIZE && ins + n + 3 <= |w|
    ensures InsertedAll(w, Inserted(prev, ins, HashAt(w, ins)), ins + 1, n) == InsertedAll(w, prev, ins, n + 1)
  {
    hide Hash3, Inserted;
    if n > 0 { InsertedFirst(w, prev, ins, n - 1); }
  }

  lemma {:induction false} InsertKeepsChains(w: seq<byte>, prev: seq<nat>, ins: nat)
    requires Chains(w, prev, ins) && ins + 3 <= |w|
    ensures Chains(w, Inserted(prev, ins, HashAt(w, ins)), ins + 1)
    ensures Link(w, prev[WSIZE + HashAt(w, ins)], ins, HashAt(w, ins))
  {
    hide Hash3;
    var key := HashAt(w, ins);
    var r, next := Inserted(prev, ins, key), ins + 1;
    forall h | 0 <= h < HASH_SIZE ensures HeadOk(w, r, next, h) {
      assert HeadOk(w, prev, ins, h);
    }
    forall p | 0 <= p < ins + 1 && ins + 1 <= p + WSIZE ensures SlotOk(w, r, p) {
      assert HeadOk(w, prev, ins, key);
      if p < ins {
        SlotsDiffer(p, ins);
        assert SlotOk(w, prev, p);
      }
    }
    assert HeadOk(w, prev, ins, key);
  }

  lemma {:induction false} SlotsDiffer(p: nat, q: nat)
    requires p < q < p + WSIZE
    ensures p % WSIZE != q % WSIZE
  {
  }

  /** The position or nil after the window has moved by WSIZE. */
  function Slide(m: nat): nat
  {
    if m >= WSIZE then m - WSIZE else 0
  }

  /** Moving the upper half of the window down moves the chains along. */
  lemma {:induction false} SlideKeepsChains(w: seq<byte>, w': seq<byte>, prev: seq<nat>, prev': seq<nat>, ins: nat)
    requires Chains(w, prev, ins) && |w'| == |w| && WSIZE <= ins && ins + 2 <= WINDOW_SIZE <= |w|
    requires |prev'| == |prev| && forall i :: 0 <= i < WSIZE + HASH_SIZE ==> prev'[i] == Slide(prev[i])
    requires forall i :: 0 <= i < WSIZE ==> w'[i] == w[i + WSIZE]
    ensures Chains(w', prev', ins - WSIZE)
  {
    hide Hash3;
    var lower := ins - WSIZE;
    forall h | 0 <= h < HASH_SIZE ensures HeadOk(w', prev', lower, h) {
      assert HeadOk(w, prev, ins, h);
      SlideLink(w, w', prev[WSIZE + h], ins, h);
    }
    forall p | 0 <= p < ins - WSIZE ensures SlotOk(w', prev', p) {
      assert SlotOk(w, prev, p + WSIZE);
      SlideLink(w, w', prev[p % WSIZE], p + WSIZE, HashAt(w, p + WSIZE));
    }
  }

  lemma {:induction false} SlideLink(w: seq<byte>, w': seq<byte>, q: nat, p: nat, h: nat)
    requires Link(w, q, p, h) && WSIZE <= p && p + 2 <= WINDOW_SIZE <= |w| == |w'|
    requires forall i :: 0 <= i < WSIZE ==> w'[i] == w[i + WSIZE]
    ensures Link(w', Slide(q), p - WSIZE, h)
  {
    hide Hash3;
    forall r: nat | Slide(q) < r < p - WSIZE && r + 2 < |w'| ensures HashAt(w', r) != h {
      assert HashAt(w', r) == HashAt(w, r + WSIZE);
    }
  }

  /** Bytes past those that have been hashed may change. */
  lemma {:induction false} ReadKeepsChains(w: seq<byte>, w': seq<byte>, prev: seq<nat>, ins: nat)
    requires Chains(w, prev, ins) && |w'| == |w| && (ins == 0 || forall i :: 0 <= i < ins + 2 ==> w'[i] == w[i])
    ensures Chains(w', prev, ins)
  {
    hide Hash3;
    forall h | 0 <= h < HASH_SIZE ensures HeadOk(w', prev, ins, h) {
      assert HeadOk(w, prev, ins, h);
      LinkKept(w, w', prev[WSIZE + h], ins, h);
    }
    forall p | 0 <= p < ins && ins <= p + WSIZE ensures SlotOk(w', prev, p) {
      assert SlotOk(w, prev, p);
      assert HashAt(w', p) == HashAt(w, p);
      LinkKept(w, w', prev[p % WSIZE], p, HashAt(w, p));
    }
  }

  lemma {:induction false} LinkKept(w: seq<byte>, w': seq<byte>, q: nat, p: nat, h: nat)
    requires Link(w, q, p, h) && p + 2 <= |w'| == |w| && (p == 0 || forall i :: 0 <= i < p + 2 ==> w'[i] == w[i])
    ensures Link(w', q, p, h)
  {
    hide Hash3;
    forall r: nat | q < r < p && r + 2 < |w'| ensures HashAt(w', r) != h { assert HashAt(w', r) == HashAt(w, r); }
  }

  /** insH is ready for the third byte of the string at ins. */
  ghost predicate HashReady(w: seq<byte>, insH: nat, ins: nat)
  {
    && ins + 2 <= |w| && insH < HASH_SIZE
    && forall c: byte :: Update(insH, c) == Hash3(w[ins], w[ins + 1], c)
  }

  lemma {:induction false} HashNext(w: seq<byte>, ins: nat)
    requires ins + 3 <= |w|
    ensures HashReady(w, HashAt(w, ins), ins + 1)
  {
    hide Update;
    forall c: byte ensures Update(HashAt(w, ins), c) == Hash3(w[ins + 1], w[ins + 2], c) {
      Forgets(Update(0, w[ins]), w[ins + 1], w[ins + 2], c);
    }
  }

  lemma {:induction false} HashKept(w: seq<byte>, w': seq<byte>, insH: nat, ins: nat, ins': nat)
    requires HashReady(w, insH, ins) && ins' + 2 <= |w'| && w'[ins'] == w[ins] && w'[ins' + 1] == w[ins + 1]
    ensures HashReady(w', insH, ins')
  {
    hide Update, Hash3;
  }

  class SlidingWindow {
    const window: array<byte>
    const prev: array<nat>
    const input: Input
    var insH: nat
    var prevLength: nat
    var strstart: nat
    /** Where the best match starts; it may fall below zero when the window moves, where the source wraps around. */
    var matchStart: int
    var lookahead: nat
    /** Where the current block starts; negative once that has left the window. */
    var blockStart: int
    var eofile: bool
    /** How many bytes have left the window. */
    ghost var base: nat

    constructor (input: Input)
      requires input.pos == 0
      ensures this.input == input && fresh(window) && fresh(prev)
      ensures Sized() && forall i :: 0 <= i < WSIZE + HASH_SIZE ==> prev[i] == 0
    {
      this.input := input;
      window := new byte[WINDOW_SIZE + MAX_MATCH];
      prev := new nat[PREV_SIZE](_ => 0);
      insH, prevLength, strstart, matchStart, lookahead, blockStart, eofile := 0, 0, 0, 0, 0, 0, false;
      base := 0;
    }

    ghost predicate Sized()
    {
      window.Length == WINDOW_SIZE + MAX_MATCH && prev.Length == PREV_SIZE
    }

    /** The valid bytes are those of the input; the rest of the window, and MAX_MATCH bytes behind it, are arbitrary. */
    ghost predicate Filled()
      reads this, window, input
      requires Sized()
    {
      && strstart + lookahead <= WINDOW_SIZE
      && input.pos == base + strstart + lookahead <= |input.data|
      && window[..strstart + lookahead] == input.data[base..base + strstart + lookahead]
      && (eofile ==> strstart + lookahead <= WINDOW_SIZE - 2 && (input.failed || input.pos == |input.data|))
    }

    /** The window and the chains after all strings before strstart have been inserted. */
    ghost predicate Valid()
      reads this, window, prev, input
    {
      && Sized() && Filled()
      && Chains(window[..], prev[..], strstart)
    }

    /** The input position of a window position. */
    ghost function Abs(p: int): int
      reads this
    {
      base + p
    }

    /** Moves the upper half of the window to the lower half, with all positions. */
    method SlideWindow()
      requires Valid() && WSIZE + MAX_DIST <= strstart && strstart + 2 <= strstart + lookahead && !eofile
      modifies this`matchStart, this`strstart, this`blockStart, this`base, window, prev
      ensures Valid() && strstart == old(strstart) - WSIZE && base == old(base) + WSIZE
      ensures matchStart == old(matchStart) - WSIZE && blockStart == old(blockStart) - WSIZE
      ensures forall i :: 0 <= i < WSIZE + HASH_SIZE ==> prev[..][i] == Slide(old(prev[..])[i])
      ensures forall h :: old(HashReady(window[..], h, strstart)) ==> HashReady(window[..], h, strstart)
    {
      hide Chains, HashReady;
      ghost var w, p := window[..], prev[..];
      MoveDown();
      matchStart := matchStart - WSIZE;
      strstart := strstart - WSIZE;
      blockStart := blockStart - WSIZE;
      base := base + WSIZE;
      SlideLinks();
      SlideFilled(w, window[..], input.data, base - WSIZE, strstart + WSIZE + lookahead);
      SlideKeepsChains(w, window[..], p, prev[..], strstart + WSIZE);
      forall h | HashReady(w, h, strstart + WSIZE) ensures HashReady(window[..], h, strstart) {
        HashKept(w, window[..], h, strstart + WSIZE, strstart);
      }
    }

    static lemma {:induction false} SlideFilled(w: seq<byte>, w': seq<byte>, data: seq<byte>, base: nat, top: nat)
      requires WSIZE <= top <= WINDOW_SIZE <= |w| == |w'| && base + top <= |data| && w[..top] == data[base..base + top]
      requires forall i :: 0 <= i < WSIZE ==> w'[i] == w[i + WSIZE]
      ensures w'[..top - WSIZE] == data[base + WSIZE..base + top]
    {
      forall i | 0 <= i < top - WSIZE ensures w'[i] == data[base + WSIZE + i] {
        assert w[..top][i + WSIZE] == data[base..base + top][i + WSIZE];
      }
    }

    /** Copies the upper half of the window over the lower half. */
    method MoveDown()
      requires Sized()
      modifies window
      ensures forall i :: 0 <= i < WSIZE ==> window[..][i] == old(window[..])[i + WSIZE]
    {
      var n := 0;
      while n < WSIZE
        invariant 0 <= n <= WSIZE
        invariant forall i :: 0 <= i < n ==> window[i] == old(window[i + WSIZE])
        invariant forall i :: n <= i < window.Length ==> window[i] == old(window[i])
      {
        window[n] := window[n + WSIZE];
        n := n + 1;
      }
    }

    /** Adjusts the heads and then the links. */
    method SlideLinks()
      requires Sized()
      modifies prev
      ensures forall i :: 0 <= i < WSIZE + HASH_SIZE ==> prev[..][i] == Slide(old(prev[..])[i])
    {
      var n := 0;
      while n < HASH_SIZE
        invariant 0 <= n <= HASH_SIZE
        invariant forall i :: WSIZE <= i < WSIZE + n ==> prev[i] == Slide(old(prev[i]))
        invariant forall i :: 0 <= i < PREV_SIZE && !(WSIZE <= i < WSIZE + n) ==> prev[i] == old(prev[i])
      {
        var m := prev[WSIZE + n];
        prev[WSIZE + n] := if m >= WSIZE then m - WSIZE else 0;
        n := n + 1;
      }
      n := 0;
      while n < WSIZE
        invariant 0 <= n <= WSIZE
        invariant forall i :: 0 <= i < n ==> prev[i] == Slide(old(prev[i]))
        invariant forall i :: WSIZE <= i < WSIZE + HASH_SIZE ==> prev[i] == Slide(old(prev[i]))
        invariant forall i :: n <= i < WSIZE ==> prev[i] == old(prev[i])
      {
        var m := prev[n];
        prev[n] := if m >= WSIZE then m - WSIZE else 0;
        n := n + 1;
      }
    }

    /** fill_window: makes room if needed and reads more input. */
    method FillWindow()
      requires Valid() && lookahead < MIN_LOOKAHEAD && !eofile && (strstart == 0 || 2 <= lookahead)
      modifies this`matchStart, this`strstart, this`blockStart, this`base, this`lookahead, this`eofile, window, prev,
          input
      ensures Valid() && Abs(strstart) == old(Abs(strstart)) && Abs(matchStart) == old(Abs(matchStart))
              && Abs(blockStart) == old(Abs(blockStart))
      ensures blockStart <= old(blockStart)
      ensures if old(strstart) < WSIZE + MAX_DIST then base == old(base) && prev[..] == old(prev[..])
              else base == old(base) + WSIZE
                   && forall i :: 0 <= i < WSIZE + HASH_SIZE ==> prev[..][i] == Slide(old(prev[..])[i])
      ensures eofile || lookahead > old(lookahead)
      ensures lookahead >= old(lookahead) && (old(strstart) == 0 <==> strstart == 0)
      ensures 2 <= old(lookahead) ==>
                forall h :: old(HashReady(window[..], h, strstart)) ==> HashReady(window[..], h, strstart)
    {
      hide Chains, HashReady;
      var more := WINDOW_SIZE - lookahead - strstart;
      if strstart >= WSIZE + MAX_DIST {
        SlideWindow();
        more := more + WSIZE;
      }
      ReadMore(more);
    }

    /** Reads up to more bytes behind the valid ones. */
    method ReadMore(more: nat)
      requires Valid() && !eofile && 2 <= more && strstart + lookahead + more == WINDOW_SIZE
              && (strstart == 0 || 2 <= lookahead)
      modifies this`lookahead, this`eofile, window, input
      ensures Valid() && (eofile || lookahead > old(lookahead)) && lookahead >= old(lookahead)
      ensures 2 <= old(lookahead) ==>
                forall h :: old(HashReady(window[..], h, strstart)) ==> HashReady(window[..], h, strstart)
    {
      hide *;
      ValidParts();
      ghost var w, top, before := window[..], strstart + lookahead, lookahead;
      var n := input.FileRead(window, strstart + lookahead, more);
      assert forall i :: 0 <= i < top ==> window[..][i] == w[i];
      ReadKeepsChains(w, window[..], prev[..], strstart);
      ReadExtends(w, window[..], input.data, base, top, n);
      if n == 0 {
        eofile := true;
      } else {
        lookahead := lookahead + n;
      }
      ValidNow();
      if 2 <= before {
        forall h | HashReady(w, h, strstart) ensures HashReady(window[..], h, strstart) {
          HashKept(w, window[..], h, strstart, strstart);
        }
      }
    }

    lemma {:induction false} ValidParts()
      requires Valid()
      ensures window.Length == WINDOW_SIZE + MAX_MATCH && prev.Length == PREV_SIZE && MAX_MATCH == 258
      ensures strstart + lookahead <= WINDOW_SIZE && input.pos == base + strstart + lookahead <= |input.data|
      ensures window[..strstart + lookahead] == input.data[base..base + strstart + lookahead]
      ensures Chains(window[..], prev[..], strstart)
    {
      hide Chains;
    }

    lemma {:induction false} ValidNow()
      requires window.Length == WINDOW_SIZE + MAX_MATCH && prev.Length == PREV_SIZE
      requires strstart + lookahead <= WINDOW_SIZE && input.pos == base + strstart + lookahead <= |input.data|
      requires window[..strstart + lookahead] == input.data[base..base + strstart + lookahead]
      requires Chains(window[..], prev[..], strstart)
      requires eofile ==> strstart + lookahead <= WINDOW_SIZE - 2 && (input.failed || input.pos == |input.data|)
      ensures Valid()
    {
      hide Chains;
    }

    static lemma {:induction false} ReadExtends(w: seq<byte>, w': seq<byte>, data: seq<byte>, base: nat, top: nat,
        n: nat)
      requires top + n <= |w| == |w'| && base + top + n <= |data| && w[..top] == data[base..base + top]
      requires forall i :: 0 <= i < top ==> w'[i] == w[i]
      requires forall i :: top <= i < top + n ==> w'[i] == data[base + top + (i - top)]
      ensures w'[..top + n] == data[base..base + top + n]
    {
      forall i | 0 <= i < top + n ensures w'[i] == data[base + i] {
        if i < top { assert w[..top][i] == data[base..base + top][i]; }
      }
    }

    /** INSERT_STRING: enters the string at strstart's successor in order, s, and returns the head of its chain. */
    method InsertString(s: nat, ghost ins: nat) returns (hashHead: nat)
      requires Sized() && s == ins && s + 3 <= window.Length
      requires Chains(window[..], prev[..], ins) && HashReady(window[..], insH, ins)
      modifies this`insH, prev
      ensures Chains(window[..], prev[..], ins + 1) && HashReady(window[..], insH, ins + 1)
      ensures Link(window[..], hashHead, s, HashAt(window[..], s))
      ensures prev[..] == Inserted(old(prev[..]), s, HashAt(window[..], s))
      ensures hashHead == old(prev[..])[WSIZE + HashAt(window[..], s)]
    {
      hide Chains, HashReady, Hash3, Update;
      HashNow(window[..], insH, ins);
      InsertKeepsChains(window[..], prev[..], ins);
      HashNext(window[..], ins);
      insH := Update(insH, window[s + MIN_MATCH - 1]);
      hashHead := prev[WSIZE + insH];
      ghost var p := prev[..];
      prev[s % WSIZE] := hashHead;
      prev[WSIZE + insH] := s;
      assert prev[..] == Inserted(p, ins, insH);
    }

    static lemma {:induction false} HashNow(w: seq<byte>, insH: nat, ins: nat)
      requires HashReady(w, insH, ins) && ins + 3 <= |w|
      ensures Update(insH, w[ins + 2]) == HashAt(w, ins)
    {
    }

    lemma {:induction false} EmptyChains(w: seq<byte>, p: seq<nat>)
      requires |p| == PREV_SIZE && 2 <= |w| && forall i :: WSIZE <= i < WSIZE + HASH_SIZE ==> p[i] == 0
      ensures Chains(w, p, 0)
    {
      forall h | 0 <= h < HASH_SIZE ensures HeadOk(w, p, 0, h) {}
    }

    /** Clears the heads of the chains. */
    method ClearHeads()
      requires Sized()
      modifies prev
      ensures Chains(window[..], prev[..], 0)
    {
      var n := 0;
      while n < HASH_SIZE
        invariant 0 <= n <= HASH_SIZE
        invariant forall i :: WSIZE <= i < WSIZE + n ==> prev[i] == 0
      {
        prev[WSIZE + n] := 0;
        n := n + 1;
      }
      EmptyChains(window[..], prev[..]);
    }

    /** The first read, which may fill the whole window. */
    method FirstRead()
      requires Sized() && input.pos == 0 && strstart == lookahead == base == 0 && Chains(window[..], prev[..], 0)
      modifies this`lookahead, this`eofile, window, input
      ensures Valid() && (lookahead == 0 ==> eofile) && (lookahead > 0 ==> !eofile)
    {
      hide Chains;
      ghost var w := window[..];
      var n := input.FileRead(window, 0, 2 * WSIZE);
      ReadKeepsChains(w, window[..], prev[..], 0);
      ReadExtends(w, window[..], input.data, 0, 0, n);
      lookahead := n;
      eofile := n == 0;
    }

    /** The hash of the first two bytes. */
    method StartHash()
      requires Sized()
      modifies this`insH
      ensures HashReady(window[..], insH, 0)
    {
      insH := 0;
      var j := 0;
      while j < MIN_MATCH - 1
        invariant 0 <= j <= 2
        invariant insH == if j == 0 then 0
                          else if j == 1 then Update(0, window[0])
                          else Update(Update(0, window[0]), window[1])
      {
        insH := Update(insH, window[j]);
        j := j + 1;
      }
      HashStart(window[..], insH);
    }

    /** lm_init: reads the first part of the input and prepares the hash. */
    method LmInit()
      requires Sized() && input.pos == 0
      modifies this, window, prev, input
      ensures Valid() && strstart == 0 && base == 0 && blockStart == 0
      ensures eofile || MIN_LOOKAHEAD <= lookahead
      ensures lookahead != 0 ==> HashReady(window[..], insH, 0)
    {
      hide Chains, HashReady;
      ClearHeads();
      strstart, blockStart, base, lookahead := 0, 0, 0, 0;
      FirstRead();
      if lookahead == 0 { return; }
      while lookahead < MIN_LOOKAHEAD && !eofile
        invariant Valid() && strstart == 0 && base == 0 && blockStart == 0
        decreases !eofile, MIN_LOOKAHEAD - lookahead
      {
        FillWindow();
      }
      StartHash();
    }

    static lemma {:induction false} HashStart(w: seq<byte>, insH: nat)
      requires 2 <= |w| && insH == Update(Update(0, w[0]), w[1])
      ensures HashReady(w, insH, 0)
    {
    }
  }
}
