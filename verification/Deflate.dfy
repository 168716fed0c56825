/** deflate: lazy evaluation of matches. What it sends inflates to what it has read, however the input arrives. */
module Deflate {
  import opened Bits
  import opened Canonical
  import opened Inflate
  import opened BitOutput
  import opened Tables
  import opened Items
  import opened BlockBuffer
  import opened Tally
  import opened Header
  import opened Block
  import opened Hash
  import opened Window
  import opened Matcher
  import opened Wrappers

  const MAX_LAZY := 258
  const TOO_FAR := 4096

  /** The n bytes at a repeat those at the earlier position m. */
  ghost predicate Repeats(data: seq<byte>, m: int, a: int, n: nat)
  {
    0 <= m < a && a - m <= MAX_DIST && a + n <= |data| && data[m..m + n] == data[a..a + n]
  }

  lemma {:induction false} RepeatsNext(data: seq<byte>, m: nat, a: nat, n: nat)
    requires Repeats(data, m, a, n) && n > 0
    ensures data[m] == data[a] && Repeats(data, m + 1, a + 1, n - 1)
  {
    assert data[m] == data[m..m + n][0] && data[a] == data[a..a + n][0];
    assert data[m + 1..m + n] == data[m..m + n][1..] == data[a..a + n][1..] == data[a + 1..a + n];
  }

  /** Copying back by the distance reproduces repeated bytes, even where the two stretches overlap. */
  lemma {:induction false} CopyRepeats(data: seq<byte>, m: nat, a: nat, n: nat)
    requires Repeats(data, m, a, n)
    ensures CopyBack(data[..a], n, a - m) == data[..a + n]
    decreases n
  {
    if n > 0 {
      RepeatsNext(data, m, a, n);
      assert data[..a] + [data[a]] == data[..a + 1];
      CopyRepeats(data, m + 1, a + 1, n - 1);
      assert data[..a][a - (a - m)] == data[m];
    }
  }

  /** Where the output stands: the bits sent so far inflate to the bytes before b, and the items since then expand to
      the bytes from b to a. */
  ghost predicate Sent(data: seq<byte>, b: int, a: int, items: seq<Item>, contents: seq<bool>)
  {
    && 0 <= b <= a <= |data|
    && ApplyAll(data[..b], items) == Some(data[..a])
    && Decodes([], contents, [], data[..b], false)
  }

  lemma {:induction false} SentLiteral(data: seq<byte>, b: int, a: int, items: seq<Item>, contents: seq<bool>)
    requires Sent(data, b, a, items, contents) && a < |data|
    ensures Sent(data, b, a + 1, items + [Literal(data[a])], contents)
  {
    hide Decodes;
    var longer := items + [Literal(data[a])];
    assert longer[..|longer| - 1] == items;
    assert data[..a] + [data[a]] == data[..a + 1];
  }

  lemma {:induction false} SentMatch(data: seq<byte>, b: int, a: int, items: seq<Item>, contents: seq<bool>, m: int,
      n: nat)
    requires Sent(data, b, a, items, contents) && Repeats(data, m, a, n)
    ensures Sent(data, b, a + n, items + [Match(n, a - m)], contents)
  {
    hide Decodes, CopyBack, Repeats;
    RepeatsRange(data, m, a, n);
    var longer := items + [Match(n, a - m)];
    assert longer[..|longer| - 1] == items;
    CopyRepeats(data, m, a, n);
    assert longer[|longer| - 1] == Match(n, a - m);
  }

  /** The window and the state of the block share nothing. */
  ghost predicate Apart(win: SlidingWindow, g: Globals2)
  {
    && {win, win.window as object, win.prev as object, win.input} !! g.Repr() + g.tables.Repr()
  }

  lemma {:induction false} ApartFacts(win: SlidingWindow, g: Globals2)
    requires Apart(win, g)
    ensures win !in g.Repr() && win.window !in g.Repr() && win.prev !in g.Repr() && win.input !in g.Repr()
    ensures g.w in g.Repr() && g.w.outbuf in g.Repr() && g in g.Repr()
    ensures win.prev != g.tables.lengthCode && win.prev != g.tables.distCode && win.prev != g.tables.baseLength
            && win.prev != g.tables.baseDist
    ensures win.prev as object != g.tables.staticLtree && win.prev as object != g.tables.staticDtree
  {
  }

  /** The match found at the current position, if any, lies before the byte that is still to be sent. */
  ghost predicate Lazy(win: SlidingWindow, matchAvailable: bool, matchLength: nat)
    reads win, win.input
  {
    && matchLength <= MAX_MATCH && (win.lookahead > 0 ==> 2 <= matchLength)
    && (!matchAvailable ==> matchLength == MIN_MATCH - 1)
    && (matchAvailable ==> win.strstart > 0)
    && (matchLength >= MIN_MATCH ==>
          && matchLength <= win.lookahead + 1
          && Repeats(win.input.data, win.Abs(win.matchStart), win.Abs(win.strstart) - 1, matchLength))
  }

  /** Equal bytes of the window are equal bytes of the input as far as the window is filled. */
  lemma {:induction false} Clipped(win: SlidingWindow, n: nat, m: nat)
    requires win.Sized() && win.Filled() && m <= n && m <= win.lookahead && win.strstart < WINDOW_SIZE
    requires 0 < win.matchStart < win.strstart && win.strstart - win.matchStart <= MAX_DIST
    requires Agree(win.window[..], win.matchStart, win.strstart, n)
    ensures Repeats(win.input.data, win.Abs(win.matchStart), win.Abs(win.strstart), m)
  {
    var w, data, p, q, top := win.window[..], win.input.data, win.matchStart, win.strstart, win.strstart
        + win.lookahead;
    AgreeLess(w, p, q, n, m);
    SliceOf(win, p, m);
    SliceOf(win, q, m);
  }

  lemma {:induction false} SliceOf(win: SlidingWindow, p: nat, m: nat)
    requires win.Sized() && win.Filled() && p + m <= win.strstart + win.lookahead
    ensures win.window[..][p..p + m] == win.input.data[win.Abs(p)..win.Abs(p) + m]
  {
    SliceShift(win.window[..], win.input.data, win.base, win.strstart + win.lookahead, p, m);
  }

  lemma {:induction false} SliceShift(w: seq<byte>, data: seq<byte>, base: nat, top: nat, p: nat, m: nat)
    requires top <= |w| && base + top <= |data| && w[..top] == data[base..base + top] && p + m <= top
    ensures w[p..p + m] == data[base + p..base + p + m]
  {
    var x, y, part := w[p..p + m], data[base + p..base + p + m], w[..top];
    forall i | 0 <= i < |x| ensures x[i] == y[i] {
      assert x[i] == part[p + i];
    }
  }

  /** The match of len bytes that a match of distance d counts for: three bytes far away are not worth it. */
  function Worth(len: nat, d: int): nat {
    if len == MIN_MATCH && d > TOO_FAR then len - 1 else len
  }

  /** What is found at start, where the chain begins at head: nothing if there is no earlier string within reach or the
      match before is good enough, else the best of the chain, clipped to the lookahead, if it is worth it. */
  ghost predicate Finds(w: seq<byte>, prev: seq<nat>, head: nat, start: nat, lookahead: nat, prevLength: nat,
      len: nat, p: int)
    requires |prev| >= WSIZE
  {
    if head == 0 || prevLength >= MAX_LAZY || start - head > MAX_DIST then len == MIN_MATCH - 1
    else exists best: nat ::
      && Best(w, Chain(prev, head, Limit(start), ChainLimit(prevLength)), start, prevLength, best, p)
      && len == Worth(if best > lookahead then lookahead else best, start - p)
  }

  /** The items of the block after one more has been saved: none if the block has ended with it. bytes is how much of
      the input the block stands for. */
  function ItemsAfter(cm: CodeMap, items: seq<Item>, item: Item, bytes: int): seq<Item> {
    if EndsBlock(cm, items + [item], bytes) then [] else items + [item]
  }

  lemma {:induction false} AfterIs(cm: CodeMap, items: seq<Item>, item: Item, bytes: int)
    ensures ItemsAfter(cm, items, item, bytes)
            == if EndsBlock(cm, items + [item], bytes) then [] else items + [item]
  {
  }

  /** The variables of deflate between two turns of its loop. */
  datatype State = State(prev: seq<nat>, start: nat, available: bool, length: nat, from: int, items: seq<Item>)

  /** One turn of the loop, of the state a, when a match of length found has been found at b.from: the match at the
      position before is saved if it is not shorter, else the byte there, if it is still to be decided. */
  ghost predicate Decided(w: seq<byte>, cm: CodeMap, bytes: int, a: State, b: State, found: nat) {
    if a.length >= MIN_MATCH && found <= a.length then
      && a.from < a.start - 1 && b.items == ItemsAfter(cm, a.items, Match(a.length, a.start - 1 - a.from), bytes)
      && !b.available && b.length == MIN_MATCH - 1 && b.start == a.start + a.length - 1
    else
      && (if a.available then 0 < a.start <= |w| && b.items == ItemsAfter(cm, a.items, Literal(w[a.start - 1]), bytes)
          else b.items == a.items)
      && b.available && b.length == found && b.start == a.start + 1
  }

  /** One turn of the loop: the string at the current position is entered and its chain searched, and
      all strings passed over are entered. */
  ghost predicate Stepped(w: seq<byte>, lookahead: nat, cm: CodeMap, bytes: int, a: State, b: State) {
    && |a.prev| == PREV_SIZE && a.start + 2 < |w| && a.start <= b.start && b.start + 2 <= |w|
    && b.prev == InsertedAll(w, a.prev, a.start, b.start - a.start)
    && exists found: nat ::
         && Finds(w, Inserted(a.prev, a.start, HashAt(w, a.start)), a.prev[WSIZE + HashAt(w, a.start)], a.start,
                  lookahead, a.length, found, b.from)
         && Decided(w, cm, bytes, a, b, found)
  }

  ghost function Now(win: SlidingWindow, g: Globals2, available: bool, length: nat): State
    reads win, win.prev, g
  {
    State(win.prev[..], win.strstart, available, length, win.matchStart, g.items)
  }

  lemma {:induction false} NowFinds(w: seq<byte>, prev: seq<nat>, head: nat, start: nat, lookahead: nat,
      prevLength: nat, best: nat, len: nat, p: int)
    requires |prev| >= WSIZE && head != 0 && prevLength < MAX_LAZY && start - head <= MAX_DIST
    requires Best(w, Chain(prev, head, Limit(start), ChainLimit(prevLength)), start, prevLength, best, p)
    requires len == Worth(if best > lookahead then lookahead else best, start - p)
    ensures Finds(w, prev, head, start, lookahead, prevLength, len, p)
  {
    hide Best, Chain;
  }

  lemma {:induction false} HeadCandidate(w: seq<byte>, prev: seq<nat>, h: nat, start: nat)
    requires Chains(w, prev, start + 1) && 0 < h && Link(w, h, start, HashAt(w, start)) && start - h <= MAX_DIST
    ensures Candidate(w, h, start)
  {
    hide Hash3;
  }

  /** The match at the current position that is worth considering: clipped to the lookahead, and
      not a short one far away. */
  method FindMatch(win: SlidingWindow, hashHead: nat) returns (matchLength: nat)
    requires win.Sized() && win.Filled() && 0 < win.lookahead && 2 <= win.prevLength <= MAX_MATCH
    requires Chains(win.window[..], win.prev[..], win.strstart + 1)
    requires Link(win.window[..], hashHead, win.strstart, HashAt(win.window[..], win.strstart))
    modifies win`matchStart
    ensures matchLength <= MAX_MATCH && (win.lookahead >= 2 ==> 2 <= matchLength)
    ensures matchLength > win.prevLength ==>
              matchLength <= win.lookahead
                  && Repeats(win.input.data, win.Abs(win.matchStart), win.Abs(win.strstart), matchLength)
    ensures Finds(win.window[..], win.prev[..], hashHead, win.strstart, win.lookahead, win.prevLength, matchLength,
                  win.matchStart)
  {
    hide Chains, Link, Hash3, Candidate, Agree, Repeats, Best, Chain, NoneLonger, FirstOf;
    matchLength := MIN_MATCH - 1;
    if hashHead != 0 && win.prevLength < MAX_LAZY && win.strstart - hashHead <= MAX_DIST {
      HeadCandidate(win.window[..], win.prev[..], hashHead, win.strstart);
      matchLength := LongestMatch(win, hashHead);
      ghost var bestLen := matchLength;
      if matchLength > win.lookahead { matchLength := win.lookahead; }
      if bestLen > win.prevLength { Clipped(win, bestLen, matchLength); }
      if matchLength == MIN_MATCH && win.strstart - win.matchStart > TOO_FAR { matchLength := matchLength - 1; }
      NowFinds(win.window[..], win.prev[..], hashHead, win.strstart, win.lookahead, win.prevLength, bestLen,
               matchLength, win.matchStart);
    }
  }

  /** Enters the strings from strstart + 1 to the last but one byte of the match. */
  method InsertRest(win: SlidingWindow)
    requires win.Sized() && 1 <= win.prevLength && win.strstart + win.prevLength + 3 <= win.window.Length
    requires Chains(win.window[..], win.prev[..], win.strstart + 1)
            && HashReady(win.window[..], win.insH, win.strstart + 1)
    modifies win`insH, win`strstart, win`prevLength, win.prev
    ensures win.strstart == old(win.strstart) + old(win.prevLength)
    ensures win.prev[..] == InsertedAll(win.window[..], old(win.prev[..]), old(win.strstart) + 1, old(win.prevLength))
    ensures Chains(win.window[..], win.prev[..], win.strstart + 1)
            && HashReady(win.window[..], win.insH, win.strstart + 1)
  {
    hide Chains, HashReady, Link, Hash3, Inserted;
    var go := true;
    ghost var n := 0;
    while go
      invariant win.strstart == old(win.strstart) + n && win.prev.Length == PREV_SIZE
      invariant win.strstart + win.prevLength == old(win.strstart) + old(win.prevLength)
      invariant win.prev[..] == InsertedAll(win.window[..], old(win.prev[..]), old(win.strstart) + 1, n)
      invariant go <==> win.prevLength > 0
      invariant Chains(win.window[..], win.prev[..], win.strstart + 1)
              && HashReady(win.window[..], win.insH, win.strstart + 1)
      decreases win.prevLength
    {
      win.strstart := win.strstart + 1;
      var _ := win.InsertString(win.strstart, win.strstart);
      win.prevLength := win.prevLength - 1;
      n := n + 1;
      go := win.prevLength != 0;
    }
  }

  /** FLUSH_BLOCK(0), after which the next block starts. */
  method Flush(win: SlidingWindow, g: Globals2)
    requires Apart(win, g) && g.Valid() && win.Sized() && win.Filled() && win.strstart < WINDOW_SIZE
    requires Sent(win.input.data, win.Abs(win.blockStart), win.Abs(win.strstart), g.items, g.w.Contents())
    modifies win`blockStart, g.Repr()
    ensures g.Valid() && g.items == [] && win.blockStart == win.strstart
    ensures Sent(win.input.data, win.Abs(win.blockStart), win.Abs(win.strstart), g.items, g.w.Contents())
  {
    hide *;
    ApartFacts(win, g);
    WriterValid(g);
    ghost var data, b, a := BlockOf(win, g.items, g.w.Contents());
    ghost var before := g.w.Contents();
    var _ := g.FlushBlock(win.window, win.blockStart, win.strstart - win.blockStart, false, data[..b], data[b..a]);
    DecodesChain([], before, g.w.Contents(), [], data[..b], data[..a], false);
    win.blockStart := win.strstart;
    AbsIs(win);
    NothingYet(data, a, g.w.Contents());
  }

  /** The bytes of the block that ends at strstart. */
  lemma {:induction false} BlockOf(win: SlidingWindow, items: seq<Item>, contents: seq<bool>)
    returns (data: seq<byte>, b: nat, a: nat)
    requires win.Sized() && win.Filled() && win.strstart < WINDOW_SIZE
    requires Sent(win.input.data, win.Abs(win.blockStart), win.Abs(win.strstart), items, contents)
    ensures data == win.input.data && b == win.base + win.blockStart && a == win.base + win.strstart && b <= a <= |data|
    ensures 0 <= win.blockStart ==>
              && a - b < 65536 && win.blockStart + (a - b) <= win.window.Length
              && win.window[win.blockStart..win.blockStart + (a - b)] == data[b..a]
    ensures data[..b] + data[b..a] == data[..a]
    ensures ApplyAll(data[..b], items) == Some(data[..b] + data[b..a]) && Decodes([], contents, [], data[..b], false)
  {
    hide Decodes, ApplyAll;
    data, b, a := win.input.data, win.Abs(win.blockStart), win.Abs(win.strstart);
    if win.blockStart >= 0 { SliceOf(win, win.blockStart, win.strstart - win.blockStart); }
    assert data[..b] + data[b..a] == data[..a];
  }

  lemma {:induction false} AbsIs(win: SlidingWindow)
    ensures forall p :: win.Abs(p) == win.base + p
  {
  }

  lemma {:induction false} WriterValid(g: Globals2)
    requires g.Valid()
    ensures g.w.Valid()
  {
  }

  lemma {:induction false} NothingYet(data: seq<byte>, a: nat, contents: seq<bool>)
    requires a <= |data| && Decodes([], contents, [], data[..a], false)
    ensures Sent(data, a, a, [], contents)
  {
    hide Decodes;
  }

  /** The match at strstart - 1 is saved. */
  method TallyMatch(win: SlidingWindow, g: Globals2, prevMatch: int) returns (flush: bool)
    requires Apart(win, g) && g.Valid() && |g.items| + 1 < LIT_BUFSIZE && 0 < win.strstart
            && MIN_MATCH <= win.prevLength <= MAX_MATCH
    requires Repeats(win.input.data, win.Abs(prevMatch), win.Abs(win.strstart) - 1, win.prevLength)
    requires Sent(win.input.data, win.Abs(win.blockStart), win.Abs(win.strstart) - 1, g.items, g.w.Contents())
    modifies g.Repr()
    ensures g.Valid() && (!flush ==> |g.items| + 1 < LIT_BUFSIZE)
    ensures prevMatch < win.strstart - 1
    ensures g.items == old(g.items) + [Match(win.prevLength, win.strstart - 1 - prevMatch)]
    ensures flush <==> EndsBlock(old(g.Map()), g.items, win.strstart - win.blockStart)
    ensures Sent(win.input.data, win.Abs(win.blockStart), win.Abs(win.strstart) - 1 + win.prevLength, g.items,
            g.w.Contents())
  {
    hide *;
    ApartFacts(win, g);
    WriterValid(g);
    g.ReprHas();
    AbsIs(win);
    ghost var data, at, n := win.input.data, win.Abs(win.strstart) - 1, win.prevLength;
    RepeatsRange(data, win.Abs(prevMatch), at, n);
    MatchItem(n, at - win.Abs(prevMatch));
    SentMatch(data, win.Abs(win.blockStart), at, g.items, g.w.Contents(), win.Abs(prevMatch), n);
    flush := g.CtTally(win.strstart - 1 - prevMatch, win.prevLength - MIN_MATCH, win.strstart, win.blockStart,
            Match(n, at - win.Abs(prevMatch)));
  }

  lemma {:induction false} MatchItem(n: nat, distance: nat)
    requires MIN_MATCH <= n <= MAX_MATCH && 1 <= distance <= MAX_DIST
    ensures GoodItem(Match(n, distance)) && LByte(Match(n, distance)) == n - MIN_MATCH
  {
  }

  lemma {:induction false} LiteralItem(b: byte)
    ensures GoodItem(Literal(b)) && LByte(Literal(b)) == b
  {
  }

  /** Moves past the match at strstart - 1, entering the strings it covers. */
  method SkipMatch(win: SlidingWindow)
    requires win.Sized() && win.Filled() && 0 < win.strstart && MIN_MATCH <= win.prevLength <= win.lookahead + 1
    requires win.eofile || win.prevLength <= win.lookahead
    requires Chains(win.window[..], win.prev[..], win.strstart + 1)
            && HashReady(win.window[..], win.insH, win.strstart + 1)
    modifies win`insH, win`strstart, win`prevLength, win`lookahead, win.prev
    ensures win.Valid() && HashReady(win.window[..], win.insH, win.strstart) && win.strstart < WINDOW_SIZE
    ensures win.strstart == old(win.strstart) + old(win.prevLength) - 1
            && win.strstart + win.lookahead == old(win.strstart) + old(win.lookahead)
    ensures win.prev[..]
            == InsertedAll(win.window[..], old(win.prev[..]), old(win.strstart) + 1, old(win.prevLength) - 2)
  {
    hide Chains, HashReady;
    win.lookahead := win.lookahead - (win.prevLength - 1);
    win.prevLength := win.prevLength - 2;
    InsertRest(win);
    win.strstart := win.strstart + 1;
  }

  /** The state of the block and the bits sent so far. */
  ghost predicate Holding(g: Globals2, items: seq<Item>, contents: seq<bool>)
    reads g, g.Repr(), g.tables.Repr()
  {
    g.Valid() && g.items == items && g.w.Contents() == contents
  }

  /** Moving on does not touch the block. */
  method SkipKeeps(win: SlidingWindow, g: Globals2, ghost items: seq<Item>, ghost contents: seq<bool>)
    requires Apart(win, g) && Holding(g, items, contents)
    requires win.Sized() && win.Filled() && 0 < win.strstart && MIN_MATCH <= win.prevLength <= win.lookahead + 1
    requires win.eofile || win.prevLength <= win.lookahead
    requires Chains(win.window[..], win.prev[..], win.strstart + 1)
            && HashReady(win.window[..], win.insH, win.strstart + 1)
    modifies win`insH, win`strstart, win`prevLength, win`lookahead, win.prev
    ensures Holding(g, items, contents)
    ensures win.Valid() && HashReady(win.window[..], win.insH, win.strstart) && win.strstart < WINDOW_SIZE
    ensures win.strstart == old(win.strstart) + old(win.prevLength) - 1
            && win.strstart + win.lookahead == old(win.strstart) + old(win.lookahead)
    ensures win.prev[..]
            == InsertedAll(win.window[..], old(win.prev[..]), old(win.strstart) + 1, old(win.prevLength) - 2)
  {
    hide Chains, HashReady, Holding;
    SkipMatch(win);
  }

  /** The match at strstart - 1 is sent. */
  method SendMatch(win: SlidingWindow, g: Globals2, prevMatch: int)
    requires Apart(win, g) && g.Valid() && |g.items| + 1 < LIT_BUFSIZE && win.Sized() && win.Filled()
    requires 0 < win.strstart && MIN_MATCH <= win.prevLength <= MAX_MATCH && win.prevLength <= win.lookahead + 1
    requires win.eofile || win.prevLength <= win.lookahead
    requires Repeats(win.input.data, win.Abs(prevMatch), win.Abs(win.strstart) - 1, win.prevLength)
    requires Sent(win.input.data, win.Abs(win.blockStart), win.Abs(win.strstart) - 1, g.items, g.w.Contents())
    requires Chains(win.window[..], win.prev[..], win.strstart + 1)
            && HashReady(win.window[..], win.insH, win.strstart + 1)
    modifies win`insH, win`strstart, win`prevLength, win`lookahead, win`blockStart, win.prev, g.Repr()
    ensures prevMatch < old(win.strstart) - 1
    ensures g.items
            == ItemsAfter(old(g.Map()), old(g.items), Match(old(win.prevLength), old(win.strstart) - 1 - prevMatch),
                          old(win.strstart - win.blockStart))
    ensures g.Valid() && |g.items| + 1 < LIT_BUFSIZE && win.Valid() && HashReady(win.window[..], win.insH, win.strstart)
    ensures win.strstart == old(win.strstart) + old(win.prevLength) - 1
            && win.strstart + win.lookahead == old(win.strstart) + old(win.lookahead)
    ensures win.prev[..]
            == InsertedAll(win.window[..], old(win.prev[..]), old(win.strstart) + 1, old(win.prevLength) - 2)
    ensures Sent(win.input.data, win.Abs(win.blockStart), win.Abs(win.strstart), g.items, g.w.Contents())
  {
    hide *;
    ApartFacts(win, g);
    var flush := TallyMatch(win, g, prevMatch);
    AfterIs(old(g.Map()), old(g.items), Match(win.prevLength, win.strstart - 1 - prevMatch),
            win.strstart - win.blockStart);
    WriterValid(g);
    SkipAndFlush(win, g, flush);
  }

  /** Moves past the match, and ends the block if flush is set. */
  method SkipAndFlush(win: SlidingWindow, g: Globals2, flush: bool)
    requires Apart(win, g) && g.Valid() && g.w.Valid() && (!flush ==> |g.items| + 1 < LIT_BUFSIZE)
    requires win.Sized() && win.Filled() && 0 < win.strstart && MIN_MATCH <= win.prevLength <= win.lookahead + 1
    requires win.eofile || win.prevLength <= win.lookahead
    requires Sent(win.input.data, win.Abs(win.blockStart), win.Abs(win.strstart) - 1 + win.prevLength, g.items,
            g.w.Contents())
    requires Chains(win.window[..], win.prev[..], win.strstart + 1)
            && HashReady(win.window[..], win.insH, win.strstart + 1)
    modifies win`insH, win`strstart, win`prevLength, win`lookahead, win`blockStart, win.prev, g.Repr()
    ensures g.items == if flush then [] else old(g.items)
    ensures g.Valid() && |g.items| + 1 < LIT_BUFSIZE && win.Valid() && HashReady(win.window[..], win.insH, win.strstart)
    ensures win.strstart == old(win.strstart) + old(win.prevLength) - 1
            && win.strstart + win.lookahead == old(win.strstart) + old(win.lookahead)
    ensures win.prev[..]
            == InsertedAll(win.window[..], old(win.prev[..]), old(win.strstart) + 1, old(win.prevLength) - 2)
    ensures Sent(win.input.data, win.Abs(win.blockStart), win.Abs(win.strstart), g.items, g.w.Contents())
  {
    hide g.Valid, Sent, Chains, HashReady, Holding, g.w.Contents, g.w.Valid, Apart, g.Repr, g.tables.Repr, InsertedAll,
        Hash3;
    ApartFacts(win, g);
    ghost var items, contents := g.items, g.w.Contents();
    NowHolding(g);
    SkipKeeps(win, g, items, contents);
    HoldingParts(g, items, contents);
    if flush { Flush(win, g); }
  }

  lemma {:induction false} RepeatsRange(data: seq<byte>, m: int, a: int, n: nat)
    requires Repeats(data, m, a, n)
    ensures 0 <= m < a && a - m <= MAX_DIST && a + n <= |data|
  {
  }

  lemma {:induction false} PendingByte(win: SlidingWindow)
    requires win.Sized() && win.Filled() && 0 < win.strstart
    ensures win.strstart <= win.window.Length && 0 < win.base + win.strstart <= |win.input.data|
    ensures win.input.data[win.base + win.strstart - 1] == win.window[win.strstart - 1]
  {
    SliceOf(win, win.strstart - 1, 1);
    var at := win.base + win.strstart - 1;
    assert win.input.data[at..at + 1][0] == win.input.data[at];
    assert win.window[..][win.strstart - 1..win.strstart][0] == win.window[win.strstart - 1];
  }

  /** The byte at strstart - 1 is sent as a literal. */
  method SendLiteral(win: SlidingWindow, g: Globals2) returns (flush: bool)
    requires Apart(win, g) && g.Valid() && |g.items| + 1 < LIT_BUFSIZE && win.Sized() && win.Filled()
            && 0 < win.strstart
    requires Sent(win.input.data, win.Abs(win.blockStart), win.Abs(win.strstart) - 1, g.items, g.w.Contents())
    modifies g.Repr()
    ensures g.Valid() && (!flush ==> |g.items| + 1 < LIT_BUFSIZE)
    ensures win.strstart <= win.window.Length && g.items == old(g.items) + [Literal(win.window[win.strstart - 1])]
    ensures flush <==> EndsBlock(old(g.Map()), g.items, win.strstart - win.blockStart)
    ensures Sent(win.input.data, win.Abs(win.blockStart), win.Abs(win.strstart), g.items, g.w.Contents())
  {
    hide *;
    ApartFacts(win, g);
    WriterValid(g);
    g.ReprHas();
    AbsIs(win);
    ghost var data, at := win.input.data, win.Abs(win.strstart) - 1;
    PendingByte(win);
    LiteralItem(data[at]);
    SentLiteral(data, win.Abs(win.blockStart), at, g.items, g.w.Contents());
    flush := g.CtTally(0, win.window[win.strstart - 1], win.strstart, win.blockStart, Literal(data[at]));
  }

  /** The loop invariant of deflate: everything before the byte that is still undecided has been sent or saved. */
  ghost predicate Running(win: SlidingWindow, g: Globals2, matchAvailable: bool, matchLength: nat)
    reads win, win.window, win.prev, win.input, g, g.Repr(), g.tables.Repr()
  {
    && Apart(win, g) && win.Valid() && g.Valid() && |g.items| + 1 < LIT_BUFSIZE
    && (win.lookahead > 0 ==> HashReady(win.window[..], win.insH, win.strstart))
    && Lazy(win, matchAvailable, matchLength)
    && Sent(win.input.data, win.Abs(win.blockStart), win.Abs(win.strstart) - (if matchAvailable then 1 else 0),
            g.items, g.w.Contents())
  }

  /** Enough lookahead, except at the end of the input. */
  ghost predicate Stocked(win: SlidingWindow)
    reads win
  {
    win.eofile || MIN_LOOKAHEAD <= win.lookahead
  }

  /** Enters the string at strstart and looks for a match there, with matchLength the one at the position before. */
  method Probe(win: SlidingWindow, g: Globals2, matchLength: nat, ghost items: seq<Item>, ghost contents: seq<bool>)
    returns (matchLength': nat)
    requires Apart(win, g) && Holding(g, items, contents) && win.Valid() && 0 < win.lookahead
    requires 2 <= matchLength <= MAX_MATCH && HashReady(win.window[..], win.insH, win.strstart)
    modifies win`insH, win`prevLength, win`matchStart, win.prev
    ensures Holding(g, items, contents) && win.prevLength == matchLength
    ensures |old(win.prev[..])| == PREV_SIZE && win.strstart + 2 < win.window.Length
    ensures win.prev[..] == Inserted(old(win.prev[..]), win.strstart, HashAt(win.window[..], win.strstart))
    ensures Finds(win.window[..], win.prev[..], old(win.prev[..])[WSIZE + HashAt(win.window[..], win.strstart)],
                  win.strstart, win.lookahead, matchLength, matchLength', win.matchStart)
    ensures win.Filled() && Chains(win.window[..], win.prev[..], win.strstart + 1)
            && HashReady(win.window[..], win.insH, win.strstart + 1)
    ensures matchLength' <= MAX_MATCH && (win.lookahead >= 2 ==> 2 <= matchLength')
    ensures matchLength' > matchLength ==>
              matchLength' <= win.lookahead
                  && Repeats(win.input.data, win.Abs(win.matchStart), win.Abs(win.strstart), matchLength')
  {
    hide Chains, HashReady, Holding, Repeats, Link, Hash3, Inserted, Finds;
    var hashHead := win.InsertString(win.strstart, win.strstart);
    win.prevLength := matchLength;
    matchLength' := FindMatch(win, hashHead);
  }

  /** The byte at strstart - 1 is sent as a literal, and the one at strstart is the next to be decided. */
  method StepLiteral(win: SlidingWindow, g: Globals2)
    requires Apart(win, g) && g.Valid() && |g.items| + 1 < LIT_BUFSIZE && win.Sized() && win.Filled()
            && 0 < win.strstart && 0 < win.lookahead
    requires Sent(win.input.data, win.Abs(win.blockStart), win.Abs(win.strstart) - 1, g.items, g.w.Contents())
    requires Chains(win.window[..], win.prev[..], win.strstart + 1)
            && HashReady(win.window[..], win.insH, win.strstart + 1)
    modifies win`strstart, win`lookahead, win`blockStart, g.Repr()
    ensures g.Valid() && |g.items| + 1 < LIT_BUFSIZE && win.Valid() && HashReady(win.window[..], win.insH, win.strstart)
    ensures old(win.strstart) <= win.window.Length
    ensures g.items == ItemsAfter(old(g.Map()), old(g.items), Literal(win.window[old(win.strstart) - 1]),
                                  old(win.strstart - win.blockStart))
    ensures win.strstart == old(win.strstart) + 1 && win.lookahead == old(win.lookahead) - 1
    ensures Sent(win.input.data, win.Abs(win.blockStart), win.Abs(win.strstart) - 1, g.items, g.w.Contents())
  {
    hide g.Valid, Sent, Chains, HashReady, g.w.Contents, g.w.Valid, Apart, g.Repr, g.tables.Repr, EndsBlock;
    ApartFacts(win, g);
    var flush := SendLiteral(win, g);
    if flush { Flush(win, g); }
    win.strstart := win.strstart + 1;
    win.lookahead := win.lookahead - 1;
  }

  /** One turn of the main loop, up to the refilling of the window. */
  method Step(win: SlidingWindow, g: Globals2, matchAvailable: bool, matchLength: nat)
    returns (matchAvailable': bool, matchLength': nat)
    requires Running(win, g, matchAvailable, matchLength) && Stocked(win) && 0 < win.lookahead
    modifies win`insH, win`strstart, win`prevLength, win`matchStart, win`lookahead, win`blockStart, win.prev, g.Repr()
    ensures Running(win, g, matchAvailable', matchLength') && (win.eofile || 2 <= win.lookahead)
    ensures win.Abs(win.strstart) > old(win.Abs(win.strstart)) && win.eofile == old(win.eofile)
    ensures Stepped(win.window[..], old(win.lookahead), old(g.Map()), old(win.strstart - win.blockStart),
                    old(Now(win, g, matchAvailable, matchLength)), Now(win, g, matchAvailable', matchLength'))
  {
    hide *;
    RunningParts(win, g, matchAvailable, matchLength);
    ApartFacts(win, g);
    WriterValid(g);
    NowHolding(g);
    AbsIs(win);
    var prevMatch := win.matchStart;
    ghost var items, contents := g.items, g.w.Contents();
    ghost var cm, bytes, a := g.Map(), win.strstart - win.blockStart, Now(win, g, matchAvailable, matchLength);
    ghost var w, lookahead := win.window[..], win.lookahead;
    NowIs(win, g, matchAvailable, matchLength);
    matchLength' := Probe(win, g, matchLength, items, contents);
    ghost var prev, found := win.prev[..], matchLength';
    assert g.Map() == cm;
    AbsIs(win);
    HoldingParts(g, items, contents);
    if win.prevLength >= MIN_MATCH && matchLength' <= win.prevLength {
      SendMatch(win, g, prevMatch);
      matchAvailable', matchLength' := false, MIN_MATCH - 1;
    } else if matchAvailable {
      matchAvailable' := true;
      StepLiteral(win, g);
    } else {
      matchAvailable' := true;
      StepWait(win, g, items, contents);
      HoldingParts(g, items, contents);
    }
    AbsIs(win);
    WriterValid(g);
    NowRunning(win, g, matchAvailable', matchLength');
    NowIs(win, g, matchAvailable', matchLength');
    StartInside(win);
    NowStepped(w, lookahead, cm, bytes, a, Now(win, g, matchAvailable', matchLength'), prev, found);
  }

  lemma {:induction false} StartInside(win: SlidingWindow)
    requires win.Valid()
    ensures win.strstart + 2 <= win.window.Length
  {
  }

  lemma {:induction false} NowIs(win: SlidingWindow, g: Globals2, available: bool, length: nat)
    ensures Now(win, g, available, length)
            == State(win.prev[..], win.strstart, available, length, win.matchStart, g.items)
  {
  }

  lemma {:induction false} NowStepped(w: seq<byte>, lookahead: nat, cm: CodeMap, bytes: int, a: State, b: State,
      prev: seq<nat>, found: nat)
    requires |a.prev| == PREV_SIZE && a.start + 2 < |w|
    requires prev == Inserted(a.prev, a.start, HashAt(w, a.start))
    requires Finds(w, prev, a.prev[WSIZE + HashAt(w, a.start)], a.start, lookahead, a.length, found, b.from)
    requires if a.length >= MIN_MATCH && found <= a.length then
               && a.from < a.start - 1
               && b.items == ItemsAfter(cm, a.items, Match(a.length, a.start - 1 - a.from), bytes)
               && !b.available && b.length == MIN_MATCH - 1 && b.start == a.start + a.length - 1
               && b.start + 2 <= |w| && b.prev == InsertedAll(w, prev, a.start + 1, a.length - 2)
             else
               && (if a.available then
                     0 < a.start && b.items == ItemsAfter(cm, a.items, Literal(w[a.start - 1]), bytes)
                   else b.items == a.items)
               && b.available && b.length == found && b.start == a.start + 1 && b.prev == prev
    ensures Stepped(w, lookahead, cm, bytes, a, b)
  {
    hide Finds, ItemsAfter, Inserted, Hash3;
    if a.length >= MIN_MATCH && found <= a.length {
      InsertedFirst(w, a.prev, a.start, a.length - 2);
    } else {
      InsertedOne(w, a.prev, a.start);
    }
    assert Decided(w, cm, bytes, a, b, found);
  }

  lemma {:induction false} InsertedOne(w: seq<byte>, prev: seq<nat>, ins: nat)
    requires |prev| == PREV_SIZE && ins + 2 < |w|
    ensures InsertedAll(w, prev, ins, 1) == Inserted(prev, ins, HashAt(w, ins))
  {
    hide Hash3, Inserted;
    assert InsertedAll(w, prev, ins, 0) == prev;
  }

  /** Nothing is sent; the byte at strstart is the next to be decided. */
  method StepWait(win: SlidingWindow, g: Globals2, ghost items: seq<Item>, ghost contents: seq<bool>)
    requires Apart(win, g) && Holding(g, items, contents) && win.Sized() && win.Filled() && 0 < win.lookahead
    requires Chains(win.window[..], win.prev[..], win.strstart + 1)
            && HashReady(win.window[..], win.insH, win.strstart + 1)
    modifies win`strstart, win`lookahead
    ensures Holding(g, items, contents) && win.Valid() && HashReady(win.window[..], win.insH, win.strstart)
    ensures win.strstart == old(win.strstart) + 1 && win.lookahead == old(win.lookahead) - 1
  {
    hide Holding, Chains, HashReady;
    win.strstart := win.strstart + 1;
    win.lookahead := win.lookahead - 1;
  }

  lemma {:induction false} HoldingParts(g: Globals2, items: seq<Item>, contents: seq<bool>)
    requires Holding(g, items, contents)
    ensures g.Valid() && g.w.Valid() && g.items == items && g.w.Contents() == contents
  {
  }

  lemma {:induction false} RunningParts(win: SlidingWindow, g: Globals2, matchAvailable: bool, matchLength: nat)
    requires Running(win, g, matchAvailable, matchLength) && Stocked(win)
    ensures Apart(win, g) && win.Valid() && win.Sized() && win.Filled() && g.Valid() && g.w.Valid()
            && |g.items| + 1 < LIT_BUFSIZE
    ensures win.lookahead > 0 ==> HashReady(win.window[..], win.insH, win.strstart) && 2 <= matchLength
    ensures matchLength <= MAX_MATCH && (!matchAvailable ==> matchLength == MIN_MATCH - 1)
            && (matchAvailable ==> win.strstart > 0)
    ensures matchLength >= MIN_MATCH ==>
              && matchLength <= win.lookahead + 1
              && Repeats(win.input.data, win.Abs(win.matchStart), win.Abs(win.strstart) - 1, matchLength)
    ensures Sent(win.input.data, win.Abs(win.blockStart), win.Abs(win.strstart) - (if matchAvailable then 1 else 0),
            g.items, g.w.Contents())
    ensures MIN_MATCH == 3 && MAX_MATCH == 258 && (win.eofile || 262 <= win.lookahead)
  {
    hide g.Valid, Sent, Repeats, HashReady, Chains, g.w.Contents, Apart;
    WriterValid(g);
  }

  lemma {:induction false} NowRunning(win: SlidingWindow, g: Globals2, matchAvailable: bool, matchLength: nat)
    requires Apart(win, g) && win.Valid() && g.Valid() && g.w.Valid() && |g.items| + 1 < LIT_BUFSIZE
    requires win.lookahead > 0 ==> HashReady(win.window[..], win.insH, win.strstart) && 2 <= matchLength
    requires matchLength <= MAX_MATCH && (!matchAvailable ==> matchLength == MIN_MATCH - 1)
            && (matchAvailable ==> win.strstart > 0)
    requires matchLength >= MIN_MATCH ==>
              && matchLength <= win.lookahead + 1
              && Repeats(win.input.data, win.Abs(win.matchStart), win.Abs(win.strstart) - 1, matchLength)
    requires Sent(win.input.data, win.Abs(win.blockStart), win.Abs(win.strstart) - (if matchAvailable then 1 else 0),
            g.items, g.w.Contents())
    ensures Running(win, g, matchAvailable, matchLength)
  {
    hide g.Valid, Sent, Repeats, HashReady, Chains, g.w.Contents, Apart;
  }

  /** One call of fill_window does not touch the block. */
  method FillKeeps(win: SlidingWindow, g: Globals2, ghost items: seq<Item>, ghost contents: seq<bool>)
    requires Apart(win, g) && Holding(g, items, contents) && win.Valid()
    requires 2 <= win.lookahead < MIN_LOOKAHEAD && !win.eofile && HashReady(win.window[..], win.insH, win.strstart)
    modifies win`matchStart, win`strstart, win`blockStart, win`base, win`lookahead, win`eofile, win.window, win.prev,
        win.input
    ensures Holding(g, items, contents) && win.Valid() && HashReady(win.window[..], win.insH, win.strstart)
    ensures win.Abs(win.strstart) == old(win.Abs(win.strstart))
            && win.Abs(win.matchStart) == old(win.Abs(win.matchStart))
    ensures win.Abs(win.blockStart) == old(win.Abs(win.blockStart)) && (old(win.strstart) == 0 <==> win.strstart == 0)
    ensures win.lookahead >= old(win.lookahead) && (win.eofile || win.lookahead > old(win.lookahead))
  {
    hide Chains, HashReady, Holding;
    win.FillWindow();
  }

  /** Makes sure that there is enough lookahead. */
  method Refill(win: SlidingWindow, g: Globals2, ghost matchAvailable: bool, ghost matchLength: nat)
    requires Running(win, g, matchAvailable, matchLength) && (win.eofile || 2 <= win.lookahead)
    modifies win`matchStart, win`strstart, win`blockStart, win`base, win`lookahead, win`eofile, win.window, win.prev,
        win.input
    ensures Running(win, g, matchAvailable, matchLength) && Stocked(win)
            && win.Abs(win.strstart) == old(win.Abs(win.strstart))
  {
    hide g.Valid, Sent, Chains, HashReady, Repeats, g.w.Contents, g.w.Valid, g.Repr, g.tables.Repr, Apart;
    WriterValid(g);
    ghost var items, contents := g.items, g.w.Contents();
    while win.lookahead < MIN_LOOKAHEAD && !win.eofile
      invariant Running(win, g, matchAvailable, matchLength) && (win.eofile || 2 <= win.lookahead)
      invariant win.Abs(win.strstart) == old(win.Abs(win.strstart)) && Holding(g, items, contents)
      decreases !win.eofile, MIN_LOOKAHEAD - win.lookahead
    {
      FillKeeps(win, g, items, contents);
    }
  }

  /** deflate: what it sends inflates to everything that has been read. */
  method Deflate(win: SlidingWindow, g: Globals2) returns (len: nat)
    requires Running(win, g, false, MIN_MATCH - 1) && Stocked(win)
    modifies win, win.window, win.prev, win.input, g.Repr()
    ensures g.w.Valid() && g.w.biValid == 0 && |g.w.Contents()| == 8 * len
    ensures win.input.pos <= |win.input.data| && Decodes([], g.w.Contents(), [], win.input.data[..win.input.pos], true)
    ensures win.input.failed || win.input.pos == |win.input.data|
  {
    hide Running, Decodes, g.w.Valid, g.w.Contents, g.Repr;
    var matchAvailable, matchLength: nat := false, MIN_MATCH - 1;
    ghost var size := |win.input.data|;
    while win.lookahead != 0
      invariant Running(win, g, matchAvailable, matchLength) && Stocked(win)
      decreases size - win.Abs(win.strstart)
    {
      Bounded(win, g, matchAvailable, matchLength);
      matchAvailable, matchLength := Step(win, g, matchAvailable, matchLength);
      Refill(win, g, matchAvailable, matchLength);
    }
    len := Finish(win, g, matchAvailable, matchLength);
  }

  lemma {:induction false} Bounded(win: SlidingWindow, g: Globals2, matchAvailable: bool, matchLength: nat)
    requires Running(win, g, matchAvailable, matchLength)
    ensures win.Abs(win.strstart) + win.lookahead <= |win.input.data|
  {
  }

  /** The last literal and the last block. */
  method Finish(win: SlidingWindow, g: Globals2, matchAvailable: bool, ghost matchLength: nat) returns (len: nat)
    requires Running(win, g, matchAvailable, matchLength) && win.lookahead == 0 && win.eofile
    modifies g.Repr()
    ensures g.w.Valid() && g.w.biValid == 0 && |g.w.Contents()| == 8 * len
    ensures win.input.pos <= |win.input.data| && Decodes([], g.w.Contents(), [], win.input.data[..win.input.pos], true)
    ensures win.input.failed || win.input.pos == |win.input.data|
  {
    hide g.Valid, Decodes, ApplyAll, g.w.Contents, g.w.Valid, Chains, HashReady, Repeats, g.Repr, g.tables.Repr, Apart;
    ApartFacts(win, g);
    if matchAvailable { var _ := SendLiteral(win, g); }
    len := FlushLast(win, g);
  }

  /** FLUSH_BLOCK(1). */
  method FlushLast(win: SlidingWindow, g: Globals2) returns (len: nat)
    requires Apart(win, g) && g.Valid() && win.Sized() && win.Filled() && win.strstart < WINDOW_SIZE
    requires Sent(win.input.data, win.Abs(win.blockStart), win.Abs(win.strstart), g.items, g.w.Contents())
    modifies g.Repr()
    ensures g.w.Valid() && g.w.biValid == 0 && |g.w.Contents()| == 8 * len
    ensures Decodes([], g.w.Contents(), [], win.input.data[..win.Abs(win.strstart)], true)
  {
    hide *;
    ApartFacts(win, g);
    AbsIs(win);
    WriterValid(g);
    ghost var data, b, a := BlockOf(win, g.items, g.w.Contents());
    ghost var before := g.w.Contents();
    len := g.FlushBlock(win.window, win.blockStart, win.strstart - win.blockStart, true, data[..b], data[b..a]);
    DecodesChain([], before, g.w.Contents(), [], data[..b], data[..a], true);
  }

  /** Everything deflate needs for a new file. */
  method Start(data: seq<byte>) returns (win: SlidingWindow, g: Globals2)
    ensures fresh(win) && fresh(win.window) && fresh(win.prev) && fresh(win.input) && fresh(g.Repr())
            && win.input.data == data
    ensures Running(win, g, false, MIN_MATCH - 1) && Stocked(win)
  {
    hide *;
    var input := new Input(data);
    win := new SlidingWindow(input);
    g := NewGlobals();
    NowApart(win, g);
    NowHolding(g);
    LmInitKeeps(win, g);
    Started(win, g);
  }

  lemma {:induction false} NowApart(win: SlidingWindow, g: Globals2)
    requires {win, win.window as object, win.prev as object, win.input} !! g.Repr() + g.tables.Repr()
    ensures Apart(win, g)
  {
  }

  lemma {:induction false} NowHolding(g: Globals2)
    ensures g.Valid() ==> Holding(g, g.items, g.w.Contents())
  {
  }

  method LmInitKeeps(win: SlidingWindow, g: Globals2)
    requires Apart(win, g) && Holding(g, [], []) && win.Sized() && win.input.pos == 0
    modifies win, win.window, win.prev, win.input
    ensures Holding(g, [], []) && win.Valid() && win.strstart == 0 && win.base == 0 && win.blockStart == 0
            && Stocked(win)
    ensures win.lookahead != 0 ==> HashReady(win.window[..], win.insH, 0)
  {
    hide win.Valid, Holding, HashReady;
    win.LmInit();
  }

  /** The compressed form of the input that could be read: it inflates to exactly that. */
  method Zip(data: seq<byte>) returns (bytes: seq<byte>, taken: nat, failed: bool, len: nat)
    ensures taken <= |data| && (failed || taken == |data|)
    ensures Inflate.Inflate(bytes) == Some(data[..taken])
    ensures |bytes| == len
  {
    hide Decodes, InflateFrom, Running;
    var win, g := Start(data);
    hide g.w.Contents;
    len := Deflate(win, g);
    WholeBytes(g.w, len, data[..win.input.pos]);
    ghost var all := g.w.Bytes();
    g.w.FlushOutbuf();
    bytes := g.w.written;
    assert bytes == all;
    taken, failed := win.input.pos, win.input.failed;
  }

  lemma {:induction false} Started(win: SlidingWindow, g: Globals2)
    requires Apart(win, g) && win.Valid() && Holding(g, [], [])
    requires win.strstart == 0 && win.base == 0 && win.blockStart == 0
            && (win.lookahead != 0 ==> HashReady(win.window[..], win.insH, 0))
    ensures Running(win, g, false, MIN_MATCH - 1)
  {
  }

  /** Without bits left over, the bytes hold all that was sent. */
  lemma {:induction false} WholeBytes(w: BitWriter, len: nat, out: seq<byte>)
    requires w.Valid() && w.biValid == 0 && |w.Contents()| == 8 * len && Decodes([], w.Contents(), [], out, true)
    ensures |w.Bytes()| == len && Inflate.Inflate(w.Bytes()) == Some(out)
  {
    hide InflateFrom, ByteBits;
    assert w.Contents() == ByteBits(w.Bytes());
  }
}
